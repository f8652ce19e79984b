/** Building an application's options: consecutive providers of one kind go into one fx option. */
module Batching {
  // ---- Nodes and options -------------------------------------------------

  /** A node with what building it gives: a constructor or a value to provide or supply, privately or
      not, and options that go with it; some other option; or a failure. */
  datatype Node<V, O> =
    | Decorate
    | Provide(ctor: V, private: bool, extra: seq<O>)
    | Supply(value: V, private: bool, extra: seq<O>)
    | Other(opt: O)
    | Fails(reason: O)

  datatype Kind = Providing | Supplying

  datatype Option<V, O> = Batch(kind: Kind, items: seq<V>, private: bool) | Single(opt: O)

  /** What an option amounts to, item by item. */
  datatype Unit<V, O> = Provided(ctor: V, private: bool) | Supplied(value: V, private: bool) | Plain(opt: O)

  function UnitOf<V, O>(kind: Kind, item: V, private: bool): Unit<V, O> {
    if kind.Providing? then Provided(item, private) else Supplied(item, private)
  }

  function UnitsOf<V, O>(kind: Kind, items: seq<V>, private: bool): seq<Unit<V, O>> {
    seq(|items|, i requires 0 <= i < |items| => UnitOf(kind, items[i], private))
  }

  function Plains<V, O>(opts: seq<O>): seq<Unit<V, O>> {
    seq(|opts|, i requires 0 <= i < |opts| => Plain(opts[i]))
  }

  function Unfold<V, O>(opts: seq<Option<V, O>>): seq<Unit<V, O>> {
    if opts == [] then []
    else
      Unfold(opts[..|opts| - 1]) +
      match opts[|opts| - 1]
      case Batch(kind, items, private) => UnitsOf(kind, items, private)
      case Single(opt) => [Plain(opt)]
  }

  /** What one node adds. */
  function MeaningOf<V, O>(n: Node<V, O>): seq<Unit<V, O>> {
    match n
    case Provide(ctor, private, extra) => [Provided(ctor, private)] + Plains(extra)
    case Supply(value, private, extra) => [Supplied(value, private)] + Plains(extra)
    case Other(opt) => [Plain(opt)]
    case _ => []
  }

  /** The options of the nodes, emitted one node at a time; the first failure ends the list. */
  function Meaning<V, O>(nodes: seq<Node<V, O>>): (seq<Unit<V, O>>, bool) {
    if nodes == [] then ([], true)
    else
      var (front, ok) := Meaning(nodes[..|nodes| - 1]);
      if !ok || nodes[|nodes| - 1].Fails? then (front, false) else (front + MeaningOf(nodes[|nodes| - 1]), true)
  }

  lemma UnfoldSnoc<V, O>(opts: seq<Option<V, O>>, o: Option<V, O>)
    ensures Unfold(opts + [o]) ==
            Unfold(opts) + match o case Batch(k, items, p) => UnitsOf(k, items, p) case Single(opt) => [Plain(opt)]
  {
    assert (opts + [o])[..|opts|] == opts;
  }

  lemma {:induction false} UnfoldPlains<V, O>(opts: seq<Option<V, O>>, extra: seq<O>, singles: seq<Option<V, O>>)
    requires |singles| == |extra| && forall i | 0 <= i < |extra| :: singles[i] == Single(extra[i])
    ensures Unfold(opts + singles) == Unfold(opts) + Plains(extra)
  {
    hide Unfold, Plains;
    var all: seq<Unit<V, O>> := Unfold(opts);
    if extra == [] {
      NoPlains<V, O>();
      assert opts + singles == opts && all + [] == all;
    } else {
      var n := |extra| - 1;
      UnfoldPlains(opts, extra[..n], singles[..n]);
      assert opts + singles == (opts + singles[..n]) + [singles[n]];
      UnfoldSnoc(opts + singles[..n], singles[n]);
      PlainsSnoc<V, O>(extra);
      assert all + Plains(extra[..n]) + [Plain(extra[n])] == all + (Plains(extra[..n]) + [Plain(extra[n])]);
    }
  }

  lemma PlainsSnoc<V, O>(opts: seq<O>)
    requires opts != []
    ensures Plains<V, O>(opts) == Plains(opts[..|opts| - 1]) + [Plain(opts[|opts| - 1])]
  {
  }

  // ---- Batches -----------------------------------------------------------

  predicate SameBatch<V, O>(a: Option<V, O>, b: Option<V, O>) {
    a.Batch? && b.Batch? && a.kind == b.kind && a.private == b.private
  }

  /** No batch is empty, and none could have been joined to the one before it. */
  ghost predicate Maximal<V, O>(opts: seq<Option<V, O>>) {
    && (forall i | 0 <= i < |opts| && opts[i].Batch? :: opts[i].items != [])
    && (forall i | 0 < i < |opts| && opts[i - 1].Batch? && opts[i].Batch? ::
          opts[i - 1].kind != opts[i].kind || opts[i - 1].private != opts[i].private)
  }

  datatype Pending = Nothing | OfProvide | OfSupply

  /** The variables the closures of Build share. */
  class Batcher<V(==), O(==)> {
    var opts: seq<Option<V, O>>
    var batchProvide: seq<V>
    var batchSupply: seq<V>
    var batchKind: Pending
    var batchPrivate: bool

    constructor ()
      ensures Valid() && Units() == [] && Flushed()
    {
      opts, batchProvide, batchSupply, batchKind, batchPrivate := [], [], [], Nothing, false;
    }

    /** At most one kind is pending, and the kind says which; batches are as long as they can be. */
    ghost predicate Sound()
      reads this
    {
      && (batchKind.OfProvide? <==> batchProvide != []) && (batchKind.OfSupply? <==> batchSupply != [])
      && Maximal(opts)
      && (opts != [] && !Flushed() ==> !SameBatch(opts[|opts| - 1], Held()))
    }

    /** Between nodes, what comes last is still pending unless it is an option of its own. */
    ghost predicate Valid()
      reads this
    {
      Sound() && (Flushed() && opts != [] ==> opts[|opts| - 1].Single?)
    }

    predicate Flushed()
      reads this
    {
      batchProvide == [] && batchSupply == []
    }

    /** The option the pending items will become. */
    function Held(): Option<V, O>
      reads this
    {
      if batchProvide != [] then Batch(Providing, batchProvide, batchPrivate)
      else Batch(Supplying, batchSupply, batchPrivate)
    }

    /** What has been emitted, the pending items included. */
    function Units(): seq<Unit<V, O>>
      reads this
    {
      Unfold(if Flushed() then opts else opts + [Held()])
    }

    method FlushBatch()
      requires Sound()
      modifies this
      ensures Sound() && Flushed() && Units() == old(Units())
      ensures opts == if old(Flushed()) then old(opts) else old(opts) + [old(Held())]
    {
      hide Unfold;
      if |batchProvide| > 0 {
        opts := opts + [Batch(Providing, batchProvide, batchPrivate)];
      } else if |batchSupply| > 0 {
        opts := opts + [Batch(Supplying, batchSupply, batchPrivate)];
      }
      batchProvide, batchSupply, batchKind, batchPrivate := [], [], Nothing, false;
    }

    method AddProvide(ctor: V, private: bool)
      requires Valid()
      modifies this
      ensures Valid() && Units() == old(Units()) + [Provided(ctor, private)]
    {
      hide Unfold, Maximal;
      if batchKind != OfProvide || batchPrivate != private {
        FlushBatch();
        batchKind, batchPrivate := OfProvide, private;
      }
      UnfoldGrown(opts, Providing, batchProvide, ctor, private);
      batchProvide := batchProvide + [ctor];
    }

    method AddSupply(value: V, private: bool)
      requires Valid()
      modifies this
      ensures Valid() && Units() == old(Units()) + [Supplied(value, private)]
    {
      hide Unfold, Maximal;
      if batchKind != OfSupply || batchPrivate != private {
        FlushBatch();
        batchKind, batchPrivate := OfSupply, private;
      }
      UnfoldGrown(opts, Supplying, batchSupply, value, private);
      batchSupply := batchSupply + [value];
    }

    /** Options of their own, after whatever is pending. */
    method AddSingles(extra: seq<O>)
      requires Sound()
      modifies this
      ensures Sound() && Flushed() && Units() == old(Units()) + Plains(extra)
      ensures extra != [] ==> Valid()
      ensures extra == [] && old(Flushed()) ==> opts == old(opts)
    {
      hide Unfold, Plains;
      FlushBatch();
      var singles := seq(|extra|, i requires 0 <= i < |extra| => Single(extra[i]));
      UnfoldPlains(opts, extra, singles);
      MaximalSingles(opts, singles);
      opts := opts + singles;
    }

    /** The loop over the nodes, to the end or to the first failure. */
    method AddNodes(nodes: seq<Node<V, O>>) returns (ok: bool)
      requires Valid()
      modifies this
      ensures Sound() && Flushed()
      ensures Units() == old(Units()) + Meaning(nodes).0 && ok == Meaning(nodes).1
    {
      hide Meaning, Unfold, Maximal, MeaningOf;
      MeaningNone<V, O>();
      assert nodes[..0] == [];
      for i := 0 to |nodes|
        invariant Valid()
        invariant Units() == old(Units()) + Meaning(nodes[..i]).0 && Meaning(nodes[..i]).1
      {
        MeaningNext(nodes, i);
        if nodes[i].Fails? {
          FlushBatch();
          FailsEarly(nodes, i + 1);
          return false;
        }
        AddNode(nodes[i]);
      }
      FlushBatch();
      assert nodes[..|nodes|] == nodes;
      ok := true;
    }

    method AddNode(n: Node<V, O>)
      requires Valid() && !n.Fails?
      modifies this
      ensures Valid() && Units() == old(Units()) + MeaningOf(n)
    {
      hide Unfold, Maximal, Plains;
      NoPlains<V, O>();
      match n {
        case Decorate =>
        case Provide(ctor, private, extra) =>
          AddProvide(ctor, private);
          AddExtra(extra);
          assert old(Units()) + [Provided(ctor, private)] + Plains(extra) ==
                   old(Units()) + ([Provided(ctor, private)] + Plains(extra));
        case Supply(value, private, extra) =>
          AddSupply(value, private);
          AddExtra(extra);
          assert old(Units()) + [Supplied(value, private)] + Plains(extra) ==
                   old(Units()) + ([Supplied(value, private)] + Plains(extra));
        case Other(opt) =>
          AddSingles([opt]);
          OnePlain<V, O>(opt);
      }
    }

    /** What follows the nodes: decorators and diagnostics, or diagnostics and the error. */
    method Finish(ok: bool, decorators: seq<O>, diagnostics: seq<O>, error: O)
      requires Sound()
      modifies this
      ensures Sound() && Flushed() && Units() == old(Units()) + Closing(ok, decorators, diagnostics, error)
    {
      hide Unfold, Maximal, Plains;
      ghost var all := Units();
      if ok {
        AddSingles(decorators);
        AddSingles(diagnostics);
        assert all + Plains(decorators) + Plains(diagnostics) == all + (Plains(decorators) + Plains(diagnostics));
      } else {
        AddSingles(diagnostics + [error]);
      }
    }

    method AddExtra(extra: seq<O>)
      requires Valid()
      modifies this
      ensures Valid() && Units() == old(Units()) + Plains(extra)
    {
      hide Unfold, Maximal, Plains;
      if |extra| > 0 {
        AddSingles(extra);
      } else {
        NoPlains<V, O>();
        assert Units() + [] == Units();
      }
    }
  }

  lemma NoPlains<V, O>()
    ensures Plains<V, O>([]) == []
  {
  }

  lemma OnePlain<V, O>(opt: O)
    ensures Plains<V, O>([opt]) == [Plain(opt)]
  {
  }

  /** One more pending item is one more unit. */
  lemma UnfoldGrown<V, O>(opts: seq<Option<V, O>>, kind: Kind, items: seq<V>, item: V, private: bool)
    ensures Unfold(opts + [Batch(kind, items + [item], private)]) ==
            Unfold(if items == [] then opts else opts + [Batch(kind, items, private)]) + [UnitOf(kind, item, private)]
  {
    UnfoldSnoc(opts, Batch(kind, items + [item], private));
    UnfoldSnoc(opts, Batch(kind, items, private));
    UnitsGrown<V, O>(kind, items, item, private);
    NoUnits<V, O>(kind, private);
    hide Unfold, UnitsOf;
    var front: seq<Unit<V, O>> := Unfold(opts);
    var held: seq<Unit<V, O>> := UnitsOf(kind, items, private);
    assert front + (held + [UnitOf(kind, item, private)]) == (front + held) + [UnitOf(kind, item, private)];
    assert items == [] ==> front + held == front;
  }

  lemma UnitsGrown<V, O>(kind: Kind, items: seq<V>, item: V, private: bool)
    ensures UnitsOf<V, O>(kind, items + [item], private) ==
              UnitsOf(kind, items, private) + [UnitOf(kind, item, private)]
  {
  }

  lemma NoUnits<V, O>(kind: Kind, private: bool)
    ensures UnitsOf<V, O>(kind, [], private) == []
  {
  }

  lemma MaximalSingles<V, O>(opts: seq<Option<V, O>>, singles: seq<Option<V, O>>)
    requires Maximal(opts) && forall i | 0 <= i < |singles| :: singles[i].Single?
    ensures Maximal(opts + singles)
  {
  }

  lemma MeaningNone<V, O>()
    ensures Meaning<V, O>([]) == ([], true)
  {
  }

  lemma MeaningNext<V, O>(nodes: seq<Node<V, O>>, i: nat)
    requires i < |nodes| && Meaning(nodes[..i]).1
    ensures Meaning(nodes[..i + 1]) ==
            if nodes[i].Fails? then (Meaning(nodes[..i]).0, false)
            else (Meaning(nodes[..i]).0 + MeaningOf(nodes[i]), true)
  {
    hide MeaningOf;
    assert nodes[..i + 1][..i] == nodes[..i];
  }

  lemma {:induction false} FailsEarly<V, O>(nodes: seq<Node<V, O>>, i: nat)
    requires i <= |nodes| && !Meaning(nodes[..i]).1
    ensures Meaning(nodes) == Meaning(nodes[..i])
  {
    if i == |nodes| {
      assert nodes[..i] == nodes;
    } else {
      assert nodes[..|nodes| - 1][..i] == nodes[..i];
      FailsEarly(nodes[..|nodes| - 1], i);
    }
  }

  function Closing<V, O>(ok: bool, decorators: seq<O>, diagnostics: seq<O>, error: O): seq<Unit<V, O>> {
    if ok then Plains(decorators) + Plains(diagnostics) else Plains(diagnostics + [error])
  }

  // ---- Nothing is lost ---------------------------------------------------

  /** The constructors, or the values, among the units, each with its privacy, in order. */
  function Picked<V, O>(units: seq<Unit<V, O>>, kind: Kind): seq<(V, bool)> {
    if units == [] then []
    else
      var last := units[|units| - 1];
      Picked(units[..|units| - 1], kind) +
      (if last.Provided? && kind.Providing? then [(last.ctor, last.private)]
       else if last.Supplied? && kind.Supplying? then [(last.value, last.private)] else [])
  }

  /** The other options among the units. */
  function Loose<V, O>(units: seq<Unit<V, O>>): seq<O> {
    if units == [] then []
    else Loose(units[..|units| - 1]) + (if units[|units| - 1].Plain? then [units[|units| - 1].opt] else [])
  }

  /** The items of one kind in the batches, and the single options, in order. */
  function Batched<V, O>(opts: seq<Option<V, O>>, kind: Kind): seq<(V, bool)> {
    if opts == [] then []
    else
      var last := opts[|opts| - 1];
      Batched(opts[..|opts| - 1], kind)
      + (if last.Batch? && last.kind == kind then Marked(last.items, last.private) else [])
  }

  function Singles<V, O>(opts: seq<Option<V, O>>): seq<O> {
    if opts == [] then []
    else Singles(opts[..|opts| - 1]) + (if opts[|opts| - 1].Single? then [opts[|opts| - 1].opt] else [])
  }

  function Marked<V>(items: seq<V>, private: bool): seq<(V, bool)> {
    seq(|items|, i requires 0 <= i < |items| => (items[i], private))
  }

  /** Some node fails to build. */
  predicate Failing<V, O>(nodes: seq<Node<V, O>>) {
    exists i :: 0 <= i < |nodes| && nodes[i].Fails?
  }

  /** The constructors, or the values, that the nodes before the first failure declare. */
  function Declared<V, O>(nodes: seq<Node<V, O>>, kind: Kind): seq<(V, bool)> {
    if nodes == [] then []
    else if nodes[0].Fails? then []
    else
      (if nodes[0].Provide? && kind.Providing? then [(nodes[0].ctor, nodes[0].private)]
       else if nodes[0].Supply? && kind.Supplying? then [(nodes[0].value, nodes[0].private)] else [])
      + Declared(nodes[1..], kind)
  }

  /** The options that the nodes before the first failure bring besides. */
  function Besides<V, O>(nodes: seq<Node<V, O>>): seq<O> {
    if nodes == [] then []
    else if nodes[0].Fails? then []
    else
      (if nodes[0].Provide? || nodes[0].Supply? then nodes[0].extra else if nodes[0].Other? then [nodes[0].opt] else [])
      + Besides(nodes[1..])
  }

  lemma {:induction false} PickedAppend<V, O>(a: seq<Unit<V, O>>, b: seq<Unit<V, O>>, kind: Kind)
    ensures Picked(a + b, kind) == Picked(a, kind) + Picked(b, kind) && Loose(a + b) == Loose(a) + Loose(b)
  {
    if b == [] {
      assert a + b == a;
    } else {
      assert (a + b)[..|a + b| - 1] == a + b[..|b| - 1];
      PickedAppend(a, b[..|b| - 1], kind);
    }
  }

  lemma PickedOne<V, O>(u: Unit<V, O>, kind: Kind)
    ensures Picked([u], kind) ==
            if u.Provided? && kind.Providing? then [(u.ctor, u.private)]
            else if u.Supplied? && kind.Supplying? then [(u.value, u.private)] else []
    ensures Loose([u]) == if u.Plain? then [u.opt] else []
  {
    assert [u][..0] == [];
    assert Picked([u][..0], kind) == [] && Loose([u][..0]) == [];
  }

  lemma {:induction false} PickedUnits<V, O>(of: Kind, items: seq<V>, private: bool, kind: Kind)
    ensures var units: seq<Unit<V, O>> := UnitsOf(of, items, private);
            Picked(units, kind) == (if of == kind then Marked(items, private) else []) && Loose(units) == []
  {
    var units: seq<Unit<V, O>> := UnitsOf(of, items, private);
    if items == [] {
      assert units == [];
    } else {
      var n := |items| - 1;
      var front: seq<Unit<V, O>> := UnitsOf(of, items[..n], private);
      PickedUnits<V, O>(of, items[..n], private, kind);
      assert units == front + [UnitOf(of, items[n], private)];
      PickedAppend(front, [UnitOf(of, items[n], private)], kind);
      PickedOne<V, O>(UnitOf(of, items[n], private), kind);
      hide Picked, Loose;
      assert Marked(items, private) == Marked(items[..n], private) + [(items[n], private)];
    }
  }

  lemma {:induction false} PickedPlains<V, O>(opts: seq<O>, kind: Kind)
    ensures var units: seq<Unit<V, O>> := Plains(opts); Picked(units, kind) == [] && Loose(units) == opts
  {
    var units: seq<Unit<V, O>> := Plains(opts);
    if opts == [] {
    } else {
      var n := |opts| - 1;
      PickedPlains<V, O>(opts[..n], kind);
      assert units[..n] == Plains(opts[..n]) && opts == opts[..n] + [opts[n]];
    }
  }

  lemma {:induction false} PickedUnfold<V, O>(opts: seq<Option<V, O>>, kind: Kind)
    ensures Picked(Unfold(opts), kind) == Batched(opts, kind) && Loose(Unfold(opts)) == Singles(opts)
  {
    if opts == [] {
    } else {
      var n := |opts| - 1;
      var last := opts[n];
      PickedUnfold(opts[..n], kind);
      if last.Batch? {
        PickedAppend(Unfold(opts[..n]), UnitsOf(last.kind, last.items, last.private), kind);
        PickedUnits<V, O>(last.kind, last.items, last.private, kind);
      } else {
        var one: seq<Unit<V, O>> := [Plain(last.opt)];
        PickedAppend(Unfold(opts[..n]), one, kind);
        PickedPlains<V, O>([last.opt], kind);
        assert one == Plains([last.opt]);
      }
    }
  }

  lemma MeaningFirst<V, O>(nodes: seq<Node<V, O>>)
    requires nodes != []
    ensures Meaning([nodes[0]]) == if nodes[0].Fails? then ([], false) else (MeaningOf(nodes[0]), true)
  {
    var one := [nodes[0]];
    assert one[..0] == [];
    assert [] + MeaningOf(nodes[0]) == MeaningOf(nodes[0]);
  }

  lemma {:induction false} MeaningConcat<V, O>(a: seq<Node<V, O>>, b: seq<Node<V, O>>)
    ensures var x, y := Meaning(a), Meaning(b);
            Meaning(a + b) == if x.1 then (x.0 + y.0, y.1) else (x.0, false)
  {
    if b == [] {
      assert a + b == a && Meaning(a).0 + [] == Meaning(a).0;
    } else {
      var n := |b| - 1;
      assert (a + b)[..|a + b| - 1] == a + b[..n];
      MeaningConcat(a, b[..n]);
      assert Meaning(a).0 + (Meaning(b[..n]).0 + MeaningOf(b[n])) == Meaning(a).0 + Meaning(b[..n]).0 + MeaningOf(b[n]);
    }
  }

  lemma {:induction false} MeaningItems<V, O>(nodes: seq<Node<V, O>>, kind: Kind)
    ensures Picked(Meaning(nodes).0, kind) == Declared(nodes, kind) && Loose(Meaning(nodes).0) == Besides(nodes)
    ensures Meaning(nodes).1 <==> !Failing(nodes)
  {
    hide Picked, Loose;
    if nodes == [] {
      PickedPlains<V, O>([], kind);
      NoPlains<V, O>();
    } else {
      var tail := nodes[1..];
      assert nodes == [nodes[0]] + tail;
      MeaningFirst(nodes);
      MeaningConcat([nodes[0]], tail);
      MeaningItems(tail, kind);
      FailingNext(nodes);
      PickedPlains<V, O>([], kind);
      NoPlains<V, O>();
      if !nodes[0].Fails? {
        OneItem(nodes[0], kind);
        PickedAppend(MeaningOf(nodes[0]), Meaning(tail).0, kind);
      }
      hide Meaning, MeaningOf, Failing;
    }
  }

  lemma FailingNext<V, O>(nodes: seq<Node<V, O>>)
    requires nodes != []
    ensures Failing(nodes) <==> nodes[0].Fails? || Failing(nodes[1..])
  {
    var tail := nodes[1..];
    if i :| 0 <= i < |tail| && tail[i].Fails? {
      assert nodes[i + 1].Fails?;
    }
    if i :| 0 <= i < |nodes| && nodes[i].Fails? {
      assert i > 0 ==> tail[i - 1].Fails?;
    }
  }

  lemma OneItem<V, O>(n: Node<V, O>, kind: Kind)
    requires !n.Fails?
    ensures Picked(MeaningOf(n), kind) ==
            if n.Provide? && kind.Providing? then [(n.ctor, n.private)]
            else if n.Supply? && kind.Supplying? then [(n.value, n.private)] else []
    ensures Loose(MeaningOf(n)) == if n.Provide? || n.Supply? then n.extra else if n.Other? then [n.opt] else []
  {
    hide Picked, Loose, Plains;
    if n.Provide? || n.Supply? {
      var u: Unit<V, O> := if n.Provide? then Provided(n.ctor, n.private) else Supplied(n.value, n.private);
      PickedAppend([u], Plains(n.extra), kind);
      PickedPlains<V, O>(n.extra, kind);
      PickedOne(u, kind);
    } else if n.Other? {
      PickedOne<V, O>(Plain(n.opt), kind);
    } else {
      PickedPlains<V, O>([], kind);
      NoPlains<V, O>();
    }
  }

  lemma {:induction false} ClosingItems<V, O>(ok: bool, decorators: seq<O>, diagnostics: seq<O>, error: O, kind: Kind)
    ensures var units: seq<Unit<V, O>> := Closing(ok, decorators, diagnostics, error);
            Picked(units, kind) == [] && Loose(units) == if ok then decorators + diagnostics else diagnostics + [error]
  {
    PickedPlains<V, O>(decorators, kind);
    PickedPlains<V, O>(diagnostics, kind);
    PickedPlains<V, O>(diagnostics + [error], kind);
    var a: seq<Unit<V, O>>, b: seq<Unit<V, O>> := Plains(decorators), Plains(diagnostics);
    PickedAppend(a, b, kind);
  }

  /** So what the built options say is what the nodes declared: each constructor and value once, with its
      privacy, kind by kind in order, up to the first failure; around them recovery, then decorators and
      diagnostics, or diagnostics and the error. */
  lemma NothingLost<V, O>(opts: seq<Option<V, O>>, nodes: seq<Node<V, O>>, recover: seq<O>, decorators: seq<O>,
                          diagnostics: seq<O>, error: O)
    requires Unfold(opts) ==
             Plains(recover) + Meaning(nodes).0 + Closing(Meaning(nodes).1, decorators, diagnostics, error)
    ensures Batched(opts, Providing) == Declared(nodes, Providing) &&
              Batched(opts, Supplying) == Declared(nodes, Supplying)
    ensures Singles(opts) ==
            recover + Besides(nodes) + if Failing(nodes) then diagnostics + [error] else decorators + diagnostics
  {
    LostOf(opts, nodes, recover, decorators, diagnostics, error, Providing);
    LostOf(opts, nodes, recover, decorators, diagnostics, error, Supplying);
  }

  lemma LostOf<V, O>(opts: seq<Option<V, O>>, nodes: seq<Node<V, O>>, recover: seq<O>, decorators: seq<O>,
                     diagnostics: seq<O>, error: O, kind: Kind)
    requires Unfold(opts) ==
             Plains(recover) + Meaning(nodes).0 + Closing(Meaning(nodes).1, decorators, diagnostics, error)
    ensures Batched(opts, kind) == Declared(nodes, kind)
    ensures Singles(opts) ==
            recover + Besides(nodes) + if Failing(nodes) then diagnostics + [error] else decorators + diagnostics
  {
    var r: seq<Unit<V, O>>, m := Plains(recover), Meaning(nodes);
    var c: seq<Unit<V, O>> := Closing(m.1, decorators, diagnostics, error);
    hide *;
    PickedUnfold(opts, kind);
    PickedAppend(r + m.0, c, kind);
    PickedAppend(r, m.0, kind);
    PickedPlains<V, O>(recover, kind);
    MeaningItems(nodes, kind);
    ClosingItems<V, O>(m.1, decorators, diagnostics, error, kind);
    assert [] + Declared(nodes, kind) + [] == Declared(nodes, kind);
  }

  /** Build, from its options' first to its last: panic recovery when diagnostics are on, the nodes,
      the composed decorators, and diagnostics; or, on a failure, what came before it, diagnostics
      and the error. */
  method Build<V(==), O(==)>(nodes: seq<Node<V, O>>, recover: seq<O>, decorators: seq<O>, diagnostics: seq<O>, error: O)
    returns (opts: seq<Option<V, O>>)
    ensures Unfold(opts) ==
            Plains(recover) + Meaning(nodes).0 + Closing(Meaning(nodes).1, decorators, diagnostics, error)
    ensures Maximal(opts)
    ensures Batched(opts, Providing) == Declared(nodes, Providing) &&
              Batched(opts, Supplying) == Declared(nodes, Supplying)
    ensures Singles(opts) ==
            recover + Besides(nodes) + if Failing(nodes) then diagnostics + [error] else decorators + diagnostics
  {
    hide Unfold, Maximal, Meaning, Plains, Closing;
    var b := new Batcher<V, O>();
    b.AddSingles(recover);
    assert b.Units() == Plains(recover);
    var ok := b.AddNodes(nodes);
    b.Finish(ok, decorators, diagnostics, error);
    opts := b.opts;
    NothingLost(opts, nodes, recover, decorators, diagnostics, error);
  }
}
