/** Numbering providers and ordering the members of a group by priority and declaration. */
module AutoOrder {
  import opened Counters

  // ---- Numbering the providers -------------------------------------------

  datatype Meta = Order(index: int) | Priority(index: int) | OtherMeta

  /** A module, an option group, a condition, or a switch with its cases and default in order; or a
      provider with its metadata options. */
  datatype Node = Branch(nodes: seq<Node>) | Provider(meta: seq<Meta>) | Leaf

  predicate HasOrder(meta: seq<Meta>) {
    exists i :: 0 <= i < |meta| && meta[i].Order?
  }

  function Stamp(meta: seq<Meta>, counter: nat, applyAll: bool): seq<Meta> {
    if applyAll && !HasOrder(meta) then meta + [Order(counter)] else meta
  }

  function Number(nodes: seq<Node>, counter: nat, applyAll: bool): (seq<Node>, nat)
    decreases nodes, 1
  {
    if nodes == [] then ([], counter)
    else
      var head := NumberOne(nodes[0], counter, applyAll);
      var rest := Number(nodes[1..], head.1, applyAll);
      ([head.0] + rest.0, rest.1)
  }

  function NumberOne(n: Node, counter: nat, applyAll: bool): (Node, nat)
    decreases n, 0
  {
    match n
    case Branch(inner) => var r := Number(inner, counter, applyAll); (Branch(r.0), r.1)
    case Provider(meta) => (Provider(Stamp(meta, counter, applyAll)), counter + 1)
    case Leaf => (Leaf, counter)
  }

  /** The metadata of all providers, in declaration order. */
  function Providers(nodes: seq<Node>): seq<seq<Meta>>
    decreases nodes, 1
  {
    if nodes == [] then [] else ProvidersOf(nodes[0]) + Providers(nodes[1..])
  }

  function ProvidersOf(n: Node): seq<seq<Meta>>
    decreases n, 0
  {
    match n
    case Branch(inner) => Providers(inner)
    case Provider(meta) => [meta]
    case Leaf => []
  }

  method ApplyAutoGroupOrderMetadata(nodes: seq<Node>, counter: Counter, applyAll: bool) returns (out: seq<Node>)
    modifies counter
    ensures (out, counter.value) == Number(nodes, old(counter.value), applyAll)
    decreases nodes, 1
  {
    hide NumberOne;
    out := [];
    ghost var whole := Number(nodes, counter.value, applyAll);
    assert [] + whole.0 == whole.0 && nodes[0..] == nodes;
    for k := 0 to |nodes|
      invariant whole.0 == out + Number(nodes[k..], counter.value, applyAll).0
      invariant whole.1 == Number(nodes[k..], counter.value, applyAll).1
    {
      assert nodes[k..][1..] == nodes[k + 1..];
      var n := StampOne(nodes[k], counter, applyAll);
      ghost var rest := Number(nodes[k + 1..], counter.value, applyAll).0;
      assert out + ([n] + rest) == (out + [n]) + rest;
      out := out + [n];
    }
    assert out + [] == out;
  }

  method StampOne(n: Node, counter: Counter, applyAll: bool) returns (out: Node)
    modifies counter
    ensures (out, counter.value) == NumberOne(n, old(counter.value), applyAll)
    decreases n, 0
  {
    match n {
      case Branch(inner) =>
        var child := ApplyAutoGroupOrderMetadata(inner, counter, applyAll);
        out := Branch(child);
      case Provider(meta) =>
        var stamped := meta;
        if applyAll && !HasOrder(meta) {
          stamped := meta + [Order(counter.value)];
        }
        counter.value := counter.value + 1;
        out := Provider(stamped);
      case Leaf =>
        out := n;
    }
  }

  /** The k-th provider of one list carries the k-th number from counter on, at the end of its metadata,
      unless it brings an order of its own or numbering is off; the lists match. */
  predicate Stamped(before: seq<seq<Meta>>, after: seq<seq<Meta>>, counter: nat, applyAll: bool) {
    && |after| == |before|
    && forall k | 0 <= k < |before| ::
         after[k] == if applyAll && (forall i | 0 <= i < |before[k]| :: !before[k][i].Order?)
                     then before[k] + [Order(counter + k)] else before[k]
  }

  lemma StampedAppend(a: seq<seq<Meta>>, a': seq<seq<Meta>>, b: seq<seq<Meta>>, b': seq<seq<Meta>>, counter: nat,
                      applyAll: bool)
    requires Stamped(a, a', counter, applyAll) && Stamped(b, b', counter + |a|, applyAll)
    ensures Stamped(a + b, a' + b', counter, applyAll)
  {
    forall k | 0 <= k < |a + b|
      ensures (a' + b')[k] == if applyAll && (forall i | 0 <= i < |(a + b)[k]| :: !(a + b)[k][i].Order?)
                              then (a + b)[k] + [Order(counter + k)] else (a + b)[k]
    {
      assert k >= |a| ==> (a + b)[k] == b[k - |a|] && (a' + b')[k] == b'[k - |a|];
    }
  }

  /** The walk numbers providers consecutively in declaration order, counting those that bring an
      order of their own, and changes nothing else about them. */
  lemma {:induction false} NumberedInOrder(nodes: seq<Node>, counter: nat, applyAll: bool)
    ensures var (out, next) := Number(nodes, counter, applyAll);
            next == counter + |Providers(nodes)| && Stamped(Providers(nodes), Providers(out), counter, applyAll)
    decreases nodes, 1
  {
    if nodes == [] {
    } else {
      OneInOrder(nodes[0], counter, applyAll);
      var front := ProvidersOf(nodes[0]);
      NumberedInOrder(nodes[1..], counter + |front|, applyAll);
      hide NumberOne, ProvidersOf, Stamped;
      var head := NumberOne(nodes[0], counter, applyAll).0;
      var rest := Number(nodes[1..], counter + |front|, applyAll).0;
      assert Number(nodes, counter, applyAll).0 == [head] + rest && ([head] + rest)[1..] == rest;
      StampedAppend(front, ProvidersOf(head), Providers(nodes[1..]), Providers(rest), counter, applyAll);
    }
  }

  lemma {:induction false} OneInOrder(n: Node, counter: nat, applyAll: bool)
    ensures var (out, next) := NumberOne(n, counter, applyAll);
            next == counter + |ProvidersOf(n)| && Stamped(ProvidersOf(n), ProvidersOf(out), counter, applyAll)
    decreases n, 0
  {
    if n.Branch? {
      NumberedInOrder(n.nodes, counter, applyAll);
    }
  }

  // ---- The sort key ------------------------------------------------------

  const MAX_INT := 0x7FFF_FFFF_FFFF_FFFF
  const SPAN := 1_000_000

  /** 64-bit two's complement. */
  function Wrap(n: int): int {
    (n + 0x8000_0000_0000_0000) % 0x1_0000_0000_0000_0000 - 0x8000_0000_0000_0000
  }

  /** The last priority, where the largest integer stands for none. */
  function LastPriority(meta: seq<Meta>): int {
    if meta == [] then MAX_INT
    else if meta[|meta| - 1].Priority? then meta[|meta| - 1].index
    else LastPriority(meta[..|meta| - 1])
  }

  function LastOrder(meta: seq<Meta>): int {
    if meta == [] then MAX_INT
    else if meta[|meta| - 1].Order? then meta[|meta| - 1].index
    else LastOrder(meta[..|meta| - 1])
  }

  /** What is looked up is the last of its kind, or the largest integer if there is none; without a
      priority the level is Normal. */
  lemma {:induction false} LastOfKind(meta: seq<Meta>)
    ensures (forall k | 0 <= k < |meta| :: !meta[k].Priority?) ==> Level(meta) == 0
    ensures (forall k | 0 <= k < |meta| :: !meta[k].Priority?) ==> LastPriority(meta) == MAX_INT
    ensures (forall k | 0 <= k < |meta| :: !meta[k].Order?) ==> LastOrder(meta) == MAX_INT
    ensures forall k | 0 <= k < |meta| && meta[k].Priority? && (forall j | k < j < |meta| :: !meta[j].Priority?) ::
              LastPriority(meta) == meta[k].index
    ensures forall k | 0 <= k < |meta| && meta[k].Order? && (forall j | k < j < |meta| :: !meta[j].Order?) ::
              LastOrder(meta) == meta[k].index
  {
    if meta == [] {
    } else {
      LastOfKind(meta[..|meta| - 1]);
    }
  }

  function KeyOf(priority: int, order: int): int {
    if priority == MAX_INT then order
    else if order == MAX_INT then Wrap(priority * SPAN)
    else Wrap(priority * SPAN + order)
  }

  function OrderIndex(meta: seq<Meta>): int {
    KeyOf(LastPriority(meta), LastOrder(meta))
  }

  method AutoGroupOrderIndex(meta: seq<Meta>) returns (key: int)
    ensures key == OrderIndex(meta)
  {
    var priority, order := MAX_INT, MAX_INT;
    for i := 0 to |meta|
      invariant priority == LastPriority(meta[..i])
    {
      assert meta[..i + 1][..i] == meta[..i];
      if meta[i].Priority? {
        priority := meta[i].index;
      }
    }
    for i := 0 to |meta|
      invariant order == LastOrder(meta[..i])
    {
      assert meta[..i + 1][..i] == meta[..i];
      if meta[i].Order? {
        order := meta[i].index;
      }
    }
    assert meta[..|meta|] == meta;
    if priority != MAX_INT {
      key := if order == MAX_INT then Wrap(priority * SPAN) else Wrap(priority * SPAN + order);
    } else {
      key := order;
    }
  }

  /** What a provider asks for: its priority, or Normal. */
  function Level(meta: seq<Meta>): int {
    if LastPriority(meta) == MAX_INT then 0 else LastPriority(meta)
  }

  /** Numbered below a million, with a priority whose key fits 64 bits. */
  predicate InRange(meta: seq<Meta>) {
    0 <= LastOrder(meta) < SPAN && -9_223_372_036_854 <= Level(meta) <= 9_223_372_036_853
  }

  predicate Before(a: seq<Meta>, b: seq<Meta>) {
    Level(a) < Level(b) || (Level(a) == Level(b) && LastOrder(a) < LastOrder(b))
  }

  /** The key is the order alone without a priority. With one it is a million for each step of priority
      plus the order, if there is one, as far as 64 bits hold that, and otherwise what they leave of it. */
  lemma KeyInWords(p: int, o: int) returns (q: int)
    ensures KeyOf(MAX_INT, o) == o
    ensures p != MAX_INT ==>
              var exact := p * 1_000_000 + if o == MAX_INT then 0 else o;
              && -0x8000_0000_0000_0000 <= KeyOf(p, o) < 0x8000_0000_0000_0000
              && exact == KeyOf(p, o) + q * 0x1_0000_0000_0000_0000
              && (-0x8000_0000_0000_0000 <= exact < 0x8000_0000_0000_0000 ==> KeyOf(p, o) == exact)
  {
    var exact := p * 1_000_000 + if o == MAX_INT then 0 else o;
    q := (exact + 0x8000_0000_0000_0000) / 0x1_0000_0000_0000_0000;
  }

  lemma KeyInRange(meta: seq<Meta>)
    requires InRange(meta)
    ensures OrderIndex(meta) == Level(meta) * SPAN + LastOrder(meta)
  {
  }

  /** In range, keys compare as priority first, then declaration. */
  lemma KeyIsLexicographic(a: seq<Meta>, b: seq<Meta>)
    requires InRange(a) && InRange(b)
    ensures OrderIndex(a) < OrderIndex(b) <==> Before(a, b)
  {
    KeyInRange(a);
    KeyInRange(b);
  }

  /** Without the bound on orders, a provider of an earlier priority comes first exactly while the
      difference of orders stays below a million for each step of priority. */
  lemma WideOrders(p: int, o: nat, q: int, u: nat)
    requires p < q < MAX_INT && o < MAX_INT && u < MAX_INT
    requires Wrap(p * SPAN + o) == p * SPAN + o && Wrap(q * SPAN + u) == q * SPAN + u
    ensures KeyOf(p, o) < KeyOf(q, u) <==> o < (q - p) * SPAN + u
  {
  }

  /** At that distance the two tie: the millionth provider of one priority and the first of the next. */
  lemma WideOrdersTie(p: int)
    requires -9_223_372_036_854 <= p < 9_223_372_036_853
    ensures KeyOf(p, SPAN) == KeyOf(p + 1, 0)
  {
  }

  // ---- The stable sort ---------------------------------------------------

  /** Smaller key first, equal keys in their original order. */
  predicate Ahead(keys: seq<int>, i: nat, j: nat)
    requires i < |keys| && j < |keys|
  {
    keys[i] < keys[j] || (keys[i] == keys[j] && i < j)
  }

  ghost predicate Among(keys: seq<int>, indices: seq<nat>) {
    forall k | 0 <= k < |indices| :: indices[k] < |keys|
  }

  ghost predicate StablySorted(keys: seq<int>, indices: seq<nat>)
    requires Among(keys, indices)
  {
    forall j, k | 0 <= j < k < |indices| :: Ahead(keys, indices[j], indices[k])
  }

  /** The indices 0 up to n in one order or another: sorted as stated, each once. */
  ghost predicate IsStableSort(keys: seq<int>, n: nat, indices: seq<nat>)
    requires n <= |keys|
  {
    && |indices| == n
    && (forall i: nat :: i in indices <==> i < n)
    && Among(keys, indices)
    && StablySorted(keys, indices)
  }

  /** There is one way to sort. */
  lemma {:induction false} SortUnique(keys: seq<int>, a: seq<nat>, b: seq<nat>)
    requires Among(keys, a) && Among(keys, b) && StablySorted(keys, a) && StablySorted(keys, b)
    requires forall i: nat :: i in a <==> i in b
    ensures a == b
  {
    assert (a != [] ==> a[0] in a) && (b != [] ==> b[0] in b);
    if a != [] && b != [] {
      FirstAhead(keys, a, b[0]);
      FirstAhead(keys, b, a[0]);
      assert a[0] == b[0];
      forall i: nat
        ensures i in a[1..] <==> i in b[1..]
      {
        RestMember(keys, a, i);
        RestMember(keys, b, i);
      }
      SortUnique(keys, a[1..], b[1..]);
      assert a == [a[0]] + a[1..] && b == [b[0]] + b[1..];
    }
  }

  lemma FirstAhead(keys: seq<int>, a: seq<nat>, i: nat)
    requires Among(keys, a) && StablySorted(keys, a) && i in a
    ensures i < |keys| && (a[0] == i || Ahead(keys, a[0], i))
  {
    var k :| 0 <= k < |a| && a[k] == i;
  }

  lemma RestMember(keys: seq<int>, a: seq<nat>, i: nat)
    requires a != [] && Among(keys, a) && StablySorted(keys, a)
    ensures i in a[1..] <==> i in a && i != a[0]
  {
    if i in a && i != a[0] {
      var k :| 0 <= k < |a| && a[k] == i;
      assert a[1..][k - 1] == i;
    }
    if i in a[1..] {
      var k :| 0 <= k < |a[1..]| && a[1..][k] == i;
      assert a[k + 1] == i && Ahead(keys, a[0], a[k + 1]);
    }
  }

  /** The index sort, one index at a time into its place. */
  method SortIndices(keys: seq<int>) returns (indices: seq<nat>)
    ensures IsStableSort(keys, |keys|, indices)
  {
    indices := [];
    for n := 0 to |keys|
      invariant IsStableSort(keys, n, indices)
    {
      var at := n;
      while at > 0 && keys[n] < keys[indices[at - 1]]
        invariant 0 <= at <= n
        invariant forall k | at <= k < n :: keys[n] < keys[indices[k]]
      {
        at := at - 1;
      }
      InsertedSorted(keys, n, indices, at);
      indices := InsertedAt(indices, at, n);
    }
  }

  function InsertedAt(indices: seq<nat>, at: nat, n: nat): seq<nat>
    requires at <= |indices|
  {
    indices[..at] + [n] + indices[at..]
  }

  lemma InsertedMember(indices: seq<nat>, at: nat, n: nat, i: nat)
    requires at <= |indices|
    ensures i in InsertedAt(indices, at, n) <==> i in indices || i == n
  {
    assert indices == indices[..at] + indices[at..];
  }

  lemma InsertedSorted(keys: seq<int>, n: nat, indices: seq<nat>, at: nat)
    requires n < |keys| && IsStableSort(keys, n, indices) && at <= n
    requires forall k | at <= k < n :: keys[n] < keys[indices[k]]
    requires at > 0 ==> keys[indices[at - 1]] <= keys[n]
    ensures IsStableSort(keys, n + 1, InsertedAt(indices, at, n))
  {
    var out := InsertedAt(indices, at, n);
    assert forall k | 0 <= k < |indices| :: indices[k] in indices;
    forall i: nat
      ensures i in out <==> i < n + 1
    {
      InsertedMember(indices, at, n, i);
    }
    forall k | 0 <= k < at
      ensures Ahead(keys, indices[k], n)
    {
      assert k == at - 1 || Ahead(keys, indices[k], indices[at - 1]);
    }
    assert Among(keys, out) by {
      assert forall k | 0 <= k < |out| :: out[k] in out;
    }
    assert forall k | at <= k < n :: Ahead(keys, n, indices[k]);
    hide IsStableSort;
    StillSorted(keys, n, indices, at);
  }

  lemma StillSorted(keys: seq<int>, n: nat, indices: seq<nat>, at: nat)
    requires n < |keys| && at <= |indices| && Among(keys, indices) && StablySorted(keys, indices)
    requires Among(keys, InsertedAt(indices, at, n))
    requires forall k | 0 <= k < at :: Ahead(keys, indices[k], n)
    requires forall k | at <= k < |indices| :: Ahead(keys, n, indices[k])
    ensures StablySorted(keys, InsertedAt(indices, at, n))
  {
    hide Ahead;
    var out := InsertedAt(indices, at, n);
    forall j, k | 0 <= j < k < |out|
      ensures Ahead(keys, out[j], out[k])
    {
      assert j < at ==> out[j] == indices[j];
      assert j > at ==> out[j] == indices[j - 1];
      assert k < at ==> out[k] == indices[k];
      assert k > at ==> out[k] == indices[k - 1];
      assert out[at] == n;
    }
  }

  // ---- The group as delivered --------------------------------------------

  /** The keys of the members' metadata. */
  function Keys(members: seq<seq<Meta>>): seq<int> {
    seq(|members|, i requires 0 <= i < |members| => OrderIndex(members[i]))
  }

  function Arranged(members: seq<seq<Meta>>, indices: seq<nat>): seq<seq<Meta>>
    requires forall k | 0 <= k < |indices| :: indices[k] < |members|
  {
    seq(|indices|, k requires 0 <= k < |indices| => members[indices[k]])
  }

  /** Members by priority, then declaration. */
  ghost predicate InOrder(members: seq<seq<Meta>>) {
    forall j, k | 0 <= j < k < |members| :: Before(members[j], members[k])
  }

  ghost predicate NumberedApart(members: seq<seq<Meta>>) {
    && (forall i | 0 <= i < |members| :: InRange(members[i]))
    && (forall i, j | 0 <= i < j < |members| :: LastOrder(members[i]) != LastOrder(members[j]))
  }

  /** The decorator built for a group: its members, in any order fx delivers them, by priority first
      and declaration second. */
  method OrderGroup(members: seq<seq<Meta>>) returns (out: seq<seq<Meta>>)
    ensures exists indices :: IsStableSort(Keys(members), |members|, indices) && out == Arranged(members, indices)
    ensures NumberedApart(members) ==> InOrder(out)
  {
    var indices := [];
    if |members| <= 1 {
      indices := if |members| == 0 then [] else [0];
      assert IsStableSort(Keys(members), |members|, indices);
    } else {
      indices := SortIndices(Keys(members));
    }
    out := Arranged(members, indices);
    if NumberedApart(members) {
      SortedInOrder(members, indices);
    }
  }

  lemma SortedInOrder(members: seq<seq<Meta>>, indices: seq<nat>)
    requires IsStableSort(Keys(members), |members|, indices) && NumberedApart(members)
    ensures InOrder(Arranged(members, indices))
  {
    hide OrderIndex, LastOrder, InRange, Level, Before;
    forall j, k | 0 <= j < k < |indices|
      ensures Before(members[indices[j]], members[indices[k]])
    {
      var a, b := indices[j], indices[k];
      assert Ahead(Keys(members), a, b);
      assert InRange(members[a]) && InRange(members[b]);
      KeyIsLexicographic(members[a], members[b]);
      KeyIsLexicographic(members[b], members[a]);
      Apart(members[a], members[b]);
    }
  }

  lemma Apart(a: seq<Meta>, b: seq<Meta>)
    requires InRange(a) && InRange(b) && LastOrder(a) != LastOrder(b)
    ensures Before(a, b) || Before(b, a)
    ensures Before(a, b) ==> OrderIndex(a) < OrderIndex(b)
  {
    KeyIsLexicographic(a, b);
  }

  /** Members numbered apart have one order, so what a consumer receives does not depend on the
      order in which they were delivered. */
  lemma {:induction false} OneOrder(a: seq<seq<Meta>>, b: seq<seq<Meta>>)
    requires InOrder(a) && InOrder(b) && forall m :: m in a <==> m in b
    ensures a == b
  {
    hide Before;
    assert (a != [] ==> a[0] in a) && (b != [] ==> b[0] in b);
    if a != [] && b != [] {
      FirstBefore(a, b[0]);
      FirstBefore(b, a[0]);
      BeforeStrict(a[0], b[0]);
      forall m
        ensures m in a[1..] <==> m in b[1..]
      {
        OthersMember(a, m);
        OthersMember(b, m);
      }
      OneOrder(a[1..], b[1..]);
      assert a == [a[0]] + a[1..] && b == [b[0]] + b[1..];
    }
  }

  lemma BeforeStrict(a: seq<Meta>, b: seq<Meta>)
    ensures !(Before(a, b) && Before(b, a)) && !Before(a, a)
  {
  }

  lemma FirstBefore(a: seq<seq<Meta>>, m: seq<Meta>)
    requires InOrder(a) && m in a
    ensures a[0] == m || Before(a[0], m)
  {
    var k :| 0 <= k < |a| && a[k] == m;
  }

  lemma OthersMember(a: seq<seq<Meta>>, m: seq<Meta>)
    requires a != [] && InOrder(a)
    ensures m in a[1..] <==> m in a && m != a[0]
  {
    if m in a && m != a[0] {
      var k :| 0 <= k < |a| && a[k] == m;
      assert a[1..][k - 1] == m;
    }
    if m in a[1..] {
      var k :| 0 <= k < |a[1..]| && a[1..][k] == m;
      assert a[k + 1] == m && Before(a[0], a[k + 1]);
      BeforeStrict(a[0], a[0]);
    }
  }

  // ---- The walk feeds the sort -------------------------------------------

  lemma {:induction false} NoOrderYet(meta: seq<Meta>)
    requires !HasOrder(meta)
    ensures LastOrder(meta) == MAX_INT
  {
    if meta == [] {
    } else {
      assert !meta[|meta| - 1].Order?;
      assert !HasOrder(meta[..|meta| - 1]);
      NoOrderYet(meta[..|meta| - 1]);
    }
  }

  /** What stands at a place of the tree. */
  predicate Earlier(nodes: seq<Node>, j: nat, k: nat)
    requires j < |Providers(nodes)| && k < |Providers(nodes)|
  {
    var p := Providers(nodes);
    Level(p[j]) < Level(p[k]) || (Level(p[j]) == Level(p[k]) && j < k)
  }

  /** A fresh tree of fewer than a million providers, with priorities in range, is numbered apart, and
      the numbers grow in declaration order. */
  lemma WalkNumbersApart(nodes: seq<Node>)
    requires |Providers(nodes)| < SPAN
    requires forall m | m in Providers(nodes) :: !HasOrder(m) && -9_223_372_036_854 <= Level(m) <= 9_223_372_036_853
    ensures var after := Providers(Number(nodes, 0, true).0);
            NumberedApart(after) && |after| == |Providers(nodes)| &&
            (forall k | 0 <= k < |after| :: LastOrder(after[k]) == k && Level(after[k]) == Level(Providers(nodes)[k]))
  {
    NumberedInOrder(nodes, 0, true);
    var before, after := Providers(nodes), Providers(Number(nodes, 0, true).0);
    hide Number, Providers;
    forall k | 0 <= k < |after|
      ensures LastOrder(after[k]) == k && Level(after[k]) == Level(before[k]) && InRange(after[k])
    {
      assert before[k] in before;
      assert after[k] == before[k] + [Order(k)];
      assert after[k][..|after[k]| - 1] == before[k];
    }
  }

  /** The place in the tree of a member numbered by the walk. */
  predicate AtPlace(nodes: seq<Node>, m: seq<Meta>, p: nat) {
    p < |Providers(nodes)| && p < |Providers(Number(nodes, 0, true).0)| && Providers(Number(nodes, 0, true).0)[p] == m
  }

  /** From the tree to the consumer: whatever distinct providers of a fresh tree are delivered, and in
      whatever order, they come out by the priority they were declared with, then by their place in
      the tree. */
  method OrderDelivered(nodes: seq<Node>, delivered: seq<seq<Meta>>) returns (out: seq<seq<Meta>>)
    requires |Providers(nodes)| < SPAN
    requires forall m | m in Providers(nodes) :: !HasOrder(m) && -9_223_372_036_854 <= Level(m) <= 9_223_372_036_853
    requires forall m | m in delivered :: m in Providers(Number(nodes, 0, true).0)
    requires forall i, j | 0 <= i < j < |delivered| :: delivered[i] != delivered[j]
    ensures |out| == |delivered| && forall m :: m in out <==> m in delivered
    ensures forall j, k, p: nat, q: nat | 0 <= j < k < |out| && AtPlace(nodes, out[j], p) &&
              AtPlace(nodes, out[k], q) ::
              Earlier(nodes, p, q)
  {
    WalkNumbersApart(nodes);
    DeliveredApart(nodes, delivered);
    out := OrderGroup(delivered);
    ghost var indices :| IsStableSort(Keys(delivered), |delivered|, indices) && out == Arranged(delivered, indices);
    ArrangedMembers(delivered, indices);
    forall j, k, p: nat, q: nat | 0 <= j < k < |out| && AtPlace(nodes, out[j], p) && AtPlace(nodes, out[k], q)
      ensures Earlier(nodes, p, q)
    {
      hide Number, Providers, Level, LastOrder;
      assert Before(out[j], out[k]);
    }
  }

  lemma DeliveredApart(nodes: seq<Node>, delivered: seq<seq<Meta>>)
    requires var after := Providers(Number(nodes, 0, true).0);
             NumberedApart(after) && (forall k | 0 <= k < |after| :: LastOrder(after[k]) == k) &&
                 forall m | m in delivered :: m in after
    requires forall i, j | 0 <= i < j < |delivered| :: delivered[i] != delivered[j]
    ensures NumberedApart(delivered)
  {
    var after := Providers(Number(nodes, 0, true).0);
    hide Number, Providers, LastOrder, InRange;
    forall i | 0 <= i < |delivered|
      ensures InRange(delivered[i]) && exists p: nat ::
                p < |after| && after[p] == delivered[i] && LastOrder(delivered[i]) == p
    {
      assert delivered[i] in delivered;
      var p: nat :| p < |after| && after[p] == delivered[i];
    }
  }

  lemma ArrangedMembers(members: seq<seq<Meta>>, indices: seq<nat>)
    requires IsStableSort(Keys(members), |members|, indices)
    ensures forall m :: m in Arranged(members, indices) <==> m in members
  {
    var out := Arranged(members, indices);
    forall m | m in members
      ensures m in out
    {
      var i: nat :| i < |members| && members[i] == m;
      assert i in indices;
      var k :| 0 <= k < |indices| && indices[k] == i;
      assert out[k] == m;
    }
  }
}
