/** The declaration tree, option groups spliced into their scope, and the providers of a scope. */
module Graph {
  import opened Text
  import opened Tags
  import opened Bindings

  /** A constructor or a ready value; id tells apart two values of the same type. */
  datatype Value =
    | Func(id: nat, result: Option<GoType>, params: seq<GoType>)
    | Ready(id: nat, typ: GoType)
  {
    function Base(): Option<GoType> {
      if Func? then result else Some(typ)
    }
  }

  datatype Mode = All | Before | After

  /** Bind is a provider (a Func value) or a supplied value (a Ready one). */
  datatype Node =
    | Module(name: string, nodes: seq<Node>)
    | Options(nodes: seq<Node>)
    | Bind(value: Value, opts: seq<Opt>, tagsOverride: Option<seq<string>>)
    | Replace(value: Value, opts: seq<Opt>, mode: Mode)
    | Default(value: Value, opts: seq<Opt>)
    | Invoke(params: seq<GoType>, tags: seq<string>, tagsOverride: Option<seq<string>>)
    | Populate(targets: seq<GoType>, tags: seq<string>, tagsOverride: Option<seq<string>>)
    | Provided(types: seq<GoType>)
    | Other

  function Size(nodes: seq<Node>): nat {
    if nodes == [] then 0 else NodeSize(nodes[0]) + Size(nodes[1..])
  }

  function NodeSize(n: Node): nat {
    match n
    case Module(_, child) => 1 + Size(child)
    case Options(child) => 1 + Size(child)
    case _ => 1
  }

  lemma {:induction false} SizeAppend(a: seq<Node>, b: seq<Node>)
    ensures Size(a + b) == Size(a) + Size(b)
  {
    if a == [] {
      assert a + b == b;
    } else {
      assert (a + b)[1..] == a[1..] + b;
      SizeAppend(a[1..], b);
    }
  }

  lemma {:induction false} MemberSize(nodes: seq<Node>, i: nat)
    requires i < |nodes|
    ensures NodeSize(nodes[i]) <= Size(nodes)
  {
    if i == 0 {
    } else {
      MemberSize(nodes[1..], i - 1);
    }
  }

  // ---- spliceOptions -----------------------------------------------------

  predicate HasOptions(nodes: seq<Node>) {
    exists i :: 0 <= i < |nodes| && nodes[i].Options?
  }

  /** Children of same-scope option groups lifted into the list; other nodes stay as they are. */
  function SpliceOptions(nodes: seq<Node>): (out: seq<Node>)
    ensures !HasOptions(out)
  {
    if nodes == [] then []
    else
      var head := if nodes[0].Options? then SpliceOptions(nodes[0].nodes) else [nodes[0]];
      head + SpliceOptions(nodes[1..])
  }

  lemma SpliceNext(nodes: seq<Node>, i: nat)
    requires i < |nodes|
    ensures SpliceOptions(nodes[i..]) ==
            (if nodes[i].Options? then SpliceOptions(nodes[i].nodes) else [nodes[i]]) + SpliceOptions(nodes[i + 1..])
  {
    assert nodes[i..][1..] == nodes[i + 1..];
  }

  method SpliceOptionsLoop(nodes: seq<Node>) returns (out: seq<Node>)
    ensures out == SpliceOptions(nodes)
  {
    hide SpliceOptions;
    if !HasOptions(nodes) {
      SpliceNothing(nodes);
      return nodes;
    }
    out := [];
    assert nodes[0..] == nodes && [] + SpliceOptions(nodes) == SpliceOptions(nodes);
    for i := 0 to |nodes|
      invariant SpliceOptions(nodes) == out + SpliceOptions(nodes[i..])
    {
      SpliceNext(nodes, i);
      ghost var rest := SpliceOptions(nodes[i + 1..]);
      if nodes[i].Options? {
        var inner := SpliceOptionsLoop(nodes[i].nodes);
        assert out + (inner + rest) == (out + inner) + rest;
        out := out + inner;
      } else {
        assert out + ([nodes[i]] + rest) == (out + [nodes[i]]) + rest;
        out := out + [nodes[i]];
      }
    }
    assert nodes[|nodes|..] == [];
    SpliceNone();
  }

  lemma SpliceNone()
    ensures SpliceOptions([]) == []
  {
  }

  lemma {:induction false} SpliceNothing(nodes: seq<Node>)
    requires !HasOptions(nodes)
    ensures SpliceOptions(nodes) == nodes
  {
    if nodes == [] {
    } else {
      var tail := nodes[1..];
      assert forall i | 0 <= i < |tail| :: tail[i] == nodes[i + 1];
      SpliceNothing(tail);
      assert nodes == [nodes[0]] + tail;
    }
  }

  /** Splicing twice changes nothing more. */
  lemma SpliceIdempotent(nodes: seq<Node>)
    ensures SpliceOptions(SpliceOptions(nodes)) == SpliceOptions(nodes)
  {
    SpliceNothing(SpliceOptions(nodes));
  }

  lemma {:induction false} SpliceAppend(a: seq<Node>, b: seq<Node>)
    ensures SpliceOptions(a + b) == SpliceOptions(a) + SpliceOptions(b)
  {
    if a == [] {
      assert a + b == b;
    } else {
      assert (a + b)[1..] == a[1..] + b;
      SpliceAppend(a[1..], b);
    }
  }

  lemma {:induction false} SpliceSize(nodes: seq<Node>)
    ensures Size(SpliceOptions(nodes)) <= Size(nodes)
  {
    if nodes == [] {
    } else {
      var head := if nodes[0].Options? then SpliceOptions(nodes[0].nodes) else [nodes[0]];
      SizeAppend(head, SpliceOptions(nodes[1..]));
      SpliceSize(nodes[1..]);
      if nodes[0].Options? {
        SpliceSize(nodes[0].nodes);
      } else {
        assert Size(head) == NodeSize(nodes[0]) + Size(head[1..]);
      }
    }
  }

  /** The nodes of a tree that are neither modules nor option groups, in declaration order. */
  function Leaves(nodes: seq<Node>): seq<Node> {
    if nodes == [] then [] else LeavesOf(nodes[0]) + Leaves(nodes[1..])
  }

  function LeavesOf(n: Node): seq<Node> {
    match n
    case Module(_, child) => Leaves(child)
    case Options(child) => Leaves(child)
    case _ => [n]
  }

  lemma {:induction false} LeavesAppend(a: seq<Node>, b: seq<Node>)
    ensures Leaves(a + b) == Leaves(a) + Leaves(b)
  {
    if a == [] {
      assert a + b == b;
    } else {
      assert (a + b)[1..] == a[1..] + b;
      LeavesAppend(a[1..], b);
    }
  }

  /** Splicing keeps every leaf, in order. */
  lemma {:induction false} SpliceKeepsLeaves(nodes: seq<Node>)
    ensures Leaves(SpliceOptions(nodes)) == Leaves(nodes)
  {
    if nodes == [] {
    } else {
      var head := if nodes[0].Options? then SpliceOptions(nodes[0].nodes) else [nodes[0]];
      LeavesAppend(head, SpliceOptions(nodes[1..]));
      SpliceKeepsLeaves(nodes[1..]);
      if nodes[0].Options? {
        SpliceKeepsLeaves(nodes[0].nodes);
      } else {
        assert Leaves(head) == LeavesOf(nodes[0]) + Leaves(head[1..]);
      }
    }
  }

  // ---- collectScopeProvides ----------------------------------------------

  datatype ProvideItem = ProvideItem(node: Node, tagSets: seq<TagSet>)

  /** What a provider or supplied value with these options reports. */
  function ReportedBy(value: Value, opts: seq<Opt>): Result<seq<TagSet>> {
    var cfg :- Parse(opts);
    var b :- ProvideSpecOf(cfg, value.Base());
    Ok(b.tagSets)
  }

  function UntaggedAll(types: seq<GoType>): seq<TagSet> {
    seq(|types|, i requires 0 <= i < |types| => Untagged(types[i]))
  }

  function CollectNode(n: Node): Result<seq<ProvideItem>> {
    match n
    case Bind(value, opts, _) =>
      var tagSets :- ReportedBy(value, opts);
      Ok([ProvideItem(n, tagSets)])
    case Provided(types) => Ok(if types == [] then [] else [ProvideItem(n, UntaggedAll(types))])
    case Options(child) => CollectScopeProvides(child)
    case Module(_, child) => CollectScopeProvides(child)
    case _ => Ok([])
  }

  function CollectScopeProvides(nodes: seq<Node>): Result<seq<ProvideItem>> {
    if nodes == [] then Ok([])
    else
      var head :- CollectNode(nodes[0]);
      var tail :- CollectScopeProvides(nodes[1..]);
      Ok(head + tail)
  }

  method CollectScopeProvidesLoop(nodes: seq<Node>) returns (r: Result<seq<ProvideItem>>)
    ensures r == CollectScopeProvides(nodes)
    decreases nodes
  {
    hide CollectNode;
    var out := [];
    ghost var whole := CollectScopeProvides(nodes);
    assert nodes[0..] == nodes && (whole.Ok? ==> [] + whole.value == whole.value);
    for i := 0 to |nodes|
      invariant whole == Following(out, CollectScopeProvides(nodes[i..]))
    {
      assert nodes[i..][1..] == nodes[i + 1..];
      var head := CollectOne(nodes[i]);
      if head.Err? {
        return Err(head.reason);
      }
      ghost var tail := CollectScopeProvides(nodes[i + 1..]);
      assert tail.Ok? ==> out + (head.value + tail.value) == (out + head.value) + tail.value;
      out := out + head.value;
    }
    assert out + [] == out;
    r := Ok(out);
  }

  function Following(front: seq<ProvideItem>, r: Result<seq<ProvideItem>>): Result<seq<ProvideItem>> {
    if r.Err? then r else Ok(front + r.value)
  }

  method CollectOne(n: Node) returns (r: Result<seq<ProvideItem>>)
    ensures r == CollectNode(n)
    decreases n
  {
    match n {
      case Bind(value, opts, _) =>
        var cfg := ParseBindOptions(opts);
        if cfg.Err? {
          return Err(cfg.reason);
        }
        var b := BuildProvideSpec(cfg.value, value.Base());
        if b.Err? {
          return Err(b.reason);
        }
        r := Ok([ProvideItem(n, b.value.tagSets)]);
      case Provided(types) =>
        r := Ok(if |types| == 0 then [] else [ProvideItem(n, UntaggedAll(types))]);
      case Options(child) =>
        r := CollectScopeProvidesLoop(child);
      case Module(_, child) =>
        r := CollectScopeProvidesLoop(child);
      case _ =>
        r := Ok([]);
    }
  }

  lemma {:induction false} CollectAppend(a: seq<Node>, b: seq<Node>)
    ensures CollectScopeProvides(a + b) ==
            if CollectScopeProvides(a).Err? then CollectScopeProvides(a)
            else if CollectScopeProvides(b).Err? then CollectScopeProvides(b)
            else Ok(CollectScopeProvides(a).value + CollectScopeProvides(b).value)
  {
    if a == [] {
      assert a + b == b;
      if CollectScopeProvides(b).Ok? {
        assert [] + CollectScopeProvides(b).value == CollectScopeProvides(b).value;
      }
    } else {
      assert (a + b)[1..] == a[1..] + b;
      CollectAppend(a[1..], b);
      if CollectNode(a[0]).Ok? && CollectScopeProvides(a[1..]).Ok? && CollectScopeProvides(b).Ok? {
        var x, y, z := CollectNode(a[0]).value, CollectScopeProvides(a[1..]).value, CollectScopeProvides(b).value;
        assert x + (y + z) == (x + y) + z;
      }
    }
  }

  /** What one leaf provides under the items: a provider or supplied value what it reports, a node that
      names its types these, untagged; any other leaf nothing. */
  ghost predicate ItemOfLeaf(p: ProvideItem, n: Node) {
    p.node == n &&
    match n
    case Bind(value, opts, _) => ReportedBy(value, opts) == Ok(p.tagSets)
    case Provided(types) => types != [] && |p.tagSets| == |types| &&
      forall i | 0 <= i < |types| :: p.tagSets[i] == TagSet("", "", types[i])
    case _ => false
  }

  predicate ProvidesSomething(n: Node) {
    n.Bind? || (n.Provided? && n.types != [])
  }

  /** The providers of a scope are its leaves that provide something, at any depth and in order. */
  lemma {:induction false} CollectedLeaves(nodes: seq<Node>)
    requires CollectScopeProvides(nodes).Ok?
    ensures var items := CollectScopeProvides(nodes).value;
            (forall k | 0 <= k < |items| :: ItemOfLeaf(items[k], items[k].node)) &&
            NodesOf(items) == Providing(Leaves(nodes))
  {
    hide ItemOfLeaf, ProvidesSomething, Providing, NodesOf;
    if nodes == [] {
      NothingCollected();
    } else {
      var head, tail := CollectNode(nodes[0]).value, CollectScopeProvides(nodes[1..]).value;
      CollectedLeaves(nodes[1..]);
      if nodes[0].Module? || nodes[0].Options? {
        CollectedLeaves(nodes[0].nodes);
      } else {
        LeafCollected(nodes[0]);
      }
      assert CollectScopeProvides(nodes).value == head + tail &&
               Leaves(nodes) == LeavesOf(nodes[0]) + Leaves(nodes[1..]);
      hide CollectScopeProvides, CollectNode, Leaves, LeavesOf;
      ProvidingAppend(LeavesOf(nodes[0]), Leaves(nodes[1..]));
      NodesAppend(head, tail);
    }
  }

  lemma NothingCollected()
    ensures NodesOf([]) == Providing([]) == []
  {
  }

  lemma NodesAppend(a: seq<ProvideItem>, b: seq<ProvideItem>)
    ensures NodesOf(a + b) == NodesOf(a) + NodesOf(b)
  {
  }

  lemma LeafCollected(n: Node)
    requires !n.Module? && !n.Options? && CollectNode(n).Ok?
    ensures forall k | 0 <= k < |CollectNode(n).value| ::
              ItemOfLeaf(CollectNode(n).value[k], CollectNode(n).value[k].node)
    ensures NodesOf(CollectNode(n).value) == Providing(LeavesOf(n))
  {
    hide ReportedBy;
    assert [n][1..] == [] && LeavesOf(n) == [n];
  }

  function NodesOf(items: seq<ProvideItem>): seq<Node> {
    seq(|items|, i requires 0 <= i < |items| => items[i].node)
  }

  function Providing(leaves: seq<Node>): seq<Node> {
    if leaves == [] then []
    else (if ProvidesSomething(leaves[0]) then [leaves[0]] else []) + Providing(leaves[1..])
  }

  lemma {:induction false} ProvidingAppend(a: seq<Node>, b: seq<Node>)
    ensures Providing(a + b) == Providing(a) + Providing(b)
  {
    if a == [] {
      assert a + b == b && Providing(a) + Providing(b) == Providing(b);
    } else {
      var s := a + b;
      assert s[1..] == a[1..] + b && s[0] == a[0];
      ProvidingAppend(a[1..], b);
      var first := if ProvidesSomething(a[0]) then [a[0]] else [];
      assert Providing(s) == first + Providing(s[1..]) && Providing(a) == first + Providing(a[1..]);
      hide *;
      assert first + (Providing(a[1..]) + Providing(b)) == first + Providing(a[1..]) + Providing(b);
    }
  }

  /** Spec collection and provider collection stay in step: splicing does not change the providers
      found, nor the first error. */
  lemma {:induction false} SpliceKeepsProvides(nodes: seq<Node>)
    ensures CollectScopeProvides(SpliceOptions(nodes)) == CollectScopeProvides(nodes)
  {
    if nodes == [] {
    } else {
      var head := if nodes[0].Options? then SpliceOptions(nodes[0].nodes) else [nodes[0]];
      CollectAppend(head, SpliceOptions(nodes[1..]));
      SpliceKeepsProvides(nodes[1..]);
      if nodes[0].Options? {
        SpliceKeepsProvides(nodes[0].nodes);
      } else {
        assert CollectScopeProvides(head[1..]) == Ok([]);
        if CollectNode(nodes[0]).Ok? {
          assert CollectNode(nodes[0]).value + [] == CollectNode(nodes[0]).value;
        }
      }
      assert CollectScopeProvides(head) == CollectNode(nodes[0]);
      assert SpliceOptions(nodes) == head + SpliceOptions(nodes[1..]);
    }
  }
}
