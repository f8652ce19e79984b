/** The replacement pass over a tree of modules and option groups. */
module Replacing {
  import opened Text
  import opened Counters
  import opened Tags
  import opened Bindings
  import opened Graph
  import opened Selection
  import opened Active
  import opened Rewriting

  // ---- Specs of one scope ------------------------------------------------

  function BuildReplaceSpec(value: Value, opts: seq<Opt>, mode: Mode, pos: nat, id: nat,
                            depth: nat): Result<ReplaceSpec> {
    var cfg :- Parse(opts);
    if cfg.flags.decorated then Err(DecoratorNotAllowed)
    else if cfg.flags.privateSet then Err(PrivateNotAllowed)
    else if HasPending(cfg) then Err(TagsWithoutAs)
    else
      var b :- ProvideSpecOf(cfg, value.Base());
      Ok(ReplaceSpec(b.tagSets, value, opts, pos, id, depth, mode, false, false))
  }

  function TaggedExport(exports: seq<ExportSpec>): Option<Reason> {
    if exports == [] then None
    else if exports[0].grouped then Some(GroupNotAllowed)
    else if exports[0].named then Some(NameNotAllowed)
    else TaggedExport(exports[1..])
  }

  function BuildDefaultSpec(value: Value, opts: seq<Opt>, pos: nat, id: nat, depth: nat): Result<ReplaceSpec> {
    var cfg :- Parse(opts);
    if cfg.flags.decorated then Err(DecoratorNotAllowed)
    else if cfg.flags.privateSet then Err(PrivateNotAllowed)
    else if HasPending(cfg) then Err(TagsWithoutAs)
    else if TaggedExport(cfg.exports).Some? then Err(TaggedExport(cfg.exports).value)
    else
      var b :- ProvideSpecOf(cfg, value.Base());
      Ok(ReplaceSpec(b.tagSets, value, opts, pos, id, depth, All, false, true))
  }

  function BuildSpec(n: Node, pos: nat, id: nat, depth: nat): Result<ReplaceSpec>
    requires n.Replace? || n.Default?
  {
    if n.Replace? then BuildReplaceSpec(n.value, n.opts, n.mode, pos, id, depth)
    else BuildDefaultSpec(n.value, n.opts, pos, id, depth)
  }

  /** The specs declared among the first k nodes, numbered on from nextID. */
  function LocalSpecs(nodes: seq<Node>, k: nat, nextID: nat, depth: nat): Result<seq<ReplaceSpec>>
    requires k <= |nodes|
  {
    if k == 0 then Ok([])
    else
      var front :- LocalSpecs(nodes, k - 1, nextID, depth);
      if nodes[k - 1].Replace? || nodes[k - 1].Default? then
        var spec :- BuildSpec(nodes[k - 1], k - 1, nextID + |front|, depth);
        Ok(front + [spec])
      else Ok(front)
  }

  function AtIndex(local: seq<ReplaceSpec>, i: nat): Option<ReplaceSpec> {
    if local == [] then None
    else if local[|local| - 1].pos == i then Some(local[|local| - 1])
    else AtIndex(local[..|local| - 1], i)
  }

  // ---- Emission ----------------------------------------------------------

  /** The node that supplies one scoped binding of a replacement, its own params redirected too. */
  function EmitOne(spec: ReplaceSpec, ts: TagSet, active: map<string, TagSet>): Result<Node> {
    RewriteNode(Bind(spec.value, OverrideNameGroup(spec.opts, ScopedTagSet(ts, spec.id)), None), active)
  }

  function EmitAll(spec: ReplaceSpec, targets: seq<TagSet>, active: map<string, TagSet>): Result<seq<Node>> {
    if targets == [] then Ok([])
    else
      var front :- EmitAll(spec, targets[..|targets| - 1], active);
      var last :- EmitOne(spec, targets[|targets| - 1], active);
      Ok(front + [last])
  }

  // ---- applyReplacements -------------------------------------------------

  function Apply(nodes0: seq<Node>, inherited: seq<ReplaceSpec>, nextID: nat, depth: nat,
                 items0: seq<ProvideItem>): Result<(seq<Node>, nat)>
    decreases Size(nodes0), 2, 0
  {
    var nodes := SpliceOptions(nodes0);
    SpliceSize(nodes0);
    var items :- if items0 == [] then CollectScopeProvides(nodes) else Ok(items0);
    var local :- LocalSpecs(nodes, |nodes|, nextID, depth);
    ApplyFrom(nodes, 0, items, inherited + local, local, nextID + |local|, depth)
  }

  function ApplyFrom(nodes: seq<Node>, i: nat, items: seq<ProvideItem>, specs: seq<ReplaceSpec>,
                     local: seq<ReplaceSpec>, nextID: nat, depth: nat): Result<(seq<Node>, nat)>
    requires i <= |nodes|
    decreases Size(nodes), 1, |nodes| - i
  {
    if i == |nodes| then Ok(([], nextID))
    else
      MemberSize(nodes, i);
      var head :- ApplyNode(nodes[i], i, items, specs, local, nextID, depth);
      var tail :- ApplyFrom(nodes, i + 1, items, specs, local, head.1, depth);
      Ok((head.0 + tail.0, tail.1))
  }

  function ApplyNode(n: Node, i: nat, items: seq<ProvideItem>, specs: seq<ReplaceSpec>, local: seq<ReplaceSpec>,
                     nextID: nat, depth: nat): Result<(seq<Node>, nat)>
    decreases NodeSize(n), 0, 0
  {
    match n
    case Module(name, child) =>
      var r :- Apply(child, Inherit(Applicable(specs, i)), nextID, depth + 1, items);
      Ok(([Module(name, r.0)], r.1))
    case Options(child) =>
      var r :- Apply(child, Inherit(Applicable(specs, i)), nextID, depth, items);
      Ok(([Options(r.0)], r.1))
    case _ =>
      var out :- ApplyLeaf(n, i, items, specs, local);
      Ok((out, nextID))
  }

  function ApplyLeaf(n: Node, i: nat, items: seq<ProvideItem>, specs: seq<ReplaceSpec>,
                     local: seq<ReplaceSpec>): Result<seq<Node>>
    requires !n.Module? && !n.Options?
  {
    var active := ActiveTags(items, specs, i);
    match n
    case Replace(_, _, _) =>
      var spec := AtIndex(local, i);
      if spec.None? then Ok([]) else EmitAll(spec.value, Targets(spec.value, items), active)
    case Default(_, _) =>
      var spec := AtIndex(local, i);
      if spec.None? then Ok([]) else EmitAll(spec.value, DefaultTargets(spec.value, items, specs), active)
    case Bind(value, opts, tags) =>
      if value.Func? then
        var stripped := if ShouldStrip(value, opts, Applicable(specs, i))
                        then Bind(value, StripAutoGroups(opts), tags) else n;
        var out :- RewriteNode(stripped, active);
        Ok([out])
      else Ok([n])
    case Invoke(_, _, _) =>
      var out :- RewriteNode(n, active);
      Ok([out])
    case Populate(_, _, _) =>
      var out :- RewriteNode(n, active);
      Ok([out])
    case _ => Ok([n])
  }

  // ---- Numbering ---------------------------------------------------------

  /** Every spec of the tree, in the order the shared counter numbers them. */
  function DeepSpecs(nodes0: seq<Node>, nextID: nat, depth: nat): seq<ReplaceSpec>
    decreases Size(nodes0), 2, 0
  {
    var nodes := SpliceOptions(nodes0);
    SpliceSize(nodes0);
    var r := LocalSpecs(nodes, |nodes|, nextID, depth);
    var local := if r.Ok? then r.value else [];
    local + DeepFrom(nodes, 0, nextID + |local|, depth)
  }

  function DeepFrom(nodes: seq<Node>, i: nat, nextID: nat, depth: nat): seq<ReplaceSpec>
    requires i <= |nodes|
    decreases Size(nodes), 1, |nodes| - i
  {
    if i == |nodes| then []
    else
      MemberSize(nodes, i);
      var head := DeepNode(nodes[i], nextID, depth);
      head + DeepFrom(nodes, i + 1, nextID + |head|, depth)
  }

  function DeepNode(n: Node, nextID: nat, depth: nat): seq<ReplaceSpec>
    decreases NodeSize(n), 0, 0
  {
    match n
    case Module(_, child) => DeepSpecs(child, nextID, depth + 1)
    case Options(child) => DeepSpecs(child, nextID, depth)
    case _ => []
  }

  ghost predicate Numbered(specs: seq<ReplaceSpec>, nextID: nat) {
    forall k | 0 <= k < |specs| :: specs[k].id == nextID + k
  }

  lemma NumberedAppend(a: seq<ReplaceSpec>, b: seq<ReplaceSpec>, nextID: nat)
    requires Numbered(a, nextID) && Numbered(b, nextID + |a|)
    ensures Numbered(a + b, nextID)
  {
    forall k | 0 <= k < |a + b|
      ensures (a + b)[k].id == nextID + k
    {
      assert k >= |a| ==> (a + b)[k] == b[k - |a|];
    }
  }

  lemma {:induction false} LocalNumbered(nodes: seq<Node>, k: nat, nextID: nat, depth: nat)
    requires k <= |nodes| && LocalSpecs(nodes, k, nextID, depth).Ok?
    ensures Numbered(LocalSpecs(nodes, k, nextID, depth).value, nextID)
  {
    if k == 0 {
    } else {
      LocalNumbered(nodes, k - 1, nextID, depth);
    }
  }

  /** The shared counter gives the specs of a whole tree consecutive ids. */
  lemma {:induction false} IdsConsecutive(nodes0: seq<Node>, nextID: nat, depth: nat)
    ensures Numbered(DeepSpecs(nodes0, nextID, depth), nextID)
    decreases Size(nodes0), 2, 0
  {
    var nodes := SpliceOptions(nodes0);
    SpliceSize(nodes0);
    var r := LocalSpecs(nodes, |nodes|, nextID, depth);
    if r.Ok? {
      LocalNumbered(nodes, |nodes|, nextID, depth);
    }
    var local := if r.Ok? then r.value else [];
    IdsConsecutiveFrom(nodes, 0, nextID + |local|, depth);
    NumberedAppend(local, DeepFrom(nodes, 0, nextID + |local|, depth), nextID);
  }

  lemma {:induction false} IdsConsecutiveFrom(nodes: seq<Node>, i: nat, nextID: nat, depth: nat)
    requires i <= |nodes|
    ensures Numbered(DeepFrom(nodes, i, nextID, depth), nextID)
    decreases Size(nodes), 1, |nodes| - i
  {
    if i < |nodes| {
      MemberSize(nodes, i);
      var n := nodes[i];
      if n.Module? {
        IdsConsecutive(n.nodes, nextID, depth + 1);
      } else if n.Options? {
        IdsConsecutive(n.nodes, nextID, depth);
      }
      var head := DeepNode(n, nextID, depth);
      assert Numbered(head, nextID);
      hide Numbered;
      IdsConsecutiveFrom(nodes, i + 1, nextID + |head|, depth);
      NumberedAppend(head, DeepFrom(nodes, i + 1, nextID + |head|, depth), nextID);
    }
  }

  /** Two specs of a tree never share an id; so a scoped binding names its spec and its original. */
  lemma UniqueOwner(nodes: seq<Node>, nextID: nat, depth: nat, v: ReplaceSpec, w: ReplaceSpec, a: TagSet, b: TagSet)
    requires v in DeepSpecs(nodes, nextID, depth) && w in DeepSpecs(nodes, nextID, depth)
    requires ScopedTagSet(a, v.id) == ScopedTagSet(b, w.id)
    requires (a.name != "") == (b.name != "") && (a.group != "") == (b.group != "")
    ensures v == w && a.typ == b.typ && a.name == b.name && (a.name == "" ==> a.group == b.group)
  {
    FreshNames(a, b, v.id, w.id);
    IdsConsecutive(nodes, nextID, depth);
  }

  /** The pass leaves the counter just past the last id it gave out. */
  lemma {:induction false} CounterAfter(nodes0: seq<Node>, inherited: seq<ReplaceSpec>, nextID: nat, depth: nat,
                                        items0: seq<ProvideItem>)
    requires Apply(nodes0, inherited, nextID, depth, items0).Ok?
    ensures Apply(nodes0, inherited, nextID, depth, items0).value.1 == nextID + |DeepSpecs(nodes0, nextID, depth)|
    decreases Size(nodes0), 2, 0
  {
    var nodes := SpliceOptions(nodes0);
    SpliceSize(nodes0);
    hide SpliceOptions, CollectScopeProvides, LocalSpecs, ApplyFrom, DeepFrom, Size;
    var items := if items0 == [] then CollectScopeProvides(nodes).value else items0;
    var local := LocalSpecs(nodes, |nodes|, nextID, depth).value;
    CounterAfterFrom(nodes, 0, items, inherited + local, local, nextID + |local|, depth);
  }

  lemma {:induction false} CounterAfterFrom(nodes: seq<Node>, i: nat, items: seq<ProvideItem>, specs: seq<ReplaceSpec>,
                                            local: seq<ReplaceSpec>, nextID: nat, depth: nat)
    requires i <= |nodes| && ApplyFrom(nodes, i, items, specs, local, nextID, depth).Ok?
    ensures ApplyFrom(nodes, i, items, specs, local, nextID, depth).value.1 ==
              nextID + |DeepFrom(nodes, i, nextID, depth)|
    decreases Size(nodes), 1, |nodes| - i
  {
    if i < |nodes| {
      MemberSize(nodes, i);
      hide Apply, ApplyLeaf, DeepSpecs, Applicable, Inherit, Size;
      var n := nodes[i];
      if n.Module? {
        CounterAfter(n.nodes, Inherit(Applicable(specs, i)), nextID, depth + 1, items);
      } else if n.Options? {
        CounterAfter(n.nodes, Inherit(Applicable(specs, i)), nextID, depth, items);
      }
      var head := ApplyNode(n, i, items, specs, local, nextID, depth).value;
      CounterAfterFrom(nodes, i + 1, items, specs, local, head.1, depth);
    }
  }

  // ---- The pass as it runs -----------------------------------------------

  function Prepend(head: seq<Node>, r: Result<(seq<Node>, nat)>): Result<(seq<Node>, nat)> {
    if r.Err? then r else Ok((head + r.value.0, r.value.1))
  }

  /** The collecting loop: ids are drawn from the shared counter. */
  method CollectLocalSpecs(nodes: seq<Node>, nextID: Counter, depth: nat) returns (r: Result<seq<ReplaceSpec>>)
    modifies nextID
    ensures r == LocalSpecs(nodes, |nodes|, old(nextID.value), depth)
    ensures r.Ok? ==> nextID.value == old(nextID.value) + |r.value|
  {
    hide BuildSpec;
    var local := [];
    for i := 0 to |nodes|
      invariant LocalSpecs(nodes, i, old(nextID.value), depth) == Ok(local)
      invariant nextID.value == old(nextID.value) + |local|
    {
      if nodes[i].Replace? || nodes[i].Default? {
        var spec := BuildSpec(nodes[i], i, nextID.value, depth);
        if spec.Err? {
          LocalStops(nodes, i + 1, |nodes|, old(nextID.value), depth);
          return Err(spec.reason);
        }
        nextID.value := nextID.value + 1;
        local := local + [spec.value];
      }
    }
    r := Ok(local);
  }

  lemma {:induction false} LocalStops(nodes: seq<Node>, i: nat, k: nat, nextID: nat, depth: nat)
    requires i <= k <= |nodes| && LocalSpecs(nodes, i, nextID, depth).Err?
    ensures LocalSpecs(nodes, k, nextID, depth) == LocalSpecs(nodes, i, nextID, depth)
  {
    hide BuildSpec;
    if i < k {
      LocalStops(nodes, i, k - 1, nextID, depth);
    }
  }

  /** The emitting loop of one replacement or default. */
  method Emit(spec: ReplaceSpec, targets: seq<TagSet>, active: map<string, TagSet>) returns (r: Result<seq<Node>>)
    ensures r == EmitAll(spec, targets, active)
  {
    var out := [];
    for i := 0 to |targets|
      invariant EmitAll(spec, targets[..i], active) == Ok(out)
    {
      assert targets[..i + 1][..i] == targets[..i];
      var opts := OverrideNameGroupOpts(spec.opts, ScopedTagSet(targets[i], spec.id));
      var node := RewriteNode(Bind(spec.value, opts, None), active);
      assert node == EmitOne(spec, targets[i], active);
      if node.Err? {
        EmitStops(spec, targets, i + 1, active);
        return Err(node.reason);
      }
      out := out + [node.value];
    }
    assert targets[..|targets|] == targets;
    r := Ok(out);
  }

  lemma {:induction false} EmitStops(spec: ReplaceSpec, targets: seq<TagSet>, i: nat, active: map<string, TagSet>)
    requires i <= |targets| && EmitAll(spec, targets[..i], active).Err?
    ensures EmitAll(spec, targets, active) == EmitAll(spec, targets[..i], active)
  {
    if i == |targets| {
      assert targets[..i] == targets;
    } else {
      assert targets[..|targets| - 1][..i] == targets[..i];
      EmitStops(spec, targets[..|targets| - 1], i, active);
    }
  }

  /** The result of a step, split from the counter it leaves behind. */
  ghost predicate Agrees(r: Result<seq<Node>>, counter: nat, s: Result<(seq<Node>, nat)>) {
    if s.Err? then r == Err(s.reason) else r == Ok(s.value.0) && counter == s.value.1
  }

  method ApplyReplacements(nodes0: seq<Node>, inherited: seq<ReplaceSpec>, nextID: Counter, depth: nat,
                           items0: seq<ProvideItem>)
    returns (r: Result<seq<Node>>)
    modifies nextID
    ensures Agrees(r, nextID.value, Apply(nodes0, inherited, old(nextID.value), depth, items0))
    decreases Size(nodes0), 2, 0
  {
    hide ApplyFrom, ApplyNode, CollectScopeProvides, SpliceOptions, LocalSpecs;
    var nodes := SpliceOptionsLoop(nodes0);
    SpliceSize(nodes0);
    var items := items0;
    if items0 == [] {
      var collected := CollectScopeProvidesLoop(nodes);
      if collected.Err? {
        return Err(collected.reason);
      }
      items := collected.value;
    }
    var locals := CollectLocalSpecs(nodes, nextID, depth);
    if locals.Err? {
      return Err(locals.reason);
    }
    var local := locals.value;
    r := ApplyList(nodes, items, inherited + local, local, nextID, depth);
  }

  /** The rewriting loop over one spliced scope. */
  method ApplyList(nodes: seq<Node>, items: seq<ProvideItem>, specs: seq<ReplaceSpec>, local: seq<ReplaceSpec>,
                   nextID: Counter, depth: nat)
    returns (r: Result<seq<Node>>)
    modifies nextID
    ensures Agrees(r, nextID.value, ApplyFrom(nodes, 0, items, specs, local, old(nextID.value), depth))
    decreases Size(nodes), 1, 0
  {
    hide ApplyNode;
    var final := [];
    ghost var whole := ApplyFrom(nodes, 0, items, specs, local, nextID.value, depth);
    assert whole.Ok? ==> [] + whole.value.0 == whole.value.0;
    for i := 0 to |nodes|
      invariant whole == Prepend(final, ApplyFrom(nodes, i, items, specs, local, nextID.value, depth))
    {
      MemberSize(nodes, i);
      var head := ApplyOne(nodes[i], i, items, specs, local, nextID, depth);
      if head.Err? {
        return Err(head.reason);
      }
      ghost var rest := ApplyFrom(nodes, i + 1, items, specs, local, nextID.value, depth);
      assert rest.Ok? ==> final + (head.value + rest.value.0) == (final + head.value) + rest.value.0;
      final := final + head.value;
    }
    assert final + [] == final;
    r := Ok(final);
  }

  method ApplyOne(n: Node, i: nat, items: seq<ProvideItem>, specs: seq<ReplaceSpec>, local: seq<ReplaceSpec>,
                  nextID: Counter, depth: nat)
    returns (r: Result<seq<Node>>)
    modifies nextID
    ensures Agrees(r, nextID.value, ApplyNode(n, i, items, specs, local, old(nextID.value), depth))
    decreases NodeSize(n), 0, 0
  {
    hide Apply, ApplyLeaf;
    if n.Module? || n.Options? {
      var active := ApplicableSpecsAtIndex(specs, i);
      var child := ApplyReplacements(n.nodes, Inherit(active), nextID, if n.Module? then depth + 1 else depth, items);
      if child.Err? {
        return child;
      }
      r := Ok([if n.Module? then Module(n.name, child.value) else Options(child.value)]);
    } else {
      r := ApplyLeafLoop(n, i, items, specs, local);
    }
  }

  /** The cases that draw no ids, with the active tags built by their loops. */
  method ApplyLeafLoop(n: Node, i: nat, items: seq<ProvideItem>, specs: seq<ReplaceSpec>, local: seq<ReplaceSpec>)
    returns (r: Result<seq<Node>>)
    requires !n.Module? && !n.Options?
    ensures r == ApplyLeaf(n, i, items, specs, local)
  {
    hide ActiveFrom, RewriteNode, Targets, DefaultTargets, EmitAll, AllTags, WithDefaults, ShouldStrip;
    var active := ApplicableSpecsAtIndex(specs, i);
    var activeTags := BuildActiveTagMap(items, active);
    activeTags := AppendDefaultTags(activeTags, items, specs);
    if n.Replace? || n.Default? {
      var spec := AtIndex(local, i);
      if spec.None? {
        return Ok([]);
      }
      if n.Replace? {
        var targets := ReplacementTargets(spec.value, items);
        r := Emit(spec.value, targets, activeTags);
      } else {
        var targets := DefaultTargetsLoop(spec.value, items, specs);
        r := Emit(spec.value, targets, activeTags);
      }
    } else if (n.Bind? && n.value.Func?) || n.Invoke? || n.Populate? {
      var v := n;
      if n.Bind? && ShouldStrip(n.value, n.opts, active) {
        var kept, removed := StripAutoGroupOptions(n.opts);
        v := Bind(n.value, kept, n.tagsOverride);
      }
      var node := RewriteNode(v, activeTags);
      if node.Err? {
        return Err(node.reason);
      }
      r := Ok([node.value]);
    } else {
      r := Ok([n]);
    }
  }
}
