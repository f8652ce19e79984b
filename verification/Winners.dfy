/** Which spec each leaf of the output is led to, position by position. */
module Winners {
  import opened Text
  import opened Tags
  import opened Bindings
  import opened Graph
  import opened Selection
  import opened Active
  import opened Rewriting
  import opened Replacing
  import opened NoDangling

  // ---- Which spec a leaf is led to ---------------------------------------

  /** The redirections chosen at a position: the selected replacement, or the first default. */
  ghost function ByWinner(items: seq<ProvideItem>, specs: seq<ReplaceSpec>, i: nat): (TagSet, nat) -> bool {
    (ts: TagSet, id: nat) => WinnerId(items, specs, i, ts) == Some(id)
  }

  lemma ActiveByWinner(items: seq<ProvideItem>, specs: seq<ReplaceSpec>, i: nat, u: iset<TagSet>)
    requires Universe(u) && ItemsOk(items, u) && SpecsOk(specs, u)
    ensures Redirects(ActiveTags(items, specs, i), u, ByWinner(items, specs, i))
  {
    AllTagsWithin(items, specs, u);
    AllTagsWithin(items, Applicable(specs, i), u);
    DefaultPairsWithin(specs, u);
    forall ts | ts in u && FullTagKey(ts) in ActiveTags(items, specs, i)
      ensures exists id: nat :: ActiveTags(items, specs, i)[FullTagKey(ts)] == ScopedTagSet(ts, id) &&
                ByWinner(items, specs, i)(ts, id)
    {
      ActiveTagsWinner(items, specs, i, u, ts);
      hide ActiveTags, WinnerId, ScopedTagSet, FullTagKey;
      var id := WinnerId(items, specs, i, ts).value;
      assert ByWinner(items, specs, i)(ts, id);
    }
  }

  /** The tag of each parameter changed exactly when a spec is chosen at the position for what the
      parameter asked for, and then to ask for the scoped binding of that spec. */
  ghost predicate LedBy(n: Node, items: seq<ProvideItem>, specs: seq<ReplaceSpec>, i: nat) {
    && AllRedirected(n, ByWinner(items, specs, i))
    && forall k | 0 <= k < |ParamsOf(n)| ::
         FinalTags(n)[k] != DeclaredTags(n)[k] <==>
             WinnerId(items, specs, i, BindingOf(ParamsOf(n)[k], DeclaredTags(n)[k])).Some?
  }

  lemma LedByActive(n: Node, items: seq<ProvideItem>, specs: seq<ReplaceSpec>, i: nat, u: iset<TagSet>)
    requires Universe(u) && ItemsOk(items, u) && SpecsOk(specs, u)
    requires AllRedirected(n, ByWinner(items, specs, i)) && ChangesExactly(n, ActiveTags(items, specs, i), u)
    ensures LedBy(n, items, specs, i)
  {
    AllTagsWithin(items, specs, u);
    AllTagsWithin(items, Applicable(specs, i), u);
    DefaultPairsWithin(specs, u);
    hide ActiveTags, WinnerId, FinalTags, DeclaredTags, BindingOf, FullTagKey, AllTags, DefaultTags, ParamsOf;
    hide AllRedirected, SpecsOk, ItemsOk, Within, PairsWithin;
    forall k | 0 <= k < |ParamsOf(n)|
      ensures FinalTags(n)[k] != DeclaredTags(n)[k] <==>
                WinnerId(items, specs, i, BindingOf(ParamsOf(n)[k], DeclaredTags(n)[k])).Some?
    {
      ActiveTagsWinner(items, specs, i, u, BindingOf(ParamsOf(n)[k], DeclaredTags(n)[k]));
    }
  }

  /** Whatever a leaf becomes at its position in a scope, be it kept, stripped, rewritten or replaced by
      emitted nodes, it is led by what is chosen at that position. */
  lemma {:induction false} LedToWinner(n: Node, i: nat, items: seq<ProvideItem>, specs: seq<ReplaceSpec>,
                                       local: seq<ReplaceSpec>, u: iset<TagSet>)
    requires Universe(u) && ItemsOk(items, u) && SpecsOk(specs, u) && NodeOk(n, u)
    requires !n.Module? && !n.Options? && ApplyLeaf(n, i, items, specs, local).Ok?
    requires AtIndex(local, i).Some? ==>
               SpecFrom(AtIndex(local, i).value, u) && AtIndex(local, i).value.isDefault == n.Default?
    ensures forall e | e in ApplyLeaf(n, i, items, specs, local).value :: LedBy(e, items, specs, i)
  {
    hide LedBy;
    ActiveByWinner(items, specs, i, u);
    var active, allowed := ActiveTags(items, specs, i), ByWinner(items, specs, i);
    if n.Replace? || n.Default? {
      if AtIndex(local, i).Some? {
        hide ByWinner;
        EmittedByWinner(AtIndex(local, i).value, i, items, specs, u);
      }
    } else if n.Bind? && n.value.Func? {
      StrippedAsks(n, u);
      var v := if ShouldStrip(n.value, n.opts, Applicable(specs, i))
               then Bind(n.value, StripAutoGroups(n.opts), n.tagsOverride) else n;
      hide ActiveTags, ByWinner, RewriteNode, AsksWithin;
      RewriteSound(v, active, u, allowed);
      LedByActive(RewriteNode(v, active).value, items, specs, i, u);
    } else if n.Invoke? || n.Populate? {
      hide ActiveTags, ByWinner, RewriteNode;
      RewriteSound(n, active, u, allowed);
      LedByActive(RewriteNode(n, active).value, items, specs, i, u);
    } else {
      NothingToRedirect(n, active, u, allowed);
      LedByActive(n, items, specs, i, u);
    }
  }

  lemma EmittedByWinner(w: ReplaceSpec, i: nat, items: seq<ProvideItem>, specs: seq<ReplaceSpec>, u: iset<TagSet>)
    requires Universe(u) && ItemsOk(items, u) && SpecsOk(specs, u) && SpecFrom(w, u)
    requires Redirects(ActiveTags(items, specs, i), u, ByWinner(items, specs, i))
    ensures var targets := if w.isDefault then DefaultTargets(w, items, specs) else Targets(w, items);
            EmitAll(w, targets, ActiveTags(items, specs, i)).Ok? ==>
              forall e | e in EmitAll(w, targets, ActiveTags(items, specs, i)).value :: LedBy(e, items, specs, i)
  {
    var active := ActiveTags(items, specs, i);
    var targets := if w.isDefault then DefaultTargets(w, items, specs) else Targets(w, items);
    hide ActiveTags, ByWinner, Redirects, SpecFrom, ItemsOk, SpecsOk, EmitAll, DefaultTargets, Candidates, Dedup;
    if w.isDefault {
      DefaultTargetsTyped(w, items, specs, u);
    } else {
      CandidatesWithin(w, items, u);
      assert Within(Candidates(w, items), u);
      DedupMembers(Candidates(w, items), u);
    }
    if EmitAll(w, targets, active).Ok? {
      EmittedAll(w, targets, active, u, ByWinner(items, specs, i));
      hide AllRedirected, ChangesExactly, Universe;
      forall e | e in EmitAll(w, targets, active).value
        ensures LedBy(e, items, specs, i)
      {
        LedByActive(e, items, specs, i, u);
      }
    }
  }

  // ---- Where each leaf of the output comes from --------------------------

  /** The node a leaf of the output comes from, its position in its scope, and the providers and specs
      the pass has in hand there. */
  datatype Site = Site(source: Node, pos: nat, items: seq<ProvideItem>, specs: seq<ReplaceSpec>)

  /** The sites of the leaves of the pass's output, in order; the recursion is that of the pass. */
  ghost function Sites(nodes0: seq<Node>, inherited: seq<ReplaceSpec>, nextID: nat, depth: nat,
                       items0: seq<ProvideItem>): seq<Site>
    decreases Size(nodes0), 2, 0
  {
    var nodes := SpliceOptions(nodes0);
    SpliceSize(nodes0);
    var items := if items0 == [] then CollectScopeProvides(nodes) else Ok(items0);
    var local := LocalSpecs(nodes, |nodes|, nextID, depth);
    if items.Err? || local.Err? then []
    else SitesFrom(nodes, 0, items.value, inherited + local.value, local.value, nextID + |local.value|, depth)
  }

  ghost function SitesFrom(nodes: seq<Node>, i: nat, items: seq<ProvideItem>, specs: seq<ReplaceSpec>,
                           local: seq<ReplaceSpec>, nextID: nat, depth: nat): seq<Site>
    requires i <= |nodes|
    decreases Size(nodes), 1, |nodes| - i
  {
    if i == |nodes| then []
    else
      MemberSize(nodes, i);
      var head := ApplyNode(nodes[i], i, items, specs, local, nextID, depth);
      if head.Err? then []
      else SitesOf(nodes[i], i, items, specs, local, nextID, depth)
           + SitesFrom(nodes, i + 1, items, specs, local, head.value.1, depth)
  }

  ghost function SitesOf(n: Node, i: nat, items: seq<ProvideItem>, specs: seq<ReplaceSpec>, local: seq<ReplaceSpec>,
                         nextID: nat, depth: nat): seq<Site>
    decreases NodeSize(n), 0, 0
  {
    match n
    case Module(_, child) => Sites(child, Inherit(Applicable(specs, i)), nextID, depth + 1, items)
    case Options(child) => Sites(child, Inherit(Applicable(specs, i)), nextID, depth, items)
    case _ =>
      var out := ApplyLeaf(n, i, items, specs, local);
      if out.Err? then [] else seq(|out.value|, _ => Site(n, i, items, specs))
  }

  /** The leaf is led by what is chosen at its site. */
  ghost predicate LedAt(e: Node, site: Site) {
    LedBy(e, site.items, site.specs, site.pos)
  }

  ghost predicate AllLed(leaves: seq<Node>, sites: seq<Site>) {
    |leaves| == |sites| && forall k | 0 <= k < |leaves| :: LedAt(leaves[k], sites[k])
  }

  lemma LedAppend(a: seq<Node>, s: seq<Site>, b: seq<Node>, t: seq<Site>)
    requires AllLed(a, s) && AllLed(b, t)
    ensures AllLed(a + b, s + t)
  {
    hide LedAt;
    forall k | 0 <= k < |a + b|
      ensures LedAt((a + b)[k], (s + t)[k])
    {
      assert k >= |a| ==> (a + b)[k] == b[k - |a|] && (s + t)[k] == t[k - |s|];
    }
  }

  lemma {:induction false} EmitFlat(w: ReplaceSpec, targets: seq<TagSet>, active: map<string, TagSet>)
    requires EmitAll(w, targets, active).Ok?
    ensures forall e | e in EmitAll(w, targets, active).value :: e.Bind?
  {
    if targets == [] {
    } else {
      EmitFlat(w, targets[..|targets| - 1], active);
    }
  }

  lemma LeafFlat(n: Node, i: nat, items: seq<ProvideItem>, specs: seq<ReplaceSpec>, local: seq<ReplaceSpec>)
    requires !n.Module? && !n.Options? && ApplyLeaf(n, i, items, specs, local).Ok?
    ensures forall e | e in ApplyLeaf(n, i, items, specs, local).value :: !e.Module? && !e.Options?
  {
    var active := ActiveTags(items, specs, i);
    hide ActiveTags, Targets, DefaultTargets, EmitAll, ShouldStrip;
    if (n.Replace? || n.Default?) && AtIndex(local, i).Some? {
      var w := AtIndex(local, i).value;
      EmitFlat(w, if n.Replace? then Targets(w, items) else DefaultTargets(w, items, specs), active);
    }
  }

  lemma AtIndexFrom(nodes: seq<Node>, i: nat, local: seq<ReplaceSpec>, u: iset<TagSet>)
    requires i < |nodes| && Placed(local, nodes, |nodes|, u)
    ensures AtIndex(local, i).Some? ==>
              SpecFrom(AtIndex(local, i).value, u) &&
              (if AtIndex(local, i).value.isDefault then nodes[i].Default? else nodes[i].Replace?)
  {
    hide SpecFrom;
    AtIndexMember(local, i);
    if AtIndex(local, i).Some? {
      var k :| 0 <= k < |local| && local[k] == AtIndex(local, i).value;
      assert SpecFrom(local[k], u);
    }
  }

  lemma LeafUnfold(n: Node, i: nat, items: seq<ProvideItem>, specs: seq<ReplaceSpec>, local: seq<ReplaceSpec>,
                   nextID: nat, depth: nat)
    requires !n.Module? && !n.Options? && ApplyNode(n, i, items, specs, local, nextID, depth).Ok?
    ensures var out := ApplyLeaf(n, i, items, specs, local);
            out.Ok? && ApplyNode(n, i, items, specs, local, nextID, depth).value.0 == out.value &&
            SitesOf(n, i, items, specs, local, nextID, depth) == seq(|out.value|, _ => Site(n, i, items, specs))
  {
    hide ApplyLeaf;
  }

  lemma AllFrom(out: seq<Node>, n: Node, i: nat, items: seq<ProvideItem>, specs: seq<ReplaceSpec>)
    requires forall e | e in out :: LedBy(e, items, specs, i)
    ensures AllLed(out, seq(|out|, _ => Site(n, i, items, specs)))
  {
    hide LedBy;
    assert forall k | 0 <= k < |out| :: out[k] in out;
  }

  lemma LeafLed(nodes: seq<Node>, i: nat, items: seq<ProvideItem>, specs: seq<ReplaceSpec>, local: seq<ReplaceSpec>,
                nextID: nat, depth: nat, u: iset<TagSet>)
    requires Universe(u) && TreeOk(nodes, u) && ItemsOk(items, u) && SpecsOk(specs, u) &&
               Placed(local, nodes, |nodes|, u)
    requires i < |nodes| && !nodes[i].Module? && !nodes[i].Options?
    requires ApplyNode(nodes[i], i, items, specs, local, nextID, depth).Ok?
    ensures AllLed(Leaves(ApplyNode(nodes[i], i, items, specs, local, nextID, depth).value.0),
                   SitesOf(nodes[i], i, items, specs, local, nextID, depth))
  {
    hide *;
    var n := nodes[i];
    TreeMember(nodes, u, i);
    AtIndexFrom(nodes, i, local, u);
    LeafUnfold(n, i, items, specs, local, nextID, depth);
    var out := ApplyLeaf(n, i, items, specs, local).value;
    LeafFlat(n, i, items, specs, local);
    LeavesFlat(out);
    LedToWinner(n, i, items, specs, local, u);
    AllFrom(out, n, i, items, specs);
  }

  lemma {:induction false} NodeLed(nodes: seq<Node>, i: nat, items: seq<ProvideItem>, specs: seq<ReplaceSpec>,
                                   local: seq<ReplaceSpec>, nextID: nat, depth: nat, u: iset<TagSet>)
    requires Universe(u) && TreeOk(nodes, u) && ItemsOk(items, u) && SpecsOk(specs, u) &&
               Placed(local, nodes, |nodes|, u)
    requires i < |nodes| && ApplyNode(nodes[i], i, items, specs, local, nextID, depth).Ok?
    ensures AllLed(Leaves(ApplyNode(nodes[i], i, items, specs, local, nextID, depth).value.0),
                   SitesOf(nodes[i], i, items, specs, local, nextID, depth))
    decreases NodeSize(nodes[i]), 0, 0
  {
    var n := nodes[i];
    if n.Module? || n.Options? {
      var inner := if n.Module? then depth + 1 else depth;
      var passed := Inherit(Applicable(specs, i));
      var childOut := Apply(n.nodes, passed, nextID, inner, items).value.0;
      var out := ApplyNode(n, i, items, specs, local, nextID, depth).value.0;
      assert |out| == 1 && Leaves(out[1..]) == [] && LeavesOf(out[0]) == Leaves(childOut);
      assert Leaves(out) == Leaves(childOut);
      TreeMember(nodes, u, i);
      InheritOk(specs, i, u);
      TreeLed(n.nodes, passed, nextID, inner, items, u);
    } else {
      LeafLed(nodes, i, items, specs, local, nextID, depth, u);
    }
  }

  lemma {:induction false} FromLed(nodes: seq<Node>, i: nat, items: seq<ProvideItem>, specs: seq<ReplaceSpec>,
                                   local: seq<ReplaceSpec>, nextID: nat, depth: nat, u: iset<TagSet>)
    requires Universe(u) && TreeOk(nodes, u) && ItemsOk(items, u) && SpecsOk(specs, u) &&
               Placed(local, nodes, |nodes|, u)
    requires i <= |nodes| && ApplyFrom(nodes, i, items, specs, local, nextID, depth).Ok?
    ensures AllLed(Leaves(ApplyFrom(nodes, i, items, specs, local, nextID, depth).value.0),
                   SitesFrom(nodes, i, items, specs, local, nextID, depth))
    decreases Size(nodes), 1, |nodes| - i
  {
    hide Universe, ItemsOk, SpecsOk, Placed, TreeOk, LedAt;
    if i < |nodes| {
      MemberSize(nodes, i);
      var head := ApplyNode(nodes[i], i, items, specs, local, nextID, depth).value;
      var tail := ApplyFrom(nodes, i + 1, items, specs, local, head.1, depth).value;
      LeavesAppend(head.0, tail.0);
      NodeLed(nodes, i, items, specs, local, nextID, depth, u);
      FromLed(nodes, i + 1, items, specs, local, head.1, depth, u);
      hide ApplyNode, SitesOf, Leaves, AllLed;
      assert ApplyFrom(nodes, i, items, specs, local, nextID, depth).value.0 == head.0 + tail.0;
      LedAppend(Leaves(head.0), SitesOf(nodes[i], i, items, specs, local, nextID, depth),
                Leaves(tail.0), SitesFrom(nodes, i + 1, items, specs, local, head.1, depth));
    } else {
      assert Leaves([]) == [];
    }
  }

  lemma SitesUnfold(nodes0: seq<Node>, inherited: seq<ReplaceSpec>, nextID: nat, depth: nat, items0: seq<ProvideItem>,
                    nodes: seq<Node>, items: seq<ProvideItem>, local: seq<ReplaceSpec>)
    requires nodes == SpliceOptions(nodes0) && LocalSpecs(nodes, |nodes|, nextID, depth) == Ok(local)
    requires if items0 == [] then CollectScopeProvides(nodes0) == Ok(items) else items == items0
    ensures Sites(nodes0, inherited, nextID, depth, items0) ==
              SitesFrom(nodes, 0, items, inherited + local, local, nextID + |local|, depth)
  {
    SpliceSize(nodes0);
    SpliceKeepsProvides(nodes0);
    hide SitesFrom, SpliceOptions, CollectScopeProvides, LocalSpecs;
  }

  /** Over a whole tree, the tag of a parameter of a leaf of the output changed exactly when a spec is
      chosen, at the place the leaf comes from, for what the parameter asked for; and it then asks for
      the scoped binding of that spec. */
  lemma {:induction false} TreeLed(nodes0: seq<Node>, inherited: seq<ReplaceSpec>, nextID: nat, depth: nat,
                                   items0: seq<ProvideItem>, u: iset<TagSet>)
    requires Universe(u) && TreeOk(nodes0, u) && ItemsOk(items0, u) && SpecsOk(inherited, u)
    requires Apply(nodes0, inherited, nextID, depth, items0).Ok?
    ensures AllLed(Leaves(Apply(nodes0, inherited, nextID, depth, items0).value.0),
                   Sites(nodes0, inherited, nextID, depth, items0))
    decreases Size(nodes0), 2, 0
  {
    hide *;
    var nodes, items, local := Unfold(nodes0, inherited, nextID, depth, items0);
    TreeSpliced(nodes0, u);
    if items0 == [] {
      CollectOk(nodes0, u);
    }
    LocalPlaced(nodes, |nodes|, nextID, depth, u);
    PlacedSpecsOk(local, nodes, u);
    SpecsTogether(inherited, local, u);
    SitesUnfold(nodes0, inherited, nextID, depth, items0, nodes, items, local);
    FromLed(nodes, 0, items, inherited + local, local, nextID + |local|, depth, u);
  }
}
