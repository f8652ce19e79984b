/** Every redirected parameter names a scoped binding that some emitted node exports. */
module NoDangling {
  import opened Text
  import opened Tags
  import opened Bindings
  import opened Graph
  import opened Selection
  import opened Active
  import opened Rewriting
  import opened Replacing

  // ---- What is asked of the tree -----------------------------------------

  /** Freshly declared nodes over the bindings of u; replacements and defaults report one tag set. */
  ghost predicate NodeOk(n: Node, u: iset<TagSet>) {
    match n
    case Module(_, child) => TreeOk(child, u)
    case Options(child) => TreeOk(child, u)
    case Bind(value, opts, tags) =>
      tags.None? && AsksWithin(n, u) && (ReportedBy(value, opts).Ok? ==> Within(ReportedBy(value, opts).value, u))
    case Replace(value, opts, _) => ValueOk(value, opts, u)
    case Default(value, opts) => ValueOk(value, opts, u)
    case Invoke(_, _, tags) => tags.None? && AsksWithin(n, u)
    case Populate(_, _, tags) => tags.None? && AsksWithin(n, u)
    case Provided(types) => Within(UntaggedAll(types), u)
    case Other => true
  }

  ghost predicate ValueOk(value: Value, opts: seq<Opt>, u: iset<TagSet>) {
    && value.Base().Some?
    && AsksWithin(Bind(value, opts, None), u)
    && (ReportedBy(value, opts).Ok? ==>
          |ReportedBy(value, opts).value| == 1 && Within(ReportedBy(value, opts).value, u))
  }

  ghost predicate TreeOk(nodes: seq<Node>, u: iset<TagSet>) {
    nodes == [] || (NodeOk(nodes[0], u) && TreeOk(nodes[1..], u))
  }

  /** Bindings whose printed keys tell them apart and whose texts are free of quotes and colons. */
  ghost predicate Universe(u: iset<TagSet>) {
    Faithful(u) && forall ts | ts in u :: PlainTagSet(ts)
  }

  lemma {:induction false} TreeAppend(a: seq<Node>, b: seq<Node>, u: iset<TagSet>)
    ensures TreeOk(a + b, u) <==> TreeOk(a, u) && TreeOk(b, u)
  {
    if a == [] {
      assert a + b == b;
    } else {
      assert (a + b)[1..] == a[1..] + b;
      TreeAppend(a[1..], b, u);
    }
  }

  lemma {:induction false} TreeSpliced(nodes: seq<Node>, u: iset<TagSet>)
    requires TreeOk(nodes, u)
    ensures TreeOk(SpliceOptions(nodes), u)
  {
    if nodes == [] {
    } else {
      var head := if nodes[0].Options? then SpliceOptions(nodes[0].nodes) else [nodes[0]];
      TreeSpliced(nodes[1..], u);
      if nodes[0].Options? {
        TreeSpliced(nodes[0].nodes, u);
      } else {
        assert head[1..] == [];
      }
      TreeAppend(head, SpliceOptions(nodes[1..]), u);
    }
  }

  lemma {:induction false} TreeMember(nodes: seq<Node>, u: iset<TagSet>, i: nat)
    requires TreeOk(nodes, u) && i < |nodes|
    ensures NodeOk(nodes[i], u)
  {
    if i == 0 {
    } else {
      TreeMember(nodes[1..], u, i - 1);
    }
  }

  // ---- The providers of a scope ------------------------------------------

  ghost predicate ItemOk(p: ProvideItem, u: iset<TagSet>) {
    && Within(p.tagSets, u)
    && (p.node.Bind? && p.node.value.Func? ==> ReportedBy(p.node.value, p.node.opts) == Ok(p.tagSets))
  }

  ghost predicate ItemsOk(items: seq<ProvideItem>, u: iset<TagSet>) {
    forall p | p in items :: ItemOk(p, u)
  }

  lemma {:induction false} CollectOk(nodes: seq<Node>, u: iset<TagSet>)
    requires TreeOk(nodes, u) && CollectScopeProvides(nodes).Ok?
    ensures ItemsOk(CollectScopeProvides(nodes).value, u)
  {
    if nodes == [] {
    } else {
      CollectOk(nodes[1..], u);
      var n := nodes[0];
      if n.Module? || n.Options? {
        CollectOk(n.nodes, u);
      }
      assert ItemsOk(CollectNode(n).value, u);
    }
  }

  lemma {:induction false} CollectNothing(nodes: seq<Node>, i: nat)
    requires CollectScopeProvides(nodes) == Ok([]) && i < |nodes|
    ensures CollectNode(nodes[i]) == Ok([])
  {
    if i == 0 {
    } else {
      CollectNothing(nodes[1..], i - 1);
    }
  }

  lemma StrippedWithin(p: ProvideItem, specs: seq<ReplaceSpec>, u: iset<TagSet>)
    requires ItemOk(p, u)
    ensures forall ts | ts in TagSetsForProvide(p, specs) :: ts in p.tagSets && ts in u
  {
    if p.node.Bind? && p.node.value.Func? {
      StrippedReportsLess(p.node.opts, p.node.value.Base());
    }
  }

  lemma AllTagsWithin(items: seq<ProvideItem>, specs: seq<ReplaceSpec>, u: iset<TagSet>)
    requires ItemsOk(items, u)
    ensures Within(AllTags(items, specs), u)
  {
    forall ts | ts in AllTags(items, specs)
      ensures ts in u
    {
      AllTagsMember(items, specs, ts);
      var p :| p in items && ts in TagSetsForProvide(p, specs);
      StrippedWithin(p, specs, u);
    }
  }

  // ---- Winners have targets ----------------------------------------------

  /** The spec is emitted for this binding. */
  ghost predicate TargetOf(w: ReplaceSpec, items: seq<ProvideItem>, ts: TagSet) {
    ts in if w.isDefault then w.tagSets else Candidates(w, items)
  }

  lemma {:induction false} FilteredMember(tags: seq<TagSet>, specTags: seq<TagSet>, ts: TagSet)
    ensures ts in Filtered(tags, specTags) <==> ts in tags && MatchesAny(ts, specTags)
  {
    if tags == [] {
    } else {
      FilteredMember(tags[..|tags| - 1], specTags, ts);
      assert ts in tags <==> ts in tags[..|tags| - 1] || ts == tags[|tags| - 1];
    }
  }

  lemma MatchedBy(ts: TagSet, w: ReplaceSpec)
    ensures BestScore([ts], w.tagSets) >= 0 <==> MatchesAny(ts, w.tagSets)
  {
    BestScoreMatches([ts], w.tagSets);
    assert ts in [ts];
  }

  lemma SelectAlone(tagSets: seq<TagSet>, w: ReplaceSpec)
    ensures Select(tagSets, [w]).Some? <==> BestScore(tagSets, w.tagSets) >= 0
  {
    assert [w][0] == w;
  }

  /** A provider stripped for the applicable specs is stripped for the winner alone. */
  lemma {:induction false} SameStripping(p: ProvideItem, active: seq<ReplaceSpec>, w: ReplaceSpec, ts: TagSet,
                                         u: iset<TagSet>)
    requires ItemOk(p, u) && w in active
    requires ts in TagSetsForProvide(p, active) && MatchesAny(ts, w.tagSets)
    ensures ts in TagSetsForProvide(p, [w])
  {
    StrippedWithin(p, active, u);
    BestScoreMatches(p.tagSets, w.tagSets);
    SelectAlone(p.tagSets, w);
    hide BestScore, Ranks, Pick, MatchesAny, ReportedBy, StripAutoGroups;
    var i :| 0 <= i < |active| && active[i] == w;
    assert BestScore(p.tagSets, active[i].tagSets) >= 0;
    assert Select(p.tagSets, active).Some?;
  }

  lemma ActiveWinnerTarget(items: seq<ProvideItem>, active: seq<ReplaceSpec>, w: ReplaceSpec, ts: TagSet,
                           u: iset<TagSet>)
    requires ItemsOk(items, u) && ts in AllTags(items, active) && !w.isDefault
    requires Select([ts], active) == Some(w)
    ensures TargetOf(w, items, ts)
  {
    AllTagsMember(items, active, ts);
    var p :| p in items && ts in TagSetsForProvide(p, active);
    MatchedBy(ts, w);
    SameStripping(p, active, w, ts, u);
    AllTagsMember(items, [w], ts);
    FilteredMember(AllTags(items, [w]), w.tagSets, ts);
  }

  ghost predicate SpecOk(w: ReplaceSpec, u: iset<TagSet>) {
    Within(w.tagSets, u) && (w.isDefault ==> forall rt | rt in w.tagSets :: rt.name == "" && rt.group == "")
  }

  ghost predicate SpecsOk(specs: seq<ReplaceSpec>, u: iset<TagSet>) {
    forall w | w in specs :: SpecOk(w, u)
  }

  lemma {:induction false} DefaultPairsWithin(specs: seq<ReplaceSpec>, u: iset<TagSet>)
    requires SpecsOk(specs, u)
    ensures PairsWithin(DefaultTags(specs), u)
  {
    if specs == [] {
    } else {
      var n := |specs| - 1;
      assert specs[n] in specs && forall w | w in specs[..n] :: w in specs;
      DefaultPairsWithin(specs[..n], u);
      if specs[n].isDefault {
        assert forall t | 0 <= t < |specs[n].tagSets| ::
                 PairsWith(specs[n].tagSets, specs[n].id)[t].0 == specs[n].tagSets[t];
      }
    }
  }

  /** The winner of a defaulted binding offers that very binding. */
  lemma DefaultWinnerTarget(items: seq<ProvideItem>, specs: seq<ReplaceSpec>, ts: TagSet, u: iset<TagSet>)
    returns (w: ReplaceSpec)
    requires SpecsOk(specs, u) && FirstFor(DefaultTags(specs), ts) >= 0
    ensures w in specs && w.id == DefaultId(DefaultTags(specs), specs, ts) && TargetOf(w, items, ts)
  {
    FirstForSpec(specs, ts);
    hide DefaultTags, FirstFor, BestScore, Ranks, Pick;
    var i: nat :| FirstOffer(specs, ts, i) && DefaultTags(specs)[FirstFor(DefaultTags(specs), ts)].1 == specs[i].id;
    assert SpecOk(specs[i], u);
    var chosen := Select([ts], specs);
    if chosen.Some? && !chosen.value.isDefault {
      w := chosen.value;
      MatchedBy(ts, w);
      var k :| 0 <= k < |w.tagSets| && Matches(ts, w.tagSets[k]);
      assert w.tagSets[k] == ts;
    } else {
      w := specs[i];
    }
  }

  /** Every redirection in force at a position leads to a target of a spec of that scope. */
  lemma ActiveSound(items: seq<ProvideItem>, specs: seq<ReplaceSpec>, i: nat, u: iset<TagSet>)
    requires Universe(u) && ItemsOk(items, u) && SpecsOk(specs, u)
    ensures Redirects(ActiveTags(items, specs, i), u,
                      (ts, id) => exists w | w in specs :: w.id == id && TargetOf(w, items, ts))
  {
    var active := Applicable(specs, i);
    AllTagsWithin(items, specs, u);
    AllTagsWithin(items, active, u);
    DefaultPairsWithin(specs, u);
    forall ts | ts in u && FullTagKey(ts) in ActiveTags(items, specs, i)
      ensures exists id: nat :: ActiveTags(items, specs, i)[FullTagKey(ts)] == ScopedTagSet(ts, id) &&
                (exists w | w in specs :: w.id == id && TargetOf(w, items, ts))
    {
      ActiveTagsWinner(items, specs, i, u, ts);
      var id := WinnerId(items, specs, i, ts).value;
      hide ActiveTags, ScopedTagSet, FullTagKey, TargetOf, AllTags, FirstFor, DefaultTags;
      if ts in AllTags(items, active) && Select([ts], active).Some? {
        var w := Select([ts], active).value;
        ApplicableMembers(specs, i, w);
        ActiveWinnerTarget(items, active, w, ts, u);
        assert w in specs && w.id == id;
      } else {
        var w := DefaultWinnerTarget(items, specs, ts, u);
        assert w in specs && w.id == id;
      }
    }
  }

  // ---- Targets are emitted -----------------------------------------------

  /** What the spec of a well-formed replacement or default is. */
  ghost predicate SpecFrom(w: ReplaceSpec, u: iset<TagSet>) {
    && SpecOk(w, u) && ValueOk(w.value, w.opts, u)
    && ReportedBy(w.value, w.opts) == Ok(w.tagSets)
    && Parse(w.opts).Ok? && !HasPending(Parse(w.opts).value)
  }

  lemma {:induction false} UntaggedExports(exports: seq<ExportSpec>)
    requires TaggedExport(exports).None?
    ensures forall e | e in exports :: !e.grouped && !e.named
  {
    if exports == [] {
    } else {
      UntaggedExports(exports[1..]);
    }
  }

  /** A single-export default without tagged exports reports an untagged tag set. */
  lemma DefaultUntagged(cfg: BindConfig, base: GoType)
    requires !HasPending(cfg) && TaggedExport(cfg.exports).None? && ProvideSpecOf(cfg, Some(base)).Ok?
    requires |ProvideSpecOf(cfg, Some(base)).value.tagSets| == 1
    ensures var ts := ProvideSpecOf(cfg, Some(base)).value.tagSets[0]; ts.name == "" && ts.group == ""
  {
    UntaggedExports(cfg.exports);
    var rules := if cfg.flags.ignoreAuto then [] else cfg.autoGroups;
    DeclaredReports(cfg, base);
    RulesReport(cfg, base, Declared(cfg, base), rules);
    var d := Declared(cfg, base).tagSets;
    assert ProvideSpecOf(cfg, Some(base)).value.tagSets[0] == d[0];
    assert cfg.exports != [] ==> cfg.exports[0] in cfg.exports;
    assert cfg.exports != [] ==> d[0] == TagSetsOf(cfg.exports)[0] == TagSetOf(cfg.exports[0]);
  }

  lemma SpecBuilt(n: Node, pos: nat, id: nat, depth: nat, u: iset<TagSet>)
    requires (n.Replace? || n.Default?) && NodeOk(n, u) && BuildSpec(n, pos, id, depth).Ok?
    ensures SpecFrom(BuildSpec(n, pos, id, depth).value, u)
  {
    if n.Default? {
      DefaultUntagged(Parse(n.opts).value, n.value.Base().value);
    }
    hide ProvideSpecOf, Parse, TaggedExport, AsksWithin;
  }

  /** The local specs sit at the positions of their nodes, in order. */
  ghost predicate Placed(local: seq<ReplaceSpec>, nodes: seq<Node>, k: nat, u: iset<TagSet>)
    requires k <= |nodes|
  {
    && (forall i | 0 <= i < |local| :: SpecFrom(local[i], u) && local[i].pos < k && !local[i].inherited &&
          (if local[i].isDefault then nodes[local[i].pos].Default? else nodes[local[i].pos].Replace?))
    && (forall i, j | 0 <= i < j < |local| :: local[i].pos < local[j].pos)
  }

  lemma {:induction false} LocalPlaced(nodes: seq<Node>, k: nat, nextID: nat, depth: nat, u: iset<TagSet>)
    requires TreeOk(nodes, u) && k <= |nodes| && LocalSpecs(nodes, k, nextID, depth).Ok?
    ensures Placed(LocalSpecs(nodes, k, nextID, depth).value, nodes, k, u)
  {
    hide SpecFrom, BuildSpec, TreeOk, NodeOk;
    if k == 0 {
    } else {
      LocalPlaced(nodes, k - 1, nextID, depth, u);
      TreeMember(nodes, u, k - 1);
      var front := LocalSpecs(nodes, k - 1, nextID, depth).value;
      var n := nodes[k - 1];
      if n.Replace? || n.Default? {
        SpecBuilt(n, k - 1, nextID + |front|, depth, u);
        SpecPlace(n, k - 1, nextID + |front|, depth);
      }
    }
  }

  lemma SpecPlace(n: Node, pos: nat, id: nat, depth: nat)
    requires (n.Replace? || n.Default?) && BuildSpec(n, pos, id, depth).Ok?
    ensures var w := BuildSpec(n, pos, id, depth).value;
            w.pos == pos && !w.inherited && (if w.isDefault then n.Default? else n.Replace?)
  {
    hide Parse, ProvideSpecOf, TaggedExport;
  }

  lemma {:induction false} AtIndexFinds(local: seq<ReplaceSpec>, i: nat)
    requires i < |local| && forall a, b | 0 <= a < b < |local| :: local[a].pos < local[b].pos
    ensures AtIndex(local, local[i].pos) == Some(local[i])
  {
    if i < |local| - 1 {
      AtIndexFinds(local[..|local| - 1], i);
    }
  }

  lemma {:induction false} AtIndexMember(local: seq<ReplaceSpec>, i: nat)
    ensures AtIndex(local, i).Some? ==> AtIndex(local, i).value in local && AtIndex(local, i).value.pos == i
  {
    if local == [] {
    } else {
      AtIndexMember(local[..|local| - 1], i);
    }
  }

  /** The node builds whenever the spec's own node would, and puts the binding into the container. */
  ghost predicate Exports(e: Node, w: ReplaceSpec, ts: TagSet)
    requires e.Bind? && e.value.Base().Some?
  {
    var base := e.value.Base().value;
    && (OutputsBy(base, w.opts).Ok? ==> OutputsBy(base, e.opts).Ok?)
    && (OutputsBy(base, e.opts).Ok? ==> ts in OutputsBy(base, e.opts).value)
  }

  /** A leaf of the output carries the spec's value, reports the scoped binding, and exports it. */
  ghost predicate Supplies(e: Node, w: ReplaceSpec, ts: TagSet) {
    && e.Bind? && e.value == w.value && e.value.Base().Some? && ReportedBy(e.value, e.opts).Ok?
    && ScopedTagSet(ts, w.id) in ReportedBy(e.value, e.opts).value
    && Exports(e, w, ScopedTagSet(ts, w.id))
  }

  ghost predicate Emitted(out: seq<Node>, w: ReplaceSpec, ts: TagSet) {
    exists e | e in Leaves(out) :: Supplies(e, w, ts)
  }

  lemma {:induction false} DedupMember(tags: seq<TagSet>, u: iset<TagSet>, ts: TagSet)
    requires Faithful(u) && Within(tags, u)
    ensures ts in Dedup(tags) <==> ts in tags
  {
    hide *;
    if tags == [] {
      DedupNothing();
    } else {
      var n := |tags| - 1;
      FrontWithin(tags, u);
      DedupMember(tags[..n], u, ts);
      DedupLast(tags, u);
      assert ts in tags <==> ts in tags[..n] || ts == tags[n];
    }
  }

  lemma DedupNothing()
    ensures Dedup([]) == []
  {
  }

  lemma FrontWithin(tags: seq<TagSet>, u: iset<TagSet>)
    requires tags != [] && Within(tags, u)
    ensures Within(tags[..|tags| - 1], u)
  {
    assert forall x | x in tags[..|tags| - 1] :: x in tags;
  }

  lemma DedupLast(tags: seq<TagSet>, u: iset<TagSet>)
    requires tags != [] && Faithful(u) && Within(tags, u)
    ensures var n := |tags| - 1; Dedup(tags) == Dedup(tags[..n]) + if tags[n] in tags[..n] then [] else [tags[n]]
  {
    hide FullTagKey;
    var n := |tags| - 1;
    var front := tags[..n];
    assert tags[n] in tags && forall x | x in front :: x in tags;
    if FullTagKey(tags[n]) in KeysOf(front) {
      var x :| x in front && FullTagKey(x) == FullTagKey(tags[n]);
      assert x in u && x == tags[n];
    }
  }

  /** Every candidate of a replacement has its single type, and is in u. */
  lemma SpecSingle(w: ReplaceSpec, u: iset<TagSet>)
    requires SpecFrom(w, u)
    ensures |w.tagSets| == 1 && w.tagSets[0] in u
  {
    assert w.tagSets[0] in w.tagSets;
  }

  lemma MatchedTyped(ts: TagSet, tags: seq<TagSet>)
    requires |tags| == 1 && MatchesAny(ts, tags)
    ensures ts.typ == tags[0].typ
  {
  }

  lemma CandidateCases(w: ReplaceSpec, items: seq<ProvideItem>, ts: TagSet)
    requires ts in Candidates(w, items)
    ensures ts in w.tagSets || (ts in AllTags(items, [w]) && MatchesAny(ts, w.tagSets))
  {
    FilteredMember(AllTags(items, [w]), w.tagSets, ts);
    hide AllTags, Filtered, MatchesAny;
  }

  lemma WithinMember(tags: seq<TagSet>, u: iset<TagSet>, ts: TagSet)
    requires Within(tags, u) && ts in tags
    ensures ts in u
  {
  }

  lemma CandidatesWithin(w: ReplaceSpec, items: seq<ProvideItem>, u: iset<TagSet>)
    requires SpecFrom(w, u) && ItemsOk(items, u)
    ensures forall ts | ts in Candidates(w, items) :: ts in u && ts.typ == w.tagSets[0].typ
  {
    hide *;
    SpecSingle(w, u);
    AllTagsWithin(items, [w], u);
    forall ts | ts in Candidates(w, items)
      ensures ts in u && ts.typ == w.tagSets[0].typ
    {
      CandidateCases(w, items, ts);
      if ts !in w.tagSets {
        MatchedTyped(ts, w.tagSets);
        WithinMember(AllTags(items, [w]), u, ts);
      } else {
        var k :| 0 <= k < |w.tagSets| && w.tagSets[k] == ts;
      }
    }
  }

  /** The replacement is not provided as itself as well, and no rule of its own adds an export to it. */
  ghost predicate ReportsAlone(w: ReplaceSpec, target: TagSet)
    requires Parse(w.opts).Ok? && w.value.Base().Some?
  {
    var cfg := Parse(w.opts).value;
    !cfg.flags.includeSelf && forall r | r in RulesOf(cfg) :: Settled(cfg, w.value.Base().value, r, target)
  }

  lemma EmittedExports(w: ReplaceSpec, scoped: TagSet, u: iset<TagSet>)
    requires SpecFrom(w, u) && scoped.typ == w.tagSets[0].typ && (scoped.name == "") != (scoped.group == "")
    ensures Exports(Bind(w.value, OverrideNameGroup(w.opts, scoped), None), w, scoped)
  {
    var base, cfg := w.value.Base().value, Parse(w.opts).value;
    RetaggedExports(w.opts, base, ProvideSpecOf(cfg, Some(base)).value, scoped);
    RetaggedBuilds(w.opts, base, ProvideSpecOf(cfg, Some(base)).value, scoped);
    var retagged := Parse(OverrideNameGroup(w.opts, scoped)).value;
    var b := ProvideSpecOf(retagged, Some(base)).value;
    hide Parse, OverrideNameGroup, ProvideSpecOf;
    if Wrap(base, b).Ok? {
      ReportedIsExported(retagged, base, b, Wrap(base, b).value);
    }
  }

  /** One emitted node supplies its scoped binding, and nothing else exactly when the replacement
      reports alone; its own parameters are redirected. */
  lemma EmittedOne(w: ReplaceSpec, ts: TagSet, active: map<string, TagSet>, u: iset<TagSet>,
                   allowed: (TagSet, nat) -> bool)
    requires Universe(u) && SpecFrom(w, u) && ts.typ == w.tagSets[0].typ && Redirects(active, u, allowed)
    requires EmitOne(w, ts, active).Ok?
    ensures Supplies(EmitOne(w, ts, active).value, w, ts)
    ensures AllRedirected(EmitOne(w, ts, active).value, allowed) &&
              ChangesExactly(EmitOne(w, ts, active).value, active, u)
    ensures var e := EmitOne(w, ts, active).value;
            ReportedBy(e.value, e.opts).value == [ScopedTagSet(ts, w.id)] <==> ReportsAlone(w, ScopedTagSet(ts, w.id))
  {
    var scoped := ScopedTagSet(ts, w.id);
    ScopedKind(ts, w.id);
    var cfg := Parse(w.opts).value;
    RetaggedReport(w.opts, w.value.Base().value, ProvideSpecOf(cfg, w.value.Base()).value, scoped);
    RetaggedExports(w.opts, w.value.Base().value, ProvideSpecOf(cfg, w.value.Base()).value, scoped);
    var n := Bind(w.value, OverrideNameGroup(w.opts, scoped), None);
    EmittedExports(w, scoped, u);
    hide Exports;
    assert DeclaredTags(n) == DeclaredTags(Bind(w.value, w.opts, None));
    hide OverrideNameGroup, ProvideSpecOf, ScopedTagSet, RewriteNode, Settled, RulesOf;
    assert AsksWithin(n, u) by {
      assert AsksWithin(Bind(w.value, w.opts, None), u);
    }
    RewriteSound(n, active, u, allowed);
  }

  lemma {:induction false} EmittedAll(w: ReplaceSpec, targets: seq<TagSet>, active: map<string, TagSet>,
                                      u: iset<TagSet>, allowed: (TagSet, nat) -> bool)
    requires Universe(u) && SpecFrom(w, u) && Redirects(active, u, allowed)
    requires forall ts | ts in targets :: ts.typ == w.tagSets[0].typ
    requires EmitAll(w, targets, active).Ok?
    ensures var out := EmitAll(w, targets, active).value;
            (forall e | e in out :: e.Bind? && AllRedirected(e, allowed) && ChangesExactly(e, active, u)) &&
            (forall ts | ts in targets :: exists e | e in out :: Supplies(e, w, ts))
  {
    if targets == [] {
    } else {
      var n := |targets| - 1;
      assert targets[n] in targets;
      EmittedAll(w, targets[..n], active, u, allowed);
      EmittedOne(w, targets[n], active, u, allowed);
      hide EmitOne, Supplies, AllRedirected, ChangesExactly, Redirects, SpecFrom;
      var front, last := EmitAll(w, targets[..n], active).value, EmitOne(w, targets[n], active).value;
      assert EmitAll(w, targets, active).value == front + [last];
      forall ts | ts in targets
        ensures exists e | e in front + [last] :: Supplies(e, w, ts)
      {
        if ts in targets[..n] {
          var e :| e in front && Supplies(e, w, ts);
          assert e in front + [last];
        } else {
          assert ts == targets[n] && last in front + [last];
        }
      }
    }
  }

  // ---- The whole pass ----------------------------------------------------

  /** The id belongs to a spec that is emitted for the binding: an inherited one, emitted further
      out, or one of this tree, emitted in its output. */
  ghost predicate Owned(inherited: seq<ReplaceSpec>, deep: seq<ReplaceSpec>, items: seq<ProvideItem>, out: seq<Node>,
                        ts: TagSet, id: nat) {
    exists w :: TargetOf(w, items, ts) && w.id == id && (w in inherited || (w in deep && Emitted(out, w, ts)))
  }

  ghost predicate AllOwned(leaves: seq<Node>, inherited: seq<ReplaceSpec>, deep: seq<ReplaceSpec>,
                           items: seq<ProvideItem>, out: seq<Node>) {
    forall e | e in leaves :: AllRedirected(e, (ts: TagSet, id: nat) => Owned(inherited, deep, items, out, ts, id))
  }

  lemma RedirectedMono(n: Node, a: (TagSet, nat) -> bool, b: (TagSet, nat) -> bool)
    requires AllRedirected(n, a) && forall ts, id: nat | a(ts, id) :: b(ts, id)
    ensures AllRedirected(n, b)
  {
    forall i | 0 <= i < |ParamsOf(n)|
      ensures Redirected(n, i, b)
    {
      assert Redirected(n, i, a);
    }
  }

  lemma {:induction false} LeavesFlat(out: seq<Node>)
    requires forall e | e in out :: !e.Module? && !e.Options?
    ensures Leaves(out) == out
  {
    if out == [] {
    } else {
      assert out[0] in out && forall e | e in out[1..] :: e in out;
      LeavesFlat(out[1..]);
    }
  }

  ghost predicate OfSpecs(specs: seq<ReplaceSpec>, items: seq<ProvideItem>, ts: TagSet, id: nat) {
    exists i :: 0 <= i < |specs| && specs[i].id == id && TargetOf(specs[i], items, ts)
  }

  ghost function InSpecs(specs: seq<ReplaceSpec>, items: seq<ProvideItem>): (TagSet, nat) -> bool {
    (ts: TagSet, id: nat) => OfSpecs(specs, items, ts, id)
  }

  lemma ActiveInSpecs(items: seq<ProvideItem>, specs: seq<ReplaceSpec>, i: nat, u: iset<TagSet>)
    requires Universe(u) && ItemsOk(items, u) && SpecsOk(specs, u)
    ensures Redirects(ActiveTags(items, specs, i), u, InSpecs(specs, items))
  {
    ActiveSound(items, specs, i, u);
    forall ts | ts in u && FullTagKey(ts) in ActiveTags(items, specs, i)
      ensures exists id: nat :: ActiveTags(items, specs, i)[FullTagKey(ts)] == ScopedTagSet(ts, id) &&
                InSpecs(specs, items)(ts, id)
    {
      hide ActiveTags, ScopedTagSet, FullTagKey, TargetOf;
      var id: nat :| ActiveTags(items, specs, i)[FullTagKey(ts)] == ScopedTagSet(ts, id) &&
        (exists w | w in specs :: w.id == id && TargetOf(w, items, ts));
      var w :| w in specs && w.id == id && TargetOf(w, items, ts);
      var k :| 0 <= k < |specs| && specs[k] == w;
      assert OfSpecs(specs, items, ts, id);
    }
  }

  lemma UnreplacedTyped(w: ReplaceSpec, items: seq<ProvideItem>, specs: seq<ReplaceSpec>, u: iset<TagSet>)
    requires SpecFrom(w, u) && ItemsOk(items, u)
    ensures forall ts | ts in Unreplaced(Filtered(AllTags(items, specs), w.tagSets), specs) ::
              ts in u && ts.typ == w.tagSets[0].typ
  {
    hide SpecFrom, ItemsOk, AllTags, Filtered, MatchesAny, Unreplaced;
    SpecSingle(w, u);
    AllTagsWithin(items, specs, u);
    var kept := Filtered(AllTags(items, specs), w.tagSets);
    forall ts | ts in Unreplaced(kept, specs)
      ensures ts in u && ts.typ == w.tagSets[0].typ
    {
      UnreplacedMember(kept, specs, ts);
      FilteredMember(AllTags(items, specs), w.tagSets, ts);
      MatchedTyped(ts, w.tagSets);
    }
  }

  lemma DefaultTargetsTyped(w: ReplaceSpec, items: seq<ProvideItem>, specs: seq<ReplaceSpec>, u: iset<TagSet>)
    requires Universe(u) && SpecFrom(w, u) && ItemsOk(items, u)
    ensures forall ts | ts in w.tagSets :: ts in DefaultTargets(w, items, specs)
    ensures forall ts | ts in DefaultTargets(w, items, specs) :: ts.typ == w.tagSets[0].typ
  {
    SpecSingle(w, u);
    UnreplacedTyped(w, items, specs, u);
    assert Faithful(u);
    hide *;
    TargetsOfAll(w.tagSets, Unreplaced(Filtered(AllTags(items, specs), w.tagSets), specs), u);
    DefaultTargetsAre(w, items, specs);
  }

  lemma DefaultTargetsAre(w: ReplaceSpec, items: seq<ProvideItem>, specs: seq<ReplaceSpec>)
    ensures DefaultTargets(w, items, specs) ==
              Dedup(w.tagSets + Unreplaced(Filtered(AllTags(items, specs), w.tagSets), specs))
  {
    hide Dedup, Unreplaced, Filtered, AllTags;
  }

  lemma TargetsOfAll(own: seq<TagSet>, others: seq<TagSet>, u: iset<TagSet>)
    requires Faithful(u) && |own| == 1 && own[0] in u
    requires forall ts | ts in others :: ts in u && ts.typ == own[0].typ
    ensures forall ts | ts in own :: ts in Dedup(own + others)
    ensures forall ts | ts in Dedup(own + others) :: ts.typ == own[0].typ
  {
    assert Within(own + others, u);
    hide Faithful, Dedup, Within;
    DedupMembers(own + others, u);
  }

  lemma DedupMembers(tags: seq<TagSet>, u: iset<TagSet>)
    requires Faithful(u) && Within(tags, u)
    ensures forall ts :: ts in Dedup(tags) <==> ts in tags
  {
    hide Dedup, Faithful;
    forall ts
      ensures ts in Dedup(tags) <==> ts in tags
    {
      DedupMember(tags, u, ts);
    }
  }

  lemma {:induction false} UnreplacedMember(tags: seq<TagSet>, specs: seq<ReplaceSpec>, ts: TagSet)
    ensures ts in Unreplaced(tags, specs) ==> ts in tags
  {
    if tags == [] {
    } else {
      UnreplacedMember(tags[..|tags| - 1], specs, ts);
    }
  }

  /** A replacement or default at its own position: all its targets are supplied, all params redirected. */
  lemma OwnNodeSound(n: Node, i: nat, items: seq<ProvideItem>, specs: seq<ReplaceSpec>, local: seq<ReplaceSpec>,
                     w: ReplaceSpec, u: iset<TagSet>)
    requires Universe(u) && ItemsOk(items, u) && SpecsOk(specs, u) && SpecFrom(w, u)
    requires AtIndex(local, i) == Some(w) && (if w.isDefault then n.Default? else n.Replace?)
    requires ApplyLeaf(n, i, items, specs, local).Ok?
    ensures var out := ApplyLeaf(n, i, items, specs, local).value;
            (forall e | e in out :: e.Bind? && AllRedirected(e, InSpecs(specs, items))) &&
            (forall ts | TargetOf(w, items, ts) :: Emitted(out, w, ts))
  {
    ActiveInSpecs(items, specs, i, u);
    var active := ActiveTags(items, specs, i);
    var targets := if w.isDefault then DefaultTargets(w, items, specs) else Targets(w, items);
    if w.isDefault {
      DefaultTargetsTyped(w, items, specs, u);
    } else {
      CandidatesWithin(w, items, u);
      forall ts
        ensures ts in targets <==> ts in Candidates(w, items)
      {
        DedupMember(Candidates(w, items), u, ts);
      }
    }
    hide ActiveTags, DefaultTargets, Targets, Candidates, EmitAll, Supplies, AllRedirected, ChangesExactly;
    EmittedAll(w, targets, active, u, InSpecs(specs, items));
    var out := EmitAll(w, targets, active).value;
    LeavesFlat(out);
  }

  /** Any other leaf: all params redirected. */
  lemma OtherLeafSound(n: Node, i: nat, items: seq<ProvideItem>, specs: seq<ReplaceSpec>, local: seq<ReplaceSpec>,
                       u: iset<TagSet>)
    requires Universe(u) && ItemsOk(items, u) && SpecsOk(specs, u) && NodeOk(n, u)
    requires !n.Module? && !n.Options? && !n.Replace? && !n.Default?
    requires ApplyLeaf(n, i, items, specs, local).Ok?
    ensures forall e | e in ApplyLeaf(n, i, items, specs, local).value ::
              !e.Module? && !e.Options? && AllRedirected(e, InSpecs(specs, items))
  {
    ActiveInSpecs(items, specs, i, u);
    var active := ActiveTags(items, specs, i);
    var allowed := InSpecs(specs, items);
    if n.Bind? && n.value.Func? {
      var v := if ShouldStrip(n.value, n.opts, Applicable(specs, i))
               then Bind(n.value, StripAutoGroups(n.opts), n.tagsOverride) else n;
      StrippedAsks(n, u);
      hide ActiveTags, InSpecs, RewriteNode, AsksWithin;
      RewriteSound(v, active, u, allowed);
    } else if n.Invoke? || n.Populate? {
      RewriteSound(n, active, u, allowed);
    } else {
      NothingToRedirect(n, active, u, allowed);
    }
  }

  lemma StrippedAsks(n: Node, u: iset<TagSet>)
    requires n.Bind? && AsksWithin(n, u)
    ensures AsksWithin(Bind(n.value, StripAutoGroups(n.opts), n.tagsOverride), u) || Parse(n.opts).Err?
  {
    var m := Bind(n.value, StripAutoGroups(n.opts), n.tagsOverride);
    if Parse(n.opts).Ok? {
      ParseStripped(n.opts);
      assert DeclaredTags(m) == DeclaredTags(n);
    }
  }

  lemma {:induction false} LeavesOfMember(nodes: seq<Node>, i: nat)
    requires i < |nodes|
    ensures forall e | e in LeavesOf(nodes[i]) :: e in Leaves(nodes)
  {
    if i == 0 {
    } else {
      LeavesOfMember(nodes[1..], i - 1);
    }
  }

  lemma EmittedAppend(a: seq<Node>, b: seq<Node>, w: ReplaceSpec, ts: TagSet)
    requires Emitted(a, w, ts) || Emitted(b, w, ts)
    ensures Emitted(a + b, w, ts)
  {
    LeavesAppend(a, b);
    hide Leaves, Supplies;
    var e :| (e in Leaves(a) || e in Leaves(b)) && Supplies(e, w, ts);
    assert e in Leaves(a) + Leaves(b);
  }

  /** Each local spec is emitted for all its targets. */
  lemma {:induction false} LocalEmitted(nodes: seq<Node>, i: nat, items: seq<ProvideItem>, specs: seq<ReplaceSpec>,
                                        local: seq<ReplaceSpec>,
                                        nextID: nat, depth: nat, u: iset<TagSet>, k: nat, ts: TagSet)
    requires Universe(u) && ItemsOk(items, u) && SpecsOk(specs, u)
    requires i <= |nodes| && Placed(local, nodes, |nodes|, u) && k < |local| && i <= local[k].pos
    requires ApplyFrom(nodes, i, items, specs, local, nextID, depth).Ok?
    requires TargetOf(local[k], items, ts)
    ensures Emitted(ApplyFrom(nodes, i, items, specs, local, nextID, depth).value.0, local[k], ts)
    decreases |nodes| - i
  {
    hide ApplyLeaf, TargetOf, Emitted, SpecFrom, Apply;
    var w := local[k];
    var head := ApplyNode(nodes[i], i, items, specs, local, nextID, depth).value;
    var tail := ApplyFrom(nodes, i + 1, items, specs, local, head.1, depth).value;
    if w.pos == i {
      AtIndexFinds(local, k);
      OwnNodeSound(nodes[i], i, items, specs, local, w, u);
    } else {
      LocalEmitted(nodes, i + 1, items, specs, local, head.1, depth, u, k, ts);
    }
    EmittedAppend(head.0, tail.0, w, ts);
  }

  // ---- Passing redirections up the tree ----------------------------------

  lemma SelectAloneSame(tagSets: seq<TagSet>, v: ReplaceSpec, w: ReplaceSpec)
    requires v.tagSets == w.tagSets
    ensures Select(tagSets, [v]).Some? == Select(tagSets, [w]).Some?
  {
    SelectAlone(tagSets, v);
    SelectAlone(tagSets, w);
  }

  lemma {:induction false} SameAllTags(items: seq<ProvideItem>, v: ReplaceSpec, w: ReplaceSpec)
    requires v.tagSets == w.tagSets
    ensures AllTags(items, [v]) == AllTags(items, [w])
  {
    if items == [] {
    } else {
      SameAllTags(items[..|items| - 1], v, w);
      var p := items[|items| - 1];
      if p.node.Bind? && ReportedBy(p.node.value, p.node.opts).Ok? {
        SelectAloneSame(ReportedBy(p.node.value, p.node.opts).value, v, w);
      }
    }
  }

  /** What a child inherits is emitted for the same bindings as the original. */
  lemma InheritedOrigin(specs: seq<ReplaceSpec>, i: nat, items: seq<ProvideItem>, v: ReplaceSpec)
    returns (w: ReplaceSpec)
    requires v in Inherit(Applicable(specs, i))
    ensures w in specs && w.id == v.id && w.tagSets == v.tagSets && !w.isDefault && !v.isDefault
    ensures forall ts :: TargetOf(v, items, ts) == TargetOf(w, items, ts)
  {
    var active := Applicable(specs, i);
    var k :| 0 <= k < |active| && Inherit(active)[k] == v;
    w := active[k];
    ApplicableMembers(specs, i, w);
    SameAllTags(items, v, w);
  }

  /** Facts that hold while one scope is rewritten into whole. */
  ghost predicate ScopeOk(nodes: seq<Node>, items: seq<ProvideItem>, inherited: seq<ReplaceSpec>,
                          local: seq<ReplaceSpec>, deep: seq<ReplaceSpec>, whole: seq<Node>, u: iset<TagSet>) {
    && TreeOk(nodes, u) && ItemsOk(items, u) && SpecsOk(inherited + local, u)
    && (items == [] ==> CollectScopeProvides(nodes) == Ok([]))
    && (forall w | w in inherited :: !w.isDefault)
    && Placed(local, nodes, |nodes|, u)
    && (forall w | w in local :: w in deep)
    && (forall w, ts | w in local && TargetOf(w, items, ts) :: Emitted(whole, w, ts))
  }

  lemma OwnedUp(specs: seq<ReplaceSpec>, i: nat, inherited: seq<ReplaceSpec>, local: seq<ReplaceSpec>,
                items: seq<ProvideItem>,
                childDeep: seq<ReplaceSpec>, childOut: seq<Node>, deep: seq<ReplaceSpec>, whole: seq<Node>,
                    ts: TagSet, id: nat)
    requires specs == inherited + local
    requires forall w | w in local :: w in deep && (TargetOf(w, items, ts) ==> Emitted(whole, w, ts))
    requires forall w | w in childDeep :: w in deep
    requires forall e | e in Leaves(childOut) :: e in Leaves(whole)
    requires Owned(Inherit(Applicable(specs, i)), childDeep, items, childOut, ts, id)
    ensures Owned(inherited, deep, items, whole, ts, id)
  {
    hide TargetOf, Applicable, Inherit, Leaves, Supplies;
    var v :| TargetOf(v, items, ts) && v.id == id &&
      (v in Inherit(Applicable(specs, i)) || (v in childDeep && Emitted(childOut, v, ts)));
    if v in Inherit(Applicable(specs, i)) {
      var w := InheritedOrigin(specs, i, items, v);
      assert TargetOf(w, items, ts);
    }
  }

  lemma OwnedHere(specs: seq<ReplaceSpec>, inherited: seq<ReplaceSpec>, local: seq<ReplaceSpec>,
                  items: seq<ProvideItem>, deep: seq<ReplaceSpec>, whole: seq<Node>, ts: TagSet, id: nat)
    requires specs == inherited + local
    requires forall w | w in local :: w in deep && (TargetOf(w, items, ts) ==> Emitted(whole, w, ts))
    requires OfSpecs(specs, items, ts, id)
    ensures Owned(inherited, deep, items, whole, ts, id)
  {
    hide TargetOf, Emitted;
    var k :| 0 <= k < |specs| && specs[k].id == id && TargetOf(specs[k], items, ts);
    assert specs[k] in inherited || specs[k] in local;
  }

  function Effective(nodes0: seq<Node>, items0: seq<ProvideItem>): seq<ProvideItem> {
    if items0 == [] && CollectScopeProvides(nodes0).Ok? then CollectScopeProvides(nodes0).value else items0
  }

  lemma LeafOwned(nodes: seq<Node>, i: nat, items: seq<ProvideItem>, inherited: seq<ReplaceSpec>,
                  local: seq<ReplaceSpec>, deep: seq<ReplaceSpec>, whole: seq<Node>, u: iset<TagSet>)
    requires Universe(u) && ScopeOk(nodes, items, inherited, local, deep, whole, u)
    requires i < |nodes| && !nodes[i].Module? && !nodes[i].Options?
    requires ApplyLeaf(nodes[i], i, items, inherited + local, local).Ok?
    ensures AllOwned(Leaves(ApplyLeaf(nodes[i], i, items, inherited + local, local).value), inherited, deep,
                     items, whole)
  {
    var n, specs := nodes[i], inherited + local;
    var out := ApplyLeaf(n, i, items, specs, local).value;
    TreeMember(nodes, u, i);
    AtIndexMember(local, i);
    if n.Replace? || n.Default? {
      if AtIndex(local, i).Some? {
        var w := AtIndex(local, i).value;
        var k :| 0 <= k < |local| && local[k] == w;
        assert SpecFrom(local[k], u);
        OwnNodeSound(n, i, items, specs, local, w, u);
      }
    } else {
      OtherLeafSound(n, i, items, specs, local, u);
    }
    LeavesFlat(out);
    hide ApplyLeaf, AllRedirected, InSpecs, TargetOf, Emitted;
    forall e | e in Leaves(out)
      ensures AllRedirected(e, (ts: TagSet, id: nat) => Owned(inherited, deep, items, whole, ts, id))
    {
      LeafMono(e, items, inherited, local, deep, whole);
    }
  }

  lemma LeafMono(e: Node, items: seq<ProvideItem>, inherited: seq<ReplaceSpec>, local: seq<ReplaceSpec>,
                 deep: seq<ReplaceSpec>, whole: seq<Node>)
    requires forall w | w in local :: w in deep
    requires forall w, ts | w in local && TargetOf(w, items, ts) :: Emitted(whole, w, ts)
    requires AllRedirected(e, InSpecs(inherited + local, items))
    ensures AllRedirected(e, (ts: TagSet, id: nat) => Owned(inherited, deep, items, whole, ts, id))
  {
    forall ts, id: nat | InSpecs(inherited + local, items)(ts, id)
      ensures Owned(inherited, deep, items, whole, ts, id)
    {
      OwnedHere(inherited + local, inherited, local, items, deep, whole, ts, id);
    }
    RedirectedMono(e, InSpecs(inherited + local, items),
                   (ts: TagSet, id: nat) => Owned(inherited, deep, items, whole, ts, id));
  }

  lemma ChildMono(e: Node, specs: seq<ReplaceSpec>, i: nat, inherited: seq<ReplaceSpec>, local: seq<ReplaceSpec>,
                  items: seq<ProvideItem>,
                  childDeep: seq<ReplaceSpec>, childOut: seq<Node>, deep: seq<ReplaceSpec>, whole: seq<Node>)
    requires specs == inherited + local
    requires forall w | w in local :: w in deep
    requires forall w, ts | w in local && TargetOf(w, items, ts) :: Emitted(whole, w, ts)
    requires forall w | w in childDeep :: w in deep
    requires forall x | x in Leaves(childOut) :: x in Leaves(whole)
    requires AllRedirected(e, (ts: TagSet, id: nat) => Owned(Inherit(Applicable(specs, i)), childDeep, items,
                                                             childOut, ts, id))
    ensures AllRedirected(e, (ts: TagSet, id: nat) => Owned(inherited, deep, items, whole, ts, id))
  {
    var from := (ts: TagSet, id: nat) => Owned(Inherit(Applicable(specs, i)), childDeep, items, childOut, ts, id);
    var to := (ts: TagSet, id: nat) => Owned(inherited, deep, items, whole, ts, id);
    forall ts, id: nat | from(ts, id)
      ensures to(ts, id)
    {
      OwnedUp(specs, i, inherited, local, items, childDeep, childOut, deep, whole, ts, id);
    }
    RedirectedMono(e, from, to);
  }

  /** How one call of the pass unfolds into the loop over its spliced scope. */
  lemma Unfold(nodes0: seq<Node>, inherited: seq<ReplaceSpec>, nextID: nat, depth: nat, items0: seq<ProvideItem>)
    returns (nodes: seq<Node>, items: seq<ProvideItem>, local: seq<ReplaceSpec>)
    requires Apply(nodes0, inherited, nextID, depth, items0).Ok?
    ensures nodes == SpliceOptions(nodes0) && Size(nodes) <= Size(nodes0) && items == Effective(nodes0, items0)
    ensures if items0 == [] then CollectScopeProvides(nodes0) == Ok(items) else items == items0
    ensures items == [] ==> CollectScopeProvides(nodes) == Ok([])  || items0 != []
    ensures LocalSpecs(nodes, |nodes|, nextID, depth) == Ok(local)
    ensures Apply(nodes0, inherited, nextID, depth, items0) ==
            ApplyFrom(nodes, 0, items, inherited + local, local, nextID + |local|, depth)
    ensures DeepSpecs(nodes0, nextID, depth) == local + DeepFrom(nodes, 0, nextID + |local|, depth)
  {
    SpliceSize(nodes0);
    SpliceKeepsProvides(nodes0);
    nodes := SpliceOptions(nodes0);
    items := Effective(nodes0, items0);
    hide ApplyFrom, SpliceOptions, CollectScopeProvides, LocalSpecs, DeepFrom;
    local := LocalSpecs(nodes, |nodes|, nextID, depth).value;
  }

  lemma SpecsTogether(a: seq<ReplaceSpec>, b: seq<ReplaceSpec>, u: iset<TagSet>)
    requires SpecsOk(a, u) && SpecsOk(b, u)
    ensures SpecsOk(a + b, u)
  {
  }

  lemma AllEmitted(nodes: seq<Node>, items: seq<ProvideItem>, specs: seq<ReplaceSpec>, local: seq<ReplaceSpec>,
                   nextID: nat, depth: nat, u: iset<TagSet>)
    requires Universe(u) && ItemsOk(items, u) && SpecsOk(specs, u) && Placed(local, nodes, |nodes|, u)
    requires ApplyFrom(nodes, 0, items, specs, local, nextID, depth).Ok?
    ensures forall w, ts | w in local && TargetOf(w, items, ts) ::
              Emitted(ApplyFrom(nodes, 0, items, specs, local, nextID, depth).value.0, w, ts)
  {
    hide *;
    forall w, ts | w in local && TargetOf(w, items, ts)
      ensures Emitted(ApplyFrom(nodes, 0, items, specs, local, nextID, depth).value.0, w, ts)
    {
      var k :| 0 <= k < |local| && local[k] == w;
      LocalEmitted(nodes, 0, items, specs, local, nextID, depth, u, k, ts);
    }
  }

  lemma ScopeFacts(nodes: seq<Node>, items: seq<ProvideItem>, inherited: seq<ReplaceSpec>, local: seq<ReplaceSpec>,
                   deep: seq<ReplaceSpec>, whole: seq<Node>, u: iset<TagSet>)
    requires TreeOk(nodes, u) && ItemsOk(items, u) && SpecsOk(inherited + local, u) && local <= deep
    requires items == [] ==> CollectScopeProvides(nodes) == Ok([])
    requires forall w | w in inherited :: !w.isDefault
    requires Placed(local, nodes, |nodes|, u)
    requires forall w, ts | w in local && TargetOf(w, items, ts) :: Emitted(whole, w, ts)
    ensures ScopeOk(nodes, items, inherited, local, deep, whole, u)
  {
    hide TreeOk, ItemsOk, SpecsOk, CollectScopeProvides, Placed, TargetOf, Emitted;
    assert forall w | w in local :: w in deep;
  }

  /** The specs of a scope are well formed and emitted for all their targets. */
  lemma ScopeReady(nodes: seq<Node>, items: seq<ProvideItem>, inherited: seq<ReplaceSpec>, nextID: nat, depth: nat,
                   local: seq<ReplaceSpec>, deep: seq<ReplaceSpec>, u: iset<TagSet>)
    requires Universe(u) && TreeOk(nodes, u) && ItemsOk(items, u) && SpecsOk(inherited, u)
    requires forall w | w in inherited :: !w.isDefault
    requires items == [] ==> CollectScopeProvides(nodes) == Ok([])
    requires LocalSpecs(nodes, |nodes|, nextID, depth) == Ok(local) && local <= deep
    requires ApplyFrom(nodes, 0, items, inherited + local, local, nextID + |local|, depth).Ok?
    ensures ScopeOk(nodes, items, inherited, local, deep,
                    ApplyFrom(nodes, 0, items, inherited + local, local, nextID + |local|, depth).value.0, u)
  {
    hide *;
    LocalPlaced(nodes, |nodes|, nextID, depth, u);
    PlacedSpecsOk(local, nodes, u);
    SpecsTogether(inherited, local, u);
    AllEmitted(nodes, items, inherited + local, local, nextID + |local|, depth, u);
    var out := ApplyFrom(nodes, 0, items, inherited + local, local, nextID + |local|, depth).value.0;
    ScopeFacts(nodes, items, inherited, local, deep, out, u);
  }

  lemma {:induction false} ApplySound(nodes0: seq<Node>, inherited: seq<ReplaceSpec>, nextID: nat, depth: nat,
                                      items0: seq<ProvideItem>, u: iset<TagSet>)
    requires Universe(u) && TreeOk(nodes0, u) && ItemsOk(items0, u) && SpecsOk(inherited, u)
    requires forall w | w in inherited :: !w.isDefault
    requires Apply(nodes0, inherited, nextID, depth, items0).Ok?
    ensures var out := Apply(nodes0, inherited, nextID, depth, items0).value.0;
            AllOwned(Leaves(out), inherited, DeepSpecs(nodes0, nextID, depth), Effective(nodes0, items0), out)
    decreases Size(nodes0), 2, 0
  {
    hide *;
    var nodes, items, local := Unfold(nodes0, inherited, nextID, depth, items0);
    TreeSpliced(nodes0, u);
    if items0 == [] {
      CollectOk(nodes0, u);
    }
    var out := ApplyFrom(nodes, 0, items, inherited + local, local, nextID + |local|, depth).value.0;
    var deep := DeepSpecs(nodes0, nextID, depth);
    ScopeReady(nodes, items, inherited, nextID, depth, local, deep, u);
    FromSound(nodes, 0, items, inherited, local, nextID + |local|, depth, out, deep, u);
  }

  lemma PlacedSpecsOk(local: seq<ReplaceSpec>, nodes: seq<Node>, u: iset<TagSet>)
    requires Placed(local, nodes, |nodes|, u)
    ensures SpecsOk(local, u)
  {
    forall w | w in local
      ensures SpecOk(w, u)
    {
      var k :| 0 <= k < |local| && local[k] == w;
      assert SpecFrom(local[k], u);
    }
  }

  lemma {:induction false} FromSound(nodes: seq<Node>, i: nat, items: seq<ProvideItem>, inherited: seq<ReplaceSpec>,
                                     local: seq<ReplaceSpec>,
                                     nextID: nat, depth: nat, whole: seq<Node>, deep: seq<ReplaceSpec>, u: iset<TagSet>)
    requires Universe(u) && ScopeOk(nodes, items, inherited, local, deep, whole, u) && i <= |nodes|
    requires ApplyFrom(nodes, i, items, inherited + local, local, nextID, depth).Ok?
    requires forall e | e in Leaves(ApplyFrom(nodes, i, items, inherited + local, local, nextID, depth).value.0) ::
               e in Leaves(whole)
    requires forall w | w in DeepFrom(nodes, i, nextID, depth) :: w in deep
    ensures AllOwned(Leaves(ApplyFrom(nodes, i, items, inherited + local, local, nextID, depth).value.0), inherited,
                     deep, items, whole)
    decreases Size(nodes), 1, |nodes| - i
  {
    hide ScopeOk, AllOwned, Universe;
    if i < |nodes| {
      var specs := inherited + local;
      var head := ApplyNode(nodes[i], i, items, specs, local, nextID, depth).value;
      var tail := ApplyFrom(nodes, i + 1, items, specs, local, head.1, depth).value;
      var childDeep := DeepNode(nodes[i], nextID, depth);
      MemberSize(nodes, i);
      LeavesAppend(head.0, tail.0);
      CounterStep(nodes[i], i, items, specs, local, nextID, depth);
      hide ApplyNode, DeepNode, Leaves;
      assert ApplyFrom(nodes, i, items, specs, local, nextID, depth).value.0 == head.0 + tail.0;
      assert DeepFrom(nodes, i, nextID, depth) == childDeep + DeepFrom(nodes, i + 1, head.1, depth);
      NodeSound(nodes, i, items, inherited, local, nextID, depth, whole, deep, u);
      FromSound(nodes, i + 1, items, inherited, local, head.1, depth, whole, deep, u);
      OwnedAppend(Leaves(head.0), Leaves(tail.0), inherited, deep, items, whole);
    } else {
      NoneOwned(inherited, deep, items, whole);
    }
  }

  lemma NoneOwned(inherited: seq<ReplaceSpec>, deep: seq<ReplaceSpec>, items: seq<ProvideItem>, whole: seq<Node>)
    ensures AllOwned(Leaves([]), inherited, deep, items, whole)
  {
    assert Leaves([]) == [];
  }

  lemma OwnedAppend(a: seq<Node>, b: seq<Node>, inherited: seq<ReplaceSpec>, deep: seq<ReplaceSpec>,
                    items: seq<ProvideItem>, whole: seq<Node>)
    requires AllOwned(a, inherited, deep, items, whole) && AllOwned(b, inherited, deep, items, whole)
    ensures AllOwned(a + b, inherited, deep, items, whole)
  {
  }

  lemma CounterStep(n: Node, i: nat, items: seq<ProvideItem>, specs: seq<ReplaceSpec>, local: seq<ReplaceSpec>,
                    nextID: nat, depth: nat)
    requires ApplyNode(n, i, items, specs, local, nextID, depth).Ok?
    ensures ApplyNode(n, i, items, specs, local, nextID, depth).value.1 == nextID + |DeepNode(n, nextID, depth)|
  {
    if n.Module? {
      CounterAfter(n.nodes, Inherit(Applicable(specs, i)), nextID, depth + 1, items);
    } else if n.Options? {
      CounterAfter(n.nodes, Inherit(Applicable(specs, i)), nextID, depth, items);
    }
  }

  lemma InheritOk(specs: seq<ReplaceSpec>, i: nat, u: iset<TagSet>)
    requires SpecsOk(specs, u)
    ensures SpecsOk(Inherit(Applicable(specs, i)), u) && forall w | w in Inherit(Applicable(specs, i)) :: !w.isDefault
  {
    forall v | v in Inherit(Applicable(specs, i))
      ensures SpecOk(v, u) && !v.isDefault
    {
      var w := InheritedOrigin(specs, i, [], v);
      assert SpecOk(w, u);
    }
  }

  lemma {:induction false} NodeSound(nodes: seq<Node>, i: nat, items: seq<ProvideItem>, inherited: seq<ReplaceSpec>,
                                     local: seq<ReplaceSpec>,
                                     nextID: nat, depth: nat, whole: seq<Node>, deep: seq<ReplaceSpec>, u: iset<TagSet>)
    requires Universe(u) && ScopeOk(nodes, items, inherited, local, deep, whole, u) && i < |nodes|
    requires ApplyNode(nodes[i], i, items, inherited + local, local, nextID, depth).Ok?
    requires forall e | e in Leaves(ApplyNode(nodes[i], i, items, inherited + local, local, nextID, depth).value.0) ::
               e in Leaves(whole)
    requires forall w | w in DeepNode(nodes[i], nextID, depth) :: w in deep
    ensures AllOwned(Leaves(ApplyNode(nodes[i], i, items, inherited + local, local, nextID, depth).value.0), inherited,
                     deep, items, whole)
    decreases NodeSize(nodes[i]), 0, 0
  {
    var n, specs := nodes[i], inherited + local;
    if n.Module? || n.Options? {
      var inner := if n.Module? then depth + 1 else depth;
      var passed := Inherit(Applicable(specs, i));
      var childOut := Apply(n.nodes, passed, nextID, inner, items).value.0;
      var out := ApplyNode(n, i, items, specs, local, nextID, depth).value.0;
      assert |out| == 1 && Leaves(out[1..]) == [] && LeavesOf(out[0]) == Leaves(childOut);
      assert Leaves(out) == Leaves(childOut);
      TreeMember(nodes, u, i);
      InheritOk(specs, i, u);
      if items == [] {
        CollectNothing(nodes, i);
      }
      assert Effective(n.nodes, items) == items;
      var childDeep := DeepSpecs(n.nodes, nextID, inner);
      ApplySound(n.nodes, passed, nextID, inner, items, u);
      hide Apply, ApplyNode, AllRedirected, TargetOf, Emitted, Owned, DeepSpecs, CollectScopeProvides, Leaves,
          Placed, TreeOk;
      forall e | e in Leaves(out)
        ensures AllRedirected(e, (ts: TagSet, id: nat) => Owned(inherited, deep, items, whole, ts, id))
      {
        ChildMono(e, specs, i, inherited, local, items, childDeep, childOut, deep, whole);
      }
    } else {
      LeafOwned(nodes, i, items, inherited, local, deep, whole, u);
    }
  }
}
