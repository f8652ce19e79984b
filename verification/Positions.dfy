/** Where a replacement reaches: the consumers after it, before it, or all of its scope. */
module Positions {
  import opened Text
  import opened Tags
  import opened Bindings
  import opened Graph
  import opened Selection
  import opened Active
  import opened Rewriting
  import opened Replacing
  import opened NoDangling
  import opened Winners
  import opened Guarantee

  lemma OneApplicable(w: ReplaceSpec, index: nat)
    requires !w.isDefault
    ensures DefaultTags([w]) == []
    ensures Applicable([w], index) ==
            if w.inherited || w.mode == All || (w.mode == After && w.pos < index) || (w.mode == Before && index < w.pos)
            then [w] else []
  {
    var none: seq<ReplaceSpec> := [];
    assert [w][..0] == none && Applicable(none, index) == none && DefaultTags(none) == [];
  }

  lemma NoneFirst(ts: TagSet)
    ensures FirstFor([], ts) == -1
  {
  }

  lemma NoneSelected(tagSets: seq<TagSet>)
    ensures Select(tagSets, []) == None
  {
  }

  lemma SelectMember(tagSets: seq<TagSet>, w: ReplaceSpec)
    ensures Select(tagSets, [w]).Some? ==> Select(tagSets, [w]) == Some(w)
  {
  }

  /** With one spec in hand a binding is redirected at a position if and only if it is provided there,
      the spec offers a form of it, and the position is on the spec's side of its own. */
  lemma OneWinner(items: seq<ProvideItem>, w: ReplaceSpec, index: nat, ts: TagSet)
    requires !w.isDefault
    ensures WinnerId(items, [w], index, ts).Some? <==>
            && ts in AllTags(items, [w]) && OffersAny([ts], w)
            && (w.inherited || w.mode == All || (w.mode == After && w.pos < index) ||
                (w.mode == Before && index < w.pos))
    ensures WinnerId(items, [w], index, ts).Some? ==> WinnerId(items, [w], index, ts) == Some(w.id)
  {
    hide BestScore, OffersAny, AllTags, Pick, Ranks, Select, FirstFor, DefaultId, Applicable, DefaultTags;
    OneApplicable(w, index);
    NoneFirst(ts);
    SelectAlone([ts], w);
    NoneSelected([ts]);
    FinerScores([ts], w, w);
    SelectMember([ts], w);
  }

  /** A scope without modules, option groups and defaults, whose one replacement is at position p. */
  predicate OneReplacement(nodes: seq<Node>, p: nat) {
    && p < |nodes| && nodes[p].Replace?
    && forall i | 0 <= i < |nodes| ::
         !nodes[i].Module? && !nodes[i].Options? && !nodes[i].Default? &&
         (i != p ==> !nodes[i].Replace?)
  }

  lemma {:induction false} OneLocal(nodes: seq<Node>, p: nat, k: nat)
    requires OneReplacement(nodes, p) && k <= |nodes| && LocalSpecs(nodes, k, 0, 0).Ok?
    ensures k <= p ==> LocalSpecs(nodes, k, 0, 0) == Ok([])
    ensures p < k ==> BuildSpec(nodes[p], p, 0, 0).Ok?
    ensures p < k ==> LocalSpecs(nodes, k, 0, 0) == Ok([BuildSpec(nodes[p], p, 0, 0).value])
  {
    hide BuildSpec;
    if k == 0 {
    } else {
      OneLocal(nodes, p, k - 1);
      var n := nodes[k - 1];
      assert !n.Default? && (k - 1 != p ==> !n.Replace?);
      if k - 1 == p {
        assert [] + [BuildSpec(n, p, 0, 0).value] == [BuildSpec(n, p, 0, 0).value];
      }
    }
  }

  lemma BuiltAs(n: Node, pos: nat)
    requires n.Replace? && BuildSpec(n, pos, 0, 0).Ok?
    ensures var w := BuildSpec(n, pos, 0, 0).value;
            w.mode == n.mode && w.pos == pos && !w.inherited && !w.isDefault && w.id == 0 &&
            ReportedBy(n.value, n.opts) == Ok(w.tagSets)
  {
    hide Parse, ProvideSpecOf;
  }

  /** In such a scope every leaf of the output comes from one of the nodes, with these providers and
      the one spec in hand. */
  lemma {:induction false} FlatSites(nodes: seq<Node>, p: nat, i: nat, items: seq<ProvideItem>, specs: seq<ReplaceSpec>,
                                     nextID: nat)
    requires OneReplacement(nodes, p) && i <= |nodes|
    ensures forall s | s in SitesFrom(nodes, i, items, specs, specs, nextID, 0) ::
              s.items == items && s.specs == specs && s.pos < |nodes| && s.source == nodes[s.pos]
    decreases |nodes| - i
  {
    hide ApplyNode, ApplyLeaf;
    if i < |nodes| {
      MemberSize(nodes, i);
      var head := ApplyNode(nodes[i], i, items, specs, specs, nextID, 0);
      if head.Ok? {
        FlatSites(nodes, p, i + 1, items, specs, head.value.1);
      }
    }
  }

  lemma ScopeSites(nodes: seq<Node>, p: nat) returns (items: seq<ProvideItem>, w: ReplaceSpec)
    requires OneReplacement(nodes, p) && Apply(nodes, [], 0, 0, []).Ok?
    ensures CollectScopeProvides(nodes) == Ok(items) && BuildSpec(nodes[p], p, 0, 0) == Ok(w)
    ensures forall s | s in Sites(nodes, [], 0, 0, []) ::
              s.items == items && s.specs == [w] && s.pos < |nodes| && s.source == nodes[s.pos]
  {
    hide *;
    var spliced, collected, local := Unfold(nodes, [], 0, 0, []);
    SpliceFlat(nodes, p);
    PositionIn(nodes, p);
    OneLocal(nodes, p, |nodes|);
    items, w := collected, BuildSpec(nodes[p], p, 0, 0).value;
    SitesUnfold(nodes, [], 0, 0, [], nodes, items, local);
    assert [] + local == local == [w];
    FlatSites(nodes, p, 0, items, local, 1);
  }

  lemma PositionIn(nodes: seq<Node>, p: nat)
    requires OneReplacement(nodes, p)
    ensures p < |nodes| && nodes[p].Replace?
  {
  }

  lemma SpliceFlat(nodes: seq<Node>, p: nat)
    requires OneReplacement(nodes, p)
    ensures SpliceOptions(nodes) == nodes
  {
    SpliceNothing(nodes);
  }

  /** What the modes are for, on the output of the pass: a parameter's tag changes if and only if what
      it asks for is provided and the replacement offers a form of it, and the node stands after the
      replacement, before it, or anywhere, as the mode says. */
  lemma ReachesByMode(nodes: seq<Node>, u: iset<TagSet>, p: nat)
    requires Universe(u) && TreeOk(nodes, u) && OneReplacement(nodes, p) && Apply(nodes, [], 0, 0, []).Ok?
    ensures var out, sites := Apply(nodes, [], 0, 0, []).value.0, Sites(nodes, [], 0, 0, []);
            |sites| == |Leaves(out)| &&
            forall k, i: nat | 0 <= k < |sites| :: ChangedByMode(nodes, p, Leaves(out)[k], i, sites[k])
  {
    hide *;
    var out, sites := Apply(nodes, [], 0, 0, []).value.0, Sites(nodes, [], 0, 0, []);
    var items, w := ScopeSites(nodes, p);
    NoDanglingTags(nodes, u);
    PositionIn(nodes, p);
    forall k, i: nat | 0 <= k < |sites|
      ensures ChangedByMode(nodes, p, Leaves(out)[k], i, sites[k])
    {
      assert sites[k] in sites;
      ReachedBySite(nodes, p, Leaves(out)[k], i, sites[k], items, w);
    }
  }

  /** The leaf comes from a node of the scope, and its i-th parameter's tag changed if and only if the
      replacement at p reaches what the parameter asked for there. */
  ghost predicate ChangedByMode(nodes: seq<Node>, p: nat, n: Node, i: nat, site: Site) {
    && p < |nodes| && nodes[p].Replace? && CollectScopeProvides(nodes).Ok? && BuildSpec(nodes[p], p, 0, 0).Ok?
    && site.pos < |nodes| && site.source == nodes[site.pos]
    && (Changed(n, i) <==>
          i < |ParamsOf(n)| && Reached(nodes, p, BindingOf(ParamsOf(n)[i], DeclaredTags(n)[i]), site.pos))
  }

  /** The binding is provided in the scope, the replacement at p offers a form of it, and i is on its side. */
  ghost predicate Reached(nodes: seq<Node>, p: nat, asked: TagSet, i: nat)
    requires p < |nodes| && nodes[p].Replace? && CollectScopeProvides(nodes).Ok? && BuildSpec(nodes[p], p, 0, 0).Ok?
  {
    var w := BuildSpec(nodes[p], p, 0, 0).value;
    && asked in AllTags(CollectScopeProvides(nodes).value, [w])
    && OffersAny([asked], w)
    && match nodes[p].mode { case All => true case After => p < i case Before => i < p }
  }

  lemma ReachedBySite(nodes: seq<Node>, p: nat, n: Node, i: nat, site: Site, items: seq<ProvideItem>, w: ReplaceSpec)
    requires p < |nodes| && nodes[p].Replace?
    requires CollectScopeProvides(nodes) == Ok(items) && BuildSpec(nodes[p], p, 0, 0) == Ok(w)
    requires site.items == items && site.specs == [w] && site.pos < |nodes| && site.source == nodes[site.pos]
    requires Changed(n, i) <==> HasChoice(n, i, site)
    ensures ChangedByMode(nodes, p, n, i, site)
  {
    hide Changed, WinnerId, AllTags, OffersAny, BuildSpec, CollectScopeProvides, BindingOf, ReportedBy;
    BuiltAs(nodes[p], p);
    if i < |ParamsOf(n)| {
      OneWinner(items, w, site.pos, BindingOf(ParamsOf(n)[i], DeclaredTags(n)[i]));
    }
  }

  /** What a child scope inherits reaches every position of it, whatever its mode was further out. */
  lemma InheritedReachesAll(specs: seq<ReplaceSpec>, i: nat, index: nat)
    ensures Applicable(Inherit(Applicable(specs, i)), index) == Inherit(Applicable(specs, i))
  {
    var passed := Inherit(Applicable(specs, i));
    forall k | 0 <= k < |passed|
      ensures AppliesAt(passed[k], index)
    {
      ApplicableMembers(specs, i, Applicable(specs, i)[k]);
    }
    AllApply(passed, index);
  }

  lemma {:induction false} AllApply(specs: seq<ReplaceSpec>, index: nat)
    requires forall k | 0 <= k < |specs| :: AppliesAt(specs[k], index)
    ensures Applicable(specs, index) == specs
  {
    if specs == [] {
    } else {
      AllApply(specs[..|specs| - 1], index);
      assert specs == specs[..|specs| - 1] + [specs[|specs| - 1]];
    }
  }
}
