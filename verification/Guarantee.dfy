/** The guarantee of the replacement pass, stated on whole trees. */
module Guarantee {
  import opened Text
  import opened Separators
  import opened Tags
  import opened Bindings
  import opened Graph
  import opened Selection
  import opened Active
  import opened Rewriting
  import opened Replacing
  import opened NoDangling
  import opened Winners

  ghost predicate Changed(n: Node, i: nat) {
    i < |ParamsOf(n)| && FinalTags(n)[i] != DeclaredTags(n)[i]
  }

  /** The i-th parameter of the leaf is redirected to a spec of the tree that is emitted for it. */
  ghost predicate LedToSupply(n: Node, i: nat, deep: seq<ReplaceSpec>, out: seq<Node>)
    requires Changed(n, i)
  {
    var asked := BindingOf(ParamsOf(n)[i], DeclaredTags(n)[i]);
    exists w, e | w in deep && e in Leaves(out) ::
      Supplies(e, w, asked) && BindingOf(ParamsOf(n)[i], FinalTags(n)[i]) == ScopedTagSet(asked, w.id)
  }

  /** The same, and that spec is the one chosen at the place the leaf comes from. */
  ghost predicate LedToChosen(n: Node, i: nat, site: Site, deep: seq<ReplaceSpec>, out: seq<Node>)
    requires Changed(n, i)
  {
    var asked := BindingOf(ParamsOf(n)[i], DeclaredTags(n)[i]);
    exists w, e | w in deep && e in Leaves(out) ::
      Supplies(e, w, asked) && BindingOf(ParamsOf(n)[i], FinalTags(n)[i]) == ScopedTagSet(asked, w.id) &&
      WinnerId(site.items, site.specs, site.pos, asked) == Some(w.id)
  }

  /** A spec is chosen, at the place the leaf comes from, for what the i-th parameter asked for. */
  ghost predicate HasChoice(n: Node, i: nat, site: Site) {
    i < |ParamsOf(n)| && WinnerId(site.items, site.specs, site.pos, BindingOf(ParamsOf(n)[i], DeclaredTags(n)[i])).Some?
  }

  /** No dangling references, and none left out: the pass changes the tag of a parameter exactly when a
      replacement or default is chosen for the binding it asks for at the place its node comes from. It
      then asks for the scoped form of that binding under the id of the chosen spec; that spec is
      declared in the tree, and a node of the output carries its value, reports that very scoped
      binding, builds if the spec's own node would, and exports it when it builds. */
  lemma {:induction false} NoDanglingTags(nodes: seq<Node>, u: iset<TagSet>)
    requires Universe(u) && TreeOk(nodes, u) && Apply(nodes, [], 0, 0, []).Ok?
    ensures var out, sites := Apply(nodes, [], 0, 0, []).value.0, Sites(nodes, [], 0, 0, []);
            |sites| == |Leaves(out)| &&
            (forall k, i: nat | 0 <= k < |sites| ::
               Changed(Leaves(out)[k], i) <==> HasChoice(Leaves(out)[k], i, sites[k])) &&
            forall k, i: nat | 0 <= k < |sites| && Changed(Leaves(out)[k], i) ::
              LedToChosen(Leaves(out)[k], i, sites[k], DeepSpecs(nodes, 0, 0), out)
  {
    var out, sites := Apply(nodes, [], 0, 0, []).value.0, Sites(nodes, [], 0, 0, []);
    hide Apply, Sites, Leaves, DeepSpecs, Universe, TreeOk, Changed, HasChoice, LedToChosen, Effective, AllOwned,
        LedAt, ItemsOk, SpecsOk;
    NothingOk(u);
    ApplySound(nodes, [], 0, 0, [], u);
    TreeLed(nodes, [], 0, 0, [], u);
    forall k, i: nat | 0 <= k < |sites|
      ensures Changed(Leaves(out)[k], i) <==> HasChoice(Leaves(out)[k], i, sites[k])
    {
      ChangedByChoice(Leaves(out)[k], i, sites[k]);
    }
    forall k, i: nat | 0 <= k < |sites| && Changed(Leaves(out)[k], i)
      ensures LedToChosen(Leaves(out)[k], i, sites[k], DeepSpecs(nodes, 0, 0), out)
    {
      OneLed(Leaves(out)[k], i, DeepSpecs(nodes, 0, 0), Effective(nodes, []), out);
      OneChosen(Leaves(out)[k], i, sites[k], DeepSpecs(nodes, 0, 0), out);
    }
  }

  lemma ChangedByChoice(n: Node, i: nat, site: Site)
    requires LedAt(n, site)
    ensures Changed(n, i) <==> HasChoice(n, i, site)
  {
    hide BindingOf, WinnerId, FinalTags, DeclaredTags, ParamsOf;
  }

  lemma OneChosen(n: Node, i: nat, site: Site, deep: seq<ReplaceSpec>, out: seq<Node>)
    requires Changed(n, i) && LedToSupply(n, i, deep, out) && LedAt(n, site)
    ensures LedToChosen(n, i, site, deep, out)
  {
    hide BindingOf, Leaves, ScopedTagSet, Supplies, WinnerId;
    var asked := BindingOf(ParamsOf(n)[i], DeclaredTags(n)[i]);
    var w, e :| w in deep && e in Leaves(out) && Supplies(e, w, asked) &&
                BindingOf(ParamsOf(n)[i], FinalTags(n)[i]) == ScopedTagSet(asked, w.id);
    assert Redirected(n, i, ByWinner(site.items, site.specs, site.pos));
    var id: nat :| ByWinner(site.items, site.specs, site.pos)(asked, id) &&
                   BindingOf(ParamsOf(n)[i], FinalTags(n)[i]) == ScopedTagSet(asked, id);
    FreshNames(asked, asked, w.id, id);
  }

  lemma NothingOk(u: iset<TagSet>)
    ensures ItemsOk([], u) && SpecsOk([], u)
  {
  }

  lemma OneLed(n: Node, i: nat, deep: seq<ReplaceSpec>, items: seq<ProvideItem>, out: seq<Node>)
    requires AllOwned(Leaves(out), [], deep, items, out)
    requires n in Leaves(out) && Changed(n, i)
    ensures LedToSupply(n, i, deep, out)
  {
    hide BindingOf, Leaves, ScopedTagSet, TargetOf, Supplies;
    var asked := BindingOf(ParamsOf(n)[i], DeclaredTags(n)[i]);
    assert Redirected(n, i, (ts: TagSet, id: nat) => Owned([], deep, items, out, ts, id));
    var id: nat :| Owned([], deep, items, out, asked, id) &&
                   BindingOf(ParamsOf(n)[i], FinalTags(n)[i]) == ScopedTagSet(asked, id);
    var w :| TargetOf(w, items, asked) && w.id == id && w in deep && Emitted(out, w, asked);
    var e :| e in Leaves(out) && Supplies(e, w, asked);
  }

  // ---- When printed keys tell bindings apart -----------------------------

  predicate BarFree(s: string) {
    Free(s, '|')
  }

  /** Bindings free of the separator share a printed key exactly when they print the same type and
      carry the same name and group. */
  lemma KeyParts(a: TagSet, b: TagSet)
    requires BarFree(a.typ.text) && BarFree(a.name) && BarFree(b.typ.text) && BarFree(b.name)
    ensures FullTagKey(a) == FullTagKey(b) <==> a.typ.text == b.typ.text && a.name == b.name && a.group == b.group
  {
    if FullTagKey(a) == FullTagKey(b) {
      var ra, rb := "n:" + a.name + "|g:" + a.group, "n:" + b.name + "|g:" + b.group;
      assert FullTagKey(a) == a.typ.text + ['|'] + ra && FullTagKey(b) == b.typ.text + ['|'] + rb;
      FirstPart(a.typ.text, ra, b.typ.text, rb, '|');
      assert ra == ("n:" + a.name) + ['|'] + ("g:" + a.group) && rb == ("n:" + b.name) + ['|'] + ("g:" + b.group);
      FirstPart("n:" + a.name, "g:" + a.group, "n:" + b.name, "g:" + b.group, '|');
      assert ("n:" + a.name)[2..] == a.name && ("n:" + b.name)[2..] == b.name;
      assert ("g:" + a.group)[2..] == a.group && ("g:" + b.group)[2..] == b.group;
    }
  }

  /** Over bindings free of quotes, colons and bars the keys are faithful if and only if bindings
      of one name and group that print the same type have the same type. */
  lemma FaithfulExactly(u: iset<TagSet>)
    requires forall ts | ts in u :: BarFree(ts.typ.text) && BarFree(ts.name)
    ensures Faithful(u) <==>
            forall a, b | a in u && b in u && a.name == b.name && a.group == b.group && a.typ.text == b.typ.text ::
                 a.typ == b.typ
  {
    forall a, b | a in u && b in u
      ensures FullTagKey(a) == FullTagKey(b) <==> a.typ.text == b.typ.text && a.name == b.name && a.group == b.group
    {
      KeyParts(a, b);
    }
  }

  // ---- When they do not --------------------------------------------------

  /** A value of one type, a replacement of it, and a consumer of another type. */
  function LookAlikes(a: GoType, b: GoType): seq<Node> {
    [Bind(Ready(0, b), [], None), Replace(Ready(1, b), [], All), Invoke([a], [""], None)]
  }

  function Replacement(b: GoType): ReplaceSpec {
    ReplaceSpec([Untagged(b)], Ready(1, b), [], 1, 0, 0, All, false, false)
  }

  lemma BareReport(id: nat, b: GoType)
    ensures Parse([]) == Ok(EMPTY_CONFIG) && ProvideSpecOf(EMPTY_CONFIG, Some(b)) == Ok(Built([], false, [Untagged(b)]))
    ensures ReportedBy(Ready(id, b), []) == Ok([Untagged(b)]) && forall ts | ts in [Untagged(b)] :: ts.typ == b
  {
    assert AddRules(EMPTY_CONFIG, b, Declared(EMPTY_CONFIG, b), []) == Declared(EMPTY_CONFIG, b);
  }

  /** A value re-tagged once reports its own type only. */
  lemma TaggedReport(id: nat, b: GoType, opt: Opt)
    requires (opt.Name? && opt.name != "") || (opt.Group? && opt.group != "")
    ensures ReportedBy(Ready(id, b), [opt]).Ok? &&
              forall ts | ts in ReportedBy(Ready(id, b), [opt]).value :: ts.typ == b
  {
    ParseOne([], opt);
    assert [] + [opt] == [opt];
    var cfg := Parse([opt]).value;
    assert AddRules(cfg, b, Declared(cfg, b), []) == Declared(cfg, b);
    assert PendingExports(cfg, b) == [if opt.Name? then Named(b, opt.name) else Grouped(b, opt.group)];
  }

  lemma {:induction false} EmittedTyped(w: ReplaceSpec, id: nat, b: GoType, targets: seq<TagSet>,
                                        active: map<string, TagSet>)
    requires w.value == Ready(id, b) && w.opts == []
    ensures EmitAll(w, targets, active).Ok?
    ensures forall e | e in EmitAll(w, targets, active).value ::
              e.Bind? && ReportedBy(e.value, e.opts).Ok? &&
                  forall ts | ts in ReportedBy(e.value, e.opts).value :: ts.typ == b
  {
    if targets == [] {
    } else {
      var n := |targets| - 1;
      EmittedTyped(w, id, b, targets[..n], active);
      var scoped := ScopedTagSet(targets[n], w.id);
      ScopedKind(targets[n], w.id);
      var opt := if scoped.name != "" then Name(scoped.name) else Group(scoped.group);
      assert OverrideNameGroup([], scoped) == [opt];
      TaggedReport(id, b, opt);
      assert EmitOne(w, targets[n], active) == Ok(Bind(Ready(id, b), [opt], None));
      hide EmitOne, ReportedBy, ScopedTagSet;
    }
  }

  /** The providers, the spec and the loop of the look-alike tree. */
  lemma LookAlikesUnfold(a: GoType, b: GoType)
    ensures var nodes, items, w := LookAlikes(a, b), [ProvideItem(LookAlikes(a, b)[0], [Untagged(b)])], Replacement(b);
            Apply(nodes, [], 0, 0, []) == ApplyFrom(nodes, 0, items, [w], [w], 1, 0)
  {
    var nodes, w := LookAlikes(a, b), Replacement(b);
    BareReport(0, b);
    BareReport(1, b);
    SpliceNothing(nodes);
    assert BuildSpec(nodes[1], 1, 0, 0) == Ok(w);
    hide BuildSpec, ReportedBy, ApplyFrom;
    LookAlikesCollected(a, b);
    LookAlikesSpecs(a, b);
    assert [] + [w] == [w];
  }

  lemma LookAlikesCollected(a: GoType, b: GoType)
    requires ReportedBy(Ready(0, b), []) == Ok([Untagged(b)])
    ensures CollectScopeProvides(LookAlikes(a, b)) == Ok([ProvideItem(LookAlikes(a, b)[0], [Untagged(b)])])
  {
    var nodes := LookAlikes(a, b);
    hide ReportedBy;
    CollectSingle(nodes[0]);
    CollectSingle(nodes[1]);
    CollectSingle(nodes[2]);
    CollectAppend([nodes[1]], [nodes[2]]);
    CollectAppend([nodes[0]], [nodes[1]] + [nodes[2]]);
    assert nodes == [nodes[0]] + ([nodes[1]] + [nodes[2]]);
  }

  lemma CollectSingle(n: Node)
    requires CollectNode(n).Ok?
    ensures CollectScopeProvides([n]) == CollectNode(n)
  {
    assert [n][1..] == [] && CollectNode(n).value + [] == CollectNode(n).value;
  }

  lemma LookAlikesSpecs(a: GoType, b: GoType)
    requires BuildSpec(LookAlikes(a, b)[1], 1, 0, 0) == Ok(Replacement(b))
    ensures LocalSpecs(LookAlikes(a, b), 3, 0, 0) == Ok([Replacement(b)])
  {
    var nodes := LookAlikes(a, b);
    hide BuildSpec;
    assert LocalSpecs(nodes, 0, 0, 0) == Ok([]);
    assert LocalSpecs(nodes, 1, 0, 0) == Ok([]);
    assert [] + [Replacement(b)] == [Replacement(b)];
    assert LocalSpecs(nodes, 2, 0, 0) == Ok([Replacement(b)]);
  }

  /** At the consumer's position the replacement is in force for what it replaces. */
  lemma LookAlikesActive(a: GoType, b: GoType)
    ensures var items, w := [ProvideItem(LookAlikes(a, b)[0], [Untagged(b)])], Replacement(b);
            FullTagKey(Untagged(b)) in ActiveTags(items, [w], 2) &&
                ActiveTags(items, [w], 2)[FullTagKey(Untagged(b))].name != ""
  {
    var items, w, ts := [ProvideItem(LookAlikes(a, b)[0], [Untagged(b)])], Replacement(b), Untagged(b);
    var u: iset<TagSet> := iset{ts};
    assert items[..0] == [] && [w][..0] == [];
    assert Applicable([w], 2) == [w] && DefaultTags([w]) == [];
    OneProvided(items[0], [w], ts);
    hide ActiveTags, Select, FullTagKey, AllTags, Applicable, DefaultTags, ScopedTagSet;
    SelectAlone([ts], w);
    assert MatchesAny(ts, w.tagSets) by {
      assert Matches(ts, w.tagSets[0]);
    }
    MatchedBy(ts, w);
    assert Within(AllTags(items, [w]), u);
    ActiveTagsWinner(items, [w], 2, u, ts);
    ScopedKind(ts, WinnerId(items, [w], 2, ts).value);
  }

  lemma OneProvided(p: ProvideItem, specs: seq<ReplaceSpec>, ts: TagSet)
    requires p.node.Bind? && p.node.value.Ready? && p.tagSets == [ts]
    ensures AllTags([p], specs) == [ts]
  {
    assert [p][..0] == [] && TagSetsForProvide(p, specs) == [ts];
    assert AllTags([], specs) + [ts] == [ts];
  }

  lemma ConsumerRewritten(a: GoType, active: map<string, TagSet>)
    requires FullTagKey(Untagged(a)) in active && active[FullTagKey(Untagged(a))].name != ""
    ensures var r := RewriteNode(Invoke([a], [""], None), active);
            r.Ok? && r.value.Invoke? && Changed(r.value, 0) &&
                BindingOf(ParamsOf(r.value)[0], DeclaredTags(r.value)[0]) == Untagged(a)
  {
    var n := Invoke([a], [""], None);
    assert DeclaredTags(n) == [""];
    assert ParseTagNameGroup("") == ("", "") by {
      assert !At("", NAME, 0) && !At("", GROUP, 0);
    }
    assert active.Keys != {};
    assert BindingOf(a, "") == Untagged(a);
    var tag := RewriteOne(a, "", active);
    assert tag != "" by {
      assert !Contains("", NAME) && !Contains("", GROUP);
    }
    assert RewriteTags([a], [""], active) == [tag];
    assert RewriteNode(n, active) == Ok(Invoke([a], [""], Some([tag])));
  }

  /** The key condition cannot be dropped: when two types print alike, replacing a value of the one
      changes the tag of a consumer of the other, and nothing in the output supplies it. */
  lemma SameTextDangles(a: GoType, b: GoType)
    requires a != b && a.text == b.text
    ensures var r := Apply(LookAlikes(a, b), [], 0, 0, []);
            r.Ok? && exists n | n in Leaves(r.value.0) ::
                Changed(n, 0) && !LedToSupply(n, 0, DeepSpecs(LookAlikes(a, b), 0, 0), r.value.0)
  {
    hide *;
    var nodes := LookAlikes(a, b);
    var deep := DeepSpecs(nodes, 0, 0);
    LookAlikesUnfold(a, b);
    LookAlikesActive(a, b);
    LookAlikesShape(a, b);
    SameKey(a, b);
    BareReport(0, b);
    var emitted, consumer := LookAlikesOutput(a, b);
    var out := [nodes[0]] + emitted + [consumer];
    assert forall e :: e in out <==> e == nodes[0] || e in emitted || e == consumer;
    LeavesFlat(out);
    NoSupplier(consumer, a, b, deep, out);
  }

  /** Where only one type is reported, a consumer of another is not supplied. */
  lemma NoSupplier(n: Node, a: GoType, b: GoType, deep: seq<ReplaceSpec>, out: seq<Node>)
    requires a != b && Changed(n, 0) && BindingOf(ParamsOf(n)[0], DeclaredTags(n)[0]) == Untagged(a)
    requires forall e | e in Leaves(out) && e.Bind? && ReportedBy(e.value, e.opts).Ok? ::
               forall ts | ts in ReportedBy(e.value, e.opts).value :: ts.typ == b
    ensures !LedToSupply(n, 0, deep, out)
  {
    hide ReportedBy, BindingOf, Changed, Leaves, ScopedTagSet;
    forall w, e | w in deep && e in Leaves(out)
      ensures !Supplies(e, w, Untagged(a))
    {
      ScopedKind(Untagged(a), w.id);
    }
    hide Supplies;
  }

  lemma LookAlikesShape(a: GoType, b: GoType)
    ensures var nodes, w := LookAlikes(a, b), Replacement(b);
            |nodes| == 3 && nodes[0] == Bind(Ready(0, b), [], None) && nodes[1].Replace? &&
                nodes[2] == Invoke([a], [""], None) &&
            w.pos == 1 && w.value == Ready(1, b) && w.opts == []
  {
  }

  lemma SameKey(a: GoType, b: GoType)
    requires a.text == b.text
    ensures FullTagKey(Untagged(a)) == FullTagKey(Untagged(b))
  {
  }

  lemma LookAlikesOutput(a: GoType, b: GoType) returns (emitted: seq<Node>, consumer: Node)
    requires a.text == b.text
    requires var active := ActiveTags([ProvideItem(LookAlikes(a, b)[0], [Untagged(b)])], [Replacement(b)], 2);
             FullTagKey(Untagged(a)) in active && active[FullTagKey(Untagged(a))].name != ""
    ensures var nodes, items, w := LookAlikes(a, b), [ProvideItem(LookAlikes(a, b)[0], [Untagged(b)])], Replacement(b);
            ApplyFrom(nodes, 0, items, [w], [w], 1, 0) == Ok(([nodes[0]] + emitted + [consumer], 1))
    ensures consumer.Invoke? && Changed(consumer, 0) &&
              BindingOf(ParamsOf(consumer)[0], DeclaredTags(consumer)[0]) == Untagged(a)
    ensures forall e | e in emitted ::
              e.Bind? && ReportedBy(e.value, e.opts).Ok? &&
                  forall ts | ts in ReportedBy(e.value, e.opts).value :: ts.typ == b
  {
    hide *;
    LookAlikesShape(a, b);
    var nodes, items, w := LookAlikes(a, b), [ProvideItem(LookAlikes(a, b)[0], [Untagged(b)])], Replacement(b);
    var targets := Targets(w, items);
    EmittedTyped(w, 1, b, targets, ActiveTags(items, [w], 1));
    emitted := EmitAll(w, targets, ActiveTags(items, [w], 1)).value;
    ConsumerRewritten(a, ActiveTags(items, [w], 2));
    consumer := RewriteNode(nodes[2], ActiveTags(items, [w], 2)).value;
    LastStep(nodes, items, w, consumer);
    OwnStep(nodes, items, w, emitted);
    FromStep(nodes, 1, items, [w], [w], 1, 0, emitted, 1, [consumer]);
    KeptStep(nodes, items, w);
    FromStep(nodes, 0, items, [w], [w], 1, 0, [nodes[0]], 1, emitted + [consumer]);
    assert [nodes[0]] + (emitted + [consumer]) == [nodes[0]] + emitted + [consumer];
  }

  lemma FromStep(nodes: seq<Node>, i: nat, items: seq<ProvideItem>, specs: seq<ReplaceSpec>, local: seq<ReplaceSpec>,
                 nextID: nat, depth: nat, head: seq<Node>, next: nat, tail: seq<Node>)
    requires i < |nodes| && ApplyNode(nodes[i], i, items, specs, local, nextID, depth) == Ok((head, next))
    requires ApplyFrom(nodes, i + 1, items, specs, local, next, depth) == Ok((tail, next))
    ensures ApplyFrom(nodes, i, items, specs, local, nextID, depth) == Ok((head + tail, next))
  {
    hide ApplyNode;
  }

  lemma LastStep(nodes: seq<Node>, items: seq<ProvideItem>, w: ReplaceSpec, consumer: Node)
    requires |nodes| == 3 && nodes[2].Invoke? && RewriteNode(nodes[2], ActiveTags(items, [w], 2)) == Ok(consumer)
    ensures ApplyFrom(nodes, 2, items, [w], [w], 1, 0) == Ok(([consumer], 1))
  {
    hide ActiveTags, RewriteNode;
    assert ApplyFrom(nodes, 3, items, [w], [w], 1, 0) == Ok(([], 1));
    assert ApplyNode(nodes[2], 2, items, [w], [w], 1, 0) == Ok(([consumer], 1));
    hide ApplyFrom, ApplyNode;
    FromStep(nodes, 2, items, [w], [w], 1, 0, [consumer], 1, []);
    assert [consumer] + [] == [consumer];
  }

  lemma OwnStep(nodes: seq<Node>, items: seq<ProvideItem>, w: ReplaceSpec, emitted: seq<Node>)
    requires |nodes| == 3 && nodes[1].Replace? && w.pos == 1
    requires EmitAll(w, Targets(w, items), ActiveTags(items, [w], 1)) == Ok(emitted)
    ensures ApplyNode(nodes[1], 1, items, [w], [w], 1, 0) == Ok((emitted, 1))
  {
    hide ActiveTags, EmitAll, Targets;
    assert AtIndex([w], 1) == Some(w);
  }

  lemma KeptStep(nodes: seq<Node>, items: seq<ProvideItem>, w: ReplaceSpec)
    requires |nodes| == 3 && nodes[0].Bind? && nodes[0].value.Ready?
    ensures ApplyNode(nodes[0], 0, items, [w], [w], 1, 0) == Ok(([nodes[0]], 1))
  {
    hide ActiveTags;
  }
}
