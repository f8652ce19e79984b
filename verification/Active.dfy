/** Which bindings a consumer is redirected for, and which bindings a replacement is emitted for. */
module Active {
  import opened Text
  import opened Tags
  import opened Bindings
  import opened Graph
  import opened Selection

  predicate ShouldStrip(value: Value, opts: seq<Opt>, specs: seq<ReplaceSpec>) {
    specs != [] && ReportedBy(value, opts).Ok? && Select(ReportedBy(value, opts).value, specs).Some?
  }

  /** What a provider reports when the given specs are about; a replaced constructor loses its auto groups. */
  function TagSetsForProvide(p: ProvideItem, specs: seq<ReplaceSpec>): seq<TagSet> {
    if p.node.Bind? && p.node.value.Func? && ShouldStrip(p.node.value, p.node.opts, specs) then
      var r := ReportedBy(p.node.value, StripAutoGroups(p.node.opts));
      if r.Ok? then r.value else p.tagSets
    else p.tagSets
  }

  function AllTags(items: seq<ProvideItem>, specs: seq<ReplaceSpec>): seq<TagSet> {
    if items == [] then []
    else
      var n := |items| - 1;
      AllTags(items[..n], specs) + TagSetsForProvide(items[n], specs)
  }

  lemma {:induction false} AllTagsMember(items: seq<ProvideItem>, specs: seq<ReplaceSpec>, ts: TagSet)
    ensures ts in AllTags(items, specs) <==> exists p | p in items :: ts in TagSetsForProvide(p, specs)
  {
    hide TagSetsForProvide;
    if items == [] {
    } else {
      AllTagsMember(items[..|items| - 1], specs, ts);
      assert forall p :: p in items <==> p in items[..|items| - 1] || p == items[|items| - 1];
    }
  }

  // ---- buildActiveTagMap -------------------------------------------------

  function ActiveFrom(tags: seq<TagSet>, specs: seq<ReplaceSpec>): map<string, TagSet> {
    if tags == [] then map[]
    else
      var n := |tags| - 1;
      var m := ActiveFrom(tags[..n], specs);
      var w := Select([tags[n]], specs);
      if w.None? then m else m[FullTagKey(tags[n]) := ScopedTagSet(tags[n], w.value.id)]
  }

  lemma ActiveAppend(a: seq<TagSet>, b: TagSet, specs: seq<ReplaceSpec>)
    ensures ActiveFrom(a + [b], specs) ==
            if Select([b], specs).None? then ActiveFrom(a, specs)
            else ActiveFrom(a, specs)[FullTagKey(b) := ScopedTagSet(b, Select([b], specs).value.id)]
  {
    assert (a + [b])[..|a|] == a;
  }

  lemma AllTagsNext(items: seq<ProvideItem>, i: nat, specs: seq<ReplaceSpec>)
    requires i < |items|
    ensures AllTags(items[..i + 1], specs) == AllTags(items[..i], specs) + TagSetsForProvide(items[i], specs)
  {
    assert items[..i + 1][..i] == items[..i];
  }

  method ActivateOne(active0: map<string, TagSet>, ghost done: seq<TagSet>, ts: TagSet, specs: seq<ReplaceSpec>)
    returns (active: map<string, TagSet>)
    requires active0 == ActiveFrom(done, specs)
    ensures active == ActiveFrom(done + [ts], specs)
  {
    ActiveAppend(done, ts, specs);
    hide ActiveFrom, Select;
    var spec := SelectReplacement([ts], specs);
    active := active0;
    if spec.Some? {
      active := active[FullTagKey(ts) := ScopedTagSet(ts, spec.value.id)];
    }
  }

  /** The tag sets of one more provider. */
  method ActivateAll(active0: map<string, TagSet>, ghost done: seq<TagSet>, tags: seq<TagSet>, specs: seq<ReplaceSpec>)
    returns (active: map<string, TagSet>)
    requires active0 == ActiveFrom(done, specs)
    ensures active == ActiveFrom(done + tags, specs)
  {
    hide *;
    active := active0;
    ghost var all := done;
    for j := 0 to |tags|
      invariant all == done + tags[..j]
      invariant active == ActiveFrom(all, specs)
    {
      active := ActivateOne(active, all, tags[j], specs);
      all := all + [tags[j]];
    }
    assert all == done + tags;
  }

  method BuildActiveTagMap(items: seq<ProvideItem>, specs: seq<ReplaceSpec>) returns (active: map<string, TagSet>)
    ensures active == ActiveFrom(AllTags(items, specs), specs)
  {
    active := map[];
    for i := 0 to |items|
      invariant active == ActiveFrom(AllTags(items[..i], specs), specs)
    {
      AllTagsNext(items, i, specs);
      active := ActivateAll(active, AllTags(items[..i], specs), TagSetsForProvide(items[i], specs), specs);
    }
    assert items[..|items|] == items;
  }

  // ---- appendDefaultTags -------------------------------------------------

  function PairsWith(tags: seq<TagSet>, id: nat): seq<(TagSet, nat)> {
    seq(|tags|, i requires 0 <= i < |tags| => (tags[i], id))
  }

  /** The tag sets of the defaults in list order, each with its default's id. */
  function DefaultTags(specs: seq<ReplaceSpec>): seq<(TagSet, nat)> {
    if specs == [] then []
    else
      var n := |specs| - 1;
      DefaultTags(specs[..n]) + (if specs[n].isDefault then PairsWith(specs[n].tagSets, specs[n].id) else [])
  }

  function KeysOf(tags: seq<TagSet>): set<string> {
    set ts | ts in tags :: FullTagKey(ts)
  }

  function AppendOne(active: map<string, TagSet>, provided: set<string>, d: (TagSet, nat),
                     specs: seq<ReplaceSpec>): map<string, TagSet> {
    var key := FullTagKey(d.0);
    if key in provided || key in active then active
    else
      var w := Select([d.0], specs);
      active[key := ScopedTagSet(d.0, if w.Some? && !w.value.isDefault then w.value.id else d.1)]
  }

  function AppendFrom(active: map<string, TagSet>, provided: set<string>, pairs: seq<(TagSet, nat)>,
                      specs: seq<ReplaceSpec>): map<string, TagSet> {
    if pairs == [] then active
    else AppendOne(AppendFrom(active, provided, pairs[..|pairs| - 1], specs), provided, pairs[|pairs| - 1], specs)
  }

  function WithDefaults(active: map<string, TagSet>, items: seq<ProvideItem>,
                        specs: seq<ReplaceSpec>): map<string, TagSet> {
    AppendFrom(active, KeysOf(AllTags(items, specs)), DefaultTags(specs), specs)
  }

  method ProvidedKeys(items: seq<ProvideItem>, specs: seq<ReplaceSpec>) returns (provided: set<string>)
    ensures provided == KeysOf(AllTags(items, specs))
  {
    provided := {};
    for i := 0 to |items|
      invariant provided == KeysOf(AllTags(items[..i], specs))
    {
      AllTagsNext(items, i, specs);
      provided := provided + KeysOf(TagSetsForProvide(items[i], specs));
    }
    assert items[..|items|] == items;
  }

  lemma AppendNext(active: map<string, TagSet>, provided: set<string>, a: seq<(TagSet, nat)>, d: (TagSet, nat),
                   specs: seq<ReplaceSpec>)
    ensures AppendFrom(active, provided, a + [d], specs) ==
              AppendOne(AppendFrom(active, provided, a, specs), provided, d, specs)
  {
    assert (a + [d])[..|a|] == a;
  }

  method AppendPair(active1: map<string, TagSet>, ghost active0: map<string, TagSet>, ghost done: seq<(TagSet, nat)>,
                    provided: set<string>, ts: TagSet, id: nat, specs: seq<ReplaceSpec>)
    returns (active: map<string, TagSet>)
    requires active1 == AppendFrom(active0, provided, done, specs)
    ensures active == AppendFrom(active0, provided, done + [(ts, id)], specs)
  {
    AppendNext(active0, provided, done, (ts, id), specs);
    hide AppendFrom, Select;
    active := active1;
    var key := FullTagKey(ts);
    if key in provided || key in active {
      return;
    }
    var override := SelectReplacement([ts], specs);
    if override.Some? && !override.value.isDefault {
      active := active[key := ScopedTagSet(ts, override.value.id)];
      return;
    }
    active := active[key := ScopedTagSet(ts, id)];
  }

  /** The tag sets of one more default. */
  method AppendDefault(active1: map<string, TagSet>, ghost active0: map<string, TagSet>, ghost done: seq<(TagSet, nat)>,
                       provided: set<string>, spec: ReplaceSpec, specs: seq<ReplaceSpec>)
    returns (active: map<string, TagSet>)
    requires active1 == AppendFrom(active0, provided, done, specs)
    ensures active == AppendFrom(active0, provided, done + PairsWith(spec.tagSets, spec.id), specs)
  {
    hide AppendFrom;
    active := active1;
    ghost var all := done;
    for j := 0 to |spec.tagSets|
      invariant all == done + PairsWith(spec.tagSets[..j], spec.id)
      invariant active == AppendFrom(active0, provided, all, specs)
    {
      active := AppendPair(active, active0, all, provided, spec.tagSets[j], spec.id, specs);
      all := all + [(spec.tagSets[j], spec.id)];
    }
    assert spec.tagSets[..|spec.tagSets|] == spec.tagSets;
  }

  method AppendDefaultTags(active0: map<string, TagSet>, items: seq<ProvideItem>, specs: seq<ReplaceSpec>)
    returns (active: map<string, TagSet>)
    ensures active == WithDefaults(active0, items, specs)
  {
    active := active0;
    if specs == [] {
      return;
    }
    var provided := ProvidedKeys(items, specs);
    for i := 0 to |specs|
      invariant active == AppendFrom(active0, provided, DefaultTags(specs[..i]), specs)
    {
      assert specs[..i + 1][..i] == specs[..i];
      if !specs[i].isDefault {
        assert DefaultTags(specs[..i + 1]) == DefaultTags(specs[..i]);
        continue;
      }
      active := AppendDefault(active, active0, DefaultTags(specs[..i]), provided, specs[i], specs);
    }
    assert specs[..|specs|] == specs;
  }

  /** Everything a consumer at this position of its scope is redirected for. */
  function ActiveTags(items: seq<ProvideItem>, specs: seq<ReplaceSpec>, index: nat): map<string, TagSet> {
    var active := Applicable(specs, index);
    WithDefaults(ActiveFrom(AllTags(items, active), active), items, specs)
  }

  // ---- replacementTargets, defaultTargets --------------------------------

  function Filtered(tags: seq<TagSet>, specTags: seq<TagSet>): seq<TagSet> {
    if tags == [] then []
    else
      var n := |tags| - 1;
      Filtered(tags[..n], specTags) + (if MatchesAny(tags[n], specTags) then [tags[n]] else [])
  }

  function Unreplaced(tags: seq<TagSet>, specs: seq<ReplaceSpec>): seq<TagSet> {
    if tags == [] then []
    else
      var n := |tags| - 1;
      Unreplaced(tags[..n], specs) + (if Select([tags[n]], specs).None? then [tags[n]] else [])
  }

  /** First occurrence of every key, in order. */
  function Dedup(tags: seq<TagSet>): seq<TagSet> {
    if tags == [] then []
    else
      var n := |tags| - 1;
      Dedup(tags[..n]) + (if FullTagKey(tags[n]) in KeysOf(tags[..n]) then [] else [tags[n]])
  }

  function Targets(spec: ReplaceSpec, items: seq<ProvideItem>): seq<TagSet> {
    Dedup(Candidates(spec, items))
  }

  /** What a default is emitted for, duplicates included. */
  function Offered(spec: ReplaceSpec, items: seq<ProvideItem>, specs: seq<ReplaceSpec>): seq<TagSet> {
    spec.tagSets + Unreplaced(Filtered(AllTags(items, specs), spec.tagSets), specs)
  }

  function DefaultTargets(spec: ReplaceSpec, items: seq<ProvideItem>, specs: seq<ReplaceSpec>): seq<TagSet> {
    Dedup(Offered(spec, items, specs))
  }

  lemma {:induction false} FilteredAppend(a: seq<TagSet>, b: seq<TagSet>, specTags: seq<TagSet>)
    ensures Filtered(a + b, specTags) == Filtered(a, specTags) + Filtered(b, specTags)
  {
    if b == [] {
      assert a + b == a;
    } else {
      assert (a + b)[..|a + b| - 1] == a + b[..|b| - 1];
      FilteredAppend(a, b[..|b| - 1], specTags);
    }
  }

  lemma DedupNext(a: seq<TagSet>, b: TagSet)
    ensures Dedup(a + [b]) == Dedup(a) + (if FullTagKey(b) in KeysOf(a) then [] else [b])
    ensures KeysOf(a + [b]) == KeysOf(a) + {FullTagKey(b)}
  {
    assert (a + [b])[..|a|] == a;
  }

  /** The add closure of the target loops. */
  method AddTarget(out0: seq<TagSet>, seen0: set<string>, ghost done: seq<TagSet>, ts: TagSet)
    returns (out: seq<TagSet>, seen: set<string>)
    requires out0 == Dedup(done) && seen0 == KeysOf(done)
    ensures out == Dedup(done + [ts]) && seen == KeysOf(done + [ts])
  {
    DedupNext(done, ts);
    out, seen := out0, seen0;
    var key := FullTagKey(ts);
    if key in seen {
      return;
    }
    seen := seen + {key};
    out := out + [ts];
  }

  method AddTargets(out0: seq<TagSet>, seen0: set<string>, ghost done: seq<TagSet>, tags: seq<TagSet>)
    returns (out: seq<TagSet>, seen: set<string>)
    requires out0 == Dedup(done) && seen0 == KeysOf(done)
    ensures out == Dedup(done + tags) && seen == KeysOf(done + tags)
  {
    hide Dedup, KeysOf;
    out, seen := out0, seen0;
    ghost var all := done;
    for j := 0 to |tags|
      invariant all == done + tags[..j]
      invariant out == Dedup(all) && seen == KeysOf(all)
    {
      out, seen := AddTarget(out, seen, all, tags[j]);
      all := all + [tags[j]];
    }
    assert all == done + tags;
  }

  /** Everything a replacement is emitted for, duplicates included. */
  function Candidates(spec: ReplaceSpec, items: seq<ProvideItem>): seq<TagSet> {
    spec.tagSets + Filtered(AllTags(items, [spec]), spec.tagSets)
  }

  lemma CandidatesNext(spec: ReplaceSpec, items: seq<ProvideItem>, i: nat)
    requires i < |items|
    ensures Candidates(spec, items[..i + 1]) ==
            Candidates(spec, items[..i]) + Filtered(TagSetsForProvide(items[i], [spec]), spec.tagSets)
  {
    AllTagsNext(items, i, [spec]);
    FilteredAppend(AllTags(items[..i], [spec]), TagSetsForProvide(items[i], [spec]), spec.tagSets);
  }

  method ReplacementTargets(spec: ReplaceSpec, items: seq<ProvideItem>) returns (out: seq<TagSet>)
    ensures out == Targets(spec, items)
  {
    var seen: set<string>;
    out, seen := AddTargets([], {}, [], spec.tagSets);
    assert [] + spec.tagSets == spec.tagSets;
    ghost var done := spec.tagSets;
    assert done == Candidates(spec, items[..0]);
    for i := 0 to |items|
      invariant done == Candidates(spec, items[..i])
      invariant out == Dedup(done) && seen == KeysOf(done)
    {
      CandidatesNext(spec, items, i);
      var matched := Filtered(TagSetsForProvide(items[i], [spec]), spec.tagSets);
      out, seen := AddTargets(out, seen, done, matched);
      done := done + matched;
    }
    assert items[..|items|] == items;
  }

  lemma {:induction false} UnreplacedAppend(a: seq<TagSet>, b: seq<TagSet>, specs: seq<ReplaceSpec>)
    ensures Unreplaced(a + b, specs) == Unreplaced(a, specs) + Unreplaced(b, specs)
  {
    if b == [] {
      assert a + b == a;
    } else {
      assert (a + b)[..|a + b| - 1] == a + b[..|b| - 1];
      UnreplacedAppend(a, b[..|b| - 1], specs);
    }
  }

  lemma OfferedNext(spec: ReplaceSpec, items: seq<ProvideItem>, specs: seq<ReplaceSpec>, i: nat)
    requires i < |items|
    ensures Offered(spec, items[..i + 1], specs) ==
            Offered(spec, items[..i], specs) + Unreplaced(Filtered(TagSetsForProvide(items[i], specs),
                                                                   spec.tagSets), specs)
  {
    hide AllTags, TagSetsForProvide, Filtered, Unreplaced;
    AllTagsNext(items, i, specs);
    FilteredAppend(AllTags(items[..i], specs), TagSetsForProvide(items[i], specs), spec.tagSets);
    UnreplacedAppend(Filtered(AllTags(items[..i], specs), spec.tagSets),
                     Filtered(TagSetsForProvide(items[i], specs), spec.tagSets), specs);
  }

  method DefaultTargetsLoop(spec: ReplaceSpec, items: seq<ProvideItem>, specs: seq<ReplaceSpec>)
    returns (out: seq<TagSet>)
    ensures out == DefaultTargets(spec, items, specs)
  {
    var seen: set<string>;
    out, seen := AddTargets([], {}, [], spec.tagSets);
    assert [] + spec.tagSets == spec.tagSets;
    ghost var done := spec.tagSets;
    assert done == Offered(spec, items[..0], specs);
    for i := 0 to |items|
      invariant done == Offered(spec, items[..i], specs)
      invariant out == Dedup(done) && seen == KeysOf(done)
    {
      OfferedNext(spec, items, specs, i);
      var kept := Unreplaced(Filtered(TagSetsForProvide(items[i], specs), spec.tagSets), specs);
      out, seen := AddTargets(out, seen, done, kept);
      done := done + kept;
    }
    assert items[..|items|] == items;
  }

  // ---- Which spec a binding is redirected to -----------------------------

  /** Names, groups and type names tell the bindings of U apart once printed. */
  ghost predicate Faithful(u: iset<TagSet>) {
    forall a, b | a in u && b in u :: FullTagKey(a) == FullTagKey(b) ==> a == b
  }

  ghost predicate Within(tags: seq<TagSet>, u: iset<TagSet>) {
    forall ts | ts in tags :: ts in u
  }

  lemma {:induction false} ActiveFromIs(tags: seq<TagSet>, specs: seq<ReplaceSpec>, u: iset<TagSet>, ts: TagSet)
    requires Faithful(u) && Within(tags, u) && ts in u
    ensures FullTagKey(ts) in ActiveFrom(tags, specs) <==> ts in tags && Select([ts], specs).Some?
    ensures FullTagKey(ts) in ActiveFrom(tags, specs) ==>
              ActiveFrom(tags, specs)[FullTagKey(ts)] == ScopedTagSet(ts, Select([ts], specs).value.id)
  {
    hide FullTagKey, ScopedTagSet, Select;
    if tags == [] {
    } else {
      var n := |tags| - 1;
      ActiveFromIs(tags[..n], specs, u, ts);
      assert tags[n] in tags && tags[n] in u;
      assert FullTagKey(tags[n]) == FullTagKey(ts) ==> tags[n] == ts;
      hide Faithful, Within;
      assert ts in tags <==> ts in tags[..n] || ts == tags[n];
    }
  }

  /** Position of the first pair for a binding, or -1. */
  function FirstFor(pairs: seq<(TagSet, nat)>, ts: TagSet): (r: int)
    ensures -1 <= r < |pairs|
    ensures r >= 0 ==> pairs[r].0 == ts && forall k | 0 <= k < r :: pairs[k].0 != ts
    ensures r < 0 ==> forall k | 0 <= k < |pairs| :: pairs[k].0 != ts
  {
    if pairs == [] then -1
    else
      var k := FirstFor(pairs[..|pairs| - 1], ts);
      if k >= 0 then k else if pairs[|pairs| - 1].0 == ts then |pairs| - 1 else -1
  }

  ghost predicate PairsWithin(pairs: seq<(TagSet, nat)>, u: iset<TagSet>) {
    forall k | 0 <= k < |pairs| :: pairs[k].0 in u
  }

  /** The id a default's binding is redirected under: an explicit replacement's, or the first default's. */
  function DefaultId(pairs: seq<(TagSet, nat)>, specs: seq<ReplaceSpec>, ts: TagSet): nat
    requires FirstFor(pairs, ts) >= 0
  {
    var w := Select([ts], specs);
    if w.Some? && !w.value.isDefault then w.value.id else pairs[FirstFor(pairs, ts)].1
  }

  lemma {:induction false} AppendFromIs(active: map<string, TagSet>, tags: seq<TagSet>, pairs: seq<(TagSet, nat)>,
                                        specs: seq<ReplaceSpec>, u: iset<TagSet>, ts: TagSet)
    requires Faithful(u) && Within(tags, u) && PairsWithin(pairs, u) && ts in u
    ensures var key, m := FullTagKey(ts), AppendFrom(active, KeysOf(tags), pairs, specs);
            (key in m <==> key in active || (ts !in tags && FirstFor(pairs, ts) >= 0)) &&
            (key in active ==> m[key] == active[key]) &&
            (key !in active && key in m ==> m[key] == ScopedTagSet(ts, DefaultId(pairs, specs, ts)))
  {
    if pairs == [] {
    } else {
      var n := |pairs| - 1;
      AppendFromIs(active, tags, pairs[..n], specs, u, ts);
      assert pairs[n].0 in u;
      assert FullTagKey(pairs[n].0) == FullTagKey(ts) ==> pairs[n].0 == ts;
      assert FullTagKey(ts) in KeysOf(tags) <==> ts in tags by {
        if FullTagKey(ts) in KeysOf(tags) {
          var x :| x in tags && FullTagKey(x) == FullTagKey(ts);
          assert x in u;
        }
      }
    }
  }

  /** The id of the spec a binding is redirected to for a consumer at this position, if any. */
  function WinnerId(items: seq<ProvideItem>, specs: seq<ReplaceSpec>, index: nat, ts: TagSet): Option<nat> {
    var active := Applicable(specs, index);
    if ts in AllTags(items, active) && Select([ts], active).Some? then Some(Select([ts], active).value.id)
    else if ts !in AllTags(items, specs) && FirstFor(DefaultTags(specs), ts) >= 0 then
      Some(DefaultId(DefaultTags(specs), specs, ts))
    else None
  }

  /** A binding is redirected exactly when it is provided and an applicable replacement is selected
      for it, or when only defaults offer it; and then to the scoped binding of that winner. */
  lemma ActiveTagsWinner(items: seq<ProvideItem>, specs: seq<ReplaceSpec>, index: nat, u: iset<TagSet>, ts: TagSet)
    requires Faithful(u) && ts in u && PairsWithin(DefaultTags(specs), u)
    requires Within(AllTags(items, specs), u) && Within(AllTags(items, Applicable(specs, index)), u)
    ensures var key, m, w := FullTagKey(ts), ActiveTags(items, specs, index), WinnerId(items, specs, index, ts);
            (key in m <==> w.Some?) && (w.Some? ==> m[key] == ScopedTagSet(ts, w.value))
  {
    var active := Applicable(specs, index);
    var tags := AllTags(items, active);
    ActiveFromIs(tags, active, u, ts);
    AppendFromIs(ActiveFrom(tags, active), AllTags(items, specs), DefaultTags(specs), specs, u, ts);
  }

  // ---- Two defaults of one binding ---------------------------------------

  /** The default that offers a binding, as selectReplacement would choose it: the last one. */
  lemma {:induction false} LastDefaultSelected(specs: seq<ReplaceSpec>, ts: TagSet, k: nat)
    requires k < |specs| && specs[k].isDefault && BestScore([ts], specs[k].tagSets) == 0
    requires forall j | 0 <= j < |specs| && BestScore([ts], specs[j].tagSets) >= 0 ::
               specs[j].isDefault && BestScore([ts], specs[j].tagSets) == 0 && specs[j].depth == specs[k].depth
    ensures Pick(Ranks([ts], specs)) == Some(k) <==>
            forall j | k < j < |specs| :: BestScore([ts], specs[j].tagSets) < 0
  {
    var ranks := Ranks([ts], specs);
    assert forall j | 0 <= j < |specs| ::
             ranks[j] == Rank(specs[j].isDefault, BestScore([ts], specs[j].tagSets), specs[j].depth);
    PickIsMaximum(ranks, k);
  }

  lemma UntaggedScore(ts: TagSet, tags: seq<TagSet>)
    requires forall rt | rt in tags :: rt.name == "" && rt.group == ""
    requires ts.name == "" && ts.group == ""
    ensures BestScore([ts], tags) == if ts in tags then 0 else -1
  {
    assert BestScore([ts], tags) == Max(BestScore([ts][..0], tags), ScoreOf(ts, tags));
    UntaggedScoreOf(ts, tags);
  }

  lemma {:induction false} UntaggedScoreOf(ts: TagSet, tags: seq<TagSet>)
    requires forall rt | rt in tags :: rt.name == "" && rt.group == ""
    requires ts.name == "" && ts.group == ""
    ensures ScoreOf(ts, tags) == if ts in tags then 0 else -1
  {
    if tags == [] {
    } else {
      var n := |tags| - 1;
      assert tags[n] in tags && forall rt | rt in tags[..n] :: rt in tags;
      UntaggedScoreOf(ts, tags[..n]);
      assert ts in tags <==> ts in tags[..n] || ts == tags[n];
    }
  }

  /** Defaults of one scope: same depth, untagged exports, an id each. */
  ghost predicate ScopeDefaults(specs: seq<ReplaceSpec>, depth: nat) {
    && (forall s | s in specs && s.isDefault ::
          s.depth == depth && forall rt | rt in s.tagSets :: rt.name == "" && rt.group == "")
    && (forall i, j | 0 <= i < j < |specs| :: specs[i].id != specs[j].id)
  }

  /** specs[i] is the first default that offers the binding. */
  ghost predicate FirstOffer(specs: seq<ReplaceSpec>, ts: TagSet, i: nat) {
    && i < |specs| && specs[i].isDefault && ts in specs[i].tagSets
    && forall j | 0 <= j < i && specs[j].isDefault :: ts !in specs[j].tagSets
  }

  lemma FirstInPairs(tags: seq<TagSet>, id: nat, ts: TagSet)
    ensures FirstFor(PairsWith(tags, id), ts) >= 0 <==> ts in tags
  {
    var pairs := PairsWith(tags, id);
    assert forall t | 0 <= t < |tags| :: pairs[t] == (tags[t], id);
    if ts in tags {
      var t :| 0 <= t < |tags| && tags[t] == ts;
      assert pairs[t].0 == ts;
    }
  }

  lemma {:induction false} FirstForSpec(specs: seq<ReplaceSpec>, ts: TagSet)
    ensures var k := FirstFor(DefaultTags(specs), ts);
            k >= 0 ==> exists i: nat :: FirstOffer(specs, ts, i) && DefaultTags(specs)[k].1 == specs[i].id
    ensures FirstFor(DefaultTags(specs), ts) < 0 ==> forall i | 0 <= i < |specs| && specs[i].isDefault ::
              ts !in specs[i].tagSets
  {
    if specs == [] {
    } else {
      var n := |specs| - 1;
      var front := specs[..n];
      FirstForSpec(front, ts);
      var added := if specs[n].isDefault then PairsWith(specs[n].tagSets, specs[n].id) else [];
      var before := DefaultTags(front);
      assert DefaultTags(specs) == before + added;
      FirstForAppend(before, added, ts);
      FirstInPairs(specs[n].tagSets, specs[n].id, ts);
      hide DefaultTags, FirstFor;
      if FirstFor(before, ts) >= 0 {
        var i: nat :| FirstOffer(front, ts, i) && before[FirstFor(before, ts)].1 == front[i].id;
        OfferLonger(specs, ts, i);
      } else if FirstFor(added, ts) >= 0 {
        assert FirstOffer(specs, ts, n);
      }
    }
  }

  lemma OfferLonger(specs: seq<ReplaceSpec>, ts: TagSet, i: nat)
    requires specs != [] && FirstOffer(specs[..|specs| - 1], ts, i)
    ensures FirstOffer(specs, ts, i) && specs[i] == specs[..|specs| - 1][i]
  {
  }

  lemma {:induction false} FirstForAppend(a: seq<(TagSet, nat)>, b: seq<(TagSet, nat)>, ts: TagSet)
    ensures FirstFor(a + b, ts) ==
            if FirstFor(a, ts) >= 0 then FirstFor(a, ts) else if FirstFor(b, ts) >= 0 then |a| + FirstFor(b, ts) else -1
  {
    if b == [] {
      assert a + b == a;
    } else {
      assert (a + b)[..|a + b| - 1] == a + b[..|b| - 1];
      FirstForAppend(a, b[..|b| - 1], ts);
    }
  }

  /** When only defaults of this scope offer an untagged binding, consumers are redirected to the
      first of them, while selectReplacement would choose the last: the two are the same spec if and
      only if exactly one default offers the binding. */
  lemma {:induction false} FirstDefaultIsSelected(specs: seq<ReplaceSpec>, depth: nat, ts: TagSet)
    requires ScopeDefaults(specs, depth) && ts.name == "" && ts.group == ""
    requires forall s | s in specs && !s.isDefault :: BestScore([ts], s.tagSets) < 0
    requires FirstFor(DefaultTags(specs), ts) >= 0
    ensures Select([ts], specs).Some?
    ensures DefaultId(DefaultTags(specs), specs, ts) == Select([ts], specs).value.id <==>
            (forall i, j | 0 <= i < |specs| && 0 <= j < |specs| && specs[i].isDefault && specs[j].isDefault &&
              ts in specs[i].tagSets && ts in specs[j].tagSets :: i == j)
  {
    FirstForSpec(specs, ts);
    hide DefaultTags, FirstFor, BestScore, Pick;
    var i: nat :| FirstOffer(specs, ts, i) && DefaultTags(specs)[FirstFor(DefaultTags(specs), ts)].1 == specs[i].id;
    DefaultScores(specs, depth, ts);
    LastDefaultSelected(specs, ts, i);
    var k := SelectedAt(specs, ts, i);
    hide Select, Ranks;
    assert specs[k].isDefault && ts in specs[k].tagSets;
    OnlyOffer(specs, ts, i, k, depth);
  }

  /** The first offer is the chosen one exactly when it is the only one. */
  lemma OnlyOffer(specs: seq<ReplaceSpec>, ts: TagSet, i: nat, k: nat, depth: nat)
    requires ScopeDefaults(specs, depth) && FirstOffer(specs, ts, i)
    requires k < |specs| && specs[k].isDefault && ts in specs[k].tagSets
    requires k == i <==> forall j | i < j < |specs| :: !(specs[j].isDefault && ts in specs[j].tagSets)
    ensures specs[i].id == specs[k].id <==>
            (forall i, j | 0 <= i < |specs| && 0 <= j < |specs| && specs[i].isDefault && specs[j].isDefault &&
              ts in specs[i].tagSets && ts in specs[j].tagSets :: i == j)
  {
    assert forall a, b | 0 <= a < b < |specs| :: specs[a].id != specs[b].id;
    hide ScopeDefaults;
  }

  lemma SelectedAt(specs: seq<ReplaceSpec>, ts: TagSet, i: nat) returns (k: nat)
    requires i < |specs| && BestScore([ts], specs[i].tagSets) >= 0
    ensures k < |specs| && Pick(Ranks([ts], specs)) == Some(k) && Select([ts], specs) == Some(specs[k])
    ensures BestScore([ts], specs[k].tagSets) >= 0
  {
    hide BestScore, Pick;
    var ranks := Ranks([ts], specs);
    assert ranks[i] == RankOf([ts], specs[i]) && ranks[i].Matching();
    k := Pick(ranks).value;
    assert ranks[k] == RankOf([ts], specs[k]) && ranks[k].Matching();
  }

  lemma DefaultScores(specs: seq<ReplaceSpec>, depth: nat, ts: TagSet)
    requires ScopeDefaults(specs, depth) && ts.name == "" && ts.group == ""
    requires forall s | s in specs && !s.isDefault :: BestScore([ts], s.tagSets) < 0
    ensures forall j | 0 <= j < |specs| :: BestScore([ts], specs[j].tagSets) >= 0 <==>
              specs[j].isDefault && ts in specs[j].tagSets
    ensures forall j | 0 <= j < |specs| && specs[j].isDefault && ts in specs[j].tagSets ::
              BestScore([ts], specs[j].tagSets) == 0 && specs[j].depth == depth
  {
    hide BestScore;
    forall j | 0 <= j < |specs|
      ensures BestScore([ts], specs[j].tagSets) >= 0 <==> specs[j].isDefault && ts in specs[j].tagSets
      ensures specs[j].isDefault && ts in specs[j].tagSets ==>
                BestScore([ts], specs[j].tagSets) == 0 && specs[j].depth == depth
    {
      assert specs[j] in specs;
      if specs[j].isDefault {
        UntaggedScore(ts, specs[j].tagSets);
      }
    }
  }

  /** With two defaults of one type the two differ: consumers are led to the first, the selection
      rule picks the second. */
  lemma TwoDefaultsDiffer(typ: GoType, v: Value, w: Value)
    ensures var ts := TagSet("", "", typ);
            var specs := [ReplaceSpec([ts], v, [], 0, 0, 0, All, false, true),
                          ReplaceSpec([ts], w, [], 1, 1, 0, All, false, true)];
            FirstFor(DefaultTags(specs), ts) >= 0 && DefaultId(DefaultTags(specs), specs, ts) == 0 &&
            Select([ts], specs) == Some(specs[1])
  {
    var ts := TagSet("", "", typ);
    var a, b := ReplaceSpec([ts], v, [], 0, 0, 0, All, false, true),
                ReplaceSpec([ts], w, [], 1, 1, 0, All, false, true);
    var specs := [a, b];
    UntaggedScore(ts, [ts]);
    assert specs[..1] == [a] && [a][..0] == [] && PairsWith([ts], 0) == [(ts, 0)] && PairsWith([ts], 1) == [(ts, 1)];
    assert DefaultTags([a]) == [] + [(ts, 0)];
    var pairs := DefaultTags(specs);
    assert pairs == DefaultTags([a]) + [(ts, 1)];
    assert pairs[0] == (ts, 0);
    LastDefaultSelected(specs, ts, 1);
    hide BestScore, DefaultTags;
    var k := SelectedAt(specs, ts, 1);
  }
}
