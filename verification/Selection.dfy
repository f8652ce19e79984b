/** Which replacement wins for a binding. */
module Selection {
  import opened Text
  import opened Tags
  import opened Bindings
  import opened Graph

  datatype ReplaceSpec = ReplaceSpec(
    tagSets: seq<TagSet>,
    value: Value,
    opts: seq<Opt>,
    pos: nat,
    id: nat,
    depth: nat,
    mode: Mode,
    inherited: bool,
    isDefault: bool)

  predicate Matches(ts: TagSet, rt: TagSet) {
    && ts.typ == rt.typ
    && (rt.name != "" ==> ts.name == rt.name)
    && (rt.group != "" ==> ts.group == rt.group)
  }

  predicate MatchesAny(ts: TagSet, specTags: seq<TagSet>) {
    exists i :: 0 <= i < |specTags| && Matches(ts, specTags[i])
  }

  function Specificity(ts: TagSet): nat {
    if ts.name != "" && ts.group != "" then 3
    else if ts.group != "" then 2
    else if ts.name != "" then 1
    else 0
  }

  function Max(a: int, b: int): int {
    if a > b then a else b
  }

  function ScoreOf(ts: TagSet, replaceTags: seq<TagSet>): (r: int)
    ensures r >= -1
  {
    if replaceTags == [] then -1
    else
      var n := |replaceTags| - 1;
      Max(ScoreOf(ts, replaceTags[..n]), if Matches(ts, replaceTags[n]) then Specificity(replaceTags[n]) else -1)
  }

  /** bestReplaceScore: the highest specificity of a matching pair, or -1. */
  function BestScore(tagSets: seq<TagSet>, replaceTags: seq<TagSet>): (r: int)
    ensures r >= -1
  {
    if tagSets == [] then -1
    else Max(BestScore(tagSets[..|tagSets| - 1], replaceTags), ScoreOf(tagSets[|tagSets| - 1], replaceTags))
  }

  lemma {:induction false} ScoreMatches(ts: TagSet, replaceTags: seq<TagSet>)
    ensures ScoreOf(ts, replaceTags) >= 0 <==> MatchesAny(ts, replaceTags)
  {
    if replaceTags == [] {
    } else {
      var n := |replaceTags| - 1;
      ScoreMatches(ts, replaceTags[..n]);
      if MatchesAny(ts, replaceTags[..n]) {
        var i :| 0 <= i < n && Matches(ts, replaceTags[..n][i]);
        assert Matches(ts, replaceTags[i]);
      }
      if MatchesAny(ts, replaceTags) {
        var i :| 0 <= i < |replaceTags| && Matches(ts, replaceTags[i]);
        assert i < n ==> Matches(ts, replaceTags[..n][i]);
      }
    }
  }

  /** A spec is a candidate exactly when one of its tag sets matches one of the provider's. */
  lemma {:induction false} BestScoreMatches(tagSets: seq<TagSet>, replaceTags: seq<TagSet>)
    ensures BestScore(tagSets, replaceTags) >= 0 <==> exists ts | ts in tagSets :: MatchesAny(ts, replaceTags)
  {
    if tagSets == [] {
    } else {
      var n := |tagSets| - 1;
      BestScoreMatches(tagSets[..n], replaceTags);
      ScoreMatches(tagSets[n], replaceTags);
      assert forall ts :: ts in tagSets <==> ts in tagSets[..n] || ts == tagSets[n];
    }
  }

  method BestReplaceScore(tagSets: seq<TagSet>, replaceTags: seq<TagSet>) returns (best: int)
    ensures best == BestScore(tagSets, replaceTags)
  {
    best := -1;
    for i := 0 to |tagSets|
      invariant best == BestScore(tagSets[..i], replaceTags)
    {
      assert tagSets[..i + 1][..i] == tagSets[..i];
      for j := 0 to |replaceTags|
        invariant best == Max(BestScore(tagSets[..i], replaceTags), ScoreOf(tagSets[i], replaceTags[..j]))
      {
        assert replaceTags[..j + 1][..j] == replaceTags[..j];
        if Matches(tagSets[i], replaceTags[j]) {
          var score := Specificity(replaceTags[j]);
          if score > best {
            best := score;
          }
        }
      }
      assert replaceTags[..|replaceTags|] == replaceTags;
    }
    assert tagSets[..|tagSets|] == tagSets;
  }

  // ---- selectReplacement -------------------------------------------------

  /** What precedence looks at; score is -1 for a spec that does not match. */
  datatype Rank = Rank(isDefault: bool, score: int, depth: nat) {
    predicate Matching() {
      score >= 0
    }
    /** This spec, met later in the list, displaces an earlier one: an explicit one displaces a
        default, and among equals specificity decides, then depth, then the later position. */
    predicate Displaces(earlier: Rank) {
      if isDefault != earlier.isDefault then !isDefault
      else score > earlier.score || (score == earlier.score && depth >= earlier.depth)
    }
    predicate Above(other: Rank) {
      if isDefault != other.isDefault then !isDefault
      else score > other.score || (score == other.score && depth > other.depth)
    }
  }

  function RankOf(tagSets: seq<TagSet>, spec: ReplaceSpec): Rank {
    Rank(spec.isDefault, BestScore(tagSets, spec.tagSets), spec.depth)
  }

  function Ranks(tagSets: seq<TagSet>, specs: seq<ReplaceSpec>): seq<Rank> {
    seq(|specs|, i requires 0 <= i < |specs| => RankOf(tagSets, specs[i]))
  }

  /** Position of the winner in the list, if any spec matches. */
  function Pick(ranks: seq<Rank>): (r: Option<nat>)
    ensures r.Some? ==> r.value < |ranks| && ranks[r.value].Matching()
    ensures r.None? <==> forall i | 0 <= i < |ranks| :: !ranks[i].Matching()
  {
    if ranks == [] then None
    else
      var n := |ranks| - 1;
      var before := Pick(ranks[..n]);
      if !ranks[n].Matching() then before
      else if before.None? || ranks[n].Displaces(ranks[before.value]) then Some(n)
      else before
  }

  function Select(tagSets: seq<TagSet>, specs: seq<ReplaceSpec>): (r: Option<ReplaceSpec>)
    ensures r.Some? ==> r.value in specs && BestScore(tagSets, r.value.tagSets) >= 0
    ensures r.None? <==> forall i | 0 <= i < |specs| :: BestScore(tagSets, specs[i].tagSets) < 0
  {
    var ranks := Ranks(tagSets, specs);
    assert forall i | 0 <= i < |specs| :: ranks[i].Matching() == (BestScore(tagSets, specs[i].tagSets) >= 0);
    var k := Pick(ranks);
    if k.None? then None else Some(specs[k.value])
  }

  lemma PickNext(ranks: seq<Rank>, i: nat)
    requires i < |ranks|
    ensures var before := Pick(ranks[..i]);
            Pick(ranks[..i + 1]) ==
            if !ranks[i].Matching() then before
            else if before.None? || ranks[i].Displaces(ranks[before.value]) then Some(i)
            else before
  {
    assert ranks[..i + 1][..i] == ranks[..i];
  }

  method SelectReplacement(tagSets: seq<TagSet>, specs: seq<ReplaceSpec>) returns (r: Option<ReplaceSpec>)
    ensures r == Select(tagSets, specs)
  {
    hide BestScore, Pick;
    ghost var ranks := Ranks(tagSets, specs);
    assert ranks[..0] == [];
    var bestScore, bestDepth, bestIndex := -1, 0, -1;
    for i := 0 to |specs|
      invariant -1 <= bestIndex < i && (bestScore == -1) == (bestIndex == -1) && bestScore >= -1
      invariant Pick(ranks[..i]) == if bestIndex < 0 then None else Some(bestIndex)
      invariant bestIndex >= 0 ==> bestScore == ranks[bestIndex].score && bestDepth == specs[bestIndex].depth
    {
      PickNext(ranks, i);
      var spec := specs[i];
      var score := BestReplaceScore(tagSets, spec.tagSets);
      assert ranks[i] == Rank(spec.isDefault, score, spec.depth);
      if score < 0 {
        continue;
      }
      var better := false;
      if bestScore == -1 {
        better := true;
      } else if spec.isDefault != specs[bestIndex].isDefault {
        better := !spec.isDefault;
      } else if score > bestScore {
        better := true;
      } else if score == bestScore && spec.depth > bestDepth {
        better := true;
      } else if score == bestScore && spec.depth == bestDepth && i > bestIndex {
        better := true;
      }
      if better {
        bestScore, bestDepth, bestIndex := score, spec.depth, i;
      }
    }
    assert ranks[..|specs|] == ranks;
    r := if bestScore < 0 then None else Some(specs[bestIndex]);
  }

  /** The winner is the one matching position that comes before every other matching one under
      (explicit, specificity, depth, later position); it exists whenever anything matches. */
  lemma {:induction false} PickIsMaximum(ranks: seq<Rank>, k: nat)
    requires k < |ranks|
    ensures Pick(ranks) == Some(k) <==>
            ranks[k].Matching() &&
            forall j: nat | j < |ranks| && j != k && ranks[j].Matching() ::
              ranks[k].Above(ranks[j]) || (!ranks[j].Above(ranks[k]) && k > j)
  {
    var n := |ranks| - 1;
    var front := ranks[..n];
    var before := Pick(front);
    if before.Some? {
      PickIsMaximum(front, before.value);
    }
    if k < n {
      PickIsMaximum(front, k);
    }
  }

  /** Selecting over a concatenation is choosing between the two parts' winners. */
  lemma {:induction false} PickConcat(a: seq<Rank>, b: seq<Rank>)
    ensures var x, y := Pick(a), Pick(b);
            Pick(a + b) ==
            if y.None? then x
            else if x.None? || b[y.value].Displaces(a[x.value]) then Some(|a| + y.value)
            else x
  {
    if b == [] {
      assert a + b == a;
    } else {
      var n := |b| - 1;
      assert (a + b)[..|a + b| - 1] == a + b[..n];
      PickConcat(a, b[..n]);
    }
  }

  lemma RanksConcat(tagSets: seq<TagSet>, a: seq<ReplaceSpec>, b: seq<ReplaceSpec>)
    ensures Ranks(tagSets, a + b) == Ranks(tagSets, a) + Ranks(tagSets, b)
  {
    forall i | 0 <= i < |a + b|
      ensures Ranks(tagSets, a + b)[i] == (Ranks(tagSets, a) + Ranks(tagSets, b))[i]
    {
      if i < |a| {
        assert (a + b)[i] == a[i];
      } else {
        assert (a + b)[i] == b[i - |a|];
      }
    }
  }

  lemma SelectConcat(tagSets: seq<TagSet>, a: seq<ReplaceSpec>, b: seq<ReplaceSpec>)
    ensures var x, y := Select(tagSets, a), Select(tagSets, b);
            Select(tagSets, a + b) ==
            if y.None? then x
            else if x.None? || RankOf(tagSets, y.value).Displaces(RankOf(tagSets, x.value)) then y
            else x
  {
    var p, q := Ranks(tagSets, a), Ranks(tagSets, b);
    RanksConcat(tagSets, a, b);
    PickConcat(p, q);
    hide BestScore, Pick;
    var x, y := Pick(p), Pick(q);
    if x.Some? {
      assert (a + b)[x.value] == a[x.value] && p[x.value] == RankOf(tagSets, a[x.value]);
    }
    if y.Some? {
      assert (a + b)[|a| + y.value] == b[y.value] && q[y.value] == RankOf(tagSets, b[y.value]);
    }
  }

  // ---- What precedence means ---------------------------------------------

  /** The binding itself with its name, its group, both or neither of them kept. */
  function Form(ts: TagSet, named: bool, grouped: bool): TagSet {
    TagSet(if named then ts.name else "", if grouped then ts.group else "", ts.typ)
  }

  /** Among the tags is the form of the binding that keeps these parts, the kept parts not being empty. */
  ghost predicate Names(ts: TagSet, tags: seq<TagSet>, named: bool, grouped: bool) {
    (named ==> ts.name != "") && (grouped ==> ts.group != "") && Form(ts, named, grouped) in tags
  }

  /** The tags list such a form of one of the bindings. */
  ghost predicate Offers(tagSets: seq<TagSet>, tags: seq<TagSet>, named: bool, grouped: bool) {
    exists ts | ts in tagSets :: Names(ts, tags, named, grouped)
  }

  /** Which form counts: with name and group, with the group, with the name, with neither. */
  lemma {:induction false} ScoreForms(ts: TagSet, tags: seq<TagSet>)
    ensures ScoreOf(ts, tags) >= 3 <==> Names(ts, tags, true, true)
    ensures ScoreOf(ts, tags) >= 2 <==> Names(ts, tags, true, true) || Names(ts, tags, false, true)
    ensures ScoreOf(ts, tags) >= 1 <==>
              Names(ts, tags, true, true) || Names(ts, tags, false, true) || Names(ts, tags, true, false)
    ensures ScoreOf(ts, tags) >= 0 <==>
              Names(ts, tags, true, true) || Names(ts, tags, false, true) || Names(ts, tags, true, false) ||
              Names(ts, tags, false, false)
    ensures ScoreOf(ts, tags) <= 3
  {
    if tags == [] {
    } else {
      var n := |tags| - 1;
      ScoreForms(ts, tags[..n]);
      assert forall x :: x in tags <==> x in tags[..n] || x == tags[n];
    }
  }

  lemma {:induction false} BestScoreForms(tagSets: seq<TagSet>, tags: seq<TagSet>)
    ensures BestScore(tagSets, tags) >= 3 <==> Offers(tagSets, tags, true, true)
    ensures BestScore(tagSets, tags) >= 2 <==> Offers(tagSets, tags, true, true) || Offers(tagSets, tags, false, true)
    ensures BestScore(tagSets, tags) >= 1 <==>
              Offers(tagSets, tags, true, true) || Offers(tagSets, tags, false, true) ||
                  Offers(tagSets, tags, true, false)
    ensures BestScore(tagSets, tags) >= 0 <==>
              Offers(tagSets, tags, true, true) || Offers(tagSets, tags, false, true) ||
              Offers(tagSets, tags, true, false) || Offers(tagSets, tags, false, false)
    ensures BestScore(tagSets, tags) <= 3
  {
    hide ScoreOf, Names;
    if tagSets == [] {
    } else {
      var n := |tagSets| - 1;
      BestScoreForms(tagSets[..n], tags);
      ScoreForms(tagSets[n], tags);
      forall named, grouped
        ensures Offers(tagSets, tags, named, grouped) <==>
                Offers(tagSets[..n], tags, named, grouped) || Names(tagSets[n], tags, named, grouped)
      {
        assert forall ts :: ts in tagSets <==> ts in tagSets[..n] || ts == tagSets[n];
      }
      hide Offers;
    }
  }

  ghost predicate OffersAny(tagSets: seq<TagSet>, x: ReplaceSpec) {
    exists named, grouped :: Offers(tagSets, x.tagSets, named, grouped)
  }

  /** x offers a form of a binding and y none as fine: a group counts more than a name, and both more
      than either alone. */
  ghost predicate Finer(tagSets: seq<TagSet>, x: ReplaceSpec, y: ReplaceSpec) {
    if Offers(tagSets, x.tagSets, true, true) then
      !Offers(tagSets, y.tagSets, true, true)
    else if Offers(tagSets, x.tagSets, false, true) then
      !Offers(tagSets, y.tagSets, true, true) && !Offers(tagSets, y.tagSets, false, true)
    else if Offers(tagSets, x.tagSets, true, false) then
      !Offers(tagSets, y.tagSets, true, true) && !Offers(tagSets, y.tagSets, false, true) &&
      !Offers(tagSets, y.tagSets, true, false)
    else OffersAny(tagSets, x) && !OffersAny(tagSets, y)
  }

  /** x is preferred to y, whether it stands later or not. */
  ghost predicate Preferred(tagSets: seq<TagSet>, x: ReplaceSpec, y: ReplaceSpec, later: bool) {
    if x.isDefault != y.isDefault then y.isDefault
    else Finer(tagSets, x, y) || (!Finer(tagSets, y, x) && (x.depth > y.depth || (x.depth == y.depth && later)))
  }

  /** The spec at this position offers some form, and is preferred to all others that do. */
  ghost predicate Chosen(tagSets: seq<TagSet>, specs: seq<ReplaceSpec>, k: nat) {
    && k < |specs| && OffersAny(tagSets, specs[k])
    && forall j | 0 <= j < |specs| && j != k && OffersAny(tagSets, specs[j]) ::
         Preferred(tagSets, specs[k], specs[j], k > j)
  }

  lemma FinerScores(tagSets: seq<TagSet>, x: ReplaceSpec, y: ReplaceSpec)
    ensures OffersAny(tagSets, x) <==> BestScore(tagSets, x.tagSets) >= 0
    ensures Finer(tagSets, x, y) <==> BestScore(tagSets, x.tagSets) > BestScore(tagSets, y.tagSets)
  {
    BestScoreForms(tagSets, x.tagSets);
    BestScoreForms(tagSets, y.tagSets);
    hide BestScore, Offers;
    assert OffersAny(tagSets, x) <==>
           Offers(tagSets, x.tagSets, true, true) || Offers(tagSets, x.tagSets, false, true) ||
           Offers(tagSets, x.tagSets, true, false) || Offers(tagSets, x.tagSets, false, false);
    assert OffersAny(tagSets, y) <==>
           Offers(tagSets, y.tagSets, true, true) || Offers(tagSets, y.tagSets, false, true) ||
           Offers(tagSets, y.tagSets, true, false) || Offers(tagSets, y.tagSets, false, false);
  }

  /** A spec is selected exactly when it stands at the chosen position: what selectReplacement is for,
      in terms of the names and groups in the lists. */
  lemma {:induction false} SelectedExactly(tagSets: seq<TagSet>, specs: seq<ReplaceSpec>, w: ReplaceSpec)
    ensures Select(tagSets, specs) == Some(w) <==> exists k: nat :: Chosen(tagSets, specs, k) && specs[k] == w
  {
    var ranks := Ranks(tagSets, specs);
    forall k: nat | k < |specs|
      ensures Chosen(tagSets, specs, k) <==> Pick(ranks) == Some(k)
    {
      ChosenIsPicked(tagSets, specs, k);
    }
    hide BestScore, Pick, Chosen;
    if Pick(ranks).Some? {
      assert Chosen(tagSets, specs, Pick(ranks).value);
    }
    forall k: nat | Chosen(tagSets, specs, k)
      ensures k < |specs|
    {
      ChosenInRange(tagSets, specs, k);
    }
  }

  lemma ChosenInRange(tagSets: seq<TagSet>, specs: seq<ReplaceSpec>, k: nat)
    requires Chosen(tagSets, specs, k)
    ensures k < |specs|
  {
  }

  lemma ChosenIsPicked(tagSets: seq<TagSet>, specs: seq<ReplaceSpec>, k: nat)
    requires k < |specs|
    ensures Chosen(tagSets, specs, k) <==> Pick(Ranks(tagSets, specs)) == Some(k)
  {
    var ranks := Ranks(tagSets, specs);
    PickIsMaximum(ranks, k);
    forall j: nat | j < |specs|
      ensures ranks[j].Matching() <==> OffersAny(tagSets, specs[j])
      ensures Preferred(tagSets, specs[k], specs[j], k > j) <==>
              ranks[k].Above(ranks[j]) || (!ranks[j].Above(ranks[k]) && k > j)
    {
      FinerScores(tagSets, specs[k], specs[j]);
      FinerScores(tagSets, specs[j], specs[k]);
      hide BestScore, Finer, OffersAny;
      assert ranks[j] == RankOf(tagSets, specs[j]) && ranks[k] == RankOf(tagSets, specs[k]);
    }
    hide BestScore, Pick, Finer, OffersAny, Preferred;
  }

  /** Of two specs alike default or explicit, one wins in either order if and only if it offers a finer
      form, or an equally fine one from further in. */
  lemma OrderFree(tagSets: seq<TagSet>, x: ReplaceSpec, y: ReplaceSpec)
    requires x.isDefault == y.isDefault && OffersAny(tagSets, x) && OffersAny(tagSets, y) && x != y
    ensures Select(tagSets, [x, y]) == Some(x) == Select(tagSets, [y, x]) <==>
            Finer(tagSets, x, y) || (!Finer(tagSets, y, x) && x.depth > y.depth)
  {
    hide *;
    ChosenOfTwo(tagSets, x, y);
    ChosenOfTwo(tagSets, y, x);
    SelectedExactly(tagSets, [x, y], x);
    SelectedExactly(tagSets, [y, x], x);
    PreferredEither(tagSets, x, y);
  }

  lemma ChosenOfTwo(tagSets: seq<TagSet>, x: ReplaceSpec, y: ReplaceSpec)
    requires OffersAny(tagSets, x) && OffersAny(tagSets, y)
    ensures Chosen(tagSets, [x, y], 0) <==> Preferred(tagSets, x, y, false)
    ensures Chosen(tagSets, [x, y], 1) <==> Preferred(tagSets, y, x, true)
    ensures forall k: nat | Chosen(tagSets, [x, y], k) :: k < 2
  {
    hide OffersAny, Preferred;
    var specs := [x, y];
    assert specs[0] == x && specs[1] == y;
  }

  lemma PreferredEither(tagSets: seq<TagSet>, x: ReplaceSpec, y: ReplaceSpec)
    requires x.isDefault == y.isDefault
    ensures Preferred(tagSets, x, y, false) && Preferred(tagSets, x, y, true) <==>
            Finer(tagSets, x, y) || (!Finer(tagSets, y, x) && x.depth > y.depth)
  {
    hide Finer;
  }

  // ---- applicableSpecsAtIndex, inheritSpecs ------------------------------

  predicate AppliesAt(spec: ReplaceSpec, index: nat) {
    !spec.isDefault &&
    (spec.inherited || spec.mode == All || (spec.mode == After && spec.pos < index) ||
     (spec.mode == Before && spec.pos > index))
  }

  function Applicable(specs: seq<ReplaceSpec>, index: nat): seq<ReplaceSpec> {
    if specs == [] then []
    else
      var n := |specs| - 1;
      Applicable(specs[..n], index) + (if AppliesAt(specs[n], index) then [specs[n]] else [])
  }

  method ApplicableSpecsAtIndex(specs: seq<ReplaceSpec>, index: nat) returns (out: seq<ReplaceSpec>)
    ensures out == Applicable(specs, index)
  {
    out := [];
    for i := 0 to |specs|
      invariant out == Applicable(specs[..i], index)
    {
      assert specs[..i + 1][..i] == specs[..i];
      var spec := specs[i];
      if spec.isDefault {
        continue;
      }
      if spec.inherited {
        out := out + [spec];
        continue;
      }
      match spec.mode {
        case All => out := out + [spec];
        case After => if spec.pos < index { out := out + [spec]; }
        case Before => if spec.pos > index { out := out + [spec]; }
      }
    }
    assert specs[..|specs|] == specs;
  }

  lemma {:induction false} ApplicableMembers(specs: seq<ReplaceSpec>, index: nat, s: ReplaceSpec)
    ensures s in Applicable(specs, index) <==> s in specs && AppliesAt(s, index)
    ensures s in Applicable(specs, index) <==>
            && s in specs && !s.isDefault
            && (!s.inherited && s.mode == After ==> s.pos < index)
            && (!s.inherited && s.mode == Before ==> index < s.pos)
  {
    if specs == [] {
    } else {
      ApplicableMembers(specs[..|specs| - 1], index, s);
      assert s in specs <==> s in specs[..|specs| - 1] || s == specs[|specs| - 1];
    }
  }

  function Inherit(specs: seq<ReplaceSpec>): seq<ReplaceSpec> {
    seq(|specs|, i requires 0 <= i < |specs| => specs[i].(inherited := true, mode := All))
  }
}
