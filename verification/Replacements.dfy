/** What a replacement is taken as, what it takes away, what it is emitted for, and which tags of a
    consumer it goes by. */
module Replacements {
  import opened Text
  import opened Tags
  import opened Bindings
  import opened Exports
  import opened Graph
  import opened Selection
  import opened Active
  import opened Rewriting
  import opened Replacing
  import opened NoDangling

  // ---- Which are accepted ------------------------------------------------

  /** The first export with a tag, if any, decides why a default is refused. */
  lemma {:induction false} TaggedExactly(exports: seq<ExportSpec>)
    ensures TaggedExport(exports).None? <==> forall e | e in exports :: !e.grouped && !e.named
    ensures forall i | 0 <= i < |exports| && (exports[i].grouped || exports[i].named) &&
              (forall j | 0 <= j < i :: !exports[j].grouped && !exports[j].named) ::
              TaggedExport(exports) == Some(if exports[i].grouped then GroupNotAllowed else NameNotAllowed)
  {
    if exports == [] {
    } else {
      TaggedExactly(exports[1..]);
      assert forall e :: e in exports <==> e == exports[0] || e in exports[1..];
      forall i | 0 <= i < |exports| && (exports[i].grouped || exports[i].named) &&
        (forall j | 0 <= j < i :: !exports[j].grouped && !exports[j].named)
        ensures TaggedExport(exports) == Some(if exports[i].grouped then GroupNotAllowed else NameNotAllowed)
      {
        if i > 0 {
          assert exports[1..][i - 1] == exports[i] && forall j | 0 <= j < i - 1 :: exports[1..][j] == exports[j + 1];
        }
      }
    }
  }

  /** A replacement or default is accepted exactly when its options are in order, without Decorator,
      Private, Public or tags before any As, a default also without tagged exports, and its report can be
      worked out; the spec then is what was declared, with that report. */
  lemma AcceptedExactly(n: Node, pos: nat, id: nat, depth: nat)
    requires n.Replace? || n.Default?
    ensures BuildSpec(n, pos, id, depth).Ok? <==>
            && Parse(n.opts).Ok?
            && (forall o | o in n.opts :: !o.Decorator? && !o.Private? && !o.Public?)
            && Parse(n.opts).value.pendingNames == [] && Parse(n.opts).value.pendingGroups == []
            && (n.Default? ==> forall e | e in Parse(n.opts).value.exports :: !e.grouped && !e.named)
            && ReportedBy(n.value, n.opts).Ok?
    ensures BuildSpec(n, pos, id, depth).Ok? ==>
              BuildSpec(n, pos, id, depth).value ==
              ReplaceSpec(ReportedBy(n.value, n.opts).value, n.value, n.opts, pos, id, depth,
                          if n.Replace? then n.mode else All, false, n.Default?)
  {
    if Parse(n.opts).Ok? {
      ParsedFlags(n.opts);
      TaggedExactly(Parse(n.opts).value.exports);
    }
    hide Parse, ProvideSpecOf, TaggedExport, EndsPrivate, ParamTagsIn;
  }

  // ---- What they take away -----------------------------------------------

  /** A provider loses its auto groups exactly when some spec in hand lists a form of what it reports. */
  lemma StripsExactly(value: Value, opts: seq<Opt>, specs: seq<ReplaceSpec>)
    ensures ShouldStrip(value, opts, specs) <==>
            ReportedBy(value, opts).Ok? && exists w | w in specs :: OffersAny(ReportedBy(value, opts).value, w)
  {
    if ReportedBy(value, opts).Ok? {
      var tags := ReportedBy(value, opts).value;
      forall w
        ensures OffersAny(tags, w) <==> BestScore(tags, w.tagSets) >= 0
      {
        FinerScores(tags, w, w);
      }
      hide BestScore, OffersAny, ReportedBy, Pick, Ranks;
      if w :| w in specs && OffersAny(tags, w) {
        var i :| 0 <= i < |specs| && specs[i] == w;
        assert BestScore(tags, specs[i].tagSets) >= 0;
      }
    }
  }

  /** What is left of its report then: what it declares, and its own type if that was kept without rules. */
  lemma StrippedExactly(opts: seq<Opt>, base: GoType, ts: TagSet)
    requires Parse(opts).Ok? && ProvideSpecOf(Parse(opts).value, Some(base)).Ok?
    ensures var cfg, r := Parse(opts).value, Parse(StripAutoGroups(opts));
            r.Ok? && ProvideSpecOf(r.value, Some(base)).Ok? &&
            (ts in ProvideSpecOf(r.value, Some(base)).value.tagSets <==>
             || Declares(cfg, base, ts)
             || (ts == TagSet("", "", base) && (forall e | e in cfg.exports :: e.grouped || e.named) &&
                 (cfg.flags.includeSelf || (cfg.exports == [] && cfg.pendingNames == [] && cfg.pendingGroups == []))))
  {
    ParseStripped(opts);
    StrippedReportsLess(opts, Some(base));
    hide Parse, StripAutoGroups;
    var cfg := Parse(opts).value;
    var bare := cfg.(autoGroups := []);
    var b := ProvideSpecOf(bare, Some(base)).value;
    ReportedExactly(bare, base, b, ts);
    assert RulesOf(bare) == [];
    hide ProvideSpecOf, Declared;
    assert Declares(bare, base, ts) <==> Declares(cfg, base, ts);
    assert forall r :: !InForce(bare, base, r);
  }

  // ---- What they are emitted for -----------------------------------------

  /** A replacement is emitted for what it offers itself and for every provided binding it lists a form
      of; a default for what it offers and for those among the provided ones that no spec lists. */
  lemma TargetsExactly(w: ReplaceSpec, items: seq<ProvideItem>, specs: seq<ReplaceSpec>, u: iset<TagSet>, ts: TagSet)
    requires Faithful(u) && Within(w.tagSets, u) && ItemsOk(items, u)
    ensures ts in Targets(w, items) <==> ts in w.tagSets || (ts in AllTags(items, [w]) && OffersAny([ts], w))
    ensures ts in DefaultTargets(w, items, specs) <==>
            ts in w.tagSets ||
            (ts in AllTags(items, specs) && OffersAny([ts], w) && forall v | v in specs :: !OffersAny([ts], v))
  {
    AllTagsWithin(items, [w], u);
    AllTagsWithin(items, specs, u);
    hide AllTags, ItemsOk, TagSetsForProvide;
    var all := Filtered(AllTags(items, specs), w.tagSets);
    ListedForms(ts, w);
    FilteredMember(AllTags(items, [w]), w.tagSets, ts);
    FilteredMember(AllTags(items, specs), w.tagSets, ts);
    UnreplacedExactly(all, specs, ts);
    forall x | x in all
      ensures x in u
    {
      FilteredMember(AllTags(items, specs), w.tagSets, x);
    }
    forall x | x in Filtered(AllTags(items, [w]), w.tagSets)
      ensures x in u
    {
      FilteredMember(AllTags(items, [w]), w.tagSets, x);
    }
    forall x | x in Unreplaced(all, specs)
      ensures x in u
    {
      UnreplacedMember(all, specs, x);
    }
    hide Filtered, Unreplaced, MatchesAny, OffersAny, Dedup, Faithful;
    DedupMember(Candidates(w, items), u, ts);
    DedupMember(Offered(w, items, specs), u, ts);
  }

  lemma ListedForms(ts: TagSet, w: ReplaceSpec)
    ensures MatchesAny(ts, w.tagSets) <==> OffersAny([ts], w)
  {
    MatchedBy(ts, w);
    FinerScores([ts], w, w);
  }

  lemma {:induction false} UnreplacedExactly(tags: seq<TagSet>, specs: seq<ReplaceSpec>, ts: TagSet)
    ensures ts in Unreplaced(tags, specs) <==> ts in tags && forall v | v in specs :: !OffersAny([ts], v)
  {
    hide OffersAny, Select;
    if tags == [] {
    } else {
      var n := |tags| - 1;
      UnreplacedExactly(tags[..n], specs, ts);
      NoneListed(tags[n], specs);
      assert ts in tags <==> ts in tags[..n] || ts == tags[n];
    }
  }

  lemma NoneListed(ts: TagSet, specs: seq<ReplaceSpec>)
    ensures Select([ts], specs).None? <==> forall v | v in specs :: !OffersAny([ts], v)
  {
    forall v
      ensures OffersAny([ts], v) <==> BestScore([ts], v.tagSets) >= 0
    {
      FinerScores([ts], v, v);
    }
    hide BestScore, OffersAny, Pick, Ranks;
    if Select([ts], specs).None? {
      forall v | v in specs
        ensures !OffersAny([ts], v)
      {
        var i :| 0 <= i < |specs| && specs[i] == v;
      }
    } else {
      var w := Select([ts], specs).value;
      assert w in specs && OffersAny([ts], w);
    }
  }

  /** No two targets share a key, and the first of each key comes in the place of all. */
  lemma {:induction false} DedupOrder(tags: seq<TagSet>)
    ensures forall i, j | 0 <= i < j < |Dedup(tags)| :: FullTagKey(Dedup(tags)[i]) != FullTagKey(Dedup(tags)[j])
    ensures forall t | t in Dedup(tags) :: t in tags
    ensures KeysOf(Dedup(tags)) == KeysOf(tags)
  {
    hide FullTagKey;
    if tags == [] {
    } else {
      var n := |tags| - 1;
      DedupOrder(tags[..n]);
      assert forall t :: t in tags <==> t in tags[..n] || t == tags[n];
      assert KeysOf(tags) == KeysOf(tags[..n]) + {FullTagKey(tags[n])};
      var front := Dedup(tags[..n]);
      forall i | 0 <= i < |front|
        ensures FullTagKey(front[i]) in KeysOf(tags[..n])
      {
        assert front[i] in front;
      }
    }
  }

  // ---- Which tags a consumer goes by -------------------------------------

  /** The i-th of the tags a rewriting starts from, where there is one. */
  function StartTag(n: Node, i: nat): string {
    var declared := match n
      case Bind(_, opts, _) => if Parse(opts).Ok? then ParamTagsIn(opts) else []
      case Invoke(_, tags, _) => tags
      case Populate(_, tags, _) => tags
      case _ => [];
    var tags := if !n.Invoke? && (n.Bind? || n.Populate?) &&
        n.tagsOverride.Some? then n.tagsOverride.value else declared;
    if i < |tags| then tags[i] else ""
  }

  /** Rewriting goes by the declared tags, or by those of an earlier rewriting except for an invoke; it
      fails only for a constructor whose options do, and redirects each parameter under its own key. */
  lemma RewrittenExactly(n: Node, active: map<string, TagSet>)
    requires n.Invoke? || (n.Bind? && n.value.Func?) || (n.Populate? && |n.targets| == 1)
    requires active != map[]
    ensures var params := if n.Invoke? then n.params else if n.Bind? then n.value.params else n.targets;
            && (RewriteNode(n, active).Err? <==> n.Bind? && params != [] && n.tagsOverride.None? && Parse(n.opts).Err?)
            && (RewriteNode(n, active).Ok? ==>
                  var out := RewriteNode(n, active).value;
                  var news := seq(|params|, i requires 0 <= i < |params| => RewriteOne(params[i],
                      StartTag(n, i), active));
                  if params == [] || forall i | 0 <= i < |params| :: news[i] == StartTag(n, i) then out == n
                  else out == n.(tagsOverride := Some(news)))
  {
    if n.Bind? && Parse(n.opts).Ok? {
      ParsedFlags(n.opts);
    }
    hide RewriteOne, Parse, ParamTagsIn, EndsPrivate;
    assert active.Keys != {};
    var params := ParamsOf(n);
    var tags := if n.Invoke? then DeclaredTags(n) else FinalTags(n);
    if params != [] && RewriteNode(n, active).Ok? {
      assert |tags| == |params|;
      assert forall i | 0 <= i < |params| :: tags[i] == StartTag(n, i);
      var news := seq(|params|, i requires 0 <= i < |params| => RewriteOne(params[i], StartTag(n, i), active));
      assert RewriteTags(params, tags, active) == news;
      assert news == tags <==> forall i | 0 <= i < |params| :: news[i] == StartTag(n, i);
    }
  }

  /** Nodes that ask for nothing of their own, and all nodes when nothing is redirected, stay as they are. */
  lemma LeftAlone(n: Node, active: map<string, TagSet>)
    requires active == map[] || (n.Bind? && !n.value.Func?) || (n.Populate? && |n.targets| != 1) ||
             !(n.Bind? || n.Invoke? || n.Populate?)
    ensures RewriteNode(n, active) == Ok(n)
  {
  }
}
