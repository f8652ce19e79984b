/** What a provider's options come to: each flag, each export and each report, from the options themselves. */
module Exports {
  import opened Text
  import opened Tags
  import opened Bindings

  // ---- Flags -------------------------------------------------------------

  /** Private stands somewhere and Public nowhere after it. */
  ghost predicate EndsPrivate(opts: seq<Opt>) {
    exists i :: 0 <= i < |opts| && opts[i].Private? && forall j | i < j < |opts| :: !opts[j].Public?
  }

  function ParamTagsIn(opts: seq<Opt>): seq<string> {
    if opts == [] then []
    else ParamTagsIn(opts[..|opts| - 1]) + (if opts[|opts| - 1].Params? then opts[|opts| - 1].paramTags else [])
  }

  /** Each flag says that its option is there; the last of Private and Public decides. */
  lemma {:induction false} ParsedFlags(opts: seq<Opt>)
    requires Parse(opts).Ok?
    ensures var f := Parse(opts).value.flags;
            && (f.includeSelf <==> exists o | o in opts :: o.Self?)
            && (f.ignoreAuto <==> exists o | o in opts :: o.AutoGroupIgnore?)
            && (f.decorated <==> exists o | o in opts :: o.Decorator?)
            && (f.privateSet <==> exists o | o in opts :: o.Private? || o.Public?)
            && (f.privateValue <==> EndsPrivate(opts))
            && (forall r :: r in f.ignores <==> AutoGroupIgnoreType(r) in opts)
            && f.paramTags == ParamTagsIn(opts)
  {
    if opts == [] {
    } else {
      var n := |opts| - 1;
      var front, last := opts[..n], opts[n];
      ParsedFlags(front);
      assert forall o :: o in opts <==> o in front || o == last;
      PrivateNext(opts);
      LastFlags(Parse(front).value, last);
    }
  }

  lemma PrivateNext(opts: seq<Opt>)
    requires opts != []
    ensures var n := |opts| - 1; EndsPrivate(opts) <==> opts[n].Private? || (EndsPrivate(opts[..n]) && !opts[n].Public?)
  {
    var n := |opts| - 1;
    var front := opts[..n];
    if EndsPrivate(front) && !opts[n].Public? {
      var i :| 0 <= i < n && front[i].Private? && forall j | i < j < n :: !front[j].Public?;
      assert opts[i] == front[i] && forall j | i < j < n :: opts[j] == front[j];
    }
    if EndsPrivate(opts) && !opts[n].Private? {
      var i :| 0 <= i < |opts| && opts[i].Private? && forall j | i < j < |opts| :: !opts[j].Public?;
      assert front[i] == opts[i] && forall j | i < j < n :: front[j] == opts[j];
    }
  }

  lemma LastFlags(cfg: BindConfig, opt: Opt)
    requires ApplyBind(cfg, opt).Ok?
    ensures var f, g := cfg.flags, ApplyBind(cfg, opt).value.flags;
            && g.includeSelf == (f.includeSelf || opt.Self?) && g.ignoreAuto == (f.ignoreAuto || opt.AutoGroupIgnore?)
            && g.decorated == (f.decorated || opt.Decorator?) &&
                 g.privateSet == (f.privateSet || opt.Private? || opt.Public?)
            && g.privateValue == (opt.Private? || (f.privateValue && !opt.Public?))
            && g.ignores == f.ignores + (if opt.AutoGroupIgnoreType? then [opt.rule] else [])
            && g.paramTags == f.paramTags + (if opt.Params? then opt.paramTags else [])
  {
    FlagsApplied(cfg, opt);
    hide ApplyBind;
  }

  lemma FlagsApplied(cfg: BindConfig, opt: Opt)
    requires ApplyBind(cfg, opt).Ok?
    ensures ApplyBind(cfg, opt).value.flags == ApplyFlag(cfg.flags, opt)
  {
    hide AsTags, AsExports, OverrideRule, WithLast;
  }

  // ---- Which options are refused -----------------------------------------

  /** The option at this place is refused: an empty name or group, an As tag without either, a ToGroup
      with no As before it, or something that is no bind option. */
  ghost predicate Refused(opts: seq<Opt>, i: nat)
    requires i < |opts|
  {
    match opts[i]
    case Name(n) => n == ""
    case Group(g) => g == ""
    case As(_, tags) => exists t | t in tags :: t != "" && ParseTagNameGroup(t) == ("", "")
    case ToGroup(_) => forall j | 0 <= j < i :: !opts[j].As?
    case Unsupported(_) => true
    case _ => false
  }

  /** What refusing it says. */
  function Refusal(opt: Opt): Reason {
    match opt
    case Name(_) => NameEmpty
    case Group(_) => GroupEmpty
    case As(_, _) => AsTagEmpty
    case ToGroup(_) => ToGroupWithoutAs
    case Unsupported(node) => if node then UnsupportedNode else UnsupportedOption
    case _ => UnsupportedOption
  }

  lemma {:induction false} AsTagsFail(tags: seq<string>)
    ensures AsTags(tags).Err? <==> exists t | t in tags :: t != "" && ParseTagNameGroup(t) == ("", "")
    ensures AsTags(tags).Err? ==> AsTags(tags) == Err(AsTagEmpty)
  {
    if tags == [] {
    } else {
      AsTagsFail(tags[1..]);
      assert forall t :: t in tags <==> t == tags[0] || t in tags[1..];
    }
  }

  /** Options are parsed exactly when none is refused, and the first refused one decides the error; there
      are exports exactly when there is an As. */
  lemma {:induction false} ParsedExactly(opts: seq<Opt>)
    ensures Parse(opts).Ok? <==> forall i | 0 <= i < |opts| :: !Refused(opts, i)
    ensures Parse(opts).Ok? ==> (Parse(opts).value.exports != [] <==> exists j :: 0 <= j < |opts| && opts[j].As?)
    ensures forall i | 0 <= i < |opts| && Refused(opts, i) && (forall j | 0 <= j < i :: !Refused(opts, j)) ::
              Parse(opts) == Err(Refusal(opts[i]))
  {
    hide *;
    if opts == [] {
      ParsedNothing();
    } else {
      var n := |opts| - 1;
      var front := opts[..n];
      ParsedExactly(front);
      RefusedFront(opts);
      if Parse(front).Ok? {
        LastRefused(opts);
      } else {
        ParseErr(opts);
      }
    }
  }

  lemma ParsedNothing()
    ensures Parse([]) == Ok(EMPTY_CONFIG) && EMPTY_CONFIG.exports == []
  {
  }

  lemma RefusedFront(opts: seq<Opt>)
    requires opts != []
    ensures forall i | 0 <= i < |opts| - 1 ::
              opts[..|opts| - 1][i] == opts[i] && (Refused(opts[..|opts| - 1], i) <==> Refused(opts, i))
  {
    var front := opts[..|opts| - 1];
    forall i | 0 <= i < |front|
      ensures front[i] == opts[i] && (Refused(front, i) <==> Refused(opts, i))
    {
      hide ParseTagNameGroup;
    }
  }

  lemma ParseErr(opts: seq<Opt>)
    requires opts != [] && Parse(opts[..|opts| - 1]).Err?
    ensures Parse(opts) == Parse(opts[..|opts| - 1])
  {
  }

  lemma LastRefused(opts: seq<Opt>)
    requires opts != [] && Parse(opts[..|opts| - 1]).Ok?
    requires var front := opts[..|opts| - 1];
             Parse(front).value.exports != [] <==> exists j :: 0 <= j < |front| && front[j].As?
    ensures var n := |opts| - 1; Parse(opts).Ok? <==> !Refused(opts, n)
    ensures Parse(opts).Err? ==> Parse(opts) == Err(Refusal(opts[|opts| - 1]))
    ensures Parse(opts).Ok? ==> (Parse(opts).value.exports != [] <==> exists j :: 0 <= j < |opts| && opts[j].As?)
  {
    var n := |opts| - 1;
    var cfg := Parse(opts[..n]).value;
    if opts[n].As? {
      AsTagsFail(opts[n].tags);
    }
    ParseLast(opts);
    hide Parse;
    ApplyFails(cfg, opts[n]);
    if ApplyBind(cfg, opts[n]).Ok? {
      AppliedExports(cfg, opts[n]);
    }
    hide ParseTagNameGroup, AsTags, ApplyBind;
    var front := opts[..n];
    assert forall j | 0 <= j < n :: front[j] == opts[j];
  }

  lemma ApplyFails(cfg: BindConfig, opt: Opt)
    ensures ApplyBind(cfg, opt).Err? <==>
            match opt
            case Name(n) => n == ""
            case Group(g) => g == ""
            case As(_, tags) => AsTags(tags).Err?
            case ToGroup(_) => cfg.exports == []
            case Unsupported(_) => true
            case _ => false
    ensures ApplyBind(cfg, opt).Err? ==>
              ApplyBind(cfg, opt) == if opt.As? then Err(AsTags(opt.tags).reason) else Err(Refusal(opt))
  {
    hide AsTags, OverrideRule, ApplyFlag, AsExports;
  }

  lemma ParseLast(opts: seq<Opt>)
    requires opts != [] && Parse(opts[..|opts| - 1]).Ok?
    ensures Parse(opts) == ApplyBind(Parse(opts[..|opts| - 1]).value, opts[|opts| - 1])
  {
  }

  lemma AppliedExports(cfg: BindConfig, opt: Opt)
    requires ApplyBind(cfg, opt).Ok?
    ensures ApplyBind(cfg, opt).value.exports != [] <==> cfg.exports != [] || opt.As?
  {
  }

  // ---- Declared exports --------------------------------------------------

  /** The names, or the groups, that the tags of an As list, in order. */
  function Listed(tags: seq<string>, key: string): seq<string> {
    if tags == [] then []
    else
      var v := ExtractTagValue(tags[0], key);
      (if v.Some? && v.value != "" then [v.value] else []) + Listed(tags[1..], key)
  }

  lemma {:induction false} AsLists(tags: seq<string>)
    requires AsTags(tags).Ok?
    ensures AsTags(tags).value == (Listed(tags, NAME), Listed(tags, GROUP))
  {
    if tags == [] {
    } else {
      AsLists(tags[1..]);
      hide ExtractTagValue;
    }
  }

  /** The last of these options, if any, names or groups the export before it. */
  predicate Retags(opt: Opt) {
    opt.Name? || opt.Group? || opt.ToGroup?
  }

  function RetaggedLast(e: ExportSpec, mods: seq<Opt>): ExportSpec {
    if mods == [] then e
    else
      var last := mods[|mods| - 1];
      if last.Name? then ExportSpec(e.typ, last.name, "", false, true)
      else if last.Group? then ExportSpec(e.typ, "", last.group, true, false)
      else if last.ToGroup? then ExportSpec(e.typ, "", last.group, true, false)
      else RetaggedLast(e, mods[..|mods| - 1])
  }

  /** What an As declares: an export of its type for each name and each group it lists, or an untagged
      one if it lists none; the last of them takes the last name or group given before the next As. */
  lemma {:induction false} ParsedAs(opts: seq<Opt>, typ: GoType, tags: seq<string>, mods: seq<Opt>)
    requires Parse(opts + [As(typ, tags)] + mods).Ok? && forall o | o in mods :: !o.As?
    ensures Parse(opts).Ok?
    ensures var own := AsOwn(typ, Listed(tags, NAME), Listed(tags, GROUP));
            Parse(opts + [As(typ, tags)] + mods).value.exports ==
            Parse(opts).value.exports + own[..|own| - 1] + [RetaggedLast(own[|own| - 1], mods)]
  {
    hide *;
    var all := opts + [As(typ, tags)] + mods;
    var own := AsOwn(typ, Listed(tags, NAME), Listed(tags, GROUP));
    if mods == [] {
      assert all == opts + [As(typ, tags)];
      AsAlone(opts, typ, tags);
      NoMods(own[|own| - 1]);
    } else {
      var n := |mods| - 1;
      var front := opts + [As(typ, tags)] + mods[..n];
      assert all == front + [mods[n]] && mods[n] in mods && forall o | o in mods[..n] :: o in mods;
      ParseOne(front, mods[n]);
      ParsedAs(opts, typ, tags, mods[..n]);
      var before := Parse(opts).value.exports + own[..|own| - 1];
      RetagStep(Parse(front).value, before, RetaggedLast(own[|own| - 1], mods[..n]), mods[n]);
      RetagNext(own[|own| - 1], mods);
    }
  }

  lemma AsAlone(opts: seq<Opt>, typ: GoType, tags: seq<string>)
    requires Parse(opts + [As(typ, tags)]).Ok?
    ensures Parse(opts).Ok?
    ensures var own := AsOwn(typ, Listed(tags, NAME), Listed(tags, GROUP));
            Parse(opts + [As(typ, tags)]).value.exports ==
            Parse(opts).value.exports + own[..|own| - 1] + [own[|own| - 1]]
  {
    ParseOne(opts, As(typ, tags));
    hide *;
    var cfg := Parse(opts).value;
    AsApplied(cfg, typ, tags);
    AsLists(tags);
    var names, groups := Listed(tags, NAME), Listed(tags, GROUP);
    AsOwnIs(typ, names, groups);
    var own := AsOwn(typ, names, groups);
    assert own == own[..|own| - 1] + [own[|own| - 1]];
    assert cfg.exports + own == cfg.exports + own[..|own| - 1] + [own[|own| - 1]];
  }

  lemma AsApplied(cfg: BindConfig, typ: GoType, tags: seq<string>)
    requires ApplyBind(cfg, As(typ, tags)).Ok?
    ensures AsTags(tags).Ok? && ApplyBind(cfg, As(typ, tags)).value.exports ==
                                cfg.exports + AsExports(typ, AsTags(tags).value.0, AsTags(tags).value.1)
  {
    hide AsTags, AsExports;
  }

  lemma NoMods(e: ExportSpec)
    ensures RetaggedLast(e, []) == e
  {
  }

  lemma RetagNext(e: ExportSpec, mods: seq<Opt>)
    requires mods != []
    ensures RetaggedLast(RetaggedLast(e, mods[..|mods| - 1]), [mods[|mods| - 1]]) == RetaggedLast(e, mods)
  {
    var last := mods[|mods| - 1];
    assert [last][..0] == [];
    RetaggedType(e, mods[..|mods| - 1]);
  }

  lemma {:induction false} RetaggedType(e: ExportSpec, mods: seq<Opt>)
    ensures RetaggedLast(e, mods).typ == e.typ
  {
    if mods == [] {
    } else {
      RetaggedType(e, mods[..|mods| - 1]);
    }
  }

  lemma RetagStep(cfg: BindConfig, before: seq<ExportSpec>, last: ExportSpec, opt: Opt)
    requires cfg.exports == before + [last] && ApplyBind(cfg, opt).Ok? && !opt.As?
    ensures ApplyBind(cfg, opt).value.exports == before + [RetaggedLast(last, [opt])]
  {
    assert [opt][..0] == [];
    assert cfg.exports[..|cfg.exports| - 1] == before;
  }

  function AsOwn(typ: GoType, names: seq<string>, groups: seq<string>): (own: seq<ExportSpec>)
    ensures own != []
  {
    if names == [] && groups == [] then [ExportSpec(typ, "", "", false, false)]
    else
      seq(|names| + |groups|, i requires 0 <= i < |names| + |groups| =>
        if i < |names| then ExportSpec(typ, names[i], "", false, true)
        else ExportSpec(typ, "", groups[i - |names|], true, false))
  }

  lemma AsOwnIs(typ: GoType, names: seq<string>, groups: seq<string>)
    ensures AsOwn(typ, names, groups) == AsExports(typ, names, groups)
  {
  }

  /** Names and groups given before any As wait for the provider's own type, in order. */
  lemma {:induction false} ParsedPending(opts: seq<Opt>)
    requires Parse(opts).Ok? && forall o | o in opts :: !o.As?
    ensures Parse(opts).value.exports == []
    ensures Parse(opts).value.pendingNames == Given(opts, true) && Parse(opts).value.pendingGroups == Given(opts, false)
  {
    if opts == [] {
    } else {
      var n := |opts| - 1;
      assert opts[n] in opts && forall o | o in opts[..n] :: o in opts;
      ParsedPending(opts[..n]);
      ParseLast(opts);
      hide Parse, OverrideRule, ApplyFlag;
    }
  }

  function Given(opts: seq<Opt>, names: bool): seq<string> {
    if opts == [] then []
    else
      var last := opts[|opts| - 1];
      Given(opts[..|opts| - 1], names) +
      (if names && last.Name? then [last.name] else if !names && last.Group? then [last.group] else [])
  }

  // ---- What is exported and what is reported -----------------------------

  /** The rule is in force for the provider: not ignored, its filter passed, its interface met. */
  ghost predicate InForce(cfg: BindConfig, base: GoType, r: Rule) {
    && r in cfg.autoGroups && !cfg.flags.ignoreAuto && r.iface.Some?
    && (forall i | i in cfg.flags.ignores && i.iface == r.iface :: i.group != "" && i.group != r.group)
    && (r.filter.Some? ==> r.filter.value(base))
    && r.iface.value.iface
    && (r.iface.value.id in base.implements || (!base.pointer && r.iface.value.id in base.ptrImplements))
  }

  lemma InForceApplies(cfg: BindConfig, base: GoType, r: Rule)
    ensures InForce(cfg, base, r) <==> r in RulesOf(cfg) && RuleApplies(cfg, base, r)
  {
    if i :| i in cfg.flags.ignores && i.iface == r.iface && (i.group == "" || i.group == r.group) {
      var k :| 0 <= k < |cfg.flags.ignores| && cfg.flags.ignores[k] == i;
    }
  }

  /** A declared export or a tag waiting for the provider's own type. */
  ghost predicate Declares(cfg: BindConfig, base: GoType, ts: TagSet) {
    || (exists n | n in cfg.pendingNames :: ts == TagSet(n, "", base))
    || (exists g | g in cfg.pendingGroups :: ts == TagSet("", g, base))
    || (exists e | e in cfg.exports :: ts == TagSet(if e.grouped then "" else if e.named then e.name else "",
                                                    if e.grouped then e.group else "", e.typ))
  }

  lemma DeclaresExactly(cfg: BindConfig, base: GoType, ts: TagSet)
    requires !(HasPending(cfg) && cfg.exports != [])
    ensures ts in TagSetsOf(Declared(cfg, base).exports) <==> Declares(cfg, base, ts)
  {
    var d := Declared(cfg, base).exports;
    var all := TagSetsOf(d);
    if ts in all {
      var i :| 0 <= i < |d| && all[i] == ts;
      if HasPending(cfg) {
        if i < |cfg.pendingNames| {
          assert cfg.pendingNames[i] in cfg.pendingNames && ts == TagSet(cfg.pendingNames[i], "", base);
        } else {
          var g := cfg.pendingGroups[i - |cfg.pendingNames|];
          assert g in cfg.pendingGroups && ts == TagSet("", g, base);
        }
      } else {
        assert cfg.exports[i] in cfg.exports;
      }
    }
    if n :| n in cfg.pendingNames && ts == TagSet(n, "", base) {
      var i :| 0 <= i < |cfg.pendingNames| && cfg.pendingNames[i] == n;
      assert all[i] == ts;
    }
    if g :| g in cfg.pendingGroups && ts == TagSet("", g, base) {
      var i :| 0 <= i < |cfg.pendingGroups| && cfg.pendingGroups[i] == g;
      assert all[|cfg.pendingNames| + i] == ts;
    }
    if e :| e in cfg.exports && ts == TagSetOf(e) {
      var i :| 0 <= i < |cfg.exports| && cfg.exports[i] == e;
      assert all[i] == ts;
    }
  }

  /** Rules add the grouped exports of those that apply, to the exports and to the report alike. */
  lemma {:induction false} RulesAdd(cfg: BindConfig, base: GoType, b: Built, rules: seq<Rule>, ts: TagSet)
    requires Reports(base, b)
    ensures var r := AddRules(cfg, base, b, rules);
            (ts in TagSetsOf(r.exports) <==> ts in TagSetsOf(b.exports) || AddedBy(cfg, base, rules, ts)) &&
            (ts in r.tagSets <==> ts in b.tagSets || AddedBy(cfg, base, rules, ts))
  {
    hide RuleApplies;
    if rules == [] {
    } else {
      var n := |rules| - 1;
      var front, last := rules[..n], rules[n];
      RulesAdd(cfg, base, b, front, ts);
      RulesKeepReports(cfg, base, b, front);
      assert forall r :: r in rules <==> r in front || r == last;
      assert AddedBy(cfg, base, rules, ts) <==>
             AddedBy(cfg, base, front, ts) ||
                 (RuleAdds(cfg, base, last) && ts == TagSet("", last.group, last.iface.value));
      RuleAdd(cfg, base, AddRules(cfg, base, b, front), last, ts);
      hide AddedBy, RuleAdds, Reports, AddRule;
    }
  }

  ghost predicate RuleAdds(cfg: BindConfig, base: GoType, r: Rule) {
    RuleApplies(cfg, base, r) && r.iface.Some?
  }

  ghost predicate AddedBy(cfg: BindConfig, base: GoType, rules: seq<Rule>, ts: TagSet) {
    exists r | r in rules :: RuleAdds(cfg, base, r) && ts == TagSet("", r.group, r.iface.value)
  }

  lemma {:induction false} RulesKeepReports(cfg: BindConfig, base: GoType, b: Built, rules: seq<Rule>)
    requires Reports(base, b)
    ensures Reports(base, AddRules(cfg, base, b, rules))
  {
    if rules == [] {
    } else {
      RulesKeepReports(cfg, base, b, rules[..|rules| - 1]);
      RuleKeepsReports(cfg, base, AddRules(cfg, base, b, rules[..|rules| - 1]), rules[|rules| - 1]);
    }
  }

  lemma RuleKeepsReports(cfg: BindConfig, base: GoType, b: Built, r: Rule)
    requires Reports(base, b)
    ensures Reports(base, AddRule(cfg, base, b, r))
  {
    hide RuleApplies;
    var c := AddRule(cfg, base, b, r);
    if c != b {
      assert TagSetsOf(c.exports) == TagSetsOf(b.exports) + [TagSetOf(c.exports[|b.exports|])];
      forall i | 0 <= i < |c.exports|
        ensures TagSetOf(c.exports[i]) in c.tagSets && !(c.exports[i].grouped && c.exports[i].named)
      {
        assert i < |b.exports| ==> c.exports[i] == b.exports[i];
      }
    }
  }

  lemma RuleAdd(cfg: BindConfig, base: GoType, b: Built, r: Rule, ts: TagSet)
    requires Reports(base, b)
    ensures var c, own := AddRule(cfg, base, b, r), RuleAdds(cfg, base, r) && ts == TagSet("", r.group, r.iface.value);
            (ts in TagSetsOf(c.exports) <==> ts in TagSetsOf(b.exports) || own) &&
                (ts in c.tagSets <==> ts in b.tagSets || own)
  {
    if RuleApplies(cfg, base, r) {
      var c := AddRule(cfg, base, b, r);
      if HasExport(b.exports, r.iface.value, r.group) {
        var i :| 0 <= i < |b.exports| && b.exports[i].grouped && b.exports[i].group == r.group &&
            b.exports[i].typ == r.iface.value;
        assert TagSetsOf(b.exports)[i] == TagSet("", r.group, r.iface.value);
      } else {
        assert TagSetsOf(c.exports) == TagSetsOf(b.exports) + [TagSet("", r.group, r.iface.value)];
      }
      hide RuleApplies;
    }
  }

  /** The provider keeps its own type: Self, or nothing declared, or a rule that adds its export asks so. */
  ghost predicate KeepsSelf(cfg: BindConfig, base: GoType) {
    || cfg.flags.includeSelf
    || (cfg.exports == [] && cfg.pendingNames == [] && cfg.pendingGroups == [])
    || AddsSelf(cfg, base, Declared(cfg, base).exports, RulesOf(cfg))
  }

  /** What a provider that builds puts into the container: what it declares, its type under the groups of
      the rules in force, and its own type if it keeps it; and nothing else. */
  lemma ExportedExactly(cfg: BindConfig, base: GoType, b: Built, outs: seq<TagSet>, ts: TagSet)
    requires ProvideSpecOf(cfg, Some(base)) == Ok(b) && Wrap(base, b) == Ok(outs)
    ensures ts in outs <==>
            || Declares(cfg, base, ts)
            || (exists r | InForce(cfg, base, r) :: ts == TagSet("", r.group, r.iface.value))
            || (ts == TagSet("", "", base) && KeepsSelf(cfg, base))
  {
    SpecParts(cfg, base, b, ts);
    BaseReported(cfg, base, b);
    hide *;
    WrapFields(base, b, outs, ts);
    SelfKept(cfg, base, b);
  }

  /** What is reported for it, built or not, is the same but for its own type beside an untagged As. */
  lemma ReportedExactly(cfg: BindConfig, base: GoType, b: Built, ts: TagSet)
    requires ProvideSpecOf(cfg, Some(base)) == Ok(b)
    ensures ts in b.tagSets <==>
            || Declares(cfg, base, ts)
            || (exists r | InForce(cfg, base, r) :: ts == TagSet("", r.group, r.iface.value))
            || (ts == TagSet("", "", base) && KeepsSelf(cfg, base) && forall e | e in cfg.exports ::
                e.grouped || e.named)
  {
    SpecParts(cfg, base, b, ts);
    SelfKept(cfg, base, b);
    DeclaresExactly(cfg, base, ts);
    DeclaredReport(cfg, base, ts);
    FinishedTags(cfg, base, b, ts);
    UntaggedAs(cfg.exports);
    hide *;
  }

  lemma UntaggedAs(exports: seq<ExportSpec>)
    ensures HasUntagged(exports) <==> !forall e | e in exports :: e.grouped || e.named
  {
    if e :| e in exports && !e.grouped && !e.named {
      var i :| 0 <= i < |exports| && exports[i] == e;
    }
  }

  lemma DeclaredReport(cfg: BindConfig, base: GoType, ts: TagSet)
    ensures ts in Declared(cfg, base).tagSets <==>
            ts in TagSetsOf(Declared(cfg, base).exports) ||
            (ts == TagSet("", "", base) &&
             ((cfg.flags.includeSelf && !HasUntagged(cfg.exports)) || Declared(cfg, base).exports == []))
  {
    assert cfg.exports == [] ==> !HasUntagged(cfg.exports);
    hide HasUntagged;
    var all := TagSetsOf(Declared(cfg, base).exports);
    assert ts in all + [Untagged(base)] <==> ts in all || ts == Untagged(base);
    assert Declared(cfg, base).exports == [] <==> all == [];
  }

  lemma FinishedTags(cfg: BindConfig, base: GoType, b: Built, ts: TagSet)
    requires ProvideSpecOf(cfg, Some(base)) == Ok(b)
    ensures var m := AddRules(cfg, base, Declared(cfg, base), RulesOf(cfg));
            ts in b.tagSets <==>
            ts in m.tagSets || (ts == TagSet("", "", base) && b.includeSelf && !HasUntagged(cfg.exports))
    ensures Declared(cfg, base).exports == [] ==> !HasUntagged(cfg.exports)
    ensures Declared(cfg, base).exports == [] ==> cfg.exports == [] && cfg.pendingNames == [] && cfg.pendingGroups == []
    ensures cfg.exports == [] && cfg.pendingNames == [] && cfg.pendingGroups == [] ==> Declared(cfg, base).exports == []
  {
    hide AddRules;
  }

  /** The base is kept by the flag, or because nothing was declared. */
  lemma SelfKept(cfg: BindConfig, base: GoType, b: Built)
    requires ProvideSpecOf(cfg, Some(base)) == Ok(b)
    ensures b.includeSelf || b.exports == [] <==> KeepsSelf(cfg, base)
    ensures b.exports == [] ==> Declared(cfg, base).exports == []
  {
    DeclaredReports(cfg, base);
    var d, rules := Declared(cfg, base), RulesOf(cfg);
    RulesReport(cfg, base, d, rules);
    if !NoExplicitExports(cfg) {
      RulesSelf(cfg, base, d, rules);
    }
    hide AddRules, AddsSelf, RuleApplies, TagSetsOf;
  }

  lemma WrapFields(base: GoType, b: Built, outs: seq<TagSet>, ts: TagSet)
    requires Wrap(base, b) == Ok(outs) && Reports(base, b)
    ensures ts in outs <==>
            ts in TagSetsOf(b.exports) || (ts == TagSet("", "", base) && (b.includeSelf || b.exports == []))
  {
    FieldsAreTagSets(b.exports);
    var fields := TagSetsOf(b.exports);
    assert fields == OutputFields(b.exports);
    if b.exports == [] && !b.includeSelf {
      assert outs == [Untagged(base)];
    } else if b.includeSelf {
      assert outs == [Untagged(base)] + fields;
    } else {
      assert outs == [] + fields == fields;
    }
    assert b.exports == [] ==> fields == [];
    hide OutputFields, TagSetsOf, Wrap;
  }

  lemma SpecParts(cfg: BindConfig, base: GoType, b: Built, ts: TagSet)
    requires ProvideSpecOf(cfg, Some(base)) == Ok(b)
    ensures ts in TagSetsOf(b.exports) <==>
            Declares(cfg, base, ts) || exists r | InForce(cfg, base, r) :: ts == TagSet("", r.group, r.iface.value)
    ensures ts in AddRules(cfg, base, Declared(cfg, base), RulesOf(cfg)).tagSets <==>
            ts in Declared(cfg, base).tagSets || exists r | InForce(cfg, base, r) ::
                ts == TagSet("", r.group, r.iface.value)
  {
    DeclaredReports(cfg, base);
    DeclaresExactly(cfg, base, ts);
    RulesAdd(cfg, base, Declared(cfg, base), RulesOf(cfg), ts);
    forall r
      ensures InForce(cfg, base, r) <==> r in RulesOf(cfg) && RuleApplies(cfg, base, r)
    {
      InForceApplies(cfg, base, r);
    }
    assert forall r | InForce(cfg, base, r) :: r.iface.Some?;
    hide InForce, RuleApplies, AddRules, Declared, TagSetsOf, Declares;
  }
}
