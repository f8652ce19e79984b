/** How a provider's options become its export list, what is reported for it, and what the wrapped
    provider really exports. */
module Bindings {
  import opened Text
  import opened Tags

  datatype ExportSpec = ExportSpec(typ: GoType, name: string, group: string, grouped: bool, named: bool)

  datatype Rule = Rule(iface: Option<GoType>, group: string, filter: Option<GoType -> bool>, asSelf: bool) {
    ghost predicate Plain() {
      filter.None? && !asSelf
    }
    predicate SameKey(other: Rule) {
      iface == other.iface && group == other.group
    }
  }

  /** A bind option. ToGroup and Self stand for the option bundles of the same name. */
  datatype Opt =
    | As(typ: GoType, tags: seq<string>)
    | Name(name: string)
    | Group(group: string)
    | ToGroup(group: string)
    | Self
    | Private
    | Public
    | AutoGroupIgnore
    | AutoGroup(rule: Rule)
    | AutoGroupIgnoreType(rule: Rule)
    | Params(paramTags: seq<string>)
    | Decorator
    | FxOption
    | Unsupported(node: bool)

  datatype Flags = Flags(
    includeSelf: bool,
    privateSet: bool,
    privateValue: bool,
    ignores: seq<Rule>,
    ignoreAuto: bool,
    paramTags: seq<string>,
    decorated: bool)

  datatype BindConfig = BindConfig(
    exports: seq<ExportSpec>,
    pendingNames: seq<string>,
    pendingGroups: seq<string>,
    autoGroups: seq<Rule>,
    flags: Flags)

  const EMPTY_CONFIG := BindConfig([], [], [], [], Flags(false, false, false, [], false, [], false))

  // ---- Options -----------------------------------------------------------

  function Named(typ: GoType, name: string): ExportSpec {
    ExportSpec(typ, name, "", false, true)
  }

  function Grouped(typ: GoType, group: string): ExportSpec {
    ExportSpec(typ, "", group, true, false)
  }

  /** The names and groups listed by the tags of one As. */
  function AsTags(tags: seq<string>): Result<(seq<string>, seq<string>)> {
    if tags == [] then Ok(([], []))
    else
      var (n, g) := ParseTagNameGroup(tags[0]);
      if tags[0] != "" && n == "" && g == "" then Err(AsTagEmpty)
      else
        var rest :- AsTags(tags[1..]);
        Ok(((if n != "" then [n] else []) + rest.0, (if g != "" then [g] else []) + rest.1))
  }

  function NamedAll(typ: GoType, names: seq<string>): seq<ExportSpec> {
    seq(|names|, i requires 0 <= i < |names| => Named(typ, names[i]))
  }

  function GroupedAll(typ: GoType, groups: seq<string>): seq<ExportSpec> {
    seq(|groups|, i requires 0 <= i < |groups| => Grouped(typ, groups[i]))
  }

  function AsExports(typ: GoType, names: seq<string>, groups: seq<string>): seq<ExportSpec> {
    if names == [] && groups == [] then [ExportSpec(typ, "", "", false, false)]
    else NamedAll(typ, names) + GroupedAll(typ, groups)
  }

  function WithLast(exports: seq<ExportSpec>, last: ExportSpec): seq<ExportSpec>
    requires exports != []
  {
    exports[..|exports| - 1] + [last]
  }

  /** The rule of an override merged into the first rule with its key, or appended. */
  function OverrideRule(rules: seq<Rule>, o: Rule): seq<Rule> {
    if rules == [] then [o]
    else if rules[0].SameKey(o) then
      [rules[0].(filter := if o.filter.Some? then o.filter else rules[0].filter,
                 asSelf := rules[0].asSelf || o.asSelf)] + rules[1..]
    else [rules[0]] + OverrideRule(rules[1..], o)
  }

  lemma OverrideAt(rules: seq<Rule>, o: Rule, i: nat)
    requires i < |rules|
    ensures rules[i].SameKey(o) ==>
              rules[..i] + OverrideRule(rules[i..], o) ==
              rules[i := rules[i].(filter := if o.filter.Some? then o.filter else rules[i].filter,
                                   asSelf := rules[i].asSelf || o.asSelf)]
    ensures !rules[i].SameKey(o) ==>
              rules[..i] + OverrideRule(rules[i..], o) == rules[..i + 1] + OverrideRule(rules[i + 1..], o)
  {
    var rule, tail := rules[i], rules[i + 1..];
    assert rules[i..][0] == rule && rules[i..][1..] == tail;
    if rule.SameKey(o) {
      var merged := rule.(filter := if o.filter.Some? then o.filter
                          else rule.filter, asSelf := rule.asSelf || o.asSelf);
      assert OverrideRule(rules[i..], o) == [merged] + tail;
      hide OverrideRule;
      assert rules[..i] + ([merged] + tail) == rules[i := merged];
    } else {
      assert OverrideRule(rules[i..], o) == [rule] + OverrideRule(tail, o);
      hide OverrideRule;
      assert rules[..i + 1] == rules[..i] + [rule];
      assert rules[..i] + ([rule] + OverrideRule(tail, o)) == (rules[..i] + [rule]) + OverrideRule(tail, o);
    }
  }

  /** applyAutoGroupRuleOverrides: the first rule of the key is overwritten in its place. */
  method ApplyAutoGroupRuleOverrides(rules: seq<Rule>, o: Rule) returns (out: seq<Rule>)
    ensures out == OverrideRule(rules, o)
    ensures forall i | 0 <= i < |rules| && rules[i].iface == o.iface && rules[i].group == o.group &&
              (forall j | 0 <= j < i :: rules[j].iface != o.iface || rules[j].group != o.group) ::
              out == rules[i := Rule(o.iface, o.group, if o.filter.Some? then o.filter else rules[i].filter,
                                     rules[i].asSelf || o.asSelf)]
    ensures (forall i | 0 <= i < |rules| :: rules[i].iface != o.iface || rules[i].group != o.group) ==>
              out == rules + [o]
  {
    out := rules;
    assert rules[0..] == rules && [] + OverrideRule(rules, o) == OverrideRule(rules, o);
    for i := 0 to |rules|
      invariant out == rules && OverrideRule(rules, o) == rules[..i] + OverrideRule(rules[i..], o)
      invariant forall j | 0 <= j < i :: rules[j].iface != o.iface || rules[j].group != o.group
    {
      var rule := rules[i];
      OverrideAt(rules, o, i);
      hide OverrideRule;
      if !rule.SameKey(o) {
        continue;
      }
      if o.filter.Some? {
        rule := rule.(filter := o.filter);
      }
      if o.asSelf {
        rule := rule.(asSelf := true);
      }
      return out[i := rule];
    }
    out := out + [o];
  }

  /** Options that only set flags or lists of their own. */
  function ApplyFlag(flags: Flags, opt: Opt): Flags {
    match opt
    case Self => flags.(includeSelf := true)
    case Private => flags.(privateSet := true, privateValue := true)
    case Public => flags.(privateSet := true, privateValue := false)
    case AutoGroupIgnore => flags.(ignoreAuto := true)
    case AutoGroupIgnoreType(rule) => flags.(ignores := flags.ignores + [rule])
    case Params(tags) => flags.(paramTags := flags.paramTags + tags)
    case Decorator => flags.(decorated := true)
    case _ => flags
  }

  function ApplyBind(cfg: BindConfig, opt: Opt): Result<BindConfig> {
    match opt
    case As(typ, tags) =>
      var (names, groups) :- AsTags(tags);
      Ok(cfg.(exports := cfg.exports + AsExports(typ, names, groups)))
    case Name(n) =>
      if n == "" then Err(NameEmpty)
      else if cfg.exports == [] then Ok(cfg.(pendingNames := cfg.pendingNames + [n]))
      else Ok(cfg.(exports := WithLast(cfg.exports, Named(cfg.exports[|cfg.exports| - 1].typ, n))))
    case Group(g) =>
      if g == "" then Err(GroupEmpty)
      else if cfg.exports == [] then Ok(cfg.(pendingGroups := cfg.pendingGroups + [g]))
      else Ok(cfg.(exports := WithLast(cfg.exports, Grouped(cfg.exports[|cfg.exports| - 1].typ, g))))
    case ToGroup(g) =>
      if cfg.exports == [] then Err(ToGroupWithoutAs)
      else Ok(cfg.(exports := WithLast(cfg.exports, Grouped(cfg.exports[|cfg.exports| - 1].typ, g))))
    case AutoGroup(rule) =>
      if rule.filter.Some? || rule.asSelf then Ok(cfg.(autoGroups := OverrideRule(cfg.autoGroups, rule)))
      else Ok(cfg.(autoGroups := cfg.autoGroups + [rule]))
    case Unsupported(node) => Err(if node then UnsupportedNode else UnsupportedOption)
    case _ => Ok(cfg.(flags := ApplyFlag(cfg.flags, opt)))
  }

  /** The configuration after all options, or the first error. */
  function Parse(opts: seq<Opt>): Result<BindConfig> {
    if opts == [] then Ok(EMPTY_CONFIG)
    else
      var cfg :- Parse(opts[..|opts| - 1]);
      ApplyBind(cfg, opts[|opts| - 1])
  }

  method ParseBindOptions(opts: seq<Opt>) returns (r: Result<BindConfig>)
    ensures r == Parse(opts)
  {
    var cfg := EMPTY_CONFIG;
    for i := 0 to |opts|
      invariant Parse(opts[..i]) == Ok(cfg)
    {
      assert opts[..i + 1][..i] == opts[..i];
      var next := ApplyBind(cfg, opts[i]);
      if next.Err? {
        ParseStops(opts, i + 1);
        return next;
      }
      cfg := next.value;
    }
    assert opts[..|opts|] == opts;
    r := Ok(cfg);
  }

  /** An error among the first k options is the result of the whole list. */
  lemma {:induction false} ParseStops(opts: seq<Opt>, k: nat)
    requires k <= |opts| && Parse(opts[..k]).Err?
    ensures Parse(opts) == Parse(opts[..k])
  {
    if k == |opts| {
      assert opts[..k] == opts;
    } else {
      assert opts[..|opts| - 1][..k] == opts[..k];
      ParseStops(opts[..|opts| - 1], k);
    }
  }

  // ---- What a provider exports -------------------------------------------

  datatype Built = Built(exports: seq<ExportSpec>, includeSelf: bool, tagSets: seq<TagSet>)

  function TagSetOf(exp: ExportSpec): TagSet {
    if exp.grouped then TagSet("", exp.group, exp.typ)
    else if exp.named then TagSet(exp.name, "", exp.typ)
    else TagSet("", "", exp.typ)
  }

  function Untagged(typ: GoType): TagSet {
    TagSet("", "", typ)
  }

  function TagSetsOf(exports: seq<ExportSpec>): seq<TagSet> {
    seq(|exports|, i requires 0 <= i < |exports| => TagSetOf(exports[i]))
  }

  predicate HasUntagged(exports: seq<ExportSpec>) {
    exists i :: 0 <= i < |exports| && !exports[i].grouped && !exports[i].named
  }

  predicate Implements(base: GoType, iface: GoType) {
    iface.iface && (iface.id in base.implements || (!base.pointer && iface.id in base.ptrImplements))
  }

  predicate IsAutoGroupIgnored(cfg: BindConfig, rule: Rule) {
    exists i :: 0 <= i < |cfg.flags.ignores| && cfg.flags.ignores[i].iface == rule.iface &&
      (cfg.flags.ignores[i].group == "" || cfg.flags.ignores[i].group == rule.group)
  }

  predicate HasExport(exports: seq<ExportSpec>, typ: GoType, group: string) {
    exists i :: 0 <= i < |exports| && exports[i].grouped && exports[i].group == group && exports[i].typ == typ
  }

  /** The exports that pending names and groups stand for. */
  function PendingExports(cfg: BindConfig, base: GoType): seq<ExportSpec> {
    NamedAll(base, cfg.pendingNames) + GroupedAll(base, cfg.pendingGroups)
  }

  predicate HasPending(cfg: BindConfig) {
    cfg.pendingNames != [] || cfg.pendingGroups != []
  }

  predicate NoExplicitExports(cfg: BindConfig) {
    cfg.exports == [] && !HasPending(cfg) && !cfg.flags.includeSelf
  }

  predicate ConflictingExport(exports: seq<ExportSpec>) {
    exists i :: 0 <= i < |exports| && exports[i].grouped && exports[i].named
  }

  /** The export list before auto-group rules. */
  function Declared(cfg: BindConfig, base: GoType): Built {
    var exports := if HasPending(cfg) then PendingExports(cfg, base) else cfg.exports;
    var tagSets := TagSetsOf(exports);
    var withSelf := if cfg.flags.includeSelf && !HasUntagged(cfg.exports) then tagSets + [Untagged(base)] else tagSets;
    Built(exports, cfg.flags.includeSelf, if withSelf == [] then [Untagged(base)] else withSelf)
  }

  predicate RuleApplies(cfg: BindConfig, base: GoType, rule: Rule) {
    && rule.iface.Some?
    && !IsAutoGroupIgnored(cfg, rule)
    && (rule.filter.None? || rule.filter.value(base))
    && Implements(base, rule.iface.value)
  }

  function AddRule(cfg: BindConfig, base: GoType, b: Built, rule: Rule): Built {
    if !RuleApplies(cfg, base, rule) || HasExport(b.exports, rule.iface.value, rule.group) then b
    else
      var exp := Grouped(rule.iface.value, rule.group);
      Built(b.exports + [exp], b.includeSelf || NoExplicitExports(cfg) || rule.asSelf, b.tagSets + [TagSetOf(exp)])
  }

  function AddRules(cfg: BindConfig, base: GoType, b: Built, rules: seq<Rule>): Built {
    if rules == [] then b
    else AddRule(cfg, base, AddRules(cfg, base, b, rules[..|rules| - 1]), rules[|rules| - 1])
  }

  function FinishSelf(cfg: BindConfig, base: GoType, b: Built): Built {
    if b.includeSelf && !HasUntagged(cfg.exports) && Untagged(base) !in b.tagSets
    then b.(tagSets := b.tagSets + [Untagged(base)])
    else b
  }

  /** The rules in force for a provider. */
  function RulesOf(cfg: BindConfig): seq<Rule> {
    if cfg.flags.ignoreAuto then [] else cfg.autoGroups
  }

  /** buildProvideSpec. base is None when the result type cannot be inferred. The source also drops
      all tag sets when nothing is declared yet an untagged export exists; that cannot happen, as
      an untagged export is a declared one. */
  function ProvideSpecOf(cfg: BindConfig, base: Option<GoType>): Result<Built> {
    if HasPending(cfg) && cfg.exports != [] then Err(TagsNeedSingleAs)
    else if ConflictingExport(cfg.exports) then Err(GroupedAndNamed)
    else if base.None? then
      if HasPending(cfg) || cfg.exports == [] || (cfg.flags.includeSelf && !HasUntagged(cfg.exports)) ||
         (cfg.autoGroups != [] && !cfg.flags.ignoreAuto)
      then Err(CannotInferType)
      else Ok(Built(cfg.exports, cfg.flags.includeSelf, TagSetsOf(cfg.exports)))
    else
      Ok(FinishSelf(cfg, base.value, AddRules(cfg, base.value, Declared(cfg, base.value), RulesOf(cfg))))
  }

  /** buildOutputSpecs: the fields of the wrapped provider's result. */
  function OutputsOf(base: GoType, exports: seq<ExportSpec>, includeSelf: bool): seq<TagSet> {
    if exports == [] && !includeSelf then [Untagged(base)]
    else (if includeSelf then [Untagged(base)] else []) + OutputFields(exports)
  }

  function OutputFields(exports: seq<ExportSpec>): seq<TagSet> {
    seq(|exports|, i requires 0 <= i < |exports| =>
      TagSet(if exports[i].named then exports[i].name else "",
             if exports[i].grouped then exports[i].group else "", exports[i].typ))
  }

  method BuildOutputSpecs(base: GoType, exports: seq<ExportSpec>, includeSelf: bool) returns (out: seq<TagSet>)
    ensures out == OutputsOf(base, exports, includeSelf)
  {
    if |exports| == 0 && !includeSelf {
      return [Untagged(base)];
    }
    out := [];
    if includeSelf {
      out := [Untagged(base)];
    }
    ghost var self := out;
    for i := 0 to |exports|
      invariant out == self + OutputFields(exports[..i])
    {
      var exp := exports[i];
      var spec := Untagged(exp.typ);
      if exp.named {
        spec := spec.(name := exp.name);
      }
      if exp.grouped {
        spec := spec.(group := exp.group);
      }
      assert OutputFields(exports[..i + 1]) == OutputFields(exports[..i]) + [spec];
      out := out + [spec];
    }
    assert exports[..|exports|] == exports;
  }

  predicate Assignable(from: GoType, to: GoType) {
    from == to || (to.iface && to.id in from.implements)
  }

  predicate ValidExport(base: GoType, exp: ExportSpec) {
    && (if exp.grouped then exp.group != "" && !exp.named else exp.group == "")
    && (exp.named ==> exp.name != "")
    && Assignable(base, exp.typ)
  }

  /** The bindings the built provider puts into the container, or a build error. */
  function Wrap(base: GoType, b: Built): Result<seq<TagSet>> {
    if (exists i :: 0 <= i < |b.exports| && !ValidExport(base, b.exports[i])) then Err(InvalidExport)
    else Ok(OutputsOf(base, b.exports, b.includeSelf))
  }

  // ---- The loops of buildProvideSpec -------------------------------------

  method CollectTagSets(exports: seq<ExportSpec>) returns (tagSets: seq<TagSet>, untagged: bool)
    ensures tagSets == TagSetsOf(exports)
    ensures untagged == HasUntagged(exports)
  {
    tagSets, untagged := [], false;
    for i := 0 to |exports|
      invariant tagSets == TagSetsOf(exports[..i])
      invariant untagged == HasUntagged(exports[..i])
    {
      var exp := exports[i];
      assert exports[..i + 1][..i] == exports[..i];
      assert TagSetsOf(exports[..i + 1]) == TagSetsOf(exports[..i]) + [TagSetOf(exp)];
      if exp.grouped {
        tagSets := tagSets + [TagSet("", exp.group, exp.typ)];
      } else if exp.named {
        tagSets := tagSets + [TagSet(exp.name, "", exp.typ)];
      } else {
        tagSets := tagSets + [TagSet("", "", exp.typ)];
        untagged := true;
        assert exports[..i + 1][i] == exp;
      }
      assert untagged ==> HasUntagged(exports[..i + 1]) by {
        if HasUntagged(exports[..i]) {
          var k :| 0 <= k < i && !exports[..i][k].grouped && !exports[..i][k].named;
          assert exports[..i + 1][k] == exports[..i][k];
        }
      }
    }
    assert exports[..|exports|] == exports;
  }

  method BuildProvideSpec(cfg: BindConfig, base: Option<GoType>) returns (r: Result<Built>)
    ensures r == ProvideSpecOf(cfg, base)
    ensures r == Err(TagsNeedSingleAs) <==> (cfg.pendingNames != [] || cfg.pendingGroups != []) && cfg.exports != []
    ensures r == Err(GroupedAndNamed) <==>
              && !((cfg.pendingNames != [] || cfg.pendingGroups != []) && cfg.exports != [])
              && exists i | 0 <= i < |cfg.exports| :: cfg.exports[i].grouped && cfg.exports[i].named
    ensures r == Err(CannotInferType) <==>
              && base.None?
              && !((cfg.pendingNames != [] || cfg.pendingGroups != []) && cfg.exports != [])
              && (forall i | 0 <= i < |cfg.exports| :: !(cfg.exports[i].grouped && cfg.exports[i].named))
              && (cfg.exports == [] || (cfg.autoGroups != [] && !cfg.flags.ignoreAuto) ||
                  (cfg.flags.includeSelf && forall i | 0 <= i < |cfg.exports| ::
                   cfg.exports[i].grouped || cfg.exports[i].named))
  {
    if HasPending(cfg) && cfg.exports != [] {
      return Err(TagsNeedSingleAs);
    }
    if ConflictingExport(cfg.exports) {
      return Err(GroupedAndNamed);
    }
    var exports, tagSets := cfg.exports, [];
    var hasUntagged := false;
    if HasPending(cfg) {
      if base.None? {
        return Err(CannotInferType);
      }
      exports := PendingExports(cfg, base.value);
      tagSets, hasUntagged := CollectTagSets(exports);
      hasUntagged := false;
    } else {
      tagSets, hasUntagged := CollectTagSets(exports);
    }
    var includeSelf := cfg.flags.includeSelf;
    if cfg.flags.includeSelf && !hasUntagged {
      if base.None? {
        return Err(CannotInferType);
      }
      tagSets := tagSets + [Untagged(base.value)];
    }
    if tagSets == [] {
      if base.None? {
        return Err(CannotInferType);
      }
      tagSets := [Untagged(base.value)];
    }
    if cfg.autoGroups != [] && !cfg.flags.ignoreAuto {
      if base.None? {
        return Err(CannotInferType);
      }
      ghost var declared := Declared(cfg, base.value);
      assert Built(exports, includeSelf, tagSets) == declared;
      for i := 0 to |cfg.autoGroups|
        invariant Built(exports, includeSelf, tagSets) == AddRules(cfg, base.value, declared, cfg.autoGroups[..i])
      {
        assert cfg.autoGroups[..i + 1][..i] == cfg.autoGroups[..i];
        var rule := cfg.autoGroups[i];
        if RuleApplies(cfg, base.value, rule) && !HasExport(exports, rule.iface.value, rule.group) {
          if NoExplicitExports(cfg) {
            includeSelf := true;
          }
          exports := exports + [Grouped(rule.iface.value, rule.group)];
          tagSets := tagSets + [TagSet("", rule.group, rule.iface.value)];
          if rule.asSelf {
            includeSelf := true;
          }
        }
      }
      assert cfg.autoGroups[..|cfg.autoGroups|] == cfg.autoGroups;
    }
    if includeSelf && !hasUntagged && Untagged(base.value) !in tagSets {
      tagSets := tagSets + [Untagged(base.value)];
    }
    r := Ok(Built(exports, includeSelf, tagSets));
  }

  // ---- Reported against exported -----------------------------------------

  /** Every reported tag set but the base itself stands for an export, and every export is reported. */
  ghost predicate Reports(base: GoType, b: Built) {
    && (forall ts | ts in b.tagSets && ts != Untagged(base) :: ts in TagSetsOf(b.exports))
    && (forall i | 0 <= i < |b.exports| ::
          TagSetOf(b.exports[i]) in b.tagSets && !(b.exports[i].grouped && b.exports[i].named))
  }

  lemma DeclaredReports(cfg: BindConfig, base: GoType)
    requires !ConflictingExport(cfg.exports) && !(HasPending(cfg) && cfg.exports != [])
    ensures Reports(base, Declared(cfg, base))
    ensures var b := Declared(cfg, base);
            Untagged(base) in b.tagSets ==> Untagged(base) in TagSetsOf(b.exports) || b.includeSelf || b.exports == []
    ensures Declared(cfg, base).exports == [] ==> NoExplicitExports(cfg) || cfg.flags.includeSelf
  {
    var b := Declared(cfg, base);
    forall i | 0 <= i < |b.exports|
      ensures TagSetOf(b.exports[i]) in b.tagSets && !(b.exports[i].grouped && b.exports[i].named)
    {
      assert TagSetsOf(b.exports)[i] == TagSetOf(b.exports[i]);
      assert b.tagSets[i] == TagSetsOf(b.exports)[i];
    }
  }

  /** Rules keep the report faithful, and a bare provider that gains an export keeps its own type. */
  lemma {:induction false} RulesReport(cfg: BindConfig, base: GoType, b: Built, rules: seq<Rule>)
    requires Reports(base, b)
    requires b.exports == [] ==> NoExplicitExports(cfg) || b.includeSelf
    ensures var b' := AddRules(cfg, base, b, rules);
            Reports(base, b') && (b.includeSelf ==> b'.includeSelf) && b.exports <= b'.exports &&
            b.tagSets <= b'.tagSets && (b.exports == [] ==> b'.exports == [] || b'.includeSelf)
  {
    if rules == [] {
    } else {
      RulesReport(cfg, base, b, rules[..|rules| - 1]);
      var m := AddRules(cfg, base, b, rules[..|rules| - 1]);
      var n := AddRule(cfg, base, m, rules[|rules| - 1]);
      if n != m {
        assert TagSetsOf(n.exports) == TagSetsOf(m.exports) + [TagSetOf(n.exports[|m.exports|])];
        forall i | 0 <= i < |n.exports|
          ensures TagSetOf(n.exports[i]) in n.tagSets && !(n.exports[i].grouped && n.exports[i].named)
        {
          assert i < |m.exports| ==> n.exports[i] == m.exports[i];
        }
      }
    }
  }

  lemma FieldsAreTagSets(exports: seq<ExportSpec>)
    requires !ConflictingExport(exports)
    ensures OutputFields(exports) == TagSetsOf(exports)
  {
  }

  /** The tag sets rules add are those of the rules, all grouped. */
  lemma {:induction false} AddedByRules(cfg: BindConfig, base: GoType, b: Built, rules: seq<Rule>, ts: TagSet)
    requires ts in AddRules(cfg, base, b, rules).tagSets && ts !in b.tagSets
    ensures exists e | e in AddRules(cfg, base, b, rules).exports :: e.grouped && ts == TagSet("", e.group, e.typ)
  {
    var m := AddRules(cfg, base, b, rules[..|rules| - 1]);
    var n := AddRules(cfg, base, b, rules);
    if ts in m.tagSets {
      AddedByRules(cfg, base, b, rules[..|rules| - 1], ts);
      var e :| e in m.exports && e.grouped && ts == TagSet("", e.group, e.typ);
      assert e in n.exports;
    } else {
      var e := n.exports[|n.exports| - 1];
      assert e in n.exports && e.grouped && ts == TagSet("", e.group, e.typ);
    }
  }

  lemma ExportsReported(base: GoType, b: Built)
    requires Reports(base, b)
    ensures forall ts | ts in TagSetsOf(b.exports) :: ts in b.tagSets
  {
    forall ts | ts in TagSetsOf(b.exports)
      ensures ts in b.tagSets
    {
      var i :| 0 <= i < |b.exports| && TagSetsOf(b.exports)[i] == ts;
      assert TagSetOf(b.exports[i]) in b.tagSets;
    }
  }

  lemma GroupsNamed(base: GoType, b: Built)
    requires Wrap(base, b).Ok?
    ensures forall e | e in b.exports && e.grouped :: e.group != ""
  {
    forall e | e in b.exports && e.grouped
      ensures e.group != ""
    {
      var i :| 0 <= i < |b.exports| && b.exports[i] == e;
      assert ValidExport(base, b.exports[i]);
    }
  }

  /** What the built report says beyond Reports: the base is in it exactly when it is declared, or
      kept by Self when no untagged As hides it. */
  lemma BaseReported(cfg: BindConfig, base: GoType, b: Built)
    requires ProvideSpecOf(cfg, Some(base)) == Ok(b) && Wrap(base, b).Ok?
    ensures Reports(base, b) && (b.exports == [] ==> b.includeSelf || b.tagSets == [Untagged(base)])
    ensures b.includeSelf && !HasUntagged(cfg.exports) ==> Untagged(base) in b.tagSets
    ensures !b.includeSelf && b.exports != [] && Untagged(base) in b.tagSets ==> Untagged(base) in TagSetsOf(b.exports)
    ensures HasUntagged(cfg.exports) && Untagged(base) in b.tagSets ==> Untagged(base) in TagSetsOf(cfg.exports)
    ensures HasUntagged(cfg.exports) ==> cfg.exports <= b.exports
  {
    DeclaredReports(cfg, base);
    var d := Declared(cfg, base);
    var rules := RulesOf(cfg);
    RulesReport(cfg, base, d, rules);
    var m := AddRules(cfg, base, d, rules);
    GroupsNamed(base, b);
    hide AddRules, Wrap;
    if Untagged(base) in m.tagSets && Untagged(base) !in d.tagSets {
      AddedByRules(cfg, base, d, rules, Untagged(base));
    }
    if d.exports == [] && m.exports == [] {
      NoNewTags(cfg, base, d, rules);
    }
    BaseDeclared(cfg, base, m);
  }

  lemma BaseDeclared(cfg: BindConfig, base: GoType, m: Built)
    requires Declared(cfg, base).exports <= m.exports
    ensures TagSetsOf(Declared(cfg, base).exports) <= TagSetsOf(m.exports)
    ensures HasUntagged(cfg.exports) && !HasPending(cfg) ==> Declared(cfg, base).tagSets == TagSetsOf(cfg.exports)
  {
    var d := Declared(cfg, base);
    assert TagSetsOf(m.exports)[..|d.exports|] == TagSetsOf(d.exports);
  }

  lemma {:induction false} NoNewTags(cfg: BindConfig, base: GoType, b: Built, rules: seq<Rule>)
    requires AddRules(cfg, base, b, rules).exports == b.exports
    requires Reports(base, b) && (b.exports == [] ==> NoExplicitExports(cfg) || b.includeSelf)
    ensures AddRules(cfg, base, b, rules) == b
  {
    if rules == [] {
    } else {
      RulesReport(cfg, base, b, rules[..|rules| - 1]);
      NoNewTags(cfg, base, b, rules[..|rules| - 1]);
    }
  }

  /** Every reported tag set of a provider that builds is really exported by it. */
  lemma ReportedIsExported(cfg: BindConfig, base: GoType, b: Built, outs: seq<TagSet>)
    requires ProvideSpecOf(cfg, Some(base)) == Ok(b) && Wrap(base, b) == Ok(outs)
    ensures forall ts | ts in b.tagSets :: ts in outs
  {
    BaseReported(cfg, base, b);
    FieldsAreTagSets(b.exports);
  }

  /** The rule at position i is the first of its key that applies, and no export of its key is declared:
      it is the one that adds the export. */
  predicate Adds(cfg: BindConfig, base: GoType, exports: seq<ExportSpec>, rules: seq<Rule>, i: nat) {
    && i < |rules| && RuleApplies(cfg, base, rules[i]) && !HasExport(exports, rules[i].iface.value, rules[i].group)
    && forall j | 0 <= j < i && rules[j].SameKey(rules[i]) :: !RuleApplies(cfg, base, rules[j])
  }

  predicate AddsSelf(cfg: BindConfig, base: GoType, exports: seq<ExportSpec>, rules: seq<Rule>) {
    exists i :: 0 <= i < |rules| && Adds(cfg, base, exports, rules, i) && rules[i].asSelf
  }

  /** What the rules leave exported under a key: what was, and what an applying rule of that key adds. */
  lemma {:induction false} KeysAdded(cfg: BindConfig, base: GoType, b: Built, rules: seq<Rule>, iface: GoType,
                                     group: string)
    ensures HasExport(AddRules(cfg, base, b, rules).exports, iface, group) <==>
            HasExport(b.exports, iface, group) ||
            exists j :: 0 <= j < |rules| && RuleApplies(cfg, base, rules[j]) && rules[j].iface == Some(iface) &&
                rules[j].group == group
  {
    if rules == [] {
    } else {
      var n := |rules| - 1;
      KeysAdded(cfg, base, b, rules[..n], iface, group);
      var m, k := AddRules(cfg, base, b, rules[..n]).exports, AddRules(cfg, base, b, rules).exports;
      assert forall j | 0 <= j < n :: rules[..n][j] == rules[j];
      hide RuleApplies;
      if k != m {
        assert k[|m|] == Grouped(rules[n].iface.value, rules[n].group) && forall i | 0 <= i < |m| :: k[i] == m[i];
      }
    }
  }

  /** Rules turn the self flag on exactly by adding the export of a rule that asks for it. */
  lemma {:induction false} RulesSelf(cfg: BindConfig, base: GoType, b: Built, rules: seq<Rule>)
    requires !NoExplicitExports(cfg)
    ensures AddRules(cfg, base, b, rules).includeSelf <==> b.includeSelf || AddsSelf(cfg, base, b.exports, rules)
  {
    if rules == [] {
    } else {
      var n := |rules| - 1;
      hide RuleApplies, AddRules, Adds, AddsSelf;
      RulesSelf(cfg, base, b, rules[..n]);
      LastAdds(cfg, base, b, rules);
      FrontAdds(cfg, base, b.exports, rules);
    }
  }

  lemma FrontAdds(cfg: BindConfig, base: GoType, exports: seq<ExportSpec>, rules: seq<Rule>)
    requires rules != []
    ensures var n := |rules| - 1;
            AddsSelf(cfg, base, exports, rules) <==>
            AddsSelf(cfg, base, exports, rules[..n]) || (Adds(cfg, base, exports, rules, n) && rules[n].asSelf)
  {
    var n := |rules| - 1;
    var front := rules[..n];
    forall i: nat | i < n
      ensures front[i] == rules[i] && (Adds(cfg, base, exports, front, i) <==> Adds(cfg, base, exports, rules, i))
    {
      assert forall j | 0 <= j <= i :: front[j] == rules[j];
      hide RuleApplies, HasExport;
    }
    hide Adds;
    if i :| 0 <= i < n && Adds(cfg, base, exports, rules, i) && rules[i].asSelf {
      assert Adds(cfg, base, exports, front, i) && front[i].asSelf;
    }
    if i :| 0 <= i < n && Adds(cfg, base, exports, front, i) && front[i].asSelf {
      assert Adds(cfg, base, exports, rules, i) && rules[i].asSelf;
    }
  }

  lemma LastAdds(cfg: BindConfig, base: GoType, b: Built, rules: seq<Rule>)
    requires rules != [] && !NoExplicitExports(cfg)
    ensures var n, m := |rules| - 1, AddRules(cfg, base, b, rules[..|rules| - 1]);
            AddRules(cfg, base, b, rules).includeSelf <==>
                m.includeSelf || (Adds(cfg, base, b.exports, rules, n) && rules[n].asSelf)
  {
    var n := |rules| - 1;
    var m := AddRules(cfg, base, b, rules[..n]);
    if RuleApplies(cfg, base, rules[n]) {
      KeysAdded(cfg, base, b, rules[..n], rules[n].iface.value, rules[n].group);
      hide RuleApplies, HasExport;
      assert forall j | 0 <= j < n :: rules[..n][j] == rules[j];
    }
  }

  /** Self is asked for, or a rule that asks for it adds its export. */
  predicate SelfInForce(cfg: BindConfig, base: GoType) {
    cfg.flags.includeSelf || AddsSelf(cfg, base, cfg.exports, RulesOf(cfg))
  }

  /** Conversely every exported binding is reported, unless an untagged As combined with Self leaves
      the base exported but unreported: it is reported if and only if that does not happen. */
  lemma ExportedIsReported(cfg: BindConfig, base: GoType, b: Built, outs: seq<TagSet>)
    requires ProvideSpecOf(cfg, Some(base)) == Ok(b) && Wrap(base, b) == Ok(outs)
    ensures (forall ts | ts in outs :: ts in b.tagSets) <==>
            (HasUntagged(cfg.exports) && SelfInForce(cfg, base) ==> Untagged(base) in TagSetsOf(cfg.exports))
  {
    BaseReported(cfg, base, b);
    if HasUntagged(cfg.exports) {
      RulesSelf(cfg, base, Declared(cfg, base), RulesOf(cfg));
      assert Declared(cfg, base).exports == cfg.exports;
      assert b.includeSelf <==> SelfInForce(cfg, base);
    }
    hide SelfInForce, AddRules, ProvideSpecOf, Declared;
    FieldsAreTagSets(b.exports);
    ExportsReported(base, b);
    if HasUntagged(cfg.exports) {
      assert forall i | 0 <= i < |cfg.exports| :: TagSetsOf(b.exports)[i] == TagSetsOf(cfg.exports)[i];
      assert forall ts | ts in TagSetsOf(cfg.exports) :: ts in TagSetsOf(b.exports);
    }
    if b.includeSelf {
      assert outs[0] == Untagged(base);
    }
  }

  /** It does happen: a type provided under an interface, and as itself, reports the interface alone. */
  lemma AsSelfUnreported(base: GoType, iface: GoType)
    requires base != iface && Assignable(base, iface)
    ensures var cfg := Parse([As(iface, []), Self]);
            cfg.Ok? && var b := ProvideSpecOf(cfg.value, Some(base));
            b.Ok? && Wrap(base, b.value).Ok? && Untagged(base) in Wrap(base, b.value).value &&
                b.value.tagSets == [Untagged(iface)]
  {
    assert [As(iface, []), Self][..1] == [As(iface, [])] && [As(iface, [])][..0] == [];
    var e := ExportSpec(iface, "", "", false, false);
    assert AsTags([]) == Ok(([], [])) && EMPTY_CONFIG.exports + [e] == [e];
    assert Parse([]) == Ok(EMPTY_CONFIG);
    assert ApplyBind(EMPTY_CONFIG, As(iface, [])) == Ok(EMPTY_CONFIG.(exports := [e]));
    ParseOne([], As(iface, []));
    assert [] + [As(iface, [])] == [As(iface, [])];
    var cfg := Parse([As(iface, []), Self]).value;
    assert cfg.exports[0] == e;
    assert TagSetsOf([e]) == [Untagged(iface)];
    var outs := Wrap(base, ProvideSpecOf(cfg, Some(base)).value).value;
    assert outs[0] == Untagged(base);
  }

  // ---- Which providers build ---------------------------------------------

  ghost predicate AllValid(base: GoType, exports: seq<ExportSpec>) {
    forall e | e in exports :: ValidExport(base, e)
  }

  /** An export of the rule's key would be valid. */
  predicate RuleFits(base: GoType, rule: Rule) {
    rule.iface.Some? && rule.group != "" && Assignable(base, rule.iface.value)
  }

  /** A rule that adds an export: it applies, and none of its key is declared. */
  predicate Joins(cfg: BindConfig, base: GoType, exports: seq<ExportSpec>, rule: Rule) {
    RuleApplies(cfg, base, rule) && !HasExport(exports, rule.iface.value, rule.group)
  }

  lemma {:induction false} RulesValid(cfg: BindConfig, base: GoType, b: Built, rules: seq<Rule>)
    ensures AllValid(base, AddRules(cfg, base, b, rules).exports) <==>
            AllValid(base, b.exports) && forall r | r in rules && Joins(cfg, base, b.exports, r) :: RuleFits(base, r)
  {
    if rules == [] {
    } else {
      var n := |rules| - 1;
      var front, last := rules[..n], rules[n];
      RulesValid(cfg, base, b, front);
      var m, k := AddRules(cfg, base, b, front), AddRules(cfg, base, b, rules);
      assert forall r :: r in rules <==> r in front || r == last;
      if RuleApplies(cfg, base, last) {
        KeysAdded(cfg, base, b, front, last.iface.value, last.group);
        LastValid(cfg, base, m, last);
      }
      hide RuleApplies, AllValid, RuleFits, HasExport;
    }
  }

  lemma LastValid(cfg: BindConfig, base: GoType, m: Built, last: Rule)
    requires RuleApplies(cfg, base, last)
    ensures var k := AddRule(cfg, base, m, last);
            (AllValid(base, k.exports) <==>
             && AllValid(base, m.exports)
             && (HasExport(m.exports, last.iface.value, last.group) || RuleFits(base, last))) &&
            (AllValid(base, m.exports) && HasExport(m.exports, last.iface.value, last.group) ==> RuleFits(base, last))
  {
    var k := AddRule(cfg, base, m, last);
    assert last.iface.Some?;
    hide RuleApplies;
    if HasExport(m.exports, last.iface.value, last.group) {
      var i :| 0 <= i < |m.exports| && m.exports[i].grouped && m.exports[i].group == last.group &&
          m.exports[i].typ == last.iface.value;
      assert m.exports[i] in m.exports;
    } else {
      var e := Grouped(last.iface.value, last.group);
      assert k.exports == m.exports + [e];
      assert e in k.exports && (ValidExport(base, e) <==> RuleFits(base, last));
      assert forall x :: x in k.exports <==> x in m.exports || x == e;
      hide ValidExport, RuleFits;
    }
  }

  /** A provider builds if and only if every export it declares is valid, and every rule that adds an
      export names a group and an interface the type itself is assignable to. */
  lemma BuildsExactly(cfg: BindConfig, base: GoType)
    requires ProvideSpecOf(cfg, Some(base)).Ok?
    ensures var d := Declared(cfg, base).exports;
            Wrap(base, ProvideSpecOf(cfg, Some(base)).value).Ok? <==>
            AllValid(base, d) && forall r | r in RulesOf(cfg) && Joins(cfg, base, d, r) :: RuleFits(base, r)
  {
    RulesValid(cfg, base, Declared(cfg, base), RulesOf(cfg));
    var b := ProvideSpecOf(cfg, Some(base)).value;
    hide ValidExport, Joins, RuleFits, AddRules, Declared;
    assert forall e :: e in b.exports <==> exists i :: 0 <= i < |b.exports| && b.exports[i] == e;
  }

  // ---- Auto-group rules --------------------------------------------------

  /** A rule already applied changes nothing when applied again, now or later. */
  lemma {:induction false} RuleSettled(cfg: BindConfig, base: GoType, b: Built, rules: seq<Rule>, r: Rule)
    requires r in rules
    ensures var b' := AddRules(cfg, base, b, rules);
            RuleApplies(cfg, base, r) ==> HasExport(b'.exports, r.iface.value, r.group)
  {
    var front, last := rules[..|rules| - 1], rules[|rules| - 1];
    var m := AddRules(cfg, base, b, front);
    var n := AddRules(cfg, base, b, rules);
    if RuleApplies(cfg, base, r) {
      if r in front {
        RuleSettled(cfg, base, b, front, r);
        var i :| 0 <= i < |m.exports| && m.exports[i].grouped && m.exports[i].group == r.group &&
            m.exports[i].typ == r.iface.value;
        assert n.exports[i] == m.exports[i];
      } else if n != m {
        assert n.exports[|m.exports|] == Grouped(r.iface.value, r.group);
      }
    }
  }

  lemma {:induction false} RulesAppend(cfg: BindConfig, base: GoType, b: Built, rules: seq<Rule>, more: seq<Rule>)
    requires forall r | r in more :: r in rules
    ensures AddRules(cfg, base, b, rules + more) == AddRules(cfg, base, b, rules)
  {
    if more == [] {
      assert rules + more == rules;
    } else {
      var all := rules + more;
      assert all[..|all| - 1] == rules + more[..|more| - 1];
      RulesAppend(cfg, base, b, rules, more[..|more| - 1]);
      RuleSettled(cfg, base, b, rules, more[|more| - 1]);
    }
  }

  /** Repeating rules that are already configured never changes the provider's exports or report. */
  lemma RepeatedRules(cfg: BindConfig, base: Option<GoType>, more: seq<Rule>)
    requires forall r | r in more :: r in cfg.autoGroups
    ensures ProvideSpecOf(cfg.(autoGroups := cfg.autoGroups + more), base) == ProvideSpecOf(cfg, base)
  {
    var cfg' := cfg.(autoGroups := cfg.autoGroups + more);
    assert more != [] ==> more[0] in cfg.autoGroups;
    if base.Some? {
      assert Declared(cfg', base.value) == Declared(cfg, base.value);
      AddRulesIgnoresList(cfg, cfg', base.value, Declared(cfg, base.value), cfg'.autoGroups);
      RulesAppend(cfg, base.value, Declared(cfg, base.value), cfg.autoGroups, more);
    }
  }

  /** Applying a rule list reads everything of the configuration but its own rule list. */
  lemma {:induction false} AddRulesIgnoresList(cfg: BindConfig, cfg': BindConfig, base: GoType, b: Built,
                                               rules: seq<Rule>)
    requires cfg' == cfg.(autoGroups := cfg'.autoGroups)
    ensures AddRules(cfg', base, b, rules) == AddRules(cfg, base, b, rules)
  {
    if rules == [] {
    } else {
      AddRulesIgnoresList(cfg, cfg', base, b, rules[..|rules| - 1]);
    }
  }

  /** An interface met only by the pointer type is matched by a rule but not assignable: with such a
      rule in force a value provider does not build at all. */
  lemma PointerOnlyRuleBreaks(base: GoType, iface: GoType, group: string)
    requires !base.pointer && base != iface && iface.iface
    requires iface.id in base.ptrImplements && iface.id !in base.implements
    ensures var cfg := EMPTY_CONFIG.(autoGroups := [Rule(Some(iface), group, None, false)]);
            ProvideSpecOf(cfg, Some(base)).Ok? && Wrap(base, ProvideSpecOf(cfg, Some(base)).value).Err?
  {
    var r := Rule(Some(iface), group, None, false);
    var cfg := EMPTY_CONFIG.(autoGroups := [r]);
    var d := Declared(cfg, base);
    assert AddRules(cfg, base, d, [r][..0]) == d;
    assert AddRules(cfg, base, d, [r]) == AddRule(cfg, base, d, r);
    var b := ProvideSpecOf(cfg, Some(base)).value;
    assert b.exports[0] == Grouped(iface, group);
    assert !ValidExport(base, b.exports[0]);
  }

  function AutoGroupOptions(rules: seq<Rule>): seq<Opt> {
    seq(|rules|, i requires 0 <= i < |rules| => AutoGroup(rules[i]))
  }

  predicate HasRuleKey(opts: seq<Opt>, rule: Rule) {
    exists i :: 0 <= i < |opts| && opts[i].AutoGroup? && opts[i].rule.SameKey(rule)
  }

  function MissingRules(opts: seq<Opt>, rules: seq<Rule>): seq<Rule> {
    if rules == [] then []
    else (if HasRuleKey(opts, rules[0]) then [] else [rules[0]]) + MissingRules(opts, rules[1..])
  }

  /** addAutoGroupOptions: a bare option list takes all rules, any other only those it lacks. */
  function AddAutoGroupOptions(opts: seq<Opt>, rules: seq<Rule>): seq<Opt> {
    if opts == [] then AutoGroupOptions(rules) else opts + AutoGroupOptions(MissingRules(opts, rules))
  }

  /** addAutoGroupOptions with its set of keys and its count; changed says whether options were added. */
  method AddMissingRules(opts: seq<Opt>, rules: seq<Rule>) returns (out: seq<Opt>, changed: bool)
    ensures out == AddAutoGroupOptions(opts, rules) && (changed <==> out != opts)
  {
    if |rules| == 0 {
      return opts, false;
    }
    if |opts| == 0 {
      return AutoGroupOptions(rules), true;
    }
    var existing := RuleKeys(opts);
    hide HasRuleKey;
    out := opts;
    for i := 0 to |rules|
      invariant out + AutoGroupOptions(MissingRules(opts, rules[i..])) ==
                  opts + AutoGroupOptions(MissingRules(opts, rules))
      invariant |out| >= |opts| && (|out| == |opts| ==> out == opts)
    {
      var rule := rules[i];
      var tail := rules[i + 1..];
      assert rules[i..][0] == rule && rules[i..][1..] == tail;
      if (rule.iface, rule.group) in existing {
        assert MissingRules(opts, rules[i..]) == MissingRules(opts, tail);
        continue;
      }
      assert MissingRules(opts, rules[i..]) == [rule] + MissingRules(opts, tail);
      OptionsNext(out, rule, MissingRules(opts, tail));
      out := out + [AutoGroup(rule)];
    }
    changed := |out| > |opts|;
  }

  lemma OptionsNext(out: seq<Opt>, rule: Rule, rest: seq<Rule>)
    ensures out + AutoGroupOptions([rule] + rest) == (out + [AutoGroup(rule)]) + AutoGroupOptions(rest)
  {
  }

  method RuleKeys(opts: seq<Opt>) returns (existing: set<(Option<GoType>, string)>)
    ensures forall r: Rule :: (r.iface, r.group) in existing <==> HasRuleKey(opts, r)
  {
    existing := {};
    for i := 0 to |opts|
      invariant forall r: Rule :: (r.iface, r.group) in existing <==> HasRuleKey(opts[..i], r)
    {
      KeysNext(opts, i);
      hide HasRuleKey;
      if opts[i].AutoGroup? {
        existing := existing + {(opts[i].rule.iface, opts[i].rule.group)};
      }
    }
    assert opts[..|opts|] == opts;
  }

  lemma KeysNext(opts: seq<Opt>, i: nat)
    requires i < |opts|
    ensures forall r :: HasRuleKey(opts[..i + 1], r) <==>
              HasRuleKey(opts[..i], r) || (opts[i].AutoGroup? && opts[i].rule.SameKey(r))
  {
    forall r
      ensures HasRuleKey(opts[..i + 1], r) <==>
                HasRuleKey(opts[..i], r) || (opts[i].AutoGroup? && opts[i].rule.SameKey(r))
    {
      if HasRuleKey(opts[..i], r) {
        var k :| 0 <= k < i && opts[..i][k].AutoGroup? && opts[..i][k].rule.SameKey(r);
        assert opts[..i + 1][k] == opts[..i][k];
      }
      assert opts[..i + 1][i] == opts[i];
    }
  }

  lemma {:induction false} MissingIsLacking(opts: seq<Opt>, rules: seq<Rule>, r: Rule)
    ensures r in MissingRules(opts, rules) <==> r in rules && !HasRuleKey(opts, r)
  {
    if rules == [] {
    } else {
      MissingIsLacking(opts, rules[1..], r);
      assert r in rules <==> r == rules[0] || r in rules[1..];
    }
  }

  lemma {:induction false} NothingMissing(opts: seq<Opt>, rules: seq<Rule>)
    requires forall r | r in rules :: HasRuleKey(opts, r)
    ensures MissingRules(opts, rules) == []
  {
    if rules == [] {
    } else {
      assert rules[0] in rules && forall r | r in rules[1..] :: r in rules;
      NothingMissing(opts, rules[1..]);
    }
  }

  /** Handing a provider the same rules again adds nothing. */
  lemma AddAutoGroupsIdempotent(opts: seq<Opt>, rules: seq<Rule>)
    ensures AddAutoGroupOptions(AddAutoGroupOptions(opts, rules), rules) == AddAutoGroupOptions(opts, rules)
  {
    var once := AddAutoGroupOptions(opts, rules);
    forall r | r in rules
      ensures HasRuleKey(once, r)
    {
      var added := if opts == [] then rules else MissingRules(opts, rules);
      MissingIsLacking(opts, rules, r);
      if opts != [] && HasRuleKey(opts, r) {
        var i :| 0 <= i < |opts| && opts[i].AutoGroup? && opts[i].rule.SameKey(r);
        assert once[i] == opts[i];
      } else {
        var k :| 0 <= k < |added| && added[k] == r;
        assert once[|opts| + k] == AutoGroup(r);
      }
    }
    if once != [] {
      NothingMissing(once, rules);
    }
  }

  // ---- Stripping auto groups, and re-tagging a replacement ---------------

  function StripAutoGroups(opts: seq<Opt>): seq<Opt> {
    if opts == [] then []
    else StripAutoGroups(opts[..|opts| - 1]) + (if opts[|opts| - 1].AutoGroup? then [] else [opts[|opts| - 1]])
  }

  method StripAutoGroupOptions(opts: seq<Opt>) returns (filtered: seq<Opt>, removed: bool)
    ensures filtered == StripAutoGroups(opts) && (removed <==> filtered != opts)
  {
    filtered, removed := [], false;
    for i := 0 to |opts|
      invariant filtered == StripAutoGroups(opts[..i])
      invariant if removed then |filtered| < i else filtered == opts[..i]
    {
      assert opts[..i + 1][..i] == opts[..i];
      if opts[i].AutoGroup? {
        removed := true;
        continue;
      }
      filtered := filtered + [opts[i]];
    }
    assert opts[..|opts|] == opts;
  }

  function DropNameGroup(opts: seq<Opt>): seq<Opt> {
    if opts == [] then []
    else
      var last := opts[|opts| - 1];
      DropNameGroup(opts[..|opts| - 1]) + (if last.Name? || last.Group? then [] else [last])
  }

  /** overrideNameGroupOpts. */
  function OverrideNameGroup(opts: seq<Opt>, target: TagSet): seq<Opt> {
    DropNameGroup(opts)
      + (if target.name != "" then [Name(target.name)] else [])
      + (if target.group != "" then [Group(target.group)] else [])
  }

  method OverrideNameGroupOpts(opts: seq<Opt>, target: TagSet) returns (out: seq<Opt>)
    ensures out == OverrideNameGroup(opts, target)
  {
    out := [];
    for i := 0 to |opts|
      invariant out == DropNameGroup(opts[..i])
    {
      assert opts[..i + 1][..i] == opts[..i];
      if opts[i].Name? || opts[i].Group? {
        continue;
      }
      out := out + [opts[i]];
    }
    assert opts[..|opts|] == opts;
    if target.name != "" {
      out := out + [Name(target.name)];
    }
    if target.group != "" {
      out := out + [Group(target.group)];
    }
  }

  lemma ParseOne(opts: seq<Opt>, opt: Opt)
    ensures Parse(opts + [opt]) == if Parse(opts).Err? then Parse(opts) else ApplyBind(Parse(opts).value, opt)
  {
    assert (opts + [opt])[..|opts|] == opts;
  }

  lemma RulesUnread(cfg: BindConfig, opt: Opt)
    requires ApplyBind(cfg, opt).Ok?
    ensures opt.AutoGroup? ==> ApplyBind(cfg, opt).value.(autoGroups := []) == cfg.(autoGroups := [])
    ensures !opt.AutoGroup? ==>
              ApplyBind(cfg.(autoGroups := []), opt) == Ok(ApplyBind(cfg, opt).value.(autoGroups := []))
  {
  }

  lemma {:induction false} ParseStripped(opts: seq<Opt>)
    requires Parse(opts).Ok?
    ensures Parse(StripAutoGroups(opts)) == Ok(Parse(opts).value.(autoGroups := []))
  {
    if opts == [] {
    } else {
      var front, last := opts[..|opts| - 1], opts[|opts| - 1];
      ParseStripped(front);
      RulesUnread(Parse(front).value, last);
      if last.AutoGroup? {
        assert StripAutoGroups(opts) == StripAutoGroups(front);
      } else {
        ParseOne(StripAutoGroups(front), last);
      }
    }
  }

  /** Without its auto groups a provider still reports only what it reported with them. */
  lemma {:induction false} StrippedReportsLess(opts: seq<Opt>, base: Option<GoType>)
    requires Parse(opts).Ok? && ProvideSpecOf(Parse(opts).value, base).Ok?
    ensures Parse(StripAutoGroups(opts)).Ok? && ProvideSpecOf(Parse(StripAutoGroups(opts)).value, base).Ok?
    ensures forall ts | ts in ProvideSpecOf(Parse(StripAutoGroups(opts)).value, base).value.tagSets ::
              ts in ProvideSpecOf(Parse(opts).value, base).value.tagSets
  {
    ParseStripped(opts);
    var cfg := Parse(opts).value;
    if base.Some? {
      var rules := RulesOf(cfg);
      DeclaredReports(cfg, base.value);
      RulesReport(cfg, base.value, Declared(cfg, base.value), rules);
      assert Declared(cfg.(autoGroups := []), base.value) == Declared(cfg, base.value);
    }
  }

  /** Same export types and flags, names and groups apart, and nothing pending. */
  ghost predicate SameShape(c: BindConfig, d: BindConfig) {
    && d == c.(exports := d.exports)
    && !HasPending(d)
    && |c.exports| == |d.exports|
    && forall i | 0 <= i < |c.exports| :: c.exports[i].typ == d.exports[i].typ
  }

  lemma LastKeepsTypes(c: seq<ExportSpec>, d: seq<ExportSpec>, x: ExportSpec, y: ExportSpec)
    requires |c| == |d| > 0 && forall i | 0 <= i < |c| :: c[i].typ == d[i].typ
    requires x.typ == c[|c| - 1].typ && y.typ == d[|d| - 1].typ
    ensures |WithLast(c, x)| == |WithLast(d, y)| == |c|
    ensures forall i | 0 <= i < |c| :: WithLast(c, x)[i].typ == WithLast(d, y)[i].typ == d[i].typ
  {
  }

  lemma TagStep(c: BindConfig, d: BindConfig, opt: Opt)
    requires opt.Name? || opt.Group?
    requires ApplyBind(c, opt).Ok? && !HasPending(ApplyBind(c, opt).value)
    requires SameShape(c, d)
    ensures SameShape(ApplyBind(c, opt).value, d)
  {
    var c' := ApplyBind(c, opt).value;
    assert c.exports != [];
    var last := c.exports[|c.exports| - 1];
    var x := if opt.Name? then Named(last.typ, opt.name) else Grouped(last.typ, opt.group);
    LastKeepsTypes(c.exports, d.exports, x, d.exports[|d.exports| - 1]);
  }

  /** Options that leave the export list alone read nothing of it. */
  lemma FlagStep(c: BindConfig, opt: Opt, exports: seq<ExportSpec>)
    requires !opt.Name? && !opt.Group? && !opt.As? && !opt.ToGroup? && !opt.Unsupported?
    ensures ApplyBind(c, opt).Ok? && ApplyBind(c, opt).value.exports == c.exports
    ensures HasPending(ApplyBind(c, opt).value) == HasPending(c)
    ensures ApplyBind(c.(exports := exports), opt) == Ok(ApplyBind(c, opt).value.(exports := exports))
  {
  }

  lemma AsStep(c: BindConfig, d: BindConfig, typ: GoType, tags: seq<string>)
    requires ApplyBind(c, As(typ, tags)).Ok? && SameShape(c, d)
    ensures ApplyBind(d, As(typ, tags)).Ok?
    ensures SameShape(ApplyBind(c, As(typ, tags)).value, ApplyBind(d, As(typ, tags)).value)
  {
    var t := AsTags(tags).value;
    var added := AsExports(typ, t.0, t.1);
    assert ApplyBind(c, As(typ, tags)).value.exports == c.exports + added;
    assert ApplyBind(d, As(typ, tags)).value.exports == d.exports + added;
  }

  lemma ShapeStep(c: BindConfig, d: BindConfig, opt: Opt)
    requires !opt.Name? && !opt.Group?
    requires ApplyBind(c, opt).Ok? && !HasPending(ApplyBind(c, opt).value)
    requires SameShape(c, d)
    ensures ApplyBind(d, opt).Ok? && SameShape(ApplyBind(c, opt).value, ApplyBind(d, opt).value)
  {
    if opt.ToGroup? {
      var x, y := c.exports[|c.exports| - 1], d.exports[|d.exports| - 1];
      LastKeepsTypes(c.exports, d.exports, Grouped(x.typ, opt.group), Grouped(y.typ, opt.group));
    } else if opt.As? {
      AsStep(c, d, opt.typ, opt.tags);
    } else {
      FlagStep(c, opt, d.exports);
    }
  }

  lemma PendingStays(c: BindConfig, opt: Opt)
    requires ApplyBind(c, opt).Ok? && !HasPending(ApplyBind(c, opt).value)
    ensures !HasPending(c)
  {
  }

  lemma {:induction false} ParseUntagged(opts: seq<Opt>)
    requires Parse(opts).Ok? && !HasPending(Parse(opts).value)
    ensures Parse(DropNameGroup(opts)).Ok? && SameShape(Parse(opts).value, Parse(DropNameGroup(opts)).value)
  {
    if opts == [] {
    } else {
      var front, last := opts[..|opts| - 1], opts[|opts| - 1];
      PendingStays(Parse(front).value, last);
      ParseUntagged(front);
      if last.Name? || last.Group? {
        TagStep(Parse(front).value, Parse(DropNameGroup(front)).value, last);
        assert DropNameGroup(opts) == DropNameGroup(front);
      } else {
        ShapeStep(Parse(front).value, Parse(DropNameGroup(front)).value, last);
        ParseOne(DropNameGroup(front), last);
      }
    }
  }

  /** A name or a group but not both, and a name that is not empty. */
  predicate WellTagged(e: ExportSpec) {
    (e.grouped ==> !e.named) && (!e.grouped ==> e.group == "") && (e.named ==> e.name != "")
  }

  lemma {:induction false} AsTagsNamed(tags: seq<string>)
    requires AsTags(tags).Ok?
    ensures "" !in AsTags(tags).value.0
  {
    if tags == [] {
    } else {
      AsTagsNamed(tags[1..]);
    }
  }

  lemma WellTaggedStep(c: BindConfig, opt: Opt)
    requires ApplyBind(c, opt).Ok?
    requires forall e | e in c.exports :: WellTagged(e)
    ensures forall e | e in ApplyBind(c, opt).value.exports :: WellTagged(e)
  {
    if opt.As? {
      AsTagsNamed(opt.tags);
    }
  }

  lemma {:induction false} ParseWellTagged(opts: seq<Opt>)
    requires Parse(opts).Ok?
    ensures forall e | e in Parse(opts).value.exports :: WellTagged(e)
  {
    if opts == [] {
    } else {
      ParseWellTagged(opts[..|opts| - 1]);
      WellTaggedStep(Parse(opts[..|opts| - 1]).value, opts[|opts| - 1]);
    }
  }

  /** A provider that reports one tag set declares at most one export, of that type. */
  lemma SingleExport(cfg: BindConfig, base: GoType)
    requires !HasPending(cfg) && ProvideSpecOf(cfg, Some(base)).Ok?
    requires |ProvideSpecOf(cfg, Some(base)).value.tagSets| == 1
    ensures |cfg.exports| <= 1
    ensures ProvideSpecOf(cfg, Some(base)).value.tagSets[0].typ ==
            if cfg.exports == [] then base else cfg.exports[0].typ
  {
    var rules := RulesOf(cfg);
    DeclaredReports(cfg, base);
    RulesReport(cfg, base, Declared(cfg, base), rules);
    assert TagSetsOf(cfg.exports) <= Declared(cfg, base).tagSets;
    assert Declared(cfg, base).tagSets == ProvideSpecOf(cfg, Some(base)).value.tagSets;
  }

  /** A configuration whose first declared export is the target reports the target. */
  lemma DeclaredIsReported(cfg: BindConfig, base: GoType, target: TagSet)
    requires ProvideSpecOf(cfg, Some(base)).Ok?
    requires Declared(cfg, base).exports != [] && TagSetOf(Declared(cfg, base).exports[0]) == target
    ensures target in ProvideSpecOf(cfg, Some(base)).value.tagSets
  {
    var rules := RulesOf(cfg);
    DeclaredReports(cfg, base);
    RulesReport(cfg, base, Declared(cfg, base), rules);
    var m := AddRules(cfg, base, Declared(cfg, base), rules);
    assert m.exports[0] == Declared(cfg, base).exports[0];
    assert TagSetOf(m.exports[0]) in m.tagSets;
  }

  /** The configuration of a re-tagged single-export replacement. */
  lemma RetaggedConfig(opts: seq<Opt>, base: GoType, b: Built, target: TagSet) returns (cfg: BindConfig)
    requires Parse(opts).Ok? && !HasPending(Parse(opts).value)
    requires ProvideSpecOf(Parse(opts).value, Some(base)) == Ok(b)
    requires |b.tagSets| == 1 && b.tagSets[0].typ == target.typ
    requires (target.name == "") != (target.group == "")
    ensures Parse(OverrideNameGroup(opts, target)) == Ok(cfg)
    ensures cfg.flags == Parse(opts).value.flags && cfg.autoGroups == Parse(opts).value.autoGroups
    ensures !(HasPending(cfg) && cfg.exports != []) && !HasUntagged(cfg.exports)
    ensures |Declared(cfg, base).exports| == 1 && TagSetOf(Declared(cfg, base).exports[0]) == target
    ensures ValidExport(base, Declared(cfg, base).exports[0]) <==> Assignable(base, target.typ)
  {
    SingleExport(Parse(opts).value, base);
    hide *;
    ParseUntagged(opts);
    var bare := Parse(DropNameGroup(opts)).value;
    SameTyped(Parse(opts).value, bare);
    var tag := if target.name != "" then Name(target.name) else Group(target.group);
    Retagged(bare, base, target, tag);
    OverrideOne(opts, target);
    ParseOne(DropNameGroup(opts), tag);
    cfg := ApplyBind(bare, tag).value;
  }

  lemma SameTyped(c: BindConfig, d: BindConfig)
    requires SameShape(c, d) && |c.exports| <= 1
    ensures !HasPending(d) && d.flags == c.flags && d.autoGroups == c.autoGroups &&
              (d.exports == [] <==> c.exports == []) && |d.exports| <= 1
    ensures c.exports != [] ==> d.exports[0].typ == c.exports[0].typ
  {
  }

  lemma OverrideOne(opts: seq<Opt>, target: TagSet)
    requires (target.name == "") != (target.group == "")
    ensures OverrideNameGroup(opts, target) ==
            DropNameGroup(opts) + [if target.name != "" then Name(target.name) else Group(target.group)]
  {
  }

  /** Rules that add nothing: those that apply find their key exported already. */
  lemma {:induction false} NoneAdded(cfg: BindConfig, base: GoType, b: Built, rules: seq<Rule>)
    ensures AddRules(cfg, base, b, rules).exports == b.exports <==>
            forall r | r in rules && RuleApplies(cfg, base, r) :: HasExport(b.exports, r.iface.value, r.group)
    ensures AddRules(cfg, base, b, rules).exports == b.exports ==> AddRules(cfg, base, b, rules) == b
    ensures b.exports <= AddRules(cfg, base, b, rules).exports && b.tagSets <= AddRules(cfg, base, b, rules).tagSets
    ensures |AddRules(cfg, base, b, rules).tagSets| - |b.tagSets| ==
              |AddRules(cfg, base, b, rules).exports| - |b.exports|
  {
    if rules == [] {
    } else {
      var front, last := rules[..|rules| - 1], rules[|rules| - 1];
      NoneAdded(cfg, base, b, front);
      assert forall r :: r in rules <==> r in front || r == last;
      assert last.iface.None? ==> !RuleApplies(cfg, base, last);
      hide RuleApplies, HasExport;
    }
  }

  /** The rule would leave a re-tagged export alone: it does not apply, or its key is the target's. */
  predicate Settled(cfg: BindConfig, base: GoType, rule: Rule, target: TagSet) {
    RuleApplies(cfg, base, rule) ==> target.group != "" && rule.iface == Some(target.typ) && rule.group == target.group
  }

  /** The re-tagged replacement reports its target alone if and only if it is not provided as itself as
      well and every rule in force leaves the target alone. */
  lemma {:induction false} RetaggedReport(opts: seq<Opt>, base: GoType, b: Built, target: TagSet)
    requires Parse(opts).Ok? && !HasPending(Parse(opts).value)
    requires ProvideSpecOf(Parse(opts).value, Some(base)) == Ok(b)
    requires |b.tagSets| == 1 && b.tagSets[0].typ == target.typ
    requires (target.name == "") != (target.group == "")
    ensures var cfg := Parse(opts).value;
            var parsed := Parse(OverrideNameGroup(opts, target));
            parsed.Ok? && ProvideSpecOf(parsed.value, Some(base)).Ok? &&
            (ProvideSpecOf(parsed.value, Some(base)).value.tagSets == [target] <==>
             !cfg.flags.includeSelf && forall r | r in RulesOf(cfg) :: Settled(cfg, base, r, target))
  {
    var cfg := RetaggedConfig(opts, base, b, target);
    ParseWellTagged(OverrideNameGroup(opts, target));
    hide Parse, OverrideNameGroup;
    SettledAlike(Parse(opts).value, cfg, base, target);
    ReportOfOne(cfg, base, target);
  }

  lemma SettledAlike(c: BindConfig, d: BindConfig, base: GoType, target: TagSet)
    requires c.flags == d.flags
    ensures forall r :: Settled(c, base, r, target) == Settled(d, base, r, target)
  {
  }

  lemma ReportOfOne(cfg: BindConfig, base: GoType, target: TagSet)
    requires ProvideSpecOf(cfg, Some(base)).Ok? && !HasUntagged(cfg.exports)
    requires |Declared(cfg, base).exports| == 1 && TagSetOf(Declared(cfg, base).exports[0]) == target
    requires (target.name == "") != (target.group == "")
    ensures ProvideSpecOf(cfg, Some(base)).value.tagSets == [target] <==>
            !cfg.flags.includeSelf && forall r | r in RulesOf(cfg) :: Settled(cfg, base, r, target)
  {
    var d := Declared(cfg, base);
    assert d.tagSets == [target] + (if cfg.flags.includeSelf then [Untagged(base)] else []);
    NoneAdded(cfg, base, d, RulesOf(cfg));
    var m := AddRules(cfg, base, d, RulesOf(cfg));
    assert m.tagSets == [target] ==> |m.exports| == 1;
    forall r | r in RulesOf(cfg)
      ensures Settled(cfg, base, r, target) <==>
                (RuleApplies(cfg, base, r) ==> HasExport(d.exports, r.iface.value, r.group))
    {
      OneExport(d.exports, target, r);
    }
    hide AddRules, Declared, Settled, RuleApplies, HasExport;
  }

  lemma OneExport(exports: seq<ExportSpec>, target: TagSet, rule: Rule)
    requires |exports| == 1 && TagSetOf(exports[0]) == target && (target.name == "") != (target.group == "")
    ensures rule.iface.Some? ==>
              (HasExport(exports, rule.iface.value, rule.group) <==>
               target.group != "" && rule.iface == Some(target.typ) && rule.group == target.group)
  {
  }

  /** A replacement provided as itself is such a case: re-tagged, it reports its base again. */
  lemma SelfReexports(base: GoType, name: string)
    requires name != ""
    ensures var target := TagSet(name, "", base);
            var parsed := Parse(OverrideNameGroup([Self], target));
            Parse([Self]).Ok? && ProvideSpecOf(Parse([Self]).value, Some(base)).Ok? &&
            ProvideSpecOf(Parse([Self]).value, Some(base)).value.tagSets == [Untagged(base)] &&
            parsed.Ok? && ProvideSpecOf(parsed.value, Some(base)).Ok? &&
            ProvideSpecOf(parsed.value, Some(base)).value.tagSets == [target, Untagged(base)]
  {
    var target := TagSet(name, "", base);
    ParseOne([], Self);
    assert [] + [Self] == [Self] && [Self][..0] == [];
    assert DropNameGroup([Self]) == DropNameGroup([]) + [Self] == [Self];
    assert OverrideNameGroup([Self], target) == [Self] + [Name(name)];
    ParseOne([Self], Name(name));
    var cfg := Parse([Self] + [Name(name)]).value;
    assert PendingExports(cfg, base) == [Named(base, name)];
    assert TagSetsOf([Named(base, name)]) == [target];
  }

  /** A single-export replacement re-tagged for a target of its type exports that target. */
  lemma RetaggedExports(opts: seq<Opt>, base: GoType, b: Built, target: TagSet)
    requires Parse(opts).Ok? && !HasPending(Parse(opts).value)
    requires ProvideSpecOf(Parse(opts).value, Some(base)) == Ok(b)
    requires |b.tagSets| == 1 && b.tagSets[0].typ == target.typ
    requires (target.name == "") != (target.group == "")
    ensures var parsed := Parse(OverrideNameGroup(opts, target));
            parsed.Ok? && ProvideSpecOf(parsed.value, Some(base)).Ok? &&
            parsed.value.flags == Parse(opts).value.flags &&
            target in ProvideSpecOf(parsed.value, Some(base)).value.tagSets
  {
    hide *;
    var cfg := RetaggedConfig(opts, base, b, target);
    RetaggedSpec(opts, base, b, target, cfg);
    DeclaredIsReported(cfg, base, target);
  }

  lemma Retagged(bare: BindConfig, base: GoType, target: TagSet, tag: Opt)
    requires !HasPending(bare) && |bare.exports| <= 1
    requires (target.name == "") != (target.group == "")
    requires tag == if target.name != "" then Name(target.name) else Group(target.group)
    requires target.typ == if bare.exports == [] then base else bare.exports[0].typ
    ensures ApplyBind(bare, tag).Ok?
    ensures var cfg := ApplyBind(bare, tag).value;
            !(HasPending(cfg) && cfg.exports != []) &&
            !HasUntagged(cfg.exports) && cfg.flags == bare.flags && cfg.autoGroups == bare.autoGroups &&
            |Declared(cfg, base).exports| == 1 && TagSetOf(Declared(cfg, base).exports[0]) == target &&
            (ValidExport(base, Declared(cfg, base).exports[0]) <==> Assignable(base, target.typ))
  {
  }

  // ---- Re-tagged replacements build --------------------------------------

  /** The bindings a provider with these options puts into the container, or the first error. */
  function OutputsBy(base: GoType, opts: seq<Opt>): Result<seq<TagSet>> {
    var cfg :- Parse(opts);
    var b :- ProvideSpecOf(cfg, Some(base));
    Wrap(base, b)
  }

  /** A provider that reports one tag set gains no export from a rule: those that apply find their key
      in its one declared export. */
  lemma OneTagNoJoin(cfg: BindConfig, base: GoType)
    requires !HasPending(cfg) && ProvideSpecOf(cfg, Some(base)).Ok?
    requires |ProvideSpecOf(cfg, Some(base)).value.tagSets| == 1
    ensures |cfg.exports| <= 1 && Declared(cfg, base).exports == cfg.exports
    ensures forall r | r in RulesOf(cfg) && RuleApplies(cfg, base, r) ::
              cfg.exports != [] && cfg.exports[0].grouped && r.iface == Some(cfg.exports[0].typ) &&
                  r.group == cfg.exports[0].group
  {
    SingleExport(cfg, base);
    var d := Declared(cfg, base);
    NoneAdded(cfg, base, d, RulesOf(cfg));
    assert |AddRules(cfg, base, d, RulesOf(cfg)).tagSets| == 1;
    hide AddRules, RuleApplies, ProvideSpecOf;
    assert d.exports != [] ==> d.tagSets[0] == TagSetsOf(d.exports)[0];
  }

  /** So it builds exactly when its one declared export is valid; the rules that apply repeat it. */
  lemma OneTagBuilds(cfg: BindConfig, base: GoType, typ: GoType)
    requires !HasPending(cfg) && ProvideSpecOf(cfg, Some(base)).Ok?
    requires |ProvideSpecOf(cfg, Some(base)).value.tagSets| == 1
    requires typ == if cfg.exports == [] then base else cfg.exports[0].typ
    requires forall e | e in cfg.exports :: WellTagged(e)
    ensures Wrap(base, ProvideSpecOf(cfg, Some(base)).value).Ok? <==>
            Assignable(base, typ) && forall e | e in cfg.exports && e.grouped :: e.group != ""
    ensures forall r | r in RulesOf(cfg) && RuleApplies(cfg, base, r) ::
              r.iface == Some(typ) && exists e | e in cfg.exports :: e.grouped && e.group == r.group
  {
    OneTagNoJoin(cfg, base);
    BuildsExactly(cfg, base);
    hide Wrap, ProvideSpecOf, Declared, RuleApplies;
    assert cfg.exports != [] ==> cfg.exports[0] in cfg.exports;
  }

  /** A provider with one export, a valid one once assignable, builds when its rules do not spoil it. */
  lemma OneExportBuilds(cfg: BindConfig, base: GoType, target: TagSet)
    requires ProvideSpecOf(cfg, Some(base)).Ok? && |Declared(cfg, base).exports| == 1
    requires TagSetOf(Declared(cfg, base).exports[0]) == target && (target.name == "") != (target.group == "")
    requires ValidExport(base, Declared(cfg, base).exports[0]) <==> Assignable(base, target.typ)
    requires forall r | r in RulesOf(cfg) && RuleApplies(cfg, base, r) :: r.iface == Some(target.typ)
    ensures Wrap(base, ProvideSpecOf(cfg, Some(base)).value).Ok? <==>
            Assignable(base, target.typ) && forall r | r in RulesOf(cfg) && RuleApplies(cfg, base, r) :: r.group != ""
  {
    BuildsExactly(cfg, base);
    var d := Declared(cfg, base).exports;
    forall r | r in RulesOf(cfg) && RuleApplies(cfg, base, r)
      ensures HasExport(d, r.iface.value, r.group) ==> r.group != ""
    {
      OneExport(d, target, r);
    }
    assert AllValid(base, d) <==> ValidExport(base, d[0]) by {
      assert d[0] in d;
    }
    hide Wrap, ProvideSpecOf, Declared, RuleApplies, HasExport, ValidExport, Assignable, AllValid;
  }

  lemma RulesAlike(c: BindConfig, d: BindConfig, base: GoType)
    requires c.flags == d.flags && c.autoGroups == d.autoGroups
    ensures RulesOf(c) == RulesOf(d) && forall r :: RuleApplies(c, base, r) == RuleApplies(d, base, r)
  {
  }

  lemma RetaggedSpec(opts: seq<Opt>, base: GoType, b: Built, target: TagSet, cfg: BindConfig)
    requires Parse(OverrideNameGroup(opts, target)) == Ok(cfg) && !(HasPending(cfg) && cfg.exports != [])
    ensures ProvideSpecOf(cfg, Some(base)).Ok?
  {
    ParseWellTagged(OverrideNameGroup(opts, target));
    hide Parse, OverrideNameGroup;
    assert forall i | 0 <= i < |cfg.exports| :: cfg.exports[i] in cfg.exports;
  }

  lemma OutputsUnfold(base: GoType, opts: seq<Opt>)
    requires Parse(opts).Ok? && ProvideSpecOf(Parse(opts).value, Some(base)).Ok?
    ensures OutputsBy(base, opts) == Wrap(base, ProvideSpecOf(Parse(opts).value, Some(base)).value)
  {
  }

  /** The re-tagged replacement builds if and only if its type is assignable to what it replaces and no
      rule that applies names an empty group. It builds whenever the replacement itself would, and the
      converse fails only for an export declared in an empty group. */
  lemma RetaggedBuilds(opts: seq<Opt>, base: GoType, b: Built, target: TagSet)
    requires Parse(opts).Ok? && !HasPending(Parse(opts).value)
    requires ProvideSpecOf(Parse(opts).value, Some(base)) == Ok(b)
    requires |b.tagSets| == 1 && b.tagSets[0].typ == target.typ
    requires (target.name == "") != (target.group == "")
    ensures var cfg, built := Parse(opts).value, OutputsBy(base, OverrideNameGroup(opts, target)).Ok?;
            (built <==> Assignable(base, target.typ) && forall r | r in RulesOf(cfg) && RuleApplies(cfg, base, r) ::
             r.group != "") &&
            (OutputsBy(base, opts).Ok? <==> built && forall e | e in cfg.exports && e.grouped :: e.group != "")
  {
    hide *;
    var was := Parse(opts).value;
    var cfg := RetaggedConfig(opts, base, b, target);
    ParseWellTagged(opts);
    SingleExport(was, base);
    OneTagBuilds(was, base, target.typ);
    RetaggedSpec(opts, base, b, target, cfg);
    RulesAlike(was, cfg, base);
    OneExportBuilds(cfg, base, target);
    OutputsUnfold(base, opts);
    OutputsUnfold(base, OverrideNameGroup(opts, target));
  }
}
