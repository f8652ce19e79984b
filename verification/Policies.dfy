/** Expanding a route's policies into security requirements, against what the policies mean. */
module Policies {
  import opened Text
  import opened Separators
  import opened StringLists

  datatype PrincipalType = User | App | AnyType

  /** A policy; about is its description, owner, deprecation and replacement. */
  datatype Policy = Policy(name: string, about: int, principalType: PrincipalType, anyScopes: seq<string>,
                           allScopes: seq<string>, roles: seq<string>)

  datatype Requirement = Requirement(scheme: string, scopes: seq<string>)

  datatype Principal = Principal(principalType: PrincipalType, scopes: seq<string>)

  // ---- The registry ------------------------------------------------------

  type Registry = map<string, Policy>

  function NormalPolicy(d: Policy): Policy {
    Policy(Trim(d.name), d.about, d.principalType, Normalize(d.anyScopes), Normalize(d.allScopes), Normalize(d.roles))
  }

  /** Every definition has a name, and two of one name are the same policy. */
  ghost predicate Consistent(defs: seq<Policy>) {
    && (forall d | d in defs :: Trim(d.name) != "")
    && (forall d, e | d in defs && e in defs && Trim(d.name) == Trim(e.name) :: NormalPolicy(d) == NormalPolicy(e))
  }

  /** The registry holds each definition, normalised, under its name, and nothing else. */
  ghost predicate Registers(reg: Registry, defs: seq<Policy>) {
    && (forall d | d in defs :: Trim(d.name) in reg && reg[Trim(d.name)] == NormalPolicy(d))
    && (forall name | name in reg :: exists d | d in defs :: Trim(d.name) == name && reg[name] == NormalPolicy(d))
  }

  /** Succeeds exactly on consistent definitions; their order does not matter. */
  method NewPolicyRegistry(defs: seq<Policy>) returns (r: Option<Registry>)
    ensures r.Some? <==> Consistent(defs)
    ensures r.Some? ==> Registers(r.value, defs)
  {
    var reg: Registry := map[];
    for i := 0 to |defs|
      invariant Consistent(defs[..i]) && Registers(reg, defs[..i])
    {
      var next := defs[..i + 1];
      assert next == defs[..i] + [defs[i]];
      var def := NormalPolicy(defs[i]);
      assert defs[i] in defs && forall d | d in defs[..i] :: d in defs;
      if def.name == "" {
        return None;
      }
      if def.name in reg && reg[def.name] != def {
        return None;
      }
      ghost var before := reg;
      reg := reg[def.name := def];
      Registered(defs[..i], defs[i], before, reg);
    }
    assert defs[..|defs|] == defs;
    r := Some(reg);
  }

  lemma Registered(front: seq<Policy>, def: Policy, reg: Registry, next: Registry)
    requires Consistent(front) && Registers(reg, front) && Trim(def.name) != ""
    requires Trim(def.name) in reg ==> reg[Trim(def.name)] == NormalPolicy(def)
    requires next == reg[Trim(def.name) := NormalPolicy(def)]
    ensures Consistent(front + [def]) && Registers(next, front + [def])
  {
    hide NormalPolicy, Trim;
    assert def in front + [def] && forall d :: d in front + [def] <==> d in front || d == def;
  }

  /** The same members once trimmed, without blanks, in order and once each. */
  ghost predicate SameList(held: seq<string>, given: seq<string>) {
    && (forall i, j | 0 <= i < j < |held| :: Less(held[i], held[j]))
    && (forall x :: x in held <==> x != "" && exists y | y in given :: Trim(y) == x)
  }

  /** What the registry holds of a definition: its lists, each in its own place, and the rest as given. */
  lemma HeldAsGiven(reg: Registry, defs: seq<Policy>, d: Policy)
    requires Registers(reg, defs) && d in defs
    ensures Trim(d.name) in reg
    ensures var p := reg[Trim(d.name)];
            p.name == Trim(d.name) && p.about == d.about && p.principalType == d.principalType &&
            SameList(p.anyScopes, d.anyScopes) && SameList(p.allScopes, d.allScopes) && SameList(p.roles, d.roles)
  {
    Normalized(d.anyScopes);
    Normalized(d.allScopes);
    Normalized(d.roles);
    hide Normalize, Trim, Less;
  }

  // ---- Requirements of a policy ------------------------------------------

  const USER_SCHEME := "BearerAuth"
  const APP_SCHEME := "ApiKeyAuth"

  function SchemesOf(t: PrincipalType): seq<string> {
    match t
    case User => [USER_SCHEME]
    case App => [APP_SCHEME]
    case AnyType => [USER_SCHEME, APP_SCHEME]
  }

  /** One requirement per scope. */
  function EachOf(scheme: string, scopes: seq<string>): seq<Requirement> {
    seq(|scopes|, i requires 0 <= i < |scopes| => Requirement(scheme, [scopes[i]]))
  }

  function SchemeRequirements(scheme: string, allScopes: seq<string>, anyScopes: seq<string>): seq<Requirement> {
    (if |allScopes| > 0 then [Requirement(scheme, allScopes)] else []) + EachOf(scheme, anyScopes)
  }

  function ForSchemes(schemes: seq<string>, allScopes: seq<string>, anyScopes: seq<string>): seq<Requirement> {
    if schemes == [] then []
    else
      ForSchemes(schemes[..|schemes| - 1], allScopes, anyScopes)
      + SchemeRequirements(schemes[|schemes| - 1], allScopes, anyScopes)
  }

  function PolicyRequirements(d: Policy): seq<Requirement> {
    ForSchemes(SchemesOf(d.principalType), Normalize(d.allScopes), Normalize(d.anyScopes))
  }

  method SecurityRequirementsForPolicy(d: Policy) returns (out: seq<Requirement>)
    ensures out == PolicyRequirements(d)
  {
    hide Normalize, SchemeRequirements;
    var schemes := SchemesOf(d.principalType);
    var allScopes, anyScopes := Normalize(d.allScopes), Normalize(d.anyScopes);
    out := [];
    for i := 0 to |schemes|
      invariant out == ForSchemes(schemes[..i], allScopes, anyScopes)
    {
      assert schemes[..i + 1][..i] == schemes[..i];
      var more := RequirementsForScheme(schemes[i], allScopes, anyScopes);
      out := out + more;
    }
    assert schemes[..|schemes|] == schemes;
  }

  method RequirementsForScheme(scheme: string, allScopes: seq<string>, anyScopes: seq<string>)
    returns (out: seq<Requirement>)
    ensures out == SchemeRequirements(scheme, allScopes, anyScopes)
  {
    out := if |allScopes| > 0 then [Requirement(scheme, allScopes)] else [];
    ghost var first := out;
    for j := 0 to |anyScopes|
      invariant out == first + EachOf(scheme, anyScopes[..j])
    {
      assert EachOf(scheme, anyScopes[..j + 1]) ==
               EachOf(scheme, anyScopes[..j]) + [Requirement(scheme, [anyScopes[j]])];
      out := out + [Requirement(scheme, [anyScopes[j]])];
    }
    assert anyScopes[..|anyScopes|] == anyScopes;
  }

  // ---- Appending to a route ----------------------------------------------

  function RequirementKey(r: Requirement): string {
    Trim(r.scheme) + "|" + Join(Normalize(r.scopes), ',')
  }

  predicate HasKey(security: seq<Requirement>, key: string) {
    exists i :: 0 <= i < |security| && RequirementKey(security[i]) == key
  }

  function AppendOne(security: seq<Requirement>, r: Requirement): seq<Requirement> {
    var clean := Requirement(Trim(r.scheme), Normalize(r.scopes));
    if clean.scheme == "" || clean.scopes == [] || HasKey(security, RequirementKey(clean)) then security
    else security + [clean]
  }

  function AppendAll(security: seq<Requirement>, reqs: seq<Requirement>): seq<Requirement> {
    if reqs == [] then security
    else AppendOne(AppendAll(security, reqs[..|reqs| - 1]), reqs[|reqs| - 1])
  }

  lemma {:induction false} AppendConcat(security: seq<Requirement>, a: seq<Requirement>, b: seq<Requirement>)
    ensures AppendAll(security, a + b) == AppendAll(AppendAll(security, a), b)
  {
    if b == [] {
      assert a + b == a;
    } else {
      assert (a + b)[..|a + b| - 1] == a + b[..|b| - 1];
      AppendConcat(security, a, b[..|b| - 1]);
    }
  }

  /** The requirements the named policies ask for, one policy after the other. */
  function RequirementsOf(names: seq<string>, reg: Registry): seq<Requirement> {
    if names == [] then []
    else
      var n := |names| - 1;
      RequirementsOf(names[..n], reg) + if names[n] in reg then PolicyRequirements(reg[names[n]]) else []
  }

  class RouteMetadata {
    const policies: seq<string>
    var security: seq<Requirement>

    constructor (policies: seq<string>)
      ensures this.policies == policies && security == []
    {
      this.policies := policies;
      security := [];
    }

    method AppendSecurityRequirement(r: Requirement)
      modifies this
      ensures security == AppendOne(old(security), r)
    {
      hide Trim, Normalize, RequirementKey;
      var scheme := Trim(r.scheme);
      if scheme == "" {
        return;
      }
      var scopes := Normalize(r.scopes);
      if |scopes| == 0 {
        return;
      }
      var key := RequirementKey(Requirement(scheme, scopes));
      for i := 0 to |security|
        invariant forall k | 0 <= k < i :: RequirementKey(security[k]) != key
        invariant security == old(security)
      {
        if RequirementKey(security[i]) == key {
          return;
        }
      }
      security := security + [Requirement(scheme, scopes)];
    }

    method AppendRequirements(reqs: seq<Requirement>)
      modifies this
      ensures security == AppendAll(old(security), reqs)
    {
      for j := 0 to |reqs|
        invariant security == AppendAll(old(security), reqs[..j])
      {
        assert reqs[..j + 1][..j] == reqs[..j];
        AppendSecurityRequirement(reqs[j]);
      }
      assert reqs[..|reqs|] == reqs;
    }

    /** ExpandRoutePolicies on one route. */
    method Expand(reg: Registry)
      modifies this
      ensures security == AppendAll(old(security), RequirementsOf(Normalize(policies), reg))
    {
      hide AppendAll, AppendOne, PolicyRequirements, Normalize;
      var names := Normalize(policies);
      AppendNone(security);
      for i := 0 to |names|
        invariant security == AppendAll(old(security), RequirementsOf(names[..i], reg))
      {
        assert names[..i + 1][..i] == names[..i];
        ghost var more := if names[i] in reg then PolicyRequirements(reg[names[i]]) else [];
        assert RequirementsOf(names[..i + 1], reg) == RequirementsOf(names[..i], reg) + more;
        AppendConcat(old(security), RequirementsOf(names[..i], reg), more);
        AppendNone(security);
        if names[i] in reg {
          var reqs := SecurityRequirementsForPolicy(reg[names[i]]);
          AppendRequirements(reqs);
        }
      }
      assert names[..|names|] == names;
    }
  }

  lemma AppendNone(security: seq<Requirement>)
    ensures AppendAll(security, []) == security
  {
  }

  // ---- Expansion is idempotent -------------------------------------------

  /** Appending it would change nothing. */
  predicate Absorbed(security: seq<Requirement>, r: Requirement) {
    AppendOne(security, r) == security
  }

  lemma AppendedKey(security: seq<Requirement>, r: Requirement)
    ensures Absorbed(AppendOne(security, r), r)
  {
    var clean := Requirement(Trim(r.scheme), Normalize(r.scopes));
    var after := AppendOne(security, r);
    if after != security {
      assert RequirementKey(after[|security|]) == RequirementKey(clean);
    }
  }

  lemma AbsorbedStill(security: seq<Requirement>, r: Requirement, q: Requirement)
    requires Absorbed(security, q)
    ensures Absorbed(AppendOne(security, r), q)
  {
    hide Normalize, Trim, RequirementKey;
    var clean := Requirement(Trim(q.scheme), Normalize(q.scopes));
    var after := AppendOne(security, r);
    if HasKey(security, RequirementKey(clean)) {
      var i :| 0 <= i < |security| && RequirementKey(security[i]) == RequirementKey(clean);
      assert after[i] == security[i];
    }
  }

  lemma {:induction false} AllAbsorbed(security: seq<Requirement>, reqs: seq<Requirement>, k: nat)
    requires k < |reqs|
    ensures Absorbed(AppendAll(security, reqs), reqs[k])
  {
    var n := |reqs| - 1;
    hide AppendOne;
    if k < n {
      AllAbsorbed(security, reqs[..n], k);
      AbsorbedStill(AppendAll(security, reqs[..n]), reqs[n], reqs[k]);
    } else {
      AppendedKey(AppendAll(security, reqs[..n]), reqs[n]);
    }
  }

  lemma {:induction false} AbsorbedAll(security: seq<Requirement>, reqs: seq<Requirement>)
    requires forall k | 0 <= k < |reqs| :: Absorbed(security, reqs[k])
    ensures AppendAll(security, reqs) == security
  {
    if reqs == [] {
    } else {
      AbsorbedAll(security, reqs[..|reqs| - 1]);
      assert Absorbed(security, reqs[|reqs| - 1]);
    }
  }

  /** Expanding a route a second time adds nothing, whatever its requirements and policies. */
  lemma ExpansionIdempotent(security: seq<Requirement>, names: seq<string>, reg: Registry)
    ensures var once := AppendAll(security, RequirementsOf(names, reg));
            AppendAll(once, RequirementsOf(names, reg)) == once
  {
    var reqs := RequirementsOf(names, reg);
    forall k | 0 <= k < |reqs|
      ensures Absorbed(AppendAll(security, reqs), reqs[k])
    {
      AllAbsorbed(security, reqs, k);
    }
    AbsorbedAll(AppendAll(security, reqs), reqs);
  }

  // ---- The decision ------------------------------------------------------

  /** The schemes that concern users and those that concern apps. */
  datatype Schemes = Schemes(user: set<string>, app: set<string>)

  const DEFAULT_SCHEMES := Schemes({"BearerAuth", "OAuth2", "UserToken", "JWT"}, {"ApiKeyAuth", "ApiKey", "APIKey"})

  predicate Relevant(cfg: Schemes, t: PrincipalType, scheme: string) {
    Trim(scheme) != "" && ((t.User? && Trim(scheme) in cfg.user) || (t.App? && Trim(scheme) in cfg.app))
  }

  /** Spaces around a scheme do not matter to whom it concerns. */
  lemma RelevantTrimmed(cfg: Schemes, t: PrincipalType, a: string, scheme: string, b: string)
    requires Blank(a) && Blank(b) && Trimmed(scheme) && scheme != ""
    ensures Relevant(cfg, t, a + scheme + b) <==> (t.User? && scheme in cfg.user) || (t.App? && scheme in cfg.app)
    ensures !Relevant(cfg, t, "")
  {
    TrimDrops(a, scheme, b);
  }

  predicate HasAll(current: seq<string>, required: seq<string>) {
    forall need | need in required && need != "" :: need in current
  }

  method HasAllScopes(current: seq<string>, required: seq<string>) returns (ok: bool)
    ensures ok <==> HasAll(current, required)
  {
    if |required| == 0 {
      return true;
    }
    var held := set x | x in current && x != "";
    for i := 0 to |required|
      invariant forall need | need in required[..i] && need != "" :: need in current
    {
      assert required[..i + 1] == required[..i] + [required[i]];
      if required[i] == "" {
        continue;
      }
      if required[i] !in held {
        assert required[i] in required;
        return false;
      }
    }
    assert required[..|required|] == required;
    ok := true;
  }

  predicate Grants(cfg: Schemes, p: Principal, r: Requirement) {
    Relevant(cfg, p.principalType, r.scheme) && HasAll(p.scopes, r.scopes)
  }

  predicate Granted(cfg: Schemes, p: Principal, security: seq<Requirement>) {
    exists i :: 0 <= i < |security| && Grants(cfg, p, security[i])
  }

  /** A route without requirements is open; otherwise some relevant requirement must be met. */
  predicate Enforced(cfg: Schemes, p: Principal, security: seq<Requirement>) {
    security == [] || Granted(cfg, p, security)
  }

  method RelevantSecurityRequirements(security: seq<Requirement>, t: PrincipalType, cfg: Schemes)
    returns (out: seq<Requirement>)
    ensures forall r :: r in out <==> r in security && Relevant(cfg, t, r.scheme)
  {
    out := [];
    for i := 0 to |security|
      invariant forall r :: r in out <==> r in security[..i] && Relevant(cfg, t, r.scheme)
    {
      assert security[..i + 1] == security[..i] + [security[i]];
      if Relevant(cfg, t, security[i].scheme) {
        out := out + [security[i]];
      }
    }
    assert security[..|security|] == security;
  }

  method EnforceRouteScopes(security: seq<Requirement>, p: Principal, cfg: Schemes) returns (ok: bool)
    ensures ok <==> Enforced(cfg, p, security)
  {
    if |security| == 0 {
      return true;
    }
    hide Relevant, HasAll;
    var requirements := RelevantSecurityRequirements(security, p.principalType, cfg);
    for i := 0 to |requirements|
      invariant forall k | 0 <= k < i :: !HasAll(p.scopes, requirements[k].scopes)
    {
      assert requirements[i] in requirements;
      NothingRequired(p.scopes);
      var all := HasAllScopes(p.scopes, requirements[i].scopes);
      if |requirements[i].scopes| == 0 || all {
        return true;
      }
    }
    assert forall k | 0 <= k < |security| && Relevant(cfg, p.principalType, security[k].scheme) ::
             security[k] in requirements;
    ok := false;
  }

  lemma NothingRequired(scopes: seq<string>)
    ensures HasAll(scopes, [])
  {
  }

  // ---- What policies mean ------------------------------------------------

  /** The policy is for this principal, and its AllScopes are all held or one of its AnyScopes is. */
  predicate Admits(d: Policy, p: Principal) {
    && (d.principalType.AnyType? || d.principalType == p.principalType)
    && ((Normalize(d.allScopes) != [] && forall x | x in Normalize(d.allScopes) :: x in p.scopes) ||
        (exists x | x in Normalize(d.anyScopes) :: x in p.scopes))
  }

  /** The scheme policies use for users concerns users only, and that for apps concerns apps only. */
  predicate Separated(cfg: Schemes) {
    USER_SCHEME in cfg.user && USER_SCHEME !in cfg.app && APP_SCHEME in cfg.app && APP_SCHEME !in cfg.user
  }

  lemma DefaultSeparated()
    ensures Separated(DEFAULT_SCHEMES)
  {
    assert USER_SCHEME[0] == 'B' && APP_SCHEME[0] == 'A';
    assert |USER_SCHEME| == 10 && |APP_SCHEME| == 10;
  }

  lemma SchemesTrimmed()
    ensures Trim(USER_SCHEME) == USER_SCHEME && Trim(APP_SCHEME) == APP_SCHEME && USER_SCHEME != APP_SCHEME
    ensures USER_SCHEME != "" && APP_SCHEME != "" && Free(USER_SCHEME, '|') && Free(APP_SCHEME, '|')
  {
    assert USER_SCHEME[0] == 'B' && USER_SCHEME[9] == 'h' && APP_SCHEME[0] == 'A' && APP_SCHEME[9] == 'h';
    TrimTrimmed(USER_SCHEME);
    TrimTrimmed(APP_SCHEME);
  }

  /** A requirement as policies produce them. */
  predicate Proper(r: Requirement) {
    (r.scheme == USER_SCHEME || r.scheme == APP_SCHEME) && r.scopes != [] && Clean(r.scopes)
  }

  lemma EachMember(scheme: string, scopes: seq<string>, r: Requirement)
    ensures r in EachOf(scheme, scopes) <==> r.scheme == scheme && exists x | x in scopes :: r.scopes == [x]
  {
    if r.scheme == scheme && exists x | x in scopes :: r.scopes == [x] {
      var x :| x in scopes && r.scopes == [x];
      var k :| 0 <= k < |scopes| && scopes[k] == x;
      assert EachOf(scheme, scopes)[k] == r;
    }
  }

  lemma {:induction false} SchemesMember(schemes: seq<string>, allScopes: seq<string>, anyScopes: seq<string>,
                                         r: Requirement)
    ensures r in ForSchemes(schemes, allScopes, anyScopes) <==>
            r.scheme in schemes &&
            ((allScopes != [] && r.scopes == allScopes) || exists x | x in anyScopes :: r.scopes == [x])
  {
    if schemes == [] {
    } else {
      var n := |schemes| - 1;
      SchemesMember(schemes[..n], allScopes, anyScopes, r);
      EachMember(schemes[n], anyScopes, r);
      assert r.scheme in schemes <==> r.scheme in schemes[..n] || r.scheme == schemes[n];
    }
  }

  lemma PolicyProper(d: Policy, r: Requirement)
    requires r in PolicyRequirements(d)
    ensures Proper(r) && forall x | x in r.scopes :: x in Normalize(d.allScopes) || x in Normalize(d.anyScopes)
  {
    SchemesMember(SchemesOf(d.principalType), Normalize(d.allScopes), Normalize(d.anyScopes), r);
    NormalizeClean(d.allScopes);
    NormalizeClean(d.anyScopes);
    hide Normalize, Trim;
  }

  /** Some requirement of a policy grants exactly when the policy admits. */
  lemma PolicyGrants(cfg: Schemes, p: Principal, d: Policy)
    requires Separated(cfg) && !p.principalType.AnyType?
    ensures (exists r | r in PolicyRequirements(d) :: Grants(cfg, p, r)) <==> Admits(d, p)
  {
    var allScopes, anyScopes := Normalize(d.allScopes), Normalize(d.anyScopes);
    SchemesTrimmed();
    NormalizeClean(d.allScopes);
    NormalizeClean(d.anyScopes);
    hide Normalize, Trim, Ascending, Trimmed, ForSchemes;
    var mine := if p.principalType.User? then USER_SCHEME else APP_SCHEME;
    forall r
      ensures r in PolicyRequirements(d) <==>
              r.scheme in SchemesOf(d.principalType) &&
              ((allScopes != [] && r.scopes == allScopes) || exists x | x in anyScopes :: r.scopes == [x])
    {
      SchemesMember(SchemesOf(d.principalType), allScopes, anyScopes, r);
    }
    hide PolicyRequirements;
    if Admits(d, p) {
      if allScopes != [] && forall x | x in allScopes :: x in p.scopes {
        assert Grants(cfg, p, Requirement(mine, allScopes));
      } else {
        var x :| x in anyScopes && x in p.scopes;
        assert Grants(cfg, p, Requirement(mine, [x]));
      }
    }
  }

  // ---- Expansion preserves the decision ----------------------------------

  predicate CommaFree(r: Requirement) {
    AllFree(r.scopes, ',')
  }

  /** On proper requirements without commas the key tells requirements apart. */
  lemma KeyInjective(a: Requirement, b: Requirement)
    requires Proper(a) && Proper(b) && CommaFree(a) && CommaFree(b)
    ensures RequirementKey(a) == RequirementKey(b) <==> a == b
  {
    SchemesTrimmed();
    NormalizeClean(a.scopes);
    NormalizeClean(b.scopes);
    hide Trim, Normalize, Clean;
    if RequirementKey(a) == RequirementKey(b) {
      FirstPart(a.scheme, Join(a.scopes, ','), b.scheme, Join(b.scopes, ','), '|');
      JoinSplit(a.scopes, ',');
      JoinSplit(b.scopes, ',');
    }
  }

  /** In general a key says the trimmed scheme and which non-blank scopes there are, as long as no bar
      is in the scheme and no comma in a scope. */
  lemma KeyExactly(a: Requirement, b: Requirement)
    requires Free(Trim(a.scheme), '|') && Free(Trim(b.scheme), '|')
    requires AllFree(Normalize(a.scopes), ',') && AllFree(Normalize(b.scopes), ',')
    ensures RequirementKey(a) == RequirementKey(b) <==>
            Trim(a.scheme) == Trim(b.scheme) && forall x :: Has(a.scopes, x) <==> Has(b.scopes, x)
  {
    SameNormal(a.scopes, b.scopes);
    NormalizeClean(a.scopes);
    NormalizeClean(b.scopes);
    hide Trim, Normalize, Ascending, Trimmed;
    var p, q := Normalize(a.scopes), Normalize(b.scopes);
    if RequirementKey(a) == RequirementKey(b) {
      FirstPart(Trim(a.scheme), Join(p, ','), Trim(b.scheme), Join(q, ','), '|');
      JoinApart(p, q);
    }
  }

  lemma JoinApart(p: seq<string>, q: seq<string>)
    requires AllFree(p, ',') && AllFree(q, ',') && "" !in p && "" !in q
    requires Join(p, ',') == Join(q, ',')
    ensures p == q
  {
    assert (p != [] ==> p[0] in p) && (q != [] ==> q[0] in q);
    if p != [] && q != [] {
      JoinSplit(p, ',');
      JoinSplit(q, ',');
    }
  }

  /** A requirement is appended in its trimmed form, unless its scheme is blank, all its scopes are, or
      the route has one of its key. */
  lemma AppendedExactly(security: seq<Requirement>, r: Requirement)
    ensures var scheme, scopes := Trim(r.scheme), Normalize(r.scopes);
            AppendOne(security, r) ==
            if scheme == "" || (forall x | x in r.scopes :: Trim(x) == "") ||
               (exists k :: 0 <= k < |security| && RequirementKey(security[k]) == RequirementKey(r))
            then security else security + [Requirement(scheme, scopes)]
  {
    Normalized(r.scopes);
    NormalizeClean(r.scopes);
    NormalizeClean(Normalize(r.scopes));
    TrimIsTrimmed(r.scheme);
    hide Trim, Normalize, Clean, Ascending;
    assert Normalize(r.scopes) != [] ==> Normalize(r.scopes)[0] in Normalize(r.scopes);
    if x :| x in r.scopes && Trim(x) != "" {
      assert Has(r.scopes, Trim(x));
    }
    assert RequirementKey(Requirement(Trim(r.scheme), Normalize(r.scopes))) == RequirementKey(r);
  }

  lemma ProperAppended(security: seq<Requirement>, r: Requirement)
    requires Proper(r)
    ensures AppendOne(security, r) == if HasKey(security, RequirementKey(r)) then security else security + [r]
  {
    SchemesTrimmed();
    NormalizeClean(r.scopes);
  }

  /** Appending proper requirements without commas loses none of them. */
  lemma {:induction false} NoneLost(reqs: seq<Requirement>, r: Requirement)
    requires forall q | q in reqs :: Proper(q) && CommaFree(q)
    ensures r in AppendAll([], reqs) <==> r in reqs
  {
    hide Proper, CommaFree, RequirementKey, AppendOne;
    if reqs == [] {
    } else {
      var n := |reqs| - 1;
      var front, last := AppendAll([], reqs[..n]), reqs[n];
      assert last in reqs && forall q | q in reqs[..n] :: q in reqs;
      NoneLost(reqs[..n], r);
      ProperAppended(front, last);
      assert r in reqs <==> r in reqs[..n] || r == last;
      if HasKey(front, RequirementKey(last)) {
        var i :| 0 <= i < |front| && RequirementKey(front[i]) == RequirementKey(last);
        assert front[i] in front;
        NoneLost(reqs[..n], front[i]);
        KeyInjective(front[i], last);
      }
    }
  }

  lemma {:induction false} NamedMember(names: seq<string>, reg: Registry, r: Requirement)
    ensures r in RequirementsOf(names, reg) <==> exists name | name in names && name in reg ::
              r in PolicyRequirements(reg[name])
  {
    hide PolicyRequirements;
    if names == [] {
    } else {
      var n := |names| - 1;
      NamedMember(names[..n], reg, r);
      assert forall name :: name in names <==> name in names[..n] || name == names[n];
    }
  }

  /** No scope of a named policy holds a comma. */
  predicate CommaFreePolicies(names: seq<string>, reg: Registry) {
    forall name | name in names && name in reg ::
      AllFree(Normalize(reg[name].allScopes), ',') && AllFree(Normalize(reg[name].anyScopes), ',')
  }

  lemma NamedProper(names: seq<string>, reg: Registry, r: Requirement)
    requires CommaFreePolicies(names, reg) && r in RequirementsOf(names, reg)
    ensures Proper(r) && CommaFree(r)
  {
    NamedMember(names, reg, r);
    hide PolicyRequirements, Normalize, Proper;
    var name :| name in names && name in reg && r in PolicyRequirements(reg[name]);
    PolicyProper(reg[name], r);
    forall i | 0 <= i < |r.scopes|
      ensures Free(r.scopes[i], ',')
    {
      assert r.scopes[i] in r.scopes;
    }
  }

  /** The decision on a route whose requirements come from its policies alone is what the policies
      mean: it is open if they require nothing, and otherwise admits exactly the principals that
      some named, known policy admits. */
  lemma DecisionPreserved(cfg: Schemes, p: Principal, policies: seq<string>, reg: Registry)
    requires Separated(cfg) && !p.principalType.AnyType? && CommaFreePolicies(Normalize(policies), reg)
    ensures var names := Normalize(policies);
            Enforced(cfg, p, AppendAll([], RequirementsOf(names, reg))) <==>
            RequirementsOf(names, reg) == [] || exists name | name in names && name in reg :: Admits(reg[name], p)
  {
    var names := Normalize(policies);
    hide Normalize;
    var reqs := RequirementsOf(names, reg);
    var kept := AppendAll([], reqs);
    forall r
      ensures r in reqs ==> Proper(r) && CommaFree(r)
    {
      if r in reqs {
        NamedProper(names, reg, r);
      }
    }
    forall r
      ensures r in kept <==> r in reqs
      ensures r in reqs <==> exists name | name in names && name in reg :: r in PolicyRequirements(reg[name])
    {
      NoneLost(reqs, r);
      NamedMember(names, reg, r);
    }
    hide Proper, CommaFree, RequirementsOf, AppendAll, Grants, PolicyRequirements, CommaFreePolicies, Separated;
    assert kept == [] <==> reqs == [] by {
      assert reqs != [] ==> reqs[0] in reqs;
      assert kept != [] ==> kept[0] in kept;
    }
    forall name | name in names && name in reg
      ensures Admits(reg[name], p) <==> exists r | r in PolicyRequirements(reg[name]) :: Grants(cfg, p, r)
    {
      PolicyGrants(cfg, p, reg[name]);
    }
    hide Admits;
    GrantedMember(cfg, p, kept);
  }

  lemma GrantedMember(cfg: Schemes, p: Principal, security: seq<Requirement>)
    ensures Granted(cfg, p, security) <==> exists r | r in security :: Grants(cfg, p, r)
  {
    hide Grants;
    if r :| r in security && Grants(cfg, p, r) {
      var i :| 0 <= i < |security| && security[i] == r;
    }
  }

  // ---- When commas lose a requirement ------------------------------------

  /** Every requirement asked for is implied by one that was kept. */
  predicate Covered(reqs: seq<Requirement>, kept: seq<Requirement>) {
    forall r | r in reqs :: Implied(r, kept)
  }

  predicate Implied(r: Requirement, kept: seq<Requirement>) {
    exists k | k in kept :: k.scheme == r.scheme && forall x | x in k.scopes :: x in r.scopes
  }

  lemma ProperGrants(cfg: Schemes, p: Principal, r: Requirement)
    requires Separated(cfg) && Proper(r)
    ensures Grants(cfg, p, r) <==>
            p.principalType == (if r.scheme == USER_SCHEME then User else App) &&
            forall x | x in r.scopes :: x in p.scopes
  {
    SchemesTrimmed();
  }

  lemma {:induction false} KeptAmong(reqs: seq<Requirement>, r: Requirement)
    requires forall q | q in reqs :: Proper(q)
    ensures r in AppendAll([], reqs) ==> r in reqs
  {
    hide Proper, RequirementKey, AppendOne;
    if reqs == [] {
    } else {
      var n := |reqs| - 1;
      assert reqs[n] in reqs && forall q | q in reqs[..n] :: q in reqs;
      KeptAmong(reqs[..n], r);
      ProperAppended(AppendAll([], reqs[..n]), reqs[n]);
    }
  }

  lemma Implier(r: Requirement, kept: seq<Requirement>) returns (k: Requirement)
    requires Implied(r, kept)
    ensures k in kept && k.scheme == r.scheme && forall x | x in k.scopes :: x in r.scopes
  {
    k :| k in kept && k.scheme == r.scheme && forall x | x in k.scopes :: x in r.scopes;
  }

  lemma CoveredGrants(cfg: Schemes, reqs: seq<Requirement>, kept: seq<Requirement>, p: Principal)
    requires Separated(cfg) && (forall r | r in reqs :: Proper(r)) && (forall r | r in kept :: r in reqs) &&
               Covered(reqs, kept)
    ensures Granted(cfg, p, kept) <==> Granted(cfg, p, reqs)
  {
    hide Proper, Separated, Grants, Granted, Implied;
    GrantedMember(cfg, p, kept);
    GrantedMember(cfg, p, reqs);
    if r :| r in reqs && Grants(cfg, p, r) {
      var k := Implier(r, kept);
      ProperGrants(cfg, p, r);
      ProperGrants(cfg, p, k);
    }
  }

  /** A principal with just the scopes of a requirement that none kept implies. */
  lemma UncoveredLoses(cfg: Schemes, reqs: seq<Requirement>, kept: seq<Requirement>, r: Requirement)
    requires Separated(cfg) && (forall q | q in reqs :: Proper(q)) && (forall q | q in kept :: q in reqs)
    requires r in reqs && !Implied(r, kept)
    ensures var p := Principal(if r.scheme == USER_SCHEME then User else App, r.scopes);
            !Granted(cfg, p, kept) && Granted(cfg, p, reqs)
  {
    var p := Principal(if r.scheme == USER_SCHEME then User else App, r.scopes);
    hide Proper, Separated, Grants, Granted;
    ProperGrants(cfg, p, r);
    GrantedMember(cfg, p, reqs);
    GrantedMember(cfg, p, kept);
    forall k | k in kept
      ensures !Grants(cfg, p, k)
    {
      ProperGrants(cfg, p, k);
      SchemeEither(k);
      SchemeEither(r);
    }
  }

  /** No requirement before position j has its key. */
  predicate FirstOfKey(reqs: seq<Requirement>, j: nat)
    requires j < |reqs|
  {
    forall i | 0 <= i < j :: RequirementKey(reqs[i]) != RequirementKey(reqs[j])
  }

  /** Some requirement that is the first of its key asks for no more, under the same scheme. */
  predicate ImpliedByFirst(reqs: seq<Requirement>, r: Requirement) {
    exists j :: 0 <= j < |reqs| && FirstOfKey(reqs, j) && reqs[j].scheme == r.scheme &&
        forall x | x in reqs[j].scopes :: x in r.scopes
  }

  lemma FirstLonger(reqs: seq<Requirement>, j: nat)
    requires j < |reqs| - 1
    ensures FirstOfKey(reqs[..|reqs| - 1], j) <==> FirstOfKey(reqs, j)
  {
    hide RequirementKey;
    assert forall i | 0 <= i <= j :: reqs[..|reqs| - 1][i] == reqs[i];
  }

  /** Every key asked for is kept. */
  lemma {:induction false} KeysKept(reqs: seq<Requirement>)
    requires forall q | q in reqs :: Proper(q)
    ensures forall j | 0 <= j < |reqs| :: HasKey(AppendAll([], reqs), RequirementKey(reqs[j]))
  {
    hide Proper, RequirementKey, AppendOne, HasKey;
    if reqs == [] {
    } else {
      var n := |reqs| - 1;
      var front, kept, all := reqs[..n], AppendAll([], reqs[..n]), AppendAll([], reqs);
      assert reqs[n] in reqs && forall q | q in front :: q in reqs;
      KeysKept(front);
      ProperAppended(kept, reqs[n]);
      KeysStay(front, kept, all);
      LastKey(reqs, kept, all);
      assert forall j | 0 <= j < n :: front[j] == reqs[j];
    }
  }

  /** Kept are the first requirements of each key. */
  lemma {:induction false} KeptExactly(reqs: seq<Requirement>, r: Requirement)
    requires forall q | q in reqs :: Proper(q)
    ensures r in AppendAll([], reqs) <==> exists j :: 0 <= j < |reqs| && reqs[j] == r && FirstOfKey(reqs, j)
  {
    hide Proper, RequirementKey, AppendOne, HasKey, FirstOfKey;
    if reqs == [] {
    } else {
      var n := |reqs| - 1;
      var front, kept := reqs[..n], AppendAll([], reqs[..n]);
      assert reqs[n] in reqs && forall q | q in front :: q in reqs;
      KeptExactly(front, r);
      ProperAppended(kept, reqs[n]);
      LastFirst(reqs);
      if j :| 0 <= j < n && front[j] == r && FirstOfKey(front, j) {
        FirstLonger(reqs, j);
        assert reqs[j] == r;
      }
      if j :| 0 <= j < n && reqs[j] == r && FirstOfKey(reqs, j) {
        FirstLonger(reqs, j);
        assert front[j] == r;
      }
    }
  }

  lemma LastFirst(reqs: seq<Requirement>)
    requires reqs != [] && forall q | q in reqs :: Proper(q)
    ensures var n := |reqs| - 1;
            FirstOfKey(reqs, n) <==> !HasKey(AppendAll([], reqs[..n]), RequirementKey(reqs[n]))
  {
    var n := |reqs| - 1;
    hide Proper, RequirementKey, AppendAll, HasKey;
    assert forall q | q in reqs[..n] :: q in reqs;
    KeysKept(reqs[..n]);
    KeyFound(reqs[..n], AppendAll([], reqs[..n]), reqs[n]);
    assert forall i | 0 <= i < n :: reqs[i] == reqs[..n][i];
  }

  lemma LastKey(reqs: seq<Requirement>, kept: seq<Requirement>, all: seq<Requirement>)
    requires reqs != []
    requires var last := reqs[|reqs| - 1]; all == if HasKey(kept, RequirementKey(last)) then kept else kept + [last]
    ensures HasKey(all, RequirementKey(reqs[|reqs| - 1]))
  {
    hide RequirementKey;
    if all != kept {
      assert all[|kept|] == reqs[|reqs| - 1];
    }
  }

  lemma KeysStay(front: seq<Requirement>, kept: seq<Requirement>, all: seq<Requirement>)
    requires kept <= all && forall j | 0 <= j < |front| :: HasKey(kept, RequirementKey(front[j]))
    ensures forall j | 0 <= j < |front| :: HasKey(all, RequirementKey(front[j]))
  {
    hide RequirementKey;
    forall j | 0 <= j < |front|
      ensures HasKey(all, RequirementKey(front[j]))
    {
      var i :| 0 <= i < |kept| && RequirementKey(kept[i]) == RequirementKey(front[j]);
      assert all[i] == kept[i];
    }
  }

  /** A key is kept exactly if some requirement has it. */
  lemma KeyFound(front: seq<Requirement>, kept: seq<Requirement>, r: Requirement)
    requires kept == AppendAll([], front) && forall q | q in front :: Proper(q)
    requires forall j | 0 <= j < |front| :: HasKey(kept, RequirementKey(front[j]))
    ensures HasKey(kept, RequirementKey(r)) <==> exists i ::
              0 <= i < |front| && RequirementKey(front[i]) == RequirementKey(r)
  {
    hide Proper, RequirementKey, AppendOne, AppendAll;
    if HasKey(kept, RequirementKey(r)) {
      var i :| 0 <= i < |kept| && RequirementKey(kept[i]) == RequirementKey(r);
      KeptAmong(front, kept[i]);
      assert kept[i] in kept;
      var j :| 0 <= j < |front| && front[j] == kept[i];
    }
  }

  /** In general the deduplicated requirements decide like all of them, for every principal, if and
      only if each requirement is implied by one that is the first of its key. */
  lemma {:induction false} PreservedExactly(cfg: Schemes, reqs: seq<Requirement>)
    requires Separated(cfg) && forall r | r in reqs :: Proper(r)
    ensures (forall p: Principal :: Granted(cfg, p, AppendAll([], reqs)) <==> Granted(cfg, p, reqs)) <==>
            forall r | r in reqs :: ImpliedByFirst(reqs, r)
  {
    var kept := AppendAll([], reqs);
    hide Proper, Separated, Granted, AppendAll, Implied, FirstOfKey;
    forall r | r in kept
      ensures r in reqs
    {
      KeptAmong(reqs, r);
    }
    forall r | r in reqs
      ensures Implied(r, kept) <==> ImpliedByFirst(reqs, r)
    {
      ImpliedAlike(reqs, kept, r);
    }
    hide ImpliedByFirst;
    if Covered(reqs, kept) {
      forall p: Principal
        ensures Granted(cfg, p, kept) <==> Granted(cfg, p, reqs)
      {
        CoveredGrants(cfg, reqs, kept, p);
      }
    } else {
      var r :| r in reqs && !Implied(r, kept);
      UncoveredLoses(cfg, reqs, kept, r);
    }
  }

  lemma ImpliedAlike(reqs: seq<Requirement>, kept: seq<Requirement>, r: Requirement)
    requires kept == AppendAll([], reqs) && forall q | q in reqs :: Proper(q)
    ensures Implied(r, kept) <==> ImpliedByFirst(reqs, r)
  {
    hide Proper, AppendAll, FirstOfKey, RequirementKey;
    if Implied(r, kept) {
      var k := Implier(r, kept);
      KeptExactly(reqs, k);
      var j :| 0 <= j < |reqs| && reqs[j] == k && FirstOfKey(reqs, j);
    }
    if ImpliedByFirst(reqs, r) {
      var j :| 0 <= j < |reqs| && FirstOfKey(reqs, j) && reqs[j].scheme == r.scheme &&
          forall x | x in reqs[j].scopes :: x in r.scopes;
      KeptExactly(reqs, reqs[j]);
      assert reqs[j] in kept;
    }
  }

  lemma SchemeEither(r: Requirement)
    requires Proper(r)
    ensures r.scheme == USER_SCHEME || r.scheme == APP_SCHEME
  {
  }

  const TWO := Requirement(USER_SCHEME, ["a", "b"])
  const ONE := Requirement(USER_SCHEME, ["a,b"])

  /** Scopes with commas do lose one: two scopes a and b, and one scope that reads a,b. */
  lemma {:induction false} CommaCollides(cfg: Schemes)
    requires Separated(cfg)
    ensures Proper(TWO) && Proper(ONE) && AppendAll([], [TWO, ONE]) == [TWO]
    ensures Granted(cfg, Principal(User, ONE.scopes), [TWO, ONE]) && !Granted(cfg, Principal(User, ONE.scopes), [TWO])
  {
    LiteralsClean();
    CommaKeys();
    LostSecond(TWO, ONE);
    var p := Principal(User, ONE.scopes);
    ProperGrants(cfg, p, TWO);
    ProperGrants(cfg, p, ONE);
    assert "a" in TWO.scopes && "a" !in p.scopes;
    hide Grants;
    assert Grants(cfg, p, [TWO, ONE][1]) && !Grants(cfg, p, [TWO][0]);
  }

  /** Of two proper requirements with one key, only the first is kept. */
  lemma LostSecond(a: Requirement, b: Requirement)
    requires Proper(a) && Proper(b) && RequirementKey(a) == RequirementKey(b)
    ensures AppendAll([], [a, b]) == [a]
  {
    ProperAppended([], a);
    ProperAppended([a], b);
    hide Proper, RequirementKey, AppendOne;
    assert RequirementKey([a][0]) == RequirementKey(b);
    assert [a, b][..1] == [a] && [a][..0] == [];
    assert AppendAll([], [a]) == [a];
  }

  lemma LiteralsClean()
    ensures Clean(TWO.scopes) && Clean(ONE.scopes)
  {
    assert Less("a", "b");
  }

  lemma CommaKeys()
    ensures RequirementKey(TWO) == RequirementKey(ONE)
  {
    LiteralsClean();
    NormalizeClean(TWO.scopes);
    NormalizeClean(ONE.scopes);
    hide Normalize, Trim;
    assert Join(TWO.scopes, ',') == "a,b" by {
      assert TWO.scopes[1..] == ["b"];
    }
  }
}
