/** Bindings, their scoped names, and the param tag strings that refer to them. */
module Tags {
  import opened Text

  /** A Go type as the graph code sees it: identity, its printed form, and the identities of the
      interfaces it satisfies, itself and through its pointer type. */
  datatype GoType = GoType(
    id: nat,
    text: string,
    iface: bool,
    pointer: bool,
    implements: set<nat>,
    ptrImplements: set<nat>,
    elem: Option<GoType>)

  /** One tagged export or request. */
  datatype TagSet = TagSet(name: string, group: string, typ: GoType)

  const NAME := "name:\""
  const GROUP := "group:\""
  const OPTIONAL := "optional:\""
  const MARK := "__di_replace_"

  function FullTagKey(ts: TagSet): string {
    ts.typ.text + "|n:" + ts.name + "|g:" + ts.group
  }

  function SafeChar(c: char): string {
    if c == '*' then "ptr"
    else if c == '/' || c == '.' || c == '[' || c == ']' then "_"
    else [c]
  }

  function SafeText(s: string): string {
    if s == "" then "" else SafeChar(s[0]) + SafeText(s[1..])
  }

  function ScopedTypeName(typ: GoType, id: nat): string {
    MARK + Itoa(id) + "__" + SafeText(typ.text)
  }

  function ScopedTagSet(ts: TagSet, id: nat): TagSet {
    if ts.name != "" then TagSet(ts.name + MARK + Itoa(id), "", ts.typ)
    else if ts.group != "" then TagSet("", ts.group + MARK + Itoa(id), ts.typ)
    else TagSet(ScopedTypeName(ts.typ, id), "", ts.typ)
  }

  /** Character by character: a star is spelt out, and slash, dot and brackets become underscores. */
  lemma {:induction false} SafeTextAt(a: string, c: char, b: string)
    ensures SafeText(a + [c] + b) ==
            SafeText(a) + (if c == '*' then "ptr" else if c in "/.[]" then "_" else [c]) + SafeText(b)
  {
    var s := a + [c] + b;
    if a == "" {
      assert s[1..] == b && s[0] == c;
    } else {
      assert s[1..] == a[1..] + [c] + b && s[0] == a[0];
      SafeTextAt(a[1..], c, b);
    }
  }

  // ---- Fresh names -------------------------------------------------------

  /** The last underscore of x + s is the last character of x. */
  lemma LastUnderscore(x: string, s: string)
    requires x != "" && x[|x| - 1] == '_' && forall c | c in s :: '0' <= c <= '9'
    ensures (x + s)[|x| - 1] == '_' && forall j | |x| <= j < |x| + |s| :: (x + s)[j] != '_'
  {
    forall j | |x| <= j < |x| + |s|
      ensures (x + s)[j] != '_'
    {
      assert (x + s)[j] == s[j - |x|] && s[j - |x|] in s;
    }
  }

  lemma SuffixInjective(a: string, b: string, m: nat, n: nat)
    requires a + MARK + Itoa(m) == b + MARK + Itoa(n)
    ensures a == b && m == n
  {
    var x, y := a + MARK, b + MARK;
    LastUnderscore(x, Itoa(m));
    LastUnderscore(y, Itoa(n));
    assert |x| == |y|;
    assert (x + Itoa(m))[..|x|] == x && (y + Itoa(n))[..|y|] == y;
    assert (x + Itoa(m))[|x|..] == Itoa(m) && (y + Itoa(n))[|y|..] == Itoa(n);
    assert x[..|a|] == a && y[..|b|] == b;
    ItoaInjective(m, n);
  }

  /** Two scoped bindings coincide only when they come from the same binding under the same id,
      for two named bindings, two grouped bindings, or two untagged bindings. */
  lemma FreshNames(a: TagSet, b: TagSet, m: nat, n: nat)
    requires ScopedTagSet(a, m) == ScopedTagSet(b, n)
    requires (a.name != "") == (b.name != "") && (a.group != "") == (b.group != "")
    ensures m == n && a.typ == b.typ && a.name == b.name && (a.name == "" ==> a.group == b.group)
  {
    if a.name != "" {
      SuffixInjective(a.name, b.name, m, n);
    } else if a.group != "" {
      SuffixInjective(a.group, b.group, m, n);
    } else {
      MiddleInjective(MARK, Itoa(m), Itoa(n), "__", SafeText(a.typ.text));
      ItoaInjective(m, n);
    }
  }

  lemma MiddleInjective(pre: string, s: string, t: string, mid: string, post: string)
    requires pre + s + mid + post == pre + t + mid + post
    ensures s == t
  {
    var left, right := pre + s + mid + post, pre + t + mid + post;
    assert |s| == |t|;
    assert left[|pre|..|pre| + |s|] == s && right[|pre|..|pre| + |t|] == t;
  }

  // ---- Reading and rewriting one tag string ------------------------------

  /** The quoted value after the first occurrence of key, if that value is closed. */
  function ExtractTagValue(tag: string, key: string): Option<string> {
    var idx := Index(tag, key);
    if idx < 0 then None
    else
      var start := idx + |key|;
      var end := Index(tag[start..], "\"");
      if end < 0 then None else Some(tag[start..start + end])
  }

  function ValueOr(v: Option<string>): string {
    if v.Some? then v.value else ""
  }

  function ParseTagNameGroup(tag: string): (string, string) {
    (ValueOr(ExtractTagValue(tag, NAME)), ValueOr(ExtractTagValue(tag, GROUP)))
  }

  function ReplaceTagValue(tag: string, key: string, val: string): Option<string> {
    var idx := Index(tag, key);
    if idx < 0 then None
    else
      var start := idx + |key|;
      var end := Index(tag[start..], "\"");
      if end < 0 then None else Some(tag[..start] + val + tag[start + end..])
  }

  function RewriteParamTag(tag: string, scoped: TagSet): string {
    if scoped.group == "" && scoped.name == "" then tag
    else
      var repl := if scoped.group != "" then GROUP + scoped.group + "\"" else NAME + scoped.name + "\"";
      var byName := if Contains(tag, NAME) then ReplaceTagValue(tag, NAME, scoped.name) else None;
      var byGroup := if Contains(tag, GROUP) then ReplaceTagValue(tag, GROUP, scoped.group) else None;
      if byName.Some? then byName.value
      else if byGroup.Some? then byGroup.value
      else if tag == "" then repl
      else tag + " " + repl
  }

  predicate Plain(s: string) {
    '"' !in s && ':' !in s
  }

  predicate PlainTagSet(ts: TagSet) {
    Plain(ts.name) && Plain(ts.group) && Plain(ts.typ.text)
  }

  /** Exactly the tag strings that survive a rewrite: a non-empty group must not come with a closed
      name, and without a group the tag must carry a closed name or neither key at all. */
  predicate Rewritable(tag: string) {
    var name, group := ExtractTagValue(tag, NAME), ExtractTagValue(tag, GROUP);
    if group.Some? && group.value != "" then name.None?
    else name.Some? || (!Contains(tag, NAME) && !Contains(tag, GROUP))
  }

  lemma {:induction false} SafeTextPlain(s: string)
    requires Plain(s)
    ensures Plain(SafeText(s))
  {
    if s == "" {
    } else {
      assert s[0] in s && forall c | c in s[1..] :: c in s;
      SafeTextPlain(s[1..]);
    }
  }

  lemma ScopedPlain(ts: TagSet, id: nat)
    requires PlainTagSet(ts)
    ensures PlainTagSet(ScopedTagSet(ts, id))
  {
    SafeTextPlain(ts.typ.text);
  }

  /** A key such as name:" — one quote, at the end, after a colon. */
  ghost predicate IsKey(key: string) {
    |key| >= 2 && key[|key| - 1] == '"' && key[|key| - 2] == ':' && '"' !in key[..|key| - 1] && ' ' !in key
  }

  /** In a string that is cut as a, quote-free value, b around two quotes, a key can only occur
      wholly before or wholly after the value. */
  lemma KeyAvoidsValue(a: string, v: string, b: string, key: string, j: nat)
    requires IsKey(key)
    requires |a| > 0 && a[|a| - 1] == '"' && |b| > 0 && b[0] == '"'
    requires '"' !in v && (v != "" ==> v[|v| - 1] != ':')
    ensures At(a + v + b, key, j) <==>
      (j + |key| <= |a| && At(a, key, j)) || (j >= |a| + |v| && At(b, key, j - |a| - |v|))
  {
    var s := a + v + b;
    var q := |a| + |v|;
    assert s[|a| - 1] == '"' && s[q] == '"';
    assert s[q - 1] == if v == "" then a[|a| - 1] else v[|v| - 1];
    forall k | |a| <= k < q
      ensures s[k] != '"'
    {
      assert s[k] == v[k - |a|] && v[k - |a|] in v;
    }
    if At(s, key, j) {
      var e := j + |key| - 1;
      forall k | j <= k < e
        ensures s[k] != '"'
      {
        assert s[j..j + |key|][k - j] == key[k - j] == key[..|key| - 1][k - j];
        assert key[k - j] in key[..|key| - 1];
      }
      assert s[e] == s[j..j + |key|][|key| - 1] == '"';
      assert s[e - 1] == s[j..j + |key|][|key| - 2] == ':';
      if j + |key| <= |a| {
        assert a[j..j + |key|] == s[j..j + |key|];
      } else {
        assert j > q;
        assert b[j - q..j - q + |key|] == s[j..j + |key|];
      }
    } else {
      if j + |key| <= |a| {
        assert a[j..j + |key|] == s[j..j + |key|];
      }
      if j >= q && j - q + |key| <= |b| {
        assert b[j - q..j - q + |key|] == s[j..j + |key|];
      }
    }
  }

  lemma ExtractIs(tag: string, key: string, i: nat, v: string)
    requires At(tag, key, i) && forall j: nat | j < i :: !At(tag, key, j)
    requires '"' !in v && i + |key| + |v| < |tag|
    requires tag[i + |key|..i + |key| + |v|] == v && tag[i + |key| + |v|] == '"'
    ensures ExtractTagValue(tag, key) == Some(v)
  {
    FirstAt(tag, key, i);
    var rest := tag[i + |key|..];
    assert At(rest, "\"", |v|) by {
      assert rest[|v|] == '"' && rest[|v|..|v| + 1] == [rest[|v|]];
    }
    forall j: nat | j < |v|
      ensures !At(rest, "\"", j)
    {
      assert rest[j] == tag[i + |key|..i + |key| + |v|][j] == v[j];
      assert v[j] in v;
      assert rest[j..j + 1][0] == v[j];
    }
    FirstAt(rest, "\"", |v|);
  }

  /** What a successful extraction says about the string. */
  lemma ExtractShape(tag: string, key: string) returns (a: string, v: string, b: string)
    requires ExtractTagValue(tag, key).Some? && |key| > 0 && key[|key| - 1] == '"'
    ensures tag == a + v + b && ExtractTagValue(tag, key) == Some(v)
    ensures |a| == Index(tag, key) + |key| && At(a, key, |a| - |key|) && a[|a| - 1] == '"'
    ensures |b| > 0 && b[0] == '"' && '"' !in v
    ensures Index(tag[|a|..], "\"") == |v|
  {
    var idx := Index(tag, key);
    var start := idx + |key|;
    var end := Index(tag[start..], "\"");
    a, v, b := tag[..start], tag[start..start + end], tag[start + end..];
    assert a[idx..idx + |key|] == tag[idx..idx + |key|] == key;
    assert a[start - 1] == key[|key| - 1];
    assert tag[start..][end..end + 1] == "\"";
    assert b[0] == tag[start..][end..end + 1][0];
    forall j | 0 <= j < |v|
      ensures v[j] != '"'
    {
      assert tag[start..][j..j + 1] == [v[j]];
      assert !At(tag[start..], "\"", j);
    }
  }

  /** Where a key occurs first in a string cut as a, value, b. */
  lemma FirstAround(a: string, v: string, b: string, key: string)
    requires IsKey(key)
    requires |a| > 0 && a[|a| - 1] == '"' && |b| > 0 && b[0] == '"'
    requires '"' !in v && (v != "" ==> v[|v| - 1] != ':')
    ensures Index(a + v + b, key) ==
            if Index(a, key) >= 0 then Index(a, key)
            else if Index(b, key) >= 0 then |a| + |v| + Index(b, key)
            else -1
  {
    var s := a + v + b;
    forall j: nat
      ensures At(s, key, j) <==>
        (j + |key| <= |a| && At(a, key, j)) || (j >= |a| + |v| && At(b, key, j - |a| - |v|))
    {
      KeyAvoidsValue(a, v, b, key, j);
    }
    var i, k := Index(a, key), Index(b, key);
    if i >= 0 {
      FirstAt(s, key, i);
    } else if k >= 0 {
      var at := |a| + |v| + k;
      assert At(b, key, at - |a| - |v|);
      FirstAt(s, key, at);
    }
  }

  /** The value read at a known first occurrence. */
  lemma ExtractAt(tag: string, key: string, i: nat)
    requires Index(tag, key) == i
    ensures i + |key| <= |tag|
    ensures var rest := tag[i + |key|..]; var end := Index(rest, "\"");
            ExtractTagValue(tag, key) == if end < 0 then None else Some(rest[..end])
  {
    var start := i + |key|;
    var end := Index(tag[start..], "\"");
    if end >= 0 {
      assert tag[start..][..end] == tag[start..start + end];
    }
  }

  lemma ValueInPrefix(a: string, rest: string, key: string)
    requires Index(a, key) >= 0 && Index(a + rest, key) == Index(a, key)
    requires Index(a, key) + |key| < |a| && a[|a| - 1] == '"'
    ensures ExtractTagValue(a + rest, key) == ExtractTagValue(a, key)
  {
    SameValueBefore(a, rest, Index(a, key) + |key|);
  }

  /** A key found before the cut: its value is read before the cut too. */
  lemma ValueBefore(a: string, v: string, b: string, key: string)
    requires IsKey(key)
    requires |a| > 0 && a[|a| - 1] == '"' && |a + v + b| >= |a|
    requires |a| < |key| || a[|a| - |key|..] != key
    requires Index(a, key) >= 0 && Index(a + v + b, key) == Index(a, key)
    ensures ExtractTagValue(a + v + b, key) == ExtractTagValue(a, key)
  {
    var i, n := Index(a, key), |a| - |key|;
    assert i + |key| <= |a| && a[i..i + |key|] == key;
    assert a[n..n + |key|] == a[n..];
    assert i + |key| < |a|;
    assert a + v + b == a + (v + b);
    ValueInPrefix(a, v + b, key);
  }

  /** A key found after the cut: its value is read there. */
  lemma ValueAfter(a: string, b: string, key: string)
    requires Index(b, key) >= 0 && Index(a + b, key) == |a| + Index(b, key)
    ensures ExtractTagValue(a + b, key) == ExtractTagValue(b, key)
  {
    var k := Index(b, key);
    ExtractAt(a + b, key, |a| + k);
    ExtractAt(b, key, k);
    assert (a + b)[|a| + k + |key|..] == b[k + |key|..];
  }

  /** Changing one quoted value leaves the value of every other key as it was. */
  lemma OtherKeyKept(a: string, v: string, x: string, b: string, key: string)
    requires IsKey(key)
    requires |a| > 0 && a[|a| - 1] == '"' && |b| > 0 && b[0] == '"'
    requires Plain(v) && Plain(x)
    requires |a| < |key| || a[|a| - |key|..] != key
    ensures ExtractTagValue(a + x + b, key) == ExtractTagValue(a + v + b, key)
  {
    assert x != "" ==> x[|x| - 1] in x;
    assert v != "" ==> v[|v| - 1] in v;
    FirstAround(a, v, b, key);
    FirstAround(a, x, b, key);
    if Index(a, key) >= 0 {
      ValueBefore(a, v, b, key);
      ValueBefore(a, x, b, key);
    } else if Index(b, key) >= 0 {
      ValueAfter(a + v, b, key);
      ValueAfter(a + x, b, key);
    }
  }

  /** A value that starts before the last quote of a closes inside a, whatever follows. */
  lemma SameValueBefore(a: string, rest: string, start: nat)
    requires start < |a| && a[|a| - 1] == '"'
    ensures var end := Index(a[start..], "\"");
            end >= 0 && start + end < |a| &&
            Index((a + rest)[start..], "\"") == end && (a + rest)[start..start + end] == a[start..start + end]
  {
    var n := |a| - 1 - start;
    assert a[start..][n..n + 1] == [a[|a| - 1]];
    assert At(a[start..], "\"", n);
    var end := Index(a[start..], "\"");
    var w := (a + rest)[start..];
    assert w == a[start..] + rest;
    forall j: nat | j <= end
      ensures At(w, "\"", j) == At(a[start..], "\"", j)
    {
      assert w[j..j + 1] == a[start..][j..j + 1];
    }
    FirstAt(w, "\"", end);
  }

  /** A space-free key that occurs in tag + " " + other, starting inside tag, occurs in tag. */
  lemma KeyNotAcrossSpace(tag: string, key: string, other: string, j: nat)
    requires ' ' !in key && j <= |tag| && |key| > 0
    requires At(tag + " " + other, key, j)
    ensures At(tag, key, j)
  {
    var s := tag + " " + other;
    forall k | j <= k < j + |key|
      ensures s[k] != ' '
    {
      assert s[j..j + |key|][k - j] == key[k - j] && key[k - j] in key;
    }
    assert s[|tag|] == ' ';
    assert tag[j..j + |key|] == s[j..j + |key|];
  }

  /** No string ends with both keys. */
  ghost predicate Apart(key: string, other: string) {
    var n := if |key| < |other| then |key| else |other|;
    key[|key| - n..] != other[|other| - n..]
  }

  lemma EndsWithOne(a: string, key: string, other: string)
    requires Apart(key, other) && |a| >= |key| && a[|a| - |key|..] == key
    ensures |a| < |other| || a[|a| - |other|..] != other
  {
    var n := if |key| < |other| then |key| else |other|;
    assert a[|a| - |key|..][|key| - n..] == a[|a| - n..];
    if |a| >= |other| {
      assert a[|a| - |other|..][|other| - n..] == a[|a| - n..];
    }
  }

  /** The first occurrence of the key stays where it was, and carries the new value. */
  lemma OwnKeyReplaced(a: string, v: string, x: string, b: string, key: string)
    requires IsKey(key) && |a| >= |key| && a[|a| - |key|..] == key && a[|a| - 1] == '"'
    requires |b| > 0 && b[0] == '"' && Plain(v) && Plain(x)
    requires forall j: nat | j < |a| - |key| :: !At(a + v + b, key, j)
    ensures ExtractTagValue(a + x + b, key) == Some(x)
  {
    assert v != "" ==> v[|v| - 1] in v;
    assert x != "" ==> x[|x| - 1] in x;
    var s := a + x + b;
    var i := |a| - |key|;
    assert At(a, key, i);
    assert s[|a|..|a| + |x|] == x && s[|a| + |x|] == '"';
    hide At;
    forall j: nat | j <= i
      ensures At(s, key, j) == (j == i)
    {
      KeyAvoidsValue(a, v, b, key, j);
      KeyAvoidsValue(a, x, b, key, j);
    }
    ExtractIs(s, key, i, x);
  }

  /** Replacing the value of key: key now carries x and every other key is as it was. */
  lemma Replaced(tag: string, key: string, x: string, other: string)
    requires IsKey(key) && IsKey(other) && Apart(key, other) && Plain(x)
    requires ExtractTagValue(tag, key).Some? && Plain(ExtractTagValue(tag, key).value)
    ensures Contains(tag, key) && ReplaceTagValue(tag, key, x).Some?
    ensures var out := ReplaceTagValue(tag, key, x).value;
            ExtractTagValue(out, key) == Some(x) && ExtractTagValue(out, other) == ExtractTagValue(tag, other)
  {
    var a, v, b := ExtractShape(tag, key);
    assert tag[..|a|] == a && tag[|a| + |v|..] == b;
    assert ReplaceTagValue(tag, key, x) == Some(a + x + b);
    assert v != "" ==> v[|v| - 1] in v;
    assert x != "" ==> x[|x| - 1] in x;
    assert a[|a| - |key|..] == key;
    EndsWithOne(a, key, other);
    OtherKeyKept(a, v, x, b, other);
    OwnKeyReplaced(a, v, x, b, key);
  }

  function Appended(tag: string, key: string, x: string): string {
    if tag == "" then key + x + "\"" else tag + " " + (key + x + "\"")
  }

  /** Appending a fresh quoted value to a tag that does not carry its key. */
  lemma AppendedValue(tag: string, key: string, x: string)
    requires IsKey(key) && !Contains(tag, key) && Plain(x)
    ensures ExtractTagValue(Appended(tag, key, x), key) == Some(x)
  {
    var pre := if tag == "" then "" else tag + " ";
    var a, b := pre + key, "\"";
    var s := a + x + b;
    assert s == Appended(tag, key, x);
    assert a[|a| - 1] == key[|key| - 1];
    assert x != "" ==> x[|x| - 1] in x;
    assert At(a, key, |pre|);
    forall j: nat | j < |pre|
      ensures !At(s, key, j)
    {
      KeyAvoidsValue(a, x, b, key, j);
      if At(a, key, j) {
        KeyNotAcrossSpace(tag, key, key, j);
      }
    }
    KeyAvoidsValue(a, x, b, key, |pre|);
    ExtractIs(s, key, |pre|, x);
  }

  /** Appending keeps a longer key that is absent from the tag absent. */
  lemma AppendedAbsent(tag: string, key: string, x: string, other: string)
    requires IsKey(key) && IsKey(other) && |key| < |other| && Plain(x)
    requires !Contains(tag, other)
    ensures !Contains(Appended(tag, key, x), other)
  {
    var pre := if tag == "" then "" else tag + " ";
    var a, b := pre + key, "\"";
    var s := a + x + b;
    assert s == Appended(tag, key, x);
    assert a[|a| - 1] == key[|key| - 1];
    assert x != "" ==> x[|x| - 1] in x;
    forall j: nat
      ensures !At(s, other, j)
    {
      KeyAvoidsValue(a, x, b, other, j);
      if At(a, other, j) && j < |pre| {
        KeyNotAcrossSpace(tag, other, key, j);
      }
    }
  }

  /** A value closed in tag stays what it is whatever is appended. */
  lemma ClosedStays(tag: string, key: string, rest: string)
    requires IsKey(key) && ExtractTagValue(tag, key).Some?
    ensures ExtractTagValue(tag + rest, key) == ExtractTagValue(tag, key)
  {
    var a, v, b := ExtractShape(tag, key);
    var s := tag + rest;
    var i := |a| - |key|;
    forall j: nat | j <= i
      ensures At(s, key, j) == At(tag, key, j)
    {
      assert s[j..j + |key|] == tag[j..j + |key|];
    }
    assert s == a + v + (b + rest);
    ExtractIs(s, key, i, v);
  }

  /** A value not closed in tag swallows whatever is appended up to the next quote. */
  lemma UnclosedSwallows(tag: string, key: string, mid: string, rest: string)
    requires IsKey(key) && Contains(tag, key) && ExtractTagValue(tag, key).None? && '"' !in mid
    ensures exists v :: ExtractTagValue(tag + mid + ("\"" + rest), key) == Some(v + mid)
  {
    var s := tag + mid + ("\"" + rest);
    var i := Index(tag, key);
    var tail := tag[i + |key|..];
    assert s == tag[..i + |key|] + (tail + mid) + ("\"" + rest);
    forall j: nat | j <= i
      ensures At(s, key, j) == At(tag, key, j)
    {
      assert s[j..j + |key|] == tag[j..j + |key|];
    }
    if '"' in tail {
      var j :| 0 <= j < |tail| && tail[j] == '"';
      assert tail[j..j + 1] == "\"";
      assert At(tail, "\"", j);
    }
    ExtractIs(s, key, i, tail + mid);
  }

  // ---- The round trip ----------------------------------------------------

  lemma TheKeys()
    ensures IsKey(NAME) && IsKey(GROUP) && IsKey(OPTIONAL)
    ensures |NAME| < |GROUP| && |NAME| < |OPTIONAL|
    ensures Apart(NAME, GROUP) && Apart(NAME, OPTIONAL) && Apart(GROUP, NAME) && Apart(GROUP, OPTIONAL)
  {
    assert NAME[0] == 'n' && GROUP[1..][0] == 'r' && GROUP[0] == 'g' && OPTIONAL[3..][0] == 'i';
    assert OPTIONAL[4..][0] == 'o';
  }

  lemma BareRoundTrip(tag: string, scoped: TagSet)
    requires !Contains(tag, NAME) && !Contains(tag, GROUP)
    requires Plain(scoped.name) && scoped.name != "" && scoped.group == ""
    ensures ParseTagNameGroup(RewriteParamTag(tag, scoped)) == (scoped.name, "")
  {
    TheKeys();
    var out := Appended(tag, NAME, scoped.name);
    assert RewriteParamTag(tag, scoped) == out;
    AppendedValue(tag, NAME, scoped.name);
    AppendedAbsent(tag, NAME, scoped.name, GROUP);
  }

  /** For a scoped binding of the tag's own binding, the rewritten tag parses back to exactly that
      scoped binding if and only if the tag is Rewritable. */
  lemma RoundTrip(tag: string, ts: TagSet, id: nat)
    requires ParseTagNameGroup(tag) == (ts.name, ts.group) && PlainTagSet(ts)
    ensures var scoped := ScopedTagSet(ts, id);
            ParseTagNameGroup(RewriteParamTag(tag, scoped)) == (scoped.name, scoped.group) <==> Rewritable(tag)
  {
    var scoped := ScopedTagSet(ts, id);
    ScopedPlain(ts, id);
    ScopedKind(ts, id);
    var name, group := ExtractTagValue(tag, NAME), ExtractTagValue(tag, GROUP);
    if name.Some? {
      TheKeys();
      Replaced(tag, NAME, scoped.name, GROUP);
    } else if group.Some? {
      TheKeys();
      Replaced(tag, GROUP, scoped.group, NAME);
    } else if !Contains(tag, NAME) && !Contains(tag, GROUP) {
      BareRoundTrip(tag, scoped);
    } else {
      UnclosedIsLost(tag, scoped, if Contains(tag, NAME) then NAME else GROUP);
    }
  }

  lemma ScopedKind(ts: TagSet, id: nat)
    ensures var scoped := ScopedTagSet(ts, id);
            scoped.typ == ts.typ && scoped != ts &&
            (scoped.name == "") == (ts.name == "" && ts.group != "") && (scoped.group == "") == (scoped.name != "")
    ensures var scoped := ScopedTagSet(ts, id);
            (ts.name != "" ==> scoped.name != ts.name) && (ts.name == "" && ts.group != "" ==> scoped.group != ts.group)
  {
    assert |MARK| > 0;
    assert ts.name != "" ==> |ts.name + MARK + Itoa(id)| > |ts.name|;
    assert |ts.group + MARK + Itoa(id)| > |ts.group|;
  }

  lemma UnclosedIsLost(tag: string, scoped: TagSet, key: string)
    requires Plain(scoped.name) && scoped.name != "" && scoped.group == ""
    requires ExtractTagValue(tag, NAME).None? && ExtractTagValue(tag, GROUP).None?
    requires key == NAME || key == GROUP
    requires Contains(tag, key)
    ensures ParseTagNameGroup(RewriteParamTag(tag, scoped)) != (scoped.name, "")
  {
    var out := RewriteParamTag(tag, scoped);
    assert tag != "";
    TheKeys();
    assert out == tag + " name:" + ("\"" + (scoped.name + "\""));
    UnclosedSwallows(tag, key, " name:", scoped.name + "\"");
    var v :| ExtractTagValue(out, key) == Some(v + " name:");
    var w := v + " name:";
    assert w[|w| - 1] == ':';
    assert ':' in w;
  }

  /** Whatever binding a Rewritable tag is redirected to, its optional marker survives. */
  lemma {:induction false} OptionalKept(tag: string, ts: TagSet, id: nat)
    requires ParseTagNameGroup(tag) == (ts.name, ts.group) && PlainTagSet(ts)
    requires Rewritable(tag) && ExtractTagValue(tag, OPTIONAL).Some?
    ensures ExtractTagValue(RewriteParamTag(tag, ScopedTagSet(ts, id)), OPTIONAL) == ExtractTagValue(tag, OPTIONAL)
  {
    var scoped := ScopedTagSet(ts, id);
    ScopedPlain(ts, id);
    TheKeys();
    if ExtractTagValue(tag, NAME).Some? {
      Replaced(tag, NAME, scoped.name, OPTIONAL);
    } else if ExtractTagValue(tag, GROUP).Some? {
      Replaced(tag, GROUP, scoped.group, OPTIONAL);
    } else {
      assert tag != "";
      var x := NAME + scoped.name + "\"";
      ClosedStays(tag, OPTIONAL, " " + x);
      assert tag + " " + x == tag + (" " + x);
    }
  }
}
