/** Normalised string lists: trimmed, without blanks or repeats, in order. */
module StringLists {

  // ---- Trimming ----------------------------------------------------------

  /** unicode.IsSpace. */
  predicate IsSpace(c: char) {
    var n := c as int;
    0x09 <= n <= 0x0D || n == 0x20 || n == 0x85 || n == 0xA0 || n == 0x1680 || 0x2000 <= n <= 0x200A ||
    n == 0x2028 || n == 0x2029 || n == 0x202F || n == 0x205F || n == 0x3000
  }

  function TrimLeft(s: string): string {
    if s != "" && IsSpace(s[0]) then TrimLeft(s[1..]) else s
  }

  function TrimRight(s: string): string {
    if s != "" && IsSpace(s[|s| - 1]) then TrimRight(s[..|s| - 1]) else s
  }

  function Trim(s: string): string {
    TrimRight(TrimLeft(s))
  }

  predicate Trimmed(s: string) {
    s != "" ==> !IsSpace(s[0]) && !IsSpace(s[|s| - 1])
  }

  lemma {:induction false} TrimLeftEnds(s: string)
    ensures TrimLeft(s) != "" ==> !IsSpace(TrimLeft(s)[0])
  {
    if s != "" && IsSpace(s[0]) {
      TrimLeftEnds(s[1..]);
    }
  }

  lemma {:induction false} TrimRightEnds(s: string)
    requires s != "" ==> !IsSpace(s[0])
    ensures Trimmed(TrimRight(s))
  {
    if s != "" && IsSpace(s[|s| - 1]) {
      TrimRightEnds(s[..|s| - 1]);
    }
  }

  lemma TrimIsTrimmed(s: string)
    ensures Trimmed(Trim(s)) && Trim(Trim(s)) == Trim(s)
  {
    TrimLeftEnds(s);
    TrimRightEnds(TrimLeft(s));
  }

  predicate Blank(s: string) {
    forall i | 0 <= i < |s| :: IsSpace(s[i])
  }

  lemma {:induction false} TrimLeftCuts(s: string) returns (a: string)
    ensures s == a + TrimLeft(s) && Blank(a)
  {
    a := "";
    if s != "" && IsSpace(s[0]) {
      var b := TrimLeftCuts(s[1..]);
      a := [s[0]] + b;
    }
  }

  lemma {:induction false} TrimRightCuts(s: string) returns (b: string)
    ensures s == TrimRight(s) + b && Blank(b)
  {
    b := "";
    if s != "" && IsSpace(s[|s| - 1]) {
      var a := TrimRightCuts(s[..|s| - 1]);
      b := a + [s[|s| - 1]];
    }
  }

  /** Trimming cuts spaces off both ends, until none is left there. */
  lemma TrimCuts(s: string) returns (a: string, b: string)
    ensures s == a + Trim(s) + b && Blank(a) && Blank(b) && Trimmed(Trim(s))
  {
    a := TrimLeftCuts(s);
    b := TrimRightCuts(TrimLeft(s));
    TrimIsTrimmed(s);
  }

  lemma {:induction false} TrimLeftDrops(a: string, s: string)
    requires Blank(a) && s != "" && !IsSpace(s[0])
    ensures TrimLeft(a + s) == s
  {
    if a == "" {
      assert a + s == s;
    } else {
      assert (a + s)[1..] == a[1..] + s;
      TrimLeftDrops(a[1..], s);
    }
  }

  lemma {:induction false} TrimRightDrops(s: string, b: string)
    requires Blank(b) && s != "" && !IsSpace(s[|s| - 1])
    ensures TrimRight(s + b) == s
  {
    if b == "" {
      assert s + b == s;
    } else {
      assert (s + b)[..|s + b| - 1] == s + b[..|b| - 1];
      TrimRightDrops(s, b[..|b| - 1]);
    }
  }

  /** And nothing else: spaces around a trimmed text do not matter. */
  lemma TrimDrops(a: string, s: string, b: string)
    requires Blank(a) && Blank(b) && Trimmed(s) && s != ""
    ensures Trim(a + s + b) == s
  {
    assert a + s + b == a + (s + b);
    TrimLeftDrops(a, s + b);
    TrimRightDrops(s, b);
  }

  // ---- Order -------------------------------------------------------------

  /** Strings by their characters' code points, which orders UTF-8 encodings the same way. */
  predicate Less(a: string, b: string) {
    if b == "" then false
    else if a == "" then true
    else a[0] < b[0] || (a[0] == b[0] && Less(a[1..], b[1..]))
  }

  /** They agree before this place, and a has the smaller character there. */
  predicate SmallerAt(a: string, b: string, i: nat) {
    i < |a| && i < |b| && a[..i] == b[..i] && a[i] < b[i]
  }

  lemma SmallerNext(a: string, b: string, i: nat)
    requires a != "" && b != "" && a[0] == b[0]
    ensures SmallerAt(a, b, i + 1) <==> SmallerAt(a[1..], b[1..], i)
    ensures !SmallerAt(a, b, 0)
  {
    if i < |a| - 1 && i < |b| - 1 {
      assert a[..i + 1] == [a[0]] + a[1..][..i] && b[..i + 1] == [b[0]] + b[1..][..i];
      assert a[..i + 1][1..] == a[1..][..i] && b[..i + 1][1..] == b[1..][..i];
    }
  }

  lemma FirstAgrees(a: string, b: string, i: nat)
    requires 0 < i <= |a| && i <= |b| && a[..i] == b[..i]
    ensures a[0] == b[0]
  {
    assert a[..i][0] == b[..i][0];
  }

  /** b goes on after a, or has the greater character where they first differ. */
  lemma {:induction false} LessMeans(a: string, b: string)
    ensures Less(a, b) <==> (a <= b && a != b) || exists i: nat :: SmallerAt(a, b, i)
  {
    if a == "" || b == "" {
    } else if a[0] == b[0] {
      var x, y := a[1..], b[1..];
      LessMeans(x, y);
      forall i: nat
        ensures SmallerAt(a, b, i + 1) <==> SmallerAt(x, y, i)
        ensures !SmallerAt(a, b, 0)
      {
        SmallerNext(a, b, i);
      }
      hide SmallerAt;
      assert a == [a[0]] + x && b == [b[0]] + y;
      if i: nat :| SmallerAt(x, y, i) {
        assert SmallerAt(a, b, i + 1);
      }
      if i: nat :| SmallerAt(a, b, i) {
        assert i > 0 && SmallerAt(x, y, i - 1);
      }
    } else {
      assert a[..0] == b[..0];
      forall i: nat | SmallerAt(a, b, i)
        ensures i == 0
      {
        if i > 0 {
          FirstAgrees(a, b, i);
        }
      }
      assert a[0] < b[0] ==> SmallerAt(a, b, 0);
    }
  }

  lemma {:induction false} LessTotal(a: string, b: string)
    ensures Less(a, b) || Less(b, a) || a == b
    ensures !(Less(a, b) && Less(b, a)) && !Less(a, a)
  {
    if a != "" && b != "" && a[0] == b[0] {
      LessTotal(a[1..], b[1..]);
      assert a == [a[0]] + a[1..] && b == [b[0]] + b[1..];
    }
    if a == "" {
    } else {
      LessTotal(a[1..], a[1..]);
    }
  }

  lemma {:induction false} LessTransitive(a: string, b: string, c: string)
    requires Less(a, b) && Less(b, c)
    ensures Less(a, c)
  {
    if a != "" && a[0] == b[0] && b[0] == c[0] {
      LessTransitive(a[1..], b[1..], c[1..]);
    }
  }

  predicate Ascending(l: seq<string>) {
    forall i, j | 0 <= i < j < |l| :: Less(l[i], l[j])
  }

  /** A list in order without repeats is determined by its members. */
  lemma {:induction false} SameMembers(a: seq<string>, b: seq<string>)
    requires Ascending(a) && Ascending(b) && forall x :: x in a <==> x in b
    ensures a == b
  {
    assert (a != [] ==> a[0] in a) && (b != [] ==> b[0] in b);
    if a != [] && b != [] {
      HeadLeast(a, b);
      HeadLeast(b, a);
      LessTotal(a[0], b[0]);
      forall x
        ensures x in a[1..] <==> x in b[1..]
      {
        TailMember(a, x);
        TailMember(b, x);
      }
      SameMembers(a[1..], b[1..]);
      assert a == [a[0]] + a[1..] && b == [b[0]] + b[1..];
    }
  }

  lemma HeadLeast(a: seq<string>, b: seq<string>)
    requires a != [] && b != [] && Ascending(a) && b[0] in a
    ensures a[0] == b[0] || Less(a[0], b[0])
  {
    var k :| 0 <= k < |a| && a[k] == b[0];
  }

  lemma TailMember(a: seq<string>, x: string)
    requires a != [] && Ascending(a)
    ensures x in a[1..] <==> x in a && x != a[0]
  {
    if x in a && x != a[0] {
      var k :| 0 <= k < |a| && a[k] == x;
      assert a[1..][k - 1] == x;
    }
    LessTotal(a[0], a[0]);
    assert x in a[1..] ==> exists k :: 0 <= k < |a[1..]| && a[1..][k] == x && Less(a[0], a[k + 1]);
  }

  // ---- The pipeline ------------------------------------------------------

  function TrimmedNonBlank(l: seq<string>): seq<string> {
    if l == [] then []
    else
      var front, v := TrimmedNonBlank(l[..|l| - 1]), Trim(l[|l| - 1]);
      if v == "" then front else front + [v]
  }

  function Uniq(l: seq<string>): seq<string> {
    if l == [] then []
    else
      var front, v := Uniq(l[..|l| - 1]), l[|l| - 1];
      if v in front then front else front + [v]
  }

  function Insert(l: seq<string>, x: string): seq<string> {
    if l == [] || Less(x, l[0]) then [x] + l else [l[0]] + Insert(l[1..], x)
  }

  function Sort(l: seq<string>): seq<string> {
    if l == [] then [] else Insert(Sort(l[..|l| - 1]), l[|l| - 1])
  }

  function Normalize(l: seq<string>): seq<string> {
    Sort(Uniq(TrimmedNonBlank(l)))
  }

  predicate Distinct(l: seq<string>) {
    forall i, j | 0 <= i < j < |l| :: l[i] != l[j]
  }

  /** The list has x, once trimmed, and x is not blank. */
  predicate Has(l: seq<string>, x: string) {
    x != "" && exists y | y in l :: Trim(y) == x
  }

  lemma {:induction false} TrimmedMember(l: seq<string>, x: string)
    ensures x in TrimmedNonBlank(l) <==> Has(l, x)
  {
    if l == [] {
    } else {
      var n := |l| - 1;
      TrimmedMember(l[..n], x);
      assert forall y :: y in l <==> y in l[..n] || y == l[n];
    }
  }

  lemma {:induction false} UniqMembers(l: seq<string>)
    ensures Distinct(Uniq(l)) && forall x :: x in Uniq(l) <==> x in l
  {
    if l == [] {
    } else {
      var n := |l| - 1;
      UniqMembers(l[..n]);
      assert forall x :: x in l <==> x in l[..n] || x == l[n];
    }
  }

  lemma {:induction false} InsertSorted(l: seq<string>, x: string)
    requires Ascending(l) && x !in l
    ensures Ascending(Insert(l, x)) && forall y :: y in Insert(l, x) <==> y in l || y == x
  {
    if l == [] || Less(x, l[0]) {
      forall k | 0 <= k < |l|
        ensures Less(x, l[k])
      {
        if k > 0 {
          LessTransitive(x, l[0], l[k]);
        }
      }
    } else {
      InsertSorted(l[1..], x);
      LessTotal(x, l[0]);
      var rest := Insert(l[1..], x);
      assert l == [l[0]] + l[1..];
      forall k | 0 <= k < |rest|
        ensures Less(l[0], rest[k])
      {
        assert rest[k] in rest;
        if rest[k] != x {
          var j :| 0 <= j < |l[1..]| && l[1..][j] == rest[k];
        }
      }
    }
  }

  lemma {:induction false} SortSorted(l: seq<string>)
    requires Distinct(l)
    ensures Ascending(Sort(l)) && forall x :: x in Sort(l) <==> x in l
  {
    if l == [] {
    } else {
      var n := |l| - 1;
      SortSorted(l[..n]);
      InsertSorted(Sort(l[..n]), l[n]);
      assert forall x :: x in l <==> x in l[..n] || x == l[n];
    }
  }

  /** The list in order of exactly the non-blank trimmed members. */
  lemma Normalized(l: seq<string>)
    ensures Ascending(Normalize(l)) && forall x :: x in Normalize(l) <==> Has(l, x)
  {
    UniqMembers(TrimmedNonBlank(l));
    SortSorted(Uniq(TrimmedNonBlank(l)));
    forall x
      ensures x in Normalize(l) <==> Has(l, x)
    {
      TrimmedMember(l, x);
    }
  }

  /** Lists that normalising leaves alone. */
  predicate Clean(l: seq<string>) {
    Ascending(l) && forall x | x in l :: x != "" && Trimmed(x)
  }

  /** Normalising yields clean lists, and leaves exactly those as they are. */
  lemma NormalizeClean(l: seq<string>)
    ensures Clean(Normalize(l)) && (Normalize(l) == l <==> Clean(l))
  {
    Normalized(l);
    hide Normalize, Trim, Less, Ascending, Trimmed;
    forall x | x in Normalize(l)
      ensures Trimmed(x)
    {
      var y :| y in l && Trim(y) == x;
      TrimIsTrimmed(y);
    }
    if Clean(l) {
      forall x
        ensures x in Normalize(l) <==> x in l
      {
        if x in l {
          TrimTrimmed(x);
        }
        if x in Normalize(l) {
          var y :| y in l && Trim(y) == x;
          TrimTrimmed(y);
        }
      }
      SameMembers(Normalize(l), l);
    }
  }

  lemma TrimTrimmed(x: string)
    requires Trimmed(x)
    ensures Trim(x) == x
  {
  }

  /** Two lists normalise alike exactly when they have the same members after trimming. */
  lemma SameNormal(a: seq<string>, b: seq<string>)
    ensures Normalize(a) == Normalize(b) <==> forall x :: Has(a, x) <==> Has(b, x)
  {
    Normalized(a);
    Normalized(b);
    hide Normalize, Has, Less, Ascending;
    if forall x :: Has(a, x) <==> Has(b, x) {
      SameMembers(Normalize(a), Normalize(b));
    }
  }
}
