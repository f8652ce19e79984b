/** Splitting and joining strings at a separator character. */
module Separators {

  predicate Free(s: string, sep: char) {
    sep !in s
  }

  /** strings.Split: never empty, and the empty string has one empty part. */
  function Split(s: string, sep: char): (parts: seq<string>)
    ensures |parts| >= 1
  {
    if s == "" then [""]
    else
      var rest := Split(s[1..], sep);
      if s[0] == sep then [""] + rest else [[s[0]] + rest[0]] + rest[1..]
  }

  function Join(parts: seq<string>, sep: char): string {
    if parts == [] then ""
    else if |parts| == 1 then parts[0]
    else parts[0] + [sep] + Join(parts[1..], sep)
  }

  predicate AllFree(parts: seq<string>, sep: char) {
    forall i | 0 <= i < |parts| :: Free(parts[i], sep)
  }

  lemma {:induction false} SplitJoin(s: string, sep: char)
    ensures AllFree(Split(s, sep), sep) && Join(Split(s, sep), sep) == s
  {
    if s == "" {
    } else {
      SplitJoin(s[1..], sep);
      var rest, parts := Split(s[1..], sep), Split(s, sep);
      if s[0] == sep {
        assert parts[1..] == rest;
      } else {
        assert parts[1..] == rest[1..];
      }
    }
  }

  lemma {:induction false} JoinSplit(parts: seq<string>, sep: char)
    requires |parts| >= 1 && AllFree(parts, sep)
    ensures Split(Join(parts, sep), sep) == parts
    decreases |Join(parts, sep)|
  {
    var s := Join(parts, sep);
    if parts[0] != "" {
      var tail := [parts[0][1..]] + parts[1..];
      assert tail[1..] == parts[1..];
      assert s[1..] == Join(tail, sep) && s[0] == parts[0][0] && s[0] in parts[0];
      JoinSplit(tail, sep);
      assert [s[0]] + tail[0] == parts[0];
    } else if |parts| > 1 {
      assert s[1..] == Join(parts[1..], sep);
      JoinSplit(parts[1..], sep);
    }
  }

  lemma {:induction false} JoinAppend(parts: seq<string>, last: string, sep: char)
    requires |parts| >= 1
    ensures Join(parts + [last], sep) == Join(parts, sep) + [sep] + last
  {
    var longer := parts + [last];
    if |parts| == 1 {
      assert longer[1..] == [last];
    } else {
      assert longer[1..] == parts[1..] + [last];
      JoinAppend(parts[1..], last, sep);
    }
  }

  /** The first separator splits a string in one way. */
  lemma FirstPart(a: string, x: string, b: string, y: string, sep: char)
    requires Free(a, sep) && Free(b, sep) && a + [sep] + x == b + [sep] + y
    ensures a == b && x == y
  {
    var s, t := a + [sep] + x, b + [sep] + y;
    assert s[|a|] == sep && t[|b|] == sep;
    assert forall k | 0 <= k < |a| :: s[k] == a[k] && a[k] in a;
    assert forall k | 0 <= k < |b| :: t[k] == b[k] && b[k] in b;
    assert |a| == |b|;
    assert a == s[..|a|] && b == t[..|b|];
    assert x == s[|a| + 1..] && y == t[|b| + 1..];
  }
}
