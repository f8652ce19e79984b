/** String searching and decimal printing, as the tag code uses them. */
module Text {
  datatype Option<+T> = None | Some(value: T)

  /** The build errors the graph code distinguishes. */
  datatype Reason =
    | AsTagEmpty
    | NameEmpty
    | GroupEmpty
    | ToGroupWithoutAs
    | TagsNeedSingleAs
    | GroupedAndNamed
    | CannotInferType
    | InvalidExport
    | DecoratorNotAllowed
    | PrivateNotAllowed
    | TagsWithoutAs
    | GroupNotAllowed
    | NameNotAllowed
    | UnsupportedNode
    | UnsupportedOption

  datatype Result<+T> = Ok(value: T) | Err(reason: Reason) {
    predicate IsFailure() { Err? }
    function PropagateFailure<U>(): Result<U>
      requires Err?
    {
      Err(reason)
    }
    function Extract(): T
      requires Ok?
    {
      value
    }
  }

  /** pat occurs in s at position i. */
  predicate At(s: string, pat: string, i: nat) {
    i + |pat| <= |s| && s[i..i + |pat|] == pat
  }

  /** The least position not below i at which pat occurs in s, or -1. */
  function IndexFrom(s: string, pat: string, i: nat): (r: int)
    ensures r >= 0 ==> i <= r && At(s, pat, r) && forall j: nat | i <= j < r :: !At(s, pat, j)
    ensures r < 0 ==> r == -1 && forall j: nat | i <= j :: !At(s, pat, j)
    decreases |s| - i
  {
    if At(s, pat, i) then i
    else if i < |s| then IndexFrom(s, pat, i + 1)
    else -1
  }

  function Index(s: string, pat: string): (r: int)
    ensures r >= 0 ==> At(s, pat, r) && forall j: nat | j < r :: !At(s, pat, j)
    ensures r < 0 ==> r == -1 && forall j: nat :: !At(s, pat, j)
  {
    IndexFrom(s, pat, 0)
  }

  predicate Contains(s: string, pat: string) {
    Index(s, pat) >= 0
  }

  lemma FirstAt(s: string, pat: string, i: nat)
    requires At(s, pat, i) && forall j: nat | j < i :: !At(s, pat, j)
    ensures Index(s, pat) == i
  {
  }

  function Digit(d: nat): (c: char)
    requires d < 10
    ensures '0' <= c <= '9'
  {
    '0' + d as char
  }

  /** strconv.Itoa on non-negative numbers. */
  function Itoa(n: nat): (s: string)
    ensures |s| > 0 && forall c | c in s :: '0' <= c <= '9'
  {
    if n < 10 then [Digit(n)] else Itoa(n / 10) + [Digit(n % 10)]
  }

  function ValueOf(s: string): int {
    if s == "" then 0 else ValueOf(s[..|s| - 1]) * 10 + (s[|s| - 1] as int - '0' as int)
  }

  /** The digits read back give the number, and the first is no zero but for the number zero. */
  lemma {:induction false} ItoaReads(n: nat)
    ensures ValueOf(Itoa(n)) == n && (n > 0 ==> Itoa(n)[0] != '0')
  {
    if n < 10 {
      assert [Digit(n)][..0] == "" && ValueOf([Digit(n)]) == n;
    } else {
      ItoaReads(n / 10);
      assert Itoa(n)[..|Itoa(n)| - 1] == Itoa(n / 10);
    }
  }

  lemma {:induction false} ItoaInjective(m: nat, n: nat)
    requires Itoa(m) == Itoa(n)
    ensures m == n
  {
    if m < 10 || n < 10 {
      assert |Itoa(m / 10)| > 0 && |Itoa(n / 10)| > 0;
      assert m < 10 && n < 10;
      assert Digit(m) == Itoa(m)[0] == Itoa(n)[0] == Digit(n);
    } else {
      var a, b := Itoa(m / 10), Itoa(n / 10);
      assert |a| == |b| && (a + [Digit(m % 10)])[..|a|] == a && (b + [Digit(n % 10)])[..|b|] == b;
      assert Digit(m % 10) == Itoa(m)[|a|] == Itoa(n)[|b|] == Digit(n % 10);
      ItoaInjective(m / 10, n / 10);
    }
  }
}
