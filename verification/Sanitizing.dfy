/** Dropping byte order marks and zero width spaces from a configuration file's bytes. */
module Sanitizing {
  import opened Text

  type Byte = n: nat | n < 256

  const MARK: seq<Byte> := [0xEF, 0xBB, 0xBF]
  const ZERO_WIDTH: seq<Byte> := [0xE2, 0x80, 0x8B]

  /** One of the two sequences starts here. */
  predicate Starts(data: seq<Byte>) {
    MARK <= data || ZERO_WIDTH <= data
  }

  function Strip(data: seq<Byte>): seq<Byte> {
    if data == [] then []
    else if Starts(data) then Strip(data[3..])
    else [data[0]] + Strip(data[1..])
  }

  /** The scan comes upon one of the sequences. */
  predicate Finds(data: seq<Byte>) {
    data != [] && (Starts(data) || Finds(data[1..]))
  }

  /** How the scan moves on from position i. */
  lemma Advance(data: seq<Byte>, i: nat)
    requires i < |data|
    ensures Starts(data[i..]) ==> i + 3 <= |data| && Strip(data[i..]) == Strip(data[i + 3..]) && Finds(data[i..])
    ensures !Starts(data[i..]) ==> Strip(data[i..]) == [data[i]] + Strip(data[i + 1..])
    ensures !Starts(data[i..]) ==> (Finds(data[i..]) <==> Finds(data[i + 1..]))
  {
    assert data[i..][1..] == data[i + 1..];
    if Starts(data[i..]) {
      assert data[i..][3..] == data[i + 3..];
    }
  }

  predicate StartsAt(data: seq<Byte>, i: nat) {
    i + 2 < |data| && ((data[i] == 0xEF && data[i + 1] == 0xBB && data[i + 2] == 0xBF) ||
                       (data[i] == 0xE2 && data[i + 1] == 0x80 && data[i + 2] == 0x8B))
  }

  lemma StartsThere(data: seq<Byte>, i: nat)
    requires i <= |data|
    ensures StartsAt(data, i) <==> Starts(data[i..])
  {
    var d := data[i..];
    if |d| >= 3 {
      assert d[0] == data[i] && d[1] == data[i + 1] && d[2] == data[i + 2];
    }
  }

  method Sanitize(data: seq<Byte>) returns (r: Option<seq<Byte>>)
    ensures r == if Finds(data) then Some(Strip(data)) else None
  {
    hide Starts, Strip, Finds;
    var changed := false;
    var out: seq<Byte> := [];
    var i := 0;
    assert data[0..] == data;
    while i < |data|
      invariant 0 <= i <= |data|
      invariant Strip(data) == out + Strip(data[i..])
      invariant Finds(data) <==> changed || Finds(data[i..])
    {
      StartsThere(data, i);
      Advance(data, i);
      if i + 2 < |data| && data[i] == 0xEF && data[i + 1] == 0xBB && data[i + 2] == 0xBF {
        i := i + 3;
        changed := true;
        continue;
      }
      if i + 2 < |data| && data[i] == 0xE2 && data[i + 1] == 0x80 && data[i + 2] == 0x8B {
        i := i + 3;
        changed := true;
        continue;
      }
      ghost var rest := Strip(data[i + 1..]);
      assert out + ([data[i]] + rest) == (out + [data[i]]) + rest;
      out := out + [data[i]];
      i := i + 1;
    }
    assert data[i..] == [] && out + [] == out;
    NothingLeft();
    r := if changed then Some(out) else None;
  }

  lemma NothingLeft()
    ensures Strip([]) == [] && !Finds([])
  {
  }

  // ---- UTF-8, section 3 of RFC 3629 --------------------------------------

  /** A Unicode scalar value. */
  type Scalar = n: nat | n <= 0x10FFFF && !(0xD800 <= n <= 0xDFFF)

  function EncodeOne(c: Scalar): (e: seq<Byte>)
    ensures |e| >= 1
  {
    if c < 0x80 then [c]
    else if c < 0x800 then [0xC0 + c / 0x40, 0x80 + c % 0x40]
    else if c < 0x10000 then [0xE0 + c / 0x1000, 0x80 + c / 0x40 % 0x40, 0x80 + c % 0x40]
    else [0xF0 + c / 0x40000, 0x80 + c / 0x1000 % 0x40, 0x80 + c / 0x40 % 0x40, 0x80 + c % 0x40]
  }

  /** The table of well-formed sequences of section 4 of RFC 3629: one byte up to 7F, and otherwise a
      first byte that tells the length and bytes from 80 to BF, none longer than need be. */
  lemma WellFormed(c: Scalar)
    ensures var e := EncodeOne(c);
            && (|e| == 1 <==> c <= 0x7F) && (|e| == 2 <==> 0x80 <= c <= 0x7FF) && (|e| == 3 <==> 0x800 <= c <= 0xFFFF)
            && |e| <= 4
            && (|e| == 1 ==> e[0] == c) && (|e| == 2 ==> 0xC2 <= e[0] <= 0xDF)
            && (|e| == 3 ==> 0xE0 <= e[0] <= 0xEF && (e[0] == 0xE0 ==> 0xA0 <= e[1]) && (e[0] == 0xED ==> e[1] <= 0x9F))
            && (|e| == 4 ==> 0xF0 <= e[0] <= 0xF4 && (e[0] == 0xF0 ==> 0x90 <= e[1]) && (e[0] == 0xF4 ==> e[1] <= 0x8F))
            && forall i | 0 < i < |e| :: 0x80 <= e[i] <= 0xBF
  {
  }

  function Encode(text: seq<Scalar>): seq<Byte> {
    if text == [] then [] else EncodeOne(text[0]) + Encode(text[1..])
  }

  predicate Invisible(c: Scalar) {
    c == 0xFEFF || c == 0x200B
  }

  function Visible(text: seq<Scalar>): seq<Scalar> {
    if text == [] then []
    else if Invisible(text[0]) then Visible(text[1..])
    else [text[0]] + Visible(text[1..])
  }

  /** The two sequences are the encodings of the two invisible characters and of nothing else. */
  lemma InvisibleBytes(c: Scalar, rest: seq<Byte>)
    ensures Starts(EncodeOne(c) + rest) <==> Invisible(c)
    ensures Invisible(c) ==> |EncodeOne(c)| == 3
  {
    var e := EncodeOne(c) + rest;
    if 0x800 <= c < 0x10000 {
      assert e[0] == 0xE0 + c / 0x1000 && e[1] == 0x80 + c / 0x40 % 0x40 && e[2] == 0x80 + c % 0x40;
      assert c / 0x1000 == c / 0x40 / 0x40;
    } else {
      assert e[0] == EncodeOne(c)[0];
    }
    assert Starts(e) ==> e[0] == 0xEF || e[0] == 0xE2;
  }

  lemma NoStart(data: seq<Byte>)
    requires data != [] && data[0] != 0xEF && data[0] != 0xE2
    ensures !Starts(data)
  {
  }

  /** No sequence starts within the continuation bytes of a character. */
  lemma {:induction false} Continuation(tail: seq<Byte>, rest: seq<Byte>)
    requires forall k | 0 <= k < |tail| :: 0x80 <= tail[k] < 0xC0
    ensures Strip(tail + rest) == tail + Strip(rest) && (Finds(tail + rest) <==> Finds(rest))
  {
    if tail == [] {
      assert tail + rest == rest && tail + Strip(rest) == Strip(rest);
    } else {
      Continuation(tail[1..], rest);
      NoStart(tail + rest);
      hide Starts;
      assert (tail + rest)[0] == tail[0] && (tail + rest)[1..] == tail[1..] + rest;
      assert [tail[0]] + (tail[1..] + Strip(rest)) == tail + Strip(rest);
    }
  }

  lemma StripOne(c: Scalar, rest: seq<Byte>)
    ensures Strip(EncodeOne(c) + rest) == if Invisible(c) then Strip(rest) else EncodeOne(c) + Strip(rest)
    ensures Finds(EncodeOne(c) + rest) <==> Invisible(c) || Finds(rest)
  {
    var e := EncodeOne(c);
    InvisibleBytes(c, rest);
    assert forall k | 0 <= k < |e[1..]| :: 0x80 <= e[1..][k] < 0xC0;
    hide EncodeOne, Starts;
    assert (e + rest)[0] == e[0];
    if Invisible(c) {
      assert (e + rest)[3..] == rest;
    } else {
      Continuation(e[1..], rest);
      assert (e + rest)[1..] == e[1..] + rest;
      assert [e[0]] + (e[1..] + Strip(rest)) == e + Strip(rest);
    }
  }

  /** On valid UTF-8 the scan decodes, drops the two characters and encodes again; it reports a
      change exactly when one of them occurs. */
  lemma {:induction false} StripsText(text: seq<Scalar>)
    ensures Strip(Encode(text)) == Encode(Visible(text))
    ensures Finds(Encode(text)) <==> exists c | c in text :: Invisible(c)
  {
    if text == [] {
    } else {
      StripsText(text[1..]);
      StripOne(text[0], Encode(text[1..]));
      assert text[0] in text && forall c :: c in text <==> c == text[0] || c in text[1..];
      if !Invisible(text[0]) {
        assert ([text[0]] + Visible(text[1..]))[1..] == Visible(text[1..]);
      }
    }
  }

  lemma {:induction false} NoneInvisible(text: seq<Scalar>)
    ensures forall c | c in Visible(text) :: !Invisible(c)
  {
    if text == [] {
    } else {
      NoneInvisible(text[1..]);
    }
  }

  /** A second run over the result finds nothing. */
  lemma SecondRunFindsNothing(text: seq<Scalar>)
    ensures !Finds(Strip(Encode(text)))
  {
    StripsText(text);
    StripsText(Visible(text));
    NoneInvisible(text);
  }

  /** That takes valid input: removing one mark can bring another together. */
  lemma InvalidBytesRejoin()
    ensures var data: seq<Byte> := [0xEF, 0xEF, 0xBB, 0xBF, 0xBB, 0xBF]; Strip(data) == MARK && Finds(Strip(data))
  {
    var data: seq<Byte> := [0xEF, 0xEF, 0xBB, 0xBF, 0xBB, 0xBF];
    assert data[1] != 0xBB && !Starts(data);
    assert data[1..] == MARK + [0xBB, 0xBF] && data[1..][3..] == [0xBB, 0xBF];
    assert Strip([0xBF]) == [0xBF];
    assert Strip([0xBB, 0xBF]) == [0xBB] + Strip([0xBB, 0xBF][1..]);
  }

  /** The data past any of the two sequences it starts with. */
  function SkipDropped(data: seq<Byte>): seq<Byte> {
    if Starts(data) then SkipDropped(data[3..]) else data
  }

  /** The bytes of p come first, one after the other, with nothing but dropped sequences before and
      between them. */
  predicate KeptFirst(data: seq<Byte>, p: seq<Byte>)
    decreases |p|
  {
    p == [] || var rest := SkipDropped(data); rest != [] && rest[0] == p[0] && KeptFirst(rest[1..], p[1..])
  }

  /** A kept byte and those after it spell one of the sequences, dropped ones apart. */
  predicate Rejoins(data: seq<Byte>) {
    data != [] &&
    if Starts(data) then Rejoins(data[3..])
    else KeptFirst(data, MARK) || KeptFirst(data, ZERO_WIDTH) || Rejoins(data[1..])
  }

  lemma {:induction false} StripSkips(data: seq<Byte>)
    ensures Strip(SkipDropped(data)) == Strip(data) && !Starts(SkipDropped(data))
    ensures SkipDropped(data) == [] <==> Strip(data) == []
    ensures SkipDropped(data) != [] ==> Strip(data) == [SkipDropped(data)[0]] + Strip(SkipDropped(data)[1..])
  {
    if Starts(data) {
      StripSkips(data[3..]);
    }
  }

  lemma {:induction false} KeptPrefix(data: seq<Byte>, p: seq<Byte>)
    ensures KeptFirst(data, p) <==> p <= Strip(data)
    decreases |p|
  {
    if p == [] {
    } else {
      StripSkips(data);
      var rest := SkipDropped(data);
      hide Strip, SkipDropped, Starts;
      if rest != [] {
        KeptPrefix(rest[1..], p[1..]);
        var s := Strip(data);
        assert s[0] == rest[0] && s[1..] == Strip(rest[1..]);
        assert p <= s <==> p[0] == s[0] && p[1..] <= s[1..] by {
          assert p == [p[0]] + p[1..] && s == [s[0]] + s[1..];
        }
      }
    }
  }

  /** A second run finds something if and only if the first brings the bytes of a sequence together. */
  lemma {:induction false} SecondRunExactly(data: seq<Byte>)
    ensures Finds(Strip(data)) <==> Rejoins(data)
  {
    if data == [] {
      NothingLeft();
    } else if Starts(data) {
      SecondRunExactly(data[3..]);
    } else {
      SecondRunExactly(data[1..]);
      KeptPrefix(data, MARK);
      KeptPrefix(data, ZERO_WIDTH);
      var s := Strip(data);
      assert s == [data[0]] + Strip(data[1..]) && s[1..] == Strip(data[1..]);
      hide KeptFirst, Strip;
    }
  }

  // ---- Valid input decodes in one way ------------------------------------

  /** A character's encoding, followed by anything, gives the character back. */
  lemma FirstCharacter(c: Scalar, x: seq<Byte>, d: Scalar, y: seq<Byte>)
    requires EncodeOne(c) + x == EncodeOne(d) + y
    ensures c == d && x == y
  {
    var e, f := EncodeOne(c), EncodeOne(d);
    var all := e + x;
    assert all[0] == e[0] == f[0];
    assert |e| == |f|;
    assert e == all[..|e|] == f && x == all[|e|..] && y == (f + y)[|f|..];
    EncodeOneInjective(c, d);
  }

  function Digit(b: int, base: int): int {
    b - base
  }

  /** The value the encoding's own digits spell. */
  function DecodeOne(e: seq<Byte>): int {
    if |e| == 1 then e[0]
    else if |e| == 2 then Digit(e[0], 0xC0) * 0x40 + Digit(e[1], 0x80)
    else if |e| == 3 then (Digit(e[0], 0xE0) * 0x40 + Digit(e[1], 0x80)) * 0x40 + Digit(e[2], 0x80)
    else if |e| == 4 then
      ((Digit(e[0], 0xF0) * 0x40 + Digit(e[1], 0x80)) * 0x40 + Digit(e[2], 0x80)) * 0x40 + Digit(e[3], 0x80)
    else 0
  }

  lemma DecodeEncodeOne(c: Scalar)
    ensures DecodeOne(EncodeOne(c)) == c
  {
    assert c / 0x1000 == c / 0x40 / 0x40 && c / 0x40000 == c / 0x40 / 0x40 / 0x40;
  }

  lemma EncodeOneInjective(c: Scalar, d: Scalar)
    requires EncodeOne(c) == EncodeOne(d)
    ensures c == d
  {
    DecodeEncodeOne(c);
    DecodeEncodeOne(d);
    hide EncodeOne, DecodeOne;
  }

  lemma {:induction false} EncodeInjective(a: seq<Scalar>, b: seq<Scalar>)
    requires Encode(a) == Encode(b)
    ensures a == b
  {
    if a != [] && b != [] {
      FirstCharacter(a[0], Encode(a[1..]), b[0], Encode(b[1..]));
      EncodeInjective(a[1..], b[1..]);
      assert a == [a[0]] + a[1..] && b == [b[0]] + b[1..];
    }
  }
}
