/** UTF-8 as section 4 of RFC 3629 defines it.

    A byte string is a Dafny `string` that holds one byte per `char`, so that a literal such as
    "data: " is its own encoding.  A `char` above 255 is no byte: it starts no character and
    continues none, so that no string holding one is ever `Valid`. */
module Utf8 {

  /** A continuation byte, 10xxxxxx. */
  predicate IsContinuation(c: char) {
    0x80 <= c as int <= 0xBF
  }

  /** The length of the character that `s` starts with; 0 when `s` starts with none. */
  function CharLen(s: string): (n: nat)
    ensures n <= 4 && n <= |s|
  {
    if |s| >= 1 && s[0] as int <= 0x7F then 1
    else if |s| >= 2 && 0xC2 <= s[0] as int <= 0xDF && IsContinuation(s[1]) then 2
    else if |s| >= 3 && StartsThree(s[0] as int, s[1] as int) && IsContinuation(s[2]) then 3
    else if |s| >= 4 && StartsFour(s[0] as int, s[1] as int) && IsContinuation(s[2]) && IsContinuation(s[3]) then 4
    else 0
  }

  predicate StartsThree(b0: int, b1: int) {
    || (b0 == 0xE0 && 0xA0 <= b1 <= 0xBF)
    || (0xE1 <= b0 <= 0xEC && 0x80 <= b1 <= 0xBF)
    || (b0 == 0xED && 0x80 <= b1 <= 0x9F)
    || (0xEE <= b0 <= 0xEF && 0x80 <= b1 <= 0xBF)
  }

  predicate StartsFour(b0: int, b1: int) {
    || (b0 == 0xF0 && 0x90 <= b1 <= 0xBF)
    || (0xF1 <= b0 <= 0xF3 && 0x80 <= b1 <= 0xBF)
    || (b0 == 0xF4 && 0x80 <= b1 <= 0x8F)
  }

  /** A character is one byte that is no continuation, and then continuation bytes only. */
  lemma CharShape(s: string)
    requires CharLen(s) > 0
    ensures !IsContinuation(s[0]) && forall i :: 1 <= i < CharLen(s) ==> IsContinuation(s[i])
  {}

  /** `s` is a sequence of whole characters: `str::from_utf8(s)` succeeds. */
  predicate Valid(s: string) {
    s == "" || (CharLen(s) > 0 && Valid(s[CharLen(s)..]))
  }

  /** `Utf8Error::valid_up_to`: how many bytes of `s` form whole characters, read from the front. */
  function ValidUpTo(s: string): (n: nat)
    ensures n <= |s|
  {
    if CharLen(s) == 0 then 0 else CharLen(s) + ValidUpTo(s[CharLen(s)..])
  }

  /** The whole characters that `s` starts with. */
  function Whole(s: string): string {
    s[..ValidUpTo(s)]
  }

  /** `str::is_char_boundary`, for an index within the string. */
  predicate IsBoundary(s: string, i: nat)
    requires i <= |s|
  {
    i == 0 || i == |s| || !IsContinuation(s[i])
  }

  /** The largest boundary at or below `i`. */
  function Floor(s: string, i: nat): (j: nat)
    requires i <= |s|
    ensures j <= i && IsBoundary(s, j)
  {
    if IsBoundary(s, i) then i else Floor(s, i - 1)
  }

  lemma {:induction false} FloorIsLargest(s: string, i: nat, m: nat)
    requires m <= i <= |s| && IsBoundary(s, m)
    ensures m <= Floor(s, i)
  {
    if !IsBoundary(s, i) {
      FloorIsLargest(s, i - 1, m);
    }
  }

  /** A character is recognised by its own bytes alone, whatever follows. */
  lemma CharLenLocal(a: string, b: string)
    requires CharLen(a) > 0
    ensures CharLen(a + b) == CharLen(a)
  {
    assert forall i :: 0 <= i < |a| ==> (a + b)[i] == a[i];
  }

  lemma {:induction false} ValidConcat(a: string, b: string)
    requires Valid(a) && Valid(b)
    ensures Valid(a + b)
  {
    hide CharLen;
    if a == "" {
      assert a + b == b;
    } else {
      var n := CharLen(a);
      CharLenLocal(a, b);
      ValidConcat(a[n..], b);
      assert (a + b)[n..] == a[n..] + b;
    }
  }

  lemma {:induction false} ValidSuffix(a: string, b: string)
    requires Valid(a) && Valid(a + b)
    ensures Valid(b)
  {
    hide CharLen;
    if a == "" {
      assert a + b == b;
    } else {
      CharLenLocal(a, b);
      assert (a + b)[CharLen(a)..] == a[CharLen(a)..] + b;
      ValidSuffix(a[CharLen(a)..], b);
    }
  }

  /** Cutting valid text at a boundary leaves valid text on both sides. */
  lemma {:induction false} BoundarySplit(s: string, i: nat)
    requires Valid(s) && i <= |s| && IsBoundary(s, i)
    ensures Valid(s[..i]) && Valid(s[i..])
  {
    hide CharLen;
    if i == 0 {
      assert s[..i] == "" && s[i..] == s;
    } else {
      var n := CharLen(s);
      CharShape(s);
      assert i >= n;
      var t := s[n..];
      BoundarySplit(t, i - n);
      CharLenOfPrefix(s, i);
      assert t[..i - n] == s[n..i] == s[..i][n..];
      assert t[i - n..] == s[i..];
    }
  }

  lemma CharLenOfPrefix(s: string, i: nat)
    requires CharLen(s) <= i <= |s|
    ensures CharLen(s[..i]) == CharLen(s)
  {}

  /** Walking back to a boundary costs at most three bytes. */
  lemma {:induction false} FloorIsNear(s: string, i: nat)
    requires Valid(s) && i <= |s|
    ensures Floor(s, i) + 3 >= i
  {
    hide CharLen;
    if i > 0 {
      var n := CharLen(s);
      CharShape(s);
      if i >= n {
        if n < |s| {
          CharShape(s[n..]);
        }
        FloorIsNear(s[n..], i - n);
        FloorShift(s, n, i - n);
      }
    }
  }

  /** Boundaries of a suffix that starts at a boundary are boundaries of the whole. */
  lemma {:induction false} FloorShift(s: string, n: nat, i: nat)
    requires n + i <= |s| && IsBoundary(s, n)
    ensures Floor(s, n + i) == n + Floor(s[n..], i)
  {
    if i > 0 && !IsBoundary(s, n + i) {
      FloorShift(s, n, i - 1);
    }
  }

  /** `ValidUpTo` is the length of the longest valid prefix. */
  lemma {:induction false} LongestValidPrefix(s: string, k: nat)
    requires k <= |s|
    ensures Valid(s[..ValidUpTo(s)])
    ensures Valid(s[..k]) ==> k <= ValidUpTo(s)
  {
    hide CharLen;
    var n := CharLen(s);
    if n == 0 {
      assert s[..0] == "";
      assert s[..k] + s[k..] == s;
      if CharLen(s[..k]) > 0 {
        CharLenLocal(s[..k], s[k..]);
      }
    } else {
      var t := s[n..];
      LongestValidPrefix(t, if k >= n then k - n else 0);
      var u := n + ValidUpTo(t);
      CharLenOfPrefix(s, u);
      assert s[..u][n..] == t[..u - n];
      if Valid(s[..k]) && k > 0 {
        CharLenLocal(s[..k], s[k..]);
        assert s[..k] + s[k..] == s;
        assert k >= n && s[..k][n..] == t[..k - n];
      }
    }
  }

  lemma {:induction false} ValidUpToConcat(a: string, b: string)
    requires Valid(a)
    ensures ValidUpTo(a + b) == |a| + ValidUpTo(b)
  {
    hide CharLen;
    if a == "" {
      assert a + b == b;
    } else {
      CharLenLocal(a, b);
      assert (a + b)[CharLen(a)..] == a[CharLen(a)..] + b;
      ValidUpToConcat(a[CharLen(a)..], b);
    }
  }

  lemma {:induction false} ValidUpToWhole(s: string)
    ensures Valid(s) <==> ValidUpTo(s) == |s|
  {
    hide CharLen;
    LongestValidPrefix(s, |s|);
    assert s[..|s|] == s;
  }

  /** What is left over at the end of a prefix of valid text is at most three bytes. */
  lemma {:induction false} IncompleteIsShort(s: string, t: string)
    requires Valid(s + t)
    ensures |s| - ValidUpTo(s) <= 3
  {
    hide CharLen;
    if s != "" {
      var n := CharLen(s + t);
      if CharLen(s) > 0 {
        CharLenLocal(s, t);
        assert (s + t)[n..] == s[n..] + t;
        IncompleteIsShort(s[n..], t);
      } else {
        assert (s + t)[..|s|] == s;
        if n <= |s| {
          CharLenOfPrefix(s + t, |s|);
        }
      }
    }
  }

  /** An occurrence of a whole non-empty valid string in valid text starts and ends at boundaries. */
  lemma OccurrenceOnBoundaries(s: string, p: nat, f: string)
    requires Valid(s) && Valid(f) && f != "" && p + |f| <= |s| && s[p..p + |f|] == f
    ensures IsBoundary(s, p) && IsBoundary(s, p + |f|)
  {
    hide CharLen;
    assert s[p] == s[p..p + |f|][0] == f[0];
    CharShape(f);
    BoundarySplit(s, p);
    var t := s[p..];
    assert t == f + t[|f|..] && t[|f|..] == s[p + |f|..];
    ValidSuffix(f, t[|f|..]);
    if p + |f| < |s| {
      CharShape(t[|f|..]);
      assert t[|f|..][0] == s[p + |f|];
    }
  }

  /** ASCII text is valid. */
  lemma {:induction false} AsciiValid(s: string)
    requires forall i :: 0 <= i < |s| ==> s[i] as int < 0x80
    ensures Valid(s)
  {
    if s != "" {
      assert CharLen(s) == 1;
      AsciiValid(s[1..]);
    }
  }

  // ------------------------------------------------------------- the characters, by their code points

  /** A code point that is no surrogate. */
  predicate IsScalar(c: nat) {
    c < 0x110000 && !(0xD800 <= c <= 0xDFFF)
  }

  /** The bytes of a character, as the table of section 3 of RFC 3629 puts its bits into them. */
  function Encode(c: nat): (s: string)
    requires IsScalar(c)
    ensures 1 <= |s| <= 4
  {
    if c < 0x80 then [c as char]
    else if c < 0x800 then [(0xC0 + c / 0x40) as char, Tail(c)]
    else if c < 0x10000 then [(0xE0 + c / 0x1000) as char, Tail(c / 0x40), Tail(c)]
    else [(0xF0 + c / 0x40000) as char, Tail(c / 0x1000), Tail(c / 0x40), Tail(c)]
  }

  /** The six low bits. */
  function Tail(c: nat): char {
    (0x80 + c % 0x40) as char
  }

  lemma EncodedIsChar(c: nat, t: string)
    requires IsScalar(c)
    ensures CharLen(Encode(c) + t) == |Encode(c)|
  {
    var s := Encode(c) + t;
    assert forall i :: 0 <= i < |Encode(c)| ==> s[i] == Encode(c)[i];
    if 0x800 <= c < 0x10000 {
      ThreeBytes(c);
    } else if c >= 0x10000 {
      FourBytes(c);
    }
  }

  lemma ThreeBytes(c: nat)
    requires IsScalar(c) && 0x800 <= c < 0x10000
    ensures StartsThree(0xE0 + c / 0x1000, Tail(c / 0x40) as int)
  {
    assert c == 0x1000 * (c / 0x1000) + 0x40 * (c / 0x40 % 0x40) + c % 0x40;
  }

  lemma FourBytes(c: nat)
    requires IsScalar(c) && 0x10000 <= c
    ensures StartsFour(0xF0 + c / 0x40000, Tail(c / 0x1000) as int)
  {
    assert c == 0x40000 * (c / 0x40000) + 0x1000 * (c / 0x1000 % 0x40) + c % 0x1000;
  }

  /** The code point whose bytes `s` starts with. */
  function Decode(s: string): (c: nat)
    requires CharLen(s) > 0
  {
    if CharLen(s) == 1 then s[0] as int
    else if CharLen(s) == 2 then 0x40 * (s[0] as int - 0xC0) + Low(s[1])
    else if CharLen(s) == 3 then 0x1000 * (s[0] as int - 0xE0) + 0x40 * Low(s[1]) + Low(s[2])
    else 0x40000 * (s[0] as int - 0xF0) + 0x1000 * Low(s[1]) + 0x40 * Low(s[2]) + Low(s[3])
  }

  function Low(c: char): int {
    c as int - 0x80
  }

  lemma DecodedIsEncoded(s: string)
    requires CharLen(s) > 0
    ensures IsScalar(Decode(s)) && Encode(Decode(s)) == s[..CharLen(s)]
  {
    hide CharLen, Decode, Encode;
    DecodedShort(s);
    if CharLen(s) == 3 { DecodedThree(s); }
    if CharLen(s) == 4 { DecodedFour(s); }
  }

  lemma DecodedShort(s: string)
    ensures 0 < CharLen(s) <= 2 ==> IsScalar(Decode(s)) && Encode(Decode(s)) == s[..CharLen(s)]
  {
    if CharLen(s) == 1 { assert s[..1] == [s[0]]; }
    if CharLen(s) == 2 { assert s[..2] == [s[0], s[1]]; }
  }

  lemma DecodedThree(s: string)
    requires CharLen(s) == 3
    ensures IsScalar(Decode(s)) && Encode(Decode(s)) == s[..3]
  {
    DecodeThree(s[0] as int, s[1] as int, s[2] as int);
    assert s[..3] == [s[0], s[1], s[2]];
  }

  lemma DecodedFour(s: string)
    requires CharLen(s) == 4
    ensures IsScalar(Decode(s)) && Encode(Decode(s)) == s[..4]
  {
    DecodeFour(s[0] as int, s[1] as int, s[2] as int, s[3] as int);
    assert s[..4] == [s[0], s[1], s[2], s[3]];
  }

  lemma DecodeThree(a: int, b: int, c: int)
    requires StartsThree(a, b) && 0x80 <= c <= 0xBF
    ensures var n := 0x1000 * (a - 0xE0) + 0x40 * (b - 0x80) + (c - 0x80);
            && 0x800 <= n < 0x10000 && IsScalar(n)
            && n / 0x1000 == a - 0xE0 && n / 0x40 % 0x40 == b - 0x80 && n % 0x40 == c - 0x80
  {
    var n := 0x1000 * (a - 0xE0) + 0x40 * (b - 0x80) + (c - 0x80);
    assert n / 0x40 == 0x40 * (a - 0xE0) + (b - 0x80);
  }

  lemma DecodeFour(a: int, b: int, c: int, d: int)
    requires StartsFour(a, b) && 0x80 <= c <= 0xBF && 0x80 <= d <= 0xBF
    ensures var n := 0x40000 * (a - 0xF0) + 0x1000 * (b - 0x80) + 0x40 * (c - 0x80) + (d - 0x80);
            && 0x10000 <= n < 0x110000
            && n / 0x40000 == a - 0xF0 && n / 0x1000 % 0x40 == b - 0x80 && n / 0x40 % 0x40 == c - 0x80
            && n % 0x40 == d - 0x80
  {
    var n := 0x40000 * (a - 0xF0) + 0x1000 * (b - 0x80) + 0x40 * (c - 0x80) + (d - 0x80);
    assert n / 0x1000 == 0x40 * (a - 0xF0) + (b - 0x80);
    assert n / 0x40 == 0x1000 * (a - 0xF0) + 0x40 * (b - 0x80) + (c - 0x80);
  }

  /** A string starts with a character exactly if it starts with the bytes of some code point, and
      the length of the character is that of these bytes. */
  lemma CharLenIff(s: string)
    ensures CharLen(s) > 0 <==> exists c :: IsScalar(c) && Encode(c) <= s
    ensures forall c :: IsScalar(c) && Encode(c) <= s ==> CharLen(s) == |Encode(c)|
  {
    hide CharLen, Encode;
    if CharLen(s) > 0 {
      DecodedIsEncoded(s);
      assert Encode(Decode(s)) <= s;
    }
    forall c | IsScalar(c) && Encode(c) <= s ensures CharLen(s) == |Encode(c)| {
      assert s == Encode(c) + s[|Encode(c)|..];
      EncodedIsChar(c, s[|Encode(c)|..]);
    }
  }

  /** The bytes of these code points, one after the other. */
  function EncodeAll(cs: seq<nat>): string
    requires forall i :: 0 <= i < |cs| ==> IsScalar(cs[i])
  {
    if cs == [] then "" else Encode(cs[0]) + EncodeAll(cs[1..])
  }

  /** Valid strings are the encoded sequences of code points, and no others. */
  lemma {:induction false} EncodedIsValid(cs: seq<nat>)
    requires forall i :: 0 <= i < |cs| ==> IsScalar(cs[i])
    ensures Valid(EncodeAll(cs))
  {
    hide CharLen, Encode;
    if cs != [] {
      EncodedIsValid(cs[1..]);
      EncodedIsChar(cs[0], EncodeAll(cs[1..]));
      var s := Encode(cs[0]) + EncodeAll(cs[1..]);
      assert s[|Encode(cs[0])|..] == EncodeAll(cs[1..]);
    }
  }

  lemma {:induction false} ValidIsEncoded(s: string) returns (cs: seq<nat>)
    requires Valid(s)
    ensures forall i :: 0 <= i < |cs| ==> IsScalar(cs[i])
    ensures s == EncodeAll(cs)
  {
    hide CharLen, Encode, Decode;
    if s == "" {
      cs := [];
    } else {
      var n := CharLen(s);
      DecodedIsEncoded(s);
      var rest := ValidIsEncoded(s[n..]);
      cs := [Decode(s)] + rest;
      assert cs[1..] == rest && s == s[..n] + s[n..];
    }
  }

  ghost predicate IsText(s: string, cs: seq<nat>) {
    (forall i :: 0 <= i < |cs| ==> IsScalar(cs[i])) && s == EncodeAll(cs)
  }

  lemma ValidIff(s: string)
    ensures Valid(s) <==> exists cs :: IsText(s, cs)
  {
    hide Valid, EncodeAll, IsScalar;
    if Valid(s) {
      var cs := ValidIsEncoded(s);
      assert IsText(s, cs);
    }
    if cs :| IsText(s, cs) {
      EncodedIsValid(cs);
    }
  }
}
