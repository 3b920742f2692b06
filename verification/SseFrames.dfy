/** Cutting a byte stream into events: section 9.2.5 of the WHATWG HTML Living Standard, as far as
    the program implements it. */
module SseFrames {
  import opened Common
  import Utf8

  // ------------------------------------------------------------------------------- line endings

  predicate StartsCrLf(s: string) {
    |s| >= 2 && s[0] == '\r' && s[1] == '\n'
  }

  /** Every "\r\n" replaced by "\n", in one pass from the left. */
  function Normalize(s: string): (n: string)
    ensures |n| <= |s|
  {
    if s == "" then ""
    else if StartsCrLf(s) then "\n" + Normalize(s[2..])
    else [s[0]] + Normalize(s[1..])
  }

  /** "\r\n" occurs in `s`. */
  ghost predicate HasCrLf(s: string) {
    exists i :: 0 <= i < |s| - 1 && s[i] == '\r' && s[i + 1] == '\n'
  }

  /** "\r\r\n" occurs in `s`. */
  ghost predicate HasCrCrLf(s: string) {
    exists i :: 0 <= i < |s| - 2 && s[i] == '\r' && s[i + 1] == '\r' && s[i + 2] == '\n'
  }

  predicate EndsWith(s: string, c: char) {
    s != "" && s[|s| - 1] == c
  }

  /** The cut between `a` and `b` does not fall inside a "\r\n". */
  predicate CleanCut(a: string, b: string) {
    !(EndsWith(a, '\r') && b != "" && b[0] == '\n')
  }

  lemma {:induction false} NormalizeConcat(a: string, b: string)
    requires CleanCut(a, b)
    ensures Normalize(a + b) == Normalize(a) + Normalize(b)
  {
    if a == "" {
      assert a + b == b;
    } else {
      var n := if StartsCrLf(a) then 2 else 1;
      assert (a + b)[n..] == a[n..] + b;
      NormalizeConcat(a[n..], b);
      assert (a + b)[0] == a[0];
    }
  }

  lemma {:induction false} NormalizeIdle(s: string)
    requires !HasCrLf(s)
    ensures Normalize(s) == s
  {
    if s != "" {
      assert forall i :: 0 <= i < |s[1..]| ==> s[1..][i] == s[i + 1];
      NormalizeIdle(s[1..]);
    }
  }

  /** What survives normalisation: no pair, unless three bytes made one. */
  lemma {:induction false} NormalizeRemovesPairs(s: string)
    requires !HasCrCrLf(s)
    ensures !HasCrLf(Normalize(s))
    ensures EndsWith(Normalize(s), '\r') == EndsWith(s, '\r')
    ensures s != "" && s[0] == '\n' ==> Normalize(s) != "" && Normalize(s)[0] == '\n'
    ensures Normalize(s) != "" && Normalize(s)[0] == '\n' ==> s[0] == '\n' || StartsCrLf(s)
  {
    if s != "" {
      var n := if StartsCrLf(s) then 2 else 1;
      var t := s[n..];
      assert forall i :: 0 <= i < |t| ==> t[i] == s[i + n];
      NormalizeRemovesPairs(t);
      var m := Normalize(t);
      var c := if n == 2 then '\n' else s[0];
      assert Normalize(s) == [c] + m;
      assert forall i :: 1 <= i < |m| + 1 ==> Normalize(s)[i] == m[i - 1];
    }
  }

  /** A string that holds a pair gets shorter. */
  lemma {:induction false} NormalizeShrinks(s: string)
    requires |s| >= 2 && s[|s| - 2..] == "\r\n"
    ensures |Normalize(s)| < |s|
  {
    assert s[|s| - 2] == s[|s| - 2..][0] == '\r' && s[|s| - 1] == s[|s| - 2..][1] == '\n';
    if StartsCrLf(s) {
    } else {
      assert s[1..][|s[1..]| - 2..] == s[|s| - 2..];
      NormalizeShrinks(s[1..]);
    }
  }

  /** Text that is UTF-8 stays so. */
  lemma {:induction false} NormalizeUtf8(s: string)
    requires Utf8.Valid(s)
    ensures Utf8.Valid(Normalize(s))
    decreases |s|
  {
    hide Utf8.CharLen;
    if s != "" {
      if StartsCrLf(s) {
        Utf8.AsciiValid("\r\n");
        Utf8.AsciiValid("\n");
        assert s == "\r\n" + s[2..];
        Utf8.ValidSuffix("\r\n", s[2..]);
        NormalizeUtf8(s[2..]);
        Utf8.ValidConcat("\n", Normalize(s[2..]));
      } else {
        var n := Utf8.CharLen(s);
        NormalizeUtf8(s[n..]);
        Utf8.BoundarySplit(s, n) by { CharEndIsBoundary(s); }
        NormalizeChar(s);
        Utf8.ValidConcat(s[..n], Normalize(s[n..]));
      }
    }
  }

  lemma CharEndIsBoundary(s: string)
    requires Utf8.Valid(s) && s != ""
    ensures Utf8.IsBoundary(s, Utf8.CharLen(s))
  {
    hide Utf8.CharLen;
    var n := Utf8.CharLen(s);
    if n < |s| { Utf8.CharShape(s[n..]); }
  }

  /** One character that is no line ending is left as it is. */
  lemma NormalizeChar(s: string)
    requires Utf8.CharLen(s) > 0 && !(StartsCrLf(s))
    ensures Normalize(s) == s[..Utf8.CharLen(s)] + Normalize(s[Utf8.CharLen(s)..])
  {
    hide Utf8.CharLen;
    var n := Utf8.CharLen(s);
    Utf8.CharShape(s);
    var a, b := s[..n], s[n..];
    assert s == a + b;
    if n > 1 {
      assert Utf8.IsContinuation(a[n - 1]);
    }
    NormalizeConcat(a, b);
    NormalizeCharAlone(a);
  }

  lemma {:induction false} NormalizeCharAlone(a: string)
    requires forall i :: 1 <= i < |a| ==> Utf8.IsContinuation(a[i])
    ensures Normalize(a) == a
  {
    NormalizeIdle(a);
  }

  // --------------------------------------------------------------------------------- the frames

  /** The length of the shortest prefix that ends in a blank line; 0 when there is none. */
  function FrameLen(s: string): (n: nat)
    ensures n <= |s| && (n > 0 ==> n >= 2 && s[n - 2] == '\n' && s[n - 1] == '\n')
  {
    if |s| < 2 then 0
    else if s[0] == '\n' && s[1] == '\n' then 2
    else if FrameLen(s[1..]) == 0 then 0
    else 1 + FrameLen(s[1..])
  }

  predicate BlankLineEndsAt(s: string, n: nat) {
    2 <= n <= |s| && s[n - 2] == '\n' && s[n - 1] == '\n'
  }

  /** It is where the first blank line ends. */
  lemma {:induction false} FrameLenIsFirst(s: string)
    ensures FrameLen(s) > 0 ==> BlankLineEndsAt(s, FrameLen(s))
    ensures forall n: nat :: BlankLineEndsAt(s, n) ==> 0 < FrameLen(s) <= n
  {
    if |s| >= 2 {
      FrameLenIsFirst(s[1..]);
      forall n: nat | BlankLineEndsAt(s, n) ensures 0 < FrameLen(s) <= n {
        if n > 2 { assert BlankLineEndsAt(s[1..], n - 1); }
      }
    }
  }

  /** The complete frames of `s`, in order. */
  function Frames(s: string): seq<string>
    decreases |s|
  {
    if FrameLen(s) == 0 then [] else [s[..FrameLen(s)]] + Frames(s[FrameLen(s)..])
  }

  /** What follows the last complete frame. */
  function Rest(s: string): (r: string)
    ensures |r| <= |s|
    decreases |s|
  {
    if FrameLen(s) == 0 then s else Rest(s[FrameLen(s)..])
  }

  lemma {:induction false} FrameLenPrefix(a: string, b: string)
    requires FrameLen(a) > 0
    ensures FrameLen(a + b) == FrameLen(a)
  {
    if !(a[0] == '\n' && a[1] == '\n') {
      assert (a + b)[1..] == a[1..] + b;
      FrameLenPrefix(a[1..], b);
    }
  }

  /** `a` is split exactly into its frames and the rest. */
  lemma SplitIsExact(a: string)
    ensures Concat(Frames(a)) + Rest(a) == a
    ensures FrameLen(Rest(a)) == 0
    ensures forall f :: f in Frames(a) ==> FrameLen(f) == |f| > 0
  {
    hide Concat, Frames, Rest, FrameLen;
    PartsMakeUp(a);
    RestIsOpen(a);
    FramesAreWhole(a);
  }

  lemma {:induction false} PartsMakeUp(a: string)
    ensures Concat(Frames(a)) + Rest(a) == a
    decreases |a|
  {
    hide FrameLen, Concat, Frames, Rest;
    var n := FrameLen(a);
    CutFirst(a);
    if n == 0 {
      ConcatNone<char>();
      Front(a, 0);
    } else {
      PartsMakeUp(a[n..]);
      ConcatCons(a[..n], Frames(a[n..]));
      Assoc(a[..n], Concat(Frames(a[n..])), Rest(a[n..]));
      Front(a, n);
    }
  }

  /** The first frame is cut off, if there is one. */
  lemma CutFirst(a: string)
    ensures var n := FrameLen(a);
            if n == 0 then Frames(a) == [] && Rest(a) == a
            else Frames(a) == [a[..n]] + Frames(a[n..]) && Rest(a) == Rest(a[n..])
  {
    hide FrameLen;
  }

  lemma Front(a: string, n: nat)
    requires n <= |a|
    ensures a[..n] + a[n..] == a && [] + a == a
  {}

  lemma ConcatCons(f: string, rest: seq<string>)
    ensures Concat([f] + rest) == f + Concat(rest)
  {
    assert ([f] + rest)[1..] == rest;
  }

  lemma {:induction false} RestIsOpen(a: string)
    ensures FrameLen(Rest(a)) == 0
    decreases |a|
  {
    hide FrameLen;
    if FrameLen(a) > 0 { RestIsOpen(a[FrameLen(a)..]); }
  }

  lemma {:induction false} FramesAreWhole(a: string)
    ensures forall f :: f in Frames(a) ==> FrameLen(f) == |f| > 0
    decreases |a|
  {
    hide FrameLen;
    var n := FrameLen(a);
    if n > 0 {
      FramesAreWhole(a[n..]);
      FirstFrame(a);
      assert Frames(a) == [a[..n]] + Frames(a[n..]);
    }
  }

  lemma {:induction false} FirstFrame(a: string)
    requires FrameLen(a) > 0
    ensures FrameLen(a[..FrameLen(a)]) == FrameLen(a)
  {
    if !(a[0] == '\n' && a[1] == '\n') {
      FirstFrame(a[1..]);
      assert a[1..][..FrameLen(a[1..])] == a[..FrameLen(a)][1..];
    }
  }

  /** More text only adds frames, and these are cut from what was left over. */
  lemma {:induction false} FramesConcat(a: string, b: string)
    ensures Frames(a + b) == Frames(a) + Frames(Rest(a) + b)
    ensures Rest(a + b) == Rest(Rest(a) + b)
    decreases |a|
  {
    hide FrameLen, Frames, Rest;
    var n := FrameLen(a);
    CutFirst(a);
    CutFirst(a + b);
    if n == 0 {
      assert [] + Frames(a + b) == Frames(a + b);
    } else {
      FrameLenPrefix(a, b);
      assert (a + b)[n..] == a[n..] + b;
      assert (a + b)[..n] == a[..n];
      FramesConcat(a[n..], b);
      Assoc([a[..n]], Frames(a[n..]), Frames(Rest(a[n..]) + b));
    }
  }

  predicate EndsInBlankLine(s: string) {
    |s| >= 2 && s[|s| - 2] == '\n' && s[|s| - 1] == '\n'
  }

  /** The rest is a suffix, and what is before it, if anything, ends in a blank line. */
  lemma RestSuffix(a: string)
    ensures a[|a| - |Rest(a)|..] == Rest(a)
    ensures Rest(a) == a || EndsInBlankLine(a[..|a| - |Rest(a)|])
  {
    hide FrameLen, Rest, Frames, Concat, EndsInBlankLine;
    PartsMakeUp(a);
    FramesAreWhole(a);
    EndOfFrames(Frames(a));
    TwoParts(Concat(Frames(a)), Rest(a), a);
  }

  lemma TwoParts(x: string, y: string, a: string)
    requires x + y == a
    ensures a[|a| - |y|..] == y && a[..|a| - |y|] == x && (x == "" ==> y == a)
  {}

  lemma {:induction false} EndOfFrames(queue: seq<string>)
    requires forall f :: f in queue ==> FrameLen(f) == |f| > 0
    ensures Concat(queue) == "" || EndsInBlankLine(Concat(queue))
  {
    hide FrameLen, EndsInBlankLine;
    if queue != [] {
      var f, more := queue[0], Concat(queue[1..]);
      assert f in queue;
      EndOfFrames(queue[1..]);
      FrameEnd(f);
      EndStays(f, more);
    }
  }

  lemma FrameEnd(f: string)
    requires FrameLen(f) == |f| > 0
    ensures EndsInBlankLine(f)
  {
    hide FrameLen;
  }

  lemma EndStays(f: string, more: string)
    requires EndsInBlankLine(f) && (more == "" || EndsInBlankLine(more))
    ensures EndsInBlankLine(f + more)
  {}

  /** Valid text may be cut after a line feed. */
  lemma CutAfterLineFeed(s: string, i: nat)
    requires Utf8.Valid(s) && 0 < i <= |s| && s[i - 1] == '\n'
    ensures Utf8.Valid(s[..i]) && Utf8.Valid(s[i..])
  {
    hide Utf8.Valid;
    Utf8.BoundarySplit(s, i - 1);
    assert s[i - 1..] == "\n" + s[i..] && s[..i] == s[..i - 1] + "\n";
    Utf8.AsciiValid("\n");
    Utf8.ValidSuffix("\n", s[i..]);
    Utf8.ValidConcat(s[..i - 1], "\n");
  }

  lemma RestUtf8(p: string)
    requires Utf8.Valid(p)
    ensures Utf8.Valid(Rest(Normalize(p)))
  {
    hide Utf8.Valid, Rest, Normalize;
    var n := Normalize(p);
    NormalizeUtf8(p);
    RestSuffix(n);
    if Rest(n) != n {
      CutAfterLineFeed(n, |n| - |Rest(n)|);
    }
  }

  // ------------------------------------------------------------------- one chunk after the other

  /** What one call does: the frames that became complete, and the bytes kept for later. */
  datatype Cut = Cut(frames: seq<string>, fragment: string)

  function CutChunk(fragment: string, chunk: string): Cut {
    var raw := fragment + chunk;
    if Utf8.Valid(raw) then Cut(Frames(Normalize(raw)), Rest(Normalize(raw))) else Cut([], raw)
  }

  function CutAll(fragment: string, chunks: seq<string>): Cut
    decreases |chunks|
  {
    if chunks == [] then Cut([], fragment)
    else
      var first := CutChunk(fragment, chunks[0]);
      var rest := CutAll(first.fragment, chunks[1..]);
      Cut(first.frames + rest.frames, rest.fragment)
  }

  /** A rest is normalised again together with what follows it, and that changes nothing else. */
  lemma RestThenMore(p: string, q: string)
    requires !HasCrCrLf(p + q)
    ensures Frames(Normalize(p + q)) == Frames(Normalize(p)) + Frames(Normalize(Rest(Normalize(p)) + q))
    ensures Rest(Normalize(p + q)) == Rest(Normalize(Rest(Normalize(p)) + q))
  {
    hide Normalize, Frames, Rest;
    NoCrCrLfSplit(p, q);
    if CleanCut(p, q) {
      NormalizeConcat(p, q);
      FramesConcat(Normalize(p), Normalize(q));
      RestNormalized(p, q);
    } else {
      SplitPair(p, q);
    }
  }

  lemma NoCrCrLfSplit(p: string, q: string)
    requires !HasCrCrLf(p + q)
    ensures !HasCrCrLf(p) && !HasCrCrLf(q)
  {
    assert forall i :: 0 <= i < |p| ==> (p + q)[i] == p[i];
    assert forall i :: 0 <= i < |q| ==> (p + q)[|p| + i] == q[i];
  }

  lemma RestNormalized(p: string, q: string)
    requires !HasCrCrLf(p) && CleanCut(p, q)
    ensures Normalize(Rest(Normalize(p)) + q) == Rest(Normalize(p)) + Normalize(q)
  {
    hide Normalize, Rest;
    var r := Rest(Normalize(p));
    NormalizeRemovesPairs(p);
    RestSuffix(Normalize(p));
    var h := |Normalize(p)| - |r|;
    assert forall i :: 0 <= i < |r| ==> Normalize(p)[h + i] == r[i];
    NormalizeIdle(r);
    assert CleanCut(r, q);
    NormalizeConcat(r, q);
  }

  /** The cut falls inside a "\r\n": its '\r' is the last byte kept. */
  lemma SplitPair(p: string, q: string)
    requires !HasCrCrLf(p + q) && !CleanCut(p, q)
    ensures Frames(Normalize(p + q)) == Frames(Normalize(p)) + Frames(Normalize(Rest(Normalize(p)) + q))
    ensures Rest(Normalize(p + q)) == Rest(Normalize(Rest(Normalize(p)) + q))
  {
    hide Normalize, Frames, Rest;
    var h := p[..|p| - 1];
    assert p == h + "\r" && q[0] == '\n';
    assert CleanCut(h, "\r" + q);
    NormalizeConcat(h, "\r" + q);
    assert p + q == h + ("\r" + q);
    NormalizeConcat(h, "\r");
    NormalizeIdle("\r");
    FramesConcat(Normalize(h), "\r");
    var r := Rest(Normalize(h));
    LoneCr(r);
    FramesConcat(Normalize(h), Normalize("\r" + q));
    NoCrCrLfSplit(h, "\r" + q);
    RestNormalized(h, "\r" + q);
    assert r + ("\r" + q) == (r + "\r") + q;
    SplitIsExact(Normalize(h));
  }

  /** A '\r' completes no frame. */
  lemma {:induction false} LoneCr(r: string)
    ensures FrameLen(r) == 0 ==> FrameLen(r + "\r") == 0 && Frames(r + "\r") == [] && Rest(r + "\r") == r + "\r"
  {
    if FrameLen(r) == 0 && |r| > 0 {
      assert (r + "\r")[1..] == r[1..] + "\r";
      LoneCr(r[1..]);
    }
  }

  /** Bytes that arrive in chunks are cut like the whole: `parsed` has been cut already, and
      `waiting` is held back because it ends inside a character. */
  lemma {:induction false} CutAllIsWhole(parsed: string, waiting: string, chunks: seq<string>)
    requires Utf8.Valid(parsed) && (waiting == "" || !Utf8.Valid(waiting))
    requires Utf8.Valid(parsed + (waiting + Concat(chunks))) && !HasCrCrLf(parsed + (waiting + Concat(chunks)))
    ensures var all := parsed + (waiting + Concat(chunks));
            var c := CutAll(Rest(Normalize(parsed)) + waiting, chunks);
            c.fragment == Rest(Normalize(all)) && Frames(Normalize(all)) == Frames(Normalize(parsed)) + c.frames
    decreases |chunks|
  {
    hide Normalize, Frames, Rest, Utf8.Valid, HasCrCrLf, Concat, CutAll, CutChunk;
    var r := Rest(Normalize(parsed));
    if chunks == [] {
      NoChunks(r + waiting);
      Empty(waiting);
      Empty(parsed);
      Empty(r);
      Utf8.ValidSuffix(parsed, waiting);
      assert Frames(Normalize(parsed)) + [] == Frames(Normalize(parsed));
    } else {
      var w, more := waiting + chunks[0], Concat(chunks[1..]);
      FirstOf(r + waiting, chunks);
      Assoc(waiting, chunks[0], more);
      Assoc(r, waiting, chunks[0]);
      Assoc(parsed, w, more);
      RestUtf8(parsed);
      if Utf8.Valid(w) {
        Utf8.ValidConcat(r, w);
        Utf8.ValidConcat(parsed, w);
        CutWhole(r, w);
        NoCrCrLfSplit(parsed + w, more);
        RestThenMore(parsed, w);
        Empty(more);
        CutAllIsWhole(parsed + w, "", chunks[1..]);
        Empty(Rest(Normalize(parsed + w)));
        Assoc(Frames(Normalize(parsed)), Frames(Normalize(r + w)), CutAll(Rest(Normalize(r + w)), chunks[1..]).frames);
      } else {
        if Utf8.Valid(r + w) {
          Utf8.ValidSuffix(r, w);
        }
        CutWhole(r, w);
        CutAllIsWhole(parsed, w, chunks[1..]);
        var c := CutAll(r + w, chunks[1..]);
        assert [] + c.frames == c.frames;
      }
    }
  }

  lemma Empty(s: string)
    ensures s + "" == s && "" + s == s
  {}

  lemma NoChunks(fragment: string)
    ensures CutAll(fragment, []) == Cut([], fragment) && Concat<char>([]) == ""
  {}

  lemma FirstOf(fragment: string, chunks: seq<string>)
    requires chunks != []
    ensures Concat(chunks) == chunks[0] + Concat(chunks[1..])
    ensures var first := CutChunk(fragment, chunks[0]);
            var rest := CutAll(first.fragment, chunks[1..]);
            CutAll(fragment, chunks) == Cut(first.frames + rest.frames, rest.fragment)
  {
    hide CutChunk;
  }

  /** A chunk is cut if it completes the characters, and waits otherwise; it does not matter which
      part of the text was there before. */
  lemma CutWhole(r: string, w: string)
    ensures forall a, b :: a + b == r + w ==>
              CutChunk(a, b) == if Utf8.Valid(r + w) then Cut(Frames(Normalize(r + w)), Rest(Normalize(r + w)))
                                else Cut([], r + w)
  {
    hide Normalize, Frames, Rest, Utf8.Valid;
  }

  /** However valid text without "\r\r\n" is cut into chunks, its frames are those of the whole. */
  lemma ChunksDoNotMatter(chunks: seq<string>)
    requires Utf8.Valid(Concat(chunks)) && !HasCrCrLf(Concat(chunks))
    ensures CutAll("", chunks) == Cut(Frames(Normalize(Concat(chunks))), Rest(Normalize(Concat(chunks))))
  {
    assert "" + ("" + Concat(chunks)) == Concat(chunks);
    CutAllIsWhole("", "", chunks);
    assert Rest(Normalize("")) + "" == "";
  }

  // -------------------------------------------------------- the condition is necessary as well

  function Size(c: Cut): nat {
    |Concat(c.frames)| + |c.fragment|
  }

  /** The two chunks that part after a "\r\r\n" lose a byte more than the whole does. */
  lemma TripleIsCut(all: string, i: nat)
    requires Utf8.Valid(all) && i + 3 <= |all| && all[i] == '\r' && all[i + 1] == '\r' && all[i + 2] == '\n'
    ensures CutAll("", [all[..i + 3], all[i + 3..]]) != CutAll("", [all])
  {
    hide Normalize, Rest, Utf8.Valid, CutChunk, CutAll;
    var x, y := all[..i + 3], all[i + 3..];
    assert all == x + y;
    CutAfterLineFeed(all, i + 3);
    NormalizeConcat(x, y);
    assert "" + all == all && "" + x == x;
    OneChunk("", all);
    OneChunk("", x);
    var r := Rest(Normalize(x));
    TripleLeavesPair(all[..i], x);
    RestUtf8(x);
    Utf8.ValidConcat(r, y);
    OneChunk(r, y);
    NormalizeConcat(r, y);
    NormalizeShrinks(r);
    TwoChunks(x, y);
  }

  lemma OneChunk(fragment: string, chunk: string)
    requires Utf8.Valid(fragment + chunk)
    ensures Size(CutChunk(fragment, chunk)) == |Normalize(fragment + chunk)|
    ensures CutChunk(fragment, chunk).fragment == Rest(Normalize(fragment + chunk))
  {
    hide Utf8.Valid, Normalize, Rest, Frames;
    SplitIsExact(Normalize(fragment + chunk));
  }

  lemma TwoChunks(x: string, y: string)
    ensures Size(CutAll("", [x, y])) == Size(CutChunk("", x)) - |CutChunk("", x).fragment|
                                        + Size(CutChunk(CutChunk("", x).fragment, y))
    ensures CutAll("", [x + y]) == CutChunk("", x + y)
  {
    hide CutChunk;
    var c1 := CutChunk("", x);
    var c2 := CutChunk(c1.fragment, y);
    assert [x, y][1..] == [y] && [y][1..] == [];
    assert CutAll(c1.fragment, [y]) == Cut(c2.frames + [], c2.fragment);
    assert c2.frames + [] == c2.frames;
    ConcatSum(c1.frames, c2.frames);
    var c := CutChunk("", x + y);
    assert [x + y][1..] == [] && c.frames + [] == c.frames;
  }

  lemma TripleLeavesPair(u: string, x: string)
    requires x == u + "\r\r\n"
    ensures |Rest(Normalize(x))| >= 2 && Rest(Normalize(x))[|Rest(Normalize(x))| - 2..] == "\r\n"
  {
    hide Rest, Normalize;
    assert x == (u + "\r") + "\r\n";
    NormalizeConcat(u + "\r", "\r\n");
    NormalizeConcat(u, "\r");
    NormalizeSmall();
    var n := Normalize(x);
    assert n == Normalize(u) + "\r" + "\n";
    RestSuffix(n);
    var r := Rest(n);
    assert n[|n| - 2] == '\r' && n[|n| - 1] == '\n';
    var head := n[..|n| - |r|];
    assert forall k :: 0 <= k < |head| ==> head[k] == n[k];
  }

  lemma NormalizeSmall()
    ensures Normalize("\r") == "\r" && Normalize("\r\n") == "\n"
  {
    assert "\r\n"[2..] == "" && "\r"[1..] == "";
  }

  /** All ways to cut these bytes into chunks come to the same. */
  ghost predicate ChunkingUnseen(all: string) {
    forall chunks :: Concat(chunks) == all ==> CutAll("", chunks) == CutAll("", [all])
  }

  /** Chunking cannot be seen in the frames exactly when valid text holds no "\r\r\n", or when of bytes that
      are no text the part before the first that is no character holds neither "\r\n" nor a frame. */
  lemma ChunkingIndependentIff(all: string)
    ensures ChunkingUnseen(all)
            <==> if Utf8.Valid(all) then !HasCrCrLf(all)
                 else !HasCrLf(Utf8.Whole(all)) && FrameLen(Utf8.Whole(all)) == 0
  {
    hide CutAll, Utf8.Valid, Utf8.Whole, HasCrLf, FrameLen;
    if Utf8.Valid(all) {
      TextUnseenIff(all);
    } else if !HasCrLf(Utf8.Whole(all)) && FrameLen(Utf8.Whole(all)) == 0 {
      forall chunks | Concat(chunks) == all ensures CutAll("", chunks) == CutAll("", [all]) {
        NothingIsCut(all, "", chunks);
        NothingIsCut(all, "", [all]);
      }
    } else {
      WholePartIsCut(all);
    }
  }

  lemma ConcatSingle(all: string)
    ensures Concat([all]) == all
  {
    ConcatOne(all);
  }

  lemma TextUnseenIff(all: string)
    requires Utf8.Valid(all)
    ensures ChunkingUnseen(all) <==> !HasCrCrLf(all)
  {
    hide CutAll, Utf8.Valid;
    ConcatOne(all);
    if HasCrCrLf(all) {
      var i :| 0 <= i < |all| - 2 && all[i] == '\r' && all[i + 1] == '\r' && all[i + 2] == '\n';
      TripleIsCut(all, i);
      TwoConcat(all, i + 3);
    } else {
      forall chunks | Concat(chunks) == all ensures CutAll("", chunks) == CutAll("", [all]) {
        ChunksDoNotMatter(chunks);
        ChunksDoNotMatter([all]);
      }
    }
  }

  lemma TwoConcat(all: string, i: nat)
    requires i <= |all|
    ensures Concat([all[..i], all[i..]]) == all
  {
    assert [all[..i], all[i..]] == [all[..i]] + [all[i..]];
    ConcatSum([all[..i]], [all[i..]]);
    ConcatOne(all[..i]);
    ConcatOne(all[i..]);
  }

  /** Every valid prefix lies in the whole part, and so nothing is cut from it. */
  lemma {:induction false} NothingIsCut(all: string, kept: string, chunks: seq<string>)
    requires !Utf8.Valid(all) && !HasCrLf(Utf8.Whole(all)) && FrameLen(Utf8.Whole(all)) == 0
    requires kept + Concat(chunks) == all
    ensures CutAll(kept, chunks) == Cut([], all)
    decreases |chunks|
  {
    hide Utf8.Valid, FrameLen, HasCrLf, Utf8.Whole, CutChunk, CutAll, Concat;
    if chunks == [] {
      NoChunks(kept);
      Empty(kept);
    } else {
      FirstOf(kept, chunks);
      Assoc(kept, chunks[0], Concat(chunks[1..]));
      PrefixKept(all, kept, chunks[0], Concat(chunks[1..]));
      NothingIsCut(all, kept + chunks[0], chunks[1..]);
    }
  }

  lemma PrefixKept(all: string, kept: string, chunk: string, more: string)
    requires !HasCrLf(Utf8.Whole(all)) && FrameLen(Utf8.Whole(all)) == 0 && kept + chunk + more == all
    ensures CutChunk(kept, chunk) == Cut([], kept + chunk)
  {
    hide Utf8.Valid, FrameLen, Utf8.ValidUpTo, Frames, Rest, Normalize;
    var raw := kept + chunk;
    if Utf8.Valid(raw) {
      assert all[..|raw|] == raw;
      Utf8.LongestValidPrefix(all, |raw|);
      var w := Utf8.Whole(all);
      assert raw + w[|raw|..] == w;
      if FrameLen(raw) > 0 { FrameLenPrefix(raw, w[|raw|..]); }
      assert forall i :: 0 <= i < |raw| ==> raw[i] == w[i];
      NormalizeIdle(raw);
      CutFirst(raw);
    }
  }

  /** If the whole part arrives alone, it is cut, or loses a byte. */
  lemma WholePartIsCut(all: string)
    requires !Utf8.Valid(all) && (HasCrLf(Utf8.Whole(all)) || FrameLen(Utf8.Whole(all)) > 0)
    ensures !ChunkingUnseen(all)
  {
    hide Utf8.Valid, FrameLen, HasCrLf, Normalize, Frames, Rest, CutAll, CutChunk, Concat, Utf8.ValidUpTo;
    var i := Utf8.ValidUpTo(all);
    var w, rest := all[..i], all[i..];
    Utf8.LongestValidPrefix(all, 0);
    assert "" + w == w && "" + all == all && w + rest == all;
    OneChunk("", w);
    TwoChunks(w, rest);
    InvalidWaits("", all);
    var c := CutChunk("", w);
    SizeOfChunk(c.fragment, rest);
    TwoConcat(all, i);
    ConcatSingle(all);
    if HasCrLf(w) {
      PairShrinks(w);
    } else {
      NormalizeIdle(w);
      FramesComeOut(w, rest);
    }
  }

  lemma InvalidWaits(fragment: string, chunk: string)
    requires !Utf8.Valid(fragment + chunk)
    ensures CutChunk(fragment, chunk) == Cut([], fragment + chunk) && Size(CutChunk(fragment, chunk)) == |fragment + chunk|
  {
    hide Utf8.Valid;
  }

  lemma SizeOfChunk(fragment: string, chunk: string)
    ensures Size(CutChunk(fragment, chunk)) <= |fragment| + |chunk|
  {
    hide Utf8.Valid, Normalize, Frames, Rest;
    if Utf8.Valid(fragment + chunk) {
      OneChunk(fragment, chunk);
    } else {
      InvalidWaits(fragment, chunk);
    }
  }

  lemma {:induction false} PairShrinks(s: string)
    requires HasCrLf(s)
    ensures |Normalize(s)| < |s|
  {
    var i :| 0 <= i < |s| - 1 && s[i] == '\r' && s[i + 1] == '\n';
    if !StartsCrLf(s) {
      assert s[1..][i - 1] == s[i] && s[1..][i] == s[i + 1];
      PairShrinks(s[1..]);
    }
  }

  lemma FramesComeOut(w: string, rest: string)
    requires Utf8.Valid(w) && Normalize(w) == w && FrameLen(w) > 0
    ensures CutAll("", [w, rest]).frames != []
  {
    hide Utf8.Valid, FrameLen, Normalize, Frames, Rest;
    assert "" + w == w;
    CutFirst(w);
    FirstOf("", [w, rest]);
  }
}
