/** The sliding window over one accumulation buffer: how much of it a flush may release. */
module SlidingWindow {
  import opened Fakes
  import Utf8

  // --------------------------------------------------------------------------- the cut point

  function Max(a: nat, b: nat): nat {
    if a < b then b else a
  }

  /** The hold window: the length of the longest fake, 0 when there is none. */
  function MaxFakeLen(entries: seq<Entry>): nat {
    if entries == [] then 0 else Max(|entries[0].fake|, MaxFakeLen(entries[1..]))
  }

  /** The longest proper prefix of `fake`, of at most `k` bytes, that ends `text[..n]`. */
  function PartialMatch(text: string, n: nat, fake: string, k: nat): (m: nat)
    requires n <= |text| && k <= n && k <= |fake|
    ensures m <= k
  {
    if k == 0 || text[n - k..n] == fake[..k] then k else PartialMatch(text, n, fake, k - 1)
  }

  lemma {:induction false} PartialMatchMatches(text: string, n: nat, fake: string, k: nat)
    requires n <= |text| && k <= n && k <= |fake|
    ensures var m := PartialMatch(text, n, fake, k); text[n - m..n] == fake[..m]
  {
    if k > 0 && text[n - k..n] != fake[..k] {
      PartialMatchMatches(text, n, fake, k - 1);
    }
  }

  lemma {:induction false} PartialMatchIsLongest(text: string, n: nat, fake: string, k: nat, j: nat)
    requires n <= |text| && j <= k <= n && k <= |fake| && text[n - j..n] == fake[..j]
    ensures j <= PartialMatch(text, n, fake, k)
  {
    if j < k {
      PartialMatchIsLongest(text, n, fake, k - 1, j);
    }
  }

  function LongestTry(fake: string, n: nat): (k: nat)
    ensures k <= n && k <= |fake|
  {
    if fake == "" then 0 else if |fake| - 1 < n then |fake| - 1 else n
  }

  /** The nominal boundary `n`, moved to before every fake that starts but does not end there. */
  function Retract(entries: seq<Entry>, text: string, n: nat): (s: nat)
    requires n <= |text|
    ensures s <= n
  {
    if entries == [] then n
    else
      var m := n - PartialMatch(text, n, entries[0].fake, LongestTry(entries[0].fake, n));
      var rest := Retract(entries[1..], text, n);
      if m < rest then m else rest
  }

  /** How many bytes of `text` a flush with this hold window releases. */
  function CutPoint(entries: seq<Entry>, window: nat, text: string): (cut: nat)
    ensures cut <= |text| && Utf8.IsBoundary(text, cut)
  {
    if |text| <= window then 0
    else
      var n := |text| - window;
      Utf8.Floor(text, if window > 0 then Retract(entries, text, n) else n)
  }

  /** The loops of `flush_safe_prefix`, which find the cut point in place. */
  method SafeTarget(entries: seq<Entry>, window: nat, text: string) returns (target: nat)
    ensures target == CutPoint(entries, window, text)
  {
    if |text| <= window {
      return 0;
    }
    target := |text| - window;
    if window > 0 {
      target := Retracted(entries, text, target);
    }
    ghost var start := target;
    while target > 0 && !Utf8.IsBoundary(text, target)
      invariant target <= start <= |text|
      invariant Utf8.Floor(text, start) == Utf8.Floor(text, target)
    {
      target := target - 1;
    }
  }

  method Retracted(entries: seq<Entry>, text: string, nominal: nat) returns (target: nat)
    requires nominal <= |text|
    ensures target == Retract(entries, text, nominal)
  {
    target := nominal;
    for i := |entries| downto 0
      invariant target == Retract(entries[i..], text, nominal)
    {
      var fake := entries[i].fake;
      var k := LongestTry(fake, nominal);
      ghost var top := k;
      while k >= 1 && text[nominal - k..nominal] != fake[..k]
        invariant 0 <= k <= top
        invariant PartialMatch(text, nominal, fake, top) == PartialMatch(text, nominal, fake, k)
      {
        k := k - 1;
      }
      if nominal - k < target {
        target := nominal - k;
      }
      assert entries[i..][0] == entries[i] && entries[i..][1..] == entries[i + 1..];
    }
  }

  // --------------------------------------------------------------- what the retraction achieves

  lemma {:induction false} RetractBelow(entries: seq<Entry>, text: string, n: nat, e: Entry, k: nat)
    requires n <= |text| && e in entries
    requires k <= n && k < |e.fake| && text[n - k..n] == e.fake[..k]
    ensures Retract(entries, text, n) <= n - k
  {
    if entries[0] != e {
      RetractBelow(entries[1..], text, n, e, k);
    } else {
      PartialMatchIsLongest(text, n, e.fake, LongestTry(e.fake, n), k);
    }
  }

  /** If the boundary moved, then it stands where some fake starts that runs up to `n`. */
  lemma {:induction false} RetractAtFake(entries: seq<Entry>, text: string, n: nat) returns (e: Entry)
    requires n <= |text| && Retract(entries, text, n) < n
    ensures var s := Retract(entries, text, n);
            e in entries && n - s < |e.fake| && text[s..n] == e.fake[..n - s]
  {
    var f := entries[0].fake;
    if Retract(entries, text, n) == n - PartialMatch(text, n, f, LongestTry(f, n)) {
      PartialMatchMatches(text, n, f, LongestTry(f, n));
      e := entries[0];
    } else {
      e := RetractAtFake(entries[1..], text, n);
    }
  }

  lemma {:induction false} FakeFits(entries: seq<Entry>, e: Entry)
    requires e in entries
    ensures |e.fake| <= MaxFakeLen(entries)
  {
    if entries[0] != e {
      FakeFits(entries[1..], e);
    }
  }

  // ----------------------------------------------------------------------- no cut is ever wrong

  /** No occurrence of a fake, in the text or in any continuation of it, straddles `cut`. */
  ghost predicate SafeForever(entries: seq<Entry>, text: string, cut: nat)
    requires cut <= |text|
  {
    forall more: string, e, p: nat ::
      e in entries && p < cut && OccursAt(text + more, p, e.fake) ==> p + |e.fake| <= cut
  }

  lemma CutIsSafe(entries: seq<Entry>, text: string)
    requires WellFormed(entries) && OverlapFree(entries) && Utf8.Valid(text)
    ensures SafeForever(entries, text, CutPoint(entries, MaxFakeLen(entries), text))
  {
    hide Utf8.Valid;
    var cut := CutPoint(entries, MaxFakeLen(entries), text);
    forall more: string, e, p: nat | e in entries && p < cut && OccursAt(text + more, p, e.fake)
      ensures p + |e.fake| <= cut
    {
      OccurrenceBeforeCut(entries, text, more, e, p);
    }
  }

  lemma OccurrenceBeforeCut(entries: seq<Entry>, text: string, more: string, e: Entry, p: nat)
    requires OverlapFree(entries) && Utf8.Valid(text) && Utf8.Valid(e.fake) && e.fake != ""
    requires e in entries && p < CutPoint(entries, MaxFakeLen(entries), text)
    requires OccursAt(text + more, p, e.fake)
    ensures p + |e.fake| <= CutPoint(entries, MaxFakeLen(entries), text)
  {
    hide Retract;
    hide Utf8.Valid;
    FakeFits(entries, e);
    var n := |text| - MaxFakeLen(entries);
    if p + |e.fake| > n {
      PartialStopsRetract(entries, text, more, n, e, p);
    } else {
      assert text[p..p + |e.fake|] == (text + more)[p..p + |e.fake|];
      OccurrenceEndsBefore(entries, text, n, e, p);
    }
  }

  /** The boundary moves to before every fake that has started and not ended at `n`. */
  lemma PartialStopsRetract(entries: seq<Entry>, text: string, more: string, n: nat, e: Entry, p: nat)
    requires e in entries && p < n <= |text|
    requires OccursAt(text + more, p, e.fake) && p + |e.fake| > n
    ensures Retract(entries, text, n) <= p
  {
    hide Retract;
    assert text[p..n] == (text + more)[p..p + |e.fake|][..n - p];
    RetractBelow(entries, text, n, e, n - p);
  }

  lemma OccurrenceEndsBefore(entries: seq<Entry>, text: string, n: nat, e: Entry, p: nat)
    requires OverlapFree(entries) && Utf8.Valid(text) && Utf8.Valid(e.fake) && e.fake != ""
    requires e in entries && n <= |text| && OccursAt(text, p, e.fake) && p + |e.fake| <= n
    requires p < Retract(entries, text, n)
    ensures p + |e.fake| <= Utf8.Floor(text, Retract(entries, text, n))
  {
    hide Retract;
    hide Utf8.Valid;
    NotAcrossRetracted(entries, text, n, e, p);
    Utf8.OccurrenceOnBoundaries(text, p, e.fake);
    Utf8.FloorIsLargest(text, Retract(entries, text, n), p + |e.fake|);
  }

  /** A whole fake that runs over the start of another one overlaps it. */
  lemma AcrossIsOverlap(entries: seq<Entry>, text: string, n: nat, e: Entry, p: nat) returns (d: Entry)
    requires n <= |text| && OccursAt(text, p, e.fake) && p + |e.fake| <= n
    requires p < Retract(entries, text, n) < p + |e.fake|
    ensures d in entries && Overlap(e.fake, d.fake, p + |e.fake| - Retract(entries, text, n))
  {
    hide Retract;
    var s := Retract(entries, text, n);
    var end := p + |e.fake|;
    d := RetractAtFake(entries, text, n);
    assert text[s..end] == text[s..n][..end - s];
    assert text[s..end] == text[p..end][s - p..];
  }

  lemma NotAcrossRetracted(entries: seq<Entry>, text: string, n: nat, e: Entry, p: nat)
    requires OverlapFree(entries) && e in entries && n <= |text|
    requires OccursAt(text, p, e.fake) && p + |e.fake| <= n && p < Retract(entries, text, n)
    ensures p + |e.fake| <= Retract(entries, text, n)
  {
    hide Retract, Overlap;
    if Retract(entries, text, n) < p + |e.fake| {
      var d := AcrossIsOverlap(entries, text, n, e, p);
    }
  }

  /** Releasing up to the cut point and restoring the rest later is restoring at once. */
  lemma CutRestores(entries: seq<Entry>, window: nat, text: string, more: string)
    requires WellFormed(entries) && OverlapFree(entries) && Utf8.Valid(text)
    requires window == MaxFakeLen(entries) || (window == 0 && more == "")
    ensures var cut := CutPoint(entries, window, text);
            RestoreAll(entries, text + more)
            == RestoreAll(entries, text[..cut]) + RestoreAll(entries, text[cut..] + more)
  {
    hide Utf8.Valid;
    var cut := CutPoint(entries, window, text);
    var x, y := text[..cut], text[cut..] + more;
    assert text + more == x + y;
    assert NoStraddle(entries, x, y) by {
      if window == MaxFakeLen(entries) {
        CutIsSafe(entries, text);
      } else {
        assert cut == |text| && y == "";
      }
    }
    RestoreSplit(entries, x, y);
  }

  // -------------------------------------------------- overlap-freedom is exactly what it takes

  /** As many filler bytes as the hold window is long. */
  function Filler(entries: seq<Entry>, filler: char): string {
    seq(MaxFakeLen(entries), i => filler)
  }

  /** A text in which a flush puts the nominal boundary at the end of `e`. */
  function BadText(entries: seq<Entry>, e: Entry, filler: char): string {
    e.fake + Filler(entries, filler)
  }

  /** If the end of `e` starts another fake, that text is cut inside `e`. */
  lemma BadTextIsCutInside(entries: seq<Entry>, e: Entry, d: Entry, k: nat, filler: char)
    requires Headed(entries) && InfixFree(entries) && Utf8.Valid(e.fake) && filler as int < 0x80
    requires e in entries && d in entries && 0 < k < |e.fake| && Overlap(e.fake, d.fake, k)
    ensures var text := BadText(entries, e, filler);
            && Utf8.Valid(text) && OccursAt(text, 0, e.fake)
            && 0 < CutPoint(entries, MaxFakeLen(entries), text) < |e.fake|
  {
    hide Retract, Utf8.Valid;
    var text := BadText(entries, e, filler);
    var window := MaxFakeLen(entries);
    Utf8.AsciiValid(Filler(entries, filler));
    Utf8.ValidConcat(e.fake, Filler(entries, filler));
    FakeFits(entries, e);
    var n := |e.fake|;
    assert text[..n] == e.fake && n == |text| - window;
    RetractsInto(entries, text, e, d, k);
    var s := Retract(entries, text, n);
    assert Utf8.Floor(text, s) == s;
  }

  lemma OverlapIsCut(entries: seq<Entry>, e: Entry, d: Entry, k: nat)
    requires Headed(entries) && InfixFree(entries) && Utf8.Valid(e.fake)
    requires e in entries && d in entries && 0 < k < |e.fake| && Overlap(e.fake, d.fake, k)
    ensures var text := BadText(entries, e, 'x');
            Utf8.Valid(text) && !SafeForever(entries, text, CutPoint(entries, MaxFakeLen(entries), text))
  {
    hide CutPoint, Utf8.Valid;
    var text := BadText(entries, e, 'x');
    BadTextIsCutInside(entries, e, d, k, 'x');
    assert text + "" == text;
    assert OccursAt(text + "", 0, e.fake);
  }

  lemma RetractsInto(entries: seq<Entry>, text: string, e: Entry, d: Entry, k: nat)
    requires Headed(entries) && InfixFree(entries)
    requires e in entries && d in entries && 0 < k < |e.fake| && Overlap(e.fake, d.fake, k)
    requires |e.fake| <= |text| && text[..|e.fake|] == e.fake
    ensures 0 < Retract(entries, text, |e.fake|) < |e.fake|
    ensures Utf8.IsBoundary(text, Retract(entries, text, |e.fake|))
  {
    hide Retract, OccursAt;
    var n := |e.fake|;
    OverlapIsProper(entries, e, d, k);
    assert text[n - k..n] == text[..n][n - k..];
    RetractBelow(entries, text, n, d, k);
    var s := Retract(entries, text, n);
    var g := RetractAtFake(entries, text, n);
    AtFakeStart(entries, text, s, n, g);
    if s == 0 {
      PrefixOccurs(text, n, e, g);
    }
  }

  lemma OverlapIsProper(entries: seq<Entry>, e: Entry, d: Entry, k: nat)
    requires InfixFree(entries) && e in entries && d in entries
    requires 0 < k < |e.fake| && Overlap(e.fake, d.fake, k)
    ensures k < |d.fake|
  {
    assert k == |d.fake| ==> OccursAt(e.fake, |e.fake| - k, d.fake);
  }

  lemma PrefixOccurs(text: string, n: nat, e: Entry, g: Entry)
    requires n == |e.fake| <= |text| && text[..n] == e.fake && n < |g.fake| && text[0..n] == g.fake[..n]
    ensures OccursAt(g.fake, 0, e.fake)
  {
    assert text[0..n] == text[..n];
  }

  /** Where a fake starts, a character starts. */
  lemma AtFakeStart(entries: seq<Entry>, text: string, s: nat, n: nat, e: Entry)
    requires Headed(entries) && e in entries
    requires s < n <= |text| && n - s < |e.fake| && text[s..n] == e.fake[..n - s]
    ensures Utf8.IsBoundary(text, s)
  {
    assert text[s] == text[s..n][0] == e.fake[0];
  }

  /** Every cut of every text is safe in every future exactly when the fakes do not overlap. */
  lemma SafeIffOverlapFree(entries: seq<Entry>)
    requires WellFormed(entries) && InfixFree(entries)
    ensures (forall text :: Utf8.Valid(text) ==> SafeForever(entries, text, CutPoint(entries, MaxFakeLen(entries), text)))
            <==> OverlapFree(entries)
  {
    hide Utf8.Valid;
    if OverlapFree(entries) {
      forall text | Utf8.Valid(text)
        ensures SafeForever(entries, text, CutPoint(entries, MaxFakeLen(entries), text))
      {
        CutIsSafe(entries, text);
      }
    } else {
      var e, d, k: nat :| e in entries && d in entries && 0 < k < |e.fake| && Overlap(e.fake, d.fake, k);
      WellFormedIsHeaded(entries);
      OverlapIsCut(entries, e, d, k);
    }
  }

  // ------------------------------------------------------------------------- what is held back

  /** A flush that releases nothing leaves at most this much. */
  function HoldBound(longest: nat): nat {
    if longest == 0 then 0 else longest + Max(longest - 1, 3)
  }

  lemma HeldIsBounded(entries: seq<Entry>, text: string)
    requires Utf8.Valid(text) && Headed(entries) && CutPoint(entries, MaxFakeLen(entries), text) == 0
    ensures |text| <= HoldBound(MaxFakeLen(entries))
  {
    hide Retract;
    hide Utf8.Valid;
    var window := MaxFakeLen(entries);
    if |text| > window {
      var n := |text| - window;
      var s := if window > 0 then Retract(entries, text, n) else n;
      Utf8.FloorIsNear(text, s);
      if s < n {
        var e := RetractAtFake(entries, text, n);
        FakeFits(entries, e);
        AtFakeStart(entries, text, s, n, e);
      }
    }
  }

  /** A proper part of a fake, its start, ends at `n`. */
  ghost predicate FakeRunsInto(entries: seq<Entry>, text: string, n: nat)
    requires n <= |text|
  {
    exists e, k: nat :: e in entries && 0 < k < |e.fake| && k <= n && text[n - k..n] == e.fake[..k]
  }

  lemma RetractsIff(entries: seq<Entry>, text: string, n: nat)
    requires n <= |text|
    ensures Retract(entries, text, n) < n <==> FakeRunsInto(entries, text, n)
  {
    hide Retract;
    if Retract(entries, text, n) < n {
      var e := RetractAtFake(entries, text, n);
      var k := n - Retract(entries, text, n);
      assert text[n - k..n] == e.fake[..k];
    }
    if e, k: nat :| e in entries && 0 < k < |e.fake| && k <= n && text[n - k..n] == e.fake[..k] {
      RetractBelow(entries, text, n, e, k);
    }
  }

  /** A flush leaves no more than the window exactly if there was no more, or if the nominal boundary
      falls between characters and no fake runs into it. */
  lemma WithinWindowIff(entries: seq<Entry>, window: nat, text: string)
    requires window > 0
    ensures |text| - CutPoint(entries, window, text) <= window
            <==> |text| <= window
                 || (Utf8.IsBoundary(text, |text| - window) && !FakeRunsInto(entries, text, |text| - window))
  {
    hide Retract, Utf8.IsBoundary, FakeRunsInto;
    if |text| > window {
      RetractsIff(entries, text, |text| - window);
    }
  }

  function Repeat(c: char, n: nat): string {
    seq(n, i => c)
  }

  /** A fake of `n` bytes, and a text that it holds back as a whole. */
  function TightFake(n: nat): string
    requires n > 0
  {
    Repeat('a', n - 1) + "b"
  }

  /** U+1F600. */
  const FOUR_BYTES := [0xF0 as char, 0x9F as char, 0x98 as char, 0x80 as char]

  function TightText(n: nat): string
    requires n > 0
  {
    if n >= 4 then Repeat('a', n - 1) + Repeat('c', n) else FOUR_BYTES + Repeat('c', n - 1)
  }

  /** The bound is tight for every length of the longest fake, even for one fake that does not overlap
      itself. */
  lemma HoldBoundIsTight(n: nat, original: string)
    requires n > 0
    ensures var entries, text := [Entry(TightFake(n), original)], TightText(n);
            && WellFormed(entries) && OverlapFree(entries) && InfixFree(entries) && MaxFakeLen(entries) == n
            && Utf8.Valid(text) && |text| == HoldBound(n)
            && CutPoint(entries, n, text) == 0
  {
    hide Utf8.Valid, Utf8.CharLen, Retract, Utf8.Floor;
    var e := Entry(TightFake(n), original);
    var entries, text := [e], TightText(n);
    assert entries[1..] == [];
    assert |e.fake| == n;
    Utf8.AsciiValid(e.fake);
    TightIsOverlapFree(n, original);
    var k := |text| - n;
    if n >= 4 {
      Utf8.AsciiValid(text);
      assert text[k - (n - 1)..k] == Repeat('a', n - 1) == e.fake[..n - 1];
      RetractBelow(entries, text, k, e, n - 1);
      FloorOfNothing(text);
    } else {
      FourByteText(n);
      var s := Retract(entries, text, k);
      Utf8.FloorIsLargest(text, s, 0);
      FloorInside(text, s);
    }
  }

  lemma FloorOfNothing(text: string)
    ensures Utf8.Floor(text, 0) == 0
  {}

  lemma FloorInside(text: string, s: nat)
    requires s <= 3 && |text| >= 4 && forall i :: 1 <= i <= 3 ==> Utf8.IsContinuation(text[i])
    ensures Utf8.Floor(text, s) == 0
  {
    assert s >= 3 ==> Utf8.Floor(text, 3) == Utf8.Floor(text, 2);
    assert s >= 2 ==> Utf8.Floor(text, 2) == Utf8.Floor(text, 1);
  }

  lemma FourByteText(n: nat)
    requires 0 < n < 4
    ensures Utf8.Valid(TightText(n)) && |TightText(n)| == n + 3
    ensures forall i :: 1 <= i <= 3 ==> Utf8.IsContinuation(TightText(n)[i])
  {
    var tail := Repeat('c', n - 1);
    var head := FOUR_BYTES;
    Utf8.AsciiValid(tail);
    assert Utf8.CharLen(head) == 4 && head[4..] == "";
    assert Utf8.Valid(head);
    Utf8.ValidConcat(head, tail);
  }

  lemma TightIsOverlapFree(n: nat, original: string)
    requires n > 0
    ensures OverlapFree([Entry(TightFake(n), original)]) && InfixFree([Entry(TightFake(n), original)])
  {
    var f := TightFake(n);
    forall k: nat | 0 < k < n ensures !Overlap(f, f, k) {
      assert f[n - k..][k - 1] == f[n - 1] == 'b' && f[..k][k - 1] == f[k - 1] == 'a';
    }
    forall p: nat | OccursAt(f, p, f) ensures p == 0 {}
  }

  /** A second flush with no new text releases nothing. */
  lemma SecondFlushIsIdle(entries: seq<Entry>, window: nat, text: string)
    requires Headed(entries)
    ensures CutPoint(entries, window, text[CutPoint(entries, window, text)..]) == 0
  {
    hide Retract;
    hide Utf8.Valid;
    var cut := CutPoint(entries, window, text);
    var rest := text[cut..];
    if |rest| > window > 0 {
      var n := |text| - window;
      var s := Retract(entries, text, n);
      if s < n {
        var e := RetractAtFake(entries, text, n);
        AtFakeStart(entries, text, s, n, e);
        assert cut == s;
        assert rest[0..n - cut] == text[s..n];
        RetractBelow(entries, rest, n - cut, e, n - cut);
      } else {
        IdleAfterWalkBack(entries, text, cut, n);
      }
    }
  }

  lemma IdleAfterWalkBack(entries: seq<Entry>, text: string, cut: nat, n: nat)
    requires Headed(entries) && cut < n < |text| && cut == Utf8.Floor(text, n)
    ensures Utf8.Floor(text[cut..], Retract(entries, text[cut..], n - cut)) == 0
  {
    hide Retract;
    hide Utf8.Valid;
    var rest := text[cut..];
    var s := Retract(entries, rest, n - cut);
    if 0 < s < n - cut {
      var e := RetractAtFake(entries, rest, n - cut);
      AtFakeStart(entries, rest, s, n - cut, e);
      assert text[cut + s] == rest[s];
      Utf8.FloorIsLargest(text, n, cut + s);
    } else {
      Utf8.FloorShift(text, cut, n - cut);
    }
  }

  // -------------------------------------------------------------------- witnesses of the overlap

  /** Fakes "ab" and "bc": the text "abxy" is cut between 'a' and 'b', and "ab" is lost. */
  lemma TwoFakesWitness(a: Entry, b: Entry)
    requires a.fake == "ab" && b.fake == "bc"
    ensures CutPoint([a, b], MaxFakeLen([a, b]), "abxy") == 1
    ensures RestoreAll([a, b], "abxy") == a.original + "xy"
    ensures RestoreAll([a, b], "a") + RestoreAll([a, b], "bxy") == "abxy"
  {
    hide RestoreAll, CutPoint;
    CutsAt1(a, b);
    AbsentChar("xy", "ab", 0); AbsentChar("xy", "bc", 0);
    AbsentChar("bxy", "ab", 0); AbsentChar("bxy", "bc", 1);
    RestoreLiteral([a, b], "xy");
    RestoreLiteral([a, b], "bxy");
    RestoreLiteral([a, b], "a");
    RestoreFront([a, b], a, "xy");
    assert a.fake + "xy" == "abxy";
  }

  lemma CutsAt1(a: Entry, b: Entry)
    requires a.fake == "ab" && b.fake == "bc"
    ensures CutPoint([a, b], MaxFakeLen([a, b]), "abxy") == 1
  {
    assert [a, b][1..] == [b] && [b][1..] == [];
    assert MaxFakeLen([b]) == 2;
    assert "abxy"[1..2] == "b";
    assert "bc"[..1] == "b";
    assert "ab"[..1] == "a";
    assert PartialMatch("abxy", 2, "bc", 1) == 1 && PartialMatch("abxy", 2, "ab", 1) == 0;
    assert Retract([b], "abxy", 2) == 1;
  }

  /** A single fake "aba" that overlaps itself: "abaxyz" is cut before its last 'a'. */
  lemma BorderedFakeWitness(e: Entry)
    requires e.fake == "aba"
    ensures CutPoint([e], MaxFakeLen([e]), "abaxyz") == 2
    ensures RestoreAll([e], "abaxyz") == e.original + "xyz"
    ensures RestoreAll([e], "ab") + RestoreAll([e], "axyz") == "abaxyz"
  {
    hide RestoreAll, CutPoint;
    CutsAt2(e);
    AbsentChar("xyz", "aba", 0); AbsentChar("axyz", "aba", 1);
    RestoreLiteral([e], "xyz");
    RestoreLiteral([e], "ab");
    RestoreLiteral([e], "axyz");
    RestoreFront([e], e, "xyz");
    assert e.fake + "xyz" == "abaxyz";
  }

  lemma CutsAt2(e: Entry)
    requires e.fake == "aba"
    ensures CutPoint([e], MaxFakeLen([e]), "abaxyz") == 2
  {
    assert [e][1..] == [];
    assert "abaxyz"[2..3] == "a" == "aba"[..1];
    assert "abaxyz"[1..3] == "ba";
    assert "aba"[..2] == "ab";
    assert "ba"[0] != "ab"[0];
    assert PartialMatch("abaxyz", 3, "aba", 1) == 1;
    assert PartialMatch("abaxyz", 3, "aba", 2) == 1;
    assert Retract([e], "abaxyz", 3) == 2;
  }

  lemma RestoreFront(entries: seq<Entry>, e: Entry, rest: string)
    requires entries != [] && entries[0] == e && e.fake != ""
    ensures RestoreAll(entries, e.fake + rest) == e.original + RestoreAll(entries, rest)
  {
    assert (e.fake + rest)[..|e.fake|] == e.fake && (e.fake + rest)[|e.fake|..] == rest;
  }

  lemma AbsentChar(text: string, fake: string, i: nat)
    requires i < |fake| && fake[i] !in text
    ensures forall p: nat :: !OccursAt(text, p, fake)
  {
    forall p: nat ensures !OccursAt(text, p, fake) {
      assert p + |fake| <= |text| ==> text[p..p + |fake|][i] == text[p + i];
    }
  }

  /** Text in which no fake occurs is left as it is. */
  lemma {:induction false} RestoreLiteral(entries: seq<Entry>, text: string)
    requires forall e, p: nat :: e in entries && e.fake != "" ==> !OccursAt(text, p, e.fake)
    ensures RestoreAll(entries, text) == text
  {
    if text != "" {
      FirstMatchFinds(entries, text);
      forall e, p: nat | e in entries && e.fake != "" ensures !OccursAt(text[1..], p, e.fake) {
        OccursShift(text, 1, p, e.fake);
      }
      RestoreLiteral(entries, text[1..]);
      assert text == [text[0]] + text[1..];
    }
  }
}
