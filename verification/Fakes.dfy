/** The fakes that stand for secrets, and what restoring a whole text at once means. */
module Fakes {
  import opened Common
  import Utf8

  /** A fake that was sent upstream, and the original that it stands for. */
  datatype Entry = Entry(fake: string, original: string)

  predicate OccursAt(text: string, p: nat, fake: string) {
    p + |fake| <= |text| && text[p..p + |fake|] == fake
  }

  lemma OccursShift(text: string, n: nat, p: nat, fake: string)
    requires n <= |text|
    ensures OccursAt(text[n..], p, fake) == OccursAt(text, n + p, fake)
  {
    if n + p + |fake| <= |text| {
      assert text[n..][p..p + |fake|] == text[n + p..n + p + |fake|];
    }
  }

  /** The first listed entry whose fake `text` starts with. */
  function FirstMatch(entries: seq<Entry>, text: string): (m: Option<Entry>)
    ensures m.Some? ==> 0 < |m.value.fake| <= |text|
  {
    if entries == [] then None
    else if entries[0].fake != "" && OccursAt(text, 0, entries[0].fake) then Some(entries[0])
    else FirstMatch(entries[1..], text)
  }

  lemma {:induction false} FirstMatchFinds(entries: seq<Entry>, text: string)
    ensures var m := FirstMatch(entries, text);
            if m.Some? then m.value in entries && OccursAt(text, 0, m.value.fake)
            else forall e :: e in entries && e.fake != "" ==> !OccursAt(text, 0, e.fake)
  {
    if entries != [] && (entries[0].fake == "" || !OccursAt(text, 0, entries[0].fake)) {
      FirstMatchFinds(entries[1..], text);
    }
  }

  /** One pass over the whole text, from the left, that puts the original in place of each fake. */
  function RestoreAll(entries: seq<Entry>, text: string): (restored: string)
    decreases |text|
  {
    if text == "" then ""
    else match FirstMatch(entries, text)
      case Some(e) => e.original + RestoreAll(entries, text[|e.fake|..])
      case None => [text[0]] + RestoreAll(entries, text[1..])
  }

  // ---------------------------------------------------------------- conditions on the fakes

  /** Every fake is a non-empty UTF-8 string. */
  ghost predicate WellFormed(entries: seq<Entry>) {
    forall e :: e in entries ==> e.fake != "" && Utf8.Valid(e.fake)
  }

  /** Every fake starts with the first byte of a character. */
  ghost predicate Headed(entries: seq<Entry>) {
    forall e :: e in entries ==> e.fake != "" && !Utf8.IsContinuation(e.fake[0])
  }

  lemma WellFormedIsHeaded(entries: seq<Entry>)
    requires WellFormed(entries)
    ensures Headed(entries)
  {}

  /** The last `k` bytes of `f` are the first `k` bytes of `g`. */
  predicate Overlap(f: string, g: string, k: nat) {
    k <= |f| && k <= |g| && f[|f| - k..] == g[..k]
  }

  /** No non-empty proper suffix of a fake starts a fake, itself included. */
  ghost predicate OverlapFree(entries: seq<Entry>) {
    forall e, d, k: nat :: e in entries && d in entries && 0 < k < |e.fake| ==> !Overlap(e.fake, d.fake, k)
  }

  /** No fake lies inside another entry's fake. */
  ghost predicate InfixFree(entries: seq<Entry>) {
    forall e, d, p: nat :: e in entries && d in entries && OccursAt(d.fake, p, e.fake) ==> e == d && p == 0
  }

  // ------------------------------------------------- what a restoration is, apart from any scan

  /** A text cut into bytes that stay and fakes that are replaced. */
  datatype Piece = Literal(c: char) | Secret(e: Entry)

  function PieceSource(p: Piece): string {
    match p case Literal(c) => [c] case Secret(e) => e.fake
  }

  function PieceTarget(p: Piece): string {
    match p case Literal(c) => [c] case Secret(e) => e.original
  }

  function Source(pieces: seq<Piece>): string {
    if pieces == [] then "" else PieceSource(pieces[0]) + Source(pieces[1..])
  }

  function Target(pieces: seq<Piece>): string {
    if pieces == [] then "" else PieceTarget(pieces[0]) + Target(pieces[1..])
  }

  /** Some piece that starts at offset `p` of the source is the secret `e`. */
  predicate CoversAt(pieces: seq<Piece>, p: nat, e: Entry) {
    pieces != [] &&
    if p == 0 then pieces[0] == Secret(e)
    else |PieceSource(pieces[0])| <= p && CoversAt(pieces[1..], p - |PieceSource(pieces[0])|, e)
  }

  /** `pieces` replaces each occurrence of each fake in `text`, and nothing else. */
  ghost predicate IsRestoration(entries: seq<Entry>, text: string, pieces: seq<Piece>) {
    && Source(pieces) == text
    && (forall i :: 0 <= i < |pieces| && pieces[i].Secret? ==> pieces[i].e in entries)
    && (forall e, p: nat :: e in entries && OccursAt(text, p, e.fake) ==> CoversAt(pieces, p, e))
  }

  function Scan(entries: seq<Entry>, text: string): (pieces: seq<Piece>)
    decreases |text|
  {
    if text == "" then []
    else match FirstMatch(entries, text)
      case Some(e) => [Secret(e)] + Scan(entries, text[|e.fake|..])
      case None => [Literal(text[0])] + Scan(entries, text[1..])
  }

  lemma {:induction false} ScanTarget(entries: seq<Entry>, text: string)
    ensures Target(Scan(entries, text)) == RestoreAll(entries, text)
    decreases |text|
  {
    hide FirstMatch;
    if text != "" {
      var n := match FirstMatch(entries, text) case Some(e) => |e.fake| case None => 1;
      ScanTarget(entries, text[n..]);
    }
  }

  /** The scan replaces every occurrence: none can hide inside or across one that it took. */
  lemma {:induction false} ScanIsRestoration(entries: seq<Entry>, text: string)
    requires Headed(entries) && OverlapFree(entries) && InfixFree(entries)
    ensures IsRestoration(entries, text, Scan(entries, text))
    decreases |text|
  {
    hide FirstMatch;
    if text != "" {
      var head := match FirstMatch(entries, text) case Some(e) => Secret(e) case None => Literal(text[0]);
      var n := |PieceSource(head)|;
      ScanIsRestoration(entries, text[n..]);
      forall e, p: nat | e in entries && OccursAt(text, p, e.fake)
        ensures if p == 0 then head == Secret(e) else n <= p
      {
        HeadClash(entries, text, head, e, p);
      }
      FirstMatchFinds(entries, text);
      PrependPiece(entries, text, head, Scan(entries, text[n..]));
    }
  }

  lemma PrependPiece(entries: seq<Entry>, text: string, head: Piece, tail: seq<Piece>)
    requires |PieceSource(head)| <= |text| && PieceSource(head) == text[..|PieceSource(head)|]
    requires head.Secret? ==> head.e in entries
    requires IsRestoration(entries, text[|PieceSource(head)|..], tail)
    requires forall e, p: nat :: e in entries && OccursAt(text, p, e.fake) ==>
               if p == 0 then head == Secret(e) else |PieceSource(head)| <= p
    ensures IsRestoration(entries, text, [head] + tail)
  {
    hide FirstMatch;
    var pieces := [head] + tail;
    var n := |PieceSource(head)|;
    assert pieces[1..] == tail && text == text[..n] + text[n..];
    forall e, p: nat | e in entries && OccursAt(text, p, e.fake) ensures CoversAt(pieces, p, e) {
      if p > 0 {
        OccursShift(text, n, p - n, e.fake);
      }
    }
  }

  /** An occurrence is the scan's first piece itself or starts after it. */
  lemma HeadClash(entries: seq<Entry>, text: string, head: Piece, e: Entry, p: nat)
    requires Headed(entries) && OverlapFree(entries) && InfixFree(entries)
    requires text != "" && e in entries && OccursAt(text, p, e.fake)
    requires match FirstMatch(entries, text) case Some(d) => head == Secret(d) case None => head == Literal(text[0])
    ensures if p == 0 then head == Secret(e) else |PieceSource(head)| <= p
  {
    hide FirstMatch, Overlap;
    FirstMatchFinds(entries, text);
    if head.Secret? {
      Clash(text, head.e, e, p);
    }
  }

  /** How a fake that occurs at `p` can meet one that occurs at the front. */
  lemma Clash(text: string, d: Entry, e: Entry, p: nat)
    requires OccursAt(text, 0, d.fake) && OccursAt(text, p, e.fake)
    ensures || |d.fake| <= p
            || OccursAt(d.fake, p, e.fake)
            || (p == 0 && OccursAt(e.fake, 0, d.fake))
            || (p > 0 && Overlap(d.fake, e.fake, |d.fake| - p))
  {
    var m := |d.fake|;
    if p < m {
      if p + |e.fake| <= m {
        assert d.fake[p..p + |e.fake|] == text[p..p + |e.fake|];
      } else {
        assert d.fake[p..] == text[p..m] == e.fake[..m - p];
      }
    }
  }

  lemma RestorationHead(entries: seq<Entry>, text: string, pieces: seq<Piece>)
    requires Headed(entries) && IsRestoration(entries, text, pieces) && text != ""
    ensures pieces != []
    ensures match FirstMatch(entries, text)
            case Some(e) => pieces[0] == Secret(e)
            case None => pieces[0] == Literal(text[0])
  {
    hide FirstMatch;
    assert text == PieceSource(pieces[0]) + Source(pieces[1..]);
    FirstMatchFinds(entries, text);
    match FirstMatch(entries, text)
    case Some(e) => assert CoversAt(pieces, 0, e);
    case None => assert pieces[0].Secret? ==> OccursAt(text, 0, pieces[0].e.fake);
  }

  /** There is at most one restoration, whatever order or tie-breaking a matcher uses. */
  lemma {:induction false} RestorationUnique(entries: seq<Entry>, text: string, pieces: seq<Piece>)
    requires Headed(entries) && IsRestoration(entries, text, pieces)
    ensures pieces == Scan(entries, text)
    decreases |text|
  {
    hide FirstMatch;
    if text != "" {
      var head := pieces[0];
      var n := |PieceSource(head)|;
      assert text == PieceSource(head) + Source(pieces[1..]);
      RestorationHead(entries, text, pieces);
      assert text[n..] == Source(pieces[1..]);
      forall e, p: nat | e in entries && OccursAt(text[n..], p, e.fake) ensures CoversAt(pieces[1..], p, e) {
        OccursShift(text, n, p, e.fake);
        assert CoversAt(pieces, n + p, e);
      }
      RestorationUnique(entries, text[n..], pieces[1..]);
      assert pieces == [head] + pieces[1..];
    }
  }

  /** `RestoreAll` is the one restoration of a text. */
  lemma RestoreAllIsTheRestoration(entries: seq<Entry>, text: string)
    requires Headed(entries) && OverlapFree(entries) && InfixFree(entries)
    ensures exists pieces :: IsRestoration(entries, text, pieces)
    ensures forall pieces :: IsRestoration(entries, text, pieces) ==> Target(pieces) == RestoreAll(entries, text)
  {
    ScanIsRestoration(entries, text);
    forall pieces | IsRestoration(entries, text, pieces) ensures Target(pieces) == RestoreAll(entries, text) {
      RestorationUnique(entries, text, pieces);
      ScanTarget(entries, text);
    }
  }

  // -------------------------------------------------------------------- restoring in two parts

  /** No occurrence of a fake in `x + y` starts in `x` and ends in `y`. */
  ghost predicate NoStraddle(entries: seq<Entry>, x: string, y: string) {
    forall e, p: nat :: e in entries && p < |x| && OccursAt(x + y, p, e.fake) ==> p + |e.fake| <= |x|
  }

  lemma FirstMatchOfPrefix(entries: seq<Entry>, x: string, y: string)
    requires forall e :: e in entries && OccursAt(x + y, 0, e.fake) ==> |e.fake| <= |x|
    ensures FirstMatch(entries, x + y) == FirstMatch(entries, x)
  {
    if entries != [] {
      var f := entries[0].fake;
      if |f| <= |x| {
        assert (x + y)[..|f|] == x[..|f|];
      }
      FirstMatchOfPrefix(entries[1..], x, y);
    }
  }

  /** Restoring in two parts equals restoring at once if no fake straddles the cut. */
  lemma {:induction false} RestoreSplit(entries: seq<Entry>, x: string, y: string)
    requires NoStraddle(entries, x, y)
    ensures RestoreAll(entries, x + y) == RestoreAll(entries, x) + RestoreAll(entries, y)
    decreases |x|
  {
    hide FirstMatch;
    if x == "" {
      assert x + y == y;
    } else {
      FirstMatchOfPrefix(entries, x, y);
      var n := match FirstMatch(entries, x) case Some(e) => |e.fake| case None => 1;
      var x' := x[n..];
      assert (x + y)[n..] == x' + y;
      forall e, p: nat | e in entries && p < |x'| && OccursAt(x' + y, p, e.fake) ensures p + |e.fake| <= |x'| {
        OccursShift(x + y, n, p, e.fake);
      }
      RestoreSplit(entries, x', y);
      assert (x + y)[0] == x[0];
    }
  }

  /** With no entries there is nothing to restore. */
  lemma {:induction false} RestoreNothing(text: string)
    ensures RestoreAll([], text) == text
  {
    if text != "" {
      RestoreNothing(text[1..]);
      assert [text[0]] + text[1..] == text;
    }
  }

  /** A fake starts with the first byte of a character, so that none starts inside one. */
  lemma FakeStartsChar(entries: seq<Entry>, e: Entry, text: string, p: nat)
    requires Headed(entries) && e in entries && p < |text|
    ensures OccursAt(text, p, e.fake) ==> !Utf8.IsContinuation(text[p])
  {}

  lemma {:induction false} RestoreInsideChar(entries: seq<Entry>, text: string, n: nat)
    requires Headed(entries) && n <= |text|
    requires forall i :: 0 <= i < n ==> Utf8.IsContinuation(text[i])
    ensures RestoreAll(entries, text) == text[..n] + RestoreAll(entries, text[n..])
  {
    hide FirstMatch;
    if n > 0 {
      FirstMatchFinds(entries, text);
      forall e | e in entries ensures !OccursAt(text, 0, e.fake) {
        FakeStartsChar(entries, e, text, 0);
      }
      RestoreInsideChar(entries, text[1..], n - 1);
      assert text[1..][n - 1..] == text[n..];
      assert [text[0]] + text[1..][..n - 1] == text[..n];
    }
  }

  /** Restored text is UTF-8, so that converting it back to a string never fails. */
  lemma {:induction false} RestoreKeepsUtf8(entries: seq<Entry>, text: string)
    requires WellFormed(entries) && Utf8.Valid(text)
    requires forall e :: e in entries ==> Utf8.Valid(e.original)
    ensures Utf8.Valid(RestoreAll(entries, text))
    decreases |text|
  {
    hide Utf8.CharLen;
    hide FirstMatch;
    if text != "" {
      FirstMatchFinds(entries, text);
      match FirstMatch(entries, text)
      case Some(e) =>
        var rest := text[|e.fake|..];
        assert text == e.fake + rest;
        Utf8.ValidSuffix(e.fake, rest);
        RestoreKeepsUtf8(entries, rest);
        Utf8.ValidConcat(e.original, RestoreAll(entries, rest));
      case None =>
        var n := Utf8.CharLen(text);
        Utf8.CharShape(text);
        if n < |text| {
          Utf8.CharShape(text[n..]);
        }
        RestoreKeepsUtf8(entries, text[n..]);
        WellFormedIsHeaded(entries);
        RestorePlainChar(entries, text, n);
        Utf8.BoundarySplit(text, n);
        Utf8.ValidConcat(text[..n], RestoreAll(entries, text[n..]));
    }
  }

  lemma RestorePlainChar(entries: seq<Entry>, text: string, n: nat)
    requires Headed(entries) && 0 < n <= |text| && FirstMatch(entries, text).None?
    requires forall i :: 1 <= i < n ==> Utf8.IsContinuation(text[i])
    ensures RestoreAll(entries, text) == text[..n] + RestoreAll(entries, text[n..])
  {
    hide FirstMatch, RestoreAll, Utf8.IsContinuation;
    var t := text[1..];
    RestorePlainByte(entries, text);
    assert forall i :: 0 <= i < n - 1 ==> t[i] == text[i + 1];
    RestoreInsideChar(entries, t, n - 1);
    assert t[n - 1..] == text[n..];
    assert [text[0]] + t[..n - 1] == text[..n];
    Assoc([text[0]], t[..n - 1], RestoreAll(entries, text[n..]));
  }

  lemma RestorePlainByte(entries: seq<Entry>, text: string)
    requires text != "" && FirstMatch(entries, text).None?
    ensures RestoreAll(entries, text) == [text[0]] + RestoreAll(entries, text[1..])
  {
    hide FirstMatch;
  }
}
