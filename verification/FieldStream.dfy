/** One field of one response: pieces of text arrive, and now and then everything is flushed. */
module FieldStream {
  import opened Common
  import opened Fakes
  import opened SlidingWindow
  import Utf8

  datatype FieldOp = Text(piece: string) | Complete

  /** The raw pieces released, one after the other, and the text still held. */
  datatype FieldRun = FieldRun(released: seq<string>, held: string)

  function RunField(entries: seq<Entry>, held: string, ops: seq<FieldOp>): FieldRun
    decreases |ops|
  {
    if ops == [] then FieldRun([], held)
    else
      var first := FieldStep(entries, held, ops[0]);
      var rest := RunField(entries, first.held, ops[1..]);
      FieldRun(first.released + rest.released, rest.held)
  }

  function FieldStep(entries: seq<Entry>, held: string, op: FieldOp): FieldRun {
    match op
    case Text(piece) => FlushText(entries, MaxFakeLen(entries), held + piece)
    case Complete => FlushText(entries, 0, held)
  }

  function FlushText(entries: seq<Entry>, window: nat, text: string): FieldRun {
    var cut := CutPoint(entries, window, text);
    if cut == 0 then FieldRun([], text) else FieldRun([text[..cut]], text[cut..])
  }

  /** What the released pieces look like to the client, restored one by one. */
  function Restored(entries: seq<Entry>, released: seq<string>): string {
    if released == [] then "" else RestoreAll(entries, released[0]) + Restored(entries, released[1..])
  }

  /** What the client should get: each stretch up to a complete flush, restored at once. */
  function OneShot(entries: seq<Entry>, pending: string, ops: seq<FieldOp>): string
    decreases |ops|
  {
    if ops == [] then ""
    else match ops[0]
      case Text(piece) => OneShot(entries, pending + piece, ops[1..])
      case Complete => RestoreAll(entries, pending) + OneShot(entries, "", ops[1..])
  }

  /** The text since the last complete flush. */
  function Pending(pending: string, ops: seq<FieldOp>): string
    decreases |ops|
  {
    if ops == [] then pending
    else match ops[0]
      case Text(piece) => Pending(pending + piece, ops[1..])
      case Complete => Pending("", ops[1..])
  }

  function Received(ops: seq<FieldOp>): string {
    if ops == [] then "" else (match ops[0] case Text(piece) => piece case Complete => "") + Received(ops[1..])
  }

  ghost predicate AllUtf8(ops: seq<FieldOp>) {
    forall op :: op in ops && op.Text? ==> Utf8.Valid(op.piece)
  }

  lemma {:induction false} RestoredSum(entries: seq<Entry>, a: seq<string>, b: seq<string>)
    ensures Restored(entries, a + b) == Restored(entries, a) + Restored(entries, b)
  {
    hide RestoreAll;
    if a == [] {
      assert a + b == b;
    } else {
      RestoredSum(entries, a[1..], b);
      assert (a + b)[1..] == a[1..] + b;
      Assoc(RestoreAll(entries, a[0]), Restored(entries, a[1..]), Restored(entries, b));
    }
  }

  // --------------------------------------------------------------------------- no text is lost

  /** Whatever the fakes are, released pieces and held text make up the text received. */
  lemma {:induction false} NothingLost(entries: seq<Entry>, held: string, ops: seq<FieldOp>)
    ensures var r := RunField(entries, held, ops); Concat(r.released) + r.held == held + Received(ops)
    decreases |ops|
  {
    hide FieldStep, Concat;
    if ops == [] {
      ConcatNone<char>();
      assert held + Received(ops) == held && [] + held == held;
    } else {
      var first := FieldStep(entries, held, ops[0]);
      var rest := RunField(entries, first.held, ops[1..]);
      var piece := match ops[0] case Text(p) => p case Complete => "";
      StepLosesNothing(entries, held, ops[0]);
      NothingLost(entries, first.held, ops[1..]);
      ConcatSum(first.released, rest.released);
      Assoc(Concat(first.released), Concat(rest.released), rest.held);
      Assoc(Concat(first.released), first.held, Received(ops[1..]));
      Assoc(held, piece, Received(ops[1..]));
    }
  }

  lemma StepLosesNothing(entries: seq<Entry>, held: string, op: FieldOp)
    ensures var r := FieldStep(entries, held, op);
            Concat(r.released) + r.held == held + (match op case Text(p) => p case Complete => "")
  {
    hide CutPoint, FlushText;
    match op
    case Text(p) => FlushLosesNothing(entries, MaxFakeLen(entries), held + p);
    case Complete =>
      FlushLosesNothing(entries, 0, held);
      assert held + "" == held;
  }

  lemma FlushLosesNothing(entries: seq<Entry>, window: nat, text: string)
    ensures var r := FlushText(entries, window, text); Concat(r.released) + r.held == text
  {
    hide CutPoint, Concat;
    var cut := CutPoint(entries, window, text);
    ConcatNone<char>();
    ConcatOne(text[..cut]);
    assert text[..cut] + text[cut..] == text && [] + text == text;
  }

  // --------------------------------------------------- the incremental form meets the simple one

  /** One flush keeps the promise for every future, and leaves valid text held. */
  lemma FlushKeepsPromise(entries: seq<Entry>, window: nat, text: string, more: string)
    requires WellFormed(entries) && OverlapFree(entries) && Utf8.Valid(text)
    requires window == MaxFakeLen(entries) || (window == 0 && more == "")
    ensures var r := FlushText(entries, window, text);
            && Utf8.Valid(r.held)
            && RestoreAll(entries, text + more) == Restored(entries, r.released) + RestoreAll(entries, r.held + more)
  {
    hide CutPoint, RestoreAll, Utf8.Valid, WellFormed, OverlapFree;
    var cut := CutPoint(entries, window, text);
    Utf8.BoundarySplit(text, cut);
    CutRestores(entries, window, text, more);
    RestoredOne(entries, text[..cut]);
    if cut == 0 {
      assert text[..0] == "" && text[0..] == text;
      assert Restored(entries, []) + RestoreAll(entries, text + more) == RestoreAll(entries, text + more);
    }
  }

  lemma RestoredOne(entries: seq<Entry>, s: string)
    ensures Restored(entries, [s]) == RestoreAll(entries, s)
  {
    hide RestoreAll;
    assert [s][1..] == [];
    assert Restored(entries, [s]) == RestoreAll(entries, s) + "";
  }

  /** A complete flush empties the buffer. */
  lemma CompleteEmpties(entries: seq<Entry>, text: string)
    ensures FlushText(entries, 0, text) == FieldRun(if text == "" then [] else [text], "")
  {
    assert CutPoint(entries, 0, text) == |text|;
    assert text[..|text|] == text && text[|text|..] == "";
  }

  /** In every reachable state, and for every text that may still come, what the client has and
      what the held text will yield is what restoring each stretch at once yields. */
  lemma {:induction false} StreamingRefinesOneShot(entries: seq<Entry>, held: string, before: string, pending: string,
                                                    ops: seq<FieldOp>, more: string)
    requires WellFormed(entries) && OverlapFree(entries) && Utf8.Valid(held) && AllUtf8(ops)
    requires forall c :: RestoreAll(entries, pending + c) == before + RestoreAll(entries, held + c)
    ensures var r := RunField(entries, held, ops);
            before + Restored(entries, r.released) + RestoreAll(entries, r.held + more)
            == OneShot(entries, pending, ops) + RestoreAll(entries, Pending(pending, ops) + more)
    decreases |ops|
  {
    hide RestoreAll, Utf8.Valid, WellFormed, OverlapFree, FlushText, Restored;
    if ops == [] {
      RestoredNone(entries);
      assert before + "" == before;
      assert "" + RestoreAll(entries, pending + more) == RestoreAll(entries, pending + more);
    } else {
      var first := FieldStep(entries, held, ops[0]);
      var rest := RunField(entries, first.held, ops[1..]);
      var gained := Restored(entries, first.released);
      RestoredSum(entries, first.released, rest.released);
      match ops[0]
      case Text(piece) =>
        Utf8.ValidConcat(held, piece);
        forall c ensures RestoreAll(entries, (pending + piece) + c) == (before + gained) + RestoreAll(entries, first.held + c) {
          FlushKeepsPromise(entries, MaxFakeLen(entries), held + piece, c);
          assert (pending + piece) + c == pending + (piece + c) && held + (piece + c) == (held + piece) + c;
          assert (before + gained) + RestoreAll(entries, first.held + c)
                 == before + (gained + RestoreAll(entries, first.held + c));
        }
        FlushKeepsPromise(entries, MaxFakeLen(entries), held + piece, "");
        StreamingRefinesOneShot(entries, first.held, before + gained, pending + piece, ops[1..], more);
      case Complete =>
        CompleteStep(entries, held, before, pending);
        Utf8.AsciiValid("");
        forall c ensures RestoreAll(entries, "" + c) == "" + RestoreAll(entries, "" + c) {}
        StreamingRefinesOneShot(entries, "", "", "", ops[1..], more);
        AfterComplete(entries, before, gained, first.released, rest.released, pending, ops, more);
    }
  }

  lemma RestoredNone(entries: seq<Entry>)
    ensures Restored(entries, []) == ""
  {}

  lemma CompleteStep(entries: seq<Entry>, held: string, before: string, pending: string)
    requires forall c :: RestoreAll(entries, pending + c) == before + RestoreAll(entries, held + c)
    ensures var r := FieldStep(entries, held, Complete);
            r.held == "" && before + Restored(entries, r.released) == RestoreAll(entries, pending)
  {
    hide RestoreAll, FlushText, Restored;
    CompleteEmpties(entries, held);
    assert pending + "" == pending && held + "" == held;
    assert RestoreAll(entries, pending + "") == before + RestoreAll(entries, held + "");
    if held == "" {
      RestoredNone(entries);
      RestoreEmpty(entries);
    } else {
      RestoredOne(entries, held);
    }
  }

  lemma RestoreEmpty(entries: seq<Entry>)
    ensures RestoreAll(entries, "") == ""
  {}

  lemma AfterComplete(entries: seq<Entry>, before: string, gained: string, r1: seq<string>, r2: seq<string>,
                      pending: string, ops: seq<FieldOp>, more: string)
    requires ops != [] && ops[0] == Complete
    requires before + gained == RestoreAll(entries, pending)
    requires Restored(entries, r1 + r2) == gained + Restored(entries, r2)
    requires var r := RunField(entries, "", ops[1..]);
             && r.released == r2
             && "" + Restored(entries, r2) + RestoreAll(entries, r.held + more)
                == OneShot(entries, "", ops[1..]) + RestoreAll(entries, Pending("", ops[1..]) + more)
    ensures before + Restored(entries, r1 + r2) + RestoreAll(entries, RunField(entries, "", ops[1..]).held + more)
            == OneShot(entries, pending, ops) + RestoreAll(entries, Pending(pending, ops) + more)
  {
    hide RestoreAll, Restored, RunField;
    var h := RestoreAll(entries, RunField(entries, "", ops[1..]).held + more);
    var o := OneShot(entries, "", ops[1..]);
    var p := RestoreAll(entries, Pending("", ops[1..]) + more);
    assert "" + Restored(entries, r2) == Restored(entries, r2);
    Assoc(before, gained, Restored(entries, r2));
    Assoc(before + gained, Restored(entries, r2), h);
    Assoc(RestoreAll(entries, pending), o, p);
  }

  /** From an empty buffer: the client has a prefix of the restored text, and after a last
      complete flush it has all of it. */
  lemma FieldTheorem(entries: seq<Entry>, ops: seq<FieldOp>)
    requires WellFormed(entries) && OverlapFree(entries) && AllUtf8(ops)
    ensures var r := RunField(entries, "", ops);
            && Restored(entries, r.released) <= OneShot(entries, "", ops) + RestoreAll(entries, Pending("", ops))
            && (ops != [] && ops[|ops| - 1] == Complete ==>
                  r.held == "" && Restored(entries, r.released) == OneShot(entries, "", ops))
  {
    hide RestoreAll, RunField, OneShot, Pending, Utf8.Valid, WellFormed, OverlapFree, Restored;
    var r := RunField(entries, "", ops);
    FromEmpty(entries, ops);
    PrefixOf(Restored(entries, r.released), RestoreAll(entries, r.held),
             OneShot(entries, "", ops) + RestoreAll(entries, Pending("", ops)));
    if ops != [] && ops[|ops| - 1] == Complete {
      EndsComplete(entries, "", "", ops);
      RestoreEmpty(entries);
      assert Restored(entries, r.released) + "" == OneShot(entries, "", ops) + "";
    }
  }

  lemma FromEmpty(entries: seq<Entry>, ops: seq<FieldOp>)
    requires WellFormed(entries) && OverlapFree(entries) && AllUtf8(ops)
    ensures var r := RunField(entries, "", ops);
            Restored(entries, r.released) + RestoreAll(entries, r.held)
            == OneShot(entries, "", ops) + RestoreAll(entries, Pending("", ops))
  {
    hide RestoreAll, RunField, OneShot, Pending, Utf8.Valid, WellFormed, OverlapFree, Restored;
    var r := RunField(entries, "", ops);
    forall c ensures RestoreAll(entries, "" + c) == "" + RestoreAll(entries, "" + c) {}
    Utf8.AsciiValid("");
    StreamingRefinesOneShot(entries, "", "", "", ops, "");
    assert "" + Restored(entries, r.released) == Restored(entries, r.released);
    assert Pending("", ops) + "" == Pending("", ops) && r.held + "" == r.held;
  }

  lemma {:induction false} EndsComplete(entries: seq<Entry>, held: string, pending: string, ops: seq<FieldOp>)
    requires ops != [] && ops[|ops| - 1] == Complete
    ensures RunField(entries, held, ops).held == "" && Pending(pending, ops) == ""
    decreases |ops|
  {
    hide FlushText;
    if |ops| == 1 {
      CompleteEmpties(entries, held);
      assert ops[1..] == [];
    } else {
      EndsComplete(entries, FieldStep(entries, held, ops[0]).held,
                   (match ops[0] case Text(p) => pending + p case Complete => ""), ops[1..]);
    }
  }

  // ------------------------------------------------ overlap-freedom is exactly what it takes

  /** Each fake differs from what it stands for, and none holds this byte. */
  ghost predicate Telling(entries: seq<Entry>, filler: char) {
    && filler as int < 0x80
    && forall e :: e in entries ==> e.original != e.fake && filler !in e.fake
  }

  /** The client gets, for every text in any pieces, what restoring at once yields. */
  ghost predicate AlwaysRestores(entries: seq<Entry>) {
    forall ops :: AllUtf8(ops) && ops != [] && ops[|ops| - 1] == Complete ==>
      Restored(entries, RunField(entries, "", ops).released) == OneShot(entries, "", ops)
  }

  /** One piece of text and the end: a fake that overlaps another reaches the client as it is, in
      place of the original. */
  lemma OverlapLosesSecret(entries: seq<Entry>, e: Entry, d: Entry, k: nat, filler: char)
    requires Headed(entries) && InfixFree(entries) && Utf8.Valid(e.fake) && Telling(entries, filler)
    requires e in entries && d in entries && 0 < k < |e.fake| && Overlap(e.fake, d.fake, k)
    ensures var ops := [Text(BadText(entries, e, filler)), Complete];
            && AllUtf8(ops)
            && Restored(entries, RunField(entries, "", ops).released) == e.fake + Filler(entries, filler)
            && OneShot(entries, "", ops) == e.original + Filler(entries, filler)
            && Restored(entries, RunField(entries, "", ops).released) != OneShot(entries, "", ops)
  {
    hide RestoreAll, CutPoint, Utf8.Valid, Restored, Telling, MaxFakeLen, Overlap, OccursAt, InfixFree, Headed;
    var tail := Filler(entries, filler);
    var text := BadText(entries, e, filler);
    var ops := [Text(text), Complete];
    TellingApart(entries, e, filler);
    BadTextIsCutInside(entries, e, d, k, filler);
    var cut := CutPoint(entries, MaxFakeLen(entries), text);
    TwoStepRun(entries, text);
    FrontRestored(entries, text, e, filler, |tail|);
    FakePartStays(entries, text[..cut], e);
    FakeEndStays(entries, e, cut, filler, |tail|);
    assert text[..cut] == e.fake[..cut] && text[cut..] == e.fake[cut..] + tail;
    assert text[..cut] + text[cut..] == text;
    RestoredSum(entries, [text[..cut]], [text[cut..]]);
    RestoredOne(entries, text[..cut]);
    RestoredOne(entries, text[cut..]);
    assert [text[..cut]] + [text[cut..]] == [text[..cut], text[cut..]];
    Differ(e.fake, e.original, tail);
  }

  lemma TellingApart(entries: seq<Entry>, e: Entry, filler: char)
    requires Telling(entries, filler) && e in entries
    ensures e.original != e.fake && filler as int < 0x80
  {}

  lemma Differ(a: string, b: string, tail: string)
    ensures a + tail == b + tail ==> a == b
  {
    assert (a + tail)[..|a|] == a && (b + tail)[..|b|] == b;
  }

  lemma TwoStepRun(entries: seq<Entry>, text: string)
    requires 0 < CutPoint(entries, MaxFakeLen(entries), text) < |text|
    ensures var cut := CutPoint(entries, MaxFakeLen(entries), text);
            var ops := [Text(text), Complete];
            && RunField(entries, "", ops).released == [text[..cut], text[cut..]]
            && OneShot(entries, "", ops) == RestoreAll(entries, text)
  {
    hide RestoreAll, CutPoint;
    var cut := CutPoint(entries, MaxFakeLen(entries), text);
    var ops := [Text(text), Complete];
    assert ops[1..] == [Complete] && ops[1..][1..] == [];
    assert "" + text == text;
    CompleteEmpties(entries, text[cut..]);
    assert RunField(entries, text[cut..], ops[1..]).released == [text[cut..]] + [];
    assert OneShot(entries, text, ops[1..]) == RestoreAll(entries, text) + "";
  }

  /** Filler bytes, and a part of a fake before them. */
  function Padded(part: string, filler: char, n: nat): string {
    part + seq(n, i => filler)
  }

  /** A fake that holds no filler byte does not reach into the filler. */
  lemma NotInFiller(part: string, filler: char, n: nat, fake: string, p: nat)
    requires fake != "" && filler !in fake && OccursAt(Padded(part, filler, n), p, fake)
    ensures OccursAt(part, p, fake)
  {
    var text := Padded(part, filler, n);
    assert text[p..p + |fake|][|fake| - 1] == text[p + |fake| - 1];
    assert fake[|fake| - 1] in fake;
    assert p + |fake| <= |part|;
    assert text[p..p + |fake|] == part[p..p + |fake|];
  }

  /** What is left of a cut fake, with the filler, holds no fake, and so stays as it is. */
  lemma FakeEndStays(entries: seq<Entry>, e: Entry, cut: nat, filler: char, n: nat)
    requires Headed(entries) && InfixFree(entries) && Telling(entries, filler) && e in entries && 0 < cut <= |e.fake|
    ensures var text := Padded(e.fake[cut..], filler, n); RestoreAll(entries, text) == text
  {
    hide RestoreAll, Utf8.IsContinuation;
    var part := e.fake[cut..];
    forall g, p: nat | g in entries && g.fake != "" ensures !OccursAt(Padded(part, filler, n), p, g.fake) {
      if OccursAt(Padded(part, filler, n), p, g.fake) {
        NotInFiller(part, filler, n, g.fake, p);
        OccursShift(e.fake, cut, p, g.fake);
      }
    }
    RestoreLiteral(entries, Padded(part, filler, n));
  }

  /** The text starts with `e`, and with no other fake; the filler stays. */
  lemma FrontRestored(entries: seq<Entry>, text: string, e: Entry, filler: char, n: nat)
    requires Headed(entries) && InfixFree(entries) && Telling(entries, filler) && e in entries
    requires text == Padded(e.fake, filler, n)
    ensures RestoreAll(entries, text) == e.original + seq(n, i => filler)
  {
    hide FirstMatch, Utf8.IsContinuation, InfixFree;
    var tail: string := seq(n, i => filler);
    assert text == e.fake + tail;
    assert OccursAt(text, 0, e.fake);
    FirstMatchFinds(entries, text);
    var g := FirstMatch(entries, text).value;
    FirstIsIt(entries, text, g, e);
    FakeEndStays(entries, e, |e.fake|, filler, n);
    assert e.fake[|e.fake|..] + tail == tail;
    assert text[|e.fake|..] == tail;
  }

  lemma FirstIsIt(entries: seq<Entry>, text: string, g: Entry, e: Entry)
    requires InfixFree(entries) && g in entries && e in entries && g.fake != "" && e.fake != ""
    requires OccursAt(text, 0, g.fake) && OccursAt(text, 0, e.fake)
    ensures g == e
  {
    Clash(text, g, e, 0);
  }

  /** A part of a fake holds no fake, and so stays as it is. */
  lemma FakePartStays(entries: seq<Entry>, part: string, e: Entry)
    requires InfixFree(entries) && e in entries && |part| < |e.fake| && part == e.fake[..|part|]
    ensures RestoreAll(entries, part) == part
  {
    hide RestoreAll;
    forall g, p: nat | g in entries && g.fake != "" ensures !OccursAt(part, p, g.fake) {
      if OccursAt(part, p, g.fake) {
        OccursInWhole(part, e.fake, p, g.fake);
      }
    }
    RestoreLiteral(entries, part);
  }

  lemma OccursInWhole(part: string, whole: string, p: nat, fake: string)
    requires |part| < |whole| && part == whole[..|part|] && OccursAt(part, p, fake)
    ensures OccursAt(whole, p, fake) && fake != whole
  {
    assert whole[p..p + |fake|] == part[p..p + |fake|];
  }

  /** Streaming restores every text exactly when no fake overlaps a fake. */
  lemma StreamingIffOverlapFree(entries: seq<Entry>, filler: char)
    requires WellFormed(entries) && InfixFree(entries) && Telling(entries, filler)
    ensures AlwaysRestores(entries) <==> OverlapFree(entries)
  {
    hide RunField, OneShot, Restored, Utf8.Valid;
    if OverlapFree(entries) {
      forall ops | AllUtf8(ops) && ops != [] && ops[|ops| - 1] == Complete
        ensures Restored(entries, RunField(entries, "", ops).released) == OneShot(entries, "", ops)
      {
        FieldTheorem(entries, ops);
      }
    } else {
      var e, d, k: nat :| e in entries && d in entries && 0 < k < |e.fake| && Overlap(e.fake, d.fake, k);
      WellFormedIsHeaded(entries);
      OverlapLosesSecret(entries, e, d, k, filler);
      var ops := [Text(BadText(entries, e, filler)), Complete];
      assert ops[|ops| - 1] == Complete;
    }
  }
}
