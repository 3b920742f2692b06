/** The output as one string of bytes, and what frames a reader cuts it into. */
module SseWire {
  import opened Common
  import opened Fakes
  import opened SlidingWindow
  import opened FieldStream
  import opened SseFields
  import opened SseFrames
  import opened SseMachine
  import opened SseClient
  import Json
  import SseEvents
  import SseRuns
  import Utf8

  /** One frame, of which normalisation changes nothing. */
  ghost predicate Tidy(f: string) {
    FrameLen(f) == |f| > 0 && Normalize(f) == f
  }

  ghost predicate AllTidy(queue: seq<string>) {
    forall f :: f in queue ==> Tidy(f)
  }

  /** Whole frames, one after the other, are cut into just these frames again, whatever follows. */
  lemma {:induction false} WholeFramesRecut(queue: seq<string>)
    requires AllTidy(queue)
    ensures Frames(Concat(queue)) == queue && Rest(Concat(queue)) == "" && Normalize(Concat(queue)) == Concat(queue)
  {
    hide FrameLen, Frames, Rest, Normalize, Concat;
    if queue == [] {
      ConcatNone<char>();
      NothingToCut();
    } else {
      var f, more := queue[0], Concat(queue[1..]);
      assert f in queue;
      WholeFramesRecut(queue[1..]);
      ConcatCons(f, queue[1..]);
      assert queue == [f] + queue[1..];
      FrameLenPrefix(f, more);
      CutFirst(f + more);
      Parts(f, more);
      FrameEndsClean(f, more);
      NormalizeConcat(f, more);
    }
  }

  lemma NothingToCut()
    ensures Frames("") == [] && Rest("") == "" && Normalize("") == ""
  {}

  lemma Parts(a: string, b: string)
    ensures (a + b)[..|a|] == a && (a + b)[|a|..] == b
  {}

  lemma FrameEndsClean(f: string, more: string)
    requires FrameLen(f) == |f| > 0
    ensures CleanCut(f, more)
  {
    hide FrameLen;
  }

  // ------------------------------------------------------------------------ what comes in is tidy

  /** Text without "\r\r\n" is normalised into tidy frames. */
  lemma InputIsTidy(all: string)
    requires !HasCrCrLf(all)
    ensures AllTidy(Frames(Normalize(all)))
    ensures Normalize(Rest(Normalize(all))) == Rest(Normalize(all))
  {
    hide Normalize, Frames, Rest, FrameLen, HasCrLf, HasCrCrLf;
    NormalizeRemovesPairs(all);
    CutIsTidy(Normalize(all));
  }

  lemma {:induction false} CutIsTidy(n: string)
    requires !HasCrLf(n)
    ensures AllTidy(Frames(n)) && Normalize(Rest(n)) == Rest(n)
    decreases |n|
  {
    hide Normalize, Frames, Rest, FrameLen, HasCrLf;
    var k := FrameLen(n);
    CutFirst(n);
    NormalizeIdle(n);
    if k > 0 {
      NoPairInPart(n, k);
      CutIsTidy(n[k..]);
      NormalizeIdle(n[..k]);
      FirstFrame(n);
    }
  }

  lemma NoPairInPart(n: string, k: nat)
    requires !HasCrLf(n) && k <= |n|
    ensures !HasCrLf(n[..k]) && !HasCrLf(n[k..])
  {
    assert forall i :: 0 <= i < |n[k..]| ==> n[k..][i] == n[k + i];
  }

  // ----------------------------------------------------------------------- and what goes out as well

  ghost predicate TidyEmission(e: Emission) {
    match e
    case Release(_, _) => true
    case Meta(frame) => Tidy(frame)
    case Event(bytes) => Tidy(bytes)
  }

  ghost predicate TidyOut(out: seq<Emission>) {
    forall e :: e in out ==> TidyEmission(e)
  }

  lemma StepTidy(ctx: Ctx, b: Buffers, frame: string)
    requires AllTidy(b.deferred) && Tidy(frame) && Json.Faithful(ctx.codec)
    ensures AllTidy(StepFrame(ctx, b, frame).after.deferred) && TidyOut(StepFrame(ctx, b, frame).out)
  {
    hide Classify, FlushSlots, AppendAll, Tidy, Json.Faithful, Covers;
    match Classify(ctx, frame) {
      case Pass =>
      case Stop(scope, drain) =>
        SseRuns.FlushReleases(ctx.entries, 0, scope, b.slots);
        MetasTidy(b.deferred);
      case Content(fields, meta) =>
        SseRuns.FlushReleases(ctx.entries, MaxFakeLen(ctx.entries), Stream, AppendAll(b.slots, fields));
        MetaIsTidy(ctx, frame);
    }
  }

  lemma {:induction false} MetasTidy(frames: seq<string>)
    requires AllTidy(frames)
    ensures TidyOut(Metas(frames))
  {
    hide Tidy;
    if frames != [] {
      assert frames[0] in frames;
      MetasTidy(frames[1..]);
    }
  }

  lemma MetaIsTidy(ctx: Ctx, frame: string)
    requires Json.Faithful(ctx.codec) && Classify(ctx, frame).Content?
    ensures AllTidy(Classify(ctx, frame).meta)
  {
    hide ExtractFields, ClassifyTerminal, SseEvents.Lines, SseEvents.DataContent, SseEvents.EventType, Metadata,
         SseEvents.EventFrame, Json.Parsed, Normalize, FrameLen;
    var json := ctx.codec.parse(SseEvents.DataContent(SseEvents.Lines(frame)).value).value;
    if Metadata(json).Some? {
      var data := ctx.codec.show(Metadata(json).value);
      assert SseEvents.OneLine(data);
      SseEvents.FrameIsWhole(None, data);
      NotEmpty(data);
    }
  }

  lemma NotEmpty(data: string)
    ensures |SseEvents.EventFrame(None, data)| > 0
  {}

  lemma {:induction false} RunTidy(ctx: Ctx, b: Buffers, frames: seq<string>)
    requires AllTidy(b.deferred) && AllTidy(frames) && Json.Faithful(ctx.codec)
    ensures AllTidy(RunFrames(ctx, b, frames).after.deferred) && TidyOut(RunFrames(ctx, b, frames).out)
    decreases |frames|
  {
    hide StepFrame, Tidy, Json.Faithful, TidyEmission;
    if frames != [] {
      assert frames[0] in frames;
      StepTidy(ctx, b, frames[0]);
      RunTidy(ctx, StepFrame(ctx, b, frames[0]).after, frames[1..]);
    }
  }

  lemma FinishTidy(ctx: Ctx, b: Buffers)
    requires AllTidy(b.deferred)
    ensures TidyOut(Finish(ctx, b).out)
  {
    hide FlushSlots, Tidy, Covers;
    SseRuns.FlushReleases(ctx.entries, 0, Stream, b.slots);
    MetasTidy(b.deferred);
  }

  lemma OneTidy(ctx: Ctx, e: Emission)
    requires GoodEmission(ctx, e) && TidyEmission(e) && Json.Faithful(ctx.codec) && WellFormed(ctx.entries)
    requires forall d :: d in ctx.entries ==> Utf8.Valid(d.original)
    ensures AllTidy(RenderOne(ctx, e))
  {
    hide RestoreAll, Json.Faithful, WellFormed, Extractable, ClientFields, SseEvents.SyntheticFrame, Utf8.Valid, FrameLen,
         Normalize, SseEvents.Lines, SseEvents.DataContent, SseEvents.EventType, ExtractFields, ClassifyTerminal;
    if e.Release? {
      var text := RestoreAll(ctx.entries, e.raw);
      RestoreKeepsUtf8(ctx.entries, e.raw);
      if text != "" {
        SseEvents.SyntheticFrameReadBack(ctx.codec, ctx.provider, e.key, text);
        HasData(SseEvents.SyntheticFrame(ctx.codec, e.key, text));
      }
    }
  }

  lemma HasData(f: string)
    requires SseEvents.DataContent(SseEvents.Lines(f)).Some?
    ensures |f| > 0
  {
    hide SseEvents.FieldValue;
  }

  lemma {:induction false} RenderTidy(ctx: Ctx, out: seq<Emission>)
    requires GoodOut(ctx, out) && TidyOut(out) && Json.Faithful(ctx.codec) && WellFormed(ctx.entries)
    requires forall d :: d in ctx.entries ==> Utf8.Valid(d.original)
    ensures AllTidy(Render(ctx, out))
  {
    hide GoodEmission, TidyEmission, Json.Faithful, WellFormed, RenderOne, Utf8.Valid, Tidy;
    if out != [] {
      assert out[0] in out;
      OneTidy(ctx, out[0]);
      RenderTidy(ctx, out[1..]);
    }
  }

  // --------------------------------------------------------------------------- the bytes on the wire

  /** The frames that the stream sends for this text, and the bytes at its end that make no frame. */
  function Sent(ctx: Ctx, all: string): seq<string> {
    Output(ctx, Frames(Normalize(all)))
  }

  function Leftover(all: string): seq<string> {
    if Rest(Normalize(all)) == "" then [] else [Rest(Normalize(all))]
  }

  /** Whoever cuts the bytes that were sent into frames, as the program itself does, gets the frames
      that were sent, and nothing from the bytes that follow them. */
  lemma WireIsCutAsSent(ctx: Ctx, all: string)
    requires !HasCrCrLf(all) && Json.Faithful(ctx.codec) && WellFormed(ctx.entries)
    requires forall d :: d in ctx.entries ==> Utf8.Valid(d.original)
    ensures Frames(Normalize(Concat(Sent(ctx, all) + Leftover(all)))) == Sent(ctx, all)
  {
    hide Normalize, Frames, Rest, HasCrCrLf, Json.Faithful, WellFormed, RunFrames, Finish, Render, Utf8.Valid, Concat,
         GoodOut, TidyOut, Tidy;
    var frames := Frames(Normalize(all));
    var s := RunFrames(ctx, EMPTY, frames);
    InputIsTidy(all);
    SentSum(ctx, frames);
    RunTidy(ctx, EMPTY, frames);
    FinishTidy(ctx, s.after);
    BothTidy(s.out, Finish(ctx, s.after).out);
    RenderTidy(ctx, s.out + Finish(ctx, s.after).out);
    Followed(Sent(ctx, all), Rest(Normalize(all)));
    SplitIsExact(Normalize(all));
    ConcatSum(Sent(ctx, all), Leftover(all));
    ConcatNone<char>();
    ConcatOne(Rest(Normalize(all)));
  }

  lemma BothTidy(a: seq<Emission>, b: seq<Emission>)
    requires TidyOut(a) && TidyOut(b)
    ensures TidyOut(a + b)
  {
    hide TidyEmission;
  }

  lemma Followed(queue: seq<string>, rest: string)
    requires AllTidy(queue) && Normalize(rest) == rest
    ensures FrameLen(rest) == 0 ==> Frames(Normalize(Concat(queue) + rest)) == queue
  {
    hide Normalize, Frames, Rest, FrameLen, Concat;
    var whole := Concat(queue);
    WholeFramesRecut(queue);
    EndsClean(queue, rest);
    NormalizeConcat(whole, rest);
    FramesConcat(whole, rest);
    CutFirst(rest);
    assert "" + rest == rest && queue + [] == queue;
  }

  lemma {:induction false} EndsClean(queue: seq<string>, rest: string)
    requires AllTidy(queue)
    ensures CleanCut(Concat(queue), rest)
  {
    hide Normalize, FrameLen;
    if queue != [] {
      var f := queue[0];
      assert f in queue;
      EndsClean(queue[1..], rest);
      FrameEndsClean(f, rest);
      if Concat(queue[1..]) == "" { assert Concat(queue) == f; }
    }
  }
}
