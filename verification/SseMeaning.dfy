/** What each frame does, said of the JSON and the event name that it carries. */
module SseMeaning {
  import opened Common
  import opened FieldStream
  import opened SseFields
  import opened SseExtract
  import opened SseMachine
  import opened SseRuns
  import Json
  import SseEvents
  import SlidingWindow
  import SseReading

  /** The name of the event of a frame. */
  function NameOf(frame: string): Option<string> {
    SseEvents.EventType(SseEvents.Lines(frame))
  }

  // ------------------------------------------------------------------------ the text that arrives

  /** The text for `k` in one frame: that at the places of `k`, if the frame carries JSON. */
  function FrameText(ctx: Ctx, frame: string, k: FieldKey): string {
    match EventOf(ctx, frame)
    case Some(json) => TextAt(json, ctx.provider, NameOf(frame), k)
    case None => ""
  }

  function FramesText(ctx: Ctx, frames: seq<string>, k: FieldKey): string {
    if frames == [] then "" else FrameText(ctx, frames[0], k) + FramesText(ctx, frames[1..], k)
  }

  lemma ClassifyText(ctx: Ctx, frame: string, json: Json.Value, k: FieldKey)
    requires EventOf(ctx, frame) == Some(json) && Json.Faithful(ctx.codec)
    ensures var e := Classify(ctx, frame);
            && (e.Content? <==> CarriesText(json, ctx.provider, NameOf(frame)))
            && (e.Content? ==> PieceFor(e.fields, k) == TextAt(json, ctx.provider, NameOf(frame), k)
                               && e.meta == DeferredOf(ctx, json))
            && (!e.Content? ==> TextAt(json, ctx.provider, NameOf(frame), k) == "")
  {
    hide SseEvents.Lines, SseEvents.DataContent, SseEvents.EventType, ExtractFields, ClassifyTerminal, CarriesText,
         TextAt, PieceFor, Json.Parsed, DeferredOf;
    ExtractedIsTextAt(json, ctx.provider, NameOf(frame), k);
    NoPieces(k);
  }

  /** The text that was received for a field is what stands at its places in the frames, in order. */
  lemma {:induction false} ReceivedIsTextAt(ctx: Ctx, frames: seq<string>, k: FieldKey)
    requires Json.Faithful(ctx.codec)
    ensures TextOf(ctx, frames, k) == FramesText(ctx, frames, k)
  {
    hide Json.Faithful, Classify, EventOf, FrameText;
    if frames != [] {
      ReceivedIsTextAt(ctx, frames[1..], k);
      OneReceived(ctx, frames[0], k);
      ReceivedSum(KeyOp(Classify(ctx, frames[0]), k), KeyOps(ctx, frames[1..], k));
    }
  }

  lemma OneReceived(ctx: Ctx, frame: string, k: FieldKey)
    requires Json.Faithful(ctx.codec)
    ensures Received(KeyOp(Classify(ctx, frame), k)) == FrameText(ctx, frame, k)
  {
    hide Json.Faithful, TextAt, CarriesText, PieceFor, SseEvents.Lines, SseEvents.DataContent, SseEvents.EventType, Covers;
    match EventOf(ctx, frame) {
      case Some(json) => ClassifyText(ctx, frame, json, k);
      case None =>
    }
    OneOp(KeyOp(Classify(ctx, frame), k));
  }

  lemma OneOp(ops: seq<FieldOp>)
    requires |ops| <= 1
    ensures Received(ops) == if ops == [] then "" else match ops[0] case Text(p) => p case Complete => ""
  {
    if ops != [] { assert ops[1..] == []; }
  }

  lemma {:induction false} ReceivedSum(a: seq<FieldOp>, b: seq<FieldOp>)
    ensures Received(a + b) == Received(a) + Received(b)
  {
    if a == [] {
      assert a + b == b;
    } else {
      ReceivedSum(a[1..], b);
      assert (a + b)[1..] == a[1..] + b;
      Assoc(match a[0] case Text(p) => p case Complete => "", Received(a[1..]), Received(b));
    }
  }

  // --------------------------------------------------------------------------- which frames end what

  predicate NonNull(v: Option<Json.Value>) {
    v.Some? && !v.value.Null?
  }

  predicate IsNatural(v: Option<Json.Value>) {
    v.Some? && v.value.Natural?
  }

  /** The event ends the whole stream. */
  predicate EndsAll(json: Json.Value, provider: Provider, event: Option<string>) {
    match provider
    case Anthropic =>
      || IsType(Json.Get(json, "type"), "message_delta")
      || IsType(Json.Get(json, "type"), "message_stop")
      || (IsType(Json.Get(json, "type"), "content_block_stop") && !IsNatural(Json.Get(json, "index")))
    case Gemini => NonNull(Json.Pointer(json, ["candidates", "0", "finishReason"]))
    case _ =>
      || NonNull(Json.Pointer(json, ["choices", "0", "finish_reason"]))
      || event == Some("response.completed") || event == Some("response.failed")
      || event == Some("response.cancelled") || event == Some("response.incomplete")
      || event == Some("response.content_part.done") || event == Some("response.output_item.done")
  }

  /** The event ends one block. */
  predicate EndsOne(json: Json.Value, provider: Provider, n: nat) {
    && provider.Anthropic? && IsType(Json.Get(json, "type"), "content_block_stop")
    && Json.Get(json, "index") == Some(Json.Natural(n))
  }

  lemma ClassifyEnd(ctx: Ctx, frame: string, json: Json.Value)
    requires EventOf(ctx, frame) == Some(json) && Json.Faithful(ctx.codec)
    requires !CarriesText(json, ctx.provider, NameOf(frame))
    ensures var e := Classify(ctx, frame);
            && (EndsAll(json, ctx.provider, NameOf(frame)) ==> e == Stop(Stream, ctx.provider.Gemini?))
            && (forall n: nat :: EndsOne(json, ctx.provider, n) ==> e == Stop(Block(n), false))
            && (!EndsAll(json, ctx.provider, NameOf(frame)) && (forall n: nat :: !EndsOne(json, ctx.provider, n)) ==> e == Pass)
  {
    hide SseEvents.Lines, SseEvents.DataContent, SseEvents.EventType, ExtractFields, ClassifyTerminal, CarriesText,
         Json.Parsed, EndsAll, EndsOne;
    ExtractedIsTextAt(json, ctx.provider, NameOf(frame), OpenAiContent);
    TerminalIs(json, ctx.provider, NameOf(frame));
  }

  lemma TerminalIs(json: Json.Value, provider: Provider, event: Option<string>)
    ensures EndsAll(json, provider, event) ==> ClassifyTerminal(json, event, provider) == Some(Stream)
    ensures forall n: nat :: EndsOne(json, provider, n) ==> ClassifyTerminal(json, event, provider) == Some(Block(n))
    ensures !EndsAll(json, provider, event) && (forall n: nat :: !EndsOne(json, provider, n))
            ==> ClassifyTerminal(json, event, provider) == None
  {
    hide Json.Pointer, Json.Find;
    if provider.Anthropic? && !EndsAll(json, provider, event) && IsType(Json.Get(json, "type"), "content_block_stop") {
      assert EndsOne(json, provider, Json.Get(json, "index").value.n);
    }
  }

  /** Of all frames with JSON but without text: those that end the stream go out after all text and, under
      Gemini, all metadata; those that end a block go out after the text of that block; and every other one
      is passed on at once and releases nothing. */
  lemma FramesWithoutText(ctx: Ctx, frames: seq<string>, last: string, json: Json.Value, k: FieldKey)
    requires EventOf(ctx, last) == Some(json) && Json.Faithful(ctx.codec)
    requires !CarriesText(json, ctx.provider, NameOf(last))
    ensures EndsAll(json, ctx.provider, NameOf(last)) ==> EndsStream(ctx, frames, last, ctx.provider.Gemini?, k)
    ensures forall n: nat :: EndsOne(json, ctx.provider, n) ==> EndsBlock(ctx, frames, last, n, k)
    ensures !EndsAll(json, ctx.provider, NameOf(last)) && (forall n: nat :: !EndsOne(json, ctx.provider, n))
            ==> PassedOn(ctx, frames, last)
  {
    hide Json.Faithful, CarriesText, Classify, EventOf, EndsAll, EndsStream, EndsBlock, PassedOn;
    ClassifyEnd(ctx, last, json);
    if EndsAll(json, ctx.provider, NameOf(last)) {
      TerminalOrdering(ctx, frames, last, k);
    }
    forall n: nat | EndsOne(json, ctx.provider, n) ensures EndsBlock(ctx, frames, last, n, k) {
      BlockStop(ctx, frames, last, json, n, k);
    }
    if Classify(ctx, last) == Pass { PassFrame(ctx, frames, last); }
  }

  lemma BlockStop(ctx: Ctx, frames: seq<string>, last: string, json: Json.Value, n: nat, k: FieldKey)
    requires EventOf(ctx, last) == Some(json) && EndsOne(json, ctx.provider, n)
    ensures EndsBlock(ctx, frames, last, n, k)
  {
    hide EventOf, EndsBlock, EndsStream, Json.Find;
    BlockIsolation(ctx, frames, last, json, k);
  }

  /** The frame goes out as it is, at once, and nothing else happens. */
  ghost predicate PassedOn(ctx: Ctx, frames: seq<string>, last: string) {
    var r := RunFrames(ctx, EMPTY, frames);
    RunFrames(ctx, EMPTY, frames + [last]) == Step(r.after, r.out + [Event(last)])
  }

  lemma PassFrame(ctx: Ctx, frames: seq<string>, last: string)
    requires Classify(ctx, last) == Pass
    ensures PassedOn(ctx, frames, last)
  {
    hide RunFrames, Classify;
    RunConcat(ctx, EMPTY, frames, [last]);
    RunOne(ctx, RunFrames(ctx, EMPTY, frames).after, last);
  }

  /** A frame without JSON is passed on, unless it is `[DONE]` under OpenAI or OpenRouter. */
  lemma FramesWithoutJson(ctx: Ctx, frames: seq<string>, last: string, k: FieldKey)
    requires EventOf(ctx, last) == None
    ensures var data := SseEvents.DataContent(SseEvents.Lines(last));
            if (ctx.provider.OpenAi? || ctx.provider.OpenRouter?) && data.Some?
               && (exists before, after :: SseReading.DoneWithin(data.value, before, after))
            then EndsStream(ctx, frames, last, false, k)
            else PassedOn(ctx, frames, last)
  {
    hide SseEvents.Lines, SseEvents.DataContent, SseEvents.IsDone, SseReading.DoneWithin, EndsStream, PassedOn, RunFrames;
    var data := SseEvents.DataContent(SseEvents.Lines(last));
    if data.Some? {
      SseReading.IsDoneIff(data.value);
      if SseEvents.IsDone(data.value) && (ctx.provider.OpenAi? || ctx.provider.OpenRouter?) {
        DoneEndsStream(ctx, frames, last, k);
      } else {
        PassFrame(ctx, frames, last);
      }
    } else {
      PassFrame(ctx, frames, last);
    }
  }

  /** A frame with text is taken in: it is not passed on, and what comes out is released text only. */
  lemma FramesWithText(ctx: Ctx, frames: seq<string>, last: string, json: Json.Value)
    requires EventOf(ctx, last) == Some(json) && Json.Faithful(ctx.codec)
    requires CarriesText(json, ctx.provider, NameOf(last))
    ensures var r, s := RunFrames(ctx, EMPTY, frames), RunFrames(ctx, EMPTY, frames + [last]);
            && r.out <= s.out && (forall e :: e in s.out[|r.out|..] ==> e.Release?)
            && s.after.deferred == r.after.deferred + DeferredOf(ctx, json)
  {
    hide Json.Faithful, CarriesText, Classify, EventOf, RunFrames, FlushSlots, AppendAll, DeferredOf;
    var r := RunFrames(ctx, EMPTY, frames);
    ClassifyText(ctx, last, json, OpenAiContent);
    RunConcat(ctx, EMPTY, frames, [last]);
    RunOne(ctx, r.after, last);
    var fields := Classify(ctx, last).fields;
    FlushReleases(ctx.entries, SlidingWindow.MaxFakeLen(ctx.entries), Stream, AppendAll(r.after.slots, fields));
    var t := StepFrame(ctx, r.after, last);
    assert (r.out + t.out)[|r.out|..] == t.out;
  }

  // ----------------------------------------------------------------- frames written without spaces

  /** Whether spaces follow the colons makes no difference to what a frame does. */
  lemma SpacelessIsSame(ctx: Ctx, event: Option<string>, data: string)
    requires SseEvents.OneLine(data) && !(" " <= data)
    requires event.Some? ==> SseEvents.OneLine(event.value) && event.value != "" && !(" " <= event.value)
    ensures Classify(ctx, SseReading.Spaceless(event, data)) == Classify(ctx, SseEvents.EventFrame(event, data))
  {
    hide SseEvents.Lines, SseEvents.DataContent, SseEvents.EventType, SseReading.Spaceless, SseEvents.EventFrame,
         SseEvents.OneLine, ExtractFields, ClassifyTerminal;
    SseReading.SpacelessIsRead(event, data);
  }
}
