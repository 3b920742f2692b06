/** The response stream itself: an object that changes its state with every poll. */
module SseStream {
  import opened Common
  import opened Fakes
  import opened SlidingWindow
  import opened FieldStream
  import opened SseFields
  import opened SseMachine
  import opened SsePoll
  import SseEvents
  import SseFrames
  import Utf8

  datatype Phase = Detecting | CollectingNonSse | Processing | StreamingSse | Emitting | Done

  datatype Poll = Pending | Ready(item: Option<Item>)

  function Rank(p: Phase): nat {
    match p
    case Detecting => 5
    case CollectingNonSse => 4
    case StreamingSse => 3
    case Processing => 2
    case Emitting => 1
    case Done => 0
  }

  class SseRestoreStream {
    const config: Config
    var phase: Phase
    /** What the upstream response will still answer when it is polled. */
    var inner: seq<Input>
    /** How many more polls the restoring of a collected response takes. */
    var busy: nat
    var rawBuf: string
    var accumulators: seq<Slot>
    var rawFragment: string
    var outputQueue: seq<string>
    var deferred: seq<string>

    constructor (config: Config, inner: seq<Input>, busy: nat)
      ensures this.config == config && this.inner == inner && this.busy == busy && phase == Detecting
      ensures Remaining() == DetectItems(config, inner)
    {
      this.config := config;
      this.inner := inner;
      this.busy := busy;
      phase := Detecting;
      rawBuf, rawFragment := "", "";
      accumulators, outputQueue, deferred := [], [], [];
    }

    ghost function Bufs(): Buffers
      reads this
    {
      Buffers(accumulators, deferred)
    }

    ghost function TheCore(): Core
      reads this
    {
      Core(Bufs(), rawFragment)
    }

    /** The items that the stream will still yield. */
    ghost function Remaining(): seq<Item>
      reads this
    {
      match phase
      case Detecting => DetectItems(config, inner)
      case CollectingNonSse => CollectItems(config, rawBuf, inner)
      case Processing => RawItems(config, rawBuf)
      case StreamingSse => Items(outputQueue) + StreamItems(config.ctx, TheCore(), inner)
      case Emitting => Items(outputQueue)
      case Done => []
    }

    /** Releases what the hold window lets go of one buffer; fails if its restored form is not UTF-8. */
    method FlushSafePrefix(i: nat, window: nat) returns (ok: bool)
      requires i < |accumulators|
      modifies this`accumulators, this`outputQueue
      ensures var s := old(accumulators)[i];
              var run := FlushText(config.ctx.entries, window, s.text);
              && ok == Restorable(config.ctx, Releases(s.key, run.released))
              && (ok ==>
                    && accumulators == old(accumulators)[i := Slot(s.key, run.held)]
                    && outputQueue == old(outputQueue) + Render(config.ctx, Releases(s.key, run.released)))
              && (!ok ==> accumulators == old(accumulators) && outputQueue == old(outputQueue))
    {
      hide CutPoint, RestoreAll, Utf8.Valid;
      var Slot(key, accum) := accumulators[i];
      ghost var run := FlushText(config.ctx.entries, window, accum);
      var safeLen := SafeTarget(config.ctx.entries, window, accum);
      if safeLen == 0 {
        assert outputQueue + [] == outputQueue;
        assert accumulators[i := Slot(key, accum)] == accumulators;
        return true;
      }
      var restored := RestoreAll(config.ctx.entries, accum[..safeLen]);
      RenderRelease(config.ctx, key, accum[..safeLen]);
      assert run.released == [accum[..safeLen]];
      if !Utf8.Valid(restored) {
        return false;
      }
      if restored != "" {
        outputQueue := outputQueue + [SseEvents.SyntheticFrame(config.ctx.codec, key, restored)];
      } else {
        assert outputQueue + [] == outputQueue;
      }
      accumulators := accumulators[i := Slot(key, accum[safeLen..])];
      ok := true;
    }

    /** Flushes every buffer in this scope, in the order of the keys, as long as that succeeds. */
    method FlushAccumulatorsWhere(scope: Scope, window: nat) returns (ok: bool)
      modifies this`accumulators, this`outputQueue
      ensures var f := FlushSlots(config.ctx.entries, window, scope, old(accumulators));
              && ok == Restorable(config.ctx, f.out)
              && (ok ==> accumulators == f.slots && outputQueue == old(outputQueue) + Render(config.ctx, f.out))
    {
      hide FlushText, Covers, FlushSlots, Restorable;
      ghost var slots := accumulators;
      ghost var entries := config.ctx.entries;
      assert FlushSlots(entries, window, scope, slots[..0]) == Flushed([], []) by { FlushNone(entries, window, scope); }
      NoReleaseIsRestorable(config.ctx, []);
      assert outputQueue + [] == outputQueue;
      for i := 0 to |accumulators|
        invariant |accumulators| == |slots|
        invariant accumulators == FlushSlots(entries, window, scope, slots[..i]).slots + slots[i..]
        invariant outputQueue == old(outputQueue) + Render(config.ctx, FlushSlots(entries, window, scope, slots[..i]).out)
        invariant Restorable(config.ctx, FlushSlots(entries, window, scope, slots[..i]).out)
      {
        FlushLoopStep(config.ctx, window, scope, slots, i, old(outputQueue));
        FlushFails(config.ctx, window, scope, slots, i + 1);
        if accumulators[i].text != "" && Covers(scope, accumulators[i].key) {
          ok := FlushSafePrefix(i, window);
          if !ok {
            return;
          }
        } else {
          assert outputQueue + [] == outputQueue;
        }
      }
      assert slots[..|slots|] == slots;
      ok := true;
    }

    /** Processes one complete frame. */
    method ProcessOneFrame(frame: string) returns (ok: bool)
      modifies this`accumulators, this`outputQueue, this`deferred
      ensures var s := StepFrame(config.ctx, old(Bufs()), frame);
              && ok == Restorable(config.ctx, s.out)
              && (ok ==> Bufs() == s.after && outputQueue == old(outputQueue) + Render(config.ctx, s.out))
    {
      hide Restorable, FlushSlots, AppendAll, ExtractFields, ClassifyTerminal, Metadata, SseEvents.Lines, SseEvents.DataContent,
           SseEvents.EventType, SseEvents.IsDone;
      var ctx := config.ctx;
      var lines := SseEvents.Lines(frame);
      var event := SseEvents.EventType(lines);
      var data := SseEvents.DataContent(lines);
      ghost var q := outputQueue;
      ghost var b := Bufs();
      RenderEvent(ctx, frame);
      NoReleaseIsRestorable(ctx, [Event(frame)]);
      if data.None? {
        outputQueue := outputQueue + [frame];
        return true;
      }
      var parsed := ctx.codec.parse(data.value);
      if parsed.None? {
        if SseEvents.IsDone(data.value) && (ctx.provider.OpenAi? || ctx.provider.OpenRouter?) {
          StopRestorable(ctx, b, frame, Stream, false);
          ok := FlushAccumulatorsWhere(Stream, 0);
          if !ok {
            return;
          }
          StopRendered(ctx, b, frame, Stream, false);
        }
        outputQueue := outputQueue + [frame];
        return true;
      }
      var json := parsed.value;
      var extracted := ExtractFields(json, ctx.provider, event);
      if extracted == [] {
        var terminal := ClassifyTerminal(json, event, ctx.provider);
        match terminal {
          case Some(Block(n)) =>
            StopRestorable(ctx, b, frame, Block(n), false);
            ok := FlushAccumulatorsWhere(Block(n), 0);
            if !ok {
              return;
            }
            StopRendered(ctx, b, frame, Block(n), false);
          case Some(Stream) =>
            StopRestorable(ctx, b, frame, Stream, ctx.provider.Gemini?);
            ok := FlushAccumulatorsWhere(Stream, 0);
            if !ok {
              return;
            }
            StopRendered(ctx, b, frame, Stream, ctx.provider.Gemini?);
            if ctx.provider.Gemini? {
              outputQueue := outputQueue + deferred;
              deferred := [];
            }
          case None =>
        }
        outputQueue := outputQueue + [frame];
        return true;
      }
      ghost var before := accumulators;
      for i := 0 to |extracted|
        invariant AppendAll(accumulators, extracted[i..]) == AppendAll(before, extracted)
        invariant outputQueue == q && deferred == b.deferred
      {
        AppendNext(accumulators, extracted[i..]);
        assert extracted[i..][1..] == extracted[i + 1..];
        accumulators := Append(accumulators, extracted[i].key, extracted[i].text);
      }
      AppendNothing(accumulators, extracted[|extracted|..]);
      if ctx.provider.Gemini? {
        var extra := Metadata(json);
        if extra.Some? {
          deferred := deferred + [SseEvents.MetadataFrame(ctx.codec, extra.value)];
        }
      }
      assert deferred == b.deferred + DeferredOf(ctx, json);
      ok := FlushAccumulatorsWhere(Stream, MaxFakeLen(ctx.entries));
    }

    /** Takes in one chunk: processes the frames that it completes and keeps the rest. */
    method ProcessSseChunk(chunk: string) returns (ok: bool)
      modifies this`accumulators, this`outputQueue, this`deferred, this`rawFragment
      ensures var t := TakeChunk(config.ctx, old(TheCore()), chunk);
              && ok == t.ok
              && (ok ==> TheCore() == t.core && outputQueue == old(outputQueue) + t.queue)
    {
      hide Restorable, StepFrame, SseFrames.FrameLen, SseFrames.Normalize, Utf8.Valid;
      ghost var q := outputQueue;
      ghost var b := Bufs();
      rawFragment := rawFragment + chunk;
      NoReleaseIsRestorable(config.ctx, []);
      if !Utf8.Valid(rawFragment) {
        assert outputQueue + [] == outputQueue;
        return true;
      }
      var normalized := SseFrames.Normalize(rawFragment);
      ghost var run := RunFrames(config.ctx, b, SseFrames.Frames(normalized));
      var pos := 0;
      ghost var done: seq<Emission> := [];
      assert q + [] == q && [] + run.out == run.out;
      var len := SseFrames.FrameLen(normalized[pos..]);
      while len > 0
        invariant 0 <= pos <= |normalized| && len == SseFrames.FrameLen(normalized[pos..])
        invariant var rest := RunFrames(config.ctx, Bufs(), SseFrames.Frames(normalized[pos..]));
                  rest.after == run.after && done + rest.out == run.out
        invariant SseFrames.Rest(normalized[pos..]) == SseFrames.Rest(normalized)
        invariant outputQueue == q + Render(config.ctx, done)
        invariant Restorable(config.ctx, done)
        decreases |normalized| - pos
      {
        ghost var bufs := Bufs();
        ghost var tail := normalized[pos..];
        var frameEnd := pos + len;
        assert normalized[pos..frameEnd] == tail[..len] && normalized[frameEnd..] == tail[len..];
        NextFrame(config.ctx, bufs, tail);
        ghost var step := StepFrame(config.ctx, bufs, tail[..len]);
        ghost var rest := RunFrames(config.ctx, step.after, SseFrames.Frames(tail[len..])).out;
        Assoc(done, step.out, rest);
        RestorableSum(config.ctx, done, step.out);
        RestorableSum(config.ctx, done + step.out, rest);
        ok := ProcessOneFrame(normalized[pos..frameEnd]);
        if !ok {
          return;
        }
        RenderSum(config.ctx, done, step.out);
        Assoc(q, Render(config.ctx, done), Render(config.ctx, step.out));
        done := done + step.out;
        pos := frameEnd;
        len := SseFrames.FrameLen(normalized[pos..]);
      }
      NoNextFrame(config.ctx, Bufs(), normalized[pos..]);
      assert done + [] == done;
      rawFragment := normalized[pos..];
      ok := true;
    }

    /** Yields the next item, if the input has one ready. */
    method PollNext() returns (r: Poll)
      modifies this
      ensures match r
              case Ready(Some(item)) => old(Remaining()) == [item] + Remaining()
              case Ready(None) => old(Remaining()) == [] && phase == Done
              case Pending => Remaining() == old(Remaining()) && |inner| + busy < |old(inner)| + old(busy)
      ensures |inner| + busy <= |old(inner)| + old(busy)
      ensures r.Ready? && r.item.Some? && r.item.value.Failed? ==> phase == Done
      ensures old(phase) == Done ==> r == Ready(None) && phase == Done
      ensures old(phase) == StreamingSse && old(outputQueue) != [] ==>
                && r == Ready(Some(Data(old(outputQueue)[0])))
                && inner == old(inner) && phase == StreamingSse && outputQueue == old(outputQueue)[1..]
                && TheCore() == old(TheCore())
    {
      hide TakeChunk, StreamItems;
      ghost var start := Remaining();
      while true
        invariant Remaining() == start
        invariant |inner| + busy <= |old(inner)| + old(busy)
        invariant old(phase) == Done ==> phase == Done
        invariant old(phase) == StreamingSse && old(outputQueue) != [] ==>
                    && phase == StreamingSse && inner == old(inner) && outputQueue == old(outputQueue)
                    && TheCore() == old(TheCore())
        decreases |inner|, Rank(phase), if outputQueue == [] then 1 else 0
      {
        match phase {
          case Detecting =>
            r := PollDetecting();
            if r != Ready(None) || phase == Done {
              return;
            }
          case CollectingNonSse =>
            r := PollCollecting();
            if r != Ready(None) {
              return;
            }
          case Processing =>
            r := PollProcessing();
            if r != Ready(None) {
              return;
            }
          case StreamingSse =>
            if outputQueue != [] {
              var bytes := outputQueue[0];
              outputQueue := outputQueue[1..];
              Assoc([Data(bytes)], Items(outputQueue), StreamItems(config.ctx, TheCore(), inner));
              return Ready(Some(Data(bytes)));
            }
            r := PollStreaming();
            if r != Ready(None) {
              return;
            }
          case Emitting =>
            if outputQueue == [] {
              phase := Done;
              return Ready(None);
            }
            var bytes := outputQueue[0];
            outputQueue := outputQueue[1..];
            if outputQueue == [] {
              assert Items(outputQueue) == [];
              phase := Done;
            }
            return Ready(Some(Data(bytes)));
          case Done =>
            return Ready(None);
        }
      }
    }

    /** The part of `PollNext` that waits for the first chunk which is not empty. */
    method PollDetecting() returns (r: Poll)
      requires phase == Detecting
      modifies this
      ensures |inner| + busy <= |old(inner)| + old(busy)
      ensures match r
              case Ready(Some(item)) => item.Failed? && phase == Done && old(Remaining()) == [item]
              case Ready(None) =>
                Remaining() == old(Remaining()) && (phase == Done || |inner| < |old(inner)|)
              case Pending => Remaining() == old(Remaining()) && |inner| + busy < |old(inner)| + old(busy)
    {
      hide StreamItems, CollectItems;
      if inner == [] {
        phase := Done;
        return Ready(None);
      }
      var polled := inner[0];
      inner := inner[1..];
      match polled {
        case Chunk(chunk) =>
          if chunk == "" {
          } else if IsSseFirstChunk(chunk) {
            phase := StreamingSse;
            accumulators, outputQueue, deferred := [], [], [];
            rawFragment := chunk;
            assert [] + StreamItems(config.ctx, TheCore(), inner) == StreamItems(config.ctx, TheCore(), inner);
          } else {
            phase := CollectingNonSse;
            rawBuf := chunk;
          }
          return Ready(None);
        case Failure(e) =>
          phase := Done;
          return Ready(Some(Failed(e)));
        case NotReady =>
          return Pending;
      }
    }

    /** The part of `PollNext` that collects a response which is no event stream. */
    method PollCollecting() returns (r: Poll)
      requires phase == CollectingNonSse
      modifies this
      ensures |inner| + busy <= |old(inner)| + old(busy)
      ensures match r
              case Ready(Some(item)) => item.Failed? && phase == Done && old(Remaining()) == [item]
              case Ready(None) =>
                && Remaining() == old(Remaining())
                && (|inner| < |old(inner)| || (inner == old(inner) && phase == Processing))
              case Pending => Remaining() == old(Remaining()) && |inner| + busy < |old(inner)| + old(busy)
    {
      hide RawItems;
      if inner == [] {
        phase := Processing;
        return Ready(None);
      }
      var polled := inner[0];
      inner := inner[1..];
      match polled {
        case Chunk(chunk) =>
          rawBuf := rawBuf + chunk;
          return Ready(None);
        case Failure(e) =>
          phase := Done;
          return Ready(Some(Failed(e)));
        case NotReady =>
          return Pending;
      }
    }

    /** The part of `PollNext` that waits for the collected response to be restored. */
    method PollProcessing() returns (r: Poll)
      requires phase == Processing
      modifies this
      ensures inner == old(inner) && busy <= old(busy)
      ensures match r
              case Ready(Some(item)) => item.Failed? && phase == Done && old(Remaining()) == [item]
              case Ready(None) => Remaining() == old(Remaining()) && phase == Emitting
              case Pending => Remaining() == old(Remaining()) && busy < old(busy)
    {
      if busy > 0 {
        busy := busy - 1;
        return Pending;
      }
      match config.restoreRaw(rawBuf) {
        case RawQueue(queue) =>
          outputQueue := queue;
          phase := Emitting;
          return Ready(None);
        case RawFailed(e) =>
          phase := Done;
          return Ready(Some(Failed(e)));
      }
    }

    /** The part of `PollNext` for an event stream whose queue is empty.  In these parts `Ready(None)`
        stands for going round the loop again. */
    method PollStreaming() returns (r: Poll)
      requires phase == StreamingSse && outputQueue == []
      modifies this
      ensures |inner| + busy <= |old(inner)| + old(busy)
      ensures match r
              case Ready(Some(item)) => item.Failed? && phase == Done && old(Remaining()) == [item]
              case Ready(None) =>
                && Remaining() == old(Remaining())
                && (|| |inner| < |old(inner)|
                    || (inner == old(inner) && phase == Emitting)
                    || (inner == old(inner) && phase == StreamingSse && outputQueue != []))
              case Pending => Remaining() == old(Remaining()) && |inner| + busy < |old(inner)| + old(busy)
    {
      hide TakeChunk, LastQueue, StreamItems, Settle, AfterSettle;
      var ok := ParseKept();
      if !ok {
        phase := Done;
        return Ready(Some(Failed(NOT_UTF8)));
      }
      if outputQueue != [] {
        return Ready(None);
      }
      if inner == [] {
        ok := EndOfInput();
        if !ok {
          phase := Done;
          return Ready(Some(Failed(NOT_UTF8)));
        }
        return Ready(None);
      }
      r := PollInner();
    }

    /** Parses the bytes kept from earlier chunks once more. */
    method ParseKept() returns (ok: bool)
      requires phase == StreamingSse && outputQueue == []
      modifies this`accumulators, this`outputQueue, this`deferred, this`rawFragment
      ensures !ok ==> old(Remaining()) == [Failed(NOT_UTF8)]
      ensures ok ==>
                old(Remaining()) == if outputQueue != [] then Remaining() else AfterSettle(config.ctx, TheCore(), inner)
    {
      hide TakeChunk, AfterSettle;
      ghost var core := TheCore();
      ghost var ctx := config.ctx;
      assert [] + StreamItems(ctx, core, inner) == StreamItems(ctx, core, inner);
      if rawFragment == "" {
        SettledStream(ctx, core, inner);
        return true;
      }
      ok := ProcessSseChunk("");
      ghost var t := TakeChunk(ctx, core, "");
      if !ok {
        SettleFails(ctx, core, inner);
        return;
      }
      assert [] + t.queue == t.queue;
      if outputQueue != [] {
        SettleAgain(ctx, core, inner);
      } else {
        SettledStream(ctx, core, inner);
      }
    }

    /** Flushes everything and hands the queue over. */
    method EndOfInput() returns (ok: bool)
      requires phase == StreamingSse && outputQueue == [] && inner == []
      modifies this
      ensures ok ==> Items(outputQueue) == AfterSettle(config.ctx, old(TheCore()), []) && phase == Emitting
      ensures !ok ==> AfterSettle(config.ctx, old(TheCore()), []) == [Failed(NOT_UTF8)]
      ensures inner == old(inner) && busy == old(busy)
    {
      hide Finish, FlushSlots, Restorable;
      ghost var core := TheCore();
      RenderFinish(config.ctx, core.bufs);
      ok := FlushAccumulatorsWhere(Stream, 0);
      if !ok {
        return;
      }
      assert outputQueue == Render(config.ctx, FlushSlots(config.ctx.entries, 0, Stream, core.bufs.slots).out);
      outputQueue := outputQueue + deferred;
      deferred := [];
      if rawFragment != "" {
        outputQueue := outputQueue + [rawFragment];
      } else {
        assert outputQueue + [] == outputQueue;
      }
      phase := Emitting;
    }

    /** Polls the upstream response. */
    method PollInner() returns (r: Poll)
      requires phase == StreamingSse && outputQueue == [] && inner != []
      modifies this
      ensures |inner| + busy < |old(inner)| + old(busy) && |inner| < |old(inner)|
      ensures var was := AfterSettle(config.ctx, old(TheCore()), old(inner));
              match r
              case Ready(Some(item)) => item.Failed? && phase == Done && was == [item]
              case Ready(None) => Remaining() == was
              case Pending => Remaining() == was
    {
      hide TakeChunk, StreamItems;
      ghost var core := TheCore();
      var polled := inner[0];
      inner := inner[1..];
      match polled {
        case Chunk(chunk) =>
          var ok := ProcessSseChunk(chunk);
          ghost var t := TakeChunk(config.ctx, core, chunk);
          if !ok {
            phase := Done;
            return Ready(Some(Failed(NOT_UTF8)));
          }
          assert [] + t.queue == t.queue;
          return Ready(None);
        case Failure(e) =>
          phase := Done;
          return Ready(Some(Failed(e)));
        case NotReady =>
          assert [] + StreamItems(config.ctx, core, inner) == StreamItems(config.ctx, core, inner);
          return Pending;
      }
    }
  }

  /** Polls until the stream ends, as its reader does, and so gets exactly the remaining items. */
  method Drain(s: SseRestoreStream) returns (items: seq<Item>)
    modifies s
    ensures items == old(s.Remaining()) && s.phase == Done
  {
    items := [];
    var ended := false;
    while !ended
      invariant items + s.Remaining() == old(s.Remaining())
      invariant ended ==> s.phase == Done
      decreases !ended, |s.Remaining()|, |s.inner| + s.busy
    {
      ghost var before := items;
      ghost var left := s.Remaining();
      var r := s.PollNext();
      match r {
        case Ready(Some(item)) =>
          Assoc(before, [item], s.Remaining());
          items := items + [item];
        case Ready(None) =>
          ended := true;
        case Pending =>
      }
    }
  }

  // ------------------------------------------------------------------------------- small steps

  lemma RenderRelease(ctx: Ctx, key: FieldKey, raw: string)
    ensures Render(ctx, Releases(key, [raw]))
            == (if RestoreAll(ctx.entries, raw) == "" then []
                else [SseEvents.SyntheticFrame(ctx.codec, key, RestoreAll(ctx.entries, raw))])
  {
    hide RestoreAll;
    assert [raw][1..] == [] && Releases(key, []) == [];
    assert Releases(key, [raw]) == [Release(key, raw)] + [] == [Release(key, raw)];
    assert [Release(key, raw)][1..] == [] && Render(ctx, []) == [];
    assert RenderOne(ctx, Release(key, raw)) + [] == RenderOne(ctx, Release(key, raw));
  }

  lemma StopRestorable(ctx: Ctx, b: Buffers, frame: string, scope: Scope, drain: bool)
    ensures Restorable(ctx, Apply(ctx, b, frame, Stop(scope, drain)).out)
            == Restorable(ctx, FlushSlots(ctx.entries, 0, scope, b.slots).out)
  {
    hide FlushSlots, Restorable;
    var f := FlushSlots(ctx.entries, 0, scope, b.slots);
    var metas := if drain then Metas(b.deferred) else [];
    MetasAreMetas(b.deferred);
    NoReleaseIsRestorable(ctx, metas);
    NoReleaseIsRestorable(ctx, [Event(frame)]);
    RestorableSum(ctx, f.out, metas);
    RestorableSum(ctx, f.out + metas, [Event(frame)]);
  }

  /** A flush that fails for the first buffers fails for all. */
  lemma {:induction false} FlushFails(ctx: Ctx, window: nat, scope: Scope, slots: seq<Slot>, i: nat)
    requires i <= |slots|
    ensures !Restorable(ctx, FlushSlots(ctx.entries, window, scope, slots[..i]).out)
            ==> !Restorable(ctx, FlushSlots(ctx.entries, window, scope, slots).out)
    decreases |slots|
  {
    hide FlushSlots, Restorable;
    if i == |slots| {
      assert slots[..i] == slots;
    } else {
      var before, s := slots[..|slots| - 1], slots[|slots| - 1];
      FlushFails(ctx, window, scope, before, i);
      assert before[..i] == slots[..i] && before + [s] == slots;
      FlushPush(ctx.entries, window, scope, before, s);
      RestorableSum(ctx, FlushSlots(ctx.entries, window, scope, before).out,
                    FlushSlots(ctx.entries, window, scope, [s]).out);
    }
  }

  lemma RenderEvent(ctx: Ctx, frame: string)
    ensures Render(ctx, [Event(frame)]) == [frame]
  {
    assert [Event(frame)][1..] == [] && [frame] + [] == [frame];
  }

  lemma {:induction false} RenderMetas(ctx: Ctx, frames: seq<string>)
    ensures Render(ctx, Metas(frames)) == frames
  {
    if frames != [] {
      RenderMetas(ctx, frames[1..]);
      assert Metas(frames)[1..] == Metas(frames[1..]);
      assert [frames[0]] + frames[1..] == frames;
    }
  }

  lemma StopRendered(ctx: Ctx, b: Buffers, frame: string, scope: Scope, drain: bool)
    ensures var f := FlushSlots(ctx.entries, 0, scope, b.slots);
            var s := Apply(ctx, b, frame, Stop(scope, drain));
            forall q: seq<string> {:trigger q + Render(ctx, s.out)} ::
              q + Render(ctx, s.out) == ((q + Render(ctx, f.out)) + (if drain then b.deferred else [])) + [frame]
  {
    hide FlushSlots;
    var f := FlushSlots(ctx.entries, 0, scope, b.slots);
    var metas := if drain then Metas(b.deferred) else [];
    var ds := if drain then b.deferred else [];
    RenderMetas(ctx, b.deferred);
    RenderEvent(ctx, frame);
    RenderSum(ctx, f.out, metas);
    RenderSum(ctx, f.out + metas, [Event(frame)]);
    assert Render(ctx, metas) == ds;
    forall q: seq<string>
      ensures q + ((Render(ctx, f.out) + ds) + [frame]) == ((q + Render(ctx, f.out)) + ds) + [frame]
    {
      Assoc(q, Render(ctx, f.out) + ds, [frame]);
      Assoc(q, Render(ctx, f.out), ds);
    }
  }

  lemma FlushNone(entries: seq<Entry>, window: nat, scope: Scope)
    ensures FlushSlots(entries, window, scope, []) == Flushed([], [])
  {}

  /** What the flush of buffer `i` adds to what the flush of the buffers before it did. */
  lemma FlushLoopStep(ctx: Ctx, window: nat, scope: Scope, slots: seq<Slot>, i: nat, q: seq<string>)
    requires i < |slots|
    ensures var f := FlushSlots(ctx.entries, window, scope, slots[..i]);
            var g := FlushSlots(ctx.entries, window, scope, slots[..i + 1]);
            var acc := f.slots + slots[i..];
            var run := FlushText(ctx.entries, window, slots[i].text);
            && |acc| == |slots| && acc[i] == slots[i]
            && (if slots[i].text != "" && Covers(scope, slots[i].key) then
                  && g.slots + slots[i + 1..] == acc[i := Slot(slots[i].key, run.held)]
                  && q + Render(ctx, g.out)
                     == (q + Render(ctx, f.out)) + Render(ctx, Releases(slots[i].key, run.released))
                  && Restorable(ctx, g.out)
                     == (Restorable(ctx, f.out) && Restorable(ctx, Releases(slots[i].key, run.released)))
                else
                  && g.slots + slots[i + 1..] == acc
                  && Restorable(ctx, g.out) == Restorable(ctx, f.out)
                  && q + Render(ctx, g.out) == q + Render(ctx, f.out))
  {
    hide FlushText, Covers, FlushSlots, Render, Releases, Restorable;
    var f := FlushSlots(ctx.entries, window, scope, slots[..i]);
    var one := FlushSlots(ctx.entries, window, scope, [slots[i]]);
    assert slots[..i + 1] == slots[..i] + [slots[i]];
    FlushPush(ctx.entries, window, scope, slots[..i], slots[i]);
    FlushOne(ctx, window, scope, slots[i]);
    FlushSorted(ctx.entries, window, scope, slots[..i]);
    LoopSlots(slots, i, f.slots, one.slots[0]);
    LoopQueue(ctx, q, f.out, one.out);
    RestorableSum(ctx, f.out, one.out);
    assert f.out + [] == f.out;
  }

  lemma LoopSlots(slots: seq<Slot>, i: nat, done: seq<Slot>, y: Slot)
    requires i < |slots| && |done| == i
    ensures (done + slots[i..])[i] == slots[i]
    ensures (done + [y]) + slots[i + 1..] == (done + slots[i..])[i := y]
  {
    assert slots[i..] == [slots[i]] + slots[i + 1..];
  }

  lemma LoopQueue(ctx: Ctx, q: seq<string>, a: seq<Emission>, b: seq<Emission>)
    ensures q + Render(ctx, a + b) == (q + Render(ctx, a)) + Render(ctx, b)
    ensures Render(ctx, a + []) == Render(ctx, a)
  {
    hide Render;
    RenderSum(ctx, a, b);
    Assoc(q, Render(ctx, a), Render(ctx, b));
    assert a + [] == a;
  }

  lemma {:induction false} FlushPush(entries: seq<Entry>, window: nat, scope: Scope, slots: seq<Slot>, s: Slot)
    ensures var f := FlushSlots(entries, window, scope, slots);
            var one := FlushSlots(entries, window, scope, [s]);
            FlushSlots(entries, window, scope, slots + [s]) == Flushed(f.slots + one.slots, f.out + one.out)
  {
    hide FlushText, Covers;
    var one := FlushSlots(entries, window, scope, [s]);
    if slots == [] {
      assert slots + [s] == [s];
      assert [] + one.slots == one.slots && [] + one.out == one.out;
    } else {
      FlushPush(entries, window, scope, slots[1..], s);
      assert (slots + [s])[1..] == slots[1..] + [s];
      var rest := FlushSlots(entries, window, scope, slots[1..]);
      var run := FlushText(entries, window, slots[0].text);
      var head := if Covers(scope, slots[0].key) then [Slot(slots[0].key, run.held)] else [slots[0]];
      var out := if Covers(scope, slots[0].key) then Releases(slots[0].key, run.released) else [];
      Assoc(head, rest.slots, one.slots);
      Assoc(out, rest.out, one.out);
      assert [] + rest.out == rest.out && [] + (rest.out + one.out) == rest.out + one.out;
    }
  }

  lemma FlushOne(ctx: Ctx, window: nat, scope: Scope, s: Slot)
    ensures var one := FlushSlots(ctx.entries, window, scope, [s]);
            var run := FlushText(ctx.entries, window, s.text);
            if s.text != "" && Covers(scope, s.key)
            then one.slots == [Slot(s.key, run.held)] && one.out == Releases(s.key, run.released)
            else one.slots == [s] && one.out == []
  {
    hide FlushText, Covers;
    assert [s][1..] == [];
    FlushNone(ctx.entries, window, scope);
    FlushEmpty(ctx.entries, window);
    var run := FlushText(ctx.entries, window, s.text);
    assert Releases(s.key, run.released) + [] == Releases(s.key, run.released);
    assert [Slot(s.key, run.held)] + [] == [Slot(s.key, run.held)] && [s] + [] == [s];
  }

  lemma AppendNext(slots: seq<Slot>, fields: seq<Field>)
    requires fields != []
    ensures AppendAll(slots, fields) == AppendAll(Append(slots, fields[0].key, fields[0].text), fields[1..])
  {}

  lemma AppendNothing(slots: seq<Slot>, fields: seq<Field>)
    requires fields == []
    ensures AppendAll(slots, fields) == slots
  {}

  lemma NextFrame(ctx: Ctx, b: Buffers, tail: string)
    requires SseFrames.FrameLen(tail) > 0
    ensures var n := SseFrames.FrameLen(tail);
            var step := StepFrame(ctx, b, tail[..n]);
            var rest := RunFrames(ctx, step.after, SseFrames.Frames(tail[n..]));
            && RunFrames(ctx, b, SseFrames.Frames(tail)) == Step(rest.after, step.out + rest.out)
            && SseFrames.Rest(tail) == SseFrames.Rest(tail[n..])
  {
    hide StepFrame, SseFrames.FrameLen;
    var n := SseFrames.FrameLen(tail);
    assert ([tail[..n]] + SseFrames.Frames(tail[n..]))[1..] == SseFrames.Frames(tail[n..]);
  }

  lemma NoNextFrame(ctx: Ctx, b: Buffers, tail: string)
    requires SseFrames.FrameLen(tail) == 0
    ensures RunFrames(ctx, b, SseFrames.Frames(tail)) == Step(b, []) && SseFrames.Rest(tail) == tail
  {}

  lemma RenderFinish(ctx: Ctx, b: Buffers)
    ensures Render(ctx, Finish(ctx, b).out)
            == Render(ctx, FlushSlots(ctx.entries, 0, Stream, b.slots).out) + b.deferred
    ensures Restorable(ctx, Finish(ctx, b).out) == Restorable(ctx, FlushSlots(ctx.entries, 0, Stream, b.slots).out)
  {
    hide FlushSlots, Restorable;
    MetasAreMetas(b.deferred);
    NoReleaseIsRestorable(ctx, Metas(b.deferred));
    RestorableSum(ctx, FlushSlots(ctx.entries, 0, Stream, b.slots).out, Metas(b.deferred));
    RenderSum(ctx, FlushSlots(ctx.entries, 0, Stream, b.slots).out, Metas(b.deferred));
    RenderMetas(ctx, b.deferred);
  }

  /** Parsing the kept bytes gave something: that comes out first, and then it is tried again. */
  lemma SettleAgain(ctx: Ctx, s: Core, inner: seq<Input>)
    requires s.fragment != "" && TakeChunk(ctx, s, "").ok && TakeChunk(ctx, s, "").queue != []
    ensures var t := TakeChunk(ctx, s, "");
            StreamItems(ctx, s, inner) == Items(t.queue) + StreamItems(ctx, t.core, inner)
  {
    hide TakeChunk, AfterSettle;
    var t := TakeChunk(ctx, s, "");
    TakeShrinks(ctx, s);
    var rest := Settle(ctx, t.core);
    assert Settle(ctx, s) == Taken(rest.core, t.queue + rest.queue, rest.ok);
    ItemsSum(t.queue, rest.queue);
    Assoc(Items(t.queue), Items(rest.queue), if rest.ok then AfterSettle(ctx, rest.core, inner) else [Failed(NOT_UTF8)]);
  }

  /** Parsing the kept bytes failed. */
  lemma SettleFails(ctx: Ctx, s: Core, inner: seq<Input>)
    requires s.fragment != "" && !TakeChunk(ctx, s, "").ok
    ensures StreamItems(ctx, s, inner) == [Failed(NOT_UTF8)]
  {
    hide AfterSettle, TakeChunk;
    assert Items([]) + [Failed(NOT_UTF8)] == [Failed(NOT_UTF8)];
  }

  /** Parsing the kept bytes gave nothing: now the input is looked at. */
  lemma SettledStream(ctx: Ctx, s: Core, inner: seq<Input>)
    requires s.fragment == "" || (TakeChunk(ctx, s, "").ok && TakeChunk(ctx, s, "").queue == [])
    ensures StreamItems(ctx, s, inner)
            == AfterSettle(ctx, if s.fragment == "" then s else TakeChunk(ctx, s, "").core, inner)
  {
    hide AfterSettle, TakeChunk;
    var t := Settle(ctx, s);
    assert [] + AfterSettle(ctx, t.core, inner) == AfterSettle(ctx, t.core, inner);
  }
}
