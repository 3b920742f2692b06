/** Properties of whole runs of frames. */
module SseRuns {
  import opened Common
  import opened Fakes
  import opened SlidingWindow
  import opened FieldStream
  import opened SseFields
  import opened SseMachine
  import Json
  import SseEvents
  import Utf8

  // ------------------------------------------------------------------- operations without text

  /** The operations of a field without the empty pieces of text. */
  function Essential(ops: seq<FieldOp>): seq<FieldOp> {
    if ops == [] then []
    else (if ops[0] == Text("") then [] else [ops[0]]) + Essential(ops[1..])
  }

  ghost predicate Idle(entries: seq<Entry>, held: string) {
    CutPoint(entries, MaxFakeLen(entries), held) == 0
  }

  lemma StepLeavesIdle(entries: seq<Entry>, held: string, op: FieldOp)
    requires Headed(entries)
    ensures Idle(entries, FieldStep(entries, held, op).held)
  {
    hide CutPoint;
    match op
    case Text(piece) =>
      var text := held + piece;
      SecondFlushIsIdle(entries, MaxFakeLen(entries), text);
    case Complete =>
      CompleteEmpties(entries, held);
      EmptyIsIdle(entries);
  }

  lemma EmptyIsIdle(entries: seq<Entry>)
    ensures Idle(entries, "")
  {}

  /** A flush that comes with no new text for the field does nothing. */
  lemma {:induction false} EmptyPiecesDoNothing(entries: seq<Entry>, held: string, ops: seq<FieldOp>)
    requires Headed(entries) && Idle(entries, held)
    ensures RunField(entries, held, ops) == RunField(entries, held, Essential(ops))
    decreases |ops|
  {
    hide FieldStep, Idle, Headed;
    if ops != [] {
      var first := FieldStep(entries, held, ops[0]);
      StepLeavesIdle(entries, held, ops[0]);
      if ops[0] == Text("") {
        IdleStep(entries, held);
        EmptyPiecesDoNothing(entries, held, ops[1..]);
        assert [] + Essential(ops[1..]) == Essential(ops[1..]);
        assert [] + RunField(entries, held, ops[1..]).released == RunField(entries, held, ops[1..]).released;
      } else {
        EmptyPiecesDoNothing(entries, first.held, ops[1..]);
        assert ([ops[0]] + Essential(ops[1..]))[1..] == Essential(ops[1..]);
      }
    }
  }

  lemma IdleStep(entries: seq<Entry>, held: string)
    requires Idle(entries, held)
    ensures FieldStep(entries, held, Text("")) == FieldRun([], held)
  {
    hide CutPoint;
    assert held + "" == held;
  }

  /** What the client gets of one field depends on that field's own text and on the complete
      flushes that reach it, and on nothing else in the response. */
  lemma NonInterference(ctx: Ctx, frames: seq<string>, others: seq<string>, k: FieldKey)
    requires Headed(ctx.entries)
    requires Essential(KeyOps(ctx, frames, k)) == Essential(KeyOps(ctx, others, k))
    ensures ReleasedFor(RunFrames(ctx, EMPTY, frames).out, k) == ReleasedFor(RunFrames(ctx, EMPTY, others).out, k)
    ensures Held(RunFrames(ctx, EMPTY, frames).after.slots, k) == Held(RunFrames(ctx, EMPTY, others).after.slots, k)
  {
    hide RunFrames, KeyOps, RunField, Idle;
    RunFor(ctx, EMPTY, frames, k);
    RunFor(ctx, EMPTY, others, k);
    EmptyIsIdle(ctx.entries);
    EmptyPiecesDoNothing(ctx.entries, "", KeyOps(ctx, frames, k));
    EmptyPiecesDoNothing(ctx.entries, "", KeyOps(ctx, others, k));
  }

  // ------------------------------------------------------------------------------ conservation

  /** The text of field `k` that these frames bring. */
  function TextOf(ctx: Ctx, frames: seq<string>, k: FieldKey): string {
    Received(KeyOps(ctx, frames, k))
  }

  /** Whatever the fakes are: what was released and what is held make up what was received. */
  lemma TextConserved(ctx: Ctx, frames: seq<string>, k: FieldKey)
    ensures var s := RunFrames(ctx, EMPTY, frames);
            Concat(ReleasedFor(s.out, k)) + Held(s.after.slots, k) == TextOf(ctx, frames, k)
  {
    hide RunFrames, KeyOps, RunField, Concat;
    RunFor(ctx, EMPTY, frames, k);
    NothingLost(ctx.entries, "", KeyOps(ctx, frames, k));
    assert "" + TextOf(ctx, frames, k) == TextOf(ctx, frames, k);
  }

  /** The frames that carry no text. */
  function ContentFree(ctx: Ctx, frames: seq<string>): seq<string> {
    if frames == [] then []
    else (if Classify(ctx, frames[0]).Content? then [] else [frames[0]]) + ContentFree(ctx, frames[1..])
  }

  /** The metadata that the frames bring. */
  function Deferrals(ctx: Ctx, frames: seq<string>): seq<string> {
    if frames == [] then []
    else (match Classify(ctx, frames[0]) case Content(_, meta) => meta case _ => []) + Deferrals(ctx, frames[1..])
  }

  function EventsOf(out: seq<Emission>): seq<string> {
    if out == [] then [] else (if out[0].Event? then [out[0].bytes] else []) + EventsOf(out[1..])
  }

  function MetasOf(out: seq<Emission>): seq<string> {
    if out == [] then [] else (if out[0].Meta? then [out[0].frame] else []) + MetasOf(out[1..])
  }

  lemma {:induction false} EventsSum(a: seq<Emission>, b: seq<Emission>)
    ensures EventsOf(a + b) == EventsOf(a) + EventsOf(b)
    ensures MetasOf(a + b) == MetasOf(a) + MetasOf(b)
  {
    if a == [] {
      assert a + b == b;
    } else {
      EventsSum(a[1..], b);
      assert (a + b)[1..] == a[1..] + b;
      Assoc(if a[0].Event? then [a[0].bytes] else [], EventsOf(a[1..]), EventsOf(b));
      Assoc(if a[0].Meta? then [a[0].frame] else [], MetasOf(a[1..]), MetasOf(b));
    }
  }

  lemma {:induction false} OnlyReleases(out: seq<Emission>)
    requires forall e :: e in out ==> e.Release?
    ensures EventsOf(out) == [] && MetasOf(out) == []
  {
    if out != [] {
      assert out[0] in out;
      OnlyReleases(out[1..]);
    }
  }

  lemma {:induction false} OnlyMetas(frames: seq<string>)
    ensures EventsOf(Metas(frames)) == [] && MetasOf(Metas(frames)) == frames
  {
    if frames != [] {
      OnlyMetas(frames[1..]);
      assert Metas(frames)[1..] == Metas(frames[1..]);
      assert frames == [frames[0]] + frames[1..];
    }
  }

  lemma {:induction false} FlushReleases(entries: seq<Entry>, window: nat, scope: Scope, slots: seq<Slot>)
    ensures forall e :: e in FlushSlots(entries, window, scope, slots).out ==> e.Release? && Covers(scope, e.key)
  {
    hide FlushText, Covers;
    if slots != [] {
      FlushReleases(entries, window, scope, slots[1..]);
      ReleasesShape(slots[0].key, FlushText(entries, window, slots[0].text).released);
    }
  }

  lemma {:induction false} ReleasesShape(k: FieldKey, raws: seq<string>)
    ensures forall e :: e in Releases(k, raws) ==> e.Release? && e.key == k
  {
    if raws != [] { ReleasesShape(k, raws[1..]); }
  }

  lemma ApplyFrames(ctx: Ctx, b: Buffers, frame: string, effect: Effect)
    ensures var s := Apply(ctx, b, frame, effect);
            && EventsOf(s.out) == (if effect.Content? then [] else [frame])
            && MetasOf(s.out) + s.after.deferred
               == b.deferred + (match effect case Content(_, meta) => meta case _ => [])
  {
    hide FlushSlots, AppendAll;
    var d := b.deferred;
    match effect {
      case Pass => assert [] + d == d == d + [];
      case Stop(scope, drain) =>
        var f := FlushSlots(ctx.entries, 0, scope, b.slots);
        FlushReleases(ctx.entries, 0, scope, b.slots);
        OnlyReleases(f.out);
        OnlyMetas(d);
        EventsSum(f.out, if drain then Metas(d) else []);
        EventsSum(f.out + (if drain then Metas(d) else []), [Event(frame)]);
        assert [] + d == d == d + [];
      case Content(fields, meta) =>
        FlushReleases(ctx.entries, MaxFakeLen(ctx.entries), Stream, AppendAll(b.slots, fields));
        OnlyReleases(Apply(ctx, b, frame, effect).out);
        assert [] + (d + meta) == d + meta;
    }
  }

  /** Frames without text come out once each, unchanged and in order; metadata comes out once
      each in order, as far as it is not still waiting. */
  lemma {:induction false} FramesConserved(ctx: Ctx, b: Buffers, frames: seq<string>)
    ensures var s := RunFrames(ctx, b, frames);
            && EventsOf(s.out) == ContentFree(ctx, frames)
            && MetasOf(s.out) + s.after.deferred == b.deferred + Deferrals(ctx, frames)
    decreases |frames|
  {
    hide Apply, Classify;
    if frames == [] {
      assert [] + b.deferred == b.deferred == b.deferred + [];
    } else {
      var effect := Classify(ctx, frames[0]);
      var first := Apply(ctx, b, frames[0], effect);
      var rest := RunFrames(ctx, first.after, frames[1..]);
      ApplyFrames(ctx, b, frames[0], effect);
      FramesConserved(ctx, first.after, frames[1..]);
      EventsSum(first.out, rest.out);
      var m := match effect case Content(_, meta) => meta case _ => [];
      Assoc(MetasOf(first.out), MetasOf(rest.out), rest.after.deferred);
      Assoc(MetasOf(first.out), first.after.deferred, Deferrals(ctx, frames[1..]));
      Assoc(b.deferred, m, Deferrals(ctx, frames[1..]));
    }
  }

  /** End of input leaves nothing behind. */
  lemma FinishConserves(ctx: Ctx, b: Buffers, k: FieldKey)
    requires Sorted(b.slots)
    ensures var s := Finish(ctx, b);
            && s.after.deferred == [] && MetasOf(s.out) == b.deferred && EventsOf(s.out) == []
            && Held(s.after.slots, k) == "" && ReleasedFor(s.out, k) == FieldStep(ctx.entries, Held(b.slots, k), Complete).released
            && Concat(ReleasedFor(s.out, k)) == Held(b.slots, k)
  {
    hide FlushSlots, FlushText, Sorted, Concat;
    var f := FlushSlots(ctx.entries, 0, Stream, b.slots);
    FlushReleases(ctx.entries, 0, Stream, b.slots);
    OnlyReleases(f.out);
    OnlyMetas(b.deferred);
    EventsSum(f.out, Metas(b.deferred));
    assert [] + b.deferred == b.deferred;
    FlushFor(ctx.entries, 0, Stream, b.slots, k);
    CompleteEmpties(ctx.entries, Held(b.slots, k));
    MetasAreMetas(b.deferred);
    NoReleases(Metas(b.deferred), k);
    ReleasedForSum(f.out, Metas(b.deferred), k);
    assert ReleasedFor(f.out, k) + [] == ReleasedFor(f.out, k);
    ConcatOne(Held(b.slots, k));
    ConcatNone<char>();
  }

  // ------------------------------------------------------------------------ ordering at the end

  /** In `s`, `last` goes out after everything that came before it: what precedes it in the output
      makes up `text`, and no buffer holds any.  If it drains the metadata, all of that has gone out as
      well, and what was still deferred comes after all of the text, right before `last`. */
  ghost predicate ComesLast(s: Step, last: string, text: string, drain: bool, deferred: seq<string>, metas: seq<string>,
                            k: FieldKey)
  {
    && s.out != [] && s.out[|s.out| - 1] == Event(last)
    && Held(s.after.slots, k) == ""
    && var before := s.out[..|s.out| - 1];
    && Concat(ReleasedFor(before, k)) == text
    && (drain ==>
          && s.after.deferred == [] && MetasOf(before) == metas
          && |deferred| <= |before|
          && var front := before[..|before| - |deferred|];
          && before == front + Metas(deferred)
          && Concat(ReleasedFor(front, k)) == text)
  }

  ghost predicate EndsStream(ctx: Ctx, frames: seq<string>, last: string, drain: bool, k: FieldKey) {
    ComesLast(RunFrames(ctx, EMPTY, frames + [last]), last, TextOf(ctx, frames, k), drain,
              RunFrames(ctx, EMPTY, frames).after.deferred, Deferrals(ctx, frames), k)
  }

  /** Before a frame that ends the stream goes out, all text that came before has gone out. */
  lemma TerminalOrdering(ctx: Ctx, frames: seq<string>, last: string, k: FieldKey)
    requires Classify(ctx, last).Stop? && Classify(ctx, last).scope == Stream
    ensures EndsStream(ctx, frames, last, Classify(ctx, last).drain, k)
  {
    hide RunFrames, Classify, KeyOps, RunField, Concat, StepFrame, ComesLast;
    var r := RunFrames(ctx, EMPTY, frames);
    RunConcat(ctx, EMPTY, frames, [last]);
    RunOne(ctx, r.after, last);
    RunFor(ctx, EMPTY, frames, k);
    TextConserved(ctx, frames, k);
    StopIsLast(ctx, r.after, last, k);
    FramesConserved(ctx, EMPTY, frames);
    assert [] + Deferrals(ctx, frames) == Deferrals(ctx, frames);
    StillLast(r.out, StepFrame(ctx, r.after, last), last, Held(r.after.slots, k), Classify(ctx, last).drain,
              r.after.deferred, r.after.deferred, k);
  }

  lemma StillLast(out: seq<Emission>, t: Step, last: string, text: string, drain: bool, deferred: seq<string>,
                  metas: seq<string>, k: FieldKey)
    requires ComesLast(t, last, text, drain, deferred, metas, k)
    ensures ComesLast(Step(t.after, out + t.out), last, Concat(ReleasedFor(out, k)) + text, drain, deferred,
                      MetasOf(out) + metas, k)
  {
    hide ReleasedFor, Held, MetasOf, Concat, Metas;
    var before := t.out[..|t.out| - 1];
    assert (out + t.out)[..|out + t.out| - 1] == out + before;
    ReleasedForSum(out, before, k);
    ConcatSum(ReleasedFor(out, k), ReleasedFor(before, k));
    EventsSum(out, before);
    if drain {
      var front := before[..|before| - |deferred|];
      Assoc(out, front, Metas(deferred));
      FrontOf(out + before, out + front, Metas(deferred));
      MetasAreMetas(deferred);
      ReleasedForSum(out, front, k);
      ConcatSum(ReleasedFor(out, k), ReleasedFor(front, k));
    }
  }

  lemma FrontOf<T>(all: seq<T>, front: seq<T>, end: seq<T>)
    requires all == front + end
    ensures all[..|all| - |end|] == front
  {}

  lemma StopIsLast(ctx: Ctx, b: Buffers, last: string, k: FieldKey)
    requires Sorted(b.slots) && Classify(ctx, last).Stop? && Classify(ctx, last).scope == Stream
    ensures ComesLast(StepFrame(ctx, b, last), last, Held(b.slots, k), Classify(ctx, last).drain, b.deferred, b.deferred, k)
  {
    hide Classify, FlushSlots, Sorted, Concat, FlushText, ReleasedFor, Held, Metas, StepFrame, ComesLast;
    var f := FlushSlots(ctx.entries, 0, Stream, b.slots);
    StopStep(ctx, b, last);
    FlushFor(ctx.entries, 0, Stream, b.slots, k);
    CompleteEmpties(ctx.entries, Held(b.slots, k));
    ConcatOne(Held(b.slots, k));
    ConcatNone<char>();
    FlushReleases(ctx.entries, 0, Stream, b.slots);
    PutLast(StepFrame(ctx, b, last).after, f.out, last, Classify(ctx, last).drain, b.deferred, k);
  }

  /** Released text, then perhaps metadata, then the last frame. */
  lemma PutLast(after: Buffers, front: seq<Emission>, last: string, drain: bool, deferred: seq<string>, k: FieldKey)
    requires Held(after.slots, k) == "" && (drain ==> after.deferred == []) && forall e :: e in front ==> e.Release?
    ensures ComesLast(Step(after, front + (if drain then Metas(deferred) else []) + [Event(last)]), last,
                      Concat(ReleasedFor(front, k)), drain, deferred, deferred, k)
  {
    hide Concat, ReleasedFor, Held, MetasOf, EventsOf, Metas;
    var metas := if drain then Metas(deferred) else [];
    FrontOf(front + metas + [Event(last)], front + metas, [Event(last)]);
    FrontOf(front + metas, front, metas);
    MetasAreMetas(deferred);
    OnlyMetas(deferred);
    MetasAfter(front, metas, k);
  }

  lemma MetasAfter(front: seq<Emission>, metas: seq<Emission>, k: FieldKey)
    requires (forall e :: e in front ==> e.Release?) && (forall e :: e in metas ==> e.Meta?)
    ensures ReleasedFor(front + metas, k) == ReleasedFor(front, k) && MetasOf(front + metas) == MetasOf(metas)
  {
    hide ReleasedFor, MetasOf, EventsOf;
    NoReleases(metas, k);
    ReleasedForSum(front, metas, k);
    NothingMore(ReleasedFor(front, k));
    OnlyReleases(front);
    EventsSum(front, metas);
    assert [] + MetasOf(metas) == MetasOf(metas);
  }

  lemma StopStep(ctx: Ctx, b: Buffers, last: string)
    requires Classify(ctx, last).Stop? && Classify(ctx, last).scope == Stream
    ensures var drain := Classify(ctx, last).drain;
            var f := FlushSlots(ctx.entries, 0, Stream, b.slots);
            StepFrame(ctx, b, last)
            == Step(Buffers(f.slots, if drain then [] else b.deferred),
                    f.out + (if drain then Metas(b.deferred) else []) + [Event(last)])
  {
    hide Classify, FlushSlots, Metas;
  }

  /** `[DONE]` ends the stream under OpenAI and OpenRouter, although it is no JSON; elsewhere it is
      passed on like any other frame, and nothing goes out with it. */
  lemma DoneEndsStream(ctx: Ctx, frames: seq<string>, last: string, k: FieldKey)
    requires var data := SseEvents.DataContent(SseEvents.Lines(last));
             data.Some? && ctx.codec.parse(data.value).None? && SseEvents.IsDone(data.value)
    ensures if ctx.provider.OpenAi? || ctx.provider.OpenRouter? then EndsStream(ctx, frames, last, false, k)
            else
              var r := RunFrames(ctx, EMPTY, frames);
              RunFrames(ctx, EMPTY, frames + [last]) == Step(r.after, r.out + [Event(last)])
  {
    hide SseEvents.Lines, SseEvents.DataContent, SseEvents.IsDone, EndsStream, RunFrames;
    if ctx.provider.OpenAi? || ctx.provider.OpenRouter? {
      TerminalOrdering(ctx, frames, last, k);
    } else {
      RunConcat(ctx, EMPTY, frames, [last]);
      RunOne(ctx, RunFrames(ctx, EMPTY, frames).after, last);
    }
  }

  // ----------------------------------------------------------------------------- one block ends

  /** Releases come in increasing order of their keys, at most one for each key. */
  ghost predicate InKeyOrder(out: seq<Emission>) {
    forall i, j :: 0 <= i < j < |out| && out[i].Release? && out[j].Release? ==> KeyLess(out[i].key, out[j].key)
  }

  ghost predicate HasKey(slots: seq<Slot>, k: FieldKey) {
    exists s :: s in slots && s.key == k
  }

  lemma {:induction false} FlushInKeyOrder(entries: seq<Entry>, window: nat, scope: Scope, slots: seq<Slot>)
    requires Sorted(slots)
    ensures InKeyOrder(FlushSlots(entries, window, scope, slots).out)
    ensures forall e :: e in FlushSlots(entries, window, scope, slots).out ==> e.Release? && HasKey(slots, e.key)
  {
    hide KeyLess, Covers, Sorted, CutPoint;
    if slots != [] {
      SortedTail(slots);
      var s, t := slots[0], slots[1..];
      var rest := FlushSlots(entries, window, scope, t);
      FlushInKeyOrder(entries, window, scope, t);
      var head := if Covers(scope, s.key) then Releases(s.key, FlushText(entries, window, s.text).released) else [];
      assert FlushSlots(entries, window, scope, slots).out == head + rest.out;
      ReleasesShape(s.key, FlushText(entries, window, s.text).released);
      AtMostOne(entries, window, s);
      assert forall e :: e in head ==> e.key == s.key && s in slots;
      KeyOrderCons(head, rest.out, s.key);
    }
  }

  lemma AtMostOne(entries: seq<Entry>, window: nat, s: Slot)
    ensures |Releases(s.key, FlushText(entries, window, s.text).released)| <= 1
  {
    hide CutPoint;
    var r := FlushText(entries, window, s.text).released;
    assert |r| == 1 ==> r[1..] == [];
  }

  lemma KeyOrderCons(head: seq<Emission>, rest: seq<Emission>, k: FieldKey)
    requires |head| <= 1 && InKeyOrder(rest) && (forall e :: e in head ==> e.Release? && e.key == k)
    requires forall e :: e in rest ==> e.Release? && KeyLess(k, e.key)
    ensures InKeyOrder(head + rest)
  {
    hide KeyLess;
    var out := head + rest;
    forall i, j | 0 <= i < j < |out| && out[i].Release? && out[j].Release? ensures KeyLess(out[i].key, out[j].key) {
      if i < |head| {
        assert out[i] in head && out[j] == rest[j - |head|] && out[j] in rest;
      } else {
        assert out[i] == rest[i - |head|] && out[j] == rest[j - |head|];
      }
    }
  }

  /** The event that this frame carries, if its data is JSON. */
  function EventOf(ctx: Ctx, frame: string): Option<Json.Value> {
    match SseEvents.DataContent(SseEvents.Lines(frame))
    case Some(data) => ctx.codec.parse(data)
    case None => None
  }

  /** The stop of block `n` empties the buffers of that block, of every kind of delta; every other
      buffer keeps its text; the text goes out before the stop, in the order of the keys.  A stop that
      names no block ends the stream. */
  lemma BlockIsolation(ctx: Ctx, frames: seq<string>, stop: string, json: Json.Value, k: FieldKey)
    requires ctx.provider.Anthropic? && EventOf(ctx, stop) == Some(json)
    requires Json.AsString(Json.Get(json, "type")) == Some("content_block_stop")
    ensures match Json.AsNatural(Json.Get(json, "index"))
            case Some(n) => EndsBlock(ctx, frames, stop, n, k)
            case None => EndsStream(ctx, frames, stop, false, k)
  {
    hide SseEvents.Lines, SseEvents.DataContent, Json.Find, RunFrames, EndsStream, BlockEnds, StepFrame, Sorted;
    match Json.AsNatural(Json.Get(json, "index")) {
      case Some(n) =>
        RunConcat(ctx, EMPTY, frames, [stop]);
        RunOne(ctx, RunFrames(ctx, EMPTY, frames).after, stop);
        NoSlots();
        RunFor(ctx, EMPTY, frames, k);
        StopOfBlock(ctx, RunFrames(ctx, EMPTY, frames), stop, n, k);
      case None =>
        TerminalOrdering(ctx, frames, stop, k);
    }
  }

  /** From `r` to `s`, block `n` ends with the frame `stop`. */
  ghost predicate BlockEnds(r: Step, s: Step, stop: string, n: nat, k: FieldKey) {
    var mine := k.AnthropicDelta? && k.index == n;
    && Held(s.after.slots, k) == (if mine then "" else Held(r.after.slots, k))
    && s.after.deferred == r.after.deferred
    && |s.out| > |r.out| && r.out <= s.out && s.out[|s.out| - 1] == Event(stop)
    && var between := s.out[|r.out|..|s.out| - 1];
    && (forall e :: e in between ==> e.Release? && e.key.AnthropicDelta? && e.key.index == n)
    && InKeyOrder(between)
    && Concat(ReleasedFor(between, k)) == (if mine then Held(r.after.slots, k) else "")
  }

  lemma NoSlots()
    ensures Sorted([])
  {}

  ghost predicate EndsBlock(ctx: Ctx, frames: seq<string>, stop: string, n: nat, k: FieldKey) {
    BlockEnds(RunFrames(ctx, EMPTY, frames), RunFrames(ctx, EMPTY, frames + [stop]), stop, n, k)
  }

  lemma StopOfBlock(ctx: Ctx, r: Step, stop: string, n: nat, k: FieldKey)
    requires Sorted(r.after.slots) && Classify(ctx, stop) == Stop(Block(n), false)
    ensures var t := StepFrame(ctx, r.after, stop); BlockEnds(r, Step(t.after, r.out + t.out), stop, n, k)
  {
    hide Classify, FlushSlots, Sorted, Concat, FlushText, InKeyOrder, After, ReleasedFor, Held;
    var b := r.after;
    var f := FlushSlots(ctx.entries, 0, Block(n), b.slots);
    assert f.out + [] == f.out;
    FlushReleases(ctx.entries, 0, Block(n), b.slots);
    FlushInKeyOrder(ctx.entries, 0, Block(n), b.slots);
    FlushFor(ctx.entries, 0, Block(n), b.slots, k);
    CompleteEmpties(ctx.entries, Held(b.slots, k));
    ConcatOne(Held(b.slots, k));
    ConcatNone<char>();
    Between(r.out, f.out, Event(stop));
  }

  lemma Between<T>(a: seq<T>, b: seq<T>, c: T)
    ensures var s := a + (b + [c]);
            a <= s && s[|s| - 1] == c && s[|a|..|s| - 1] == b
  {}

  // ------------------------------------------------------------------------ what the client sees

  /** All text in frames is UTF-8, because parsing yields nothing else. */
  lemma {:induction false} OpsUtf8(ctx: Ctx, frames: seq<string>, k: FieldKey)
    requires Json.Faithful(ctx.codec)
    ensures AllUtf8(KeyOps(ctx, frames, k))
  {
    hide Classify, Utf8.Valid, KeyOp;
    if frames != [] {
      OpUtf8(ctx, frames[0], k);
      OpsUtf8(ctx, frames[1..], k);
    }
  }

  lemma OpUtf8(ctx: Ctx, frame: string, k: FieldKey)
    requires Json.Faithful(ctx.codec)
    ensures AllUtf8(KeyOp(Classify(ctx, frame), k))
  {
    hide ExtractFields, ClassifyTerminal, SseEvents.Lines, SseEvents.DataContent, SseEvents.EventType, Utf8.Valid, Extractable;
    var data := SseEvents.DataContent(SseEvents.Lines(frame));
    if data.Some? && ctx.codec.parse(data.value).Some? {
      var json := ctx.codec.parse(data.value).value;
      var event := SseEvents.EventType(SseEvents.Lines(frame));
      ExtractedAreSound(json, ctx.provider, event);
      PieceUtf8(ExtractFields(json, ctx.provider, event), k);
    }
  }

  lemma {:induction false} PieceUtf8(fields: seq<Field>, k: FieldKey)
    requires forall f :: f in fields ==> Utf8.Valid(f.text)
    ensures Utf8.Valid(PieceFor(fields, k))
  {
    hide Utf8.CharLen;
    if fields != [] {
      PieceUtf8(fields[1..], k);
      Utf8.ValidConcat(fields[0].text, PieceFor(fields[1..], k));
      assert "" + PieceFor(fields[1..], k) == PieceFor(fields[1..], k);
    }
  }

  /** Over a whole response the client gets, for every field, each stretch of text up to a complete
      flush or the end, restored as if it had been restored at once. */
  lemma ResponseRestored(ctx: Ctx, frames: seq<string>, k: FieldKey)
    requires WellFormed(ctx.entries) && OverlapFree(ctx.entries) && Json.Faithful(ctx.codec)
    ensures var s := RunFrames(ctx, EMPTY, frames);
            Restored(ctx.entries, ReleasedFor(s.out + Finish(ctx, s.after).out, k))
            == OneShot(ctx.entries, "", KeyOps(ctx, frames, k) + [Complete])
  {
    hide RunFrames, Finish, KeyOps, RunField, OneShot, Restored, WellFormed, OverlapFree, Json.Faithful, AllUtf8;
    WholeRunFor(ctx, frames, k);
    OpsUtf8(ctx, frames, k);
    AllUtf8Push(KeyOps(ctx, frames, k));
    FieldTheorem(ctx.entries, KeyOps(ctx, frames, k) + [Complete]);
  }

  /** Seen from one key, a whole response is a run of that field and a complete flush. */
  lemma WholeRunFor(ctx: Ctx, frames: seq<string>, k: FieldKey)
    ensures var s := RunFrames(ctx, EMPTY, frames);
            ReleasedFor(s.out + Finish(ctx, s.after).out, k)
            == RunField(ctx.entries, "", KeyOps(ctx, frames, k) + [Complete]).released
  {
    hide RunFrames, Finish, KeyOps, RunField, FieldStep;
    var s := RunFrames(ctx, EMPTY, frames);
    var ops := KeyOps(ctx, frames, k);
    RunFor(ctx, EMPTY, frames, k);
    FinishConserves(ctx, s.after, k);
    ReleasedForSum(s.out, Finish(ctx, s.after).out, k);
    RunFieldSum(ctx.entries, "", ops, [Complete]);
    RunOneOp(ctx.entries, RunField(ctx.entries, "", ops).held, Complete);
  }

  lemma AllUtf8Push(ops: seq<FieldOp>)
    requires AllUtf8(ops)
    ensures AllUtf8(ops + [Complete])
  {
    hide Utf8.Valid;
  }

  /** At every moment the client has, of every field, a prefix of what restoring at once yields. */
  lemma AlwaysAPrefix(ctx: Ctx, frames: seq<string>, k: FieldKey)
    requires WellFormed(ctx.entries) && OverlapFree(ctx.entries) && Json.Faithful(ctx.codec)
    ensures var ops := KeyOps(ctx, frames, k);
            Restored(ctx.entries, ReleasedFor(RunFrames(ctx, EMPTY, frames).out, k))
            <= OneShot(ctx.entries, "", ops) + RestoreAll(ctx.entries, Pending("", ops))
  {
    hide RunFrames, KeyOps, RunField, OneShot, Restored, WellFormed, OverlapFree, Json.Faithful, RestoreAll, Pending;
    RunFor(ctx, EMPTY, frames, k);
    OpsUtf8(ctx, frames, k);
    FieldTheorem(ctx.entries, KeyOps(ctx, frames, k));
  }

  // ------------------------------------------------------------------------------ what is held

  lemma {:induction false} HeldStaysGood(entries: seq<Entry>, held: string, ops: seq<FieldOp>)
    requires Headed(entries) && AllUtf8(ops) && Utf8.Valid(held) && Idle(entries, held)
    ensures var h := RunField(entries, held, ops).held; Utf8.Valid(h) && Idle(entries, h)
    decreases |ops|
  {
    hide FieldStep, Utf8.Valid, Idle, Headed;
    if ops != [] {
      StepLeavesIdle(entries, held, ops[0]);
      StepKeepsUtf8(entries, held, ops[0]);
      HeldStaysGood(entries, FieldStep(entries, held, ops[0]).held, ops[1..]);
    }
  }

  lemma StepKeepsUtf8(entries: seq<Entry>, held: string, op: FieldOp)
    requires Utf8.Valid(held) && (op.Text? ==> Utf8.Valid(op.piece))
    ensures Utf8.Valid(FieldStep(entries, held, op).held)
  {
    hide Utf8.Valid, CutPoint;
    match op {
      case Text(piece) =>
        Utf8.ValidConcat(held, piece);
        Utf8.BoundarySplit(held + piece, CutPoint(entries, MaxFakeLen(entries), held + piece));
      case Complete =>
        Utf8.BoundarySplit(held, CutPoint(entries, 0, held));
    }
  }

  /** In every reachable state every buffer holds at most `HoldBound` bytes, and flushing it again
      would release nothing. */
  lemma HoldBoundAlways(ctx: Ctx, frames: seq<string>, k: FieldKey)
    requires Headed(ctx.entries) && Json.Faithful(ctx.codec)
    ensures var held := Held(RunFrames(ctx, EMPTY, frames).after.slots, k);
            && |held| <= HoldBound(MaxFakeLen(ctx.entries))
            && FlushText(ctx.entries, MaxFakeLen(ctx.entries), held) == FieldRun([], held)
  {
    hide RunFrames, KeyOps, RunField, Headed, Json.Faithful, CutPoint;
    var held := Held(RunFrames(ctx, EMPTY, frames).after.slots, k);
    RunFor(ctx, EMPTY, frames, k);
    OpsUtf8(ctx, frames, k);
    EmptyIsIdle(ctx.entries);
    Utf8.AsciiValid("");
    HeldStaysGood(ctx.entries, "", KeyOps(ctx, frames, k));
    HeldIsBounded(ctx.entries, held);
  }

  /** A buffer holds no more than the window after new text exactly if its text was no longer, or if the
      nominal boundary falls between characters and no fake runs into it. */
  lemma WindowKeptIff(entries: seq<Entry>, held: string, piece: string)
    requires MaxFakeLen(entries) > 0
    ensures var text, window := held + piece, MaxFakeLen(entries);
            |RunField(entries, held, [Text(piece)]).held| <= window
            <==> |text| <= window
                 || (Utf8.IsBoundary(text, |text| - window) && !FakeRunsInto(entries, text, |text| - window))
  {
    hide CutPoint, FakeRunsInto, Utf8.IsBoundary;
    RunOneOp(entries, held, Text(piece));
    WithinWindowIff(entries, MaxFakeLen(entries), held + piece);
    var text := held + piece;
    assert text[0..] == text;
  }

  /** The bound is met for every length of the longest fake: one fake that does not overlap itself, and
      one piece of valid text, of which nothing is released. */
  lemma HoldBoundIsReached(n: nat, original: string)
    requires n > 0
    ensures var entries, text := [Entry(TightFake(n), original)], TightText(n);
            && WellFormed(entries) && OverlapFree(entries) && InfixFree(entries) && Utf8.Valid(text)
            && MaxFakeLen(entries) == n
            && RunField(entries, "", [Text(text)]) == FieldRun([], text)
            && |text| == HoldBound(n) > n
  {
    hide CutPoint, WellFormed, OverlapFree, InfixFree, Utf8.Valid, MaxFakeLen, TightText, TightFake;
    var entries, text := [Entry(TightFake(n), original)], TightText(n);
    HoldBoundIsTight(n, original);
    RunOneOp(entries, "", Text(text));
    assert "" + text == text;
  }
}
