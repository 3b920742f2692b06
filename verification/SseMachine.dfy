/** What one frame does to the buffers and to the output, and what whole runs of frames keep. */
module SseMachine {
  import opened Common
  import opened Fakes
  import opened SlidingWindow
  import opened FieldStream
  import opened SseFields
  import Json
  import SseEvents
  import Utf8

  /** What stays the same for a whole response. */
  datatype Ctx = Ctx(entries: seq<Entry>, provider: Provider, codec: Json.Codec)

  /** The accumulation buffer of one key.  The buffers are kept in the order of their keys. */
  datatype Slot = Slot(key: FieldKey, text: string)

  datatype Buffers = Buffers(slots: seq<Slot>, deferred: seq<string>)

  /** What is put into the output: the restored form of raw text released from one buffer,
      metadata that was deferred, or a frame that is passed on. */
  datatype Emission = Release(key: FieldKey, raw: string) | Meta(frame: string) | Event(bytes: string)

  datatype Step = Step(after: Buffers, out: seq<Emission>)

  const EMPTY := Buffers([], [])

  // ------------------------------------------------------------------------------ the buffers

  function Held(slots: seq<Slot>, k: FieldKey): string {
    if slots == [] then "" else if slots[0].key == k then slots[0].text else Held(slots[1..], k)
  }

  /** `entry(key).or_default().push_str(text)` on a sorted map. */
  function Append(slots: seq<Slot>, k: FieldKey, text: string): seq<Slot> {
    if slots == [] then [Slot(k, text)]
    else if slots[0].key == k then [Slot(k, slots[0].text + text)] + slots[1..]
    else if KeyLess(k, slots[0].key) then [Slot(k, text)] + slots
    else [slots[0]] + Append(slots[1..], k, text)
  }

  function AppendAll(slots: seq<Slot>, fields: seq<Field>): seq<Slot>
    decreases |fields|
  {
    if fields == [] then slots else AppendAll(Append(slots, fields[0].key, fields[0].text), fields[1..])
  }

  datatype Flushed = Flushed(slots: seq<Slot>, out: seq<Emission>)

  function FlushSlots(entries: seq<Entry>, window: nat, scope: Scope, slots: seq<Slot>): Flushed {
    if slots == [] then Flushed([], [])
    else
      var rest := FlushSlots(entries, window, scope, slots[1..]);
      if Covers(scope, slots[0].key) then
        var run := FlushText(entries, window, slots[0].text);
        Flushed([Slot(slots[0].key, run.held)] + rest.slots, Releases(slots[0].key, run.released) + rest.out)
      else Flushed([slots[0]] + rest.slots, rest.out)
  }

  function Releases(k: FieldKey, raws: seq<string>): seq<Emission> {
    if raws == [] then [] else [Release(k, raws[0])] + Releases(k, raws[1..])
  }

  // -------------------------------------------------------------------------------- one frame

  /** What a frame is, apart from any state. */
  datatype Effect =
    | Content(fields: seq<Field>, meta: seq<string>)
    | Stop(scope: Scope, drain: bool)
    | Pass

  function Classify(ctx: Ctx, frame: string): Effect {
    var lines := SseEvents.Lines(frame);
    match SseEvents.DataContent(lines)
    case None => Pass
    case Some(data) =>
      match ctx.codec.parse(data)
      case None =>
        if SseEvents.IsDone(data) && (ctx.provider.OpenAi? || ctx.provider.OpenRouter?) then Stop(Stream, false)
        else Pass
      case Some(json) =>
        var event := SseEvents.EventType(lines);
        var fields := ExtractFields(json, ctx.provider, event);
        if fields != [] then Content(fields, DeferredOf(ctx, json))
        else match ClassifyTerminal(json, event, ctx.provider)
          case Some(scope) => Stop(scope, scope.Stream? && ctx.provider.Gemini?)
          case None => Pass
  }

  function DeferredOf(ctx: Ctx, json: Json.Value): seq<string> {
    if !ctx.provider.Gemini? then []
    else match Metadata(json)
      case Some(extra) => [SseEvents.MetadataFrame(ctx.codec, extra)]
      case None => []
  }

  function Apply(ctx: Ctx, b: Buffers, frame: string, effect: Effect): Step {
    match effect
    case Pass => Step(b, [Event(frame)])
    case Stop(scope, drain) =>
      var f := FlushSlots(ctx.entries, 0, scope, b.slots);
      Step(Buffers(f.slots, if drain then [] else b.deferred),
           f.out + (if drain then Metas(b.deferred) else []) + [Event(frame)])
    case Content(fields, meta) =>
      var f := FlushSlots(ctx.entries, MaxFakeLen(ctx.entries), Stream, AppendAll(b.slots, fields));
      Step(Buffers(f.slots, b.deferred + meta), f.out)
  }

  function Metas(frames: seq<string>): seq<Emission> {
    if frames == [] then [] else [Meta(frames[0])] + Metas(frames[1..])
  }

  function StepFrame(ctx: Ctx, b: Buffers, frame: string): Step {
    Apply(ctx, b, frame, Classify(ctx, frame))
  }

  function RunFrames(ctx: Ctx, b: Buffers, frames: seq<string>): Step
    decreases |frames|
  {
    if frames == [] then Step(b, [])
    else
      var first := StepFrame(ctx, b, frames[0]);
      var rest := RunFrames(ctx, first.after, frames[1..]);
      Step(rest.after, first.out + rest.out)
  }

  /** End of input: everything held is released, and the metadata follows. */
  function Finish(ctx: Ctx, b: Buffers): Step {
    var f := FlushSlots(ctx.entries, 0, Stream, b.slots);
    Step(Buffers(f.slots, []), f.out + Metas(b.deferred))
  }

  // ----------------------------------------------------------------------------- output bytes

  function RenderOne(ctx: Ctx, e: Emission): seq<string> {
    match e
    case Release(k, raw) =>
      var restored := RestoreAll(ctx.entries, raw);
      if restored == "" then [] else [SseEvents.SyntheticFrame(ctx.codec, k, restored)]
    case Meta(frame) => [frame]
    case Event(bytes) => [bytes]
  }

  function Render(ctx: Ctx, out: seq<Emission>): seq<string> {
    if out == [] then [] else RenderOne(ctx, out[0]) + Render(ctx, out[1..])
  }

  lemma {:induction false} RenderSum(ctx: Ctx, a: seq<Emission>, b: seq<Emission>)
    ensures Render(ctx, a + b) == Render(ctx, a) + Render(ctx, b)
  {
    hide RenderOne;
    if a == [] {
      assert a + b == b;
    } else {
      RenderSum(ctx, a[1..], b);
      assert (a + b)[1..] == a[1..] + b;
      Assoc(RenderOne(ctx, a[0]), Render(ctx, a[1..]), Render(ctx, b));
    }
  }

  lemma {:induction false} RunConcat(ctx: Ctx, b: Buffers, f1: seq<string>, f2: seq<string>)
    ensures var r1 := RunFrames(ctx, b, f1);
            var r2 := RunFrames(ctx, r1.after, f2);
            RunFrames(ctx, b, f1 + f2) == Step(r2.after, r1.out + r2.out)
    decreases |f1|
  {
    hide StepFrame;
    if f1 == [] {
      assert f1 + f2 == f2;
      assert [] + RunFrames(ctx, b, f2).out == RunFrames(ctx, b, f2).out;
    } else {
      var first := StepFrame(ctx, b, f1[0]);
      RunConcat(ctx, first.after, f1[1..], f2);
      assert (f1 + f2)[1..] == f1[1..] + f2;
      var r1 := RunFrames(ctx, first.after, f1[1..]);
      Assoc(first.out, r1.out, RunFrames(ctx, r1.after, f2).out);
    }
  }

  lemma RunOne(ctx: Ctx, b: Buffers, frame: string)
    ensures RunFrames(ctx, b, [frame]) == StepFrame(ctx, b, frame)
  {
    hide StepFrame;
    var first := StepFrame(ctx, b, frame);
    assert [frame][1..] == [];
    assert first.out + [] == first.out;
  }

  // ------------------------------------------------------------------------- what can go wrong

  /** The restored form of every piece is UTF-8; otherwise the conversion back to a string fails. */
  predicate Restorable(ctx: Ctx, out: seq<Emission>) {
    out == [] || (RestorableOne(ctx, out[0]) && Restorable(ctx, out[1..]))
  }

  predicate RestorableOne(ctx: Ctx, e: Emission) {
    e.Release? ==> Utf8.Valid(RestoreAll(ctx.entries, e.raw))
  }

  lemma {:induction false} RestorableSum(ctx: Ctx, a: seq<Emission>, b: seq<Emission>)
    ensures Restorable(ctx, a + b) == (Restorable(ctx, a) && Restorable(ctx, b))
  {
    hide RestorableOne;
    if a == [] {
      assert a + b == b;
    } else {
      RestorableSum(ctx, a[1..], b);
      assert (a + b)[1..] == a[1..] + b;
    }
  }

  /** Only the releases matter. */
  lemma {:induction false} NoReleaseIsRestorable(ctx: Ctx, out: seq<Emission>)
    requires forall e :: e in out ==> !e.Release?
    ensures Restorable(ctx, out)
  {
    if out != [] { NoReleaseIsRestorable(ctx, out[1..]); }
  }

  // ------------------------------------------------------------------ the buffers stay sorted

  ghost predicate Sorted(slots: seq<Slot>) {
    forall i, j :: 0 <= i < j < |slots| ==> KeyLess(slots[i].key, slots[j].key)
  }

  /** Every key stored in `slots` comes after `k`. */
  ghost predicate After(k: FieldKey, slots: seq<Slot>) {
    forall s :: s in slots ==> KeyLess(k, s.key)
  }

  lemma SortedCons(s: Slot, slots: seq<Slot>)
    ensures Sorted([s] + slots) <==> Sorted(slots) && After(s.key, slots)
  {
    hide KeyLess;
    var all := [s] + slots;
    assert forall i :: 0 <= i < |slots| ==> all[i + 1] == slots[i];
    if Sorted(all) {
      forall i, j | 0 <= i < j < |slots| ensures KeyLess(slots[i].key, slots[j].key) {
        assert all[i + 1] == slots[i] && all[j + 1] == slots[j];
      }
      forall t | t in slots ensures KeyLess(s.key, t.key) {
        var i :| 0 <= i < |slots| && slots[i] == t;
        assert all[0] == s && all[i + 1] == t;
      }
    }
  }

  lemma SortedTail(slots: seq<Slot>)
    requires Sorted(slots) && slots != []
    ensures Sorted(slots[1..]) && After(slots[0].key, slots[1..])
  {
    hide Sorted, After;
    assert slots == [slots[0]] + slots[1..];
    SortedCons(slots[0], slots[1..]);
  }

  lemma {:induction false} HeldAfter(k: FieldKey, slots: seq<Slot>)
    requires After(k, slots)
    ensures Held(slots, k) == ""
  {
    hide KeyLess;
    if slots != [] {
      KeyOrder(k, k);
      assert slots[0] in slots;
      HeldAfter(k, slots[1..]);
    }
  }

  lemma {:induction false} AppendSorted(slots: seq<Slot>, k: FieldKey, text: string)
    requires Sorted(slots)
    ensures Sorted(Append(slots, k, text))
    ensures forall p :: After(p, slots) && KeyLess(p, k) ==> After(p, Append(slots, k, text))
  {
    hide KeyLess;
    if slots == [] {
    } else {
      SortedTail(slots);
      var s, t := slots[0], slots[1..];
      KeyOrder(s.key, k);
      if s.key == k {
        SortedCons(Slot(k, s.text + text), t);
      } else if KeyLess(k, s.key) {
        forall u | u in slots ensures KeyLess(k, u.key) {
          if u != s { KeyTransitive(k, s.key, u.key); }
        }
        SortedCons(Slot(k, text), slots);
      } else {
        AppendSorted(t, k, text);
        SortedCons(s, Append(t, k, text));
      }
    }
  }

  lemma HeldOne(k: FieldKey, text: string, j: FieldKey)
    ensures Held([Slot(k, text)], j) == (if j == k then text else "") && "" + text == text && Held([], j) == ""
  {
    assert [Slot(k, text)][1..] == [];
  }

  lemma {:induction false} AppendHeld(slots: seq<Slot>, k: FieldKey, text: string, j: FieldKey)
    requires Sorted(slots)
    ensures Held(Append(slots, k, text), j) == if j == k then Held(slots, k) + text else Held(slots, j)
  {
    hide KeyLess;
    if slots == [] {
      HeldOne(k, text, j);
    } else {
      SortedTail(slots);
      if slots[0].key == k {
      } else if KeyLess(k, slots[0].key) {
        assert After(k, slots) by {
          forall u | u in slots ensures KeyLess(k, u.key) {
            if u != slots[0] { KeyTransitive(k, slots[0].key, u.key); }
          }
        }
        HeldAfter(k, slots);
        assert "" + text == text && ([Slot(k, text)] + slots)[1..] == slots;
      } else {
        AppendHeld(slots[1..], k, text, j);
      }
    }
  }

  /** The text that these fields add to the buffer of `k`. */
  function PieceFor(fields: seq<Field>, k: FieldKey): string {
    if fields == [] then ""
    else (if fields[0].key == k then fields[0].text else "") + PieceFor(fields[1..], k)
  }

  lemma {:induction false} AppendAllHeld(slots: seq<Slot>, fields: seq<Field>, k: FieldKey)
    requires Sorted(slots)
    ensures Sorted(AppendAll(slots, fields))
    ensures Held(AppendAll(slots, fields), k) == Held(slots, k) + PieceFor(fields, k)
    decreases |fields|
  {
    hide Append, Sorted;
    if fields == [] {
      assert Held(slots, k) + "" == Held(slots, k);
    } else {
      var f := fields[0];
      AppendSorted(slots, f.key, f.text);
      AppendHeld(slots, f.key, f.text, k);
      AppendAllHeld(Append(slots, f.key, f.text), fields[1..], k);
      Assoc(Held(slots, k), if f.key == k then f.text else "", PieceFor(fields[1..], k));
      assert Held(slots, k) + "" == Held(slots, k);
    }
  }

  // ----------------------------------------------------------------- one key, seen on its own

  /** The raw pieces released for `k`, in order. */
  function ReleasedFor(out: seq<Emission>, k: FieldKey): seq<string> {
    if out == [] then []
    else (if out[0].Release? && out[0].key == k then [out[0].raw] else []) + ReleasedFor(out[1..], k)
  }

  lemma {:induction false} ReleasedForSum(a: seq<Emission>, b: seq<Emission>, k: FieldKey)
    ensures ReleasedFor(a + b, k) == ReleasedFor(a, k) + ReleasedFor(b, k)
  {
    if a == [] {
      assert a + b == b;
    } else {
      ReleasedForSum(a[1..], b, k);
      assert (a + b)[1..] == a[1..] + b;
      Assoc(if a[0].Release? && a[0].key == k then [a[0].raw] else [], ReleasedFor(a[1..], k), ReleasedFor(b, k));
    }
  }

  lemma {:induction false} ReleasesFor(j: FieldKey, raws: seq<string>, k: FieldKey)
    ensures ReleasedFor(Releases(j, raws), k) == if j == k then raws else []
  {
    if raws != [] {
      ReleasesFor(j, raws[1..], k);
      assert Releases(j, raws)[1..] == Releases(j, raws[1..]);
      assert raws == [raws[0]] + raws[1..];
    }
  }

  lemma {:induction false} NoReleases(out: seq<Emission>, k: FieldKey)
    requires forall e :: e in out ==> !e.Release?
    ensures ReleasedFor(out, k) == []
  {
    if out != [] { NoReleases(out[1..], k); }
  }

  lemma FlushFor(entries: seq<Entry>, window: nat, scope: Scope, slots: seq<Slot>, k: FieldKey)
    requires Sorted(slots)
    ensures var f := FlushSlots(entries, window, scope, slots);
            var run := FlushText(entries, window, Held(slots, k));
            && ReleasedFor(f.out, k) == (if Covers(scope, k) then run.released else [])
            && Held(f.slots, k) == (if Covers(scope, k) then run.held else Held(slots, k))
  {
    hide FlushText, Sorted, Covers, FlushSlots, Held, ReleasedFor;
    FlushReleased(entries, window, scope, slots, k);
    FlushHeld(entries, window, scope, slots, k);
  }

  lemma {:induction false} FlushReleased(entries: seq<Entry>, window: nat, scope: Scope, slots: seq<Slot>, k: FieldKey)
    requires Sorted(slots)
    ensures ReleasedFor(FlushSlots(entries, window, scope, slots).out, k)
            == if Covers(scope, k) then FlushText(entries, window, Held(slots, k)).released else []
  {
    hide FlushText, Sorted, Covers, FlushSlots, Held, ReleasedFor, After;
    FlushEmpty(entries, window);
    if slots == [] {
      FlushNothing(entries, window, scope, k);
    } else {
      SortedTail(slots);
      FlushReleased(entries, window, scope, slots[1..], k);
      FlushHead(entries, window, scope, slots, k);
      HeldFirst(slots, k);
      if slots[0].key == k {
        HeldAfter(k, slots[1..]);
        NothingMore(FlushText(entries, window, slots[0].text).released);
      }
    }
  }

  lemma NothingMore(released: seq<string>)
    ensures released + [] == released
  {}

  lemma {:induction false} FlushHeld(entries: seq<Entry>, window: nat, scope: Scope, slots: seq<Slot>, k: FieldKey)
    ensures Held(FlushSlots(entries, window, scope, slots).slots, k)
            == if Covers(scope, k) then FlushText(entries, window, Held(slots, k)).held else Held(slots, k)
  {
    hide FlushText, Covers, FlushSlots, Held, ReleasedFor;
    FlushEmpty(entries, window);
    if slots == [] {
      FlushNothing(entries, window, scope, k);
    } else {
      var s, rest := slots[0], FlushSlots(entries, window, scope, slots[1..]).slots;
      FlushHeld(entries, window, scope, slots[1..], k);
      FlushHead(entries, window, scope, slots, k);
      HeldFirst(slots, k);
      HeldHead(Slot(s.key, FlushText(entries, window, s.text).held), rest, k);
      HeldHead(s, rest, k);
    }
  }

  lemma HeldFirst(slots: seq<Slot>, k: FieldKey)
    requires slots != []
    ensures Held(slots, k) == if slots[0].key == k then slots[0].text else Held(slots[1..], k)
  {}

  lemma FlushNothing(entries: seq<Entry>, window: nat, scope: Scope, k: FieldKey)
    ensures FlushSlots(entries, window, scope, []) == Flushed([], []) && Held([], k) == "" && ReleasedFor([], k) == []
  {}

  lemma HeldHead(s: Slot, t: seq<Slot>, k: FieldKey)
    ensures Held([s] + t, k) == if s.key == k then s.text else Held(t, k)
  {
    assert ([s] + t)[1..] == t;
  }

  lemma FlushHead(entries: seq<Entry>, window: nat, scope: Scope, slots: seq<Slot>, k: FieldKey)
    requires slots != []
    ensures var s := slots[0];
            var f, rest := FlushSlots(entries, window, scope, slots), FlushSlots(entries, window, scope, slots[1..]);
            var run := FlushText(entries, window, s.text);
            if Covers(scope, s.key) then
              && f.slots == [Slot(s.key, run.held)] + rest.slots
              && ReleasedFor(f.out, k)
                 == (if s.key == k then run.released + ReleasedFor(rest.out, k) else ReleasedFor(rest.out, k))
            else
              f.slots == [s] + rest.slots && f.out == rest.out
  {
    hide FlushText, Covers, ReleasedFor;
    var s, run := slots[0], FlushText(entries, window, slots[0].text);
    ReleasesFor(s.key, run.released, k);
    var rest := FlushSlots(entries, window, scope, slots[1..]);
    ReleasedForSum(Releases(s.key, run.released), rest.out, k);
    assert [] + ReleasedFor(rest.out, k) == ReleasedFor(rest.out, k);
  }

  lemma FlushEmpty(entries: seq<Entry>, window: nat)
    ensures FlushText(entries, window, "") == FieldRun([], "")
  {}

  lemma {:induction false} FlushSorted(entries: seq<Entry>, window: nat, scope: Scope, slots: seq<Slot>)
    ensures var f := FlushSlots(entries, window, scope, slots);
            |f.slots| == |slots| && forall i :: 0 <= i < |slots| ==> f.slots[i].key == slots[i].key
    ensures Sorted(slots) ==> Sorted(FlushSlots(entries, window, scope, slots).slots)
  {
    hide FlushText, Covers, KeyLess;
    if slots != [] {
      FlushSorted(entries, window, scope, slots[1..]);
      var f := FlushSlots(entries, window, scope, slots);
      assert f.slots[1..] == FlushSlots(entries, window, scope, slots[1..]).slots;
      assert forall i :: 1 <= i < |slots| ==> f.slots[i] == f.slots[1..][i - 1] && slots[i] == slots[1..][i - 1];
    }
  }

  /** What a frame means for the field of `k`. */
  function KeyOp(effect: Effect, k: FieldKey): seq<FieldOp> {
    match effect
    case Content(fields, _) => [Text(PieceFor(fields, k))]
    case Stop(scope, _) => if Covers(scope, k) then [Complete] else []
    case Pass => []
  }

  function KeyOps(ctx: Ctx, frames: seq<string>, k: FieldKey): seq<FieldOp> {
    if frames == [] then [] else KeyOp(Classify(ctx, frames[0]), k) + KeyOps(ctx, frames[1..], k)
  }

  lemma ApplyFor(ctx: Ctx, b: Buffers, frame: string, effect: Effect, k: FieldKey)
    requires Sorted(b.slots)
    ensures var s := Apply(ctx, b, frame, effect);
            var run := RunField(ctx.entries, Held(b.slots, k), KeyOp(effect, k));
            Sorted(s.after.slots) && ReleasedFor(s.out, k) == run.released && Held(s.after.slots, k) == run.held
  {
    hide FlushText, Sorted, AppendAll, FlushSlots;
    match effect {
      case Pass => NoReleases([Event(frame)], k);
      case Stop(scope, drain) =>
        var f := FlushSlots(ctx.entries, 0, scope, b.slots);
        var tail := (if drain then Metas(b.deferred) else []) + [Event(frame)];
        FlushFor(ctx.entries, 0, scope, b.slots, k);
        FlushSorted(ctx.entries, 0, scope, b.slots);
        MetasAreMetas(b.deferred);
        NoReleases(tail, k);
        ReleasedForSum(f.out, tail, k);
        Assoc(f.out, if drain then Metas(b.deferred) else [], [Event(frame)]);
        assert ReleasedFor(f.out, k) + [] == ReleasedFor(f.out, k);
        RunOneOp(ctx.entries, Held(b.slots, k), Complete);
      case Content(fields, meta) =>
        var slots := AppendAll(b.slots, fields);
        AppendAllHeld(b.slots, fields, k);
        FlushFor(ctx.entries, MaxFakeLen(ctx.entries), Stream, slots, k);
        FlushSorted(ctx.entries, MaxFakeLen(ctx.entries), Stream, slots);
        RunOneOp(ctx.entries, Held(b.slots, k), Text(PieceFor(fields, k)));
    }
  }

  lemma {:induction false} MetasAreMetas(frames: seq<string>)
    ensures |Metas(frames)| == |frames| && forall e :: e in Metas(frames) ==> e.Meta?
  {
    if frames != [] { MetasAreMetas(frames[1..]); }
  }

  lemma RunOneOp(entries: seq<Entry>, held: string, op: FieldOp)
    ensures RunField(entries, held, [op]) == FieldStep(entries, held, op)
  {
    hide FieldStep;
    assert [op][1..] == [];
    assert FieldStep(entries, held, op).released + [] == FieldStep(entries, held, op).released;
  }

  lemma {:induction false} RunFieldSum(entries: seq<Entry>, held: string, a: seq<FieldOp>, b: seq<FieldOp>)
    ensures var r1 := RunField(entries, held, a);
            var r2 := RunField(entries, r1.held, b);
            RunField(entries, held, a + b) == FieldRun(r1.released + r2.released, r2.held)
    decreases |a|
  {
    hide FieldStep;
    if a == [] {
      assert a + b == b;
      assert [] + RunField(entries, held, b).released == RunField(entries, held, b).released;
    } else {
      var first := FieldStep(entries, held, a[0]);
      RunFieldSum(entries, first.held, a[1..], b);
      assert (a + b)[1..] == a[1..] + b;
      var r1 := RunField(entries, first.held, a[1..]);
      Assoc(first.released, r1.released, RunField(entries, r1.held, b).released);
    }
  }

  /** Over any run, the buffer and the output of `k` are those of `k`'s own operations. */
  lemma {:induction false} RunFor(ctx: Ctx, b: Buffers, frames: seq<string>, k: FieldKey)
    requires Sorted(b.slots)
    ensures var s := RunFrames(ctx, b, frames);
            var run := RunField(ctx.entries, Held(b.slots, k), KeyOps(ctx, frames, k));
            Sorted(s.after.slots) && ReleasedFor(s.out, k) == run.released && Held(s.after.slots, k) == run.held
    decreases |frames|
  {
    hide Apply, Classify, Sorted, KeyOp;
    if frames != [] {
      var effect := Classify(ctx, frames[0]);
      var first := Apply(ctx, b, frames[0], effect);
      ApplyFor(ctx, b, frames[0], effect, k);
      RunFor(ctx, first.after, frames[1..], k);
      ReleasedForSum(first.out, RunFrames(ctx, first.after, frames[1..]).out, k);
      RunFieldSum(ctx.entries, Held(b.slots, k), KeyOp(effect, k), KeyOps(ctx, frames[1..], k));
    }
  }
}
