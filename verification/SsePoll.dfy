/** What the response stream yields, as a function of the input that is still to come. */
module SsePoll {
  import opened Common
  import opened SseFrames
  import opened SseMachine
  import SseEvents
  import Utf8

  /** What one poll of the upstream response answers; after the last one it has ended. */
  datatype Input = Chunk(bytes: string) | Failure(error: string) | NotReady

  datatype Item = Data(bytes: string) | Failed(error: string)

  /** Restoring a response that is no event stream. */
  datatype RawResult = RawQueue(queue: seq<string>) | RawFailed(error: string)

  datatype Config = Config(ctx: Ctx, restoreRaw: string -> RawResult)

  function Items(queue: seq<string>): seq<Item> {
    if queue == [] then [] else [Data(queue[0])] + Items(queue[1..])
  }

  lemma {:induction false} ItemsSum(a: seq<string>, b: seq<string>)
    ensures Items(a + b) == Items(a) + Items(b)
  {
    if a == [] {
      assert a + b == b;
    } else {
      ItemsSum(a[1..], b);
      assert (a + b)[1..] == a[1..] + b;
      Assoc([Data(a[0])], Items(a[1..]), Items(b));
    }
  }

  predicate StartsWith(s: string, prefix: string) {
    prefix <= s
  }

  predicate IsSseFirstChunk(bytes: string) {
    StartsWith(bytes, "data:") || StartsWith(bytes, "event:") || StartsWith(bytes, ": ") || StartsWith(bytes, ":\n")
  }

  // ---------------------------------------------------------------------------- event streams

  /** The buffers and the bytes that do not yet make a frame. */
  datatype Core = Core(bufs: Buffers, fragment: string)

  /** `ok` is false if a restored piece is not UTF-8; then nothing is put out for this chunk. */
  datatype Taken = Taken(core: Core, queue: seq<string>, ok: bool)

  const NOT_UTF8 := "restore produced non-UTF8"

  /** `process_sse_chunk`. */
  function TakeChunk(ctx: Ctx, s: Core, chunk: string): Taken {
    var cut := CutChunk(s.fragment, chunk);
    var run := RunFrames(ctx, s.bufs, cut.frames);
    Taken(Core(run.after, cut.fragment), Render(ctx, run.out), Restorable(ctx, run.out))
  }

  lemma TakeShrinks(ctx: Ctx, s: Core)
    requires TakeChunk(ctx, s, "").queue != []
    ensures |TakeChunk(ctx, s, "").core.fragment| < |s.fragment|
  {
    hide Normalize, Frames, Rest;
    assert s.fragment + "" == s.fragment;
    var n := Normalize(s.fragment);
    SplitIsExact(n);
    if Frames(n) != [] {
      assert Frames(n)[0] in Frames(n);
      assert Concat(Frames(n)) == Frames(n)[0] + Concat(Frames(n)[1..]);
    }
  }

  /** Kept bytes are parsed again before each look at the input, until that yields nothing. */
  function Settle(ctx: Ctx, s: Core): Taken
    decreases |s.fragment|
  {
    if s.fragment == "" then Taken(s, [], true)
    else
      var t := TakeChunk(ctx, s, "");
      if !t.ok then Taken(t.core, [], false)
      else if t.queue == [] then t
      else
        TakeShrinks(ctx, s);
        var rest := Settle(ctx, t.core);
        Taken(rest.core, t.queue + rest.queue, rest.ok)
  }

  /** What is put out at the end of the input: held text, metadata, and bytes that make no frame. */
  function LastQueue(ctx: Ctx, s: Core): seq<string> {
    Render(ctx, Finish(ctx, s.bufs).out) + (if s.fragment != "" then [s.fragment] else [])
  }

  function StreamItems(ctx: Ctx, s: Core, inner: seq<Input>): seq<Item>
    decreases |inner|
  {
    var t := Settle(ctx, s);
    Items(t.queue) + (if t.ok then AfterSettle(ctx, t.core, inner) else [Failed(NOT_UTF8)])
  }

  function AfterSettle(ctx: Ctx, s: Core, inner: seq<Input>): seq<Item>
    decreases |inner|, 0
  {
    if inner == [] then
      if Restorable(ctx, Finish(ctx, s.bufs).out) then Items(LastQueue(ctx, s)) else [Failed(NOT_UTF8)]
    else match inner[0]
      case Chunk(c) =>
        var t := TakeChunk(ctx, s, c);
        if t.ok then Items(t.queue) + StreamItems(ctx, t.core, inner[1..]) else [Failed(NOT_UTF8)]
      case Failure(e) => [Failed(e)]
      case NotReady => StreamItems(ctx, s, inner[1..])
  }

  // ------------------------------------------------------------------- before that is decided

  function RawItems(config: Config, raw: string): seq<Item> {
    match config.restoreRaw(raw)
    case RawQueue(queue) => Items(queue)
    case RawFailed(e) => [Failed(e)]
  }

  function CollectItems(config: Config, raw: string, inner: seq<Input>): seq<Item>
    decreases |inner|
  {
    if inner == [] then RawItems(config, raw)
    else match inner[0]
      case Chunk(c) => CollectItems(config, raw + c, inner[1..])
      case Failure(e) => [Failed(e)]
      case NotReady => CollectItems(config, raw, inner[1..])
  }

  /** The first chunk that is not empty decides what kind of response this is. */
  function DetectItems(config: Config, inner: seq<Input>): seq<Item>
    decreases |inner|
  {
    if inner == [] then []
    else match inner[0]
      case Chunk(c) =>
        if c == "" then DetectItems(config, inner[1..])
        else if IsSseFirstChunk(c) then StreamItems(config.ctx, Core(EMPTY, c), inner[1..])
        else CollectItems(config, c, inner[1..])
      case Failure(e) => [Failed(e)]
      case NotReady => DetectItems(config, inner[1..])
  }

  /** A response is taken for an event stream exactly if it starts with a data line, an event line, or a
      comment that is empty or has a space after the colon. */
  lemma FirstChunkIff(bytes: string)
    ensures IsSseFirstChunk(bytes)
            <==> exists start :: start in {"data:", "event:", ": ", ":\n"} && |start| <= |bytes| && bytes[..|start|] == start
    ensures bytes != "" && bytes[0] in {'{', '['} ==> !IsSseFirstChunk(bytes)
  {
    var starts := {"data:", "event:", ": ", ":\n"};
    assert "data:"[0] == 'd' && "event:"[0] == 'e' && ": "[0] == ':' && ":\n"[0] == ':';
    if IsSseFirstChunk(bytes) {
      var start :| start in starts && start <= bytes;
      assert bytes[..|start|] == start;
    }
  }

  /** Empty chunks before it change nothing. */
  lemma LeadingBlanks(config: Config, inner: seq<Input>)
    ensures DetectItems(config, [Chunk("")] + inner) == DetectItems(config, inner)
    ensures DetectItems(config, [NotReady] + inner) == DetectItems(config, inner)
  {
    assert ([Chunk("")] + inner)[1..] == inner && ([NotReady] + inner)[1..] == inner;
  }

  /** A response that is no event stream is restored as a whole, its chunks in the order in which they came. */
  lemma RawIsWhole(config: Config, first: string, inner: seq<Input>)
    requires first != "" && !IsSseFirstChunk(first) && NoFailure(inner)
    ensures DetectItems(config, [Chunk(first)] + inner)
            == match config.restoreRaw(first + Concat(ChunksOf(inner)))
               case RawQueue(queue) => Items(queue)
               case RawFailed(e) => [Failed(e)]
  {
    assert ([Chunk(first)] + inner)[1..] == inner;
    CollectIsWhole(config, first, inner);
  }

  lemma {:induction false} CollectIsWhole(config: Config, raw: string, inner: seq<Input>)
    requires NoFailure(inner)
    ensures CollectItems(config, raw, inner) == RawItems(config, raw + Concat(ChunksOf(inner)))
    decreases |inner|
  {
    hide RawItems;
    if inner == [] {
      assert raw + Concat(ChunksOf(inner)) == raw;
    } else {
      assert inner[0] in inner;
      if inner[0].Chunk? {
        CollectIsWhole(config, raw + inner[0].bytes, inner[1..]);
        ConcatSum([inner[0].bytes], ChunksOf(inner[1..]));
        ConcatOne(inner[0].bytes);
        Assoc(raw, inner[0].bytes, Concat(ChunksOf(inner[1..])));
      } else {
        CollectIsWhole(config, raw, inner[1..]);
        assert [] + ChunksOf(inner[1..]) == ChunksOf(inner[1..]);
      }
    }
  }

  // ------------------------------------------------- the polls together are one pass over chunks

  function ChunksOf(inner: seq<Input>): seq<string> {
    if inner == [] then [] else (if inner[0].Chunk? then [inner[0].bytes] else []) + ChunksOf(inner[1..])
  }

  ghost predicate NoFailure(inner: seq<Input>) {
    forall i :: i in inner ==> !i.Failure?
  }

  /** The output for these chunks and then the end of the input. */
  function PassQueue(ctx: Ctx, s: Core, chunks: seq<string>): seq<string> {
    var cut := CutAll(s.fragment, chunks);
    var run := RunFrames(ctx, s.bufs, cut.frames);
    Render(ctx, run.out) + LastQueue(ctx, Core(run.after, cut.fragment))
  }

  /** All that is restored on the way is UTF-8. */
  predicate PassOk(ctx: Ctx, s: Core, chunks: seq<string>) {
    var run := RunFrames(ctx, s.bufs, CutAll(s.fragment, chunks).frames);
    Restorable(ctx, run.out) && Restorable(ctx, Finish(ctx, run.after).out)
  }

  lemma PassNone(ctx: Ctx, s: Core)
    ensures PassQueue(ctx, s, []) == LastQueue(ctx, s)
    ensures PassOk(ctx, s, []) == Restorable(ctx, Finish(ctx, s.bufs).out)
  {
    hide LastQueue;
    assert [] + LastQueue(ctx, s) == LastQueue(ctx, s);
  }

  lemma PassCons(ctx: Ctx, s: Core, chunk: string, chunks: seq<string>)
    ensures var t := TakeChunk(ctx, s, chunk);
            && PassQueue(ctx, s, [chunk] + chunks) == t.queue + PassQueue(ctx, t.core, chunks)
            && PassOk(ctx, s, [chunk] + chunks) == (t.ok && PassOk(ctx, t.core, chunks))
  {
    hide CutChunk, RunFrames, Render, LastQueue, Restorable, Finish;
    var c1 := CutChunk(s.fragment, chunk);
    var c2 := CutAll(c1.fragment, chunks);
    assert ([chunk] + chunks)[1..] == chunks;
    RunConcat(ctx, s.bufs, c1.frames, c2.frames);
    var r1 := RunFrames(ctx, s.bufs, c1.frames);
    var r2 := RunFrames(ctx, r1.after, c2.frames);
    RenderSum(ctx, r1.out, r2.out);
    RestorableSum(ctx, r1.out, r2.out);
    Assoc(Render(ctx, r1.out), Render(ctx, r2.out), LastQueue(ctx, Core(r2.after, c2.fragment)));
  }

  /** `n` empty chunks. */
  function Blanks(n: nat): seq<string> {
    if n == 0 then [] else [""] + Blanks(n - 1)
  }

  lemma {:induction false} SettleIsBlanks(ctx: Ctx, s: Core, chunks: seq<string>) returns (n: nat)
    ensures var t, all := Settle(ctx, s), Blanks(n) + chunks;
            && (t.ok ==> PassQueue(ctx, s, all) == t.queue + PassQueue(ctx, t.core, chunks))
            && t.queue <= PassQueue(ctx, s, all)
            && PassOk(ctx, s, all) == (t.ok && PassOk(ctx, t.core, chunks))
    ensures s.fragment != "" ==> n > 0
    decreases |s.fragment|
  {
    hide TakeChunk, PassQueue, PassOk;
    if s.fragment == "" {
      n := 0;
      assert Blanks(0) + chunks == chunks;
      assert [] + PassQueue(ctx, s, chunks) == PassQueue(ctx, s, chunks);
    } else {
      var t := TakeChunk(ctx, s, "");
      if !t.ok || t.queue == [] {
        n := 1;
        assert Blanks(0) == [] && [""] + [] == [""];
        assert Blanks(1) + chunks == [""] + chunks;
        PassCons(ctx, s, "", chunks);
      } else {
        TakeShrinks(ctx, s);
        var m := SettleIsBlanks(ctx, t.core, chunks);
        n := m + 1;
        PassCons(ctx, s, "", Blanks(m) + chunks);
        Assoc([""], Blanks(m), chunks);
        var rest := Settle(ctx, t.core);
        Assoc(t.queue, rest.queue, PassQueue(ctx, rest.core, chunks));
        PrefixAfter(t.queue, rest.queue, PassQueue(ctx, t.core, Blanks(m) + chunks));
      }
    }
  }

  lemma PrefixAfter<T>(a: seq<T>, x: seq<T>, y: seq<T>)
    requires x <= y
    ensures a + x <= a + y && a <= a + y
  {}

  /** What comes out of the stream, if `ok`, is `queue`; else some of its beginning and then the error. */
  ghost predicate Yields(items: seq<Item>, queue: seq<string>, ok: bool) {
    if ok then items == Items(queue) else exists q :: q <= queue && items == Items(q) + [Failed(NOT_UTF8)]
  }

  lemma YieldsMore(a: seq<string>, items: seq<Item>, queue: seq<string>, ok: bool)
    requires Yields(items, queue, ok)
    ensures Yields(Items(a) + items, a + queue, ok)
  {
    hide Items;
    ItemsSum(a, queue);
    if !ok {
      var q :| q <= queue && items == Items(q) + [Failed(NOT_UTF8)];
      ItemsSum(a, q);
      PrefixAfter(a, q, queue);
      Assoc(Items(a), Items(q), [Failed(NOT_UTF8)]);
    }
  }

  lemma FailsNow(q: seq<string>, queue: seq<string>)
    requires q <= queue
    ensures Yields(Items(q) + [Failed(NOT_UTF8)], queue, false)
    ensures Yields([Failed(NOT_UTF8)], queue, false)
  {
    assert [] <= queue && Items([]) + [Failed(NOT_UTF8)] == [Failed(NOT_UTF8)];
  }

  /** Whatever the chunks and the polls that were not ready: the items are those of one pass over
      the same chunks, with some empty ones between them; or, exactly if some restored piece of that
      pass is not UTF-8, they break off with an error. */
  lemma {:induction false} StreamIsPass(ctx: Ctx, s: Core, inner: seq<Input>) returns (chunks: seq<string>)
    requires NoFailure(inner)
    ensures Yields(StreamItems(ctx, s, inner), PassQueue(ctx, s, chunks), PassOk(ctx, s, chunks))
    ensures Concat(chunks) == Concat(ChunksOf(inner))
    ensures s.fragment != "" ==> chunks != [] && chunks[0] == ""
    decreases |inner|
  {
    hide TakeChunk, PassQueue, PassOk, Settle, LastQueue, Concat, Yields, Restorable, Finish, Items;
    var t := Settle(ctx, s);
    var rest := AfterIsPass(ctx, t.core, inner);
    var n := SettleIsBlanks(ctx, s, rest);
    chunks := Blanks(n) + rest;
    if t.ok {
      YieldsMore(t.queue, AfterSettle(ctx, t.core, inner), PassQueue(ctx, t.core, rest), PassOk(ctx, t.core, rest));
    } else {
      FailsNow(t.queue, PassQueue(ctx, s, chunks));
    }
    BlanksAreEmpty(n);
    ConcatSum(Blanks(n), rest);
    assert "" + Concat(rest) == Concat(rest);
  }

  lemma {:induction false} AfterIsPass(ctx: Ctx, s: Core, inner: seq<Input>) returns (chunks: seq<string>)
    requires NoFailure(inner)
    ensures Yields(AfterSettle(ctx, s, inner), PassQueue(ctx, s, chunks), PassOk(ctx, s, chunks))
    ensures Concat(chunks) == Concat(ChunksOf(inner))
    decreases |inner|, 0
  {
    hide TakeChunk, PassQueue, PassOk, Settle, LastQueue, Concat, Yields, Restorable, Finish, Items, StreamItems;
    if inner == [] {
      chunks := [];
      PassNone(ctx, s);
      FailsNow([], LastQueue(ctx, s));
      YieldsAll(LastQueue(ctx, s));
    } else if inner[0].NotReady? {
      chunks := StreamIsPass(ctx, s, inner[1..]);
      assert [] + ChunksOf(inner[1..]) == ChunksOf(inner[1..]);
    } else {
      assert inner[0] in inner;
      var c := inner[0].bytes;
      var u := TakeChunk(ctx, s, c);
      var more := StreamIsPass(ctx, u.core, inner[1..]);
      chunks := [c] + more;
      PassCons(ctx, s, c, more);
      YieldsMore(u.queue, StreamItems(ctx, u.core, inner[1..]), PassQueue(ctx, u.core, more), PassOk(ctx, u.core, more));
      FailsNow([], PassQueue(ctx, s, chunks));
      ConcatSum([c], more);
      ConcatSum([c], ChunksOf(inner[1..]));
    }
  }

  lemma YieldsAll(queue: seq<string>)
    ensures Yields(Items(queue), queue, true)
  {}

  lemma {:induction false} BlanksAreEmpty(n: nat)
    ensures Concat(Blanks(n)) == "" && (n > 0 ==> Blanks(n)[0] == "") && |Blanks(n)| == n
  {
    if n > 0 { BlanksAreEmpty(n - 1); }
  }

  // ------------------------------------------------------------- chunking independence, end to end

  /** What an event stream yields that was not cut at all. */
  function WholeQueue(ctx: Ctx, all: string): seq<string> {
    var run := RunFrames(ctx, EMPTY, Frames(Normalize(all)));
    Render(ctx, run.out) + LastQueue(ctx, Core(run.after, Rest(Normalize(all))))
  }

  /** All that is restored of it is UTF-8. */
  predicate WholeOk(ctx: Ctx, all: string) {
    var run := RunFrames(ctx, EMPTY, Frames(Normalize(all)));
    Restorable(ctx, run.out) && Restorable(ctx, Finish(ctx, run.after).out)
  }

  /** Valid text without "\r\r\n" yields the same items however it is cut into chunks, wherever a
      cut parts a character or a "\r\n", and however often the input was not ready.  If some restored
      piece is not UTF-8, then it yields the beginning of them and an error, for any chunks as well. */
  lemma ChunkingIndependence(config: Config, first: string, inner: seq<Input>)
    requires IsSseFirstChunk(first) && NoFailure(inner)
    requires var all := first + Concat(ChunksOf(inner)); Utf8.Valid(all) && !HasCrCrLf(all)
    ensures var all := first + Concat(ChunksOf(inner));
            Yields(DetectItems(config, [Chunk(first)] + inner), WholeQueue(config.ctx, all), WholeOk(config.ctx, all))
  {
    hide StreamItems, Yields, WholeQueue, WholeOk;
    assert ([Chunk(first)] + inner)[1..] == inner;
    StreamIndependence(config.ctx, first, inner);
  }

  lemma StreamIndependence(ctx: Ctx, first: string, inner: seq<Input>)
    requires first != "" && NoFailure(inner)
    requires var all := first + Concat(ChunksOf(inner)); Utf8.Valid(all) && !HasCrCrLf(all)
    ensures var all := first + Concat(ChunksOf(inner));
            Yields(StreamItems(ctx, Core(EMPTY, first), inner), WholeQueue(ctx, all), WholeOk(ctx, all))
  {
    hide StreamItems, CutAll, Frames, Normalize, Rest, Utf8.Valid, HasCrCrLf, LastQueue, RunFrames, Concat, Yields,
         Restorable, Finish;
    var chunks := StreamIsPass(ctx, Core(EMPTY, first), inner);
    var cs := [first] + chunks[1..];
    FirstChunkMoves(first, chunks);
    assert chunks == [""] + chunks[1..];
    ConcatSum([""], chunks[1..]);
    ConcatSum([first], chunks[1..]);
    ConcatOne("");
    ConcatOne(first);
    assert "" + Concat(chunks[1..]) == Concat(chunks[1..]);
    ChunksDoNotMatter(cs);
  }

  lemma FirstChunkMoves(first: string, chunks: seq<string>)
    requires chunks != [] && chunks[0] == ""
    ensures CutAll(first, chunks) == CutAll("", [first] + chunks[1..])
  {
    assert ([first] + chunks[1..])[1..] == chunks[1..];
    assert first + "" == first == "" + first;
  }

  /** A comment holds no data, and is passed on as it is. */
  lemma CommentIsPassed(ctx: Ctx, bufs: Buffers, body: string)
    requires '\n' !in body
    ensures RunFrames(ctx, bufs, [":" + body + "\n\n"]) == Step(bufs, [Event(":" + body + "\n\n")])
  {
    hide SseEvents.Lines, SseEvents.FieldValue;
    var f := ":" + body + "\n\n";
    var first := LinesOfComment(body);
    ColonIsNoData(first);
    assert [first, ""][1..] == [""] && [""][1..] == [];
    assert SseEvents.DataContent([""]) == None;
    RunOne(ctx, bufs, f);
  }

  lemma ColonIsNoData(line: string)
    requires line != "" && line[0] == ':'
    ensures SseEvents.FieldValue(line, "data") == None && SseEvents.FieldValue("", "data") == None
  {
    assert ("data" + ": ")[0] == 'd' && ("data" + ":")[0] == 'd';
  }

  lemma LinesOfComment(body: string) returns (first: string)
    requires '\n' !in body
    ensures first != "" && first[0] == ':' && SseEvents.Lines(":" + body + "\n\n") == [first, ""]
  {
    hide SseEvents.LineLen;
    var line := ":" + body;
    var f := line + "\n" + "\n";
    first := if EndsWith(line, '\r') then f[..|line| - 1] else f[..|line|];
    SseEvents.LinesCons("", "");
    assert "" + "\n" + "" == "\n";
    assert SseEvents.Lines("\n") == [""] by { SseEvents.NoLines(); }
    SseEvents.LineLenOf(line, "\n");
    assert f[..|line|] == line;
    assert f[|line| + 1..] == "\n";
    Assoc(line, "\n", "\n");
    assert "\n" + "\n" == "\n\n";
    SseEvents.LinesStep(f, |line|);
  }

  /** One chunk that is one comment frame yields that frame. */
  lemma TakeComment(ctx: Ctx, bufs: Buffers, fragment: string, chunk: string, body: string)
    requires Utf8.Valid(fragment + chunk) && Normalize(fragment + chunk) == ":" + body + "\n\n" && '\n' !in body
    ensures TakeChunk(ctx, Core(bufs, fragment), chunk) == Taken(Core(bufs, ""), [":" + body + "\n\n"], true)
  {
    hide Utf8.Valid, Normalize, RunFrames, FrameLen;
    var f := ":" + body + "\n\n";
    SseEvents.OneLineNoBreak(":" + body, "\n\n");
    SseEvents.BlankLine();
    assert FrameLen(f) == |f| && f[..|f|] == f && f[|f|..] == "";
    assert FrameLen("") == 0 by { NoFrame(); }
    assert Frames(f) == [f] + Frames("") == [f];
    CommentIsPassed(ctx, bufs, body);
    NoReleaseIsRestorable(ctx, [Event(f)]);
    assert Render(ctx, [Event(f)]) == [f] + Render(ctx, [Event(f)][1..]) == [f];
  }

  lemma NoFrame()
    ensures FrameLen("") == 0
  {}

  /** "\r\r\n" does matter: one text, two ways to cut it, two outputs. */
  lemma TripleWitness(config: Config)
    ensures DetectItems(config, [Chunk(": x\r\r\n\n")]) == [Data(": x\r\n\n")]
    ensures DetectItems(config, [Chunk(": x\r\r\n"), Chunk("\n")]) == [Data(": x\n\n")]
  {
    hide StreamItems;
    UncutTriple(config.ctx);
    CutTriple(config.ctx);
    assert [Chunk(": x\r\r\n\n")][1..] == [];
    assert [Chunk(": x\r\r\n"), Chunk("\n")][1..] == [Chunk("\n")];
    assert StartsWith(": x\r\r\n\n", ": ") && StartsWith(": x\r\r\n", ": ");
  }

  lemma UncutTriple(ctx: Ctx)
    ensures StreamItems(ctx, Core(EMPTY, ": x\r\r\n\n"), []) == [Data(": x\r\n\n")]
  {
    hide Normalize, TakeChunk, Utf8.Valid, StreamItems;
    TripleNormal();
    Utf8.AsciiValid(": x\r\r\n\n");
    assert ": x\r\r\n\n" + "" == ": x\r\r\n\n";
    assert ":" + " x\r" + "\n\n" == ": x\r\n\n";
    TakeComment(ctx, EMPTY, ": x\r\r\n\n", "", " x\r");
    SettleOnce(ctx, ": x\r\r\n\n", ": x\r\n\n");
  }

  lemma CutTriple(ctx: Ctx)
    ensures StreamItems(ctx, Core(EMPTY, ": x\r\r\n"), [Chunk("\n")]) == [Data(": x\n\n")]
  {
    hide Normalize, TakeChunk, Utf8.Valid, LastQueue;
    TripleNormal();
    TakeIncomplete(ctx);
    Utf8.AsciiValid(": x\r\n\n");
    assert ": x\r\n" + "\n" == ": x\r\n\n";
    assert ":" + " x" + "\n\n" == ": x\n\n";
    TakeComment(ctx, EMPTY, ": x\r\n", "\n", " x");
    NothingHeld(ctx);
    assert [Chunk("\n")][1..] == [] && [": x\n\n"][1..] == [];
    assert StreamItems(ctx, Core(EMPTY, ""), []) == [];
  }

  lemma NothingHeld(ctx: Ctx)
    ensures LastQueue(ctx, Core(EMPTY, "")) == []
  {}

  lemma SettleOnce(ctx: Ctx, fragment: string, frame: string)
    requires fragment != "" && TakeChunk(ctx, Core(EMPTY, fragment), "") == Taken(Core(EMPTY, ""), [frame], true)
    ensures StreamItems(ctx, Core(EMPTY, fragment), []) == [Data(frame)]
  {
    hide TakeChunk, LastQueue;
    NothingHeld(ctx);
    TakeShrinks(ctx, Core(EMPTY, fragment));
    assert Settle(ctx, Core(EMPTY, "")) == Taken(Core(EMPTY, ""), [], true);
    assert [frame] + [] == [frame] && [frame][1..] == [];
    assert Settle(ctx, Core(EMPTY, fragment)) == Taken(Core(EMPTY, ""), [frame], true);
  }

  lemma TakeIncomplete(ctx: Ctx)
    ensures TakeChunk(ctx, Core(EMPTY, ": x\r\r\n"), "") == Taken(Core(EMPTY, ": x\r\n"), [], true)
  {
    hide Normalize, Utf8.Valid, FrameLen;
    TripleNormal();
    Utf8.AsciiValid(": x\r\r\n");
    assert ": x\r\r\n" + "" == ": x\r\r\n";
    SseEvents.OneLineNoBreak(": x\r", "\n");
    assert ": x\r" + "\n" == ": x\r\n";
    assert FrameLen("\n") == 0 by { LoneLineFeed(); }
  }

  lemma LoneLineFeed()
    ensures FrameLen("\n") == 0
  {}

  lemma TripleNormal()
    ensures Normalize(": x\r\r\n\n") == ": x\r\n\n"
    ensures Normalize(": x\r\r\n") == ": x\r\n"
    ensures Normalize(": x\r\n\n") == ": x\n\n"
  {
    hide Normalize;
    NormalizeSmall();
    NormalizeIdle(": x\r");
    NormalizeIdle(": x");
    NormalizeIdle("\n");
    assert ": x\r\r\n" == ": x\r" + "\r\n";
    NormalizeConcat(": x\r", "\r\n");
    assert ": x\r\r\n\n" == ": x\r\r\n" + "\n";
    NormalizeConcat(": x\r\r\n", "\n");
    assert ": x\r\n" == ": x" + "\r\n" && ": x\r\n\n" == ": x\r\n" + "\n";
    NormalizeConcat(": x", "\r\n");
    NormalizeConcat(": x\r\n", "\n");
  }

  // ---------------------------------------------------------------------------- upstream errors

  /** When the input fails, the items before the error are those that begin the run of any input
      that does not fail there; unless the stream has failed before, on its own, and never looks. */
  lemma {:induction false} ErrorKeepsPrefix(ctx: Ctx, s: Core, before: seq<Input>, e: string, rest: seq<Input>,
                                            other: seq<Input>)
    returns (items: seq<Item>, looked: bool)
    requires NoFailure(before)
    ensures StreamItems(ctx, s, before + [Failure(e)] + rest) == items + [Failed(if looked then e else NOT_UTF8)]
    ensures items <= StreamItems(ctx, s, before + other)
    ensures !looked ==> StreamItems(ctx, s, before + other) == items + [Failed(NOT_UTF8)]
    decreases |before|
  {
    hide Settle, TakeChunk, LastQueue, Items;
    var t := Settle(ctx, s);
    var failing := before + [Failure(e)] + rest;
    if !t.ok {
      items, looked := Items(t.queue), false;
    } else if before == [] {
      items, looked := Items(t.queue), true;
      assert failing[0] == Failure(e);
      assert before + other == other;
    } else {
      assert failing[0] == before[0] && failing[1..] == before[1..] + [Failure(e)] + rest;
      assert (before + other)[0] == before[0] && (before + other)[1..] == before[1..] + other;
      assert before[0] in before;
      var more: seq<Item>;
      if before[0].NotReady? {
        more, looked := ErrorKeepsPrefix(ctx, t.core, before[1..], e, rest, other);
        items := Items(t.queue) + more;
      } else {
        var u := TakeChunk(ctx, t.core, before[0].bytes);
        if u.ok {
          more, looked := ErrorKeepsPrefix(ctx, u.core, before[1..], e, rest, other);
          Assoc(Items(u.queue), more, [Failed(if looked then e else NOT_UTF8)]);
          more := Items(u.queue) + more;
        } else {
          more, looked := [], false;
          assert [] + [Failed(NOT_UTF8)] == [Failed(NOT_UTF8)];
        }
        items := Items(t.queue) + more;
      }
      Assoc(Items(t.queue), more, [Failed(if looked then e else NOT_UTF8)]);
    }
  }
}
