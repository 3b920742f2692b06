/** Concurrent requests over one shared cache, step by step in any order. */
module Proxy {
  import opened Common
  import opened CacheStore
  import opened CacheFill
  import opened Json
  import opened Normalize
  import opened SseFields
  import Utf8

  // ------------------------------------------------------------------------------------ requests

  /** A request; its body is what the first phase of the extensions made of it.  The query is sent
      upstream, but takes no part in the key. */
  datatype Request = Request(provider: Provider, verb: string, path: string, query: Option<string>, body: string,
                             bypass: bool, trace: Option<string>, model: Option<string>)

  function Prefix(provider: Provider): string {
    match provider
    case Anthropic => "anthropic"
    case OpenAi => "openai"
    case OpenRouter => "openrouter"
    case Gemini => "gemini"
  }

  /** The provider that a path starts with, if it is known. */
  function FromPrefix(s: string): Option<Provider> {
    if s == "anthropic" then Some(Anthropic)
    else if s == "openai" then Some(OpenAi)
    else if s == "openrouter" then Some(OpenRouter)
    else if s == "gemini" then Some(Gemini)
    else None
  }

  /** Prefixes name their providers, and each provider has one. */
  lemma PrefixRoundTrip(s: string, provider: Provider)
    ensures FromPrefix(s) == Some(provider) <==> s == Prefix(provider)
  {
    assert "anthropic"[0] == 'a' && "openai"[0] == 'o' && "openrouter"[0] == 'o' && "gemini"[0] == 'g';
    assert |"openai"| == 6 && |"openrouter"| == 10;
  }

  function FullPath(req: Request): string {
    "/" + Prefix(req.provider) + "/" + req.path
  }

  function Key(h: Hashing, req: Request): string {
    KeyOf(h, req.provider, req.verb, FullPath(req), req.body)
  }

  /** How far the handling of a request has come. */
  datatype Phase =
    | Arrived
    | Found(exchange: Exchange)   // the cache has answered; the trace is still to be recorded
    | Missed                      // to be sent upstream
    | Streaming                   // the fill task reads the response
    | Storing                     // the response is complete and to be written to the cache
    | Noting                      // written; the trace is still to be recorded
    | Over

  /** A request being handled, the head of the upstream response and the progress of the fill task,
      and the exchange it was answered with if it was a hit. */
  datatype Process = Process(req: Request, phase: Phase, status: nat, contentType: string, progress: Progress,
                             reply: Option<Exchange>)

  function JobOf(p: Process): Job {
    Job(p.req.verb, FullPath(p.req), p.req.body, p.req.bypass, p.status, p.contentType)
  }

  /** What can happen next.  `ok` is false where the cache reports an error. */
  datatype Event =
    | Arrive(req: Request)
    | Ask(i: nat, now: int, ok: bool)
    | Pass(i: nat)
    | Refuse(i: nat)
    | Respond(i: nat, status: nat, contentType: string)
    | Yield(i: nat, item: Item, taken: bool)
    | Finish(i: nat)
    | Write(i: nat, exchange: Exchange, now: int, ok: bool)
    | Note(i: nat, ok: bool)
    | Admin(op: Op)

  /** All requests, the cache, and the operations it has seen. */
  datatype State = State(procs: seq<Process>, store: Store, log: seq<Op>)

  const START := State([], EMPTY_STORE, [])

  function TraceOp(h: Hashing, p: Process, ok: bool): Option<Op> {
    if ok && p.req.trace.Some? then Some(RecordTrace(p.req.trace.value, Key(h, p.req))) else None
  }

  /** What an event makes of its request, and the operation on the cache that goes with it. */
  ghost function Act(h: Hashing, ttl: nat, store: Store, p: Process, e: Event): (Process, Option<Op>) {
    match (p.phase, e)
    case (Arrived, Ask(_, now, ok)) =>
      if p.req.bypass then (p, None)
      else if !ok then (p.(phase := Missed), None)
      else
        var op := Get(Key(h, p.req), now);
        (match Lookup(store, ttl, Key(h, p.req), now)
         case Some(x) => (p.(phase := Found(x)), Some(op))
         case None => (p.(phase := Missed), Some(op)))
    case (Arrived, Pass(_)) => (if p.req.bypass then p.(phase := Missed) else p, None)
    case (Arrived, Refuse(_)) => (p.(phase := Over), None)
    case (Missed, Refuse(_)) => (p.(phase := Over), None)
    case (Missed, Respond(_, status, contentType)) =>
      (p.(phase := Streaming, status := status, contentType := contentType), None)
    case (Streaming, Yield(_, item, taken)) => (p.(progress := Turn(p.progress, item, taken)), None)
    case (Streaming, Finish(_)) =>
      var end := End(p.progress);
      (p.(phase := if Storable(JobOf(p), end) then Storing else Over, progress := end), None)
    case (Storing, Write(_, x, now, ok)) =>
      if !Records(x, JobOf(p), p.progress) then (p, None)
      else if !ok then (p.(phase := Over), None)
      else (p.(phase := Noting), Some(Put(Key(h, p.req), Prefix(p.req.provider), p.req.model, x, now)))
    case (Noting, Note(_, ok)) => (p.(phase := Over), TraceOp(h, p, ok))
    case (Found(x), Note(_, ok)) => (p.(phase := Over, reply := Some(x)), TraceOp(h, p, ok))
    case _ => (p, None)
  }

  function Actor(e: Event): Option<nat> {
    match e
    case Arrive(_) => None
    case Admin(_) => None
    case _ => Some(e.i)
  }

  predicate IsAdmin(op: Op) {
    op.ClearEntries? || op.ClearStats? || op.Look?
  }

  function Log(ttl: nat, s: State, op: Option<Op>): State {
    match op case Some(o) => State(s.procs, Step(s.store, ttl, o), s.log + [o]) case None => s
  }

  /** One step.  An event that cannot happen changes nothing. */
  ghost function Next(h: Hashing, ttl: nat, s: State, e: Event): State {
    match e
    case Arrive(req) => s.(procs := s.procs + [Process(req, Arrived, 0, "", NO_PROGRESS, None)])
    case Admin(op) => if IsAdmin(op) then Log(ttl, s, Some(op)) else s
    case _ =>
      if e.i >= |s.procs| then s
      else
        var (p, op) := Act(h, ttl, s.store, s.procs[e.i], e);
        Log(ttl, s.(procs := s.procs[e.i := p]), op)
  }

  ghost function RunOf(h: Hashing, ttl: nat, events: seq<Event>): State {
    if events == [] then START
    else Next(h, ttl, RunOf(h, ttl, events[..|events| - 1]), events[|events| - 1])
  }

  // ------------------------------------------------------------------- what every step keeps

  /** The texts of the chunks: what a hit streams. */
  function Texts(chunks: seq<ResponseChunk>): seq<string> {
    seq(|chunks|, i requires 0 <= i < |chunks| => chunks[i].data)
  }

  /** The request missed the cache; its response was a success, it arrived to its end, the client
      took all of it; and `x` is that response. */
  ghost predicate Filled(h: Hashing, p: Process, key: string, x: Exchange) {
    && !p.req.bypass && Key(h, p.req) == key
    && (p.phase.Noting? || p.phase.Over?) && p.reply.None?
    && Storable(JobOf(p), p.progress) && Records(x, JobOf(p), p.progress)
  }

  ghost predicate Supplied(h: Hashing, procs: seq<Process>, key: string, x: Exchange) {
    exists j :: 0 <= j < |procs| && Filled(h, procs[j], key, x)
  }

  /** What is known of a request on its own. */
  predicate Orderly(p: Process) {
    && (p.progress.outcome == Running || p.progress.outcome == Complete ==> p.progress.sent == Texts(p.progress.received))
    && (p.phase.Arrived? || p.phase.Missed? || p.phase.Found? ==> p.progress == NO_PROGRESS && p.reply.None?)
    && (p.reply.Some? ==> p.phase.Over? && p.progress == NO_PROGRESS)
    && (p.phase.Found? || p.reply.Some? ==> !p.req.bypass)
    && (p.phase.Storing? || p.phase.Noting? ==> Storable(JobOf(p), p.progress))
  }

  ghost predicate Answered(h: Hashing, procs: seq<Process>, p: Process) {
    && (p.phase.Found? ==> Supplied(h, procs, Key(h, p.req), p.phase.exchange))
    && (p.reply.Some? ==> Supplied(h, procs, Key(h, p.req), p.reply.value))
  }

  ghost predicate Inv(h: Hashing, ttl: nat, s: State) {
    && (forall j :: 0 <= j < |s.procs| ==> Orderly(s.procs[j]))
    && (forall j :: 0 <= j < |s.procs| ==> Answered(h, s.procs, s.procs[j]))
    && (forall k :: k in s.store.entries ==> Supplied(h, s.procs, k, s.store.entries[k].exchange))
    && s.store == CacheStore.Run(ttl, s.log)
  }

  lemma TextsPush(chunks: seq<ResponseChunk>, c: ResponseChunk)
    ensures Texts(chunks + [c]) == Texts(chunks) + [c.data]
  {}

  lemma {:induction false} TextsWhole(chunks: seq<ResponseChunk>)
    ensures Concat(Texts(chunks)) == BodyOf(chunks)
  {
    if chunks == [] {
      ConcatNone<char>();
    } else {
      TextsWhole(chunks[1..]);
      assert Texts(chunks)[1..] == Texts(chunks[1..]);
    }
  }

  lemma ActIsOrderly(h: Hashing, ttl: nat, store: Store, p: Process, e: Event)
    requires Orderly(p)
    ensures Orderly(Act(h, ttl, store, p, e).0)
  {
    hide Records, Key, KeyOf, FullPath, Lookup, Utf8.Valid, BodyOf, Texts;
    if p.phase.Streaming? && e.Yield? && e.item.Bytes? {
      TextsPush(p.progress.received, ResponseChunk(e.item.offsetMs, e.item.data));
    }
  }

  /** A response that has been recorded stays. */
  lemma FilledStays(h: Hashing, ttl: nat, store: Store, p: Process, e: Event, key: string, x: Exchange)
    requires Filled(h, p, key, x)
    ensures Filled(h, Act(h, ttl, store, p, e).0, key, x)
  {
    hide Records, Key, Lookup, Storable;
    assert JobOf(Act(h, ttl, store, p, e).0) == JobOf(p);
  }

  /** Only a request that has filled the cache writes to it. */
  lemma PutIsFilled(h: Hashing, ttl: nat, store: Store, p: Process, e: Event)
    requires Orderly(p)
    ensures var (q, op) := Act(h, ttl, store, p, e);
            op.Some? ==>
              && !op.value.ClearEntries? && !op.value.ClearStats?
              && (op.value.Put? ==> Filled(h, q, op.value.key, op.value.exchange))
  {
    hide Key, Lookup, Records, Utf8.Valid, BodyOf;
    if p.phase.Storing? && e.Write? {
      assert JobOf(p.(phase := Noting)) == JobOf(p);
    }
  }

  /** A hit is answered with a row of the cache. */
  lemma FoundIsStored(h: Hashing, ttl: nat, store: Store, p: Process, e: Event)
    ensures var (q, op) := Act(h, ttl, store, p, e);
            && q.req == p.req
            && (q.phase.Found? ==>
                  || q == p
                  || (Key(h, p.req) in store.entries && q.phase.exchange == store.entries[Key(h, p.req)].exchange))
            && (q.reply.Some? ==> q.reply == p.reply || (p.phase.Found? && q.reply.value == p.phase.exchange))
  {
    hide Key, Records, Storable, Fresh;
  }

  /** Only a write puts another exchange under a key. */
  lemma RowsComeFromPuts(store: Store, ttl: nat, op: Op, key: string)
    requires key in Step(store, ttl, op).entries
    ensures || (key in store.entries && Step(store, ttl, op).entries[key].exchange == store.entries[key].exchange)
            || (op.Put? && op.key == key && Step(store, ttl, op).entries[key].exchange == op.exchange)
  {
    hide Fresh, TotalLen;
  }

  /** Every list of processes in which each is as far as before, or further, supplies what it did. */
  lemma SuppliedStays(h: Hashing, before: seq<Process>, now: seq<Process>, key: string, x: Exchange)
    requires Supplied(h, before, key, x) && |before| <= |now|
    requires forall j :: 0 <= j < |before| && Filled(h, before[j], key, x) ==> Filled(h, now[j], key, x)
    ensures Supplied(h, now, key, x)
  {
    hide Filled;
    var j :| 0 <= j < |before| && Filled(h, before[j], key, x);
    assert Filled(h, now[j], key, x);
  }

  lemma NextSupplies(h: Hashing, ttl: nat, s: State, e: Event, key: string, x: Exchange)
    requires Supplied(h, s.procs, key, x)
    ensures Supplied(h, Next(h, ttl, s, e).procs, key, x)
  {
    hide Filled, Act, Supplied, Step;
    var now := Next(h, ttl, s, e).procs;
    forall j | 0 <= j < |s.procs| && Filled(h, s.procs[j], key, x) ensures Filled(h, now[j], key, x) {
      FilledStays(h, ttl, s.store, s.procs[j], e, key, x);
    }
    SuppliedStays(h, s.procs, now, key, x);
  }

  lemma LogKeeps(ttl: nat, s: State, op: Option<Op>)
    requires s.store == CacheStore.Run(ttl, s.log)
    ensures Log(ttl, s, op).store == CacheStore.Run(ttl, Log(ttl, s, op).log)
    ensures Log(ttl, s, op).procs == s.procs
  {
    hide Step;
    if op.Some? {
      assert (s.log + [op.value])[..|s.log|] == s.log;
    }
  }

  lemma NextIsOrderly(h: Hashing, ttl: nat, s: State, e: Event)
    requires forall j :: 0 <= j < |s.procs| ==> Orderly(s.procs[j])
    ensures forall j :: 0 <= j < |Next(h, ttl, s, e).procs| ==> Orderly(Next(h, ttl, s, e).procs[j])
  {
    hide Act, Step, Orderly;
    var t := Next(h, ttl, s, e);
    forall j | 0 <= j < |t.procs| ensures Orderly(t.procs[j]) {
      if e.Arrive? && j == |s.procs| {
        NewIsOrderly(e.req);
      } else {
        ActIsOrderly(h, ttl, s.store, s.procs[j], e);
      }
    }
  }

  lemma NewIsOrderly(req: Request)
    ensures Orderly(Process(req, Arrived, 0, "", NO_PROGRESS, None))
  {}

  lemma NextAnswers(h: Hashing, ttl: nat, s: State, e: Event)
    requires Inv(h, ttl, s)
    ensures forall j :: 0 <= j < |Next(h, ttl, s, e).procs|
                        ==> Answered(h, Next(h, ttl, s, e).procs, Next(h, ttl, s, e).procs[j])
  {
    hide Act, Step, Answered;
    var t := Next(h, ttl, s, e);
    forall j | 0 <= j < |t.procs| ensures Answered(h, t.procs, t.procs[j]) {
      if e.Arrive? && j == |s.procs| {
        NewIsAnswered(h, t.procs, e.req);
      } else {
        OneAnswers(h, ttl, s, e, j);
        StillAnswered(h, ttl, s, e, s.procs[j]);
      }
    }
  }

  lemma NewIsAnswered(h: Hashing, procs: seq<Process>, req: Request)
    ensures Answered(h, procs, Process(req, Arrived, 0, "", NO_PROGRESS, None))
  {}

  lemma StillAnswered(h: Hashing, ttl: nat, s: State, e: Event, p: Process)
    requires Answered(h, s.procs, p)
    ensures Answered(h, Next(h, ttl, s, e).procs, p)
  {
    hide Next, Supplied, Key;
    if p.phase.Found? { NextSupplies(h, ttl, s, e, Key(h, p.req), p.phase.exchange); }
    if p.reply.Some? { NextSupplies(h, ttl, s, e, Key(h, p.req), p.reply.value); }
  }

  lemma OneAnswers(h: Hashing, ttl: nat, s: State, e: Event, j: nat)
    requires Inv(h, ttl, s) && j < |s.procs|
    ensures Answered(h, Next(h, ttl, s, e).procs, Act(h, ttl, s.store, s.procs[j], e).0)
  {
    hide Act, Next, Supplied, Key, Orderly, CacheStore.Run;
    var p := s.procs[j];
    FoundIsStored(h, ttl, s.store, p, e);
    StillAnswered(h, ttl, s, e, p);
    if Key(h, p.req) in s.store.entries {
      NextSupplies(h, ttl, s, e, Key(h, p.req), s.store.entries[Key(h, p.req)].exchange);
    }
    assert Answered(h, s.procs, p);
  }

  lemma NextStores(h: Hashing, ttl: nat, s: State, e: Event)
    requires Inv(h, ttl, s)
    ensures var t := Next(h, ttl, s, e);
            forall k :: k in t.store.entries ==> Supplied(h, t.procs, k, t.store.entries[k].exchange)
  {
    hide Act, Step, Orderly, Supplied, Answered, Filled, Key, CacheStore.Run;
    var t := Next(h, ttl, s, e);
    forall k | k in t.store.entries ensures Supplied(h, t.procs, k, t.store.entries[k].exchange) {
      if k in s.store.entries { NextSupplies(h, ttl, s, e, k, s.store.entries[k].exchange); }
      if e.Admin? {
        if IsAdmin(e.op) { RowsComeFromPuts(s.store, ttl, e.op, k); }
      } else if !e.Arrive? && e.i < |s.procs| {
        var op := Act(h, ttl, s.store, s.procs[e.i], e).1;
        PutIsFilled(h, ttl, s.store, s.procs[e.i], e);
        if op.Some? {
          RowsComeFromPuts(s.store, ttl, op.value, k);
          if op.value.Put? { FilledSupplies(h, t.procs, e.i, op.value.key, op.value.exchange); }
        }
      }
    }
  }

  lemma FilledSupplies(h: Hashing, procs: seq<Process>, j: nat, key: string, x: Exchange)
    requires j < |procs|
    ensures Filled(h, procs[j], key, x) ==> Supplied(h, procs, key, x)
  {
    hide Filled;
  }

  lemma NextKeeps(h: Hashing, ttl: nat, s: State, e: Event)
    requires Inv(h, ttl, s)
    ensures Inv(h, ttl, Next(h, ttl, s, e))
  {
    NextIsOrderly(h, ttl, s, e);
    NextAnswers(h, ttl, s, e);
    NextStores(h, ttl, s, e);
    NextLogs(h, ttl, s, e);
    hide Next, Orderly, Answered, Supplied, CacheStore.Run;
  }

  lemma NextLogs(h: Hashing, ttl: nat, s: State, e: Event)
    requires s.store == CacheStore.Run(ttl, s.log)
    ensures Next(h, ttl, s, e).store == CacheStore.Run(ttl, Next(h, ttl, s, e).log)
  {
    hide Act, CacheStore.Run, Log;
    if e.Admin? {
      LogKeeps(ttl, s, Some(e.op));
    } else if !e.Arrive? && e.i < |s.procs| {
      var (p, op) := Act(h, ttl, s.store, s.procs[e.i], e);
      LogKeeps(ttl, s.(procs := s.procs[e.i := p]), op);
    }
  }

  lemma {:induction false} RunKeeps(h: Hashing, ttl: nat, events: seq<Event>)
    ensures Inv(h, ttl, RunOf(h, ttl, events))
  {
    hide Inv, Next;
    if events == [] {
      StartKeeps(h, ttl);
    } else {
      RunKeeps(h, ttl, events[..|events| - 1]);
      NextKeeps(h, ttl, RunOf(h, ttl, events[..|events| - 1]), events[|events| - 1]);
    }
  }

  lemma StartKeeps(h: Hashing, ttl: nat)
    ensures Inv(h, ttl, START)
  {}

  // ---------------------------------------------------------------------------- what holds of all runs

  /** The request looked for this key and missed; its response was a success that arrived to its end,
      and the client took every chunk of it. */
  ghost predicate CompleteMiss(h: Hashing, p: Process, key: string) {
    && !p.req.bypass && p.reply.None? && Key(h, p.req) == key
    && 200 <= p.status < 300 && p.progress.outcome == Complete
    && p.progress.sent == Texts(p.progress.received)
  }

  /** `x` is the response that `p` streamed to its client: the same head, the same bytes, and the same
      chunks, re-cut at the characters. */
  ghost predicate Replays(x: Exchange, p: Process) {
    && x.request == RequestRecord(p.req.verb, FullPath(p.req), p.req.body)
    && x.status == p.status && x.contentType == p.contentType
    && |p.progress.sent| == |p.progress.received| && IsRecut(x.chunks, p.progress.received)
    && Concat(Texts(x.chunks)) == Concat(p.progress.sent)
  }

  ghost predicate Explained(h: Hashing, procs: seq<Process>, key: string, x: Exchange) {
    exists j :: 0 <= j < |procs| && CompleteMiss(h, procs[j], key) && Replays(x, procs[j])
  }

  lemma FilledReplays(h: Hashing, p: Process, key: string, x: Exchange)
    requires Orderly(p) && Filled(h, p, key, x)
    ensures CompleteMiss(h, p, key) && Replays(x, p)
  {
    hide Key, FullPath, Concat, BodyOf, Utf8.Valid;
    RecutIsLossless(x.chunks, p.progress.received);
    TextsWhole(x.chunks);
    TextsWhole(p.progress.received);
  }

  lemma SuppliedIsExplained(h: Hashing, ttl: nat, s: State, key: string, x: Exchange)
    requires Inv(h, ttl, s) && Supplied(h, s.procs, key, x)
    ensures Explained(h, s.procs, key, x)
  {
    hide Filled, CompleteMiss, Replays, Orderly, Answered, CacheStore.Run;
    var j :| 0 <= j < |s.procs| && Filled(h, s.procs[j], key, x);
    assert Orderly(s.procs[j]);
    FilledReplays(h, s.procs[j], key, x);
  }

  /** Whatever the order in which requests arrive, miss, stream, break off, finish, write and are
      cleared away: an entry is the complete response of one request that missed with this key, and
      its client was sent all of it. */
  lemma StoreIsSound(h: Hashing, ttl: nat, events: seq<Event>, key: string)
    requires key in RunOf(h, ttl, events).store.entries
    ensures var s := RunOf(h, ttl, events);
            Explained(h, s.procs, key, s.store.entries[key].exchange)
  {
    hide Orderly, Answered, Supplied, Explained, CacheStore.Run;
    RunKeeps(h, ttl, events);
    var s := RunOf(h, ttl, events);
    SuppliedIsExplained(h, ttl, s, key, s.store.entries[key].exchange);
  }

  /** Every hit replays, byte for byte, what a miss with its key has streamed. */
  lemma HitReplaysMiss(h: Hashing, ttl: nat, events: seq<Event>, i: nat)
    requires i < |RunOf(h, ttl, events).procs| && RunOf(h, ttl, events).procs[i].reply.Some?
    ensures var s := RunOf(h, ttl, events);
            Explained(h, s.procs, Key(h, s.procs[i].req), s.procs[i].reply.value)
  {
    hide Orderly, Supplied, Explained, CacheStore.Run, Key;
    RunKeeps(h, ttl, events);
    var s := RunOf(h, ttl, events);
    assert Answered(h, s.procs, s.procs[i]);
    SuppliedIsExplained(h, ttl, s, Key(h, s.procs[i].req), s.procs[i].reply.value);
  }

  /** Whatever is stored, and whatever a hit is answered with, has a status of success. */
  lemma OnlySuccessIsStored(h: Hashing, ttl: nat, events: seq<Event>)
    ensures var s := RunOf(h, ttl, events);
            && (forall k :: k in s.store.entries ==> 200 <= s.store.entries[k].exchange.status < 300)
            && (forall i :: 0 <= i < |s.procs| && s.procs[i].reply.Some? ==> 200 <= s.procs[i].reply.value.status < 300)
  {
    hide RunOf, Key, IsRecut, Concat;
    var s := RunOf(h, ttl, events);
    forall k | k in s.store.entries ensures 200 <= s.store.entries[k].exchange.status < 300 {
      StoreIsSound(h, ttl, events, k);
    }
    forall i | 0 <= i < |s.procs| && s.procs[i].reply.Some? ensures 200 <= s.procs[i].reply.value.status < 300 {
      HitReplaysMiss(h, ttl, events, i);
    }
  }

  // ------------------------------------------------------------------- where rows and traces come from

  /** The operation is the write of a request that has filled the cache, under the name of its provider
      and its model; or the association of a request's own trace with its own key, when it is over. */
  ghost predicate ComesFrom(h: Hashing, procs: seq<Process>, op: Op) {
    match op
    case Put(key, provider, model, x, _) =>
      exists j :: 0 <= j < |procs| && Filled(h, procs[j], key, x)
                  && provider == Prefix(procs[j].req.provider) && model == procs[j].req.model
    case RecordTrace(trace, key) =>
      exists j :: 0 <= j < |procs| && Traces(h, procs[j], trace, key)
    case Get(key, _) => exists j :: 0 <= j < |procs| && !procs[j].req.bypass && Key(h, procs[j].req) == key
    case _ => true
  }

  predicate Traces(h: Hashing, p: Process, trace: string, key: string) {
    !p.req.bypass && p.req.trace == Some(trace) && Key(h, p.req) == key && p.phase.Over?
  }

  lemma ComesFromStays(h: Hashing, ttl: nat, s: State, e: Event, op: Op)
    requires ComesFrom(h, s.procs, op)
    ensures ComesFrom(h, Next(h, ttl, s, e).procs, op)
  {
    hide Filled, Act, Step, Key, Prefix, Next;
    var t := Next(h, ttl, s, e);
    ProcsMove(h, ttl, s, e);
    forall j | 0 <= j < |s.procs|
      ensures t.procs[j].req == s.procs[j].req && (s.procs[j].phase.Over? ==> t.procs[j].phase.Over?)
    {
      FoundIsStored(h, ttl, s.store, s.procs[j], e);
      OverStays(h, ttl, s.store, s.procs[j], e);
    }
    match op {
      case Put(key, _, _, x, _) =>
        var j :| 0 <= j < |s.procs| && Filled(h, s.procs[j], key, x)
                 && op.provider == Prefix(s.procs[j].req.provider) && op.model == s.procs[j].req.model;
        FilledStays(h, ttl, s.store, s.procs[j], e, key, x);
        assert Filled(h, t.procs[j], key, x);
      case RecordTrace(trace, key) =>
        var j :| 0 <= j < |s.procs| && Traces(h, s.procs[j], trace, key);
        assert Traces(h, t.procs[j], trace, key);
      case Get(key, _) =>
        var j :| 0 <= j < |s.procs| && !s.procs[j].req.bypass && Key(h, s.procs[j].req) == key;
        assert !t.procs[j].req.bypass && Key(h, t.procs[j].req) == key;
      case _ =>
    }
  }

  lemma OverStays(h: Hashing, ttl: nat, store: Store, p: Process, e: Event)
    ensures p.phase.Over? ==> Act(h, ttl, store, p, e).0 == p
  {}

  /** What an event adds to the operations comes from its own request. */
  lemma ActComesFrom(h: Hashing, ttl: nat, store: Store, p: Process, e: Event)
    requires Orderly(p)
    ensures var (q, op) := Act(h, ttl, store, p, e);
            && (op.Some? ==> !p.req.bypass && !op.value.ClearEntries? && !op.value.ClearStats?)
            && (op.Some? && op.value.Put? ==>
                  && Filled(h, q, op.value.key, op.value.exchange)
                  && op.value.provider == Prefix(q.req.provider) && op.value.model == q.req.model)
            && (op.Some? && op.value.RecordTrace? ==> Traces(h, q, op.value.trace, op.value.key))
            && (op.Some? && op.value.Get? ==> !q.req.bypass && Key(h, q.req) == op.value.key)
  {
    hide Key, Lookup, Records, Utf8.Valid, BodyOf, Prefix, Filled;
    PutIsFilled(h, ttl, store, p, e);
    FoundIsStored(h, ttl, store, p, e);
    if p.phase.Storing? { StorableIsNoBypass(p); }
    if p.phase.Noting? { StorableIsNoBypass(p); }
  }

  lemma StorableIsNoBypass(p: Process)
    requires Storable(JobOf(p), p.progress)
    ensures !p.req.bypass
  {}

  /** Every operation that the cache has seen comes from a request, or is a clear or a look. */
  lemma {:induction false} LogComesFrom(h: Hashing, ttl: nat, events: seq<Event>, op: Op)
    requires op in RunOf(h, ttl, events).log
    ensures ComesFrom(h, RunOf(h, ttl, events).procs, op)
  {
    hide ComesFrom, Act, Step, Next, Orderly, Answered, Supplied, CacheStore.Run;
    if events != [] {
      var before, e := events[..|events| - 1], events[|events| - 1];
      var s := RunOf(h, ttl, before);
      if op in s.log {
        LogComesFrom(h, ttl, before, op);
        ComesFromStays(h, ttl, s, e, op);
      } else {
        RunKeeps(h, ttl, before);
        NewComesFrom(h, ttl, s, e, op);
      }
    }
  }

  lemma NewComesFrom(h: Hashing, ttl: nat, s: State, e: Event, op: Op)
    requires forall j :: 0 <= j < |s.procs| ==> Orderly(s.procs[j])
    requires op in Next(h, ttl, s, e).log && op !in s.log
    ensures ComesFrom(h, Next(h, ttl, s, e).procs, op)
  {
    hide Act, Step, Orderly, Key, Filled, Prefix, Traces;
    if !e.Admin? && !e.Arrive? && e.i < |s.procs| {
      ActComesFrom(h, ttl, s.store, s.procs[e.i], e);
      var q := Next(h, ttl, s, e).procs[e.i];
      assert q == Act(h, ttl, s.store, s.procs[e.i], e).0;
    }
  }

  /** A row tells what it should of the request that filled it. */
  lemma RowTellsRequest(h: Hashing, ttl: nat, events: seq<Event>, key: string)
    requires key in RunOf(h, ttl, events).store.entries
    ensures var s := RunOf(h, ttl, events);
            var row := s.store.entries[key];
            && row.reqBytes == |row.exchange.request.body| && row.respBytes == |BodyOf(row.exchange.chunks)|
            && exists j :: 0 <= j < |s.procs| && CompleteMiss(h, s.procs[j], key) && Replays(row.exchange, s.procs[j])
                           && row.provider == Prefix(s.procs[j].req.provider) && row.model == s.procs[j].req.model
  {
    hide Orderly, Answered, Supplied, CacheStore.Run, CompleteMiss, Replays, Filled, Prefix, BodyOf, RunOf, Key;
    var s := RunOf(h, ttl, events);
    RunKeeps(h, ttl, events);
    RowsAreLastPuts(ttl, s.log, key);
    LastPutIsPut(s.log, key);
    LastPutKey(s.log, key);
    var op := LastPut(s.log, key).value;
    TotalLenIsBodyLen(op.exchange.chunks);
    LogComesFrom(h, ttl, events, op);
    var j :| 0 <= j < |s.procs| && Filled(h, s.procs[j], op.key, op.exchange)
             && op.provider == Prefix(s.procs[j].req.provider) && op.model == s.procs[j].req.model;
    assert Orderly(s.procs[j]);
    FilledReplays(h, s.procs[j], key, op.exchange);
  }

  /** A trace shows the keys of requests that came with this trace, and no others; and a request that was
      answered from the cache or has filled it is recorded under its trace when that succeeds. */
  lemma TraceIsOfRequest(h: Hashing, ttl: nat, events: seq<Event>, trace: string, key: string)
    requires (trace, key) in RunOf(h, ttl, events).store.traces
    ensures var s := RunOf(h, ttl, events); exists j :: 0 <= j < |s.procs| && Traces(h, s.procs[j], trace, key)
  {
    hide Orderly, Answered, Supplied, CacheStore.Run, Traces, RunOf;
    var s := RunOf(h, ttl, events);
    RunKeeps(h, ttl, events);
    TracesAreRecorded(ttl, s.log, trace, key);
    TracedIsLogged(s.log, trace, key);
    LogComesFrom(h, ttl, events, RecordTrace(trace, key));
  }

  lemma NoteRecords(h: Hashing, ttl: nat, s: State, i: nat, ok: bool)
    requires i < |s.procs| && (s.procs[i].phase.Found? || s.procs[i].phase.Noting?)
    ensures var r, t := s.procs[i].req, Next(h, ttl, s, Note(i, ok));
            && t.store.traces == s.store.traces + (if ok && r.trace.Some? then {(r.trace.value, Key(h, r))} else {})
            && t.store.entries == s.store.entries && t.store.stats == s.store.stats
            && t.procs[i].phase.Over?
            && (s.procs[i].phase.Found? ==> t.procs[i].reply == Some(s.procs[i].phase.exchange))
  {
    hide Key;
    assert s.store.traces + {} == s.store.traces;
  }

  /** What an administrator asks for is done to the cache at once, and to no request; writes and lookups
      are not for them. */
  lemma AdminClears(h: Hashing, ttl: nat, s: State, op: Op)
    ensures var t := Next(h, ttl, s, Admin(op));
            && t.procs == s.procs
            && t.store.entries == (if op.ClearEntries? then map[] else s.store.entries)
            && t.store.traces == (if op.ClearEntries? then {} else s.store.traces)
            && t.store.stats == (if op.ClearStats? then map[] else s.store.stats)
  {}

  /** An error of an extension before the lookup or before the request goes upstream, or an upstream that
      cannot be reached, ends the request, and the cache stays as it is. */
  lemma RefusalEnds(h: Hashing, ttl: nat, s: State, i: nat)
    requires i < |s.procs| && (s.procs[i].phase.Arrived? || s.procs[i].phase.Missed?)
    ensures var t := Next(h, ttl, s, Refuse(i));
            t.store == s.store && t.procs == s.procs[i := s.procs[i].(phase := Over)]
  {}

  /** An error of the cache costs the answer from it, or the entry, and nothing else: a request whose
      lookup fails goes upstream, and one whose write fails is over. */
  lemma ErrorsChangeNothing(h: Hashing, ttl: nat, s: State, i: nat, now: int, x: Exchange)
    requires i < |s.procs|
    ensures var t := Next(h, ttl, s, Ask(i, now, false));
            && t.store == s.store
            && (s.procs[i].phase.Arrived? && !s.procs[i].req.bypass ==> t.procs == s.procs[i := s.procs[i].(phase := Missed)])
    ensures var t := Next(h, ttl, s, Write(i, x, now, false));
            && t.store == s.store
            && (s.procs[i].phase.Storing? && Records(x, JobOf(s.procs[i]), s.procs[i].progress) ==>
                  t.procs == s.procs[i := s.procs[i].(phase := Over)])
  {
    hide Key, Records;
  }

  /** The request finds the exchange. */
  predicate IsHit(p: Process, x: Exchange) {
    p.phase == Found(x)
  }

  /** A lookup is a hit exactly if the key has been written since the last clear and that is not too
      long ago; the exchange is the one that was written last, and the miss that streamed it was
      over before the lookup. */
  lemma LookupIsExact(h: Hashing, ttl: nat, events: seq<Event>, i: nat, now: int, x: Exchange)
    requires var s := RunOf(h, ttl, events); i < |s.procs| && s.procs[i].phase.Arrived? && !s.procs[i].req.bypass
    ensures var s := RunOf(h, ttl, events);
            var key := Key(h, s.procs[i].req);
            var last := LastPut(s.log, key);
            && (last.Some? ==> last.value.Put?)
            && (IsHit(Next(h, ttl, s, Ask(i, now, true)).procs[i], x)
                <==> last.Some? && last.value.exchange == x
                     && (ttl == 0 || now - last.value.now < (ttl + 1) * 1_000_000_000))
            && (IsHit(Next(h, ttl, s, Ask(i, now, true)).procs[i], x) ==> Explained(h, s.procs, key, x))
  {
    hide Orderly, Answered, Supplied, Explained, CacheStore.Run, Key, LastPut, Step, Fresh;
    var s := RunOf(h, ttl, events);
    var key := Key(h, s.procs[i].req);
    RunKeeps(h, ttl, events);
    GetReturnsLastPut(ttl, s.log, key, now);
    if key in s.store.entries {
      StoreIsSound(h, ttl, events, key);
    }
  }

  /** A request that asks for it goes past the cache: whatever happens to it, the cache stays as it
      is. */
  lemma BypassTouchesNothing(h: Hashing, ttl: nat, events: seq<Event>, e: Event)
    requires var s := RunOf(h, ttl, events);
             && Actor(e).Some? && Actor(e).value < |s.procs| && s.procs[Actor(e).value].req.bypass
    ensures var s := RunOf(h, ttl, events);
            Next(h, ttl, s, e).store == s.store && Next(h, ttl, s, e).log == s.log
  {
    hide Answered, Supplied, CacheStore.Run, Key, Step, Records, Utf8.Valid, BodyOf;
    RunKeeps(h, ttl, events);
    var s := RunOf(h, ttl, events);
    assert Orderly(s.procs[e.i]);
  }

  /** A response that has just been written is found by the next lookup of its key. */
  lemma FillThenHit(h: Hashing, ttl: nat, events: seq<Event>, j: nat, x: Exchange, written: int, i: nat, now: int)
    requires var s := RunOf(h, ttl, events);
             && i < |s.procs| && s.procs[i].phase.Arrived? && !s.procs[i].req.bypass
             && j < |s.procs| && s.procs[j].phase.Storing? && Records(x, JobOf(s.procs[j]), s.procs[j].progress)
             && Key(h, s.procs[i].req) == Key(h, s.procs[j].req)
    requires ttl == 0 || now - written < (ttl + 1) * 1_000_000_000
    ensures var t := RunOf(h, ttl, events + [Write(j, x, written, true), Ask(i, now, true)]);
            |t.procs| > i && IsHit(t.procs[i], x)
  {
    hide Key, Records, Next;
    var s := RunOf(h, ttl, events);
    var e, f := Write(j, x, written, true), Ask(i, now, true);
    assert (events + [e, f])[..|events| + 1] == events + [e] && (events + [e])[..|events|] == events;
    assert RunOf(h, ttl, events + [e, f]) == Next(h, ttl, RunOf(h, ttl, events + [e]), f);
    assert RunOf(h, ttl, events + [e]) == Next(h, ttl, s, e);
    AfterWrite(h, ttl, s, j, x, written);
    AskFinds(h, ttl, Next(h, ttl, s, e), i, now, x);
  }

  lemma AfterWrite(h: Hashing, ttl: nat, s: State, j: nat, x: Exchange, written: int)
    requires j < |s.procs| && s.procs[j].phase.Storing? && Records(x, JobOf(s.procs[j]), s.procs[j].progress)
    ensures var t, key := Next(h, ttl, s, Write(j, x, written, true)), Key(h, s.procs[j].req);
            && key in t.store.entries && t.store.entries[key].createdAt == written
            && t.store.entries[key].exchange == x
            && |t.procs| == |s.procs| && t.procs[j] == s.procs[j].(phase := Noting)
            && forall i :: 0 <= i < |s.procs| && i != j ==> t.procs[i] == s.procs[i]
  {
    hide Key, Records, TotalLen;
  }

  lemma AskFinds(h: Hashing, ttl: nat, s: State, i: nat, now: int, x: Exchange)
    requires i < |s.procs| && s.procs[i].phase.Arrived? && !s.procs[i].req.bypass
    requires var key := Key(h, s.procs[i].req);
             && key in s.store.entries && s.store.entries[key].exchange == x
             && (ttl == 0 || now - s.store.entries[key].createdAt < (ttl + 1) * 1_000_000_000)
    ensures |Next(h, ttl, s, Ask(i, now, true)).procs| > i && IsHit(Next(h, ttl, s, Ask(i, now, true)).procs[i], x)
  {
    hide Key, Fresh, Step;
    ExpiryIsExact(ttl, s.store.entries[Key(h, s.procs[i].req)].createdAt, now);
  }

  // -------------------------------------------------------------- the task behind each request

  /** What a request's own events amount to: the items that its stream yielded while its task was
      reading, in which turns the client's channel took what it was sent, and whether the task is done. */
  datatype Reading = Reading(items: seq<Item>, taken: set<nat>, done: bool)

  predicate Reads(p: Process) {
    p.phase.Streaming? && p.progress.outcome == Running
  }

  ghost function ReadingOf(h: Hashing, ttl: nat, events: seq<Event>, i: nat): Reading {
    if events == [] then Reading([], {}, false)
    else
      var before, e := events[..|events| - 1], events[|events| - 1];
      var r, procs := ReadingOf(h, ttl, before, i), RunOf(h, ttl, before).procs;
      if i < |procs| then NextReading(procs[i], e, i, r) else r
  }

  /** What the next event adds. */
  function NextReading(p: Process, e: Event, i: nat, r: Reading): Reading {
    if !p.phase.Streaming? then r
    else
      match e
      case Yield(j, item, taken) => if j == i && Reads(p) then Read(r, item, taken) else r
      case Finish(j) => if j == i then r.(done := true) else r
      case _ => r
  }

  function Read(r: Reading, item: Item, taken: bool): Reading {
    Reading(r.items + [item], if taken then r.taken + {|r.items|} else r.taken, r.done)
  }

  /** How far the fill task gets with such a stream on its own. */
  function ByItself(r: Reading): Progress {
    if r.done then End(Turns(r.items, r.taken)) else Turns(r.items, r.taken)
  }

  predicate InTurn(r: Reading) {
    forall n :: n in r.taken ==> n < |r.items|
  }

  lemma ReadIsTurn(r: Reading, item: Item, taken: bool)
    requires InTurn(r) && !r.done
    ensures InTurn(Read(r, item, taken)) && ByItself(Read(r, item, taken)) == Turn(ByItself(r), item, taken)
  {
    hide Turns, Turn;
    TurnsPush(r.items, r.taken, item, taken);
    assert r.taken - {|r.items|} == r.taken;
  }

  lemma IdleTurn(p: Progress, item: Item, taken: bool)
    requires p.outcome != Running
    ensures Turn(p, item, taken) == p
  {}

  /** The events of a request make its process what the reading of its stream says, and no other event
      touches it: in between the steps of all others, each stream is read, recorded and forwarded as
      `CacheFill.Fill` does it with that stream alone. */
  lemma {:induction false} ProgressIsFill(h: Hashing, ttl: nat, events: seq<Event>, i: nat)
    requires i < |RunOf(h, ttl, events).procs|
    ensures Follows(RunOf(h, ttl, events).procs[i], ReadingOf(h, ttl, events, i))
  {
    hide Act, Turns, Turn, End, Step, Log, Next, ByItself, InTurn, Read;
    if events != [] {
      var before, e := events[..|events| - 1], events[|events| - 1];
      var s := RunOf(h, ttl, before);
      ProcsMove(h, ttl, s, e);
      if i < |s.procs| {
        ProgressIsFill(h, ttl, before, i);
        OneReads(h, ttl, s, e, i, ReadingOf(h, ttl, before, i));
      } else {
        NotYet(h, ttl, before, i);
        NothingRead();
      }
    }
  }

  lemma NothingRead()
    ensures InTurn(Reading([], {}, false)) && ByItself(Reading([], {}, false)) == NO_PROGRESS
  {}

  /** Before a request has arrived, it has read nothing. */
  lemma {:induction false} NotYet(h: Hashing, ttl: nat, events: seq<Event>, i: nat)
    requires i >= |RunOf(h, ttl, events).procs|
    ensures ReadingOf(h, ttl, events, i) == Reading([], {}, false)
  {
    hide Act, Step, Log, Next;
    if events != [] {
      ProcsMove(h, ttl, RunOf(h, ttl, events[..|events| - 1]), events[|events| - 1]);
      NotYet(h, ttl, events[..|events| - 1], i);
    }
  }

  ghost predicate Follows(p: Process, r: Reading) {
    && InTurn(r) && p.progress == ByItself(r)
    && (p.phase.Arrived? || p.phase.Found? || p.phase.Missed? || p.phase.Streaming? ==> !r.done)
    && (p.phase.Storing? || p.phase.Noting? ==> r.done)
  }

  lemma OneReads(h: Hashing, ttl: nat, s: State, e: Event, i: nat, r: Reading)
    requires i < |s.procs| && Follows(s.procs[i], r)
    ensures Follows(Next(h, ttl, s, e).procs[i], NextReading(s.procs[i], e, i, r))
  {
    hide Turns, Turn, End, Step, Records, Storable, Key, Lookup, ByItself, InTurn, Read;
    var p := s.procs[i];
    if e.Yield? && e.i == i && p.phase.Streaming? {
      if Reads(p) {
        ReadIsTurn(r, e.item, e.taken);
        SameDone(r, e.item, e.taken);
      } else {
        IdleTurn(p.progress, e.item, e.taken);
      }
    }
    EndOfReading(r);
  }

  lemma SameDone(r: Reading, item: Item, taken: bool)
    ensures Read(r, item, taken).done == r.done
  {}

  lemma EndOfReading(r: Reading)
    ensures !r.done ==> ByItself(r.(done := true)) == End(ByItself(r))
    ensures InTurn(r.(done := true)) == InTurn(r)
  {
    hide Turns;
  }

  /** Where the processes of the next state come from. */
  lemma ProcsMove(h: Hashing, ttl: nat, s: State, e: Event)
    ensures e.Arrive? ==> Next(h, ttl, s, e).procs == s.procs + [Process(e.req, Arrived, 0, "", NO_PROGRESS, None)]
    ensures !e.Arrive? ==> |Next(h, ttl, s, e).procs| == |s.procs|
    ensures forall i :: 0 <= i < |s.procs| ==>
              var p := Next(h, ttl, s, e).procs[i];
              p == s.procs[i] || p == Act(h, ttl, s.store, s.procs[i], e).0
  {
    hide Act, Step;
  }

  /** The request was a miss whose stream was read to its end, every item of which was data that the
      client took; and `x` is made of these items, one chunk from each, re-cut at the characters. */
  ghost predicate WholeStream(p: Process, r: Reading, key: string, x: Exchange, h: Hashing) {
    && CompleteMiss(h, p, key) && r.done && AllArrived(r.items, r.taken)
    && IsRecut(x.chunks, Chunks(r.items)) && Concat(Texts(x.chunks)) == Text(r.items)
  }

  /** An entry is, byte for byte, what the stream of one such request yielded. */
  lemma EntryIsWholeStream(h: Hashing, ttl: nat, events: seq<Event>, key: string)
    requires key in RunOf(h, ttl, events).store.entries
    ensures var s := RunOf(h, ttl, events);
            exists j: nat :: j < |s.procs|
                             && WholeStream(s.procs[j], ReadingOf(h, ttl, events, j), key, s.store.entries[key].exchange, h)
  {
    hide RunOf, ReadingOf, CompleteMiss, Replays, Follows;
    var s := RunOf(h, ttl, events);
    var x := s.store.entries[key].exchange;
    StoreIsSound(h, ttl, events, key);
    var j: nat :| j < |s.procs| && CompleteMiss(h, s.procs[j], key) && Replays(x, s.procs[j]);
    ProgressIsFill(h, ttl, events, j);
    ReadToTheEnd(h, s.procs[j], ReadingOf(h, ttl, events, j), key, x);
  }

  lemma ReadToTheEnd(h: Hashing, p: Process, r: Reading, key: string, x: Exchange)
    requires CompleteMiss(h, p, key) && Replays(x, p) && Follows(p, r)
    ensures WholeStream(p, r, key, x, h)
  {
    hide Key, Text, Concat, BodyOf, AllArrived, Turns, IsRecut, Chunks;
    TurnsMeaning(r.items, r.taken);
  }

  // --------------------------------------------------------------------- whose response a hit is

  lemma FullPathInjective(a: Request, b: Request)
    requires FullPath(a) == FullPath(b)
    ensures a.provider == b.provider && a.path == b.path
  {
    hide FullPath;
    PathParts(a);
    PathParts(b);
  }

  lemma PathParts(req: Request)
    ensures var s, p := FullPath(req), Prefix(req.provider);
            && |s| >= |p| + 2 && |p| >= 6 && s[1] == p[0] && s[5] == p[4] && s[|p| + 2..] == req.path
  {
    var p := Prefix(req.provider);
    assert FullPath(req) == "/" + (p + ("/" + req.path));
  }

  function Hashed(h: Hashing, req: Request): string {
    HashInput(req.verb, FullPath(req), NormalText(h, req.provider, req.body))
  }

  /** The digest takes two different strings to one key. */
  predicate Collide(h: Hashing, a: Request, b: Request) {
    h.digest(Hashed(h, a)) == h.digest(Hashed(h, b)) && Hashed(h, a) != Hashed(h, b)
  }

  /** Method and path are the same, or what is hashed before the bodies can be told apart. */
  predicate Distinguished(a: Request, b: Request) {
    (a.verb == b.verb && FullPath(a) == FullPath(b)) || Apart(Head(a.verb, FullPath(a)), Head(b.verb, FullPath(b)))
  }

  /** The query apart, what the two ask for is the same. */
  ghost predicate SameRequest(h: Hashing, a: Request, b: Request) {
    a.verb == b.verb && a.provider == b.provider && a.path == b.path && SameBody(h, a.provider, a.body, b.body)
  }

  /** Unless the digest collides, two requests share a key exactly if they have the same method, the
      same provider and path, and bodies that are hashed as one text; provided that what is hashed before
      the bodies can be told apart.  Such requests are the same, up to the query, exactly if both bodies are
      UTF-8 or the same bytes. */
  lemma KeysAreRequests(h: Hashing, a: Request, b: Request)
    requires Reliable(h) && !Collide(h, a, b) && Distinguished(a, b)
    ensures Key(h, a) == Key(h, b)
            <==> a.verb == b.verb && a.provider == b.provider && a.path == b.path
                 && SameText(h, a.provider, a.body, b.body)
    ensures SameRequest(h, a, b)
            <==> Key(h, a) == Key(h, b) && (a.body == b.body || (Utf8.Valid(a.body) && Utf8.Valid(b.body)))
  {
    hide NormalText, SameText, SameBody, Utf8.Valid, HashInput, FullPath, Apart, Head, Faithful;
    if Key(h, a) == Key(h, b) {
      HashInputInjective(a.verb, FullPath(a), NormalText(h, a.provider, a.body),
                         b.verb, FullPath(b), NormalText(h, b.provider, b.body));
      FullPathInjective(a, b);
    }
    if a.provider == b.provider && a.path == b.path {
      SamePath(a, b);
      HashInputDeterminesRequest(h, a.provider, a.verb, FullPath(a), a.body, b.verb, FullPath(b), b.body);
      SameBodyIff(h, a.provider, a.body, b.body);
    }
  }

  /** Two JSON bodies to one place that differ in one member share a key exactly if that member is one of
      those that are deleted, or its two values have one normal form; so that different messages never do,
      unless they are the same after normalisation. */
  lemma KeyForgets(h: Hashing, a: Request, b: Request, before: seq<Member>, name: string, x: Value, y: Value,
                   after: seq<Member>)
    requires Reliable(h) && !Collide(h, a, b)
    requires a.verb == b.verb && a.provider == b.provider && a.path == b.path
    requires h.codec.parse(a.body) == Some(With(before, name, x, after))
    requires h.codec.parse(b.body) == Some(With(before, name, y, after))
    ensures Key(h, a) == Key(h, b) <==> Forgotten(a.provider, name) || Normalized(x, a.provider) == Normalized(y, a.provider)
    ensures name == "messages" && Normalized(x, a.provider) != Normalized(y, a.provider) ==> Key(h, a) != Key(h, b)
  {
    hide Normalized, Forgotten, FullPath, Parsed, Proper, HashInput;
    var v, w := With(before, name, x, after), With(before, name, y, after);
    ParsedIsProper(v);
    ParsedIsProper(w);
    OneMemberMatters(before, name, x, y, after, a.provider);
    NormalTextReadsBack(h, a.provider, v);
    NormalTextReadsBack(h, a.provider, w);
    SamePath(a, b);
    MessagesMatter(a.provider);
    if Key(h, a) == Key(h, b) {
      SameHeadSameText(a.verb, FullPath(a), NormalText(h, a.provider, a.body), NormalText(h, a.provider, b.body));
    }
  }

  lemma MessagesMatter(provider: Provider)
    ensures !Forgotten(provider, "messages")
  {}

  lemma SameHeadSameText(verb: string, path: string, n1: string, n2: string)
    requires HashInput(verb, path, n1) == HashInput(verb, path, n2)
    ensures n1 == n2
  {
    assert HashInput(verb, path, n1)[|Head(verb, path)|..] == n1;
    assert HashInput(verb, path, n2)[|Head(verb, path)|..] == n2;
  }

  /** That is so when no method and no path holds a '|'. */
  lemma NoBarDistinguishes(a: Request, b: Request)
    requires '|' !in a.verb && '|' !in b.verb && '|' !in a.path && '|' !in b.path
    ensures Distinguished(a, b)
  {
    hide Apart, Head;
    NoBar(a);
    NoBar(b);
    NoBarIsApart(a.verb, FullPath(a), b.verb, FullPath(b));
  }

  /** With a '|' in a path, two requests to one provider, with different paths and bodies that are no
      JSON, are hashed as one string and share one key. */
  lemma BarInPathWitness(h: Hashing)
    requires Reliable(h) && h.codec.parse("c").None? && h.codec.parse("b|c").None?
    ensures var a := Request(OpenAi, "POST", "a|b", None, "c", false, None, None);
            var b := Request(OpenAi, "POST", "a", None, "b|c", false, None, None);
            && !Distinguished(a, b) && !Collide(h, a, b)
            && Key(h, a) == Key(h, b) && !SameBody(h, OpenAi, a.body, b.body)
  {
    hide Utf8.Valid, Faithful, HashInput, Head, FullPath;
    Utf8.AsciiValid("c");
    Utf8.AsciiValid("b|c");
    var a := Request(OpenAi, "POST", "a|b", None, "c", false, None, None);
    var b := Request(OpenAi, "POST", "a", None, "b|c", false, None, None);
    BarPaths(a, b);
    BarHeads();
  }

  lemma BarPaths(a: Request, b: Request)
    requires a.provider == b.provider == OpenAi && a.path == "a|b" && b.path == "a"
    ensures FullPath(a) == "/openai/a|b" && FullPath(b) == "/openai/a"
  {}

  lemma BarHeads()
    ensures HashInput("POST", "/openai/a|b", "c") == HashInput("POST", "/openai/a", "b|c")
    ensures Head("POST", "/openai/a") <= Head("POST", "/openai/a|b")
    ensures "/openai/a" != "/openai/a|b"
  {
    assert "POST" + "|" + "/openai/a|b" + "|" + "c" == "POST|/openai/a|b|c";
    assert "POST" + "|" + "/openai/a" + "|" + "b|c" == "POST|/openai/a|b|c";
    assert Head("POST", "/openai/a") == "POST|/openai/a|";
    assert Head("POST", "/openai/a|b") == "POST|/openai/a|" + "b|";
  }

  lemma SamePath(a: Request, b: Request)
    requires a.provider == b.provider && a.path == b.path
    ensures FullPath(a) == FullPath(b)
  {}

  lemma NoBar(a: Request)
    requires '|' !in a.path
    ensures '|' !in FullPath(a)
  {}

  /** What is known of the requests of a run: their keys do not collide, and what is hashed before their
      bodies can be told apart. */
  ghost predicate Separate(h: Hashing, procs: seq<Process>, r: Request) {
    forall j :: 0 <= j < |procs| ==> !Collide(h, r, procs[j].req) && Distinguished(r, procs[j].req)
  }

  /** The whole cache in one sentence: a hit is answered with the bytes that were streamed for an
      earlier request with the same method, provider and path, whose body is hashed as the same text; and
      that is the same request, up to the query, exactly if the body of the request that hits is UTF-8. */
  lemma HitIsForSameRequest(h: Hashing, ttl: nat, events: seq<Event>, i: nat)
    requires Reliable(h)
    requires var s := RunOf(h, ttl, events);
             i < |s.procs| && s.procs[i].reply.Some? && Separate(h, s.procs, s.procs[i].req)
    ensures var s := RunOf(h, ttl, events);
            var r, x := s.procs[i].req, s.procs[i].reply.value;
            && (exists j :: 0 <= j < |s.procs| && j != i && Replays(x, s.procs[j])
                            && r.verb == s.procs[j].req.verb && r.provider == s.procs[j].req.provider
                            && r.path == s.procs[j].req.path && SameText(h, r.provider, r.body, s.procs[j].req.body))
            && ((exists j :: 0 <= j < |s.procs| && j != i && Replays(x, s.procs[j]) && SameRequest(h, r, s.procs[j].req))
                <==> Utf8.Valid(r.body))
  {
    hide Reliable, Collide, Utf8.Valid, SameBody, SameText, SameRequest, Replays, CacheStore.Run, FullPath, Key, Orderly,
         Records, Distinguished, BodyOf;
    var s := RunOf(h, ttl, events);
    RunKeeps(h, ttl, events);
    assert Answered(h, s.procs, s.procs[i]);
    var r, x := s.procs[i].req, s.procs[i].reply.value;
    var j :| 0 <= j < |s.procs| && Filled(h, s.procs[j], Key(h, r), x);
    assert Orderly(s.procs[j]);
    FilledReplays(h, s.procs[j], Key(h, r), x);
    KeysAreRequests(h, r, s.procs[j].req);
    assert j != i;
    if !Utf8.Valid(r.body) {
      forall k | 0 <= k < |s.procs| && Replays(x, s.procs[k]) ensures !SameRequest(h, r, s.procs[k].req) {
        SameRecord(x, s.procs[j], s.procs[k]);
        KeysAreRequests(h, r, s.procs[k].req);
      }
    }
  }

  lemma SameRecord(x: Exchange, p: Process, q: Process)
    requires Replays(x, p) && Replays(x, q)
    ensures p.req.body == q.req.body
  {}

  // ------------------------------------------------------------------ runs in which a key is shared

  /** What `a` is answered with, and what is stored of it, in the run below. */
  function Answer(a: Request): Exchange {
    Exchange(RequestRecord(a.verb, FullPath(a), a.body), 200, "text/plain", [ResponseChunk(0, "r")])
  }

  /** `a` arrives, misses, is answered and stored; then `b` arrives and asks. */
  function HitRun(a: Request, b: Request): seq<Event> {
    [Arrive(a), Ask(0, 0, true), Respond(0, 200, "text/plain"), Yield(0, Bytes(0, "r"), true), Finish(0), Arrive(b)]
    + [Write(0, Answer(a), 0, true), Ask(1, 0, true)] + [Note(1, true)]
  }

  lemma RunStep(h: Hashing, ttl: nat, events: seq<Event>, e: Event)
    ensures RunOf(h, ttl, events + [e]) == Next(h, ttl, RunOf(h, ttl, events), e)
  {
    hide Next;
    assert (events + [e])[..|events|] == events;
  }

  /** Up to the write: the first request has missed and its response is there, the second has arrived. */
  lemma FirstMisses(h: Hashing, ttl: nat, a: Request, b: Request)
    requires !a.bypass && Utf8.Valid(a.body)
    ensures var s := RunOf(h, ttl, HitRun(a, b)[..6]);
            && |s.procs| == 2
            && s.procs[0] == Process(a, Storing, 200, "text/plain", Progress([ResponseChunk(0, "r")], ["r"], Complete), None)
            && s.procs[1] == Process(b, Arrived, 0, "", NO_PROGRESS, None)
  {
    hide RunOf, Key, FullPath, Utf8.Valid, Fresh, BodyOf, Step, Records;
    var e := HitRun(a, b);
    RunStarts(h, ttl);
    forall n: nat | n < 6 ensures e[..n + 1] == e[..n] + [e[n]] {}
    RunStep(h, ttl, e[..0], e[0]);
    RunStep(h, ttl, e[..1], e[1]);
    RunStep(h, ttl, e[..2], e[2]);
    RunStep(h, ttl, e[..3], e[3]);
    RunStep(h, ttl, e[..4], e[4]);
    RunStep(h, ttl, e[..5], e[5]);
    OneLetter();
    assert e[..0] == [];
    assert [] + ["r"] == ["r"] && [] + [ResponseChunk(0, "r")] == [ResponseChunk(0, "r")];
  }

  lemma RunStarts(h: Hashing, ttl: nat)
    ensures RunOf(h, ttl, []) == START
  {}

  lemma OneLetter()
    ensures BodyOf([ResponseChunk(0, "r")]) == "r" && Utf8.Valid("r")
  {
    assert [ResponseChunk(0, "r")][1..] == [];
    Utf8.AsciiValid("r");
  }

  lemma AnswerRecords(a: Request, p: Process)
    requires p.req == a && p.status == 200 && p.contentType == "text/plain"
    requires p.progress.received == [ResponseChunk(0, "r")]
    ensures Records(Answer(a), JobOf(p), p.progress)
  {
    hide Utf8.Valid, BodyOf, FullPath, IsRecut;
    OneLetter();
    ValidIsRecut([ResponseChunk(0, "r")]);
  }

  /** Whoever shares a key with a request that can be stored can be answered with its response. */
  lemma SharedKeyHits(h: Hashing, ttl: nat, a: Request, b: Request)
    requires !a.bypass && !b.bypass && Utf8.Valid(a.body) && Key(h, a) == Key(h, b)
    ensures var s := RunOf(h, ttl, HitRun(a, b));
            && |s.procs| == 2 && s.procs[0].req == a && s.procs[1].req == b
            && s.procs[1].reply == Some(Answer(a)) && Replays(Answer(a), s.procs[0])
  {
    hide RunOf, Key, Utf8.Valid, Records, Act, Answer, Log;
    var e := HitRun(a, b);
    var x := Answer(a);
    FirstMisses(h, ttl, a, b);
    var s6 := RunOf(h, ttl, e[..6]);
    AnswerRecords(a, s6.procs[0]);
    assert e[..7] == e[..6] + [e[6]] && e[..8] == e[..7] + [e[7]] && e == e[..8] + [e[8]];
    RunStep(h, ttl, e[..6], e[6]);
    RunStep(h, ttl, e[..7], e[7]);
    RunStep(h, ttl, e[..8], e[8]);
    AfterWrite(h, ttl, s6, 0, x, 0);
    var s7 := RunOf(h, ttl, e[..7]);
    AskFinds(h, ttl, s7, 1, 0, x);
    var s8 := RunOf(h, ttl, e[..8]);
    OnlyActor(h, ttl, s7, e[7], 1);
    OnlyActor(h, ttl, s8, e[8], 1);
    FoundIsStored(h, ttl, s7.store, s7.procs[1], e[7]);
    AfterNote(h, ttl, s8.store, s8.procs[1], x);
    AnswerReplays(a, s6.procs[0]);
  }

  /** An event touches its own request only. */
  lemma OnlyActor(h: Hashing, ttl: nat, s: State, e: Event, i: nat)
    requires Actor(e) == Some(i) && i < |s.procs|
    ensures var t := Next(h, ttl, s, e);
            |t.procs| == |s.procs| && t.procs[i] == Act(h, ttl, s.store, s.procs[i], e).0
            && forall j :: 0 <= j < |s.procs| && j != i ==> t.procs[j] == s.procs[j]
  {
    hide Act, Step;
  }

  lemma AfterNote(h: Hashing, ttl: nat, store: Store, p: Process, x: Exchange)
    requires p.phase == Found(x)
    ensures Act(h, ttl, store, p, Note(1, true)).0 == p.(phase := Over, reply := Some(x))
  {
    hide Key;
  }

  lemma AnswerReplays(a: Request, p: Process)
    requires p.req == a && p.status == 200 && p.contentType == "text/plain"
    requires p.progress == Progress([ResponseChunk(0, "r")], ["r"], Complete)
    ensures forall phase :: Replays(Answer(a), p.(phase := phase))
  {
    hide Utf8.Valid, BodyOf, FullPath, IsRecut, Concat;
    OneLetter();
    ValidIsRecut([ResponseChunk(0, "r")]);
    assert Texts([ResponseChunk(0, "r")]) == ["r"];
  }

  /** The bytes EF BF BD, which are the replacement character, and the byte FF, which is no UTF-8 and is
      read as that character: the second request is answered with the response to the first, although
      its body is another. */
  lemma WrongHitWitness(h: Hashing, ttl: nat)
    requires Reliable(h)
    requires var r := [0xEF as char, 0xBF as char, 0xBD as char];
             h.codec.parse(r).None? && h.lossy([0xFF as char]) == r
    ensures var a := Request(OpenAi, "POST", "a", None, [0xEF as char, 0xBF as char, 0xBD as char], false, None, None);
            var b := a.(body := [0xFF as char]);
            var s := RunOf(h, ttl, HitRun(a, b));
            && |s.procs| == 2 && s.procs[1].req == b && s.procs[1].reply.Some? && s.procs[0].req == a
            && Replays(s.procs[1].reply.value, s.procs[0]) && !SameRequest(h, b, a)
  {
    hide RunOf, HitRun, Replays, Faithful;
    var a := Request(OpenAi, "POST", "a", None, [0xEF as char, 0xBF as char, 0xBD as char], false, None, None);
    var b := a.(body := [0xFF as char]);
    ReplacementIsUtf8();
    SharedKeyHits(h, ttl, a, b);
  }

  lemma ReplacementIsUtf8()
    ensures Utf8.Valid([0xEF as char, 0xBF as char, 0xBD as char]) && !Utf8.Valid([0xFF as char])
  {
    var r := [0xEF as char, 0xBF as char, 0xBD as char];
    assert Utf8.CharLen(r) == 3 && r[3..] == "";
  }

  /** The query takes no part: two requests that differ in nothing else share a key, and the second is
      answered with the response to the first. */
  lemma OtherQueryHits(h: Hashing, ttl: nat, a: Request, query: Option<string>)
    requires !a.bypass && Utf8.Valid(a.body)
    ensures var s := RunOf(h, ttl, HitRun(a, a.(query := query)));
            && |s.procs| == 2 && s.procs[0].req == a && s.procs[1].req == a.(query := query)
            && s.procs[1].reply.Some? && Replays(s.procs[1].reply.value, s.procs[0])
  {
    hide RunOf, HitRun, Replays, Utf8.Valid;
    SharedKeyHits(h, ttl, a, a.(query := query));
  }
}
