/** The handling of one request from its start to its end, as the program carries it out. */
module ProxyHandle {
  import opened Common
  import opened CacheStore
  import opened CacheFill
  import opened Normalize
  import opened Proxy

  /** What the request meets with: the clock, the head of the upstream response, if one comes, what its
      stream yields, and which of its chunks the client takes. */
  datatype World = World(askedAt: int, head: Option<(nat, string)>, items: seq<Item>, taken: set<nat>, writtenAt: int)

  /** What the client gets. */
  datatype Reply =
    | Hit(exchange: Exchange)
    | Refused
    | Streamed(bypassed: bool, status: nat, contentType: string, sent: seq<string>)

  // -------------------------------------------------------------------- the same, as single steps

  ghost function RunFrom(h: Hashing, ttl: nat, s: State, events: seq<Event>): State {
    if events == [] then s
    else Next(h, ttl, RunFrom(h, ttl, s, events[..|events| - 1]), events[|events| - 1])
  }

  lemma {:induction false} RunFromStart(h: Hashing, ttl: nat, events: seq<Event>)
    ensures RunFrom(h, ttl, START, events) == RunOf(h, ttl, events)
  {
    hide Next;
    if events != [] { RunFromStart(h, ttl, events[..|events| - 1]); }
  }

  lemma RunFromPush(h: Hashing, ttl: nat, s: State, events: seq<Event>, e: Event)
    ensures RunFrom(h, ttl, s, events + [e]) == Next(h, ttl, RunFrom(h, ttl, s, events), e)
  {
    hide Next;
    assert (events + [e])[..|events|] == events;
  }

  lemma {:induction false} RunFromSum(h: Hashing, ttl: nat, s: State, a: seq<Event>, b: seq<Event>)
    ensures RunFrom(h, ttl, s, a + b) == RunFrom(h, ttl, RunFrom(h, ttl, s, a), b)
  {
    hide Next;
    if b == [] {
      assert a + b == a;
    } else {
      var init := b[..|b| - 1];
      RunFromSum(h, ttl, s, a, init);
      assert a + b == (a + init) + [b[|b| - 1]];
      RunFromPush(h, ttl, s, a + init, b[|b| - 1]);
    }
  }

  /** The items, as events of the request. */
  function Yields(items: seq<Item>, taken: set<nat>): seq<Event> {
    seq(|items|, n requires 0 <= n < |items| => Yield(0, items[n], n in taken))
  }

  function JobFor(req: Request, head: (nat, string)): Job {
    Job(req.verb, FullPath(req), req.body, req.bypass, head.0, head.1)
  }

  /** The part of a request that goes upstream; `x` is what is recorded of the response. */
  ghost function UpstreamScript(req: Request, w: World, x: Exchange): seq<Event> {
    match w.head
    case None => [Refuse(0)]
    case Some(head) =>
      [Respond(0, head.0, head.1)] + Yields(w.items, w.taken) + [Finish(0)]
      + (if Storable(JobFor(req, head), End(Turns(w.items, w.taken))) then [Write(0, x, w.writtenAt, true), Note(0, true)]
         else [])
  }

  ghost function Script(h: Hashing, ttl: nat, store: Store, req: Request, w: World, x: Exchange): seq<Event> {
    [Arrive(req)]
    + if req.bypass then [Pass(0)] + UpstreamScript(req, w, x)
      else [Ask(0, w.askedAt, true)]
           + if Hits(store, ttl, Key(h, req), w.askedAt) then [Note(0, true)] else UpstreamScript(req, w, x)
  }

  /** The request alone, in this phase. */
  ghost predicate Alone(s: State, p: Process, store: Store) {
    s.procs == [p] && s.store == store
  }

  lemma OneNext(h: Hashing, ttl: nat, s: State, p: Process, e: Event)
    requires s.procs == [p] && Actor(e) == Some(0)
    ensures var (q, op) := Act(h, ttl, s.store, p, e);
            Alone(Next(h, ttl, s, e), q, match op case Some(o) => Step(s.store, ttl, o) case None => s.store)
  {
    hide Act, Step;
    assert [p][0 := Act(h, ttl, s.store, p, e).0] == [Act(h, ttl, s.store, p, e).0];
  }

  lemma {:induction false} YieldsAre(h: Hashing, ttl: nat, s: State, p: Process, items: seq<Item>, taken: set<nat>)
    requires s.procs == [p] && p.phase.Streaming? && p.progress == NO_PROGRESS
    ensures Alone(RunFrom(h, ttl, s, Yields(items, taken)), p.(progress := Turns(items, taken)), s.store)
  {
    hide Turn, Next, Step;
    if items == [] {
      assert Yields(items, taken) == [];
      assert p.(progress := NO_PROGRESS) == p;
    } else {
      var init, last := items[..|items| - 1], items[|items| - 1];
      YieldsAre(h, ttl, s, p, init, taken);
      var e := Yield(0, last, (|items| - 1) in taken);
      assert Yields(items, taken) == Yields(init, taken) + [e];
      RunFromPush(h, ttl, s, Yields(init, taken), e);
      var mid := RunFrom(h, ttl, s, Yields(init, taken));
      OneNext(h, ttl, mid, p.(progress := Turns(init, taken)), e);
    }
  }

  /** What becomes of a request that goes upstream. */
  lemma UpstreamIs(h: Hashing, ttl: nat, s: State, p: Process, w: World, x: Exchange)
    requires s.procs == [p] && p.phase.Missed? && p.progress == NO_PROGRESS && w.head.Some?
    requires var job, end := JobFor(p.req, w.head.value), End(Turns(w.items, w.taken));
             Storable(job, end) ==> Records(x, job, end)
    ensures var head, end := w.head.value, End(Turns(w.items, w.taken));
            var q := p.(phase := Over, status := head.0, contentType := head.1, progress := end);
            Alone(RunFrom(h, ttl, s, UpstreamScript(p.req, w, x)), q,
                  if Storable(JobFor(p.req, head), end) then Filling(h, ttl, s.store, p.req, x, w.writtenAt) else s.store)
  {
    hide Turns, Turn, Next, Step, RunFrom, Yields, Storable, Records, Key, FullPath, Filling;
    var head := w.head.value;
    var a, b := [Respond(0, head.0, head.1)], Yields(w.items, w.taken);
    var end := End(Turns(w.items, w.taken));
    var p1 := p.(phase := Streaming, status := head.0, contentType := head.1);
    OneEvent(h, ttl, s, a[0]);
    OneNext(h, ttl, s, p, a[0]);
    var s1 := RunFrom(h, ttl, s, a);
    RunFromSum(h, ttl, s, a, b);
    YieldsAre(h, ttl, s1, p1, w.items, w.taken);
    var s2 := RunFrom(h, ttl, s, a + b);
    var p2 := p1.(progress := Turns(w.items, w.taken));
    RunFromPush(h, ttl, s, a + b, Finish(0));
    OneNext(h, ttl, s2, p2, Finish(0));
    var s3 := RunFrom(h, ttl, s, a + b + [Finish(0)]);
    assert JobOf(p2) == JobFor(p.req, head);
    if Storable(JobOf(p2), end) {
      var p3 := p2.(phase := Storing, progress := end);
      assert JobOf(p3) == JobFor(p.req, head);
      var tail := [Write(0, x, w.writtenAt, true), Note(0, true)];
      RunFromSum(h, ttl, s, a + b + [Finish(0)], tail);
      FillSteps(h, ttl, s3, p3, x, w.writtenAt);
      assert p3.(phase := Over) == p.(phase := Over, status := head.0, contentType := head.1, progress := end);
    } else {
      assert a + b + [Finish(0)] + [] == a + b + [Finish(0)];
    }
  }

  lemma OneEvent(h: Hashing, ttl: nat, s: State, e: Event)
    ensures RunFrom(h, ttl, s, [e]) == Next(h, ttl, s, e)
  {
    hide Next;
    assert [e][..0] == [];
  }

  /** The cache after a write and the association with the trace. */
  function Filling(h: Hashing, ttl: nat, store: Store, req: Request, x: Exchange, now: int): Store {
    var t := Step(store, ttl, Put(Key(h, req), Prefix(req.provider), req.model, x, now));
    match req.trace case Some(trace) => Step(t, ttl, RecordTrace(trace, Key(h, req))) case None => t
  }

  lemma FillSteps(h: Hashing, ttl: nat, s: State, p: Process, x: Exchange, now: int)
    requires s.procs == [p] && p.phase.Storing? && Records(x, JobOf(p), p.progress)
    ensures Alone(RunFrom(h, ttl, s, [Write(0, x, now, true), Note(0, true)]), p.(phase := Over),
                  Filling(h, ttl, s.store, p.req, x, now))
  {
    hide Key, Step, Next, RunFrom, Records;
    var e, f := Write(0, x, now, true), Note(0, true);
    assert [e] + [f] == [e, f];
    OneEvent(h, ttl, s, e);
    RunFromPush(h, ttl, s, [e], f);
    OneNext(h, ttl, s, p, e);
    OneNext(h, ttl, RunFrom(h, ttl, s, [e]), p.(phase := Noting), f);
  }

  lemma RefusedIs(h: Hashing, ttl: nat, s: State, p: Process, w: World, x: Exchange)
    requires s.procs == [p] && p.phase.Missed? && w.head.None?
    ensures Alone(RunFrom(h, ttl, s, UpstreamScript(p.req, w, x)), p.(phase := Over), s.store)
  {
    hide Next, RunFrom, Step;
    OneEvent(h, ttl, s, Refuse(0));
    OneNext(h, ttl, s, p, Refuse(0));
  }

  // --------------------------------------------------------------------------------- the handler

  /** The reply is what the steps have made of the request. */
  predicate Says(reply: Reply, p: Process) {
    && p.phase.Over?
    && match reply
       case Hit(x) => p.reply == Some(x)
       case Refused => p.reply.None? && p.progress == NO_PROGRESS
       case Streamed(bypassed, status, contentType, sent) =>
         p.reply.None? && p.req.bypass == bypassed && p.status == status && p.contentType == contentType
         && p.progress.sent == sent
  }

  /** From the lookup to the end: the reply and the cache are those of the steps above. */
  method Handle(h: Hashing, cache: Cache, req: Request, w: World) returns (reply: Reply, ghost x: Exchange)
    modifies cache
    ensures var s := RunFrom(h, cache.ttl, State([], old(cache.View()), []),
                             Script(h, cache.ttl, old(cache.View()), req, w, x));
            && s.store == cache.View() && |s.procs| == 1 && s.procs[0].req == req && Says(reply, s.procs[0])
  {
    hide Step, Next, RunFrom, Act, UpstreamScript, Storable, Records, Lookup, Key, KeyOf, NormalText, FullPath, Turns, End,
         Filling;
    ghost var ttl, before := cache.ttl, cache.View();
    ghost var s0 := State([], before, []);
    ghost var p := Process(req, Arrived, 0, "", NO_PROGRESS, None);
    x := Exchange(RequestRecord("", "", ""), 0, "", []);
    Arrives(h, ttl, s0, req);
    ghost var s1 := RunFrom(h, ttl, s0, [Arrive(req)]);
    var key := CacheKey(h, req.provider, req.verb, FullPath(req), req.body);
    KeyIs(h, req);
    if !req.bypass {
      var found := cache.Get(key, w.askedAt);
      AskStep(h, ttl, s1, p, w.askedAt);
      RunFromPush(h, ttl, s0, [Arrive(req)], Ask(0, w.askedAt, true));
      if found.Some? {
        if req.trace.Some? {
          cache.RecordTrace(req.trace.value, key);
        }
        HitSteps(h, ttl, before, req, w, x);
        return Hit(found.value), x;
      }
      p := p.(phase := Missed);
      MissScript(h, ttl, before, req, w, x);
    } else {
      PassStep(h, ttl, s1, p);
      RunFromPush(h, ttl, s0, [Arrive(req)], Pass(0));
      p := p.(phase := Missed);
      PassScript(h, ttl, before, req, w, x);
    }
    ghost var start := [Arrive(req)] + (if req.bypass then [Pass(0)] else [Ask(0, w.askedAt, true)]);
    ghost var s2 := RunFrom(h, ttl, s0, start);
    if w.head.None? {
      RunFromSum(h, ttl, s0, start, UpstreamScript(req, w, x));
      RefusedIs(h, ttl, s2, p, w, x);
      return Refused, x;
    }
    var head := w.head.value;
    var sent, exchange := Fill(w.items, w.taken, JobFor(req, head));
    if exchange.Some? {
      x := exchange.value;
      cache.Put(key, Prefix(req.provider), req.model, exchange.value, w.writtenAt);
      if req.trace.Some? {
        cache.RecordTrace(req.trace.value, key);
      }
    }
    FillingIs(h, ttl, s2.store, req, x, w.writtenAt);
    MissScript(h, ttl, before, req, w, x);
    PassScript(h, ttl, before, req, w, x);
    RunFromSum(h, ttl, s0, start, UpstreamScript(req, w, x));
    UpstreamIs(h, ttl, s2, p, w, x);
    reply := Streamed(req.bypass, head.0, head.1, sent);
  }

  lemma FillingIs(h: Hashing, ttl: nat, store: Store, req: Request, x: Exchange, now: int)
    ensures var t := Step(store, ttl, Put(Key(h, req), Prefix(req.provider), req.model, x, now));
            Filling(h, ttl, store, req, x, now)
            == match req.trace case Some(trace) => Step(t, ttl, RecordTrace(trace, Key(h, req))) case None => t
  {
    hide Step, Key;
  }

  lemma KeyIs(h: Hashing, req: Request)
    ensures Key(h, req) == KeyOf(h, req.provider, req.verb, FullPath(req), req.body)
  {
    hide KeyOf, FullPath;
  }

  lemma Arrives(h: Hashing, ttl: nat, s: State, req: Request)
    requires s.procs == []
    ensures Alone(RunFrom(h, ttl, s, [Arrive(req)]), Process(req, Arrived, 0, "", NO_PROGRESS, None), s.store)
  {
    hide RunFrom;
    OneEvent(h, ttl, s, Arrive(req));
    assert [] + [Process(req, Arrived, 0, "", NO_PROGRESS, None)] == [Process(req, Arrived, 0, "", NO_PROGRESS, None)];
  }

  lemma AskStep(h: Hashing, ttl: nat, s: State, p: Process, now: int)
    requires s.procs == [p] && p.phase.Arrived? && !p.req.bypass
    ensures var key := Key(h, p.req);
            Alone(Next(h, ttl, s, Ask(0, now, true)),
                  p.(phase := match Lookup(s.store, ttl, key, now) case Some(x) => Found(x) case None => Missed),
                  Step(s.store, ttl, Op.Get(key, now)))
  {
    hide Step, Next, Lookup, Key;
    OneNext(h, ttl, s, p, Ask(0, now, true));
  }

  lemma PassStep(h: Hashing, ttl: nat, s: State, p: Process)
    requires s.procs == [p] && p.phase.Arrived? && p.req.bypass
    ensures Alone(Next(h, ttl, s, Pass(0)), p.(phase := Missed), s.store)
  {
    hide Step, Next;
    OneNext(h, ttl, s, p, Pass(0));
  }

  lemma HitSteps(h: Hashing, ttl: nat, store: Store, req: Request, w: World, x: Exchange)
    requires !req.bypass && Lookup(store, ttl, Key(h, req), w.askedAt).Some?
    ensures var found := Lookup(store, ttl, Key(h, req), w.askedAt).value;
            var after := Step(store, ttl, Op.Get(Key(h, req), w.askedAt));
            Alone(RunFrom(h, ttl, State([], store, []), Script(h, ttl, store, req, w, x)),
                  Process(req, Over, 0, "", NO_PROGRESS, Some(found)),
                  match req.trace case Some(trace) => Step(after, ttl, RecordTrace(trace, Key(h, req))) case None => after)
  {
    hide Step, Next, RunFrom, Key, Fresh;
    var s0, p := State([], store, []), Process(req, Arrived, 0, "", NO_PROGRESS, None);
    var a, b, c := Arrive(req), Ask(0, w.askedAt, true), Note(0, true);
    Arrives(h, ttl, s0, req);
    RunFromPush(h, ttl, s0, [a], b);
    RunFromPush(h, ttl, s0, [a] + [b], c);
    AskStep(h, ttl, RunFrom(h, ttl, s0, [a]), p, w.askedAt);
    var found := Lookup(store, ttl, Key(h, req), w.askedAt).value;
    OneNext(h, ttl, RunFrom(h, ttl, s0, [a] + [b]), p.(phase := Found(found)), c);
    assert Script(h, ttl, store, req, w, x) == [a] + [b] + [c];
  }

  lemma MissScript(h: Hashing, ttl: nat, store: Store, req: Request, w: World, x: Exchange)
    ensures !req.bypass && Lookup(store, ttl, Key(h, req), w.askedAt).None?
            ==> Script(h, ttl, store, req, w, x) == ([Arrive(req)] + [Ask(0, w.askedAt, true)]) + UpstreamScript(req, w, x)
  {
    hide UpstreamScript, Key, Fresh;
  }

  lemma PassScript(h: Hashing, ttl: nat, store: Store, req: Request, w: World, x: Exchange)
    ensures req.bypass ==> Script(h, ttl, store, req, w, x) == ([Arrive(req)] + [Pass(0)]) + UpstreamScript(req, w, x)
  {
    hide UpstreamScript, Key;
  }
}
