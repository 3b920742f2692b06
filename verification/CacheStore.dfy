/** The cache of exchanges: three tables, and what sequences of operations on them keep. */
module CacheStore {
  import opened Common

  // ------------------------------------------------------------------------------------- rows

  datatype ResponseChunk = ResponseChunk(offsetMs: nat, data: string)

  datatype RequestRecord = RequestRecord(verb: string, path: string, body: string)

  datatype Exchange = Exchange(request: RequestRecord, status: nat, contentType: string, chunks: seq<ResponseChunk>)

  datatype Row = Row(createdAt: int, provider: string, model: Option<string>, exchange: Exchange,
                     reqBytes: nat, respBytes: nat, hitCount: nat)

  /** The text of the chunks, one after the other. */
  function BodyOf(chunks: seq<ResponseChunk>): string {
    if chunks == [] then "" else chunks[0].data + BodyOf(chunks[1..])
  }

  /** `chunks.iter().map(|c| c.data.len()).sum()`. */
  function TotalLen(chunks: seq<ResponseChunk>): nat {
    if chunks == [] then 0 else |chunks[0].data| + TotalLen(chunks[1..])
  }

  lemma {:induction false} TotalLenIsBodyLen(chunks: seq<ResponseChunk>)
    ensures TotalLen(chunks) == |BodyOf(chunks)|
  {
    if chunks != [] { TotalLenIsBodyLen(chunks[1..]); }
  }

  // ------------------------------------------------------------------------------------- time

  const SECOND := 1_000_000_000

  /** Whole seconds since `created`, on a clock in nanoseconds; 0 when the clock went back. */
  function AgeSeconds(created: int, now: int): nat {
    if now <= created then 0 else (now - created) / SECOND
  }

  predicate Fresh(ttl: nat, created: int, now: int) {
    ttl == 0 || AgeSeconds(created, now) <= ttl
  }

  /** An entry lives for one second more than the time to live says. */
  lemma ExpiryIsExact(ttl: nat, created: int, now: int)
    ensures Fresh(ttl, created, now) <==> ttl == 0 || now - created < (ttl + 1) * 1_000_000_000
  {
    if now > created {
      var d := now - created;
      assert d == (d / SECOND) * SECOND + d % SECOND && 0 <= d % SECOND < SECOND;
    }
  }

  // -------------------------------------------------------------------------------- the tables

  datatype Store = Store(entries: map<string, Row>, traces: set<(string, string)>, stats: map<string, nat>)

  const EMPTY_STORE := Store(map[], {}, map[])

  function Stat(s: Store, k: string): nat {
    if k in s.stats then s.stats[k] else 0
  }

  /** Inserts the counter, or adds to it. */
  function Bump(stats: map<string, nat>, k: string, amount: nat): map<string, nat> {
    stats[k := (if k in stats then stats[k] else 0) + amount]
  }

  predicate Hits(s: Store, ttl: nat, key: string, now: int) {
    key in s.entries && Fresh(ttl, s.entries[key].createdAt, now)
  }

  function Lookup(s: Store, ttl: nat, key: string, now: int): Option<Exchange> {
    if Hits(s, ttl, key, now) then Some(s.entries[key].exchange) else None
  }

  function AfterGet(s: Store, ttl: nat, key: string, now: int): Store {
    if Hits(s, ttl, key, now) then
      var row := s.entries[key];
      Store(s.entries[key := row.(hitCount := row.hitCount + 1)], s.traces,
            Bump(Bump(s.stats, "hits", 1), "bytes_served_from_cache", row.respBytes))
    else Store(s.entries, s.traces, Bump(s.stats, "misses", 1))
  }

  function NewRow(provider: string, model: Option<string>, exchange: Exchange, now: int): Row {
    Row(now, provider, model, exchange, |exchange.request.body|, TotalLen(exchange.chunks), 0)
  }

  /** One operation; those that only look change nothing. */
  datatype Op =
    | Get(key: string, now: int)
    | Put(key: string, provider: string, model: Option<string>, exchange: Exchange, now: int)
    | RecordTrace(trace: string, key: string)
    | ClearEntries
    | ClearStats
    | Look

  function Step(s: Store, ttl: nat, op: Op): Store {
    match op
    case Get(key, now) => AfterGet(s, ttl, key, now)
    case Put(key, provider, model, exchange, now) =>
      Store(s.entries[key := NewRow(provider, model, exchange, now)], s.traces, s.stats)
    case RecordTrace(trace, key) => Store(s.entries, s.traces + {(trace, key)}, s.stats)
    case ClearEntries => Store(map[], {}, s.stats)
    case ClearStats => Store(s.entries, s.traces, map[])
    case Look => s
  }

  function Run(ttl: nat, ops: seq<Op>): Store {
    if ops == [] then EMPTY_STORE else Step(Run(ttl, ops[..|ops| - 1]), ttl, ops[|ops| - 1])
  }

  // -------------------------------------------------------------------------- the cache object

  datatype CacheStats = CacheStats(hits: nat, misses: nat, bytesServed: nat, entryCount: nat, byModel: map<string, nat>)

  class Cache {
    const ttl: nat
    var entries: map<string, Row>
    var traces: set<(string, string)>
    var stats: map<string, nat>

    constructor (ttl: nat)
      ensures this.ttl == ttl && View() == EMPTY_STORE
    {
      this.ttl := ttl;
      entries, traces, stats := map[], {}, map[];
    }

    ghost function View(): Store
      reads this
    {
      Store(entries, traces, stats)
    }

    method Count(k: string, amount: nat)
      modifies this`stats
      ensures stats == Bump(old(stats), k, amount)
    {
      if k in stats {
        stats := stats[k := stats[k] + amount];
      } else {
        stats := stats[k := amount];
      }
    }

    method Get(key: string, now: int) returns (exchange: Option<Exchange>)
      modifies this
      ensures exchange == Lookup(old(View()), ttl, key, now)
      ensures View() == Step(old(View()), ttl, Op.Get(key, now))
    {
      if key !in entries {
        Count("misses", 1);
        return None;
      }
      var row := entries[key];
      if ttl > 0 {
        var age := AgeSeconds(row.createdAt, now);
        if age > ttl {
          Count("misses", 1);
          return None;
        }
      }
      entries := entries[key := row.(hitCount := row.hitCount + 1)];
      Count("hits", 1);
      Count("bytes_served_from_cache", row.respBytes);
      exchange := Some(row.exchange);
    }

    method Put(key: string, provider: string, model: Option<string>, exchange: Exchange, now: int)
      modifies this`entries
      ensures View() == Step(old(View()), ttl, Op.Put(key, provider, model, exchange, now))
    {
      var respBytes := 0;
      var chunks := exchange.chunks;
      for i := 0 to |chunks|
        invariant respBytes + TotalLen(chunks[i..]) == TotalLen(chunks)
      {
        assert chunks[i..][0] == chunks[i] && chunks[i..][1..] == chunks[i + 1..];
        respBytes := respBytes + |chunks[i].data|;
      }
      entries := entries[key := Row(now, provider, model, exchange, |exchange.request.body|, respBytes, 0)];
    }

    method RecordTrace(trace: string, key: string)
      modifies this`traces
      ensures View() == Step(old(View()), ttl, Op.RecordTrace(trace, key))
    {
      traces := traces + {(trace, key)};
    }

    /** The rows associated with a trace, the oldest first. */
    method GetTrace(trace: string) returns (rows: seq<(string, Row)>)
      ensures OldestFirst(rows) && Lists(rows, TraceRows(View(), trace))
    {
      hide OldestFirst, Lists;
      ghost var found := TraceRows(View(), trace);
      var todo := set k | k in entries && (trace, k) in traces;
      rows := [];
      NothingListed();
      assert found - todo == map[];
      while todo != {}
        invariant todo <= found.Keys
        invariant OldestFirst(rows) && Lists(rows, found - todo)
        decreases |todo|
      {
        var k :| k in todo;
        PlaceLists(rows, k, entries[k], found - todo);
        PlaceInOrder(rows, (k, entries[k]));
        assert (found - todo)[k := entries[k]] == found - (todo - {k});
        rows := Placed(rows, (k, entries[k]));
        todo := todo - {k};
      }
      assert found - {} == found;
    }

    method ClearEntries() returns (n: nat)
      modifies this`entries, this`traces
      ensures n == |old(entries)| && View() == Step(old(View()), ttl, Op.ClearEntries)
    {
      n := |entries|;
      traces := {};
      entries := map[];
    }

    method ClearStats()
      modifies this`stats
      ensures View() == Step(old(View()), ttl, Op.ClearStats)
    {
      stats := map[];
    }

    /** How many rows there are with each model, and without one. */
    method GroupByModel() returns (groups: map<Option<string>, nat>)
      ensures forall m :: m in groups <==> exists k :: k in entries && entries[k].model == m
      ensures forall m :: m in groups ==> groups[m] == |WithModel(entries, m)|
    {
      hide WithModel;
      var todo := entries.Keys;
      groups := map[];
      while todo != {}
        invariant todo <= entries.Keys
        invariant forall m :: m in groups <==> exists k :: k in entries && k !in todo && entries[k].model == m
        invariant forall m :: m in groups ==> groups[m] == |WithModel(entries, m) - todo|
        decreases |todo|
      {
        var k :| k in todo;
        var m := entries[k].model;
        OneMore(entries, todo, k);
        if m in groups {
          groups := groups[m := groups[m] + 1];
        } else {
          FirstOfModel(entries, todo, m);
          groups := groups[m := 1];
        }
        todo := todo - {k};
      }
      assert forall m :: WithModel(entries, m) - {} == WithModel(entries, m);
    }

    /** The counters and the number of rows; and the counts of the groups, by the name of the model, where
        a later group takes the place of an earlier one with the same name. */
    method Stats() returns (r: CacheStats)
      ensures r == CacheStats(Stat(View(), "hits"), Stat(View(), "misses"), Stat(View(), "bytes_served_from_cache"),
                              |entries|, ByModel(entries))
    {
      hide WithModel;
      var hits := if "hits" in stats then stats["hits"] else 0;
      var misses := if "misses" in stats then stats["misses"] else 0;
      var bytes := if "bytes_served_from_cache" in stats then stats["bytes_served_from_cache"] else 0;
      var groups := GroupByModel();
      var byModel: map<string, nat> := map[];
      if None in groups {
        byModel := byModel["unknown" := groups[None]];
      }
      var todo := groups.Keys - {None};
      while todo != {}
        invariant todo <= groups.Keys - {None}
        invariant forall n :: n in byModel <==> (n == "unknown" && None in groups) || (Some(n) in groups && Some(n) !in todo)
        invariant forall n :: n in byModel ==>
                    byModel[n] == |WithModel(entries, if Some(n) in groups && Some(n) !in todo then Some(n) else None)|
        decreases |todo|
      {
        var m :| m in todo;
        byModel := byModel[m.value := groups[m]];
        todo := todo - {m};
      }
      GroupsAreByModel(entries, groups, byModel);
      r := CacheStats(hits, misses, bytes, |entries|, byModel);
    }
  }

  lemma OneMore(entries: map<string, Row>, todo: set<string>, k: string)
    requires todo <= entries.Keys && k in todo
    ensures forall m :: |WithModel(entries, m) - (todo - {k})|
                        == |WithModel(entries, m) - todo| + (if m == entries[k].model then 1 else 0)
  {
    forall m ensures |WithModel(entries, m) - (todo - {k})|
                     == |WithModel(entries, m) - todo| + (if m == entries[k].model then 1 else 0)
    {
      var before, after := WithModel(entries, m) - todo, WithModel(entries, m) - (todo - {k});
      assert after == if m == entries[k].model then before + {k} else before;
    }
  }

  lemma FirstOfModel(entries: map<string, Row>, todo: set<string>, m: Option<string>)
    requires forall k :: k in entries && k !in todo ==> entries[k].model != m
    ensures |WithModel(entries, m) - todo| == 0
  {
    assert WithModel(entries, m) - todo == {};
  }

  lemma GroupsAreByModel(entries: map<string, Row>, groups: map<Option<string>, nat>, byModel: map<string, nat>)
    requires forall m :: m in groups <==> exists k :: k in entries && entries[k].model == m
    requires forall n :: n in byModel <==> (n == "unknown" && None in groups) || Some(n) in groups
    requires forall n :: n in byModel ==> byModel[n] == |WithModel(entries, if Some(n) in groups then Some(n) else None)|
    ensures byModel == ByModel(entries)
  {
    hide WithModel, NamedGroups;
    UnnamedRows(entries);
    NamedGroupsAre(entries);
    var named := NamedGroups(entries);
    assert forall n :: n in named <==> Some(n) in groups;
    assert WithModel(entries, None) != {} <==> None in groups;
    forall n ensures n in byModel <==> n in ByModel(entries) {}
    forall n | n in byModel ensures byModel[n] == ByModel(entries)[n] {}
  }

  lemma NamedGroupsAre(entries: map<string, Row>)
    ensures forall n :: n in NamedGroups(entries) <==> exists k :: k in entries && entries[k].model == Some(n)
    ensures forall n :: n in NamedGroups(entries) ==> NamedGroups(entries)[n] == |WithModel(entries, Some(n))|
  {
    hide WithModel;
    forall n ensures n in NamedGroups(entries) <==> exists k :: k in entries && entries[k].model == Some(n) {
      if k :| k in entries && entries[k].model == Some(n) {
        assert entries[k].model.value in NamedGroups(entries);
      }
    }
  }

  // ----------------------------------------------------------------------------- listing a table

  predicate OldestFirst(rows: seq<(string, Row)>) {
    forall i, j :: 0 <= i < j < |rows| ==> rows[i].1.createdAt <= rows[j].1.createdAt
  }

  /** The rows of the table under their keys, each once. */
  predicate Lists(rows: seq<(string, Row)>, table: map<string, Row>) {
    && |rows| == |table|
    && (forall r :: r in rows ==> r.0 in table && table[r.0] == r.1)
    && (forall k :: k in table ==> (k, table[k]) in rows)
  }

  /** `r` put before the first row that is younger. */
  function Placed(rows: seq<(string, Row)>, r: (string, Row)): seq<(string, Row)> {
    if rows == [] || r.1.createdAt < rows[0].1.createdAt then [r] + rows else [rows[0]] + Placed(rows[1..], r)
  }

  lemma {:induction false} PlacedHolds(rows: seq<(string, Row)>, r: (string, Row))
    ensures |Placed(rows, r)| == |rows| + 1
    ensures forall x :: x in Placed(rows, r) <==> x == r || x in rows
  {
    if rows != [] && r.1.createdAt >= rows[0].1.createdAt {
      PlacedHolds(rows[1..], r);
    }
  }

  lemma {:induction false} PlaceInOrder(rows: seq<(string, Row)>, r: (string, Row))
    requires OldestFirst(rows)
    ensures OldestFirst(Placed(rows, r))
  {
    if rows != [] && r.1.createdAt >= rows[0].1.createdAt {
      var t := rows[1..];
      assert forall i :: 0 <= i < |t| ==> t[i] == rows[i + 1];
      PlaceInOrder(t, r);
      PlacedHolds(t, r);
      assert forall x :: x in t ==> rows[0].1.createdAt <= x.1.createdAt;
      var p := Placed(t, r);
      forall i, j | 0 <= i < j < |p| + 1 ensures ([rows[0]] + p)[i].1.createdAt <= ([rows[0]] + p)[j].1.createdAt {
        assert p[j - 1] in p;
      }
    }
  }

  lemma PlaceLists(rows: seq<(string, Row)>, k: string, row: Row, table: map<string, Row>)
    requires Lists(rows, table) && k !in table
    ensures Lists(Placed(rows, (k, row)), table[k := row])
  {
    hide Placed;
    PlacedHolds(rows, (k, row));
    OneKeyMore(table, k, row);
  }

  lemma OneKeyMore(table: map<string, Row>, k: string, row: Row)
    requires k !in table
    ensures |table[k := row]| == |table| + 1
  {
    assert table[k := row].Keys == table.Keys + {k};
  }

  lemma NothingListed()
    ensures OldestFirst([]) && Lists([], map[])
  {}

  function TraceRows(s: Store, trace: string): map<string, Row> {
    map k | k in s.entries && (trace, k) in s.traces :: s.entries[k]
  }

  // ------------------------------------------------------------------------ counters, from outside

  /** What the lookups since the last reset of the counters have returned. */
  function Served(ttl: nat, ops: seq<Op>): seq<Option<Exchange>> {
    if ops == [] then []
    else
      var before := ops[..|ops| - 1];
      match ops[|ops| - 1]
      case ClearStats => []
      case Get(key, now) => Served(ttl, before) + [Lookup(Run(ttl, before), ttl, key, now)]
      case _ => Served(ttl, before)
  }

  function HitCount(served: seq<Option<Exchange>>): nat {
    if served == [] then 0 else HitCount(served[..|served| - 1]) + (if served[|served| - 1].Some? then 1 else 0)
  }

  function BytesOf(served: seq<Option<Exchange>>): nat {
    if served == [] then 0
    else BytesOf(served[..|served| - 1]) + Bytes(served[|served| - 1])
  }

  /** Every row knows how many bytes its chunks hold. */
  ghost predicate RowsMeasured(s: Store) {
    forall k :: k in s.entries ==> s.entries[k].respBytes == |BodyOf(s.entries[k].exchange.chunks)|
  }

  lemma {:induction false} RunMeasured(ttl: nat, ops: seq<Op>)
    ensures RowsMeasured(Run(ttl, ops))
  {
    if ops != [] {
      RunMeasured(ttl, ops[..|ops| - 1]);
      var op := ops[|ops| - 1];
      if op.Put? { TotalLenIsBodyLen(op.exchange.chunks); }
    }
  }

  /** The counters say what the lookups returned: how many, how many of them found nothing, and how
      many bytes they handed out. */
  lemma {:induction false} CountersTellWhatWasServed(ttl: nat, ops: seq<Op>)
    ensures var s, served := Run(ttl, ops), Served(ttl, ops);
            && Stat(s, "hits") + Stat(s, "misses") == |served|
            && Stat(s, "hits") == HitCount(served)
            && Stat(s, "bytes_served_from_cache") == BytesOf(served)
  {
    hide Lookup, AfterGet, Stat, HitCount, BytesOf;
    if ops == [] {
      NothingServed(ttl);
    } else {
      var before := ops[..|ops| - 1];
      var b, served := Run(ttl, before), Served(ttl, before);
      CountersTellWhatWasServed(ttl, before);
      RunMeasured(ttl, before);
      match ops[|ops| - 1] {
        case Get(key, now) =>
          GetCounts(b, ttl, key, now);
          ServedPush(served, Lookup(b, ttl, key, now));
        case ClearStats => NothingServed(ttl);
        case _ => SameCounts(b, Run(ttl, ops));
      }
    }
  }

  lemma NothingServed(ttl: nat)
    ensures HitCount([]) == BytesOf([]) == 0
    ensures forall s: Store, k: string :: s.stats == map[] ==> Stat(s, k) == 0
  {}

  lemma SameCounts(a: Store, b: Store)
    requires a.stats == b.stats
    ensures forall k: string :: Stat(a, k) == Stat(b, k)
  {}

  function Bytes(found: Option<Exchange>): nat {
    match found case Some(x) => |BodyOf(x.chunks)| case None => 0
  }

  lemma ServedPush(served: seq<Option<Exchange>>, r: Option<Exchange>)
    ensures HitCount(served + [r]) == HitCount(served) + (if r.Some? then 1 else 0)
    ensures BytesOf(served + [r]) == BytesOf(served) + Bytes(r)
  {
    assert (served + [r])[..|served|] == served;
  }

  /** One lookup counts one hit or one miss, and the bytes it hands out. */
  lemma GetCounts(s: Store, ttl: nat, key: string, now: int)
    requires RowsMeasured(s)
    ensures var r, t := Lookup(s, ttl, key, now), AfterGet(s, ttl, key, now);
            && Stat(t, "hits") == Stat(s, "hits") + (if r.Some? then 1 else 0)
            && Stat(t, "misses") == Stat(s, "misses") + (if r.Some? then 0 else 1)
            && Stat(t, "bytes_served_from_cache") == Stat(s, "bytes_served_from_cache") + Bytes(r)
  {
    hide Fresh, BodyOf;
  }

  function WithoutResets(ops: seq<Op>): seq<Op> {
    if ops == [] then []
    else WithoutResets(ops[..|ops| - 1]) + (if ops[|ops| - 1].ClearStats? then [] else [ops[|ops| - 1]])
  }

  /** Resetting the counters is never seen in the other tables, and so in no lookup either. */
  lemma {:induction false} ResetsTouchOnlyCounters(ttl: nat, ops: seq<Op>)
    ensures Run(ttl, WithoutResets(ops)).entries == Run(ttl, ops).entries
    ensures Run(ttl, WithoutResets(ops)).traces == Run(ttl, ops).traces
  {
    hide Step;
    if ops != [] {
      var before, op := ops[..|ops| - 1], ops[|ops| - 1];
      ResetsTouchOnlyCounters(ttl, before);
      var w := WithoutResets(before);
      SameTables(Run(ttl, w), Run(ttl, before), ttl, op);
      assert w + [] == w && (w + [op])[..|w|] == w;
    }
  }

  lemma SameTables(s: Store, t: Store, ttl: nat, op: Op)
    requires s.entries == t.entries && s.traces == t.traces
    ensures Step(s, ttl, op).entries == Step(t, ttl, op).entries && Step(s, ttl, op).traces == Step(t, ttl, op).traces
    ensures op.ClearStats? ==> Step(t, ttl, op).entries == t.entries && Step(t, ttl, op).traces == t.traces
  {
    hide Fresh, Bump, NewRow;
  }

  // ------------------------------------------------------------------ the cache as a timed map

  /** The last write of `key` since the entries were last cleared. */
  function LastPut(ops: seq<Op>, key: string): Option<Op> {
    if ops == [] then None
    else match ops[|ops| - 1]
      case ClearEntries => None
      case Put(k, _, _, _, _) => if k == key then Some(ops[|ops| - 1]) else LastPut(ops[..|ops| - 1], key)
      case _ => LastPut(ops[..|ops| - 1], key)
  }

  lemma {:induction false} LastPutIsPut(ops: seq<Op>, key: string)
    ensures LastPut(ops, key).Some? ==> LastPut(ops, key).value.Put? && LastPut(ops, key).value in ops
  {
    if ops != [] {
      LastPutIsPut(ops[..|ops| - 1], key);
      assert forall op :: op in ops[..|ops| - 1] ==> op in ops;
    }
  }

  /** How many lookups of `key` have hit since it was last written or cleared. */
  function HitsSince(ttl: nat, ops: seq<Op>, key: string): nat {
    if ops == [] then 0
    else
      var before := ops[..|ops| - 1];
      match ops[|ops| - 1]
      case ClearEntries => 0
      case Put(k, _, _, _, _) => if k == key then 0 else HitsSince(ttl, before, key)
      case Get(k, now) =>
        HitsSince(ttl, before, key) + (if k == key && Lookup(Run(ttl, before), ttl, k, now).Some? then 1 else 0)
      case _ => HitsSince(ttl, before, key)
  }

  /** A row is the last write of its key, with the number of the lookups that it has answered since. */
  lemma {:induction false} RowsAreLastPuts(ttl: nat, ops: seq<Op>, key: string)
    ensures var s, last := Run(ttl, ops), LastPut(ops, key);
            && (key in s.entries <==> last.Some?)
            && (key in s.entries ==>
                  && last.value.Put?
                  && var row := s.entries[key];
                  && row.createdAt == last.value.now && row.exchange == last.value.exchange
                  && row.provider == last.value.provider && row.model == last.value.model
                  && row.reqBytes == |last.value.exchange.request.body|
                  && row.respBytes == TotalLen(last.value.exchange.chunks)
                  && row.hitCount == HitsSince(ttl, ops, key))
  {
    hide Fresh, TotalLen, Bump;
    if ops != [] {
      RowsAreLastPuts(ttl, ops[..|ops| - 1], key);
    }
  }

  lemma {:induction false} LastPutKey(ops: seq<Op>, key: string)
    ensures LastPut(ops, key).Some? ==> LastPut(ops, key).value.Put? && LastPut(ops, key).value.key == key
  {
    if ops != [] { LastPutKey(ops[..|ops| - 1], key); }
  }

  lemma {:induction false} TracedIsLogged(ops: seq<Op>, trace: string, key: string)
    ensures Traced(ops, trace, key) ==> RecordTrace(trace, key) in ops
  {
    if ops != [] { TracedIsLogged(ops[..|ops| - 1], trace, key); }
  }

  /** A lookup returns the last write of its key since the last clear, if there is one and it is
      not too old; a row that is too old stays until it is overwritten or cleared. */
  lemma GetReturnsLastPut(ttl: nat, ops: seq<Op>, key: string, now: int)
    ensures var s, last := Run(ttl, ops), LastPut(ops, key);
            && (last.Some? ==> last.value.Put?)
            && Lookup(s, ttl, key, now)
               == (if last.Some? && (ttl == 0 || now - last.value.now < (ttl + 1) * 1_000_000_000)
                   then Some(last.value.exchange) else None)
            && Run(ttl, ops + [Get(key, now)]).entries.Keys == s.entries.Keys
  {
    hide Fresh;
    RowsAreLastPuts(ttl, ops, key);
    LastPutIsPut(ops, key);
    assert (ops + [Get(key, now)])[..|ops|] == ops;
    var s := Run(ttl, ops);
    if key in s.entries {
      ExpiryIsExact(ttl, s.entries[key].createdAt, now);
      assert s.entries[key].createdAt == LastPut(ops, key).value.now;
    }
  }

  /** The trace was recorded for this key since the entries were last cleared. */
  function Traced(ops: seq<Op>, trace: string, key: string): bool {
    ops != [] &&
    match ops[|ops| - 1]
    case ClearEntries => false
    case RecordTrace(t, k) => (t == trace && k == key) || Traced(ops[..|ops| - 1], trace, key)
    case _ => Traced(ops[..|ops| - 1], trace, key)
  }

  /** A trace shows the entries recorded for it, as far as they have been written. */
  lemma {:induction false} TraceShowsRecorded(ttl: nat, ops: seq<Op>, trace: string, key: string)
    ensures key in TraceRows(Run(ttl, ops), trace) <==> Traced(ops, trace, key) && LastPut(ops, key).Some?
  {
    RowsAreLastPuts(ttl, ops, key);
    TracesAreRecorded(ttl, ops, trace, key);
  }

  lemma {:induction false} TracesAreRecorded(ttl: nat, ops: seq<Op>, trace: string, key: string)
    ensures (trace, key) in Run(ttl, ops).traces <==> Traced(ops, trace, key)
  {
    if ops != [] { TracesAreRecorded(ttl, ops[..|ops| - 1], trace, key); }
  }

  // --------------------------------------------------------------------------- sums over tables

  ghost function Total<K(!new)>(m: map<K, nat>): nat
    decreases |m|
  {
    if m == map[] then 0
    else
      var k :| k in m;
      m[k] + Total(m - {k})
  }

  lemma {:induction false} TotalSplit<K(!new)>(m: map<K, nat>, k: K)
    requires k in m
    ensures Total(m) == m[k] + Total(m - {k})
    decreases |m|
  {
    var j :| j in m && Total(m) == m[j] + Total(m - {j});
    if j != k {
      TotalSplit(m - {j}, k);
      TotalSplit(m - {k}, j);
      assert (m - {j}) - {k} == (m - {k}) - {j};
    }
  }

  lemma TotalUpdate<K(!new)>(m: map<K, nat>, k: K, v: nat)
    ensures Total(m[k := v]) == v + Total(m - {k})
  {
    TotalSplit(m[k := v], k);
    assert m[k := v] - {k} == m - {k};
  }

  lemma TotalWithout<K(!new)>(m: map<K, nat>, k: K)
    ensures Total(m) == (if k in m then m[k] else 0) + Total(m - {k})
  {
    if k in m {
      TotalSplit(m, k);
    } else {
      assert m - {k} == m;
    }
  }

  function HitCounts(entries: map<string, Row>): map<string, nat> {
    map k | k in entries :: entries[k].hitCount
  }

  /** What giving `key` a row with `hits` hits does to the sum. */
  lemma RowChanges(entries: map<string, Row>, key: string, row: Row)
    ensures Total(HitCounts(entries[key := row])) + (if key in entries then entries[key].hitCount else 0)
            == Total(HitCounts(entries)) + row.hitCount
  {
    assert HitCounts(entries[key := row]) == HitCounts(entries)[key := row.hitCount];
    TotalUpdate(HitCounts(entries), key, row.hitCount);
    TotalWithout(HitCounts(entries), key);
  }

  /** As long as the counters are not reset, the hits of the rows that live are among all hits. */
  lemma {:induction false} LiveHitsAreAmongHits(ttl: nat, ops: seq<Op>)
    requires ClearStats !in ops
    ensures Total(HitCounts(Run(ttl, ops).entries)) <= Stat(Run(ttl, ops), "hits")
  {
    hide HitCounts, Total, Fresh, TotalLen;
    NoHits();
    if ops != [] {
      var b := Run(ttl, ops[..|ops| - 1]);
      LiveHitsAreAmongHits(ttl, ops[..|ops| - 1]);
      var op := ops[|ops| - 1];
      match op {
        case Get(key, _) =>
          if key in b.entries {
            RowChanges(b.entries, key, b.entries[key].(hitCount := b.entries[key].hitCount + 1));
          }
        case Put(key, provider, model, exchange, now) =>
          RowChanges(b.entries, key, NewRow(provider, model, exchange, now));
        case _ =>
      }
    }
  }

  lemma NoHits()
    ensures Total(HitCounts(map[])) == 0
  {
    assert HitCounts(map[]) == map[];
  }

  // ----------------------------------------------------------------------------- counts by model

  function WithModel(entries: map<string, Row>, model: Option<string>): set<string> {
    set k | k in entries && entries[k].model == model
  }

  /** The counts of the groups, by name.  The group without a model is called "unknown"; it comes
      first, so that a model of that name takes its place. */
  function ByModel(entries: map<string, Row>): map<string, nat> {
    (if WithModel(entries, None) != {} then map["unknown" := |WithModel(entries, None)|] else map[])
    + NamedGroups(entries)
  }

  function NamedGroups(entries: map<string, Row>): map<string, nat> {
    map k | k in entries && entries[k].model.Some? :: entries[k].model.value := |WithModel(entries, entries[k].model)|
  }

  function Label(model: Option<string>): string {
    match model case Some(m) => m case None => "unknown"
  }

  /** The rows that some name of `ByModel` counts: all, unless the group without a model has lost
      its place. */
  function Counted(entries: map<string, Row>): set<string> {
    if ModelNamedUnknown(entries) then set k | k in entries && entries[k].model.Some? else entries.Keys
  }

  predicate ModelNamedUnknown(entries: map<string, Row>) {
    exists k :: k in entries && entries[k].model == Some("unknown")
  }

  /** `groups` tells, for each label that occurs among `rows`, how many of them carry it. */
  ghost predicate Grouped(groups: map<string, nat>, rows: set<string>, entries: map<string, Row>) {
    && rows <= entries.Keys
    && (forall n :: n in groups ==> groups[n] == |Labelled(rows, entries, n)|)
    && (forall k :: k in rows ==> Label(entries[k].model) in groups)
  }

  function Labelled(rows: set<string>, entries: map<string, Row>, name: string): set<string>
    requires rows <= entries.Keys
  {
    set k | k in rows && Label(entries[k].model) == name
  }

  /** Groups make up the whole. */
  lemma {:induction false} GroupsMakeUp(groups: map<string, nat>, rows: set<string>, entries: map<string, Row>)
    requires Grouped(groups, rows, entries)
    ensures Total(groups) == |rows|
    decreases |groups|
  {
    if groups == map[] {
      assert rows == {};
    } else {
      var n :| n in groups;
      var group := Labelled(rows, entries, n);
      var others := rows - group;
      assert rows == group + others;
      forall m | m in groups - {n} ensures Labelled(others, entries, m) == Labelled(rows, entries, m) {}
      GroupsMakeUp(groups - {n}, others, entries);
      TotalSplit(groups, n);
    }
  }

  lemma ByModelGroups(entries: map<string, Row>)
    ensures Grouped(ByModel(entries), Counted(entries), entries)
  {
    var groups, rows := ByModel(entries), Counted(entries);
    forall n | n in groups ensures groups[n] == |Labelled(rows, entries, n)| {
      if exists k :: k in entries && entries[k].model == Some(n) {
        assert groups[n] == |WithModel(entries, Some(n))|;
        assert Labelled(rows, entries, n) == WithModel(entries, Some(n));
      } else {
        assert n == "unknown" && !ModelNamedUnknown(entries);
        assert Labelled(rows, entries, n) == WithModel(entries, None);
      }
    }
    forall k | k in rows ensures Label(entries[k].model) in groups {
      if entries[k].model.None? {
        assert k in WithModel(entries, None);
      }
    }
  }

  /** The counts by model sum to the number of entries, unless some entry has no model and some
      other has a model that is called "unknown"; then the entries without a model are missing. */
  lemma CountsByModelSum(entries: map<string, Row>)
    ensures Total(ByModel(entries))
            == |entries| - (if ModelNamedUnknown(entries) then |WithModel(entries, None)| else 0)
    ensures Total(ByModel(entries)) == |entries|
            <==> !(ModelNamedUnknown(entries) && exists k :: k in entries && entries[k].model == None)
  {
    hide ByModel, Counted, WithModel, ModelNamedUnknown, Total;
    ByModelGroups(entries);
    GroupsMakeUp(ByModel(entries), Counted(entries), entries);
    CountedSize(entries);
    UnnamedRows(entries);
  }

  lemma CountedSize(entries: map<string, Row>)
    ensures |Counted(entries)| == |entries| - (if ModelNamedUnknown(entries) then |WithModel(entries, None)| else 0)
  {
    var named := set k | k in entries && entries[k].model.Some?;
    var unnamed := WithModel(entries, None);
    assert entries.Keys == named + unnamed && named !! unnamed;
  }

  lemma UnnamedRows(entries: map<string, Row>)
    ensures |WithModel(entries, None)| > 0 <==> exists k :: k in entries && entries[k].model == None
  {
    var unnamed := WithModel(entries, None);
    if k :| k in entries && entries[k].model == None {
      assert k in unnamed;
    } else {
      assert unnamed == {};
    }
  }
}
