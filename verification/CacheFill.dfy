/** The task that reads the upstream stream, forwards it to the client, and records it for the cache. */
module CacheFill {
  import opened Common
  import opened CacheStore
  import Utf8

  lemma {:induction false} BodyPush(chunks: seq<ResponseChunk>, c: ResponseChunk)
    ensures BodyOf(chunks + [c]) == BodyOf(chunks) + c.data
  {
    if chunks == [] {
      assert chunks + [c] == [c];
      assert [c][1..] == [];
    } else {
      BodyPush(chunks[1..], c);
      assert (chunks + [c])[1..] == chunks[1..] + [c];
      Assoc(chunks[0].data, BodyOf(chunks[1..]), c.data);
    }
  }

  lemma BodyUpTo(chunks: seq<ResponseChunk>, i: nat)
    requires i < |chunks|
    ensures BodyOf(chunks[..i + 1]) == BodyOf(chunks[..i]) + chunks[i].data
  {
    BodyPush(chunks[..i], chunks[i]);
    assert chunks[..i] + [chunks[i]] == chunks[..i + 1];
  }

  // ------------------------------------------------------------------------- cutting into strings

  /** The bytes after the whole characters. */
  function Rest(s: string): string {
    s[Utf8.ValidUpTo(s)..]
  }

  /** Whole characters stay whole when more bytes arrive. */
  lemma WholeGrows(s: string, more: string)
    ensures Utf8.Whole(s + more) == Utf8.Whole(s) + Utf8.Whole(Rest(s) + more)
    ensures Rest(s + more) == Rest(Rest(s) + more)
  {
    hide Utf8.ValidUpTo, Utf8.Valid;
    Utf8.LongestValidPrefix(s, 0);
    assert s == Utf8.Whole(s) + Rest(s);
    Assoc(Utf8.Whole(s), Rest(s), more);
    Utf8.ValidUpToConcat(Utf8.Whole(s), Rest(s) + more);
  }

  /** The chunks as strings: after each chunk, the strings so far are the longest valid prefix of
      the bytes so far. */
  ghost predicate IsRecut(chunks: seq<ResponseChunk>, raw: seq<ResponseChunk>) {
    && |chunks| == |raw|
    && (forall i :: 0 <= i < |raw| ==> chunks[i].offsetMs == raw[i].offsetMs)
    && (forall i :: 0 <= i <= |raw| ==> BodyOf(chunks[..i]) == Utf8.Whole(BodyOf(raw[..i])))
  }

  /** There is one way only to cut chunks into strings like this. */
  lemma RecutUnique(a: seq<ResponseChunk>, b: seq<ResponseChunk>, raw: seq<ResponseChunk>)
    requires IsRecut(a, raw) && IsRecut(b, raw)
    ensures a == b
  {
    hide Utf8.Whole, BodyOf;
    forall i | 0 <= i < |raw| ensures a[i] == b[i] {
      BodyUpTo(a, i);
      BodyUpTo(b, i);
      assert a[i].data == BodyOf(a[..i + 1])[|BodyOf(a[..i])|..];
    }
  }

  /** The loop over the recorded chunks, which carries the bytes of a character that is not yet
      complete over to the next chunk. */
  method Recut(raw: seq<ResponseChunk>) returns (chunks: seq<ResponseChunk>, carry: string)
    ensures IsRecut(chunks, raw)
    ensures carry == Rest(BodyOf(raw))
  {
    hide Utf8.Whole, Rest, BodyOf, Utf8.ValidUpTo, Utf8.Valid;
    chunks, carry := [], "";
    NothingWhole(raw);
    for n := 0 to |raw|
      invariant |chunks| == n
      invariant forall i :: 0 <= i < n ==> chunks[i].offsetMs == raw[i].offsetMs
      invariant forall i :: 0 <= i <= n ==> BodyOf(chunks[..i]) == Utf8.Whole(BodyOf(raw[..i]))
      invariant carry == Rest(BodyOf(raw[..n]))
    {
      var buf := carry + raw[n].data;
      ghost var before := chunks;
      BodyUpTo(raw, n);
      WholeGrows(BodyOf(raw[..n]), raw[n].data);
      WholeOrAll(buf);
      BodyPush(chunks, ResponseChunk(raw[n].offsetMs, Utf8.Whole(buf)));
      assert before[..n] == before;
      if Utf8.Valid(buf) {
        chunks, carry := chunks + [ResponseChunk(raw[n].offsetMs, buf)], "";
      } else {
        var validUpTo := Utf8.ValidUpTo(buf);
        chunks, carry := chunks + [ResponseChunk(raw[n].offsetMs, buf[..validUpTo])], buf[validUpTo..];
      }
      assert chunks[..n + 1] == chunks;
      assert forall i :: 0 <= i <= n ==> chunks[..i] == before[..i];
    }
    assert raw[..|raw|] == raw;
  }

  lemma NothingWhole(raw: seq<ResponseChunk>)
    ensures BodyOf(raw[..0]) == "" == BodyOf([]) && Utf8.Whole("") == "" && Rest("") == ""
  {}

  lemma WholeOrAll(buf: string)
    ensures Utf8.Whole(buf) == buf[..Utf8.ValidUpTo(buf)] && Rest(buf) == buf[Utf8.ValidUpTo(buf)..]
    ensures Utf8.Valid(buf) ==> Utf8.Whole(buf) == buf && Rest(buf) == ""
  {
    hide Utf8.ValidUpTo, Utf8.Valid;
    Utf8.ValidUpToWhole(buf);
  }

  /** Every string is whole characters; and nothing is lost exactly if the bytes are valid in all.
      On the way, at most three bytes are carried. */
  lemma RecutIsLossless(chunks: seq<ResponseChunk>, raw: seq<ResponseChunk>)
    requires IsRecut(chunks, raw)
    ensures forall i :: 0 <= i < |raw| ==> Utf8.Valid(chunks[i].data)
    ensures BodyOf(chunks) == BodyOf(raw) <==> Utf8.Valid(BodyOf(raw))
    ensures Utf8.Valid(BodyOf(raw)) ==> TotalLen(chunks) == TotalLen(raw)
    ensures Utf8.Valid(BodyOf(raw)) ==> forall i :: 0 <= i <= |raw| ==> |Rest(BodyOf(raw[..i]))| <= 3
  {
    hide Utf8.Valid, BodyOf, TotalLen;
    forall i | 0 <= i < |raw| ensures Utf8.Valid(chunks[i].data) {
      BodyUpTo(chunks, i);
      WholeIsValid(BodyOf(raw[..i]));
      WholeIsValid(BodyOf(raw[..i + 1]));
      Utf8.ValidSuffix(BodyOf(chunks[..i]), chunks[i].data);
    }
    assert chunks[..|raw|] == chunks && raw[..|raw|] == raw;
    WholeIsValid(BodyOf(raw));
    TotalLenIsBodyLen(chunks);
    TotalLenIsBodyLen(raw);
    if Utf8.Valid(BodyOf(raw)) {
      forall i | 0 <= i <= |raw| ensures |Rest(BodyOf(raw[..i]))| <= 3 {
        BodySplit(raw, i);
        Utf8.IncompleteIsShort(BodyOf(raw[..i]), BodyOf(raw[i..]));
      }
    }
  }

  ghost predicate AllValid(raw: seq<ResponseChunk>) {
    forall i :: 0 <= i < |raw| ==> Utf8.Valid(raw[i].data)
  }

  lemma {:induction false} AllValidBody(raw: seq<ResponseChunk>)
    requires AllValid(raw)
    ensures Utf8.Valid(BodyOf(raw))
  {
    hide Utf8.Valid;
    if raw == [] {
      Utf8.AsciiValid("");
    } else {
      assert AllValid(raw[1..]);
      AllValidBody(raw[1..]);
      Utf8.ValidConcat(raw[0].data, BodyOf(raw[1..]));
    }
  }

  /** Chunks that all end with a character are their own re-cut. */
  lemma ValidIsRecut(raw: seq<ResponseChunk>)
    requires AllValid(raw)
    ensures IsRecut(raw, raw)
  {
    hide Utf8.Valid, BodyOf, Utf8.Whole;
    forall i | 0 <= i <= |raw| ensures BodyOf(raw[..i]) == Utf8.Whole(BodyOf(raw[..i])) {
      AllValidBody(raw[..i]);
      WholeIsValid(BodyOf(raw[..i]));
    }
  }

  /** The chunk boundaries survive exactly if no chunk ends within a character. */
  lemma BoundariesKeptIff(chunks: seq<ResponseChunk>, raw: seq<ResponseChunk>)
    requires IsRecut(chunks, raw)
    ensures chunks == raw <==> AllValid(raw)
  {
    hide Utf8.Valid, BodyOf, IsRecut;
    RecutIsLossless(chunks, raw);
    if AllValid(raw) {
      ValidIsRecut(raw);
      RecutUnique(chunks, raw, raw);
    }
  }

  lemma WholeIsValid(s: string)
    ensures Utf8.Valid(Utf8.Whole(s)) && (Utf8.Whole(s) == s <==> Utf8.Valid(s))
  {
    hide Utf8.ValidUpTo, Utf8.Valid;
    Utf8.LongestValidPrefix(s, 0);
    Utf8.ValidUpToWhole(s);
  }

  lemma {:induction false} BodySplit(raw: seq<ResponseChunk>, i: nat)
    requires i <= |raw|
    ensures BodyOf(raw) == BodyOf(raw[..i]) + BodyOf(raw[i..])
  {
    if i == 0 {
      assert raw[0..] == raw;
    } else {
      BodySplit(raw[1..], i - 1);
      assert raw[1..][..i - 1] == raw[..i][1..] && raw[1..][i - 1..] == raw[i..];
    }
  }

  // ---------------------------------------------------------------------------- reading the stream

  /** What the stream yields: bytes, with the time since the task started, or an error. */
  datatype Item = Bytes(offsetMs: nat, data: string) | Failure

  datatype Outcome = Running | Complete | Disconnected | Broken

  /** What the stream has yielded, what the client's channel has taken, and how it ended. */
  datatype Progress = Progress(received: seq<ResponseChunk>, sent: seq<string>, outcome: Outcome)

  const NO_PROGRESS := Progress([], [], Running)

  /** One turn of the loop; `taken` tells whether the channel still takes what it is sent. */
  function Turn(p: Progress, item: Item, taken: bool): Progress {
    if p.outcome != Running then p
    else match item
      case Bytes(offsetMs, data) =>
        Progress(p.received + [ResponseChunk(offsetMs, data)],
                 if taken then p.sent + [data] else p.sent,
                 if taken then Running else Disconnected)
      case Failure => p.(outcome := Broken)
  }

  /** The end of the stream. */
  function End(p: Progress): Progress {
    if p.outcome == Running then p.(outcome := Complete) else p
  }

  /** The loop over these items; the channel takes what it is sent in the turns in `taken`. */
  function Turns(items: seq<Item>, taken: set<nat>): Progress {
    if items == [] then NO_PROGRESS
    else Turn(Turns(items[..|items| - 1], taken), items[|items| - 1], (|items| - 1) in taken)
  }

  /** What the task knows of its request, and of the head of the upstream response. */
  datatype Job = Job(verb: string, path: string, body: string, bypass: bool, status: nat, contentType: string)

  predicate Success(status: nat) {
    200 <= status <= 299
  }

  predicate DoCache(job: Job) {
    !job.bypass && Success(job.status)
  }

  /** When the task writes to the cache. */
  predicate Storable(job: Job, p: Progress) {
    p.outcome == Complete && DoCache(job) && Utf8.Valid(BodyOf(p.received)) && Utf8.Valid(job.body)
  }

  /** And what it writes. */
  ghost predicate Records(x: Exchange, job: Job, p: Progress) {
    && x.request == RequestRecord(job.verb, job.path, job.body)
    && x.status == job.status && x.contentType == job.contentType
    && IsRecut(x.chunks, p.received)
  }

  /** What the task has in its variables, `recorded` and `buf` only for the cache. */
  ghost predicate Holds(p: Progress, doCache: bool, sent: seq<string>, recorded: seq<ResponseChunk>, buf: string) {
    sent == p.sent && (doCache ==> recorded == p.received && buf == BodyOf(p.received))
  }

  /** The loop that reads, records and forwards. */
  method Forward(items: seq<Item>, taken: set<nat>, doCache: bool)
    returns (sent: seq<string>, chunksRaw: seq<ResponseChunk>, responseBuf: string, streamComplete: bool)
    ensures Holds(Turns(items, taken), doCache, sent, chunksRaw, responseBuf)
    ensures streamComplete <==> Turns(items, taken).outcome == Running
  {
    hide Holds, Turns, Turn;
    sent, chunksRaw, responseBuf := [], [], "";
    TurnsStart(items, taken, doCache);
    var n := 0;
    while n < |items|
      invariant n <= |items|
      invariant Holds(Turns(items[..n], taken), doCache, sent, chunksRaw, responseBuf)
      invariant Turns(items[..n], taken).outcome == Running
    {
      var item := items[n];
      TurnsStep(items, taken, n);
      TurnsStay(items, taken, n + 1);
      TurnHolds(Turns(items[..n], taken), item, n in taken, doCache, sent, chunksRaw, responseBuf);
      if item.Failure? {
        return sent, chunksRaw, responseBuf, false;
      }
      if doCache {
        responseBuf := responseBuf + item.data;
        chunksRaw := chunksRaw + [ResponseChunk(item.offsetMs, item.data)];
      }
      if n !in taken {
        return sent, chunksRaw, responseBuf, false;
      }
      sent := sent + [item.data];
      n := n + 1;
    }
    TurnsAll(items, taken);
    streamComplete := true;
  }

  lemma TurnHolds(p: Progress, item: Item, taken: bool, doCache: bool, sent: seq<string>, recorded: seq<ResponseChunk>,
                  buf: string)
    requires Holds(p, doCache, sent, recorded, buf) && p.outcome == Running
    ensures var q := Turn(p, item, taken);
            && (q.outcome == Running <==> item.Bytes? && taken)
            && (item.Failure? ==> Holds(q, doCache, sent, recorded, buf))
            && (item.Bytes? ==>
                  var c := ResponseChunk(item.offsetMs, item.data);
                  Holds(q, doCache, if taken then sent + [item.data] else sent,
                        if doCache then recorded + [c] else recorded, if doCache then buf + item.data else buf))
  {
    hide BodyOf;
    if item.Bytes? {
      BodyPush(p.received, ResponseChunk(item.offsetMs, item.data));
    }
  }

  /** The whole task, up to the write. */
  method Fill(items: seq<Item>, taken: set<nat>, job: Job) returns (sent: seq<string>, exchange: Option<Exchange>)
    ensures var p := End(Turns(items, taken));
            && sent == p.sent
            && (exchange.Some? <==> Storable(job, p))
            && (exchange.Some? ==> Records(exchange.value, job, p))
  {
    hide IsRecut, BodyOf, Utf8.Valid, Turns;
    TurnsMeaning(items, taken);
    var doCache := DoCache(job);
    var chunksRaw, responseBuf, streamComplete;
    sent, chunksRaw, responseBuf, streamComplete := Forward(items, taken, doCache);
    exchange := None;
    if streamComplete && doCache && Utf8.Valid(responseBuf) && Utf8.Valid(job.body) {
      var chunks, _ := Recut(chunksRaw);
      exchange := Some(Exchange(RequestRecord(job.verb, job.path, job.body), job.status, job.contentType, chunks));
    }
  }

  lemma TurnsStart(items: seq<Item>, taken: set<nat>, doCache: bool)
    ensures Turns(items[..0], taken).outcome == Running
    ensures Holds(Turns(items[..0], taken), doCache, [], [], "")
  {}

  lemma TurnsAll(items: seq<Item>, taken: set<nat>)
    ensures Turns(items[..|items|], taken) == Turns(items, taken)
  {
    assert items[..|items|] == items;
  }

  lemma TurnsStep(items: seq<Item>, taken: set<nat>, n: nat)
    requires n < |items|
    ensures Turns(items[..n + 1], taken) == Turn(Turns(items[..n], taken), items[n], n in taken)
  {
    assert items[..n + 1][..n] == items[..n];
  }

  /** Nothing happens after the loop has been left. */
  lemma {:induction false} TurnsStay(items: seq<Item>, taken: set<nat>, n: nat)
    requires n <= |items|
    ensures Turns(items[..n], taken).outcome != Running ==> Turns(items, taken) == Turns(items[..n], taken)
    decreases |items|
  {
    if n == |items| {
      assert items[..n] == items;
    } else {
      var before := items[..|items| - 1];
      assert before[..n] == items[..n];
      TurnsStay(before, taken, n);
    }
  }

  /** Only the answers to the sends that were made matter. */
  lemma {:induction false} TurnsLocal(items: seq<Item>, a: set<nat>, b: set<nat>)
    requires forall n :: 0 <= n < |items| ==> (n in a <==> n in b)
    ensures Turns(items, a) == Turns(items, b)
  {
    hide Turn;
    if items != [] { TurnsLocal(items[..|items| - 1], a, b); }
  }

  lemma TurnsPush(items: seq<Item>, taken: set<nat>, item: Item, ok: bool)
    ensures Turn(Turns(items, taken), item, ok)
            == Turns(items + [item], if ok then taken + {|items|} else taken - {|items|})
  {
    hide Turn;
    var after := if ok then taken + {|items|} else taken - {|items|};
    assert (items + [item])[..|items|] == items;
    TurnsLocal(items, taken, after);
  }

  // ------------------------------------------------------------------------- the task, from outside

  function Data(item: Item): string {
    match item case Bytes(_, data) => data case Failure => ""
  }

  /** The bytes of the items, one after the other. */
  function Text(items: seq<Item>): string {
    if items == [] then "" else Data(items[0]) + Text(items[1..])
  }

  /** The items as chunks. */
  function Chunks(items: seq<Item>): seq<ResponseChunk> {
    if items == [] then []
    else Chunks(items[..|items| - 1])
         + (match items[|items| - 1] case Bytes(offsetMs, data) => [ResponseChunk(offsetMs, data)] case Failure => [])
  }

  lemma {:induction false} TextPush(items: seq<Item>, item: Item)
    ensures Text(items + [item]) == Text(items) + Data(item)
  {
    hide Data;
    if items == [] {
      assert items + [item] == [item];
      assert [item][1..] == [];
    } else {
      TextPush(items[1..], item);
      assert (items + [item])[1..] == items[1..] + [item];
      Assoc(Data(items[0]), Text(items[1..]), Data(item));
    }
  }

  ghost predicate AllArrived(items: seq<Item>, taken: set<nat>) {
    forall n :: 0 <= n < |items| ==> items[n].Bytes? && n in taken
  }

  /** The loop is still running exactly if every item was data that the client took; then it has
      received, and sent, all of it. */
  lemma {:induction false} TurnsMeaning(items: seq<Item>, taken: set<nat>)
    ensures var p := Turns(items, taken);
            && p.outcome != Complete
            && (p.outcome == Running <==> AllArrived(items, taken))
            && (p.outcome == Running ==>
                  && p.received == Chunks(items) && |p.received| == |p.sent| == |items|
                  && Concat(p.sent) == BodyOf(p.received) == Text(items))
  {
    hide Concat, BodyOf, Text;
    if items == [] {
      ConcatNone<char>();
      NothingWhole([]);
      NoText();
    } else {
      var init, last := items[..|items| - 1], items[|items| - 1];
      TurnsMeaning(init, taken);
      var p := Turns(init, taken);
      assert items == init + [last];
      AllArrivedPush(items, taken);
      if p.outcome == Running && last.Bytes? {
        BodyPush(p.received, ResponseChunk(last.offsetMs, last.data));
        ConcatPush(p.sent, last.data);
        TextPush(init, last);
      }
    }
  }

  /** However the loop ends, the client has been sent what the stream yielded, from its start. */
  lemma {:induction false} SentIsReceived(items: seq<Item>, taken: set<nat>)
    ensures Concat(Turns(items, taken).sent) <= BodyOf(Turns(items, taken).received)
  {
    hide Concat, BodyOf;
    if items == [] {
      ConcatNone<char>();
      NothingWhole([]);
    } else {
      var init, last := items[..|items| - 1], items[|items| - 1];
      var p := Turns(init, taken);
      SentIsReceived(init, taken);
      TurnsMeaning(init, taken);
      if p.outcome == Running && last.Bytes? {
        BodyPush(p.received, ResponseChunk(last.offsetMs, last.data));
        ConcatPush(p.sent, last.data);
      }
    }
  }

  lemma NoText()
    ensures Text([]) == ""
  {}

  lemma AllArrivedPush(items: seq<Item>, taken: set<nat>)
    requires items != []
    ensures AllArrived(items, taken)
            <==> AllArrived(items[..|items| - 1], taken) && items[|items| - 1].Bytes? && (|items| - 1) in taken
  {}

  /** An exchange is stored exactly if the response is a success that was not to bypass the cache,
      all of it arrived, the client took all of it, and both bodies are UTF-8; and what is stored
      then is as many chunks with the same bytes in all as the client was sent. */
  lemma FillTheorem(items: seq<Item>, taken: set<nat>, job: Job)
    ensures var p := End(Turns(items, taken));
            && (Storable(job, p) <==>
                  && !job.bypass && 200 <= job.status < 300 && AllArrived(items, taken)
                  && Utf8.Valid(Text(items)) && Utf8.Valid(job.body))
            && (forall x :: Storable(job, p) && Records(x, job, p) ==>
                  IsRecut(x.chunks, Chunks(items)) && BodyOf(x.chunks) == Text(items) == Concat(p.sent))
  {
    hide BodyOf, Text, Concat, Turns, IsRecut, Chunks, Utf8.Valid;
    TurnsMeaning(items, taken);
    var p := End(Turns(items, taken));
    forall x | Storable(job, p) && Records(x, job, p)
      ensures IsRecut(x.chunks, Chunks(items)) && BodyOf(x.chunks) == Text(items) == Concat(p.sent)
    {
      RecutIsLossless(x.chunks, p.received);
    }
  }
}
