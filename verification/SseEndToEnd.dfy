/** The whole way of an event stream: from chunks of bytes to the text that a client reads. */
module SseEndToEnd {
  import opened Common
  import opened Fakes
  import opened SseFields
  import opened SseFrames
  import opened SseMachine
  import opened SsePoll
  import opened SseClient
  import opened SseWire
  import Json
  import Utf8

  /** However the bytes of a response arrive, the stream sends the same frames; a client that cuts the
      bytes it gets into frames gets just these; and in them it reads, for every field that shares its
      key with no other, the text of that field restored as if each stretch had been restored at once. */
  lemma EndToEnd(config: Config, first: string, inner: seq<Input>, k: FieldKey)
    requires IsSseFirstChunk(first) && NoFailure(inner)
    requires var all := first + Concat(ChunksOf(inner)); Utf8.Valid(all) && !HasCrCrLf(all)
    requires WellFormed(config.ctx.entries) && OverlapFree(config.ctx.entries) && Json.Faithful(config.ctx.codec)
    requires forall d :: d in config.ctx.entries ==> Utf8.Valid(d.original)
    ensures var ctx, all := config.ctx, first + Concat(ChunksOf(inner));
            var frames, wire := Frames(Normalize(all)), Sent(ctx, all) + Leftover(all);
            && DetectItems(config, [Chunk(first)] + inner) == Items(wire)
            && Frames(Normalize(Concat(wire))) == Sent(ctx, all)
            && (ClientText(ctx, Frames(Normalize(Concat(wire))), ReadKey(k)) == WholeText(ctx, frames, k)
                <==> Alone(ctx, frames, k))
            && (!ctx.provider.Gemini? ==>
                  ClientText(ctx, Frames(Normalize(Concat(wire))), k) == WholeText(ctx, frames, k))
  {
    hide Restorable, GoodOut, DetectItems, Frames, Normalize, Rest, Utf8.Valid, HasCrCrLf, WellFormed, OverlapFree,
         Json.Faithful, RunFrames, Render, Finish, WholeText, ClientText, Items, ReadKey, Alone, Concat;
    var ctx := config.ctx;
    var all := first + Concat(ChunksOf(inner));
    var frames := Frames(Normalize(all));
    var s := RunFrames(ctx, EMPTY, frames);
    ChunkingIndependence(config, first, inner);
    RenderSum(ctx, s.out, Finish(ctx, s.after).out);
    Assoc(Render(ctx, s.out), Render(ctx, Finish(ctx, s.after).out), Leftover(all));
    SentSum(ctx, frames);
    GoodIsRestorable(ctx, s.out + Finish(ctx, s.after).out);
    RestorableSum(ctx, s.out, Finish(ctx, s.after).out);
    ClientSeesRestoredText(ctx, frames, k);
    WireIsCutAsSent(ctx, all);
  }
}
