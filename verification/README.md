# A verified model of the LLM caching proxy

The proxy sits between a client and a provider of language models. Secrets in a request are replaced by
fakes before it goes upstream; the response comes back as a stream of events, cut into arbitrary chunks, in
which the fakes have to be turned back into the secrets while the text is still flowing. Responses are also
recorded in a cache, under a key made from a normal form of the request, and replayed later. This project
models those four parts and proves what they are for.

- `Utf8`, `Fakes`, `SlidingWindow`, `FieldStream`: the text side of streaming restoration. One buffer, the
  hold window with its retraction and its walk back to a character, and the theorem that releasing text piece
  by piece restores what restoring the whole text at once restores, in every state and for every future. The
  condition on the fakes is shown to be exact.
- `Order`, `Json`, `SseFields`, `SseFrames`, `SseEvents`, `SseMachine`: events. Frames are cut as section
  9.2.5 of the WHATWG HTML Living Standard describes it, as far as the program implements it; text fields are
  taken out of the JSON of four providers; buffers are kept per field; frames that end a block or the stream
  flush them; synthetic frames are built and are read back.
- `SseReading`, `SseExtract`, `SseMetadata`, `SseMeaning`: what the lines of any frame say, where in the JSON of
  each provider the text of each field stands, what else of an event is kept, and which frames end what, all said
  apart from the functions that compute it.
- `SseRuns`, `SsePoll`, `SseClient`, `SseWire`, `SseEndToEnd`: properties of whole runs, of all polls together,
  of what a client reads in the end, and of the bytes it reads it from. `SseStream` has the stream itself: an
  object whose fields change with each poll, each method proved against the functions of the modules above.
- `Normalize`: the in-place stripping and sorting of a request body, the normal form it computes (canonical:
  sound and complete), and the string that is hashed.
- `CacheStore`: the cache as an object over three tables, and what every sequence of operations keeps.
- `CacheFill`: the task that reads a response, forwards it, records it and cuts the bytes into strings.
- `Proxy`: any number of requests, disconnects, errors and clears interleaved over one shared cache.
- `ProxyHandle`: the handling of one request in one go, proved to be a run of those steps.
- `Common`: an option type and concatenation. `JsonWitness`: what is asked of a JSON codec can be had.

A byte string is a Dafny `string` with one byte per `char`, so that a literal is its own encoding. UTF-8 is
defined as in section 4 of RFC 3629, JSON values as in section 4 of RFC 8259, and pointers into them as in
RFC 6901. The classes `SseRestoreStream` and `Cache` keep the fields of the originals and change them in
place; loops over arrays of chunks, fakes, fields and names are loops here as well.

A parsed JSON object comes with its members in the order of their names, because the maps of the program are
sorted maps: `Json.Parsed` says so, and a codec is asked to read back such values only. The sort of
normalisation therefore finds nothing to do (`ParsedIsSorted`); it is proved for members in any order all the
same.

Where the repository's documentation and its code differ, the model follows the code. A body that is not JSON is
documented to be hashed as it is, but its lossy reading is hashed, and so a request whose body is not UTF-8 can
be answered with the response to another body; `HitIsForSameRequest` says that this is so for such bodies and
for no others, and `WrongHitWitness` is a run of this kind. "The same request" is meant up to the query, which
is sent upstream and not hashed (`OtherQueryHits`). The documented hold window of at most the longest fake per
field is exceeded by the retraction and by the walk back to a character. It is proved when the window is kept
(`WindowKeptIff`), what bound is kept always (`HoldBoundAlways`), and that this bound is met for every length
(`HoldBoundIsReached`). Other properties that one would expect hold under a condition only, which is proved to
be exact: streaming restores every text if and only if no fake overlaps a fake (`StreamingIffOverlapFree`,
`SeesRestoredTextIffOverlapFree`), the cutting into frames is independent of the chunks if and only if valid
text holds no `\r\r\n`, with a condition for other bytes as well (`ChunkingIndependentIff`), a field is read as
it was if and only if it shares its key with no other text (`ClientSeesRestoredText`), two methods and paths can
be hashed as one string if and only if one head starts the other (`HashInputAmbiguousIff`), and the counts by
model sum to the number of entries unless an entry without a model meets a model that is called "unknown"
(`CountsByModelSum`).

## Model

| member | source | states |
|---|---|---|
| Utf8.CharLenIff | crates/lcp-server/src/ext/sse_restore.rs:841-845 | a string starts with a character if and only if it starts with the encoded bytes of some code point that is no surrogate, and then as many bytes of it are that character |
| Utf8.ValidIff | crates/lcp-server/src/ext/sse_restore.rs:841-845 | the strings that `from_utf8` accepts are the encoded sequences of code points and no others |
| Utf8.LongestValidPrefix | crates/lcp-server/src/proxy.rs:330-335 | `valid_up_to` cuts off the longest prefix that is valid UTF-8 |
| Utf8.ValidUpToConcat | crates/lcp-server/src/proxy.rs:323-335 | the valid length of a valid string followed by more is its length plus the valid length of the rest |
| Utf8.IncompleteIsShort | crates/lcp-server/src/proxy.rs:319-335 | a prefix of valid text has at most three bytes after its last whole character |
| Utf8.FloorIsNear | crates/lcp-server/src/ext/sse_restore.rs:1104-1111 | the walk back to a character boundary in valid text costs at most three bytes |
| Utf8.FloorIsLargest | crates/lcp-server/src/ext/sse_restore.rs:1104-1111 | it stops at the largest boundary at or below the target |
| Utf8.OccurrenceOnBoundaries | crates/lcp-server/src/ext/sse_restore.rs:1104-1116 | a whole valid fake in valid text starts and ends at character boundaries, so that the walk back never enters one |
| Fakes.RestoreAllIsTheRestoration | crates/lcp-server/src/ext/sse_restore.rs:1118-1121 | for fakes that neither overlap nor contain one another there is exactly one way to replace every occurrence, whatever order a matcher uses, and the left-to-right scan finds it |
| Fakes.RestoreSplit | crates/lcp-server/src/ext/sse_restore.rs:1061-1069 | restoring two parts separately equals restoring the whole if no fake straddles the cut |
| Fakes.RestoreKeepsUtf8 | crates/lcp-server/src/ext/sse_restore.rs:1122-1123 | restored text is valid UTF-8, so that the conversion after restoring cannot fail |
| SlidingWindow.SafeTarget | crates/lcp-server/src/ext/sse_restore.rs:1078-1112 | the flush in its own loops: how many bytes it releases is the cut point of the specification |
| SlidingWindow.Retracted | crates/lcp-server/src/ext/sse_restore.rs:1086-1099 | the nested loops over fakes and lengths find the leftmost start of a fake that runs into the nominal boundary |
| SlidingWindow.CutIsSafe | crates/lcp-server/src/ext/sse_restore.rs:1078-1116 | no occurrence of a fake, in the buffer or in any continuation of it, straddles the chosen cut |
| SlidingWindow.CutRestores | crates/lcp-server/src/ext/sse_restore.rs:1078-1128 | restoring what is released and, later, what is kept with whatever follows equals restoring it all at once |
| SlidingWindow.SafeIffOverlapFree | crates/lcp-server/src/ext/sse_restore.rs:1083-1102 | every cut of every valid text is safe in every future if and only if no fake overlaps a fake |
| SlidingWindow.BadTextIsCutInside | crates/lcp-server/src/ext/sse_restore.rs:1083-1102 | any overlap of two fakes yields a text that is cut inside a complete fake |
| SlidingWindow.TwoFakesWitness | crates/lcp-server/src/ext/sse_restore.rs:1086-1099 | with fakes "ab" and "bc" the text "abxy" is cut after its first byte and "ab" is not restored |
| SlidingWindow.BorderedFakeWitness | crates/lcp-server/src/ext/sse_restore.rs:1086-1099 | a single fake "aba" is cut in "abaxyz" |
| SlidingWindow.HeldIsBounded | crates/lcp-server/src/ext/sse_restore.rs:1078-1115 | a buffer from which nothing is released holds at most L + max(L - 1, 3) bytes, L the longest fake; none when L is 0 |
| SlidingWindow.HoldBoundIsTight | crates/lcp-server/src/ext/sse_restore.rs:1078-1115 | for every L > 0 one fake of L bytes that does not overlap itself, and one valid text of exactly as many bytes as the bound allows, of which nothing is released |
| SlidingWindow.WithinWindowIff | crates/lcp-server/src/ext/sse_restore.rs:1078-1115 | a flush leaves at most the window if and only if there was no more, or the nominal boundary falls between characters and no proper start of a fake ends there |
| SlidingWindow.SecondFlushIsIdle | crates/lcp-server/src/ext/sse_restore.rs:1078-1115 | flushing again without new text releases nothing |
| FieldStream.NothingLost | crates/lcp-server/src/ext/sse_restore.rs:1118-1128 | with no assumption on the fakes, the raw pieces released and the text held make up the text received |
| FieldStream.StreamingRefinesOneShot | crates/lcp-server/src/ext/sse_restore.rs:1070-1130 | in every reachable state, for every split of the text and every text still to come, what is out and what the held text will yield equals restoring at once |
| FieldStream.FieldTheorem | crates/lcp-server/src/ext/sse_restore.rs:1070-1149 | what is out is always a prefix of the restored text, and all of it after a complete flush |
| FieldStream.StreamingIffOverlapFree | crates/lcp-server/src/ext/sse_restore.rs:1070-1130 | for fakes that differ from their originals and share some ASCII byte that none of them holds: streaming restores every text in any pieces if and only if no fake overlaps a fake |
| FieldStream.OverlapLosesSecret | crates/lcp-server/src/ext/sse_restore.rs:1083-1102 | each overlap has a concrete response in which the client gets the fake itself where the restored text has the original |
| FieldStream.CompleteEmpties | crates/lcp-server/src/ext/sse_restore.rs:1132-1149 | a flush with window 0 releases everything |
| Order.StringLessIff | crates/lcp-core/src/hash.rs:87-87 | a string comes before another if and only if it is a proper prefix of it or has the smaller byte where they first differ |
| SseFields.KeyLessIff | crates/lcp-server/src/ext/sse_restore.rs:25-42 | keys are ordered as their declaration derives it: by variant, then by the fields from the left |
| SseFields.KeyOrder | crates/lcp-server/src/ext/sse_restore.rs:25-42 | the derived order of the field keys is total and irreflexive |
| SseFields.ExtractedAreSound | crates/lcp-server/src/ext/sse_restore.rs:95-323 | whatever is extracted carries valid UTF-8 under a key that this provider can have |
| SseFields.SyntheticReadBack | crates/lcp-server/src/ext/sse_restore.rs:1164-1261 | extracting from the JSON of a synthetic event gives exactly its text under its key; Gemini loses the thought flag and the part index only |
| SseFields.SyntheticIsNoTerminal | crates/lcp-server/src/ext/sse_restore.rs:882-929 | a synthetic event is never classified as an end |
| SseExtract.ExtractedIsTextAt | crates/lcp-server/src/ext/sse_restore.rs:95-323 | of every event, for every provider, event name and key: the text extracted under the key is the strings at the places of that key, one after the other, and nothing is extracted elsewhere; and an event counts as one with text if and only if one of the listed places has a string, not empty where the code skips empty ones |
| SseMetadata.MetadataIs | crates/lcp-server/src/ext/sse_restore.rs:1001-1042 | of a Gemini event the signature and the grounding are kept unchanged and, of the last function call that has any, its name and exactly the arguments that are no strings; nothing else is kept, and no metadata arises only if there is none of these |
| SseReading.LinesJoin | crates/lcp-server/src/ext/sse_restore.rs:939-946 | for every text: its lines, each with its line feed or carriage return and line feed, make up the text |
| SseReading.LinesUnique | crates/lcp-server/src/ext/sse_restore.rs:939-946 | there is only one such way to part a text into lines |
| SseReading.DataIsFirst | crates/lcp-server/src/ext/sse_restore.rs:944-946 | for any lines: the data is what follows the colon of the first line that starts with "data:", without one space; there is none if no line starts so |
| SseReading.EventIsFirst | crates/lcp-server/src/ext/sse_restore.rs:939-943 | for any lines: the event is what follows the colon of the first line that starts with "event:" and has something there, without one space; there is none if no line does |
| SseReading.SpacelessIsRead | crates/lcp-server/src/ext/sse_restore.rs:939-946 | a frame written without spaces after the colons is read like the one with spaces |
| SseReading.IsDoneIff | crates/lcp-server/src/ext/sse_restore.rs:960-960 | data ends the stream as `[DONE]` if and only if it is that with nothing but Unicode white space around it |
| SseEvents.FrameReadBack | crates/lcp-server/src/ext/sse_restore.rs:939-946 | the lines of a frame give back the event name and the data that it was built from |
| SseEvents.FrameIsWhole | crates/lcp-server/src/ext/sse_restore.rs:846-860 | a frame that is built is one frame when cut again, unchanged by normalisation |
| SseEvents.SyntheticLines | crates/lcp-server/src/ext/sse_restore.rs:1164-1261 | the lines of a synthetic frame are the event name of its kind, if it has one, and the JSON of its kind |
| SseEvents.SyntheticFrameReadBack | crates/lcp-server/src/ext/sse_restore.rs:1164-1261 | read back from its bytes, a synthetic frame carries its text under its key |
| SseFrames.FrameLenIsFirst | crates/lcp-server/src/ext/sse_restore.rs:849-850 | a frame ends where the first blank line ends |
| SseFrames.SplitIsExact | crates/lcp-server/src/ext/sse_restore.rs:846-862 | frames and rest make up the text; each frame ends at its first blank line and the rest holds none |
| SseFrames.FramesConcat | crates/lcp-server/src/ext/sse_restore.rs:846-862 | cutting the rest together with what follows adds to the frames and changes none |
| SseFrames.NormalizeRemovesPairs | crates/lcp-server/src/ext/sse_restore.rs:846-846 | text without `\r\r\n` has no `\r\n` left after normalisation |
| SseFrames.RestThenMore | crates/lcp-server/src/ext/sse_restore.rs:846-862 | normalising the kept rest again is harmless if there is no `\r\r\n`, even when a cut parts a `\r\n` |
| SseFrames.CutAllIsWhole | crates/lcp-server/src/ext/sse_restore.rs:832-864 | for any chunks, also ones that part a character, the frames are those of the whole |
| SseFrames.ChunkingIndependentIff | crates/lcp-server/src/ext/sse_restore.rs:832-864 | for all bytes: all ways to cut them into chunks give the same frames and the same rest if and only if they are UTF-8 without `\r\r\n`, or they are not UTF-8 and what stands before the first byte that is no character holds neither `\r\n` nor a frame |
| SseMachine.FlushFor | crates/lcp-server/src/ext/sse_restore.rs:1135-1149 | flushing all buffers in a scope does to each covered buffer what flushing it alone does, and nothing to the others |
| SseMachine.AppendAllHeld | crates/lcp-server/src/ext/sse_restore.rs:994-999 | appending fields keeps the buffers in key order and adds to each buffer its own pieces |
| SseMachine.RunFor | crates/lcp-server/src/ext/sse_restore.rs:932-1057 | seen from one key, a run over all frames is a run of that field alone |
| SseRuns.NonInterference | crates/lcp-server/src/ext/sse_restore.rs:994-1054 | what is released for a field depends only on that field's own text and the complete flushes that reach it |
| SseRuns.TextConserved | crates/lcp-server/src/ext/sse_restore.rs:1038-1130 | for each field, released pieces and held text make up the text received, whatever the fakes |
| SseMeaning.ReceivedIsTextAt | crates/lcp-server/src/ext/sse_restore.rs:994-999 | and that text is the strings at the places of the field in all frames, in order |
| SseRuns.FramesConserved | crates/lcp-server/src/ext/sse_restore.rs:948-992 | each frame without text comes out once, unchanged, in order; metadata comes out in the order it came in, or is still deferred |
| SseRuns.FinishConserves | crates/lcp-server/src/ext/sse_restore.rs:770-787 | the end of input releases all held text and all deferred metadata, once |
| SseRuns.TerminalOrdering | crates/lcp-server/src/ext/sse_restore.rs:954-992 | before the frame that ends the stream, all text received has gone out and every buffer is empty; under Gemini all metadata has gone out too, and what was deferred until then comes after all of the text |
| SseMeaning.FramesWithoutText | crates/lcp-server/src/ext/sse_restore.rs:882-992 | for each provider, said of the JSON and the event name: which frames without text end the stream, in the sense of `TerminalOrdering`, which end one block, and that every other one is passed on at once and releases nothing |
| SseMeaning.FramesWithText | crates/lcp-server/src/ext/sse_restore.rs:994-1057 | a frame with text is never passed on; what comes out is released text, and its metadata is deferred |
| SseMeaning.FramesWithoutJson | crates/lcp-server/src/ext/sse_restore.rs:948-967 | a frame without JSON is passed on at once, unless it is `[DONE]` under OpenAI or OpenRouter, which goes out after all text |
| SseMeaning.SpacelessIsSame | crates/lcp-server/src/ext/sse_restore.rs:939-946 | spaces after the colons make no difference to what a frame does |
| SseRuns.DoneEndsStream | crates/lcp-server/src/ext/sse_restore.rs:954-967 | `[DONE]` under OpenAI and OpenRouter goes out after all text in that sense, and elsewhere it is passed on and releases nothing |
| SseRuns.BlockIsolation | crates/lcp-server/src/ext/sse_restore.rs:882-992 | over any run, a `content_block_stop` of block n empties the buffers of that block, leaves all others as they are, and puts the text before the stop in key order; one without an index goes out after all text |
| SseRuns.ResponseRestored | crates/lcp-server/src/ext/sse_restore.rs:932-1130 | over a whole response, each field comes out as if each stretch up to a complete flush had been restored at once |
| SseRuns.AlwaysAPrefix | crates/lcp-server/src/ext/sse_restore.rs:1044-1130 | at every moment, what is out for a field is a prefix of that |
| SseRuns.HoldBoundAlways | crates/lcp-server/src/ext/sse_restore.rs:1044-1115 | in every reachable state every buffer is within the hold bound and another flush would release nothing |
| SseRuns.WindowKeptIff | crates/lcp-server/src/ext/sse_restore.rs:489-495 | after new text a buffer is within the documented window if and only if its text was, or the nominal boundary falls between characters and no proper start of a fake ends there |
| SseRuns.HoldBoundIsReached | crates/lcp-server/src/ext/sse_restore.rs:489-495 | for every length L of the longest fake, one piece of valid text makes a buffer hold more than the documented window, and exactly the bound |
| SsePoll.FirstChunkIff | crates/lcp-server/src/ext/sse_restore.rs:84-89 | a response is taken for an event stream if and only if it starts with "data:", "event:", or a comment that is empty or has a space; never if it starts with a brace or a bracket |
| SsePoll.LeadingBlanks | crates/lcp-server/src/ext/sse_restore.rs:579-590 | empty chunks before the first one change nothing |
| SsePoll.RawIsWhole | crates/lcp-server/src/ext/sse_restore.rs:606-675 | a response that is no event stream is restored as a whole, its chunks in the order in which they came |
| SsePoll.StreamIsPass | crates/lcp-server/src/ext/sse_restore.rs:677-804 | all polls together, with inputs that were not ready, yield one pass over the chunks; or its beginning and an error, exactly if some restored piece of that pass is not UTF-8 |
| SsePoll.ChunkingIndependence | crates/lcp-server/src/ext/sse_restore.rs:677-864 | an event stream of valid UTF-8 without `\r\r\n` yields the same items however it is cut into chunks; whether it fails on a restored piece that is not UTF-8 does not depend on the chunks either, and then it yields some beginning of them and the error |
| SsePoll.TripleWitness | crates/lcp-server/src/ext/sse_restore.rs:861-862 | one text with `\r\r\n`, cut in two ways, yields two outputs |
| SsePoll.ErrorKeepsPrefix | crates/lcp-server/src/ext/sse_restore.rs:739-769 | on an upstream error the items yielded before it begin every run that continues from there without it; unless the stream fails on its own before, and then it does so in all of them |
| SseStream.SseRestoreStream.FlushSafePrefix | crates/lcp-server/src/ext/sse_restore.rs:1070-1130 | one buffer and the output queue change as the specification of a flush says; it fails, and changes nothing, if and only if the restored piece is not UTF-8 |
| SseStream.SseRestoreStream.FlushAccumulatorsWhere | crates/lcp-server/src/ext/sse_restore.rs:1135-1149 | the loop over the buffers flushes those in the scope, in key order; it fails if and only if one of them does |
| SseStream.SseRestoreStream.ProcessOneFrame | crates/lcp-server/src/ext/sse_restore.rs:932-1057 | buffers, queue and deferred metadata after a frame are those of the specification; it fails if and only if a piece restored for it is not UTF-8 |
| SseStream.SseRestoreStream.ProcessSseChunk | crates/lcp-server/src/ext/sse_restore.rs:832-864 | the loop over a chunk processes its complete frames and keeps the rest, or waits within a character; it fails if and only if one of the frames does |
| SseStream.SseRestoreStream.PollNext | crates/lcp-server/src/ext/sse_restore.rs:570-819 | each poll yields the next of the items still to come or none, among them the errors of the input and of restoring; it terminates; a pending poll has used up input; a queued frame is yielded before the input is polled; after the end or an error nothing more comes |
| SseStream.SseRestoreStream.PollStreaming | crates/lcp-server/src/ext/sse_restore.rs:677-804 | one turn of the streaming state keeps the items still to come and makes progress |
| SseStream.Drain | crates/lcp-server/src/ext/sse_restore.rs:567-820 | polling to the end yields exactly the items that the specification gives for the input |
| SseClient.ClientReads | crates/lcp-server/src/ext/sse_restore.rs:1118-1128 | a client that reads the output with the same extraction finds, under each key, exactly the restored text sent to it, in order; metadata and passed frames add none |
| SseClient.MetadataCarriesNoText | crates/lcp-server/src/ext/sse_restore.rs:1001-1042 | a deferred metadata frame carries no text field |
| SseClient.GoodIsRestorable | crates/lcp-server/src/ext/sse_restore.rs:1122-1123 | with originals that are UTF-8 no restored piece of a response fails |
| SseClient.ClientSeesRestoredText | crates/lcp-server/src/ext/sse_restore.rs:932-1261 | for every provider, the client finds under the key of a field exactly its restored text if and only if no other field brings text that is read under that key; only keys of Gemini can share one |
| SseClient.OverlapReachesClient | crates/lcp-server/src/ext/sse_restore.rs:1083-1102 | each overlap of two fakes has a response of one frame in which the client reads the fake itself where it should read the original |
| SseClient.SeesRestoredTextIffOverlapFree | crates/lcp-server/src/ext/sse_restore.rs:932-1261 | the client reads all responses restored if and only if no fake overlaps a fake |
| SseClient.ThoughtReadAsText | crates/lcp-server/src/ext/sse_restore.rs:1237-1242 | a thought and a text in one Gemini event: the client reads neither of the two fields as it was |
| SseWire.WholeFramesRecut | crates/lcp-server/src/ext/sse_restore.rs:846-860 | frames put out one after the other are cut into just these frames again |
| SseWire.WireIsCutAsSent | crates/lcp-server/src/ext/sse_restore.rs:832-864 | cutting the whole output, as bytes, gives exactly the frames that were sent, whatever bytes are left at its end |
| SseEndToEnd.EndToEnd | crates/lcp-server/src/ext/sse_restore.rs:567-864 | from chunks of bytes to what the client reads from the bytes it gets: the chunks do not matter, the frames are those sent, and every field is restored, under Gemini exactly when it shares its key with no other text |
| Normalize.StripFields | crates/lcp-core/src/hash.rs:65-74 | removing names and then entering the values left is the recursive deletion of the specification |
| Normalize.StripMeaning | crates/lcp-core/src/hash.rs:65-74 | a path through objects leads nowhere after stripping exactly if a listed name is on it; what is no object is reached unchanged |
| Normalize.StripTwice | crates/lcp-core/src/hash.rs:59-60 | two passes strip what one pass with both lists strips |
| Normalize.SortKeys | crates/lcp-core/src/hash.rs:76-99 | sorting in place gives the sorted value of the specification |
| Normalize.StripCommutesWithSort | crates/lcp-core/src/hash.rs:59-61 | stripping and sorting commute |
| Normalize.SortedIsParsed | crates/lcp-core/src/hash.rs:76-99 | the sorted form is one that parsing can yield, so that it can be read back |
| Normalize.ParsedIsSorted | crates/lcp-core/src/hash.rs:76-99 | what parsing yields is sorted already, and the sort leaves it as it is |
| Normalize.SameHasOneForm | crates/lcp-core/src/hash.rs:76-99 | values that are equal up to member order have one sorted form |
| Normalize.OneFormIsSame | crates/lcp-core/src/hash.rs:76-99 | values with one sorted form are equal up to member order |
| Normalize.NormalFormIsCanonical | crates/lcp-core/src/hash.rs:55-62 | two values have one normal form if and only if they are equal up to member order after the listed names are deleted |
| Normalize.NormalFormIsStable | crates/lcp-core/src/hash.rs:55-62 | the normal form is one that parsing can yield, and normalising is idempotent |
| Normalize.NormalFormAt | crates/lcp-core/src/provider.rs:59-68 | place by place, with the deleted names of each provider spelled out: the normal form has what was there, normalised, unless a deleted name is on the way through objects |
| Normalize.OneMemberMatters | crates/lcp-core/src/hash.rs:55-62 | two objects that differ in one member have one normal form if and only if the member is one of those that are deleted for the provider, or its two values have one normal form |
| Normalize.NormalizeBody | crates/lcp-core/src/hash.rs:55-63 | the text that is hashed is that of the normal form, or the lossy reading of the body if it is not JSON |
| Normalize.NormalTextIsCanonical | crates/lcp-core/src/hash.rs:55-63 | any two bodies have one normal text if and only if both are JSON with one normal form, or neither is and their lossy readings are the same, or one is and its printed normal form is the lossy reading of the other |
| Normalize.SameBodyIff | crates/lcp-core/src/hash.rs:55-63 | such bodies are the same, up to what normalisation forgets, if and only if both are UTF-8 or they are the same bytes |
| Normalize.CacheKey | crates/lcp-core/src/hash.rs:12-21 | the updates of the hasher make up method, path and normal text, parted by bars |
| Normalize.CacheKeyAndModel | crates/lcp-core/src/hash.rs:27-45 | the same key for every body, and the model that the body names |
| Normalize.HashInputAmbiguousIff | crates/lcp-core/src/hash.rs:14-19 | two methods and paths can be hashed as one string if and only if what comes before one body starts what comes before the other |
| Normalize.HashInputInjective | crates/lcp-core/src/hash.rs:14-19 | in all other cases the three parts can be read off the hashed string |
| Normalize.NoBarIsApart | crates/lcp-core/src/hash.rs:14-19 | without a bar in method and path that is always so |
| Normalize.HashInputDeterminesRequest | crates/lcp-core/src/hash.rs:12-21 | in those cases the hashed string determines method, path and the body up to what normalisation and the lossy reading forget, and nothing more |
| CacheStore.ExpiryIsExact | crates/lcp-core/src/cache.rs:65-76 | an entry is live if and only if the time to live is 0 or it is younger than that time plus one second; a clock that went back makes it new |
| CacheStore.Cache.Get | crates/lcp-core/src/cache.rs:48-107 | what a lookup returns and what it leaves in all three tables |
| CacheStore.Cache.Put | crates/lcp-core/src/cache.rs:110-139 | the row written, its byte count summed over the chunks, and nothing else |
| CacheStore.Cache.RecordTrace | crates/lcp-core/src/cache.rs:142-149 | the association is added, once |
| CacheStore.Cache.GetTrace | crates/lcp-core/src/cache.rs:152-177 | the rows of the keys associated with a trace, each once, in the order of their creation |
| CacheStore.Cache.ClearEntries | crates/lcp-core/src/cache.rs:210-216 | entries and traces are gone, counters stay, the number deleted is returned |
| CacheStore.Cache.ClearStats | crates/lcp-core/src/cache.rs:219-223 | counters are gone, entries and traces stay |
| CacheStore.Cache.GroupByModel | crates/lcp-core/src/cache.rs:191-195 | for each model that occurs, and for none, how many rows have it |
| CacheStore.Cache.Stats | crates/lcp-core/src/cache.rs:180-207 | the counters, the number of entries and the counts by model, collected group by group so that a later name takes the place of an earlier one; nothing changes |
| CacheStore.CountersTellWhatWasServed | crates/lcp-core/src/cache.rs:48-107 | over every sequence of operations: since the last reset, hits and misses together are the lookups, hits are those that found something, and bytes served are the bytes handed out |
| CacheStore.LiveHitsAreAmongHits | crates/lcp-core/src/cache.rs:77-92 | without a reset of the counters, the hit counts of live rows never exceed the hits |
| CacheStore.ResetsTouchOnlyCounters | crates/lcp-core/src/cache.rs:219-223 | a run without its resets of the counters has the same entries and traces, and so the same lookups |
| CacheStore.RowsAreLastPuts | crates/lcp-core/src/cache.rs:77-139 | each row is the last write of its key since the last clear: its time, provider, model, exchange and both byte counts; and its hit count is the number of lookups that it has answered since |
| CacheStore.GetReturnsLastPut | crates/lcp-core/src/cache.rs:48-139 | a lookup returns the last write since the last clear if and only if it is live; rows that are too old stay |
| CacheStore.RunMeasured | crates/lcp-core/src/cache.rs:120-135 | every row's byte count is that of its chunks |
| CacheStore.TraceShowsRecorded | crates/lcp-core/src/cache.rs:142-177 | a trace shows exactly the keys recorded for it and written since the last clear |
| CacheStore.CountsByModelSum | crates/lcp-core/src/cache.rs:191-206 | the counts by model sum to the number of entries if and only if not both an entry without a model and a model called "unknown" exist, and what is missing otherwise |
| CacheFill.Recut | crates/lcp-server/src/proxy.rs:318-341 | the carry loop: after each chunk the strings so far are the longest valid prefix of the bytes so far; chunk count and offsets are kept |
| CacheFill.RecutUnique | crates/lcp-server/src/proxy.rs:318-341 | there is only one way to cut chunks into strings like that |
| CacheFill.RecutIsLossless | crates/lcp-server/src/proxy.rs:308-341 | every string is valid; nothing is lost if and only if the bytes are valid in all; then at most three bytes are carried at any time |
| CacheFill.BoundariesKeptIff | crates/lcp-server/src/proxy.rs:318-341 | the recorded chunks are the original ones if and only if none ends within a character |
| CacheFill.Forward | crates/lcp-server/src/proxy.rs:276-301 | the loop that records, forwards, and stops at an error or when the client has gone |
| CacheFill.Fill | crates/lcp-server/src/proxy.rs:268-351 | what the client is sent, whether an exchange is stored, and which |
| CacheFill.TurnsMeaning | crates/lcp-server/src/proxy.rs:276-301 | the loop ends well if and only if every item was data that the client took, and then all of it was recorded and sent |
| CacheFill.SentIsReceived | crates/lcp-server/src/proxy.rs:276-301 | however it ends, the client was sent a prefix of what the stream yielded |
| CacheFill.FillTheorem | crates/lcp-server/src/proxy.rs:229-351 | an exchange is stored if and only if the request does not bypass the cache, the status is from 200 to 299, the response is complete, the client took it to the end, and both bodies are UTF-8; it holds the bytes that the client was sent, in their chunks re-cut at the characters |
| Proxy.NextKeeps | crates/lcp-server/src/proxy.rs:129-379 | every step of every request keeps the invariant of processes, replies and entries |
| Proxy.StoreIsSound | crates/lcp-server/src/proxy.rs:268-379 | in every run, an entry is the complete response to one request with its key that missed, all of whose chunks the client took |
| Proxy.HitReplaysMiss | crates/lcp-server/src/proxy.rs:129-175 | every hit carries, byte for byte and with the same head, what a miss with its key streamed, in its chunks re-cut at the characters |
| Proxy.OnlySuccessIsStored | crates/lcp-server/src/proxy.rs:229-229 | in every run, every entry and every hit has a status from 200 to 299 |
| Proxy.LogComesFrom | crates/lcp-server/src/proxy.rs:129-379 | in every run, every lookup, write and trace in the cache comes from a request that does not bypass it, with its key, provider, model and trace |
| Proxy.RowTellsRequest | crates/lcp-server/src/proxy.rs:352-358 | in every run, a row has the provider and the model of the miss that filled it, and the sizes of its bodies |
| Proxy.TraceIsOfRequest | crates/lcp-server/src/proxy.rs:137-149 | in every run, a trace has only keys of requests that came with it |
| Proxy.NoteRecords | crates/lcp-server/src/proxy.rs:363-374 | a hit, and a miss that was written, is recorded under its trace, with its key, and nothing else changes |
| Proxy.ErrorsChangeNothing | crates/lcp-server/src/proxy.rs:153-156 | a lookup that fails sends the request upstream and a write that fails ends it; neither changes the cache |
| Proxy.RefusalEnds | crates/lcp-server/src/proxy.rs:115-211 | an error of an extension, or an upstream that cannot be reached, ends the request and leaves the cache as it is |
| Proxy.AdminClears | crates/lcp-core/src/cache.rs:210-223 | clears, at any point between the steps of requests, empty just what they should and touch no request |
| Proxy.TextsWhole | crates/lcp-server/src/proxy.rs:410-418 | the chunks that a hit streams make up the stored body |
| Proxy.LookupIsExact | crates/lcp-server/src/proxy.rs:129-157 | in every run, a lookup is a hit if and only if its key was written since the last clear and is live; the exchange is the last one written, and its miss was over by then |
| Proxy.FillThenHit | crates/lcp-server/src/proxy.rs:352-361 | a response just written answers the next lookup of its key |
| Proxy.BypassTouchesNothing | crates/lcp-server/src/proxy.rs:129-175 | no step of a bypassing request changes the cache |
| Proxy.ProgressIsFill | crates/lcp-server/src/proxy.rs:268-301 | whatever all other requests do in between, the progress of a request is that of the fill task run alone on the items of its own events, with the turns in which its own client took them |
| Proxy.EntryIsWholeStream | crates/lcp-server/src/proxy.rs:268-379 | in every run, an entry is, byte for byte, what the stream of one such request yielded to its end, all of it taken by its client, with one chunk for each of the stream, re-cut at the characters |
| Proxy.FullPathInjective | crates/lcp-server/src/proxy.rs:97-97 | the path that is hashed determines the provider and the rest of the path |
| Proxy.PrefixRoundTrip | crates/lcp-core/src/provider.rs:18-46 | the prefix of a path names one provider, and each provider has one prefix |
| Proxy.KeysAreRequests | crates/lcp-server/src/proxy.rs:97-123 | unless the digest collides, two requests whose methods and paths can be told apart in the hashed string share a key if and only if method, provider and path agree and their bodies have one normal text; they are the same request, up to the query, if and only if in addition both bodies are UTF-8 or the same bytes |
| Proxy.KeyForgets | crates/lcp-core/src/hash.rs:12-21 | two JSON bodies to one place that differ in one member share a key if and only if that member is one of those deleted for the provider, or its two values have one normal form; so different messages never do |
| Proxy.NoBarDistinguishes | crates/lcp-server/src/proxy.rs:97-97 | without a bar in methods and paths they can always be told apart |
| Proxy.BarInPathWitness | crates/lcp-server/src/proxy.rs:97-123 | two requests to one provider, one with a bar in its path, that share a key although paths and bodies differ |
| Proxy.HitIsForSameRequest | crates/lcp-server/src/proxy.rs:97-157 | a hit carries what was streamed for another request with its method, provider, path and normal text; that is the same request, up to the query, if and only if the body of the request that hits is UTF-8 |
| ProxyHandle.Handle | crates/lcp-server/src/proxy.rs:75-408 | one request from its start to its end, over the cache object and the fill task: the reply and the cache are those of the single steps that `Proxy` interleaves |
| ProxyHandle.RunFromStart | crates/lcp-server/src/proxy.rs:75-408 | these are the steps whose interleavings the theorems of `Proxy` are about |
| Proxy.SharedKeyHits | crates/lcp-server/src/proxy.rs:129-379 | for any two requests that share a key, the first of them with a UTF-8 body: a run in which the first misses and is stored, and the second is answered with its response |
| Proxy.WrongHitWitness | crates/lcp-core/src/hash.rs:56-58 | a run in which a request with the body FF is answered with the response to the body EF BF BD |
| Proxy.OtherQueryHits | crates/lcp-server/src/proxy.rs:97-181 | a run in which a request is answered with the response to one with another query |

## Left out

- The matcher that finds fakes, its encryption and its own errors: `RestoreAll` is a total function, a left-to-right scan that takes the first listed fake that fits. For fakes that neither overlap nor contain one another every matcher agrees with it (`RestoreAllIsTheRestoration`). That the fakes made for a request satisfy these conditions is a hypothesis.
- Parsing and printing JSON bytes: a pair of functions of which `Json.Faithful` asks that printing is read back, stays on one line, and that parsing yields UTF-8 strings and names in increasing order; `Normalize.Reliable` asks in addition that only UTF-8 is parsed (`JsonWitness.FaithfulExists`: there is such a pair). Numbers without a sign are kept up to the largest of 64 bits (`Json.NumbersOf64Bits`); all others are atoms, so that the reading back of fractions and the limit on nesting are not modelled.
- Restoring responses that are no event stream: a function parameter, with a count of the polls it takes.
- Detection of event streams is modelled, but chunking independence is stated for a first chunk that is recognised: the code looks only at the first chunk that is not empty.
- StreamingIffOverlapFree: assumes that no fake equals its original and that some ASCII byte occurs in no fake; without such a byte the text that shows a lost original would have to be filled in some other way.
- SeesRestoredTextIffOverlapFree: makes the same assumptions, and that originals are UTF-8.
- ClientSeesRestoredText: assumes originals that are UTF-8; with others the stream may fail, and `StreamIsPass` says exactly when.
- The theorems of `SseRuns` are about frames and what is released for them, whether or not its restored form is UTF-8; that a failing release ends the stream is part of `SsePoll` and `SseStream`.
- EndToEnd: assumes no `\r\r\n` and a first chunk that is recognised.
- A finish signal in a frame that also carries text is dropped by the code, of several function calls in one Gemini frame only the last one's metadata is kept, and bodies of `response.completed` are passed on unrestored; the model does the same and claims nothing more.
- ChunkingIndependence: assumes that the text holds no `\r\r\n`; that this is exact is proved for frames (`ChunkingIndependentIff`), while for the items of polls a witness shows that it is needed.
- KeysAreRequests: assumes that BLAKE3 does not take the two requests at hand to one key, and that methods and paths can be told apart (`Proxy.Distinguished`), which fails only with a bar in one of them.
- HitIsForSameRequest: makes the same assumptions for the requests of the run.
- SQLite, its errors in the middle of an operation, and the deserialisation of stored exchanges: the three tables are maps and a set; in `Proxy` an operation that reports an error has changed nothing.
- Reading one row (`inspect`) and listing rows (`list_entries`, `inspect_trace`): they would only add that a table is read.
- The parsing of timestamps: a row keeps the time in nanoseconds. A timestamp that does not parse counts as new in the code and cannot arise here.
- Widths of counters and sizes: natural numbers, without the limits of 64 bits.
- The order of the groups in the counts by model: as SQLite returns them, the group without a model first. In the other order a different group would be missing, and `CountsByModelSum` would name that one.
- The extension phases: the body in `Proxy` is what the first phase made of it, and the stream that `CacheFill` reads is what the third phase made of it. An error of a phase is a refusal.
- The model in `Proxy` is a field of the request: how it is read from a Gemini path is left out.
- A client that leaves while a hit is replayed; it has then had a prefix of what is proved here.
- HTTP routing, headers, timeouts, decompression, logging, configuration, the command line and the admin interface beyond the clears.
