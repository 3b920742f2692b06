/** What a client makes of the output, when it reads the frames as the program itself would. */
module SseClient {
  import opened Common
  import opened Fakes
  import opened SlidingWindow
  import opened FieldStream
  import opened Order
  import opened SseFields
  import opened SseMachine
  import Json
  import SseEvents
  import SseRuns
  import Utf8

  /** The fields of text in one frame. */
  function ClientFields(ctx: Ctx, frame: string): seq<Field> {
    match Classify(ctx, frame)
    case Content(fields, _) => fields
    case _ => []
  }

  /** All text that the client reads under one key. */
  function ClientText(ctx: Ctx, queue: seq<string>, k: FieldKey): string {
    if queue == [] then "" else PieceFor(ClientFields(ctx, queue[0]), k) + ClientText(ctx, queue[1..], k)
  }

  lemma {:induction false} ClientTextSum(ctx: Ctx, a: seq<string>, b: seq<string>, k: FieldKey)
    ensures ClientText(ctx, a + b, k) == ClientText(ctx, a, k) + ClientText(ctx, b, k)
  {
    hide ClientFields;
    if a == [] {
      assert a + b == b;
    } else {
      ClientTextSum(ctx, a[1..], b, k);
      assert (a + b)[1..] == a[1..] + b;
      Assoc(PieceFor(ClientFields(ctx, a[0]), k), ClientText(ctx, a[1..], k), ClientText(ctx, b, k));
    }
  }

  /** The text that goes out to be read under `k`: restored, in the order of the output. */
  function SentText(ctx: Ctx, out: seq<Emission>, k: FieldKey): string {
    if out == [] then ""
    else (if out[0].Release? && ReadKey(out[0].key) == k then RestoreAll(ctx.entries, out[0].raw) else "")
         + SentText(ctx, out[1..], k)
  }

  // ------------------------------------------------------------------------- the output is sound

  ghost predicate GoodSlot(ctx: Ctx, s: Slot) {
    Extractable(s.key, ctx.provider) && Utf8.Valid(s.text)
  }

  ghost predicate GoodBuffers(ctx: Ctx, b: Buffers) {
    && (forall s :: s in b.slots ==> GoodSlot(ctx, s))
    && (forall f :: f in b.deferred ==> ClientFields(ctx, f) == [])
  }

  ghost predicate GoodEmission(ctx: Ctx, e: Emission) {
    match e
    case Release(k, raw) => Extractable(k, ctx.provider) && Utf8.Valid(raw)
    case Meta(frame) => ClientFields(ctx, frame) == []
    case Event(bytes) => ClientFields(ctx, bytes) == []
  }

  ghost predicate GoodOut(ctx: Ctx, out: seq<Emission>) {
    forall e :: e in out ==> GoodEmission(ctx, e)
  }

  lemma {:induction false} AppendGood(ctx: Ctx, slots: seq<Slot>, k: FieldKey, text: string)
    requires (forall s :: s in slots ==> GoodSlot(ctx, s)) && Extractable(k, ctx.provider) && Utf8.Valid(text)
    ensures forall s :: s in Append(slots, k, text) ==> GoodSlot(ctx, s)
  {
    hide Utf8.Valid, KeyLess, Extractable;
    if slots != [] {
      assert slots[0] in slots;
      if slots[0].key == k {
        Utf8.ValidConcat(slots[0].text, text);
      } else if !KeyLess(k, slots[0].key) {
        AppendGood(ctx, slots[1..], k, text);
      }
    }
  }

  lemma {:induction false} AppendAllGood(ctx: Ctx, slots: seq<Slot>, fields: seq<Field>)
    requires (forall s :: s in slots ==> GoodSlot(ctx, s)) && AllSound(fields, ctx.provider)
    ensures forall s :: s in AppendAll(slots, fields) ==> GoodSlot(ctx, s)
    decreases |fields|
  {
    hide Utf8.Valid, Append, Extractable;
    if fields != [] {
      assert fields[0] in fields;
      AppendGood(ctx, slots, fields[0].key, fields[0].text);
      AppendAllGood(ctx, Append(slots, fields[0].key, fields[0].text), fields[1..]);
    }
  }

  lemma {:induction false} FlushGood(ctx: Ctx, window: nat, scope: Scope, slots: seq<Slot>)
    requires forall s :: s in slots ==> GoodSlot(ctx, s)
    ensures var f := FlushSlots(ctx.entries, window, scope, slots);
            (forall s :: s in f.slots ==> GoodSlot(ctx, s)) && GoodOut(ctx, f.out)
  {
    hide Utf8.Valid, Covers, CutPoint, Extractable;
    if slots != [] {
      var s := slots[0];
      assert s in slots;
      FlushGood(ctx, window, scope, slots[1..]);
      Utf8.BoundarySplit(s.text, CutPoint(ctx.entries, window, s.text));
      SseRuns.ReleasesShape(s.key, FlushText(ctx.entries, window, s.text).released);
      ReleasesGood(ctx, s.key, FlushText(ctx.entries, window, s.text).released);
    }
  }

  lemma {:induction false} ReleasesGood(ctx: Ctx, k: FieldKey, raws: seq<string>)
    requires Extractable(k, ctx.provider) && forall r :: r in raws ==> Utf8.Valid(r)
    ensures GoodOut(ctx, Releases(k, raws))
  {
    hide Utf8.Valid, Extractable;
    if raws != [] {
      assert raws[0] in raws;
      ReleasesGood(ctx, k, raws[1..]);
    }
  }

  lemma {:induction false} MetasGood(ctx: Ctx, frames: seq<string>)
    requires forall f :: f in frames ==> ClientFields(ctx, f) == []
    ensures GoodOut(ctx, Metas(frames))
  {
    hide ClientFields;
    if frames != [] {
      assert frames[0] in frames;
      MetasGood(ctx, frames[1..]);
    }
  }

  lemma StepGood(ctx: Ctx, b: Buffers, frame: string)
    requires GoodBuffers(ctx, b) && Json.Faithful(ctx.codec)
    ensures GoodBuffers(ctx, StepFrame(ctx, b, frame).after) && GoodOut(ctx, StepFrame(ctx, b, frame).out)
  {
    hide Classify, FlushSlots, AppendAll, Json.Faithful, GoodSlot;
    match Classify(ctx, frame) {
      case Pass =>
      case Stop(scope, drain) =>
        FlushGood(ctx, 0, scope, b.slots);
        MetasGood(ctx, b.deferred);
      case Content(fields, meta) =>
        ContentIsSound(ctx, frame);
        AppendAllGood(ctx, b.slots, fields);
        FlushGood(ctx, MaxFakeLen(ctx.entries), Stream, AppendAll(b.slots, fields));
    }
  }

  lemma ContentIsSound(ctx: Ctx, frame: string)
    requires Json.Faithful(ctx.codec) && Classify(ctx, frame).Content?
    ensures AllSound(Classify(ctx, frame).fields, ctx.provider)
    ensures forall m :: m in Classify(ctx, frame).meta ==> ClientFields(ctx, m) == []
  {
    hide ExtractFields, ClassifyTerminal, SseEvents.Lines, SseEvents.DataContent, SseEvents.EventType, ClientFields,
         Metadata, AllSound, SseEvents.MetadataFrame;
    var lines := SseEvents.Lines(frame);
    var json := ctx.codec.parse(SseEvents.DataContent(lines).value).value;
    ExtractedAreSound(json, ctx.provider, SseEvents.EventType(lines));
    if ctx.provider.Gemini? && Metadata(json).Some? {
      MetadataCarriesNoText(ctx, json);
    }
  }

  lemma {:induction false} RunGood(ctx: Ctx, b: Buffers, frames: seq<string>)
    requires GoodBuffers(ctx, b) && Json.Faithful(ctx.codec)
    ensures GoodBuffers(ctx, RunFrames(ctx, b, frames).after) && GoodOut(ctx, RunFrames(ctx, b, frames).out)
    decreases |frames|
  {
    hide StepFrame, GoodBuffers, Json.Faithful, GoodEmission;
    if frames != [] {
      StepGood(ctx, b, frames[0]);
      RunGood(ctx, StepFrame(ctx, b, frames[0]).after, frames[1..]);
    }
  }

  lemma FinishGood(ctx: Ctx, b: Buffers)
    requires GoodBuffers(ctx, b)
    ensures GoodOut(ctx, Finish(ctx, b).out)
  {
    hide FlushSlots, GoodSlot, ClientFields;
    FlushGood(ctx, 0, Stream, b.slots);
    MetasGood(ctx, b.deferred);
  }

  // -------------------------------------------------------------- metadata frames carry no text

  /** A metadata frame is read as a frame without text. */
  lemma MetadataCarriesNoText(ctx: Ctx, json: Json.Value)
    requires ctx.provider.Gemini? && Json.Faithful(ctx.codec) && Json.Parsed(json) && Metadata(json).Some?
    ensures ClientFields(ctx, SseEvents.MetadataFrame(ctx.codec, Metadata(json).value)) == []
  {
    hide Metadata, ExtractFields, ClassifyTerminal, SseEvents.Lines, SseEvents.DataContent, SseEvents.EventType,
         SseEvents.EventFrame, Json.Parsed;
    var extra := Metadata(json).value;
    MetadataParsed(json);
    assert SseEvents.OneLine(ctx.codec.show(extra));
    SseEvents.FrameReadBack(None, ctx.codec.show(extra));
    NoTextInMetadata(json);
  }

  lemma MetadataParsed(json: Json.Value)
    requires Json.Parsed(json) && Metadata(json).Some?
    ensures Json.Parsed(Metadata(json).value)
  {
    hide Json.Parsed, Json.Pointer, LastCall, Json.Find, Utf8.Valid, StringLess, Kept, GoodMembers;
    var p := Json.Pointer(json, ["candidates", "0", "content", "parts"]);
    var call := match p case Some(Array(parts)) => LastCall(parts) case _ => None;
    var first := match call
      case Some(c) => [Candidate(Json.Member("functionCall", c)).members[0]]
      case None => [];
    NoMembers("candidates");
    if call.Some? {
      Json.PointerParsed(json, ["candidates", "0", "content", "parts"]);
      ItemsParsed(p.value);
      LastCallParsed(p.value.items);
      CandidatesGood(call.value);
    }
    MetadataNames();
    KeptGood(json, "groundingMetadata");
    KeptGood(json, "thoughtSignature");
    MetadataOrder();
    GoodSum(first, "candidates", Kept(json, "groundingMetadata"), "groundingMetadata");
    GoodSum(first + Kept(json, "groundingMetadata"), "groundingMetadata", Kept(json, "thoughtSignature"), "thoughtSignature");
    GoodIsParsed(Metadata(json).value.members, "thoughtSignature");
  }

  /** Members as they may stand in an object, none with a name after `last`. */
  ghost predicate GoodMembers(members: seq<Json.Member>, last: string) {
    && Json.InOrder(members)
    && (forall m :: m in members ==>
          Utf8.Valid(m.name) && Json.Parsed(m.value) && (m.name == last || StringLess(m.name, last)))
  }

  lemma NoMembers(last: string)
    ensures GoodMembers([], last)
  {}

  lemma CandidatesGood(call: Json.Value)
    requires Json.Parsed(call)
    ensures GoodMembers([Candidate(Json.Member("functionCall", call)).members[0]], "candidates")
  {
    hide Json.Parsed, Utf8.Valid, StringLess;
    SseEvents.GeminiNames();
    SseEvents.CandidateParsed("functionCall", call);
    CandidateMember(Json.Member("functionCall", call));
  }

  lemma KeptGood(v: Json.Value, name: string)
    requires Json.Parsed(v) && Utf8.Valid(name)
    ensures GoodMembers(Kept(v, name), name) && |Kept(v, name)| <= 1 && forall m :: m in Kept(v, name) ==> m.name == name
  {
    hide Json.Parsed, Json.Find, Utf8.Valid, StringLess;
    GetParsed(v, name);
  }

  lemma GoodSum(a: seq<Json.Member>, la: string, b: seq<Json.Member>, lb: string)
    requires GoodMembers(a, la) && GoodMembers(b, lb) && StringLess(la, lb)
    requires |b| <= 1 && forall m :: m in b ==> m.name == lb
    ensures GoodMembers(a + b, lb)
  {
    hide Json.Parsed, Utf8.Valid, StringLess;
    forall m | m in a ensures StringLess(m.name, lb) {
      if m.name != la { StringTransitive(m.name, la, lb); }
    }
    forall i, j | 0 <= i < j < |a + b| ensures StringLess((a + b)[i].name, (a + b)[j].name) {
      if j == |a| {
        assert (a + b)[i] in a && (a + b)[j] in b;
      }
    }
  }

  lemma GoodIsParsed(members: seq<Json.Member>, last: string)
    requires GoodMembers(members, last)
    ensures Json.Parsed(Json.Object(members))
  {
    hide Utf8.Valid, StringLess;
  }

  lemma MetadataOrder()
    ensures StringLess("candidates", "groundingMetadata") && StringLess("groundingMetadata", "thoughtSignature")
    ensures StringLess("args", "name")
  {
    hide StringLess;
    SseEvents.FirstLetter("candidates", "groundingMetadata");
    SseEvents.FirstLetter("groundingMetadata", "thoughtSignature");
    SseEvents.FirstLetter("args", "name");
  }

  lemma MetadataNames()
    ensures Utf8.Valid("groundingMetadata") && Utf8.Valid("thoughtSignature")
    ensures Utf8.Valid("functionCall") && Utf8.Valid("name")
  {
    hide Utf8.Valid;
    Utf8.AsciiValid("groundingMetadata");
    Utf8.AsciiValid("thoughtSignature");
    Utf8.AsciiValid("functionCall");
    Utf8.AsciiValid("name");
  }

  lemma CandidateMember(m: Json.Member)
    requires Json.Parsed(Candidate(m))
    ensures Json.Parsed(Candidate(m).members[0].value)
  {
    hide Utf8.Valid;
  }

  lemma ObjectParsed(members: seq<Json.Member>)
    requires Json.InOrder(members)
    requires forall m :: m in members ==> Utf8.Valid(m.name) && Json.Parsed(m.value)
    ensures Json.Parsed(Json.Object(members))
  {
    hide Utf8.Valid, StringLess;
  }

  lemma {:induction false} LastCallParsed(parts: seq<Json.Value>)
    requires forall p :: p in parts ==> Json.Parsed(p)
    ensures LastCall(parts).Some? ==> Json.Parsed(LastCall(parts).value)
  {
    hide Json.Parsed, Json.Find, CallExtra;
    if parts != [] {
      var last := parts[|parts| - 1];
      assert last in parts;
      GetParsed(last, "functionCall");
      if Json.Get(last, "functionCall").Some? {
        CallParsed(Json.Get(last, "functionCall").value);
      }
      LastCallParsed(parts[..|parts| - 1]);
    }
  }

  lemma CallParsed(fc: Json.Value)
    requires Json.Parsed(fc)
    ensures Json.Parsed(Json.Object(CallExtra(fc)))
  {
    hide Json.Parsed, Json.Find, NonStrings, Utf8.Valid, StringLess, GoodMembers, Kept, Json.InOrder;
    SseEvents.GeminiNames();
    MetadataNames();
    MetadataOrder();
    GetParsed(fc, "args");
    var a := Json.Get(fc, "args");
    var args := match a case Some(Object(members)) => NonStrings(members) case _ => [];
    var first := if args != [] then [Json.Member("args", Json.Object(args))] else [];
    NoMembers("args");
    if args != [] {
      MembersParsed(a.value);
      MembersInOrder(a.value);
      NonStringsKept(a.value.members);
      ObjectParsed(args);
      OneGood("args", Json.Object(args));
    }
    KeptGood(fc, "name");
    GoodSum(first, "args", Kept(fc, "name"), "name");
    GoodIsParsed(CallExtra(fc), "name");
  }

  lemma MembersInOrder(v: Json.Value)
    requires Json.Parsed(v) && v.Object?
    ensures Json.InOrder(v.members)
  {}

  lemma OneGood(name: string, v: Json.Value)
    requires Utf8.Valid(name) && Json.Parsed(v)
    ensures GoodMembers([Json.Member(name, v)], name)
  {}

  lemma {:induction false} NonStringsKept(members: seq<Json.Member>)
    ensures forall m :: m in NonStrings(members) ==> m in members && !m.value.String?
    ensures Json.InOrder(members) ==> Json.InOrder(NonStrings(members))
  {
    if members != [] {
      NonStringsKept(members[1..]);
      if Json.InOrder(members) {
        assert forall i :: 0 <= i < |members[1..]| ==> members[1..][i] == members[i + 1];
      }
    }
  }

  /** The arguments that are passed on as metadata are exactly those that are no strings. */
  lemma {:induction false} ArgsWithoutStrings(args: seq<Json.Member>, i: nat)
    requires forall m :: m in args ==> !m.value.String?
    ensures ArgFields(args, i) == []
  {
    if args != [] {
      assert args[0] in args;
      ArgsWithoutStrings(args[1..], i);
    }
  }

  lemma NoTextInMetadata(json: Json.Value)
    requires Metadata(json).Some?
    ensures ExtractFields(Metadata(json).value, Gemini, None) == []
  {
    hide LastCall, Json.Find, PartFields, Json.Pointer;
    var extra := Metadata(json).value;
    var path := ["candidates", "0", "content", "parts"];
    var p := Json.Pointer(json, path);
    var call := match p case Some(Array(parts)) => LastCall(parts) case _ => None;
    if call.Some? {
      var m := Json.Member("functionCall", call.value);
      CandidatePointer(m);
      assert extra.members[0] == Candidate(m).members[0];
      SameFirst(extra, Candidate(m), path);
      LastCallShape(p.value.items);
      CallPartHasNoText(call.value);
    } else {
      NoCandidates(extra, path);
    }
  }

  lemma SameFirst(a: Json.Value, b: Json.Value, path: seq<string>)
    requires a.Object? && b.Object? && a.members != [] && b.members != [] && a.members[0] == b.members[0]
    requires path != [] && path[0] == a.members[0].name
    ensures Json.Pointer(a, path) == Json.Pointer(b, path)
  {
    Json.FindAt(a.members, 0);
    Json.FindAt(b.members, 0);
  }

  lemma NoCandidates(extra: Json.Value, path: seq<string>)
    requires extra.Object? && path != [] && path[0] == "candidates"
    requires forall m :: m in extra.members ==> m.name == "groundingMetadata" || m.name == "thoughtSignature"
    ensures Json.Pointer(extra, path) == None
  {
    hide Json.Find;
    forall k | 0 <= k < |extra.members| ensures extra.members[k].name != "candidates" {
      assert extra.members[k] in extra.members;
    }
    Json.FindNone(extra.members, "candidates");
  }

  /** What is kept of a call: arguments that are no strings, and the name. */
  ghost predicate CallShape(call: Json.Value) {
    && call.Object?
    && (forall m :: m in call.members ==> m.name == "args" || m.name == "name")
    && (forall m :: m in call.members && m.name == "args" ==>
          m.value.Object? && forall a :: a in m.value.members ==> !a.value.String?)
  }

  lemma {:induction false} LastCallShape(parts: seq<Json.Value>)
    ensures LastCall(parts).Some? ==> CallShape(LastCall(parts).value)
  {
    hide Json.Find, CallExtra, CallShape;
    if parts != [] {
      var fc := Json.Get(parts[|parts| - 1], "functionCall");
      if fc.Some? { CallExtraShape(fc.value); }
      LastCallShape(parts[..|parts| - 1]);
    }
  }

  lemma CallExtraShape(fc: Json.Value)
    ensures CallShape(Json.Object(CallExtra(fc)))
  {
    hide Json.Find, NonStrings;
    var a := Json.Get(fc, "args");
    if a.Some? && a.value.Object? { NonStringsKept(a.value.members); }
  }

  lemma CallPartHasNoText(call: Json.Value)
    requires CallShape(call)
    ensures PartFields([Json.Object([Json.Member("functionCall", call)])], 0) == []
  {
    hide Json.Find, ArgFields;
    var part := Json.Object([Json.Member("functionCall", call)]);
    Json.FindNone(part.members, "text");
    Json.FindNone(part.members, "codeExecutionResult");
    Json.FindAt(part.members, 0);
    assert ["functionCall", "args"][1..] == ["args"] && ["args"][1..] == [];
    assert Json.Pointer(part, ["codeExecutionResult", "output"]) == None;
    var a := Json.Find(call.members, "args");
    assert Json.Pointer(call, ["args"]) == a by { ToEnd(call, "args"); }
    if a.Some? {
      ArgsWithoutStrings(a.value.members, 0);
    }
    assert PartFields([], 1) == [];
  }

  lemma ToEnd(v: Json.Value, name: string)
    requires v.Object?
    ensures Json.Pointer(v, [name]) == Json.Find(v.members, name)
  {
    assert [name][1..] == [];
  }

  // ------------------------------------------------------------------------- reading it all back

  lemma OneReadBack(ctx: Ctx, e: Emission, k: FieldKey)
    requires GoodEmission(ctx, e) && Json.Faithful(ctx.codec) && WellFormed(ctx.entries)
    requires forall d :: d in ctx.entries ==> Utf8.Valid(d.original)
    ensures ClientText(ctx, RenderOne(ctx, e), k)
            == (if e.Release? && ReadKey(e.key) == k then RestoreAll(ctx.entries, e.raw) else "")
  {
    hide RestoreAll, Json.Faithful, WellFormed, Extractable, ExtractFields, ClassifyTerminal, SseEvents.Lines,
         SseEvents.DataContent, SseEvents.EventType, SseEvents.SyntheticFrame, Utf8.Valid, ReadKey;
    match e {
      case Release(key, raw) =>
        var text := RestoreAll(ctx.entries, raw);
        RestoreKeepsUtf8(ctx.entries, raw);
        if text != "" {
          SseEvents.SyntheticFrameReadBack(ctx.codec, ctx.provider, key, text);
          var f := SseEvents.SyntheticFrame(ctx.codec, key, text);
          assert ClientFields(ctx, f) == [Field(ReadKey(key), text)];
          OneField(ctx, f, Field(ReadKey(key), text), k);
        }
      case Meta(frame) => NoField(ctx, frame, k);
      case Event(bytes) => NoField(ctx, bytes, k);
    }
  }

  lemma OneField(ctx: Ctx, frame: string, field: Field, k: FieldKey)
    requires ClientFields(ctx, frame) == [field]
    ensures ClientText(ctx, [frame], k) == if field.key == k then field.text else ""
  {
    hide ClientFields;
    assert [field][1..] == [] && [frame][1..] == [];
    var text := if field.key == k then field.text else "";
    assert PieceFor([field], k) == text + "" == text;
    assert ClientText(ctx, [frame], k) == text + "";
  }

  lemma NoField(ctx: Ctx, frame: string, k: FieldKey)
    requires ClientFields(ctx, frame) == []
    ensures ClientText(ctx, [frame], k) == ""
  {
    hide ClientFields;
    assert [frame][1..] == [];
  }

  /** The client reads, under each key, exactly the text that was sent to be read there. */
  lemma {:induction false} ClientReads(ctx: Ctx, out: seq<Emission>, k: FieldKey)
    requires GoodOut(ctx, out) && Json.Faithful(ctx.codec) && WellFormed(ctx.entries)
    requires forall d :: d in ctx.entries ==> Utf8.Valid(d.original)
    ensures ClientText(ctx, Render(ctx, out), k) == SentText(ctx, out, k)
  {
    hide GoodEmission, Json.Faithful, WellFormed, RenderOne, RestoreAll, Utf8.Valid, ReadKey;
    if out == [] {
      assert ClientText(ctx, [], k) == "";
    } else {
      assert out[0] in out;
      OneReadBack(ctx, out[0], k);
      ClientReads(ctx, out[1..], k);
      ClientTextSum(ctx, RenderOne(ctx, out[0]), Render(ctx, out[1..]), k);
    }
  }

  /** Apart from Gemini, where a flag and an index are lost, the key is the one the text came under. */
  lemma {:induction false} SentIsReleased(ctx: Ctx, out: seq<Emission>, k: FieldKey)
    requires !ctx.provider.Gemini? && GoodOut(ctx, out)
    ensures SentText(ctx, out, k) == Restored(ctx.entries, ReleasedFor(out, k))
  {
    hide RestoreAll, Utf8.Valid;
    if out != [] {
      assert out[0] in out && GoodEmission(ctx, out[0]);
      SentIsReleased(ctx, out[1..], k);
      var head := if out[0].Release? && out[0].key == k then [out[0].raw] else [];
      assert [] + ReleasedFor(out[1..], k) == ReleasedFor(out[1..], k);
      if head != [] {
        assert (head + ReleasedFor(out[1..], k))[1..] == ReleasedFor(out[1..], k);
      } else {
        assert "" + SentText(ctx, out[1..], k) == SentText(ctx, out[1..], k);
      }
    }
  }

  /** With originals that are UTF-8, nothing that is restored fails. */
  lemma {:induction false} GoodIsRestorable(ctx: Ctx, out: seq<Emission>)
    requires GoodOut(ctx, out) && WellFormed(ctx.entries)
    requires forall d :: d in ctx.entries ==> Utf8.Valid(d.original)
    ensures Restorable(ctx, out)
  {
    hide RestoreAll, WellFormed, Extractable, ClientFields, Utf8.Valid;
    if out != [] {
      assert out[0] in out && GoodEmission(ctx, out[0]);
      if out[0].Release? { RestoreKeepsUtf8(ctx.entries, out[0].raw); }
      GoodIsRestorable(ctx, out[1..]);
    }
  }

  lemma SentSum(ctx: Ctx, frames: seq<string>)
    requires Json.Faithful(ctx.codec)
    ensures var s := RunFrames(ctx, EMPTY, frames); GoodOut(ctx, s.out + Finish(ctx, s.after).out)
  {
    hide RunFrames, Finish, Json.Faithful, GoodEmission, GoodSlot, ClientFields;
    RunGood(ctx, EMPTY, frames);
    FinishGood(ctx, RunFrames(ctx, EMPTY, frames).after);
  }

  // ------------------------------------------------------------- which key the client reads it under

  /** All text of field `k`, restored at once between complete flushes. */
  function WholeText(ctx: Ctx, frames: seq<string>, k: FieldKey): string {
    OneShot(ctx.entries, "", KeyOps(ctx, frames, k) + [Complete])
  }

  /** No other field with text is read under the same key as `j`. */
  ghost predicate Alone(ctx: Ctx, frames: seq<string>, j: FieldKey) {
    forall i :: i != j && ReadKey(i) == ReadKey(j) ==> WholeText(ctx, frames, i) == ""
  }

  predicate GeminiKey(k: FieldKey) {
    k.GeminiText? || k.GeminiCodeExecOutput? || k.GeminiFuncCallArg?
  }

  /** Only Gemini has fields that are read under one key. */
  lemma AloneOutsideGemini(ctx: Ctx, frames: seq<string>, k: FieldKey)
    ensures !GeminiKey(k) ==> Alone(ctx, frames, k) && ReadKey(k) == k
  {
    hide WholeText;
  }

  lemma HeadReleased(ctx: Ctx, out: seq<Emission>, k: FieldKey)
    requires out != []
    ensures var head := if out[0].Release? && out[0].key == k then RestoreAll(ctx.entries, out[0].raw) else "";
            Restored(ctx.entries, ReleasedFor(out, k)) == head + Restored(ctx.entries, ReleasedFor(out[1..], k))
  {
    hide RestoreAll;
    var rest := ReleasedFor(out[1..], k);
    if out[0].Release? && out[0].key == k {
      assert ([out[0].raw] + rest)[1..] == rest;
    } else {
      assert [] + rest == rest;
      assert "" + Restored(ctx.entries, rest) == Restored(ctx.entries, rest);
    }
  }

  lemma {:induction false} SentAlone(ctx: Ctx, out: seq<Emission>, j: FieldKey)
    requires forall i :: i != j && ReadKey(i) == ReadKey(j) ==> Restored(ctx.entries, ReleasedFor(out, i)) == ""
    ensures SentText(ctx, out, ReadKey(j)) == Restored(ctx.entries, ReleasedFor(out, j))
  {
    hide RestoreAll, ReadKey, Restored, ReleasedFor;
    if out == [] {
      NothingReleased(ctx, j);
    } else {
      forall i | i != j && ReadKey(i) == ReadKey(j) ensures Restored(ctx.entries, ReleasedFor(out[1..], i)) == "" {
        HeadReleased(ctx, out, i);
      }
      SentAlone(ctx, out[1..], j);
      HeadReleased(ctx, out, j);
      if out[0].Release? && ReadKey(out[0].key) == ReadKey(j) && out[0].key != j {
        HeadReleased(ctx, out, out[0].key);
        assert RestoreAll(ctx.entries, out[0].raw) == "";
      }
    }
  }

  lemma NothingReleased(ctx: Ctx, k: FieldKey)
    ensures Restored(ctx.entries, ReleasedFor([], k)) == ""
  {}

  /** What is sent under one key is at least as long as what two fields send under it. */
  lemma {:induction false} SentAtLeast(ctx: Ctx, out: seq<Emission>, j: FieldKey, i: FieldKey)
    requires i != j && ReadKey(i) == ReadKey(j)
    ensures |SentText(ctx, out, ReadKey(j))|
            >= |Restored(ctx.entries, ReleasedFor(out, j))| + |Restored(ctx.entries, ReleasedFor(out, i))|
  {
    hide RestoreAll, ReadKey, Restored, ReleasedFor;
    if out == [] {
      NothingReleased(ctx, j);
      NothingReleased(ctx, i);
    } else {
      SentAtLeast(ctx, out[1..], j, i);
      HeadReleased(ctx, out, j);
      HeadReleased(ctx, out, i);
    }
  }

  /** All that is sent for these frames. */
  function Output(ctx: Ctx, frames: seq<string>): seq<string> {
    var s := RunFrames(ctx, EMPTY, frames);
    Render(ctx, s.out + Finish(ctx, s.after).out)
  }

  /** A client that reads the whole output finds, under the key that a field is read under, exactly the
      text of that field with every fake in it restored, as if it had been restored at once between
      complete flushes, if and only if no other field brings text that is read under that key.  That
      can happen under Gemini, and with its keys, only. */
  lemma ClientSeesRestoredText(ctx: Ctx, frames: seq<string>, k: FieldKey)
    requires WellFormed(ctx.entries) && OverlapFree(ctx.entries) && Json.Faithful(ctx.codec)
    requires forall d :: d in ctx.entries ==> Utf8.Valid(d.original)
    ensures ClientText(ctx, Output(ctx, frames), ReadKey(k)) == WholeText(ctx, frames, k) <==> Alone(ctx, frames, k)
    ensures !GeminiKey(k) ==> ReadKey(k) == k && Alone(ctx, frames, k)
    ensures !ctx.provider.Gemini? ==> ClientText(ctx, Output(ctx, frames), k) == WholeText(ctx, frames, k)
  {
    hide RunFrames, Finish, WellFormed, OverlapFree, Json.Faithful, GoodOut, Render, Restored, ReadKey, Utf8.Valid,
         OneShot, KeyOps, GeminiKey;
    var s := RunFrames(ctx, EMPTY, frames);
    var out := s.out + Finish(ctx, s.after).out;
    SentSum(ctx, frames);
    ClientReads(ctx, out, ReadKey(k));
    forall i ensures Restored(ctx.entries, ReleasedFor(out, i)) == WholeText(ctx, frames, i) {
      SseRuns.ResponseRestored(ctx, frames, i);
    }
    if Alone(ctx, frames, k) {
      SentAlone(ctx, out, k);
    } else {
      var i :| i != k && ReadKey(i) == ReadKey(k) && WholeText(ctx, frames, i) != "";
      SentAtLeast(ctx, out, k, i);
    }
    AloneOutsideGemini(ctx, frames, k);
    if !ctx.provider.Gemini? {
      ClientReads(ctx, out, k);
      SentIsReleased(ctx, out, k);
    }
  }

  // ------------------------------------------- overlap-freedom is what it takes for whole responses

  /** The client reads every field that shares its key with no other as it should. */
  ghost predicate AlwaysSeesRestoredText(ctx: Ctx) {
    forall frames, k ::
      Alone(ctx, frames, k) ==> ClientText(ctx, Output(ctx, frames), ReadKey(k)) == WholeText(ctx, frames, k)
  }

  /** A key under which this provider sends text. */
  function PlainKey(provider: Provider): FieldKey {
    match provider
    case Anthropic => AnthropicDelta("text_delta", 0)
    case OpenAi => OpenAiContent
    case OpenRouter => OpenAiContent
    case Gemini => GeminiText(false)
  }

  /** Whole responses are restored for the client, all of them, exactly when no fake overlaps a fake. */
  lemma SeesRestoredTextIffOverlapFree(ctx: Ctx, filler: char)
    requires WellFormed(ctx.entries) && InfixFree(ctx.entries) && Telling(ctx.entries, filler) && Json.Faithful(ctx.codec)
    requires forall d :: d in ctx.entries ==> Utf8.Valid(d.original)
    ensures AlwaysSeesRestoredText(ctx) <==> OverlapFree(ctx.entries)
  {
    hide WellFormed, InfixFree, Telling, Json.Faithful, Utf8.Valid, ReadKey, ClientText, Output, WholeText, Alone, Overlap;
    if OverlapFree(ctx.entries) {
      forall frames, k | Alone(ctx, frames, k)
        ensures ClientText(ctx, Output(ctx, frames), ReadKey(k)) == WholeText(ctx, frames, k)
      {
        ClientSeesRestoredText(ctx, frames, k);
      }
    } else {
      var e, d, n: nat :| e in ctx.entries && d in ctx.entries && 0 < n < |e.fake| && Overlap(e.fake, d.fake, n);
      OverlapReachesClient(ctx, e, d, n, filler);
    }
  }

  /** A response of one frame, in which a fake that overlaps another reaches the client as it is. */
  lemma OverlapReachesClient(ctx: Ctx, e: Entry, d: Entry, n: nat, filler: char)
    requires WellFormed(ctx.entries) && InfixFree(ctx.entries) && Telling(ctx.entries, filler) && Json.Faithful(ctx.codec)
    requires forall d :: d in ctx.entries ==> Utf8.Valid(d.original)
    requires e in ctx.entries && d in ctx.entries && 0 < n < |e.fake| && Overlap(e.fake, d.fake, n)
    ensures var k := PlainKey(ctx.provider);
            var frames := [SseEvents.SyntheticFrame(ctx.codec, k, BadText(ctx.entries, e, filler))];
            && Alone(ctx, frames, k) && ReadKey(k) == k
            && ClientText(ctx, Output(ctx, frames), k) == e.fake + Filler(ctx.entries, filler)
            && WholeText(ctx, frames, k) == e.original + Filler(ctx.entries, filler)
            && e.fake + Filler(ctx.entries, filler) != e.original + Filler(ctx.entries, filler)
  {
    hide WellFormed, InfixFree, Telling, Json.Faithful, Utf8.Valid, ClientText, Overlap, Filler, RunFrames, Finish,
         Render, Restored, RunField, OneShot, GoodOut, KeyOps, BadText, MaxFakeLen, Headed, ReadKey;
    var k := PlainKey(ctx.provider);
    var text := BadText(ctx.entries, e, filler);
    var frames := [SseEvents.SyntheticFrame(ctx.codec, k, text)];
    WellFormedIsHeaded(ctx.entries);
    FakeIsUtf8(ctx.entries, e);
    OverlapLosesSecret(ctx.entries, e, d, n, filler);
    BadTextIsUtf8(ctx.entries, e, d, n, filler);
    PlainKeyIsPlain(ctx.provider);
    forall i ensures KeyOps(ctx, frames, i) + [Complete] == [Text(if i == k then text else ""), Complete] {
      OneFrameOps(ctx, k, text, i);
    }
    var s := RunFrames(ctx, EMPTY, frames);
    var out := s.out + Finish(ctx, s.after).out;
    forall i ensures ReleasedFor(out, i) == RunField(ctx.entries, "", KeyOps(ctx, frames, i) + [Complete]).released {
      SseRuns.WholeRunFor(ctx, frames, i);
    }
    NothingComes(ctx.entries);
    SentSum(ctx, frames);
    ClientReads(ctx, out, k);
    SentAlone(ctx, out, k);
  }

  lemma FakeIsUtf8(entries: seq<Entry>, e: Entry)
    requires WellFormed(entries) && e in entries
    ensures Utf8.Valid(e.fake)
  {}

  lemma BadTextIsUtf8(entries: seq<Entry>, e: Entry, d: Entry, n: nat, filler: char)
    requires Headed(entries) && InfixFree(entries) && Utf8.Valid(e.fake) && Telling(entries, filler)
    requires e in entries && d in entries && 0 < n < |e.fake| && Overlap(e.fake, d.fake, n)
    ensures Utf8.Valid(BadText(entries, e, filler)) && BadText(entries, e, filler) != ""
  {
    hide Headed, InfixFree, Utf8.Valid, Overlap;
    BadTextIsCutInside(entries, e, d, n, filler);
  }

  lemma PlainKeyIsPlain(provider: Provider)
    ensures Extractable(PlainKey(provider), provider) && ReadKey(PlainKey(provider)) == PlainKey(provider)
  {}

  lemma OneFrameOps(ctx: Ctx, k: FieldKey, text: string, i: FieldKey)
    requires Extractable(k, ctx.provider) && ReadKey(k) == k && Utf8.Valid(text) && text != "" && Json.Faithful(ctx.codec)
    ensures KeyOps(ctx, [SseEvents.SyntheticFrame(ctx.codec, k, text)], i) + [Complete]
            == [Text(if i == k then text else ""), Complete]
  {
    hide Extractable, ReadKey, Utf8.Valid, Json.Faithful, ExtractFields, ClassifyTerminal, SseEvents.Lines,
         SseEvents.DataContent, SseEvents.EventType, SseEvents.SyntheticFrame, Metadata;
    var frame := SseEvents.SyntheticFrame(ctx.codec, k, text);
    SseEvents.SyntheticFrameReadBack(ctx.codec, ctx.provider, k, text);
    var fields := [Field(k, text)];
    assert Classify(ctx, frame).Content? && Classify(ctx, frame).fields == fields;
    assert fields[1..] == [] && [frame][1..] == [];
    var piece := if i == k then text else "";
    assert PieceFor(fields, i) == piece + "" == piece;
    assert KeyOps(ctx, [frame], i) == [Text(piece)] + [] == [Text(piece)];
    assert [Text(piece)] + [Complete] == [Text(piece), Complete];
  }

  /** A field without text releases nothing, and is the empty text. */
  lemma NothingComes(entries: seq<Entry>)
    ensures RunField(entries, "", [Text(""), Complete]).released == [] && Restored(entries, []) == ""
    ensures OneShot(entries, "", [Text(""), Complete]) == ""
  {
    var ops := [Text(""), Complete];
    assert ops[1..] == [Complete] && ops[1..][1..] == [];
    assert "" + "" == "";
    FlushEmpty(entries, MaxFakeLen(entries));
    FlushEmpty(entries, 0);
  }

  // ------------------------------------------------------------ two keys that are read under one

  /** A Gemini event with a thought and a text. */
  function ThoughtAndText(): Json.Value {
    Json.Object([Json.Member("candidates", Json.Array([Json.Object([Json.Member("content",
      Json.Object([Json.Member("parts", Json.Array(ThoughtParts()))]))])]))])
  }

  function ThoughtParts(): seq<Json.Value> {
    [Json.Object([Json.Member("text", Json.String("a")), Json.Member("thought", Json.Bool(true))]),
     Json.Object([Json.Member("text", Json.String("b"))])]
  }

  /** A thought "a" and a text "b" in one event, and no fakes at all: neither of the two fields is what the
      client reads as text. */
  lemma ThoughtReadAsText(ctx: Ctx)
    requires ctx.provider.Gemini? && ctx.entries == [] && Json.Faithful(ctx.codec)
    ensures var frames := [SseEvents.MetadataFrame(ctx.codec, ThoughtAndText())];
            var read := ClientText(ctx, Output(ctx, frames), GeminiText(false));
            && WholeText(ctx, frames, GeminiText(true)) == "a" && WholeText(ctx, frames, GeminiText(false)) == "b"
            && read != "a" && read != "b"
  {
    hide Output, WholeText, ClientText, Json.Faithful, SseEvents.MetadataFrame, Alone;
    var frames := [SseEvents.MetadataFrame(ctx.codec, ThoughtAndText())];
    TextOfOneFrame(ctx, GeminiText(true), "a");
    TextOfOneFrame(ctx, GeminiText(false), "b");
    NotAlone(ctx, frames, GeminiText(false), GeminiText(true));
    NotAlone(ctx, frames, GeminiText(true), GeminiText(false));
    ClientSeesRestoredText(ctx, frames, GeminiText(true));
    ClientSeesRestoredText(ctx, frames, GeminiText(false));
  }

  lemma NotAlone(ctx: Ctx, frames: seq<string>, j: FieldKey, i: FieldKey)
    requires i != j && ReadKey(i) == ReadKey(j) && WholeText(ctx, frames, i) != ""
    ensures !Alone(ctx, frames, j)
  {
    hide WholeText, ReadKey;
  }

  lemma TextOfOneFrame(ctx: Ctx, k: FieldKey, text: string)
    requires ctx.provider.Gemini? && ctx.entries == [] && Json.Faithful(ctx.codec)
    requires (k == GeminiText(true) && text == "a") || (k == GeminiText(false) && text == "b")
    ensures WholeText(ctx, [SseEvents.MetadataFrame(ctx.codec, ThoughtAndText())], k) == text
  {
    hide Json.Faithful, SseEvents.MetadataFrame, Classify, RestoreAll;
    var frame := SseEvents.MetadataFrame(ctx.codec, ThoughtAndText());
    ThoughtIsClassified(ctx);
    var fields := [Field(GeminiText(true), "a"), Field(GeminiText(false), "b")];
    assert fields[1..][1..] == [] && fields[1..] == [Field(GeminiText(false), "b")];
    assert PieceFor(fields, k) == text;
    assert [frame][1..] == [];
    assert KeyOps(ctx, [frame], k) == [Text(text)] + [] == [Text(text)];
    var ops := [Text(text), Complete];
    assert [Text(text)] + [Complete] == ops && ops[1..] == [Complete] && ops[1..][1..] == [];
    assert "" + text == text;
    assert OneShot([], text, [Complete]) == RestoreAll([], text) + "";
    RestoreNothing(text);
  }

  lemma ThoughtIsClassified(ctx: Ctx)
    requires ctx.provider.Gemini? && Json.Faithful(ctx.codec)
    ensures var e := Classify(ctx, SseEvents.MetadataFrame(ctx.codec, ThoughtAndText()));
            e.Content? && e.fields == [Field(GeminiText(true), "a"), Field(GeminiText(false), "b")]
  {
    hide SseEvents.Lines, SseEvents.DataContent, SseEvents.EventType, SseEvents.EventFrame, Json.Parsed, ExtractFields,
         ThoughtAndText, Metadata;
    ThoughtParsed();
    assert SseEvents.OneLine(ctx.codec.show(ThoughtAndText()));
    SseEvents.FrameReadBack(None, ctx.codec.show(ThoughtAndText()));
    ThoughtFields();
  }

  lemma ThoughtFields()
    ensures ExtractFields(ThoughtAndText(), Gemini, None) == [Field(GeminiText(true), "a"), Field(GeminiText(false), "b")]
  {
    hide PartFields;
    var path := ["candidates", "0", "content", "parts"];
    assert path[1..] == ["0", "content", "parts"] && path[1..][1..] == ["content", "parts"];
    assert ["content", "parts"][1..] == ["parts"] && ["parts"][1..] == [];
    var content := Json.Object([Json.Member("parts", Json.Array(ThoughtParts()))]);
    assert Json.Pointer(content, ["parts"]) == Some(Json.Array(ThoughtParts()));
    assert Json.Pointer(Json.Object([Json.Member("content", content)]), ["content", "parts"])
           == Some(Json.Array(ThoughtParts()));
    ThoughtPartFields();
  }

  lemma ThoughtPartFields()
    ensures PartFields(ThoughtParts(), 0) == [Field(GeminiText(true), "a"), Field(GeminiText(false), "b")]
  {
    var p, q := ThoughtParts()[0], ThoughtParts()[1];
    NoOther(p);
    NoOther(q);
    assert ThoughtParts()[1..] == [q] && [q][1..] == [];
    assert Json.Get(p, "text") == Some(Json.String("a")) && Json.Get(p, "thought") == Some(Json.Bool(true));
    assert Json.Get(q, "text") == Some(Json.String("b")) && Json.Get(q, "thought") == None;
    assert PartFields([], 2) == [];
    assert PartFields([q], 1) == [Field(GeminiText(false), "b")] + [] + [] + [];
  }

  lemma NoOther(part: Json.Value)
    requires part in ThoughtParts()
    ensures Json.Pointer(part, ["codeExecutionResult", "output"]) == None
    ensures Json.Pointer(part, ["functionCall", "args"]) == None
  {
    hide Json.Find;
    Json.FindNone(part.members, "codeExecutionResult");
    Json.FindNone(part.members, "functionCall");
  }

  lemma ThoughtParsed()
    ensures Json.Parsed(ThoughtAndText())
  {
    hide Json.Parsed, Utf8.Valid, StringLess;
    SseEvents.AnthropicNames();
    SseEvents.GeminiNames();
    SseEvents.ChatNames();
    Utf8.AsciiValid("thought");
    Utf8.AsciiValid("a");
    Utf8.AsciiValid("b");
    SseEvents.StringParsed("a");
    SseEvents.StringParsed("b");
    BoolParsed();
    TextThought();
    SseEvents.PairParsed("text", Json.String("a"), "thought", Json.Bool(true));
    SseEvents.WrapParsed("text", Json.String("b"));
    var p, q := ThoughtParts()[0], ThoughtParts()[1];
    PairListParsed(p, q);
    var content := Json.Object([Json.Member("parts", Json.Array([p, q]))]);
    SseEvents.WrapParsed("parts", Json.Array([p, q]));
    SseEvents.WrapParsed("content", content);
    SseEvents.ListParsed(Json.Object([Json.Member("content", content)]));
    SseEvents.WrapParsed("candidates", Json.Array([Json.Object([Json.Member("content", content)])]));
  }

  lemma BoolParsed()
    ensures Json.Parsed(Json.Bool(true))
  {}

  lemma TextThought()
    ensures StringLess("text", "thought")
  {
    SseEvents.SecondLetter("text", "thought");
  }

  lemma PairListParsed(p: Json.Value, q: Json.Value)
    requires Json.Parsed(p) && Json.Parsed(q)
    ensures Json.Parsed(Json.Array([p, q]))
  {}
}
