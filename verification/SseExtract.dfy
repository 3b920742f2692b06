/** What text an event carries, place by place, and which events carry none. */
module SseExtract {
  import opened Common
  import opened Json
  import opened Order
  import opened SseFields
  import opened SseMachine

  // -------------------------------------------------------------------------------- the places

  /** The string at a place, "" where there is no string. */
  function StringAt(v: Option<Value>): string {
    match v case Some(String(s)) => s case _ => ""
  }

  predicate IsString(v: Option<Value>) {
    v.Some? && v.value.String?
  }

  predicate IsType(v: Option<Value>, s: string) {
    v == Some(String(s))
  }

  /** `as_u64().unwrap_or(0)`. */
  function NumberOrZero(v: Option<Value>): nat {
    match v case Some(Natural(n)) => n case _ => 0
  }

  function Items(v: Option<Value>): seq<Value> {
    match v case Some(Array(items)) => items case _ => []
  }

  /** Chat completions, as opposed to the Responses API. */
  predicate IsChat(provider: Provider, event: Option<string>) {
    (provider.OpenAi? || provider.OpenRouter?) && !(event.Some? && "response." <= event.value)
  }

  predicate IsResponses(provider: Provider, event: Option<string>, name: string) {
    (provider.OpenAi? || provider.OpenRouter?) && event == Some(name)
  }

  predicate IsDelta(json: Value, provider: Provider) {
    provider.Anthropic? && IsType(Get(json, "type"), "content_block_delta")
  }

  /** The place of a field in the first choice. */
  function ChatPlace(json: Value, name: string): Option<Value> {
    Pointer(json, ["choices", "0", "delta", name])
  }

  function Parts(json: Value): seq<Value> {
    Items(Pointer(json, ["candidates", "0", "content", "parts"]))
  }

  /** The place of a delta of this type in an Anthropic event. */
  function DeltaPlace(json: Value, deltaType: string): Option<Value> {
    if !IsType(Pointer(json, ["delta", "type"]), deltaType) then None
    else if deltaType == "text_delta" then Pointer(json, ["delta", "text"])
    else if deltaType == "thinking_delta" then Pointer(json, ["delta", "thinking"])
    else if deltaType == "input_json_delta" then Pointer(json, ["delta", "partial_json"])
    else None
  }

  function CallPiece(call: Value, index: nat): string {
    if NumberOrZero(Get(call, "index")) == index then StringAt(Pointer(call, ["function", "arguments"])) else ""
  }

  function CallPieces(calls: seq<Value>, index: nat): seq<string> {
    seq(|calls|, n requires 0 <= n < |calls| => CallPiece(calls[n], index))
  }

  predicate IsThought(part: Value) {
    Get(part, "thought") == Some(Bool(true))
  }

  function TextPiece(part: Value, thought: bool): string {
    if IsThought(part) == thought then StringAt(Get(part, "text")) else ""
  }

  function TextPieces(parts: seq<Value>, thought: bool): seq<string> {
    seq(|parts|, n requires 0 <= n < |parts| => TextPiece(parts[n], thought))
  }

  function ArgPlace(part: Value, name: string): Option<Value> {
    match Pointer(part, ["functionCall", "args"]) case Some(Object(args)) => Find(args, name) case _ => None
  }

  /** The text under `k`: the strings at its places, in their order. */
  function TextAt(json: Value, provider: Provider, event: Option<string>, k: FieldKey): string {
    match k
    case AnthropicDelta(t, i) =>
      if IsDelta(json, provider) && NumberOrZero(Get(json, "index")) == i then StringAt(DeltaPlace(json, t)) else ""
    case OpenAiContent => if IsChat(provider, event) then StringAt(ChatPlace(json, "content")) else ""
    case OpenAiReasoning => if IsChat(provider, event) then StringAt(ChatPlace(json, "reasoning_content")) else ""
    case OpenAiRefusal => if IsChat(provider, event) then StringAt(ChatPlace(json, "refusal")) else ""
    case OpenAiFunctionCallArgs =>
      if IsChat(provider, event) then StringAt(Pointer(json, ["choices", "0", "delta", "function_call", "arguments"]))
      else ""
    case OpenAiToolCall(i) =>
      if IsChat(provider, event) then
        Concat(CallPieces(Items(ChatPlace(json, "tool_calls")), i))
      else ""
    case ResponsesApiDelta(e) =>
      if IsResponses(provider, event, e)
         && (e == "response.output_text.delta" || e == "response.reasoning_summary_text.delta")
      then StringAt(Get(json, "delta")) else ""
    case ResponsesApiDone(e) =>
      if IsResponses(provider, event, e) && e == "response.output_text.done" then StringAt(Get(json, "text")) else ""
    case GeminiText(thought) =>
      if provider.Gemini? then
        Concat(TextPieces(Parts(json), thought))
      else ""
    case GeminiCodeExecOutput(i) =>
      if provider.Gemini? && i < |Parts(json)| then StringAt(Pointer(Parts(json)[i], ["codeExecutionResult", "output"]))
      else ""
    case GeminiFuncCallArg(i, name) =>
      if provider.Gemini? && i < |Parts(json)| then StringAt(ArgPlace(Parts(json)[i], name)) else ""
  }

  /** Whether the event carries text, be it empty where the program does not skip the empty string. */
  predicate CarriesText(json: Value, provider: Provider, event: Option<string>) {
    match provider
    case Anthropic => IsType(Get(json, "type"), "content_block_delta") && DeltaCarriesText(json)
    case Gemini => exists p :: p in Parts(json) && PartCarriesText(p)
    case _ => if IsChat(provider, event) then ChatCarriesText(json) else event.Some? && ResponseCarriesText(json, event.value)
  }

  predicate DeltaCarriesText(json: Value) {
    || IsString(DeltaPlace(json, "text_delta"))
    || IsString(DeltaPlace(json, "thinking_delta"))
    || IsString(DeltaPlace(json, "input_json_delta"))
  }

  predicate ChatCarriesText(json: Value) {
    || StringAt(ChatPlace(json, "content")) != ""
    || IsString(ChatPlace(json, "reasoning_content"))
    || IsString(ChatPlace(json, "refusal"))
    || StringAt(Pointer(json, ["choices", "0", "delta", "function_call", "arguments"])) != ""
    || exists c :: c in Items(ChatPlace(json, "tool_calls")) && StringAt(Pointer(c, ["function", "arguments"])) != ""
  }

  predicate ResponseCarriesText(json: Value, event: string) {
    || (event in {"response.output_text.delta", "response.reasoning_summary_text.delta"} && IsString(Get(json, "delta")))
    || (event == "response.output_text.done" && IsString(Get(json, "text")))
  }

  predicate PartCarriesText(part: Value) {
    || IsString(Get(part, "text"))
    || IsString(Pointer(part, ["codeExecutionResult", "output"]))
    || (match Pointer(part, ["functionCall", "args"])
        case Some(Object(args)) => exists m :: m in args && m.value.String?
        case _ => false)
  }

  // ------------------------------------------------------------------------------------ sums

  lemma {:induction false} PieceSum(a: seq<Field>, b: seq<Field>, k: FieldKey)
    ensures PieceFor(a + b, k) == PieceFor(a, k) + PieceFor(b, k)
  {
    if a == [] {
      assert a + b == b;
      assert "" + PieceFor(b, k) == PieceFor(b, k);
    } else {
      PieceSum(a[1..], b, k);
      assert (a + b)[1..] == a[1..] + b;
      Assoc(if a[0].key == k then a[0].text else "", PieceFor(a[1..], k), PieceFor(b, k));
    }
  }

  lemma PieceOfText(key: FieldKey, v: Option<Value>, k: FieldKey)
    ensures PieceFor(TextField(key, v), k) == if key == k then StringAt(v) else ""
    ensures TextField(key, v) != [] <==> IsString(v)
  {
    if v.Some? && v.value.String? {
      var f := Field(key, v.value.s);
      assert TextField(key, v) == [f] && [f][1..] == [];
      assert PieceFor([f], k) == (if f.key == k then f.text else "") + "";
    }
  }

  lemma PieceOfNonEmpty(key: FieldKey, v: Option<Value>, k: FieldKey)
    ensures PieceFor(NonEmptyField(key, v), k) == if key == k then StringAt(v) else ""
    ensures NonEmptyField(key, v) != [] <==> StringAt(v) != ""
  {
    PieceOfText(key, v, k);
  }

  // --------------------------------------------------------------------------------- pointers

  lemma PointerStep(v: Value, path: seq<string>, name: string)
    ensures Pointer(v, path + [name]) == match Pointer(v, path) case Some(w) => StepInto(w, name) case None => None
    decreases |path|
  {
    hide StepInto;
    if path == [] {
      assert [] + [name] == [name] && [name][1..] == [];
    } else {
      assert (path + [name])[1..] == path[1..] + [name];
      if StepInto(v, path[0]).Some? {
        PointerStep(StepInto(v, path[0]).value, path[1..], name);
      }
    }
  }

  lemma StepIsGet(v: Value, name: string)
    requires name != "0"
    ensures StepInto(v, name) == Get(v, name)
  {}

  lemma PointerGet(v: Value, path: seq<string>, name: string)
    requires name != "0"
    ensures Pointer(v, path + [name]) == match Pointer(v, path) case Some(w) => Get(w, name) case None => None
  {
    PointerStep(v, path, name);
    if Pointer(v, path).Some? { StepIsGet(Pointer(v, path).value, name); }
  }

  lemma PointerGetTwo(v: Value, a: string, b: string)
    requires a != "0" && b != "0"
    ensures Pointer(v, [a, b]) == Within(Get(v, a), b)
  {
    hide Get;
    PointerGet(v, [], a);
    PointerGet(v, [a], b);
    assert [] + [a] == [a] && [a] + [b] == [a, b];
  }

  // --------------------------------------------------------------------------------- Anthropic

  lemma DeltaPlaces(json: Value, name: string)
    requires name != "0"
    ensures Pointer(json, ["delta", name]) == Get(match Get(json, "delta") case Some(d) => d case None => Null, name)
  {
    PointerGetTwo(json, "delta", name);
  }

  lemma AnthropicPlaces(json: Value, k: FieldKey)
    ensures PieceFor(AnthropicFields(json), k) == TextAt(json, Anthropic, None, k)
    ensures AnthropicFields(json) != [] <==> CarriesText(json, Anthropic, None)
  {
    hide Pointer, Find, Get, PieceFor, TextField, DeltaPlace, StringAt, IsString, AnthropicFields, DeltaCarriesText;
    NoPieces(k);
    NoneIsNoString();
    AnthropicIs(json);
    var t := AsString(Pointer(json, ["delta", "type"]));
    OneDelta(json, t);
    if t.Some? {
      PieceOfText(AnthropicDelta(t.value, NumberOrZero(Get(json, "index"))), DeltaPlace(json, t.value), k);
    }
  }

  /** One field, for the type of the delta. */
  lemma AnthropicIs(json: Value)
    ensures var t := AsString(Pointer(json, ["delta", "type"]));
            AnthropicFields(json)
            == if !IsType(Get(json, "type"), "content_block_delta") || t.None? then []
               else TextField(AnthropicDelta(t.value, NumberOrZero(Get(json, "index"))), DeltaPlace(json, t.value))
  {
    hide Pointer, Find, Get, DeltaPlace;
    DeltaPlaces(json, "type");
    var t := AsString(Pointer(json, ["delta", "type"]));
    if t.Some? { DeltaPlaceIs(json, t.value); }
  }

  lemma OneDelta(json: Value, t: Option<string>)
    requires t == AsString(Pointer(json, ["delta", "type"]))
    ensures forall u :: t != Some(u) ==> DeltaPlace(json, u) == None
    ensures DeltaCarriesText(json) <==> t.Some? && IsString(DeltaPlace(json, t.value))
  {
    hide Pointer;
    NoneIsNoString();
  }

  lemma DeltaPlaceIs(json: Value, u: string)
    ensures var delta := match Get(json, "delta") case Some(d) => d case None => Null;
            DeltaPlace(json, u)
            == if AsString(Get(delta, "type")) != Some(u) then None
               else if u == "text_delta" then Get(delta, "text")
               else if u == "thinking_delta" then Get(delta, "thinking")
               else if u == "input_json_delta" then Get(delta, "partial_json")
               else None
  {
    hide Pointer, Find;
    DeltaPlaces(json, "type");
    DeltaPlaces(json, "text");
    DeltaPlaces(json, "thinking");
    DeltaPlaces(json, "partial_json");
  }

  lemma NoPieces(k: FieldKey)
    ensures PieceFor([], k) == ""
  {}

  // ------------------------------------------------------------------------------------- OpenAI

  lemma {:induction false} CallPlaces(calls: seq<Value>, k: FieldKey)
    ensures PieceFor(ToolCallFields(calls), k)
            == if k.OpenAiToolCall? then Concat(CallPieces(calls, k.callIndex)) else ""
    ensures ToolCallFields(calls) != [] <==> exists c :: c in calls && StringAt(Pointer(c, ["function", "arguments"])) != ""
  {
    hide PieceFor, Pointer, Find, NonEmptyField, Concat, CallPieces, StringAt;
    NoPieces(k);
    NoCalls();
    if calls != [] {
      var c, rest := calls[0], calls[1..];
      var index := match AsNatural(Get(c, "index")) case Some(n) => n case None => 0;
      var head := NonEmptyField(OpenAiToolCall(index), Within(Get(c, "function"), "arguments"));
      CallPlaces(rest, k);
      PointerGetTwo(c, "function", "arguments");
      PieceOfNonEmpty(OpenAiToolCall(index), Within(Get(c, "function"), "arguments"), k);
      PieceSum(head, ToolCallFields(rest), k);
      assert forall d :: d in calls <==> d == c || d in rest;
      if k.OpenAiToolCall? {
        CallsHead(calls, k.callIndex);
      }
    }
  }

  lemma CallsHead(calls: seq<Value>, i: nat)
    requires calls != []
    ensures Concat(CallPieces(calls, i)) == CallPiece(calls[0], i) + Concat(CallPieces(calls[1..], i))
  {
    hide CallPiece;
    assert CallPieces(calls, i)[1..] == CallPieces(calls[1..], i);
  }

  lemma ChatPlaces(json: Value, provider: Provider, event: Option<string>, delta: Option<Value>, k: FieldKey)
    requires IsChat(provider, event) && delta == Pointer(json, ["choices", "0", "delta"])
    ensures var fields := match delta case Some(d) => ChatFields(d) case None => [];
            && PieceFor(fields, k) == TextAt(json, provider, event, k)
            && (fields != [] <==> CarriesText(json, provider, event))
  {
    hide Pointer, Find, PieceFor, NonEmptyField, TextField, ToolCallFields, CallPieces, Concat, StringAt, IsString,
         ChatPlace, Get, ChatFields;
    ChatPlaceIs(json, delta, "content");
    ChatPlaceIs(json, delta, "reasoning_content");
    ChatPlaceIs(json, delta, "tool_calls");
    ChatPlaceIs(json, delta, "refusal");
    FunctionCallPlace(json, delta);
    NoPieces(k);
    NoneIsNoString();
    match delta {
      case None => NoCalls();
      case Some(d) => DeltaPieces(d, k);
    }
  }

  lemma ChatPlaceIs(json: Value, delta: Option<Value>, name: string)
    requires delta == Pointer(json, ["choices", "0", "delta"]) && name != "0"
    ensures ChatPlace(json, name) == match delta case Some(d) => Get(d, name) case None => None
  {
    hide Pointer, Get;
    var path := ["choices", "0", "delta"];
    PointerGet(json, path, name);
    assert path + [name] == ["choices", "0", "delta", name];
  }

  lemma FunctionCallPlace(json: Value, delta: Option<Value>)
    requires delta == Pointer(json, ["choices", "0", "delta"])
    ensures Pointer(json, ["choices", "0", "delta", "function_call", "arguments"])
            == match delta case Some(d) => Within(Get(d, "function_call"), "arguments") case None => None
  {
    hide Pointer, Get;
    var path := ["choices", "0", "delta", "function_call"];
    ChatPlaceIs(json, delta, "function_call");
    PointerGet(json, path, "arguments");
    assert path + ["arguments"] == ["choices", "0", "delta", "function_call", "arguments"];
  }

  lemma NoneIsNoString()
    ensures StringAt(None) == "" && !IsString(None)
  {}

  lemma NoCalls()
    ensures forall i :: Concat(CallPieces([], i)) == ""
  {
    forall i ensures Concat(CallPieces([], i)) == "" {
      assert CallPieces([], i) == [];
      ConcatNone<char>();
    }
  }

  lemma DeltaPieces(d: Value, k: FieldKey)
    ensures var calls := Items(Get(d, "tool_calls"));
            && PieceFor(ChatFields(d), k)
               == (match k
                   case OpenAiContent => StringAt(Get(d, "content"))
                   case OpenAiReasoning => StringAt(Get(d, "reasoning_content"))
                   case OpenAiToolCall(i) => Concat(CallPieces(calls, i))
                   case OpenAiFunctionCallArgs => StringAt(Within(Get(d, "function_call"), "arguments"))
                   case OpenAiRefusal => StringAt(Get(d, "refusal"))
                   case _ => "")
            && (ChatFields(d) != [] <==>
                  || StringAt(Get(d, "content")) != "" || IsString(Get(d, "reasoning_content"))
                  || IsString(Get(d, "refusal")) || StringAt(Within(Get(d, "function_call"), "arguments")) != ""
                  || exists c :: c in calls && StringAt(Pointer(c, ["function", "arguments"])) != "")
  {
    hide Pointer, Find, PieceFor, NonEmptyField, TextField, ToolCallFields, CallPieces, Concat, StringAt, IsString;
    var calls := Items(Get(d, "tool_calls"));
    var a := NonEmptyField(OpenAiContent, Get(d, "content"));
    var b := TextField(OpenAiReasoning, Get(d, "reasoning_content"));
    var c := ToolCallFields(calls);
    var e := NonEmptyField(OpenAiFunctionCallArgs, Within(Get(d, "function_call"), "arguments"));
    var f := TextField(OpenAiRefusal, Get(d, "refusal"));
    NoCallFields();
    assert ChatFields(d) == a + b + c + e + f;
    PieceSum(a, b, k);
    PieceSum(a + b, c, k);
    PieceSum(a + b + c, e, k);
    PieceSum(a + b + c + e, f, k);
    PieceOfNonEmpty(OpenAiContent, Get(d, "content"), k);
    PieceOfText(OpenAiReasoning, Get(d, "reasoning_content"), k);
    CallPlaces(calls, k);
    PieceOfNonEmpty(OpenAiFunctionCallArgs, Within(Get(d, "function_call"), "arguments"), k);
    PieceOfText(OpenAiRefusal, Get(d, "refusal"), k);
    Empties(PieceFor(ChatFields(d), k), PieceFor(a, k), PieceFor(b, k), PieceFor(c, k), PieceFor(e, k), PieceFor(f, k));
  }

  lemma NoCallFields()
    ensures ToolCallFields([]) == []
  {}

  lemma Empties(all: string, a: string, b: string, c: string, e: string, f: string)
    requires all == a + b + c + e + f
    ensures b == c == e == f == "" ==> all == a
    ensures a == c == e == f == "" ==> all == b
    ensures a == b == e == f == "" ==> all == c
    ensures a == b == c == f == "" ==> all == e
    ensures a == b == c == e == "" ==> all == f
  {}

  lemma ResponsesPlaces(json: Value, provider: Provider, event: string, k: FieldKey)
    requires (provider.OpenAi? || provider.OpenRouter?) && "response." <= event
    ensures PieceFor(ResponsesFields(json, event), k) == TextAt(json, provider, Some(event), k)
    ensures ResponsesFields(json, event) != [] <==> CarriesText(json, provider, Some(event))
  {
    hide Pointer, Find, Get, PieceFor, TextField, StringAt, IsString;
    NoPieces(k);
    DoneIsNoDelta();
    if event == "response.output_text.done" {
      PieceOfText(ResponsesApiDone(event), Get(json, "text"), k);
    } else {
      PieceOfText(ResponsesApiDelta(event), Get(json, "delta"), k);
    }
  }

  lemma DoneIsNoDelta()
    ensures "response.output_text.done" != "response.output_text.delta"
    ensures "response.output_text.done" != "response.reasoning_summary_text.delta"
  {
    assert |"response.output_text.done"| != |"response.output_text.delta"|;
    assert |"response.output_text.done"| != |"response.reasoning_summary_text.delta"|;
  }

  // ------------------------------------------------------------------------------------- Gemini

  lemma ArgPlaces(args: seq<Member>, i: nat, k: FieldKey)
    requires Distinct(args)
    ensures PieceFor(ArgFields(args, i), k)
            == if k.GeminiFuncCallArg? && k.argPart == i then StringAt(Find(args, k.argKey)) else ""
    ensures ArgFields(args, i) != [] <==> exists m :: m in args && m.value.String?
  {
    hide PieceFor, ArgFields, StringAt, Find, Distinct;
    ArgText(args, i, k);
    ArgsCarry(args, i);
  }

  lemma {:induction false} ArgsCarry(args: seq<Member>, i: nat)
    ensures ArgFields(args, i) != [] <==> exists m :: m in args && m.value.String?
  {
    hide TextField, IsString;
    if args != [] {
      ArgsCarry(args[1..], i);
      PieceOfText(GeminiFuncCallArg(i, args[0].name), Some(args[0].value), OpenAiContent);
      IsStringSome(args[0].value);
      assert forall n :: n in args <==> n == args[0] || n in args[1..];
    }
  }

  lemma {:induction false} ArgText(args: seq<Member>, i: nat, k: FieldKey)
    requires Distinct(args)
    ensures PieceFor(ArgFields(args, i), k)
            == if k.GeminiFuncCallArg? && k.argPart == i then StringAt(Find(args, k.argKey)) else ""
  {
    hide PieceFor, TextField, StringAt, IsString, Distinct, Find, ArgFields;
    NoPieces(k);
    NoneIsNoString();
    FindNothing();
    NoArgs(i);
    if args != [] {
      var m, rest := args[0], args[1..];
      var key := GeminiFuncCallArg(i, m.name);
      TailDistinct(args);
      ArgText(rest, i, k);
      PieceOfText(key, Some(m.value), k);
      PieceSum(TextField(key, Some(m.value)), ArgFields(rest, i), k);
      FindNone(rest, m.name);
      HeadOfArgs(args, i, k);
      NoText(PieceFor(ArgFields(rest, i), k));
      NoText(StringAt(Some(m.value)));
    }
  }

  lemma NoText(s: string)
    ensures s + "" == s && "" + s == s
  {}

  lemma HeadOfArgs(args: seq<Member>, i: nat, k: FieldKey)
    requires args != []
    ensures ArgFields(args, i) == TextField(GeminiFuncCallArg(i, args[0].name), Some(args[0].value)) + ArgFields(args[1..], i)
    ensures forall name :: Find(args, name) == if name == args[0].name then Some(args[0].value) else Find(args[1..], name)
  {
    hide TextField;
  }

  lemma IsStringSome(v: Value)
    ensures IsString(Some(v)) == v.String?
  {}

  lemma TailDistinct(args: seq<Member>)
    requires Distinct(args) && args != []
    ensures Distinct(args[1..]) && forall n: nat :: n < |args[1..]| ==> args[1..][n].name != args[0].name
  {
    assert forall n :: 0 <= n < |args[1..]| ==> args[1..][n] == args[n + 1];
  }

  /** The text under `k` in part `i`. */
  function PartPiece(part: Value, i: nat, k: FieldKey): string {
    match k
    case GeminiText(thought) => TextPiece(part, thought)
    case GeminiCodeExecOutput(j) => if i == j then StringAt(Pointer(part, ["codeExecutionResult", "output"])) else ""
    case GeminiFuncCallArg(j, name) => if i == j then StringAt(ArgPlace(part, name)) else ""
    case _ => ""
  }

  function ArgsOf(part: Value): seq<Member> {
    match Pointer(part, ["functionCall", "args"]) case Some(Object(args)) => args case _ => []
  }

  lemma ArgsDistinct(part: Value)
    requires Parsed(part)
    ensures Distinct(ArgsOf(part))
  {
    hide StringLess, Pointer;
    if Pointer(part, ["functionCall", "args"]).Some? {
      PointerParsed(part, ["functionCall", "args"]);
      if ArgsOf(part) != [] { OrderIsDistinct(ArgsOf(part)); }
    }
  }

  lemma OnePartPlaces(part: Value, i: nat, k: FieldKey)
    requires Parsed(part)
    ensures var fields := PartFields([part], i);
            PieceFor(fields, k) == PartPiece(part, i, k) && (fields != [] <==> PartCarriesText(part))
  {
    hide Pointer, Find, PieceFor, TextField, StringAt, IsString, ArgFields, Parsed;
    var a := TextField(GeminiText(IsThought(part)), Get(part, "text"));
    var b := TextField(GeminiCodeExecOutput(i), Pointer(part, ["codeExecutionResult", "output"]));
    var c := ArgFields(ArgsOf(part), i);
    assert [part][1..] == [];
    NoPartFields(i + 1);
    NoArgs(i);
    assert PartFields([part], i) == a + b + c + [] == a + b + c;
    PieceOfText(GeminiText(IsThought(part)), Get(part, "text"), k);
    PieceOfText(GeminiCodeExecOutput(i), Pointer(part, ["codeExecutionResult", "output"]), k);
    ArgsDistinct(part);
    ArgPlaces(ArgsOf(part), i, k);
    FindNothing();
    PieceSum(a, b, k);
    PieceSum(a + b, c, k);
    NoneIsNoString();
    Empties(PieceFor(a + b + c, k), PieceFor(a, k), PieceFor(b, k), PieceFor(c, k), "", "");
    assert PieceFor(a, k) + PieceFor(b, k) + PieceFor(c, k) + "" + "" == PieceFor(a, k) + PieceFor(b, k) + PieceFor(c, k);
  }

  lemma NoPartFields(i: nat)
    ensures PartFields([], i) == []
  {}

  lemma NoArgs(i: nat)
    ensures ArgFields([], i) == []
  {}

  lemma FindNothing()
    ensures forall name :: Find([], name) == None
  {}

  function PartPieces(parts: seq<Value>, i: nat, k: FieldKey): seq<string> {
    seq(|parts|, n requires 0 <= n < |parts| => PartPiece(parts[n], i + n, k))
  }

  lemma PartsHead(parts: seq<Value>, i: nat, k: FieldKey)
    requires parts != []
    ensures Concat(PartPieces(parts, i, k)) == PartPiece(parts[0], i, k) + Concat(PartPieces(parts[1..], i + 1, k))
  {
    hide PartPiece;
    assert PartPieces(parts, i, k)[1..] == PartPieces(parts[1..], i + 1, k);
  }

  lemma NoPartPieces(i: nat, k: FieldKey)
    ensures Concat(PartPieces([], i, k)) == ""
  {
    assert PartPieces([], i, k) == [];
  }

  lemma {:induction false} PartsPlaces(parts: seq<Value>, i: nat, k: FieldKey)
    requires forall p :: p in parts ==> Parsed(p)
    ensures PieceFor(PartFields(parts, i), k) == Concat(PartPieces(parts, i, k))
    ensures PartFields(parts, i) != [] <==> exists p :: p in parts && PartCarriesText(p)
  {
    hide PieceFor, PartFields, PartPiece, PartPieces, PartCarriesText, Concat, Parsed;
    if parts == [] {
      NoPieces(k);
      NoPartFields(i);
      NoPartPieces(i, k);
    } else {
      var rest := parts[1..];
      assert parts[0] in parts;
      OnePartPlaces(parts[0], i, k);
      PartsPlaces(rest, i + 1, k);
      PartFieldsCons(parts, i);
      PieceSum(PartFields([parts[0]], i), PartFields(rest, i + 1), k);
      PartsHead(parts, i, k);
      assert forall p :: p in parts <==> p == parts[0] || p in rest;
    }
  }

  lemma PartFieldsCons(parts: seq<Value>, i: nat)
    requires parts != []
    ensures PartFields(parts, i) == PartFields([parts[0]], i) + PartFields(parts[1..], i + 1)
  {
    hide Pointer, Find, TextField, ArgFields;
    NoPartFields(i + 1);
    assert [parts[0]][1..] == [];
    var a := TextField(GeminiText(Get(parts[0], "thought") == Some(Bool(true))), Get(parts[0], "text"))
             + TextField(GeminiCodeExecOutput(i), Pointer(parts[0], ["codeExecutionResult", "output"]))
             + (match Pointer(parts[0], ["functionCall", "args"]) case Some(Object(args)) => ArgFields(args, i) case _ => []);
    assert PartFields([parts[0]], i) == a + [] == a;
  }

  /** One piece among empty ones. */
  lemma {:induction false} OnlyPiece(pieces: seq<string>, j: nat)
    requires forall n :: 0 <= n < |pieces| && n != j ==> pieces[n] == ""
    ensures Concat(pieces) == if j < |pieces| then pieces[j] else ""
  {
    if pieces != [] {
      assert forall n :: 0 <= n < |pieces[1..]| ==> pieces[1..][n] == pieces[n + 1];
      if j == 0 {
        OnlyPiece(pieces[1..], |pieces|);
      } else {
        OnlyPiece(pieces[1..], j - 1);
      }
    }
  }

  lemma GeminiPlaces(json: Value, event: Option<string>, k: FieldKey)
    requires Parsed(json)
    ensures PieceFor(ExtractFields(json, Gemini, event), k) == TextAt(json, Gemini, event, k)
    ensures ExtractFields(json, Gemini, event) != [] <==> CarriesText(json, Gemini, event)
  {
    hide Pointer, PieceFor, StringAt, ArgPlace, TextPieces, PartPieces, PartCarriesText, Concat, Parsed, PartFields;
    var parts := Parts(json);
    PartsParsed(json);
    PartsPlaces(parts, 0, k);
    NoPartFields(0);
    NoPartPieces(0, k);
    NoPieces(k);
    PiecesMeet(parts, k);
  }

  lemma PiecesMeet(parts: seq<Value>, k: FieldKey)
    ensures Concat(PartPieces(parts, 0, k))
            == match k
               case GeminiText(thought) => Concat(TextPieces(parts, thought))
               case GeminiCodeExecOutput(j) =>
                 if j < |parts| then StringAt(Pointer(parts[j], ["codeExecutionResult", "output"])) else ""
               case GeminiFuncCallArg(j, name) => if j < |parts| then StringAt(ArgPlace(parts[j], name)) else ""
               case _ => ""
  {
    hide Pointer, StringAt, ArgPlace, TextPiece, Concat;
    var pieces := PartPieces(parts, 0, k);
    match k {
      case GeminiText(thought) => assert pieces == TextPieces(parts, thought);
      case GeminiCodeExecOutput(j) => OnlyPiece(pieces, j);
      case GeminiFuncCallArg(j, _) => OnlyPiece(pieces, j);
      case _ => OnlyPiece(pieces, |parts|);
    }
  }

  lemma PartsParsed(json: Value)
    requires Parsed(json)
    ensures forall p :: p in Parts(json) ==> Parsed(p)
  {
    hide Pointer, Parsed;
    var path := ["candidates", "0", "content", "parts"];
    var v := Pointer(json, path);
    if v.Some? && v.value.Array? {
      PointerParsed(json, path);
      ItemsParsed(v.value);
    }
  }

  // -------------------------------------------------------------------------------- all providers

  /** Of every event, the text extracted under each key is the text at the places of that key, and
      nothing is extracted elsewhere. */
  lemma ExtractedIsTextAt(json: Value, provider: Provider, event: Option<string>, k: FieldKey)
    requires Parsed(json)
    ensures PieceFor(ExtractFields(json, provider, event), k) == TextAt(json, provider, event, k)
    ensures ExtractFields(json, provider, event) != [] <==> CarriesText(json, provider, event)
  {
    hide PieceFor, Pointer, Find, StringAt, ArgPlace, TextPieces, PartCarriesText, Concat, Parsed, PartFields, AnthropicFields,
         ResponsesFields, ChatFields, DeltaPlace, CallPieces;
    match provider {
      case Anthropic => AnthropicPlaces(json, k);
      case Gemini => GeminiPlaces(json, event, k);
      case _ =>
        if IsChat(provider, event) {
          ChatPlaces(json, provider, event, Pointer(json, ["choices", "0", "delta"]), k);
        } else {
          ResponsesPlaces(json, provider, event.value, k);
        }
    }
  }
}
