/** Which parts of an event carry text, which events end a stream, and the synthetic events. */
module SseFields {
  import opened Common
  import opened Json
  import opened Order
  import Utf8

  datatype Provider = Anthropic | OpenAi | OpenRouter | Gemini

  /** Names one logically independent text within a response. */
  datatype FieldKey =
    | AnthropicDelta(deltaType: string, index: nat)
    | OpenAiContent
    | OpenAiToolCall(callIndex: nat)
    | OpenAiReasoning
    | OpenAiFunctionCallArgs
    | OpenAiRefusal
    | ResponsesApiDelta(deltaEvent: string)
    | ResponsesApiDone(doneEvent: string)
    | GeminiText(thought: bool)
    | GeminiCodeExecOutput(outputPart: nat)
    | GeminiFuncCallArg(argPart: nat, argKey: string)

  datatype Field = Field(key: FieldKey, text: string)

  // -------------------------------------------------------------------------- the order of keys

  /** The derived order: the rank of the variant first, then its fields from left to right. */
  function KeyCode(k: FieldKey): seq<int> {
    match k
    case AnthropicDelta(t, i) => [0] + (Code(t) + [i])
    case OpenAiContent => [1]
    case OpenAiToolCall(i) => [2, i]
    case OpenAiReasoning => [3]
    case OpenAiFunctionCallArgs => [4]
    case OpenAiRefusal => [5]
    case ResponsesApiDelta(e) => [6] + Code(e)
    case ResponsesApiDone(e) => [7] + Code(e)
    case GeminiText(t) => [8, if t then 1 else 0]
    case GeminiCodeExecOutput(i) => [9, i]
    case GeminiFuncCallArg(i, a) => [10, i] + Code(a)
  }

  predicate KeyLess(a: FieldKey, b: FieldKey) {
    LexLess(KeyCode(a), KeyCode(b))
  }

  lemma KeyCodeInjective(a: FieldKey, b: FieldKey)
    requires KeyCode(a) == KeyCode(b)
    ensures a == b
  {
    hide Code;
    assert KeyCode(a)[0] == KeyCode(b)[0];
    match a
    case AnthropicDelta(t, i) =>
      assert KeyCode(a)[1..] == Code(t) + [i] && KeyCode(b)[1..] == Code(b.deltaType) + [b.index];
      CodeInjective(t, [i], b.deltaType, [b.index]);
    case ResponsesApiDelta(e) =>
      assert KeyCode(a)[1..] == Code(e) && KeyCode(b)[1..] == Code(b.deltaEvent);
      CodeInjective(e, [], b.deltaEvent, []);
    case ResponsesApiDone(e) =>
      assert KeyCode(a)[1..] == Code(e) && KeyCode(b)[1..] == Code(b.doneEvent);
      CodeInjective(e, [], b.doneEvent, []);
    case GeminiFuncCallArg(i, g) =>
      assert KeyCode(a)[1] == KeyCode(b)[1];
      assert KeyCode(a)[2..] == Code(g) && KeyCode(b)[2..] == Code(b.argKey);
      CodeInjective(g, [], b.argKey, []);
    case OpenAiToolCall(i) => assert KeyCode(a)[1] == KeyCode(b)[1];
    case GeminiText(t) => assert KeyCode(a)[1] == KeyCode(b)[1];
    case GeminiCodeExecOutput(i) => assert KeyCode(a)[1] == KeyCode(b)[1];
    case _ =>
  }

  lemma KeyOrder(a: FieldKey, b: FieldKey)
    ensures !KeyLess(a, a)
    ensures KeyLess(a, b) || a == b || KeyLess(b, a)
  {
    hide KeyCode;
    LexIrreflexive(KeyCode(a));
    LexTotal(KeyCode(a), KeyCode(b));
    if KeyCode(a) == KeyCode(b) {
      KeyCodeInjective(a, b);
    }
  }

  lemma KeyTransitive(a: FieldKey, b: FieldKey, c: FieldKey)
    requires KeyLess(a, b) && KeyLess(b, c)
    ensures KeyLess(a, c)
  {
    hide KeyCode;
    LexTransitive(KeyCode(a), KeyCode(b), KeyCode(c));
  }

  /** The place of the variant in the declaration of the keys. */
  function KeyRank(k: FieldKey): nat {
    match k
    case AnthropicDelta(_, _) => 1
    case OpenAiContent => 2
    case OpenAiToolCall(_) => 3
    case OpenAiReasoning => 4
    case OpenAiFunctionCallArgs => 5
    case OpenAiRefusal => 6
    case ResponsesApiDelta(_) => 7
    case ResponsesApiDone(_) => 8
    case GeminiText(_) => 9
    case GeminiCodeExecOutput(_) => 10
    case GeminiFuncCallArg(_, _) => 11
  }

  /** The order that is derived from the declaration: the variants first, then their fields from the left. */
  predicate DerivedLess(a: FieldKey, b: FieldKey) {
    if KeyRank(a) != KeyRank(b) then KeyRank(a) < KeyRank(b)
    else match a
      case AnthropicDelta(t, i) => StringLess(t, b.deltaType) || (t == b.deltaType && i < b.index)
      case OpenAiToolCall(i) => i < b.callIndex
      case ResponsesApiDelta(e) => StringLess(e, b.deltaEvent)
      case ResponsesApiDone(e) => StringLess(e, b.doneEvent)
      case GeminiText(t) => !t && b.thought
      case GeminiCodeExecOutput(i) => i < b.outputPart
      case GeminiFuncCallArg(i, name) => i < b.argPart || (i == b.argPart && StringLess(name, b.argKey))
      case _ => false
  }

  lemma KeyLessIff(a: FieldKey, b: FieldKey)
    ensures KeyLess(a, b) <==> DerivedLess(a, b)
  {
    hide Code, LexLess;
    LexHead(KeyCode(a), KeyCode(b));
    NothingLess();
    if KeyRank(a) == KeyRank(b) {
      match a {
        case AnthropicDelta(t, i) =>
          assert KeyCode(a)[1..] == Code(t) + [i] && KeyCode(b)[1..] == Code(b.deltaType) + [b.index];
          CodeThen(t, [i], b.deltaType, [b.index]);
          SingleLess(i, b.index);
        case OpenAiToolCall(i) => SingleLess(i, b.callIndex);
        case ResponsesApiDelta(e) =>
          assert KeyCode(a)[1..] == Code(e) && KeyCode(b)[1..] == Code(b.deltaEvent);
        case ResponsesApiDone(e) =>
          assert KeyCode(a)[1..] == Code(e) && KeyCode(b)[1..] == Code(b.doneEvent);
        case GeminiText(t) => SingleLess(if t then 1 else 0, if b.thought then 1 else 0);
        case GeminiCodeExecOutput(i) => SingleLess(i, b.outputPart);
        case GeminiFuncCallArg(i, name) =>
          assert KeyCode(a)[1..] == [i] + Code(name) && KeyCode(b)[1..] == [b.argPart] + Code(b.argKey);
          LexHead([i] + Code(name), [b.argPart] + Code(b.argKey));
          assert ([i] + Code(name))[1..] == Code(name) && ([b.argPart] + Code(b.argKey))[1..] == Code(b.argKey);
        case _ =>
      }
    }
  }

  lemma LexHead(a: seq<int>, b: seq<int>)
    requires a != [] && b != []
    ensures LexLess(a, b) <==> a[0] < b[0] || (a[0] == b[0] && LexLess(a[1..], b[1..]))
  {}

  lemma SingleLess(i: int, j: int)
    ensures LexLess([i], [j]) <==> i < j
  {}

  lemma NothingLess()
    ensures forall a :: !LexLess(a, [])
  {}

  /** Two coded strings, each with something after it. */
  lemma {:induction false} CodeThen(s: string, x: seq<int>, t: string, y: seq<int>)
    ensures LexLess(Code(s) + x, Code(t) + y) <==> StringLess(s, t) || (s == t && LexLess(x, y))
  {
    hide LexLess;
    var a, b := Code(s) + x, Code(t) + y;
    LexHead(a, b);
    LexHead(Code(s), Code(t));
    NothingLess();
    if s == "" || t == "" {
      assert s == "" ==> a[1..] == x && Code(s)[1..] == [];
      assert t == "" ==> b[1..] == y && Code(t)[1..] == [];
    } else {
      assert a[1..] == Code(s[1..]) + x && b[1..] == Code(t[1..]) + y;
      assert s == [s[0]] + s[1..] && t == [t[0]] + t[1..];
      CodeThen(s[1..], x, t[1..], y);
    }
  }

  // ---------------------------------------------------------------------------- text extraction

  /** The fields with text that an event carries; none for an event that carries no text. */
  function ExtractFields(json: Value, provider: Provider, event: Option<string>): seq<Field> {
    match provider
    case Anthropic => AnthropicFields(json)
    case OpenAi => OpenAiFields(json, event)
    case OpenRouter => OpenAiFields(json, event)
    case Gemini =>
      match Pointer(json, ["candidates", "0", "content", "parts"])
      case Some(Array(parts)) => PartFields(parts, 0)
      case _ => []
  }

  function AnthropicFields(json: Value): seq<Field> {
    if AsString(Get(json, "type")) != Some("content_block_delta") then []
    else
      var index := match AsNatural(Get(json, "index")) case Some(n) => n case None => 0;
      var delta := match Get(json, "delta") case Some(d) => d case None => Null;
      match AsString(Get(delta, "type"))
      case None => []
      case Some(t) =>
        if t == "text_delta" then DeltaField(t, index, Get(delta, "text"))
        else if t == "thinking_delta" then DeltaField(t, index, Get(delta, "thinking"))
        else if t == "input_json_delta" then DeltaField(t, index, Get(delta, "partial_json"))
        else []
  }

  function DeltaField(deltaType: string, index: nat, v: Option<Value>): seq<Field> {
    TextField(AnthropicDelta(deltaType, index), v)
  }

  /** One field, if the value is a string. */
  function TextField(key: FieldKey, v: Option<Value>): seq<Field> {
    match AsString(v)
    case Some(text) => [Field(key, text)]
    case None => []
  }

  /** One field, if the value is a string and not the empty one. */
  function NonEmptyField(key: FieldKey, v: Option<Value>): seq<Field> {
    if AsString(v) == Some("") then [] else TextField(key, v)
  }

  function OpenAiFields(json: Value, event: Option<string>): seq<Field> {
    if event.Some? && "response." <= event.value then
      ResponsesFields(json, event.value)
    else
      match Pointer(json, ["choices", "0", "delta"])
      case None => []
      case Some(delta) => ChatFields(delta)
  }

  function ChatFields(delta: Value): seq<Field> {
    NonEmptyField(OpenAiContent, Get(delta, "content"))
    + TextField(OpenAiReasoning, Get(delta, "reasoning_content"))
    + (match Get(delta, "tool_calls") case Some(Array(calls)) => ToolCallFields(calls) case _ => [])
    + NonEmptyField(OpenAiFunctionCallArgs, Within(Get(delta, "function_call"), "arguments"))
    + TextField(OpenAiRefusal, Get(delta, "refusal"))
  }

  function Within(v: Option<Value>, name: string): Option<Value> {
    match v case Some(w) => Get(w, name) case None => None
  }

  function ResponsesFields(json: Value, event: string): seq<Field> {
    if event == "response.output_text.delta" || event == "response.reasoning_summary_text.delta" then
      TextField(ResponsesApiDelta(event), Get(json, "delta"))
    else if event == "response.output_text.done" then
      TextField(ResponsesApiDone(event), Get(json, "text"))
    else []
  }

  function ToolCallFields(calls: seq<Value>): seq<Field> {
    if calls == [] then []
    else
      var index := match AsNatural(Get(calls[0], "index")) case Some(n) => n case None => 0;
      NonEmptyField(OpenAiToolCall(index), Within(Get(calls[0], "function"), "arguments"))
      + ToolCallFields(calls[1..])
  }

  function PartFields(parts: seq<Value>, i: nat): seq<Field> {
    if parts == [] then []
    else
      TextField(GeminiText(Get(parts[0], "thought") == Some(Bool(true))), Get(parts[0], "text"))
      + TextField(GeminiCodeExecOutput(i), Pointer(parts[0], ["codeExecutionResult", "output"]))
      + (match Pointer(parts[0], ["functionCall", "args"]) case Some(Object(args)) => ArgFields(args, i) case _ => [])
      + PartFields(parts[1..], i + 1)
  }

  function ArgFields(args: seq<Member>, i: nat): seq<Field> {
    if args == [] then []
    else TextField(GeminiFuncCallArg(i, args[0].name), Some(args[0].value)) + ArgFields(args[1..], i)
  }

  // ------------------------------------------------------------------------------- stop signals

  /** What an event without text ends: one content block, or the whole stream. */
  datatype Scope = Block(index: nat) | Stream

  predicate Covers(scope: Scope, key: FieldKey) {
    match scope
    case Block(n) => key.AnthropicDelta? && key.index == n
    case Stream => true
  }

  const TERMINAL_EVENTS: set<string> := {
    "response.content_part.done", "response.output_item.done", "response.completed",
    "response.failed", "response.cancelled", "response.incomplete" }

  function ClassifyTerminal(json: Value, event: Option<string>, provider: Provider): Option<Scope> {
    match provider
    case Anthropic =>
      (match AsString(Get(json, "type"))
       case Some(t) =>
         if t == "content_block_stop" then
           (match AsNatural(Get(json, "index")) case Some(n) => Some(Block(n)) case None => Some(Stream))
         else if t == "message_delta" || t == "message_stop" then Some(Stream)
         else None
       case None => None)
    case Gemini =>
      if Present(Pointer(json, ["candidates", "0", "finishReason"])) then Some(Stream) else None
    case _ =>
      if event.Some? && event.value in TERMINAL_EVENTS then Some(Stream)
      else if Present(Pointer(json, ["choices", "0", "finish_reason"])) then Some(Stream)
      else None
  }

  predicate Present(v: Option<Value>) {
    v.Some? && v.value != Null
  }

  // ---------------------------------------------------------------- what Gemini events carry besides

  /** The metadata of a Gemini event with text, which is passed on after that text; if any. */
  function Metadata(json: Value): Option<Value> {
    var calls :=
      match Pointer(json, ["candidates", "0", "content", "parts"])
      case Some(Array(parts)) => LastCall(parts)
      case _ => None;
    var members :=
      (match calls
       case Some(call) => [Member("candidates", Array([Object([Member("content",
                             Object([Member("parts", Array([Object([Member("functionCall", call)])]))]))])]))]
       case None => [])
      + Kept(json, "groundingMetadata") + Kept(json, "thoughtSignature");
    if members == [] then None else Some(Object(members))
  }

  function Kept(v: Value, name: string): seq<Member> {
    match Get(v, name) case Some(w) => [Member(name, w)] case None => []
  }

  /** The name and the arguments that are no strings, of the last function call that has any. */
  function LastCall(parts: seq<Value>): Option<Value> {
    if parts == [] then None
    else
      var last := parts[|parts| - 1];
      var call := match Get(last, "functionCall") case Some(fc) => CallExtra(fc) case None => [];
      if call != [] then Some(Object(call)) else LastCall(parts[..|parts| - 1])
  }

  function CallExtra(fc: Value): seq<Member> {
    var args := match Get(fc, "args") case Some(Object(args)) => NonStrings(args) case _ => [];
    (if args != [] then [Member("args", Object(args))] else []) + Kept(fc, "name")
  }

  function NonStrings(members: seq<Member>): seq<Member> {
    if members == [] then []
    else (if members[0].value.String? then [] else [members[0]]) + NonStrings(members[1..])
  }

  // --------------------------------------------------------------------------- synthetic events

  /** The `event:` line of a synthetic event. */
  function SyntheticEvent(key: FieldKey): Option<string> {
    match key
    case AnthropicDelta(_, _) => Some("content_block_delta")
    case ResponsesApiDelta(e) => Some(e)
    case ResponsesApiDone(e) => Some(e)
    case _ => None
  }

  function SyntheticBody(key: FieldKey, text: string): Value {
    match key
    case AnthropicDelta(t, i) =>
      Object([Member("delta", Object([Member(DeltaName(t), String(text)), Member("type", String(t))])),
              Member("index", Natural(i)), Member("type", String("content_block_delta"))])
    case OpenAiContent => Choice(Member("content", String(text)))
    case OpenAiToolCall(i) =>
      Choice(Member("tool_calls", Array([Object([
        Member("function", Object([Member("arguments", String(text))])), Member("index", Natural(i))])])))
    case OpenAiReasoning => Choice(Member("reasoning_content", String(text)))
    case OpenAiFunctionCallArgs => Choice(Member("function_call", Object([Member("arguments", String(text))])))
    case OpenAiRefusal => Choice(Member("refusal", String(text)))
    case ResponsesApiDelta(_) => Object([Member("delta", String(text))])
    case ResponsesApiDone(_) => Object([Member("text", String(text))])
    case GeminiText(_) => Candidate(Member("text", String(text)))
    case GeminiCodeExecOutput(_) => Candidate(Member("codeExecutionResult", Object([Member("output", String(text))])))
    case GeminiFuncCallArg(_, a) =>
      Candidate(Member("functionCall", Object([Member("args", Object([Member(a, String(text))]))])))
  }

  function DeltaName(deltaType: string): string {
    if deltaType == "thinking_delta" then "thinking"
    else if deltaType == "input_json_delta" then "partial_json"
    else "text"
  }

  function Choice(m: Member): Value {
    Object([Member("choices", Array([Object([Member("delta", Object([m]))])]))])
  }

  function Candidate(m: Member): Value {
    Object([Member("candidates", Array([Object([Member("content",
      Object([Member("parts", Array([Object([m])]))]))])]))])
  }

  // ------------------------------------------------------------- synthetic events are read back

  /** The keys under which an event of this provider can carry text. */
  predicate Extractable(key: FieldKey, provider: Provider) {
    match key
    case AnthropicDelta(t, i) =>
      provider.Anthropic? && t in {"text_delta", "thinking_delta", "input_json_delta"} && i < U64_LIMIT
    case OpenAiToolCall(i) => (provider.OpenAi? || provider.OpenRouter?) && i < U64_LIMIT
    case ResponsesApiDelta(e) =>
      (provider.OpenAi? || provider.OpenRouter?)
      && e in {"response.output_text.delta", "response.reasoning_summary_text.delta"}
    case ResponsesApiDone(e) => (provider.OpenAi? || provider.OpenRouter?) && e == "response.output_text.done"
    case GeminiText(_) => provider.Gemini?
    case GeminiCodeExecOutput(_) => provider.Gemini?
    case GeminiFuncCallArg(_, a) => provider.Gemini? && Utf8.Valid(a)
    case _ => provider.OpenAi? || provider.OpenRouter?
  }

  ghost predicate AllSound(fields: seq<Field>, provider: Provider) {
    forall f :: f in fields ==> Extractable(f.key, provider) && Utf8.Valid(f.text)
  }

  lemma TextFieldSound(key: FieldKey, v: Option<Value>, provider: Provider)
    requires Extractable(key, provider) && (v.Some? ==> Parsed(v.value))
    ensures AllSound(TextField(key, v), provider)
  {}

  lemma GetParsed(v: Value, name: string)
    requires Parsed(v)
    ensures Get(v, name).Some? ==> Parsed(Get(v, name).value)
  {
    if Get(v, name).Some? { FindParsed(v, name); }
  }

  lemma IndexParsed(v: Value, name: string)
    requires Parsed(v)
    ensures AsNatural(Get(v, name)).Some? ==> AsNatural(Get(v, name)).value < U64_LIMIT
  {
    hide Find;
    GetParsed(v, name);
  }

  /** Only these keys are ever extracted, and only with UTF-8 text. */
  lemma ExtractedAreSound(json: Value, provider: Provider, event: Option<string>)
    requires Parsed(json)
    ensures AllSound(ExtractFields(json, provider, event), provider)
  {
    hide Pointer, Find, TextField, Parsed, AllSound, Extractable;
    match provider
    case Anthropic => AnthropicSound(json);
    case OpenAi => OpenAiSound(json, provider, event);
    case OpenRouter => OpenAiSound(json, provider, event);
    case Gemini =>
      var v := Pointer(json, ["candidates", "0", "content", "parts"]);
      if v.Some? && v.value.Array? {
        PointerParsed(json, ["candidates", "0", "content", "parts"]);
        ItemsParsed(v.value);
        PartsSound(v.value.items, 0);
      } else {
        NoneSound(provider);
      }
  }

  lemma ItemsParsed(v: Value)
    requires Parsed(v) && v.Array?
    ensures forall p :: p in v.items ==> Parsed(p)
  {}

  lemma NoneSound(provider: Provider)
    ensures AllSound([], provider)
  {}

  lemma SumSound(a: seq<Field>, b: seq<Field>, provider: Provider)
    requires AllSound(a, provider) && AllSound(b, provider)
    ensures AllSound(a + b, provider)
  {}

  lemma AnthropicSound(json: Value)
    requires Parsed(json)
    ensures AllSound(AnthropicFields(json), Anthropic)
  {
    hide Find, Parsed, TextField, AllSound;
    NoneSound(Anthropic);
    IndexParsed(json, "index");
    GetParsed(json, "delta");
    if Get(json, "delta").Some? {
      var delta := Get(json, "delta").value;
      var index := match AsNatural(Get(json, "index")) case Some(n) => n case None => 0;
      GetParsed(delta, "text");
      GetParsed(delta, "thinking");
      GetParsed(delta, "partial_json");
      TextFieldSound(AnthropicDelta("text_delta", index), Get(delta, "text"), Anthropic);
      TextFieldSound(AnthropicDelta("thinking_delta", index), Get(delta, "thinking"), Anthropic);
      TextFieldSound(AnthropicDelta("input_json_delta", index), Get(delta, "partial_json"), Anthropic);
    }
  }

  lemma WithinParsed(v: Option<Value>, name: string)
    requires v.Some? ==> Parsed(v.value)
    ensures Within(v, name).Some? ==> Parsed(Within(v, name).value)
  {
    if v.Some? { GetParsed(v.value, name); }
  }

  lemma NonEmptySound(key: FieldKey, v: Option<Value>, provider: Provider)
    requires Extractable(key, provider) && (v.Some? ==> Parsed(v.value))
    ensures AllSound(NonEmptyField(key, v), provider)
  {
    TextFieldSound(key, v, provider);
  }

  lemma OpenAiSound(json: Value, provider: Provider, event: Option<string>)
    requires Parsed(json) && (provider.OpenAi? || provider.OpenRouter?)
    ensures AllSound(OpenAiFields(json, event), provider)
  {
    hide Pointer, ChatFields, ResponsesFields, Parsed, AllSound;
    if event.Some? && "response." <= event.value {
      ResponsesSound(json, provider, event.value);
    } else {
      NoneSound(provider);
      var d := Pointer(json, ["choices", "0", "delta"]);
      if d.Some? {
        PointerParsed(json, ["choices", "0", "delta"]);
        DeltaSound(d.value, provider);
      }
    }
  }

  lemma ResponsesSound(json: Value, provider: Provider, event: string)
    requires Parsed(json) && (provider.OpenAi? || provider.OpenRouter?)
    ensures AllSound(ResponsesFields(json, event), provider)
  {
    hide Find, TextField, Parsed, AllSound;
    NoneSound(provider);
    GetParsed(json, "delta");
    GetParsed(json, "text");
    if event == "response.output_text.delta" || event == "response.reasoning_summary_text.delta" {
      TextFieldSound(ResponsesApiDelta(event), Get(json, "delta"), provider);
    } else if event == "response.output_text.done" {
      TextFieldSound(ResponsesApiDone(event), Get(json, "text"), provider);
    }
  }

  lemma DeltaSound(delta: Value, provider: Provider)
    requires Parsed(delta) && (provider.OpenAi? || provider.OpenRouter?)
    ensures AllSound(ChatFields(delta), provider)
  {
    hide Find, TextField, NonEmptyField, Parsed, AllSound, Within;
    NoneSound(provider);
    GetParsed(delta, "content");
    NonEmptySound(OpenAiContent, Get(delta, "content"), provider);
    GetParsed(delta, "reasoning_content");
    TextFieldSound(OpenAiReasoning, Get(delta, "reasoning_content"), provider);
    var t := Get(delta, "tool_calls");
    var calls := match t case Some(Array(cs)) => ToolCallFields(cs) case _ => [];
    if t.Some? && t.value.Array? {
      GetParsed(delta, "tool_calls");
      ItemsParsed(t.value);
      ToolCallsSound(t.value.items, provider);
    }
    GetParsed(delta, "function_call");
    WithinParsed(Get(delta, "function_call"), "arguments");
    NonEmptySound(OpenAiFunctionCallArgs, Within(Get(delta, "function_call"), "arguments"), provider);
    GetParsed(delta, "refusal");
    TextFieldSound(OpenAiRefusal, Get(delta, "refusal"), provider);
    var s1 := NonEmptyField(OpenAiContent, Get(delta, "content")) + TextField(OpenAiReasoning, Get(delta, "reasoning_content"));
    var s2 := s1 + calls;
    var s3 := s2 + NonEmptyField(OpenAiFunctionCallArgs, Within(Get(delta, "function_call"), "arguments"));
    SumSound(NonEmptyField(OpenAiContent, Get(delta, "content")), TextField(OpenAiReasoning, Get(delta, "reasoning_content")), provider);
    SumSound(s1, calls, provider);
    SumSound(s2, NonEmptyField(OpenAiFunctionCallArgs, Within(Get(delta, "function_call"), "arguments")), provider);
    SumSound(s3, TextField(OpenAiRefusal, Get(delta, "refusal")), provider);
  }

  lemma {:induction false} ToolCallsSound(calls: seq<Value>, provider: Provider)
    requires (forall c :: c in calls ==> Parsed(c)) && (provider.OpenAi? || provider.OpenRouter?)
    ensures AllSound(ToolCallFields(calls), provider)
  {
    hide Find, NonEmptyField, Parsed, AllSound, Within;
    NoneSound(provider);
    if calls != [] {
      var index := match AsNatural(Get(calls[0], "index")) case Some(n) => n case None => 0;
      IndexParsed(calls[0], "index");
      GetParsed(calls[0], "function");
      WithinParsed(Get(calls[0], "function"), "arguments");
      NonEmptySound(OpenAiToolCall(index), Within(Get(calls[0], "function"), "arguments"), provider);
      ToolCallsSound(calls[1..], provider);
      SumSound(NonEmptyField(OpenAiToolCall(index), Within(Get(calls[0], "function"), "arguments")),
               ToolCallFields(calls[1..]), provider);
    }
  }

  lemma {:induction false} PartsSound(parts: seq<Value>, i: nat)
    requires forall p :: p in parts ==> Parsed(p)
    ensures AllSound(PartFields(parts, i), Gemini)
  {
    hide Find, Pointer, TextField, Parsed, AllSound, ArgFields;
    NoneSound(Gemini);
    if parts != [] {
      var p := parts[0];
      var key := GeminiText(Get(p, "thought") == Some(Bool(true)));
      GetParsed(p, "text");
      TextFieldSound(key, Get(p, "text"), Gemini);
      var o := Pointer(p, ["codeExecutionResult", "output"]);
      if o.Some? { PointerParsed(p, ["codeExecutionResult", "output"]); }
      TextFieldSound(GeminiCodeExecOutput(i), o, Gemini);
      var a := Pointer(p, ["functionCall", "args"]);
      var args := match a case Some(Object(ms)) => ArgFields(ms, i) case _ => [];
      if a.Some? && a.value.Object? {
        PointerParsed(p, ["functionCall", "args"]);
        MembersParsed(a.value);
        ArgsSound(a.value.members, i);
      }
      PartsSound(parts[1..], i + 1);
      var s1 := TextField(key, Get(p, "text")) + TextField(GeminiCodeExecOutput(i), o);
      SumSound(TextField(key, Get(p, "text")), TextField(GeminiCodeExecOutput(i), o), Gemini);
      SumSound(s1, args, Gemini);
      SumSound(s1 + args, PartFields(parts[1..], i + 1), Gemini);
    }
  }

  lemma MembersParsed(v: Value)
    requires Parsed(v) && v.Object?
    ensures forall m :: m in v.members ==> Utf8.Valid(m.name) && Parsed(m.value)
  {}

  lemma {:induction false} ArgsSound(args: seq<Member>, i: nat)
    requires forall m :: m in args ==> Utf8.Valid(m.name) && Parsed(m.value)
    ensures AllSound(ArgFields(args, i), Gemini)
  {
    hide TextField, Parsed, AllSound, Utf8.Valid;
    NoneSound(Gemini);
    if args != [] {
      TextFieldSound(GeminiFuncCallArg(i, args[0].name), Some(args[0].value), Gemini);
      ArgsSound(args[1..], i);
      SumSound(TextField(GeminiFuncCallArg(i, args[0].name), Some(args[0].value)), ArgFields(args[1..], i), Gemini);
    }
  }

  /** The key under which a synthetic event is read back: Gemini loses the flag and the part index. */
  function ReadKey(key: FieldKey): FieldKey {
    match key
    case GeminiText(_) => GeminiText(false)
    case GeminiCodeExecOutput(_) => GeminiCodeExecOutput(0)
    case GeminiFuncCallArg(_, a) => GeminiFuncCallArg(0, a)
    case _ => key
  }

  /** A synthetic event carries exactly the text it was built from, under the same key. */
  lemma SyntheticReadBack(key: FieldKey, text: string, provider: Provider)
    requires Extractable(key, provider) && text != ""
    ensures ExtractFields(SyntheticBody(key, text), provider, SyntheticEvent(key)) == [Field(ReadKey(key), text)]
  {
    hide SyntheticBody, AnthropicFields, OpenAiFields, PartFields, Pointer;
    match provider
    case Anthropic => ReadBackAnthropic(key, text);
    case Gemini => ReadBackGemini(key, text);
    case _ =>
      if key.ResponsesApiDelta? || key.ResponsesApiDone? {
        ReadBackResponses(key, text);
      } else {
        ReadBackChat(key, text, provider);
      }
  }

  lemma ReadBackAnthropic(key: FieldKey, text: string)
    requires Extractable(key, Anthropic)
    ensures AnthropicFields(SyntheticBody(key, text)) == [Field(key, text)]
  {
    hide Find;
    var body := SyntheticBody(key, text);
    var delta := body.members[0].value;
    FindAt(body.members, 0);
    FindAt(body.members, 1);
    FindAt(body.members, 2);
    FindAt(delta.members, 0);
    FindAt(delta.members, 1);
  }

  lemma ReadBackResponses(key: FieldKey, text: string)
    requires Extractable(key, OpenAi) && (key.ResponsesApiDelta? || key.ResponsesApiDone?)
    ensures OpenAiFields(SyntheticBody(key, text), SyntheticEvent(key)) == [Field(key, text)]
  {
    hide Find, ChatFields, Pointer;
    FindAt(SyntheticBody(key, text).members, 0);
    assert "response."
           <= (if key.ResponsesApiDelta? then key.deltaEvent else key.doneEvent);
  }

  lemma ReadBackChat(key: FieldKey, text: string, provider: Provider)
    requires Extractable(key, provider) && text != "" && (provider.OpenAi? || provider.OpenRouter?)
    requires !key.ResponsesApiDelta? && !key.ResponsesApiDone?
    ensures OpenAiFields(SyntheticBody(key, text), SyntheticEvent(key)) == [Field(key, text)]
  {
    hide Pointer, ChatFields;
    var m := ChatMember(key, text);
    assert SyntheticBody(key, text) == Choice(m);
    ChoicePointer(m);
    OneChatField(key, text, m);
  }

  /** The delta of a synthetic event has one member, and that member carries one field. */
  lemma OneChatField(key: FieldKey, text: string, m: Member)
    requires key in {OpenAiContent, OpenAiReasoning, OpenAiFunctionCallArgs, OpenAiRefusal} || key.OpenAiToolCall?
    requires m == ChatMember(key, text) && text != ""
    ensures ChatFields(Object([m])) == [Field(key, text)]
  {
    hide Find, ToolCallFields;
    var names := ["content", "reasoning_content", "tool_calls", "function_call", "refusal"];
    forall i | 0 <= i < |names| && names[i] != m.name ensures Get(Object([m]), names[i]) == None {
      FindNone([m], names[i]);
    }
    assert names[0] == "content" && names[1] == "reasoning_content" && names[2] == "tool_calls"
           && names[3] == "function_call" && names[4] == "refusal";
    FindAt([m], 0);
    if key.OpenAiToolCall? {
      OneCall(key, text, m.value.items[0]);
    } else if key.OpenAiFunctionCallArgs? {
      FindAt(m.value.members, 0);
    }
  }

  lemma OneCall(key: FieldKey, text: string, call: Value)
    requires key.OpenAiToolCall? && text != ""
    requires call == Object([Member("function", Object([Member("arguments", String(text))])),
                             Member("index", Natural(key.callIndex))])
    ensures ToolCallFields([call]) == [Field(key, text)]
  {
    hide Find;
    FindAt(call.members, 0);
    FindAt(call.members, 1);
    FindAt(call.members[0].value.members, 0);
    assert ToolCallFields([]) == [];
  }

  function ChatMember(key: FieldKey, text: string): Member
    requires key in {OpenAiContent, OpenAiReasoning, OpenAiFunctionCallArgs, OpenAiRefusal} || key.OpenAiToolCall?
  {
    SyntheticBody(key, text).members[0].value.items[0].members[0].value.members[0]
  }

  lemma ReadBackGemini(key: FieldKey, text: string)
    requires Extractable(key, Gemini)
    ensures ExtractFields(SyntheticBody(key, text), Gemini, None) == [Field(ReadKey(key), text)]
  {
    hide Pointer;
    var m := SyntheticBody(key, text).members[0].value.items[0].members[0].value.members[0].value.items[0].members[0];
    assert SyntheticBody(key, text) == Candidate(m);
    CandidatePointer(m);
    OnePart(key, text, m);
  }

  lemma OnePart(key: FieldKey, text: string, m: Member)
    requires Extractable(key, Gemini) && SyntheticBody(key, text) == Candidate(m)
    ensures PartFields([Object([m])], 0) == [Field(ReadKey(key), text)]
  {
    hide Find, Pointer, Candidate, ArgFields;
    SameCandidate(key, text, m);
    var part := Object([m]);
    NoParts();
    OnlyMember(m, "text");
    OnlyMember(m, "thought");
    PointerOne(m, "codeExecutionResult", "output");
    PointerOne(m, "functionCall", "args");
    FindAt([m], 0);
    if key.GeminiCodeExecOutput? {
      FindAt(m.value.members, 0);
    } else if key.GeminiFuncCallArg? {
      FindAt(m.value.members, 0);
      OneArg(key.argKey, text);
    }
  }

  lemma SameCandidate(key: FieldKey, text: string, m: Member)
    requires SyntheticBody(key, text) == Candidate(m) && Extractable(key, Gemini)
    ensures match key
            case GeminiText(_) => m == Member("text", String(text))
            case GeminiCodeExecOutput(_) => m == Member("codeExecutionResult", Object([Member("output", String(text))]))
            case GeminiFuncCallArg(_, a) => m == Member("functionCall", Object([Member("args", Object([Member(a, String(text))]))]))
            case _ => true
  {
    var c := SyntheticBody(key, text);
    assert c.members[0].value.items[0].members[0].value.members[0].value.items[0].members[0] == m;
  }

  lemma NoParts()
    ensures PartFields([], 1) == []
  {}

  lemma OnlyMember(m: Member, name: string)
    ensures m.name != name ==> Get(Object([m]), name) == None
  {
    hide Find;
    if m.name != name { FindNone([m], name); }
  }

  lemma PointerOne(m: Member, name: string, inside: string)
    ensures Pointer(Object([m]), [name, inside])
            == if m.name == name then StepInto(m.value, inside) else None
  {
    hide Find;
    FindAt([m], 0);
    OnlyMember(m, name);
    PointerLast(m.value, inside);
    assert [name, inside][1..] == [inside];
    if m.name == name {
      assert StepInto(Object([m]), name) == Some(m.value);
    }
  }

  lemma PointerLast(v: Value, name: string)
    ensures Pointer(v, [name]) == StepInto(v, name)
  {
    hide Find;
    assert [name][1..] == [];
  }

  lemma OneArg(name: string, text: string)
    ensures ArgFields([Member(name, String(text))], 0) == [Field(GeminiFuncCallArg(0, name), text)]
  {
    assert [Member(name, String(text))][1..] == [] && ArgFields([], 0) == [];
  }

  lemma ChoicePointer(m: Member)
    ensures Pointer(Choice(m), ["choices", "0", "delta"]) == Some(Object([m]))
  {
    assert ["choices", "0", "delta"][1..] == ["0", "delta"] && ["0", "delta"][1..] == ["delta"] && ["delta"][1..] == [];
    assert Pointer(Object([Member("delta", Object([m]))]), ["delta"]) == Some(Object([m]));
  }

  lemma CandidatePointer(m: Member)
    ensures Pointer(Candidate(m), ["candidates", "0", "content", "parts"]) == Some(Array([Object([m])]))
  {
    assert ["candidates", "0", "content", "parts"][1..] == ["0", "content", "parts"];
    assert ["0", "content", "parts"][1..] == ["content", "parts"];
    assert ["content", "parts"][1..] == ["parts"] && ["parts"][1..] == [];
    var content := Object([Member("parts", Array([Object([m])]))]);
    assert Pointer(content, ["parts"]) == Some(Array([Object([m])]));
    assert Pointer(Object([Member("content", content)]), ["content", "parts"]) == Some(Array([Object([m])]));
  }

  /** A synthetic event is never taken for a stop signal. */
  lemma SyntheticIsNoTerminal(key: FieldKey, text: string, provider: Provider)
    requires Extractable(key, provider)
    ensures ClassifyTerminal(SyntheticBody(key, text), SyntheticEvent(key), provider) == None
  {
    hide Pointer, Find;
    var body := SyntheticBody(key, text);
    match provider
    case Anthropic =>
      FindAt(body.members, 2);
    case Gemini =>
      assert body == Candidate(body.members[0].value.items[0].members[0].value.members[0].value.items[0].members[0]);
      NoFinish(body, "candidates", "finishReason", "content");
    case _ =>
      if key.ResponsesApiDelta? || key.ResponsesApiDone? {
        NoFinish(body, "choices", "finish_reason", "delta");
      } else {
        assert body == Choice(ChatMember(key, text));
        NoFinish(body, "choices", "finish_reason", "delta");
      }
  }

  /** One list holding one object with one member: nothing is found under another name. */
  lemma NoFinish(body: Value, list: string, name: string, only: string)
    requires body.Object? && |body.members| == 1 && name != only
    requires body.members[0].name == list ==>
      exists v :: body.members[0].value == Array([Object([Member(only, v)])])
    ensures Pointer(body, [list, "0", name]) == None
  {
    assert [list, "0", name][1..] == ["0", name] && ["0", name][1..] == [name];
    if body.members[0].name == list {
      var v :| body.members[0].value == Array([Object([Member(only, v)])]);
      assert Pointer(Object([Member(only, v)]), [name]) == None;
      assert Pointer(body.members[0].value, ["0", name]) == None;
    }
  }
}
