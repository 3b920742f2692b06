/** Reading the lines of one frame, and writing synthetic frames. */
module SseEvents {
  import opened Common
  import opened Json
  import opened Order
  import opened SseFields
  import SseFrames
  import Utf8

  // ----------------------------------------------------------------------------------- the lines

  /** The length of the first line, without its '\n'. */
  function LineLen(s: string): (n: nat)
    ensures n <= |s| && (n < |s| ==> s[n] == '\n')
  {
    if s == "" || s[0] == '\n' then 0 else 1 + LineLen(s[1..])
  }

  /** `str::lines`: the terminator is "\n" or "\r\n", and a last empty line does not count. */
  function Lines(s: string): seq<string>
    decreases |s|
  {
    if s == "" then []
    else
      var n := LineLen(s);
      if n == |s| then [s]
      else [if SseFrames.EndsWith(s[..n], '\r') then s[..n - 1] else s[..n]] + Lines(s[n + 1..])
  }

  function StripPrefix(line: string, prefix: string): Option<string> {
    if prefix <= line then Some(line[|prefix|..]) else None
  }

  /** The rest of a line after a field name, with or without a space. */
  function FieldValue(line: string, name: string): Option<string> {
    match StripPrefix(line, name + ": ")
    case Some(v) => Some(v)
    case None => StripPrefix(line, name + ":")
  }

  /** The value of the first `event:` line that has one. */
  function EventType(lines: seq<string>): Option<string> {
    if lines == [] then None
    else
      var v := FieldValue(lines[0], "event");
      if v.Some? && v.value != "" then v else EventType(lines[1..])
  }

  /** The value of the first `data:` line. */
  function DataContent(lines: seq<string>): Option<string> {
    if lines == [] then None
    else
      var v := FieldValue(lines[0], "data");
      if v.Some? then v else DataContent(lines[1..])
  }

  // ---------------------------------------------------------------------------------- "[DONE]"

  /** The length of the white-space character that `s` starts with, 0 if it starts with none:
      U+0009-000D, 0020, 0085, 00A0, 1680, 2000-200A, 2028, 2029, 202F, 205F and 3000. */
  function SpaceLen(s: string): (n: nat)
    ensures n <= |s|
  {
    if s == "" then 0
    else if 0x09 <= s[0] as int <= 0x0D || s[0] == ' ' then 1
    else if |s| >= 2 && s[0] as int == 0xC2 && s[1] as int in {0x85, 0xA0} then 2
    else if |s| >= 3 && WideSpace(s[0] as int, s[1] as int, s[2] as int) then 3
    else 0
  }

  predicate WideSpace(a: int, b: int, c: int) {
    || (a == 0xE1 && b == 0x9A && c == 0x80)
    || (a == 0xE2 && b == 0x80 && (0x80 <= c <= 0x8A || c in {0xA8, 0xA9, 0xAF}))
    || (a == 0xE2 && b == 0x81 && c == 0x9F)
    || (a == 0xE3 && b == 0x80 && c == 0x80)
  }

  function TrimStart(s: string): (t: string)
    ensures |t| <= |s|
    decreases |s|
  {
    if SpaceLen(s) == 0 then s else TrimStart(s[SpaceLen(s)..])
  }

  /** `s.trim() == "[DONE]"`. */
  predicate IsDone(s: string) {
    var t := TrimStart(s);
    "[DONE]" <= t && TrimStart(t[6..]) == ""
  }

  // ------------------------------------------------------------------------------ the frames made

  function EventFrame(event: Option<string>, data: string): string {
    (match event case Some(e) => "event: " + e + "\n" case None => "") + "data: " + data + "\n\n"
  }

  /** The frame that carries `text` in the place where fields of this key stand. */
  function SyntheticFrame(codec: Codec, key: FieldKey, text: string): string {
    EventFrame(SyntheticEvent(key), codec.show(SyntheticBody(key, text)))
  }

  /** The frame that passes on a value which is not text. */
  function MetadataFrame(codec: Codec, extra: Value): string {
    EventFrame(None, codec.show(extra))
  }

  // ----------------------------------------------------------------- frames made are read back

  ghost predicate OneLine(s: string) {
    '\n' !in s && '\r' !in s
  }

  lemma {:induction false} LineLenOf(a: string, b: string)
    requires '\n' !in a
    ensures LineLen(a + "\n" + b) == |a|
  {
    if a == "" {
      assert a + "\n" + b == "\n" + b;
    } else {
      assert (a + "\n" + b)[1..] == a[1..] + "\n" + b;
      assert (a + "\n" + b)[0] == a[0];
      LineLenOf(a[1..], b);
    }
  }

  lemma LinesStep(s: string, n: nat)
    requires n == LineLen(s) < |s|
    ensures Lines(s) == [if SseFrames.EndsWith(s[..n], '\r') then s[..n - 1] else s[..n]] + Lines(s[n + 1..])
  {}

  lemma LinesCons(a: string, b: string)
    requires OneLine(a)
    ensures Lines(a + "\n" + b) == [a] + Lines(b)
  {
    hide LineLen;
    var s := a + "\n" + b;
    LineLenOf(a, b);
    assert s[..|a|] == a && s[|a| + 1..] == b;
  }

  lemma LinesOfFrame(event: Option<string>, data: string)
    requires OneLine(data) && (event.Some? ==> OneLine(event.value))
    ensures Lines(EventFrame(event, data))
            == (match event case Some(e) => ["event: " + e] case None => []) + ["data: " + data, ""]
  {
    hide Lines;
    var tail := "data: " + data + "\n" + "\n";
    LinesCons("", "");
    assert "" + "\n" + "" == "\n";
    assert Lines("") == [] by { NoLines(); }
    LinesCons("data: " + data, "\n");
    match event
    case None =>
      assert EventFrame(event, data) == "data: " + data + "\n" + "\n";
    case Some(e) =>
      LinesCons("event: " + e, tail);
      assert EventFrame(event, data) == "event: " + e + "\n" + tail;
  }

  lemma NoLines()
    ensures Lines("") == []
  {}

  /** What was written as event type and data is read as event type and data. */
  lemma FrameReadBack(event: Option<string>, data: string)
    requires OneLine(data) && (event.Some? ==> OneLine(event.value) && event.value != "")
    ensures EventType(Lines(EventFrame(event, data))) == event
    ensures DataContent(Lines(EventFrame(event, data))) == Some(data)
  {
    hide Lines, EventFrame;
    LinesOfFrame(event, data);
    var d := ["data: " + data, ""];
    assert d[1..] == [""] && [""][1..] == [];
    assert ("data: " + data)[6..] == data && "data: " <= "data: " + data;
    assert FieldValue("data: " + data, "data") == Some(data);
    assert FieldValue("data: " + data, "event") == None by {
      assert ("data: " + data)[0] == 'd' && ("event" + ": ")[0] == 'e' && ("event" + ":")[0] == 'e';
    }
    assert FieldValue("", "event") == None && FieldValue("", "data") == None;
    assert EventType(d) == None && DataContent(d) == Some(data);
    match event
    case None => assert [] + d == d;
    case Some(e) =>
      var l := "event: " + e;
      assert l[7..] == e && "event" + ": " == "event: " <= l;
      assert FieldValue(l, "event") == Some(e);
      assert FieldValue(l, "data") == None by {
        assert l[0] == 'e' && ("data" + ": ")[0] == 'd' && ("data" + ":")[0] == 'd';
      }
      assert ([l] + d)[0] == l && ([l] + d)[1..] == d;
  }

  lemma {:induction false} OneLineNoBreak(a: string, b: string)
    requires '\n' !in a && a != "" && b != "" && b[0] == '\n'
    ensures SseFrames.FrameLen(a + b) == if SseFrames.FrameLen(b) == 0 then 0 else |a| + SseFrames.FrameLen(b)
  {
    assert (a + b)[0] == a[0];
    assert (a + b)[1..] == a[1..] + b;
    if |a| > 1 {
      OneLineNoBreak(a[1..], b);
    } else {
      assert a[1..] + b == b;
    }
  }

  /** A frame made here is one frame, of which normalisation changes nothing. */
  lemma FrameIsWhole(event: Option<string>, data: string)
    requires OneLine(data) && (event.Some? ==> OneLine(event.value) && event.value != "")
    ensures SseFrames.FrameLen(EventFrame(event, data)) == |EventFrame(event, data)|
    ensures SseFrames.Normalize(EventFrame(event, data)) == EventFrame(event, data)
  {
    hide SseFrames.FrameLen, SseFrames.Normalize;
    var last := "data: " + data;
    OneLineNoBreak(last, "\n\n");
    assert SseFrames.FrameLen("\n\n") == 2 by { BlankLine(); }
    var f := EventFrame(event, data);
    if event.None? {
      assert f == last + "\n\n";
    } else {
      var l := "event: " + event.value;
      assert f == l + ("\n" + (last + "\n\n"));
      SingleBreak(last + "\n\n");
      OneLineNoBreak(l, "\n" + (last + "\n\n"));
    }
    NoCrInFrame(event, data);
    assert !SseFrames.HasCrLf(f);
    SseFrames.NormalizeIdle(f);
  }

  lemma BlankLine()
    ensures SseFrames.FrameLen("\n\n") == 2
  {}

  lemma SingleBreak(t: string)
    requires t != "" && t[0] != '\n' && SseFrames.FrameLen(t) > 0
    ensures SseFrames.FrameLen("\n" + t) == 1 + SseFrames.FrameLen(t)
  {
    assert ("\n" + t)[1..] == t;
  }

  lemma NoCrInFrame(event: Option<string>, data: string)
    requires OneLine(data) && (event.Some? ==> OneLine(event.value))
    ensures '\r' !in EventFrame(event, data)
  {
    var l := match event case Some(e) => "event: " + e + "\n" case None => "";
    assert '\r' !in l;
    assert '\r' !in l + "data: ";
    assert '\r' !in l + "data: " + data;
  }

  /** A synthetic frame carries, under the same key, exactly the text it was made of; it is one
      frame, and no stop signal. */
  lemma SyntheticFrameReadBack(codec: Codec, provider: Provider, key: FieldKey, text: string)
    requires Faithful(codec) && Extractable(key, provider) && Utf8.Valid(text) && text != ""
    ensures var f := SyntheticFrame(codec, key, text);
            && SseFrames.FrameLen(f) == |f| && SseFrames.Normalize(f) == f
            && DataContent(Lines(f)).Some?
            && var json := codec.parse(DataContent(Lines(f)).value);
            && json.Some?
            && ExtractFields(json.value, provider, EventType(Lines(f))) == [Field(ReadKey(key), text)]
            && ClassifyTerminal(json.value, EventType(Lines(f)), provider) == None
  {
    hide Lines, EventFrame, EventType, DataContent, ExtractFields, ClassifyTerminal, SyntheticBody, Extractable, Utf8.Valid;
    var body := SyntheticBody(key, text);
    var event := SyntheticEvent(key);
    BodyParsed(key, text, provider);
    assert OneLine(codec.show(body));
    EventOneLine(key, provider);
    FrameReadBack(event, codec.show(body));
    FrameIsWhole(event, codec.show(body));
    SyntheticReadBack(key, text, provider);
    SyntheticIsNoTerminal(key, text, provider);
  }

  /** What the lines of a synthetic frame say: the event that its kind is announced with, and the body. */
  lemma SyntheticLines(codec: Codec, provider: Provider, key: FieldKey, text: string)
    requires Faithful(codec) && Extractable(key, provider) && Utf8.Valid(text)
    ensures var lines := Lines(SyntheticFrame(codec, key, text));
            && DataContent(lines).Some?
            && codec.parse(DataContent(lines).value) == Some(SyntheticBody(key, text))
            && (key.AnthropicDelta? ==> EventType(lines) == Some("content_block_delta"))
            && (key.ResponsesApiDelta? ==> EventType(lines) == Some(key.deltaEvent))
            && (key.ResponsesApiDone? ==> EventType(lines) == Some(key.doneEvent))
            && (!key.AnthropicDelta? && !key.ResponsesApiDelta? && !key.ResponsesApiDone? ==> EventType(lines) == None)
  {
    hide Lines, EventFrame, EventType, DataContent, SyntheticBody, Extractable, Utf8.Valid;
    BodyParsed(key, text, provider);
    assert OneLine(codec.show(SyntheticBody(key, text)));
    EventOneLine(key, provider);
    FrameReadBack(SyntheticEvent(key), codec.show(SyntheticBody(key, text)));
  }

  lemma EventOneLine(key: FieldKey, provider: Provider)
    requires Extractable(key, provider)
    ensures SyntheticEvent(key).Some? ==> OneLine(SyntheticEvent(key).value) && SyntheticEvent(key).value != ""
  {
    hide OneLine;
    OneLineBlock();
    OneLineDone();
    OneLineText();
    OneLineReasoning();
  }

  lemma OneLineBlock()
    ensures OneLine("content_block_delta")
  {}

  lemma OneLineDone()
    ensures OneLine("response.output_text.done")
  {}

  lemma OneLineText()
    ensures OneLine("response.output_text.delta")
  {}

  lemma OneLineReasoning()
    ensures OneLine("response.reasoning_summary_text.delta")
  {}

  lemma BodyParsed(key: FieldKey, text: string, provider: Provider)
    requires Extractable(key, provider) && Utf8.Valid(text)
    ensures Parsed(SyntheticBody(key, text))
  {
    hide Utf8.Valid, Parsed;
    StringParsed(text);
    match key {
      case AnthropicDelta(t, i) =>
        AnthropicParsed(t, i, text);
      case ResponsesApiDelta(_) => AnthropicNames(); WrapParsed("delta", String(text));
      case ResponsesApiDone(_) => AnthropicNames(); WrapParsed("text", String(text));
      case GeminiText(_) => AnthropicNames(); CandidateParsed("text", String(text));
      case GeminiCodeExecOutput(_) =>
        GeminiNames(); WrapParsed("output", String(text));
        CandidateParsed("codeExecutionResult", Object([Member("output", String(text))]));
      case GeminiFuncCallArg(_, a) =>
        GeminiNames(); WrapParsed(a, String(text));
        WrapParsed("args", Object([Member(a, String(text))]));
        CandidateParsed("functionCall", Object([Member("args", Object([Member(a, String(text))]))]));
      case OpenAiToolCall(i) =>
        ToolCallParsed(i, text);
      case OpenAiContent => ChatNames(); ChoiceParsed("content", String(text));
      case OpenAiReasoning => ChatNames(); ChoiceParsed("reasoning_content", String(text));
      case OpenAiRefusal => ChatNames(); ChoiceParsed("refusal", String(text));
      case OpenAiFunctionCallArgs =>
        ChatNames(); WrapParsed("arguments", String(text));
        ChoiceParsed("function_call", Object([Member("arguments", String(text))]));
    }
  }

  lemma StringParsed(text: string)
    requires Utf8.Valid(text)
    ensures Parsed(String(text))
  {}

  lemma WrapParsed(name: string, v: Value)
    requires Utf8.Valid(name) && Parsed(v)
    ensures Parsed(Object([Member(name, v)]))
  {
    hide Utf8.Valid;
  }

  lemma ListParsed(v: Value)
    requires Parsed(v)
    ensures Parsed(Array([v]))
  {}

  lemma ChoiceParsed(name: string, v: Value)
    requires Utf8.Valid(name) && Parsed(v)
    ensures Parsed(Choice(Member(name, v)))
  {
    hide Utf8.Valid, Parsed;
    AnthropicNames();
    ChatNames();
    var d := Object([Member(name, v)]);
    WrapParsed(name, v);
    WrapParsed("delta", d);
    ListParsed(Object([Member("delta", d)]));
    WrapParsed("choices", Array([Object([Member("delta", d)])]));
  }

  lemma CandidateParsed(name: string, v: Value)
    requires Utf8.Valid(name) && Parsed(v)
    ensures Parsed(Candidate(Member(name, v)))
  {
    hide Utf8.Valid, Parsed;
    ChatNames();
    GeminiNames();
    var part := Object([Member(name, v)]);
    var content := Object([Member("parts", Array([part]))]);
    WrapParsed(name, v);
    ListParsed(part);
    WrapParsed("parts", Array([part]));
    WrapParsed("content", content);
    ListParsed(Object([Member("content", content)]));
    WrapParsed("candidates", Array([Object([Member("content", content)])]));
  }

  lemma AnthropicParsed(t: string, i: nat, text: string)
    requires t in {"text_delta", "thinking_delta", "input_json_delta"} && Parsed(String(text)) && i < U64_LIMIT
    ensures Parsed(SyntheticBody(AnthropicDelta(t, i), text))
  {
    hide Utf8.Valid, Parsed, StringLess;
    AnthropicNames();
    DeltaTypes();
    DeltaOrder();
    StringParsed(t);
    StringParsed("content_block_delta");
    var delta := Object([Member(DeltaName(t), String(text)), Member("type", String(t))]);
    PairParsed(DeltaName(t), String(text), "type", String(t));
    NaturalParsed(i);
    TripleParsed("delta", delta, "index", Natural(i), "type", String("content_block_delta"));
  }

  lemma NaturalParsed(i: nat)
    requires i < U64_LIMIT
    ensures Parsed(Natural(i))
  {}

  /** The names of the members that are written are in order. */
  lemma DeltaOrder()
    ensures StringLess("text", "type") && StringLess("thinking", "type") && StringLess("partial_json", "type")
    ensures StringLess("delta", "index") && StringLess("index", "type") && StringLess("delta", "type")
    ensures StringLess("function", "index")
  {
    hide StringLess;
    SecondLetter("text", "type");
    SecondLetter("thinking", "type");
    FirstLetter("partial_json", "type");
    FirstLetter("delta", "index");
    FirstLetter("index", "type");
    FirstLetter("delta", "type");
    FirstLetter("function", "index");
  }

  lemma FirstLetter(s: string, t: string)
    requires s != "" && t != "" && s[0] < t[0]
    ensures StringLess(s, t)
  {}

  lemma SecondLetter(s: string, t: string)
    requires |s| >= 2 && |t| >= 2 && s[0] == t[0] && s[1] < t[1]
    ensures StringLess(s, t)
  {
    FirstLetter(s[1..], t[1..]);
    assert Code(s)[1..] == Code(s[1..]) && Code(t)[1..] == Code(t[1..]);
  }

  lemma ToolCallParsed(i: nat, text: string)
    requires Utf8.Valid(text) && i < U64_LIMIT
    ensures Parsed(SyntheticBody(OpenAiToolCall(i), text))
  {
    hide Utf8.Valid, Parsed, StringLess;
    AnthropicNames();
    ChatNames();
    var args := Object([Member("arguments", String(text))]);
    var call := Object([Member("function", args), Member("index", Natural(i))]);
    StringParsed(text);
    WrapParsed("arguments", String(text));
    NaturalParsed(i);
    DeltaOrder();
    PairParsed("function", args, "index", Natural(i));
    ListParsed(call);
    ChoiceParsed("tool_calls", Array([call]));
  }

  lemma PairParsed(name: string, v: Value, other: string, w: Value)
    requires Utf8.Valid(name) && Utf8.Valid(other) && StringLess(name, other) && Parsed(v) && Parsed(w)
    ensures Parsed(Object([Member(name, v), Member(other, w)]))
  {
    hide Utf8.Valid, StringLess;
  }

  lemma TripleParsed(a: string, u: Value, b: string, v: Value, c: string, w: Value)
    requires Utf8.Valid(a) && Utf8.Valid(b) && Utf8.Valid(c) && Parsed(u) && Parsed(v) && Parsed(w)
    requires StringLess(a, b) && StringLess(b, c) && StringLess(a, c)
    ensures Parsed(Object([Member(a, u), Member(b, v), Member(c, w)]))
  {
    hide Utf8.Valid, StringLess;
  }

  lemma AnthropicNames()
    ensures Utf8.Valid("delta")
    ensures Utf8.Valid("text")
    ensures Utf8.Valid("thinking")
    ensures Utf8.Valid("partial_json")
    ensures Utf8.Valid("type")
    ensures Utf8.Valid("index")
    ensures Utf8.Valid("content_block_delta")
  {
    hide Utf8.Valid;
    Utf8.AsciiValid("delta");
    Utf8.AsciiValid("text");
    Utf8.AsciiValid("thinking");
    Utf8.AsciiValid("partial_json");
    Utf8.AsciiValid("type");
    Utf8.AsciiValid("index");
    Utf8.AsciiValid("content_block_delta");
  }

  lemma DeltaTypes()
    ensures Utf8.Valid("text_delta")
    ensures Utf8.Valid("thinking_delta")
    ensures Utf8.Valid("input_json_delta")
  {
    hide Utf8.Valid;
    Utf8.AsciiValid("text_delta");
    Utf8.AsciiValid("thinking_delta");
    Utf8.AsciiValid("input_json_delta");
  }

  lemma ChatNames()
    ensures Utf8.Valid("choices")
    ensures Utf8.Valid("content")
    ensures Utf8.Valid("tool_calls")
    ensures Utf8.Valid("function")
    ensures Utf8.Valid("arguments")
    ensures Utf8.Valid("reasoning_content")
    ensures Utf8.Valid("function_call")
    ensures Utf8.Valid("refusal")
  {
    hide Utf8.Valid;
    Utf8.AsciiValid("choices");
    Utf8.AsciiValid("content");
    Utf8.AsciiValid("tool_calls");
    Utf8.AsciiValid("function");
    Utf8.AsciiValid("arguments");
    Utf8.AsciiValid("reasoning_content");
    Utf8.AsciiValid("function_call");
    Utf8.AsciiValid("refusal");
  }

  lemma GeminiNames()
    ensures Utf8.Valid("candidates")
    ensures Utf8.Valid("parts")
    ensures Utf8.Valid("codeExecutionResult")
    ensures Utf8.Valid("output")
    ensures Utf8.Valid("functionCall")
    ensures Utf8.Valid("args")
  {
    hide Utf8.Valid;
    Utf8.AsciiValid("candidates");
    Utf8.AsciiValid("parts");
    Utf8.AsciiValid("codeExecutionResult");
    Utf8.AsciiValid("output");
    Utf8.AsciiValid("functionCall");
    Utf8.AsciiValid("args");
  }
}
