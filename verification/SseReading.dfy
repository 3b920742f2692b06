/** What the lines of a frame are and what they say, for every frame. */
module SseReading {
  import opened Common
  import opened SseEvents
  import SseFrames
  import Utf8

  // ------------------------------------------------------------------------------- the lines

  /** The text is these lines, each with its end: "\r\n", or "\n", where a line does not end in '\r'; the
      last may have no end, if it is not empty.  No line holds a '\n'. */
  ghost predicate Joined(s: string, lines: seq<string>, ends: seq<string>) {
    && |lines| == |ends|
    && (forall i :: 0 <= i < |lines| ==> GoodEnd(lines[i], ends[i], i == |lines| - 1))
    && s == JoinAll(lines, ends)
  }

  predicate GoodEnd(line: string, end: string, last: bool) {
    && '\n' !in line
    && (end == "\r\n" || (end == "\n" && !SseFrames.EndsWith(line, '\r')) || (end == "" && last && line != ""))
  }

  function JoinAll(lines: seq<string>, ends: seq<string>): string
    requires |lines| == |ends|
  {
    if lines == [] then "" else lines[0] + ends[0] + JoinAll(lines[1..], ends[1..])
  }

  lemma {:induction false} LineLenIsFirst(s: string)
    ensures '\n' !in s[..LineLen(s)]
  {
    if s != "" && s[0] != '\n' {
      LineLenIsFirst(s[1..]);
      var n := LineLen(s[1..]);
      assert s[..n + 1] == [s[0]] + s[1..][..n];
    }
  }

  /** The lines of a text, joined with their ends, are the text. */
  lemma {:induction false} LinesJoin(s: string) returns (ends: seq<string>)
    ensures Joined(s, Lines(s), ends)
    decreases |s|
  {
    hide LineLen, Lines, JoinAll, GoodEnd, SseFrames.EndsWith;
    if s == "" {
      NoLines();
      ends := [];
      JoinNone();
    } else {
      var n := LineLen(s);
      LineLenIsFirst(s);
      if n == |s| {
        ends := [""];
        LastLine(s);
      } else {
        var more := LinesJoin(s[n + 1..]);
        var line, end := FirstOf(s);
        ends := [end] + more;
        OneLineCut(s, n, line, end);
        JoinCons(line, end, Lines(s[n + 1..]), more);
      }
    }
  }

  lemma JoinNone()
    ensures JoinAll([], []) == ""
  {}

  lemma LastLine(s: string)
    requires s != "" && LineLen(s) == |s| && '\n' !in s[..|s|]
    ensures Joined(s, Lines(s), [""]) && Lines(s) == [s]
  {
    hide LineLen;
    assert s[..|s|] == s && [s][1..] == [] && [""][1..] == [];
    assert JoinAll([], []) == "";
    assert JoinAll([s], [""]) == s + "" + "" == s;
  }

  lemma FirstOf(s: string) returns (line: string, end: string)
    requires s != "" && LineLen(s) < |s|
    ensures Lines(s) == [line] + Lines(s[LineLen(s) + 1..])
    ensures var n := LineLen(s);
            if SseFrames.EndsWith(s[..n], '\r') then n > 0 && line == s[..n - 1] && end == "\r\n"
            else line == s[..n] && end == "\n"
  {
    hide LineLen;
    var n := LineLen(s);
    LinesStep(s, n);
    if SseFrames.EndsWith(s[..n], '\r') {
      line, end := s[..n - 1], "\r\n";
    } else {
      line, end := s[..n], "\n";
    }
  }

  lemma OneLineCut(s: string, n: nat, line: string, end: string)
    requires n < |s| && s[n] == '\n' && '\n' !in s[..n]
    requires if SseFrames.EndsWith(s[..n], '\r') then n > 0 && line == s[..n - 1] && end == "\r\n"
             else line == s[..n] && end == "\n"
    ensures s == line + end + s[n + 1..] && GoodEnd(line, end, false)
  {
    if SseFrames.EndsWith(s[..n], '\r') {
      assert s[..n] == line + "\r";
      assert forall i :: 0 <= i < |line| ==> line[i] == s[..n][i];
    }
    assert s == s[..n] + "\n" + s[n + 1..];
  }

  lemma JoinCons(line: string, end: string, lines: seq<string>, ends: seq<string>)
    requires |lines| == |ends| && GoodEnd(line, end, false)
    requires forall i :: 0 <= i < |lines| ==> GoodEnd(lines[i], ends[i], i == |lines| - 1)
    ensures Joined(line + end + JoinAll(lines, ends), [line] + lines, [end] + ends)
  {
    hide GoodEnd;
    assert ([line] + lines)[1..] == lines && ([end] + ends)[1..] == ends;
    if lines == [] {
      NotLast(line, end);
    }
  }

  lemma NotLast(line: string, end: string)
    ensures GoodEnd(line, end, false) ==> GoodEnd(line, end, true)
  {}

  /** There is one way only to part a text into lines like this. */
  lemma {:induction false} LinesUnique(s: string, a: seq<string>, p: seq<string>, b: seq<string>, q: seq<string>)
    requires Joined(s, a, p) && Joined(s, b, q)
    ensures a == b && p == q
    decreases |a|
  {
    if a == [] || b == [] {
      EmptyJoined(s, a, p);
      EmptyJoined(s, b, q);
    } else {
      FirstLine(s, a, p);
      FirstLine(s, b, q);
      var i, j := |a[0]| + |p[0]|, |b[0]| + |q[0]|;
      SameFirstLine(s, a[0], p[0], b[0], q[0]);
      LinesUnique(s[i..], a[1..], p[1..], b[1..], q[1..]);
      assert a == [a[0]] + a[1..] && b == [b[0]] + b[1..] && p == [p[0]] + p[1..] && q == [q[0]] + q[1..];
    }
  }

  lemma EmptyJoined(s: string, a: seq<string>, p: seq<string>)
    requires Joined(s, a, p)
    ensures s == "" <==> a == []
  {
    if a != [] {
      assert GoodEnd(a[0], p[0], 0 == |a| - 1);
      assert a[0] + p[0] != "";
    }
  }

  lemma FirstLine(s: string, a: seq<string>, p: seq<string>)
    requires Joined(s, a, p) && a != []
    ensures var n := |a[0]| + |p[0]|;
            && n <= |s| && s[..n] == a[0] + p[0] && Joined(s[n..], a[1..], p[1..])
            && (p[0] == "" ==> n == |s|)
  {
    hide GoodEnd;
    var n := |a[0]| + |p[0]|;
    var more := JoinAll(a[1..], p[1..]);
    assert s == (a[0] + p[0]) + more;
    assert s[n..] == more;
    forall i | 0 <= i < |a[1..]| ensures GoodEnd(a[1..][i], p[1..][i], i == |a[1..]| - 1) {
      assert GoodEnd(a[i + 1], p[i + 1], i + 1 == |a| - 1);
    }
    if p[0] == "" {
      assert GoodEnd(a[0], p[0], 0 == |a| - 1);
      LastHasNoEnd(a[0], |a| == 1);
      assert a[1..] == [];
    }
  }

  lemma LastHasNoEnd(line: string, last: bool)
    requires GoodEnd(line, "", last)
    ensures last
  {}

  lemma SameFirstLine(s: string, a: string, p: string, b: string, q: string)
    requires GoodEnd(a, p, true) && GoodEnd(b, q, true)
    requires |a| + |p| <= |s| && s[..|a| + |p|] == a + p && |b| + |q| <= |s| && s[..|b| + |q|] == b + q
    requires (p == "" ==> |a| == |s|) && (q == "" ==> |b| == |s|)
    ensures a == b && p == q
  {
    BreakIsFirst(s, a, p);
    BreakIsFirst(s, b, q);
  }

  /** Where the first '\n' is decides the line and its end. */
  lemma BreakIsFirst(s: string, a: string, p: string)
    requires GoodEnd(a, p, true) && |a| + |p| <= |s| && s[..|a| + |p|] == a + p && (p == "" ==> |a| == |s|)
    ensures LineLen(s) == (if p == "\r\n" then |a| + 1 else |a|)
    ensures p == "" <==> LineLen(s) == |s|
    ensures a == s[..|a|] && (p == "\r\n" <==> LineLen(s) < |s| && SseFrames.EndsWith(s[..LineLen(s)], '\r'))
  {
    hide LineLen;
    var n := if p == "\r\n" then |a| + 1 else |a|;
    assert forall i :: 0 <= i < |a| ==> s[i] == (a + p)[i] == a[i];
    assert forall i :: 0 <= i < |p| ==> s[|a| + i] == p[i];
    NoBreakBefore(s, n);
  }

  lemma {:induction false} NoBreakBefore(s: string, n: nat)
    requires n <= |s| && (forall i :: 0 <= i < n ==> s[i] != '\n') && (n == |s| || s[n] == '\n')
    ensures LineLen(s) == n
  {
    if n > 0 {
      assert forall i :: 0 <= i < n - 1 ==> s[1..][i] == s[i + 1];
      NoBreakBefore(s[1..], n - 1);
    }
  }

  // ------------------------------------------------------------------------- what the lines say

  /** What follows the colon, without one space. */
  function AfterColon(line: string, colon: nat): string
    requires colon <= |line|
  {
    if " " <= line[colon..] then line[colon + 1..] else line[colon..]
  }

  /** `i` is the first index at which `p` holds. */
  ghost predicate IsFirst(lines: seq<string>, p: string -> bool, i: nat) {
    i < |lines| && p(lines[i]) && forall j :: 0 <= j < i ==> !p(lines[j])
  }

  predicate IsDataLine(line: string) {
    "data:" <= line
  }

  predicate IsEventLine(line: string) {
    "event:" <= line && AfterColon(line, 6) != ""
  }

  lemma DataValue(line: string)
    ensures FieldValue(line, "data") == if IsDataLine(line) then Some(AfterColon(line, 5)) else None
  {
    assert "data" + ":" == "data:" && "data" + ": " == "data: " == "data:" + " ";
    ValueAfter(line, "data:");
  }

  lemma EventValue(line: string)
    ensures FieldValue(line, "event") == if "event:" <= line then Some(AfterColon(line, 6)) else None
  {
    assert "event" + ":" == "event:" && "event" + ": " == "event: " == "event:" + " ";
    ValueAfter(line, "event:");
  }

  lemma EventLineValue(line: string)
    ensures IsEventLine(line) ==> FieldValue(line, "event") == Some(AfterColon(line, 6)) && AfterColon(line, 6) != ""
    ensures !IsEventLine(line) ==> FieldValue(line, "event").None? || FieldValue(line, "event").value == ""
  {
    hide FieldValue, AfterColon;
    EventValue(line);
  }

  lemma ValueAfter(line: string, colon: string)
    ensures colon + " " <= line <==> colon <= line && " " <= line[|colon|..]
    ensures colon <= line && " " <= line[|colon|..] ==> line[|colon + " "|..] == line[|colon| + 1..]
  {
    if colon + " " <= line {
      assert colon == (colon + " ")[..|colon|] == line[..|colon|];
      assert line[|colon|] == (colon + " ")[|colon|];
    }
  }

  /** The data is what follows the colon of the first line that starts with "data:"; there is none if no
      line starts so. */
  lemma {:induction false} DataIsFirst(lines: seq<string>)
    ensures DataContent(lines).None? <==> forall l :: l in lines ==> !IsDataLine(l)
    ensures forall i: nat :: IsFirst(lines, IsDataLine, i) ==> DataContent(lines) == Some(AfterColon(lines[i], 5))
  {
    hide FieldValue, AfterColon;
    if lines != [] {
      assert forall l :: l in lines <==> l == lines[0] || l in lines[1..];
      DataValue(lines[0]);
      DataIsFirst(lines[1..]);
      forall i: nat | IsFirst(lines, IsDataLine, i) ensures DataContent(lines) == Some(AfterColon(lines[i], 5)) {
        if i > 0 {
          assert !IsDataLine(lines[0]);
          assert forall j :: 0 <= j < i - 1 ==> lines[1..][j] == lines[j + 1];
          assert IsFirst(lines[1..], IsDataLine, i - 1);
        }
      }
    }
  }

  /** The event is what follows the colon of the first line that starts with "event:" and has something
      after it; there is none if no line is like that. */
  lemma {:induction false} EventIsFirst(lines: seq<string>)
    ensures EventType(lines).None? <==> forall l :: l in lines ==> !IsEventLine(l)
    ensures forall i: nat :: IsFirst(lines, IsEventLine, i) ==> EventType(lines) == Some(AfterColon(lines[i], 6))
  {
    hide FieldValue, AfterColon;
    if lines != [] {
      var rest := lines[1..];
      EventLineValue(lines[0]);
      EventIsFirst(rest);
      assert forall l :: l in lines <==> l == lines[0] || l in rest;
      if IsEventLine(lines[0]) {
        assert lines[0] in lines && EventType(lines).Some?;
      } else {
        assert EventType(lines) == EventType(rest);
      }
      forall i: nat | IsFirst(lines, IsEventLine, i) ensures EventType(lines) == Some(AfterColon(lines[i], 6)) {
        if i > 0 {
          assert !IsEventLine(lines[0]);
          assert forall j :: 0 <= j < i - 1 ==> rest[j] == lines[j + 1];
          assert IsFirst(rest, IsEventLine, i - 1);
        }
      }
    }
  }

  // ------------------------------------------------------------------------- frames without spaces

  /** A frame that is written without spaces after the colons. */
  function Spaceless(event: Option<string>, data: string): string {
    (match event case Some(e) => "event:" + e + "\n" case None => "") + "data:" + data + "\n\n"
  }

  /** It is read like the one with spaces. */
  lemma SpacelessIsRead(event: Option<string>, data: string)
    requires OneLine(data) && !(" " <= data)
    requires event.Some? ==> OneLine(event.value) && event.value != "" && !(" " <= event.value)
    ensures EventType(Lines(Spaceless(event, data))) == event == EventType(Lines(EventFrame(event, data)))
    ensures DataContent(Lines(Spaceless(event, data))) == Some(data) == DataContent(Lines(EventFrame(event, data)))
  {
    hide Lines, EventFrame, FieldValue;
    FrameReadBack(event, data);
    SpacelessLines(event, data);
    var d := ["data:" + data, ""];
    assert d[1..] == [""] && [""][1..] == [];
    assert ("data:" + data)[5..] == data && "data:" <= "data:" + data;
    DataValue("data:" + data);
    EventValue("data:" + data);
    assert ("data:" + data)[0] == 'd' && "event:"[0] == 'e';
    DataValue("");
    EventValue("");
    match event
    case None => assert [] + d == d;
    case Some(e) =>
      var l := "event:" + e;
      assert l[6..] == e && "event:" <= l && l[0] == 'e' && "data:"[0] == 'd';
      DataValue(l);
      EventValue(l);
      assert ([l] + d)[0] == l && ([l] + d)[1..] == d;
  }

  lemma SpacelessLines(event: Option<string>, data: string)
    requires OneLine(data) && (event.Some? ==> OneLine(event.value))
    ensures Lines(Spaceless(event, data))
            == (match event case Some(e) => ["event:" + e] case None => []) + ["data:" + data, ""]
  {
    hide Lines;
    var tail := "data:" + data + "\n" + "\n";
    LinesCons("", "");
    assert "" + "\n" + "" == "\n";
    NoLines();
    LinesCons("data:" + data, "\n");
    match event
    case None =>
      assert Spaceless(event, data) == "data:" + data + "\n" + "\n";
    case Some(e) =>
      LinesCons("event:" + e, tail);
      assert Spaceless(event, data) == "event:" + e + "\n" + tail;
  }

  // -------------------------------------------------------------------------------- white space

  /** The code points of white space. */
  predicate IsSpace(c: nat) {
    || 0x09 <= c <= 0x0D || c == 0x20 || c == 0x85 || c == 0xA0 || c == 0x1680
    || 0x2000 <= c <= 0x200A || c == 0x2028 || c == 0x2029 || c == 0x202F || c == 0x205F || c == 0x3000
  }

  predicate AllSpace(cs: seq<nat>) {
    forall i :: 0 <= i < |cs| ==> IsSpace(cs[i]) && Utf8.IsScalar(cs[i])
  }

  /** `SpaceLen` recognises these code points and no other bytes. */
  lemma SpaceLenIff(s: string)
    ensures SpaceLen(s) > 0 <==> exists c :: IsSpace(c) && Utf8.IsScalar(c) && Utf8.Encode(c) <= s
    ensures forall c :: IsSpace(c) && Utf8.IsScalar(c) && Utf8.Encode(c) <= s ==> SpaceLen(s) == |Utf8.Encode(c)|
  {
    hide SpaceLen, Utf8.Encode, IsSpace;
    forall c | IsSpace(c) && Utf8.IsScalar(c) && Utf8.Encode(c) <= s ensures SpaceLen(s) == |Utf8.Encode(c)| {
      var e := Utf8.Encode(c);
      SpaceLenOf(c, s[|e|..]);
      assert s == e + s[|e|..];
    }
    if SpaceLen(s) > 0 {
      var c := SpaceOf(s);
    }
  }

  lemma SpaceLenOf(c: nat, t: string)
    requires IsSpace(c) && Utf8.IsScalar(c)
    ensures SpaceLen(Utf8.Encode(c) + t) == |Utf8.Encode(c)| > 0
  {
    var e := Utf8.Encode(c);
    assert forall i :: 0 <= i < |e| ==> (e + t)[i] == e[i];
  }

  lemma SpaceOf(s: string) returns (c: nat)
    requires SpaceLen(s) > 0
    ensures IsSpace(c) && Utf8.IsScalar(c) && Utf8.Encode(c) <= s
  {
    if SpaceLen(s) == 1 {
      c := s[0] as int;
      assert Utf8.Encode(c) == [s[0]] == s[..1];
    } else if SpaceLen(s) == 2 {
      c := s[1] as int;
      assert Utf8.Encode(c) == [s[0], s[1]] == s[..2];
    } else {
      c := WideOf(s[0] as int, s[1] as int, s[2] as int);
      assert Utf8.Encode(c) == [s[0], s[1], s[2]] == s[..3];
    }
  }

  lemma WideOf(a: int, b: int, d: int) returns (c: nat)
    requires WideSpace(a, b, d)
    ensures IsSpace(c) && 0x800 <= c < 0x10000 && Utf8.IsScalar(c)
    ensures c / 0x1000 == a - 0xE0 && c / 0x40 % 0x40 == b - 0x80 && c % 0x40 == d - 0x80
  {
    c := 0x1000 * (a - 0xE0) + 0x40 * (b - 0x80) + (d - 0x80);
  }

  lemma {:induction false} TrimStartIs(s: string) returns (cs: seq<nat>)
    ensures AllSpace(cs) && s == Utf8.EncodeAll(cs) + TrimStart(s) && SpaceLen(TrimStart(s)) == 0
    decreases |s|
  {
    hide SpaceLen, Utf8.Encode, IsSpace;
    SpaceLenIff(s);
    if SpaceLen(s) == 0 {
      cs := [];
      assert "" + s == s;
    } else {
      var c :| IsSpace(c) && Utf8.IsScalar(c) && Utf8.Encode(c) <= s;
      var n := SpaceLen(s);
      var more := TrimStartIs(s[n..]);
      cs := [c] + more;
      assert cs[1..] == more;
      assert s == Utf8.Encode(c) + s[n..];
      Assoc(Utf8.Encode(c), Utf8.EncodeAll(more), TrimStart(s[n..]));
    }
  }

  lemma {:induction false} TrimmedBy(cs: seq<nat>, t: string)
    requires AllSpace(cs) && SpaceLen(t) == 0
    ensures TrimStart(Utf8.EncodeAll(cs) + t) == t
  {
    hide SpaceLen, Utf8.Encode, IsSpace;
    if cs == [] {
      assert "" + t == t;
    } else {
      var e := Utf8.Encode(cs[0]);
      var more := Utf8.EncodeAll(cs[1..]) + t;
      TrimmedBy(cs[1..], t);
      Assoc(e, Utf8.EncodeAll(cs[1..]), t);
      SpaceLenIff(e + more);
      assert e <= e + more && (e + more)[|e|..] == more;
    }
  }

  /** It is `[DONE]`, with nothing but white space around it. */
  ghost predicate DoneWithin(s: string, before: seq<nat>, after: seq<nat>) {
    AllSpace(before) && AllSpace(after) && s == Utf8.EncodeAll(before) + ("[DONE]" + Utf8.EncodeAll(after))
  }

  lemma IsDoneIff(s: string)
    ensures IsDone(s) <==> exists before, after :: DoneWithin(s, before, after)
  {
    hide TrimStart, Utf8.EncodeAll, SpaceLen, IsSpace;
    if IsDone(s) {
      var before := TrimStartIs(s);
      var t := TrimStart(s);
      var after := TrimStartIs(t[6..]);
      assert Utf8.EncodeAll(after) + "" == Utf8.EncodeAll(after);
      assert t == "[DONE]" + t[6..];
      assert DoneWithin(s, before, after);
    }
    if before, after :| DoneWithin(s, before, after) {
      var t := "[DONE]" + Utf8.EncodeAll(after);
      NoSpaces(t);
      TrimmedBy(before, t);
      NoSpaces("");
      TrimmedBy(after, "");
      assert Utf8.EncodeAll(after) + "" == Utf8.EncodeAll(after);
      assert t[6..] == Utf8.EncodeAll(after) && "[DONE]" <= t;
    }
  }

  lemma NoSpaces(t: string)
    requires t == "" || t[0] == '['
    ensures SpaceLen(t) == 0
  {}
}
