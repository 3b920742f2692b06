/** What is asked of a JSON codec can be had: a printer whose output parses in one way only. */
module JsonWitness {
  import opened Common
  import opened Json
  import Utf8

  function Unary(n: nat): string {
    if n == 0 then "0" else "1" + Unary(n - 1)
  }

  function Letters(s: string): string {
    if s == "" then "0" else "1" + (Unary(s[0] as nat) + Letters(s[1..]))
  }

  function Tag(v: Value): nat {
    match v
    case Null => 0
    case Bool(b) => if b then 1 else 2
    case Natural(_) => 3
    case OtherNumber(_) => 4
    case String(_) => 5
    case Array(_) => 6
    case Object(_) => 7
  }

  /** Every part says itself where it ends. */
  function Print(v: Value): string
    decreases v, 1
  {
    Unary(Tag(v)) + Body(v)
  }

  function Body(v: Value): string
    decreases v, 0
  {
    match v
    case Natural(n) => Unary(n)
    case OtherNumber(n) => Unary(n)
    case String(s) => Letters(s)
    case Array(items) => PrintItems(items)
    case Object(members) => PrintMembers(members)
    case _ => ""
  }

  function PrintItems(items: seq<Value>): string
    decreases items, 0
  {
    if items == [] then "0" else "1" + (Print(items[0]) + PrintItems(items[1..]))
  }

  function PrintMembers(members: seq<Member>): string
    decreases members, 0
  {
    if members == [] then "0"
    else "1" + (Letters(members[0].name) + (Print(members[0].value) + PrintMembers(members[1..])))
  }

  lemma AfterOne(a: string, x: string, s: string)
    requires s == ("1" + a) + x
    ensures s[0] == '1' && s[1..] == a + x
  {}

  lemma AfterZero(x: string, s: string)
    requires s == "0" + x
    ensures s[0] == '0' && s[1..] == x
  {}

  lemma {:induction false} UnaryInjective(a: nat, x: string, b: nat, y: string)
    requires Unary(a) + x == Unary(b) + y
    ensures a == b && x == y
  {
    var s := Unary(a) + x;
    if a == 0 { AfterZero(x, s); } else { AfterOne(Unary(a - 1), x, s); }
    if b == 0 { AfterZero(y, s); } else { AfterOne(Unary(b - 1), y, s); }
    if a > 0 { UnaryInjective(a - 1, x, b - 1, y); }
  }

  lemma {:induction false} LettersInjective(a: string, x: string, b: string, y: string)
    requires Letters(a) + x == Letters(b) + y
    ensures a == b && x == y
  {
    hide Unary;
    var s := Letters(a) + x;
    if a == "" { AfterZero(x, s); } else { AfterOne(Unary(a[0] as nat) + Letters(a[1..]), x, s); }
    if b == "" { AfterZero(y, s); } else { AfterOne(Unary(b[0] as nat) + Letters(b[1..]), y, s); }
    if a != "" {
      Assoc(Unary(a[0] as nat), Letters(a[1..]), x);
      Assoc(Unary(b[0] as nat), Letters(b[1..]), y);
      UnaryInjective(a[0] as nat, Letters(a[1..]) + x, b[0] as nat, Letters(b[1..]) + y);
      LettersInjective(a[1..], x, b[1..], y);
      assert a == [a[0]] + a[1..] && b == [b[0]] + b[1..];
    }
  }

  /** What is printed, followed by anything, can be read in one way only. */
  lemma {:induction false} PrintInjective(v: Value, x: string, w: Value, y: string)
    requires Print(v) + x == Print(w) + y
    ensures v == w && x == y
    decreases v
  {
    hide Unary, Letters, PrintItems, PrintMembers;
    Assoc(Unary(Tag(v)), Body(v), x);
    Assoc(Unary(Tag(w)), Body(w), y);
    UnaryInjective(Tag(v), Body(v) + x, Tag(w), Body(w) + y);
    match v {
      case Natural(n) => UnaryInjective(n, x, w.n, y);
      case OtherNumber(n) => UnaryInjective(n, x, w.atom, y);
      case String(s) => LettersInjective(s, x, w.s, y);
      case Array(items) => ItemsInjective(items, x, w.items, y);
      case Object(members) => MembersInjective(members, x, w.members, y);
      case _ => assert "" + x == x && "" + y == y;
    }
  }

  lemma {:induction false} ItemsInjective(a: seq<Value>, x: string, b: seq<Value>, y: string)
    requires PrintItems(a) + x == PrintItems(b) + y
    ensures a == b && x == y
    decreases a
  {
    hide Print;
    var s := PrintItems(a) + x;
    if a == [] { AfterZero(x, s); } else { AfterOne(Print(a[0]) + PrintItems(a[1..]), x, s); }
    if b == [] { AfterZero(y, s); } else { AfterOne(Print(b[0]) + PrintItems(b[1..]), y, s); }
    if a != [] {
      Assoc(Print(a[0]), PrintItems(a[1..]), x);
      Assoc(Print(b[0]), PrintItems(b[1..]), y);
      PrintInjective(a[0], PrintItems(a[1..]) + x, b[0], PrintItems(b[1..]) + y);
      ItemsInjective(a[1..], x, b[1..], y);
      assert a == [a[0]] + a[1..] && b == [b[0]] + b[1..];
    }
  }

  lemma {:induction false} MembersInjective(a: seq<Member>, x: string, b: seq<Member>, y: string)
    requires PrintMembers(a) + x == PrintMembers(b) + y
    ensures a == b && x == y
    decreases a
  {
    hide Print, Letters;
    var s := PrintMembers(a) + x;
    if a == [] { AfterZero(x, s); } else { AfterOne(Tail(a), x, s); }
    if b == [] { AfterZero(y, s); } else { AfterOne(Tail(b), y, s); }
    if a != [] {
      var p, q := PrintMembers(a[1..]), PrintMembers(b[1..]);
      Assoc(Letters(a[0].name), Print(a[0].value) + p, x);
      Assoc(Letters(b[0].name), Print(b[0].value) + q, y);
      LettersInjective(a[0].name, Print(a[0].value) + p + x, b[0].name, Print(b[0].value) + q + y);
      Assoc(Print(a[0].value), p, x);
      Assoc(Print(b[0].value), q, y);
      assert a[0] in a;
      PrintInjective(a[0].value, p + x, b[0].value, q + y);
      MembersInjective(a[1..], x, b[1..], y);
      assert a == [a[0]] + a[1..] && b == [b[0]] + b[1..];
    }
  }

  function Tail(a: seq<Member>): string
    requires a != []
  {
    Letters(a[0].name) + (Print(a[0].value) + PrintMembers(a[1..]))
  }

  /** Two digits only, and so no line break. */
  predicate Digits(s: string) {
    forall i :: 0 <= i < |s| ==> s[i] == '0' || s[i] == '1'
  }

  lemma {:induction false} UnaryDigits(n: nat)
    ensures Digits(Unary(n))
  {
    if n > 0 { UnaryDigits(n - 1); }
  }

  lemma {:induction false} LettersDigits(s: string)
    ensures Digits(Letters(s))
  {
    if s != "" {
      UnaryDigits(s[0] as nat);
      LettersDigits(s[1..]);
    }
  }

  lemma {:induction false} PrintDigits(v: Value)
    ensures Digits(Print(v))
    decreases v
  {
    hide Unary, Letters, PrintItems, PrintMembers;
    UnaryDigits(Tag(v));
    match v {
      case Natural(n) => UnaryDigits(n);
      case OtherNumber(n) => UnaryDigits(n);
      case String(s) => LettersDigits(s);
      case Array(items) => ItemsDigits(items);
      case Object(members) => MembersDigits(members);
      case _ =>
    }
  }

  lemma {:induction false} ItemsDigits(items: seq<Value>)
    ensures Digits(PrintItems(items))
    decreases items
  {
    hide Print;
    if items != [] {
      PrintDigits(items[0]);
      ItemsDigits(items[1..]);
    }
  }

  lemma {:induction false} MembersDigits(members: seq<Member>)
    ensures Digits(PrintMembers(members))
    decreases members
  {
    hide Print, Letters;
    if members != [] {
      assert members[0] in members;
      LettersDigits(members[0].name);
      PrintDigits(members[0].value);
      MembersDigits(members[1..]);
    }
  }

  ghost predicate IsPrinted(v: Value, s: string) {
    Parsed(v) && Print(v) == s
  }

  ghost function Read(s: string): Option<Value> {
    if exists v :: IsPrinted(v, s) then
      var v :| IsPrinted(v, s);
      Some(v)
    else None
  }

  ghost function PrintedCodec(): Codec {
    Codec(s => Read(s), v => Print(v))
  }

  /** So there is a faithful codec, one that reads UTF-8 only, and what is proved of such codecs is proved
      of something. */
  lemma FaithfulExists()
    ensures exists codec :: Faithful(codec) && forall s :: codec.parse(s).Some? ==> Utf8.Valid(s)
  {
    hide Print, Parsed, Utf8.Valid;
    var codec := PrintedCodec();
    forall v | Parsed(v) ensures codec.parse(codec.show(v)) == Some(v) {
      assert IsPrinted(v, Print(v));
      var w := Read(Print(v)).value;
      PrintInjective(v, "", w, "");
    }
    forall v ensures '\n' !in codec.show(v) && '\r' !in codec.show(v) {
      PrintDigits(v);
    }
    forall s | codec.parse(s).Some? ensures Utf8.Valid(s) {
      PrintDigits(Read(s).value);
      Utf8.AsciiValid(s);
    }
    assert Faithful(codec);
  }
}
