/** JSON values (RFC 8259) as the program sees them after parsing. */
module Json {
  import opened Common
  import opened Order
  import Utf8

  /** A number that is no non-negative integer is an atom.  The members of an object are listed in
      the order in which its map is iterated, which is that of their names once a text was parsed. */
  datatype Value =
    | Null
    | Bool(b: bool)
    | Natural(n: nat)
    | OtherNumber(atom: nat)
    | String(s: string)
    | Array(items: seq<Value>)
    | Object(members: seq<Member>)

  datatype Member = Member(name: string, value: Value)

  /** Parsing and printing of whole texts. */
  datatype Codec = Codec(parse: string -> Option<Value>, show: Value -> string)

  function Find(members: seq<Member>, name: string): (v: Option<Value>)
    ensures v.Some? ==> Member(name, v.value) in members
  {
    if members == [] then None
    else if members[0].name == name then Some(members[0].value)
    else Find(members[1..], name)
  }

  lemma {:induction false} FindAt(members: seq<Member>, i: nat)
    requires i < |members| && forall k :: 0 <= k < i ==> members[k].name != members[i].name
    ensures Find(members, members[i].name) == Some(members[i].value)
  {
    if i > 0 { FindAt(members[1..], i - 1); }
  }

  lemma {:induction false} FindNone(members: seq<Member>, name: string)
    requires forall k :: 0 <= k < |members| ==> members[k].name != name
    ensures Find(members, name) == None
  {
    if members != [] { FindNone(members[1..], name); }
  }

  function Get(v: Value, name: string): Option<Value> {
    match v
    case Object(members) => Find(members, name)
    case _ => None
  }

  /** One step of a JSON pointer (RFC 6901), for names and for the index 0. */
  function StepInto(v: Value, token: string): Option<Value> {
    match v
    case Object(members) => Find(members, token)
    case Array(items) => if token == "0" && items != [] then Some(items[0]) else None
    case _ => None
  }

  function Pointer(v: Value, path: seq<string>): Option<Value>
    decreases |path|
  {
    if path == [] then Some(v)
    else match StepInto(v, path[0])
      case Some(w) => Pointer(w, path[1..])
      case None => None
  }

  function AsString(v: Option<Value>): Option<string> {
    match v
    case Some(String(s)) => Some(s)
    case _ => None
  }

  function AsNatural(v: Option<Value>): Option<nat> {
    match v
    case Some(Natural(n)) => Some(n)
    case _ => None
  }

  const U64_LIMIT := 0x1_0000_0000_0000_0000

  /** A value of which maps can be made: strings are UTF-8, the names within an object are distinct,
      and a number known as a non-negative integer fits 64 bits. */
  ghost predicate Proper(v: Value) {
    match v
    case Natural(n) => n < U64_LIMIT
    case String(s) => Utf8.Valid(s)
    case Array(items) => forall i :: 0 <= i < |items| ==> Proper(items[i])
    case Object(members) =>
      && Distinct(members)
      && forall i :: 0 <= i < |members| ==> Utf8.Valid(members[i].name) && Proper(members[i].value)
    case _ => true
  }

  ghost predicate Distinct(members: seq<Member>) {
    forall i, j :: 0 <= i < j < |members| ==> members[i].name != members[j].name
  }

  /** What parsing can yield: the maps are sorted, so that the names come in increasing order. */
  ghost predicate Parsed(v: Value) {
    match v
    case Natural(n) => n < U64_LIMIT
    case String(s) => Utf8.Valid(s)
    case Array(items) => forall i :: 0 <= i < |items| ==> Parsed(items[i])
    case Object(members) =>
      && InOrder(members)
      && forall i :: 0 <= i < |members| ==> Utf8.Valid(members[i].name) && Parsed(members[i].value)
    case _ => true
  }

  ghost predicate InOrder(members: seq<Member>) {
    forall i, j :: 0 <= i < j < |members| ==> StringLess(members[i].name, members[j].name)
  }

  /** Numbers without a sign are kept as such up to the largest of 64 bits. */
  lemma NumbersOf64Bits(n: nat)
    ensures Parsed(Natural(n)) <==> n <= 0xFFFF_FFFF_FFFF_FFFF
  {}

  lemma OrderIsDistinct(members: seq<Member>)
    requires InOrder(members)
    ensures Distinct(members)
  {
    hide StringLess;
    forall i, j | 0 <= i < j < |members| ensures members[i].name != members[j].name {
      StringOrder(members[i].name, members[i].name);
    }
  }

  lemma {:induction false} ParsedIsProper(v: Value)
    requires Parsed(v)
    ensures Proper(v)
    decreases v
  {
    hide StringLess, Utf8.Valid;
    match v {
      case Array(items) =>
        forall i | 0 <= i < |items| ensures Proper(items[i]) { ParsedIsProper(items[i]); }
      case Object(members) =>
        OrderIsDistinct(members);
        forall i | 0 <= i < |members| ensures Proper(members[i].value) { ParsedIsProper(members[i].value); }
      case _ =>
    }
  }

  /** A codec that reads back what it prints of parsed values, yields nothing else, and prints on one
      line. */
  ghost predicate Faithful(codec: Codec) {
    && (forall v :: Parsed(v) ==> codec.parse(codec.show(v)) == Some(v))
    && (forall v :: '\n' !in codec.show(v) && '\r' !in codec.show(v))
    && (forall s :: codec.parse(s).Some? ==> Parsed(codec.parse(s).value))
  }

  lemma FindParsed(v: Value, name: string)
    requires Parsed(v) && Get(v, name).Some?
    ensures Parsed(Get(v, name).value)
  {
    hide StringLess, Utf8.Valid;
    var m := Member(name, Find(v.members, name).value);
    var i :| 0 <= i < |v.members| && v.members[i] == m;
    assert Parsed(v.members[i].value);
  }

  lemma {:induction false} PointerParsed(v: Value, path: seq<string>)
    requires Parsed(v) && Pointer(v, path).Some?
    ensures Parsed(Pointer(v, path).value)
    decreases |path|
  {
    hide StringLess, Utf8.Valid;
    if path != [] {
      if v.Object? {
        FindParsed(v, path[0]);
      }
      PointerParsed(StepInto(v, path[0]).value, path[1..]);
    }
  }
}
