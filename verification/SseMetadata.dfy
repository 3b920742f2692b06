/** What is kept of a Gemini event besides its text. */
module SseMetadata {
  import opened Common
  import opened Json
  import opened Order
  import opened SseFields
  import opened SseExtract
  import Utf8

  function ArgOf(call: Value, name: string): Option<Value> {
    match Get(call, "args") case Some(Object(args)) => Find(args, name) case _ => None
  }

  function ArgsIn(call: Value): seq<Member> {
    match Get(call, "args") case Some(Object(args)) => args case _ => []
  }

  function CallOf(part: Value): Value {
    match Get(part, "functionCall") case Some(call) => call case None => Null
  }

  /** The part has a function call with a name or with an argument that is no string. */
  predicate HasExtra(part: Value) {
    match Get(part, "functionCall")
    case Some(call) => Get(call, "name").Some? || exists m :: m in ArgsIn(call) && !m.value.String?
    case None => false
  }

  /** `j` is the last part that has. */
  ghost predicate IsLastExtra(parts: seq<Value>, j: nat) {
    j < |parts| && HasExtra(parts[j]) && forall i :: j < i < |parts| ==> !HasExtra(parts[i])
  }

  function UnlessString(v: Option<Value>): Option<Value> {
    if IsString(v) then None else v
  }

  /** `kept` is the name of the call and its arguments that are no strings, and nothing else. */
  ghost predicate KeepsCall(kept: Value, call: Value) {
    && Get(kept, "name") == Get(call, "name")
    && (forall a :: ArgOf(kept, a) == UnlessString(ArgOf(call, a)))
    && kept.Object? && (forall m :: m in kept.members ==> m.name == "name" || m.name == "args")
  }

  // ----------------------------------------------------------------------------------- one call

  lemma {:induction false} FindNonStrings(args: seq<Member>, a: string)
    requires Distinct(args)
    ensures Find(NonStrings(args), a) == UnlessString(Find(args, a))
  {
    hide Distinct;
    if args != [] {
      var rest := args[1..];
      TailDistinct(args);
      FindNonStrings(rest, a);
      FindNone(rest, args[0].name);
      FindFirst(args[0], NonStrings(rest), a);
      FindFirst(args[0], rest, a);
      assert args == [args[0]] + rest;
      NonStringsHead(args);
    }
  }

  lemma NonStringsHead(args: seq<Member>)
    requires args != []
    ensures NonStrings(args) == if args[0].value.String? then NonStrings(args[1..]) else [args[0]] + NonStrings(args[1..])
  {}

  lemma FindFirst(m: Member, rest: seq<Member>, a: string)
    ensures Find([m] + rest, a) == if m.name == a then Some(m.value) else Find(rest, a)
  {
    assert ([m] + rest)[1..] == rest;
  }

  lemma {:induction false} NonStringsSome(args: seq<Member>)
    ensures NonStrings(args) != [] <==> exists m :: m in args && !m.value.String?
  {
    if args != [] {
      NonStringsSome(args[1..]);
      assert forall m :: m in args <==> m == args[0] || m in args[1..];
    }
  }

  lemma CallIsKept(call: Value)
    requires Distinct(ArgsIn(call))
    ensures CallExtra(call) != [] <==> Get(call, "name").Some? || exists m :: m in ArgsIn(call) && !m.value.String?
    ensures KeepsCall(Object(CallExtra(call)), call)
  {
    hide Find, NonStrings, Distinct;
    var args := NonStrings(ArgsIn(call));
    NonStringsSome(ArgsIn(call));
    NoStrings();
    var first := if args != [] then [Member("args", Object(args))] else [];
    var second := Kept(call, "name");
    assert CallExtra(call) == first + second;
    FindInTwo(first, second, "args", "name");
    forall a ensures ArgOf(Object(CallExtra(call)), a) == UnlessString(ArgOf(call, a)) {
      FindNonStrings(ArgsIn(call), a);
      FindNothing();
    }
  }

  lemma NoStrings()
    ensures NonStrings([]) == []
  {}

  lemma {:induction false} FindSum(a: seq<Member>, b: seq<Member>, name: string)
    ensures Find(a + b, name) == if Find(a, name).Some? then Find(a, name) else Find(b, name)
  {
    if a == [] {
      assert a + b == b;
    } else {
      FindSum(a[1..], b, name);
      assert (a + b)[1..] == a[1..] + b;
    }
  }

  lemma FindOnly(a: seq<Member>, m: string, name: string)
    requires |a| <= 1 && forall x :: x in a ==> x.name == m
    ensures Find(a, name) == if a != [] && name == m then Some(a[0].value) else None
  {
    if a != [] {
      assert a[0] in a && a == [a[0]] + [];
      FindFirst(a[0], [], name);
    }
  }

  lemma FindInTwo(a: seq<Member>, b: seq<Member>, m: string, n: string)
    requires |a| <= 1 && |b| <= 1 && m != n
    requires (forall x :: x in a ==> x.name == m) && (forall x :: x in b ==> x.name == n)
    ensures Find(a + b, m) == if a != [] then Some(a[0].value) else None
    ensures Find(a + b, n) == if b != [] then Some(b[0].value) else None
  {
    hide Find;
    FindSum(a, b, m);
    FindSum(a, b, n);
    FindOnly(a, m, m);
    FindOnly(a, m, n);
    FindOnly(b, n, m);
    FindOnly(b, n, n);
  }

  // -------------------------------------------------------------------------------- the last call

  ghost predicate GoodPart(part: Value) {
    match Get(part, "functionCall") case Some(call) => Distinct(ArgsIn(call)) case None => true
  }

  lemma PartIsGood(part: Value)
    requires Parsed(part)
    ensures GoodPart(part)
  {
    hide StringLess, Find, Parsed;
    GetParsed(part, "functionCall");
    if Get(part, "functionCall").Some? {
      var call := Get(part, "functionCall").value;
      GetParsed(call, "args");
      var args := Get(call, "args");
      if args.Some? && args.value.Object? { MembersDistinct(args.value); }
    }
  }

  lemma MembersDistinct(v: Value)
    requires Parsed(v) && v.Object?
    ensures Distinct(v.members)
  {
    hide StringLess, Utf8.Valid;
    OrderIsDistinct(v.members);
  }

  lemma {:induction false} LastCallIs(parts: seq<Value>)
    requires forall p :: p in parts ==> GoodPart(p)
    ensures LastCall(parts).None? <==> forall p :: p in parts ==> !HasExtra(p)
    ensures forall j: nat :: IsLastExtra(parts, j) ==>
              LastCall(parts).Some? && KeepsCall(LastCall(parts).value, CallOf(parts[j]))
  {
    hide HasExtra, KeepsCall, CallExtra, Find, GoodPart;
    if parts != [] {
      var init, last := parts[..|parts| - 1], parts[|parts| - 1];
      assert last in parts;
      LastCallIs(init);
      OneCallExtra(last);
      assert forall p :: p in parts <==> p == last || p in init;
      LastCallStep(parts);
      forall j: nat | IsLastExtra(parts, j)
        ensures LastCall(parts).Some? && KeepsCall(LastCall(parts).value, CallOf(parts[j]))
      {
        if j < |parts| - 1 {
          assert !HasExtra(parts[|parts| - 1]);
          assert IsLastExtra(init, j) && init[j] == parts[j];
        }
      }
    }
  }

  lemma LastCallStep(parts: seq<Value>)
    requires parts != []
    ensures var call := match Get(parts[|parts| - 1], "functionCall") case Some(fc) => CallExtra(fc) case None => [];
            LastCall(parts) == if call != [] then Some(Object(call)) else LastCall(parts[..|parts| - 1])
  {
    hide CallExtra, Find;
  }

  lemma OneCallExtra(part: Value)
    requires GoodPart(part)
    ensures var call := match Get(part, "functionCall") case Some(fc) => CallExtra(fc) case None => [];
            && (call != [] <==> HasExtra(part))
            && (HasExtra(part) ==> KeepsCall(Object(call), CallOf(part)))
  {
    hide CallExtra, KeepsCall, Find, Distinct;
    if Get(part, "functionCall").Some? { CallIsKept(Get(part, "functionCall").value); }
  }

  // ------------------------------------------------------------------------------------ all of it

  const CALL_PATH := ["candidates", "0", "content", "parts", "0", "functionCall"]

  /** Of a Gemini event with text, its signature and its grounding are kept as they are, and of the last
      function call that has any its name and the arguments that are no strings; nothing else is kept, and
      there is no metadata only if there is none of these. */
  lemma MetadataIs(json: Value)
    requires Parsed(json)
    ensures Metadata(json).None? <==>
              && Get(json, "thoughtSignature").None? && Get(json, "groundingMetadata").None?
              && forall p :: p in Parts(json) ==> !HasExtra(p)
    ensures Metadata(json).Some? ==>
              var m := Metadata(json).value;
              && Get(m, "thoughtSignature") == Get(json, "thoughtSignature")
              && Get(m, "groundingMetadata") == Get(json, "groundingMetadata")
              && (forall j: nat :: IsLastExtra(Parts(json), j) ==>
                    && Pointer(m, CALL_PATH).Some?
                    && KeepsCall(Pointer(m, CALL_PATH).value, CallOf(Parts(json)[j])))
              && ((forall p :: p in Parts(json) ==> !HasExtra(p)) ==> Get(m, "candidates").None?)
              && m.Object?
              && forall x :: x in m.members ==> x.name in {"candidates", "groundingMetadata", "thoughtSignature"}
  {
    hide Find, Pointer, HasExtra, KeepsCall, LastCall, Parsed, GoodPart, Kept, IsLastExtra;
    KeptIs(json, "groundingMetadata");
    KeptIs(json, "thoughtSignature");
    var parts := Parts(json);
    PartsParsed(json);
    forall p | p in parts ensures GoodPart(p) { PartIsGood(p); }
    LastCallIs(parts);
    NoCall();
    var call := LastCall(parts);
    var first := match call case Some(c) => [Candidate(Member("functionCall", c)).members[0]] case None => [];
    var second, third := Kept(json, "groundingMetadata"), Kept(json, "thoughtSignature");
    assert Metadata(json) == if first + second + third == [] then None else Some(Object(first + second + third));
    FindInThree(first, second, third);
    if call.Some? && Metadata(json).Some? {
      KeptCallPlace(first + second + third, call.value);
    }
  }

  lemma KeptIs(v: Value, name: string)
    ensures |Kept(v, name)| <= 1 && (forall x :: x in Kept(v, name) ==> x.name == name)
    ensures Get(v, name) == if Kept(v, name) != [] then Some(Kept(v, name)[0].value) else None
  {
    hide Find;
  }

  lemma NoCall()
    ensures LastCall([]) == None
  {}

  lemma FindInThree(a: seq<Member>, b: seq<Member>, c: seq<Member>)
    requires |a| <= 1 && |b| <= 1 && |c| <= 1 && (forall x :: x in a ==> x.name == "candidates")
    requires (forall x :: x in b ==> x.name == "groundingMetadata") && (forall x :: x in c ==> x.name == "thoughtSignature")
    ensures Find(a + b + c, "candidates") == if a != [] then Some(a[0].value) else None
    ensures Find(a + b + c, "groundingMetadata") == if b != [] then Some(b[0].value) else None
    ensures Find(a + b + c, "thoughtSignature") == if c != [] then Some(c[0].value) else None
  {
    hide Find;
    ThreeNames();
    forall name | name == "candidates" || name == "groundingMetadata" || name == "thoughtSignature"
      ensures Find(a + b + c, name)
              == if Find(a, name).Some? then Find(a, name) else if Find(b, name).Some? then Find(b, name) else Find(c, name)
    {
      FindSum(a + b, c, name);
      FindSum(a, b, name);
    }
    forall name ensures Find(a, name) == if a != [] && name == "candidates" then Some(a[0].value) else None {
      FindOnly(a, "candidates", name);
    }
    forall name ensures Find(b, name) == if b != [] && name == "groundingMetadata" then Some(b[0].value) else None {
      FindOnly(b, "groundingMetadata", name);
    }
    forall name ensures Find(c, name) == if c != [] && name == "thoughtSignature" then Some(c[0].value) else None {
      FindOnly(c, "thoughtSignature", name);
    }
  }

  lemma ThreeNames()
    ensures "candidates" != "groundingMetadata" && "groundingMetadata" != "thoughtSignature"
    ensures "candidates" != "thoughtSignature"
  {
    assert |"candidates"| == 10 && |"groundingMetadata"| == 17 && |"thoughtSignature"| == 16;
  }

  lemma KeptCallPlace(members: seq<Member>, call: Value)
    requires Find(members, "candidates") == Some(Candidate(Member("functionCall", call)).members[0].value)
    ensures Pointer(Object(members), CALL_PATH) == Some(call)
  {
    hide Find, Pointer;
    var m := Member("functionCall", call);
    var path := ["candidates", "0", "content", "parts"];
    CandidatePointer(m);
    SameStart(members, Candidate(m).members, path);
    PointerStep(Object(members), path, "0");
    PointerStep(Object(members), path + ["0"], "functionCall");
    FindAt([m], 0);
    assert path + ["0"] + ["functionCall"] == CALL_PATH;
  }

  lemma SameStart(a: seq<Member>, b: seq<Member>, path: seq<string>)
    requires |b| == 1 && b[0].name == "candidates"
    requires path != [] && path[0] == "candidates" && Find(a, "candidates") == Some(b[0].value)
    ensures Pointer(Object(a), path) == Pointer(Object(b), path)
  {
    hide Find;
    FindAt(b, 0);
  }
}
