/** The normal form of a request body, and what is hashed of a request. */
module Normalize {
  import opened Common
  import opened Json
  import opened Order
  import opened SseFields
  import Utf8

  // -------------------------------------------------------------------------------- stripping

  /** The value without the listed names, in every object reached through objects only. */
  function Stripped(v: Value, fields: seq<string>): Value {
    match v
    case Object(members) => Object(StripMembers(members, fields))
    case _ => v
  }

  function StripMembers(members: seq<Member>, fields: seq<string>): seq<Member> {
    if members == [] then []
    else
      (if members[0].name in fields then [] else [Member(members[0].name, Stripped(members[0].value, fields))])
      + StripMembers(members[1..], fields)
  }

  /** `Map::remove`, for each of these names. */
  function Without(members: seq<Member>, names: seq<string>): seq<Member> {
    if members == [] then []
    else (if members[0].name in names then [] else [members[0]]) + Without(members[1..], names)
  }

  function EachStripped(members: seq<Member>, fields: seq<string>): seq<Member> {
    if members == [] then []
    else [Member(members[0].name, Stripped(members[0].value, fields))] + EachStripped(members[1..], fields)
  }

  /** Removes the listed names from an object, and then goes into the values that are left. */
  method StripFields(value: Value, fields: seq<string>) returns (stripped: Value)
    ensures stripped == Stripped(value, fields)
    decreases value, 1
  {
    hide StripMembers, Without;
    if !value.Object? {
      return value;
    }
    var members := value.members;
    WithoutNothing(members);
    for i := 0 to |fields|
      invariant members == Without(value.members, fields[..i])
    {
      WithoutTwice(value.members, fields[..i], [fields[i]]);
      assert fields[..i + 1] == fields[..i] + [fields[i]];
      members := Without(members, [fields[i]]);
    }
    assert fields[..|fields|] == fields;
    StripIsRemoveThenEnter(value.members, fields);
    WithoutSubset(value.members, fields);
    members := StripValues(value, members, fields);
    stripped := Object(members);
  }

  /** Strips the values of an object in place. */
  method StripValues(ghost value: Value, left: seq<Member>, fields: seq<string>) returns (members: seq<Member>)
    requires value.Object? && forall m :: m in left ==> m in value.members
    ensures members == EachStripped(left, fields)
    decreases value, 0
  {
    hide Stripped, EachStripped;
    members := left;
    EachNothing(fields);
    for i := 0 to |members|
      invariant |members| == |left|
      invariant members == EachStripped(left[..i], fields) + left[i..]
    {
      assert left[i] in value.members;
      EachPush(left[..i], left[i], fields);
      UpdateAt(EachStripped(left[..i], fields), left, i, Member(left[i].name, Stripped(left[i].value, fields)));
      var v := StripFields(members[i].value, fields);
      members := members[i := Member(members[i].name, v)];
    }
    assert left[..|left|] == left;
  }

  lemma EachNothing(fields: seq<string>)
    ensures EachStripped([], fields) == []
  {}

  lemma UpdateAt<T>(done: seq<T>, all: seq<T>, i: nat, x: T)
    requires i < |all| && |done| == i
    ensures (done + all[i..])[i] == all[i] && (done + all[i..])[i := x] == (done + [x]) + all[i + 1..]
    ensures all[..i + 1] == all[..i] + [all[i]]
  {
    assert all[i..] == [all[i]] + all[i + 1..];
  }

  lemma {:induction false} WithoutNothing(members: seq<Member>)
    ensures Without(members, []) == members
  {
    if members != [] {
      WithoutNothing(members[1..]);
      assert [members[0]] + members[1..] == members;
    }
  }

  lemma {:induction false} WithoutTwice(members: seq<Member>, a: seq<string>, b: seq<string>)
    ensures Without(Without(members, a), b) == Without(members, a + b)
  {
    if members != [] {
      WithoutTwice(members[1..], a, b);
      var rest := Without(members[1..], a);
      if members[0].name in a {
        assert [] + rest == rest;
      } else {
        assert ([members[0]] + rest)[1..] == rest;
      }
    }
  }

  lemma {:induction false} WithoutSubset(members: seq<Member>, names: seq<string>)
    ensures forall m :: m in Without(members, names) ==> m in members
  {
    if members != [] { WithoutSubset(members[1..], names); }
  }

  lemma {:induction false} StripIsRemoveThenEnter(members: seq<Member>, fields: seq<string>)
    ensures StripMembers(members, fields) == EachStripped(Without(members, fields), fields)
  {
    if members != [] {
      StripIsRemoveThenEnter(members[1..], fields);
      var rest := Without(members[1..], fields);
      if members[0].name in fields {
        assert [] + rest == rest;
      } else {
        assert ([members[0]] + rest)[1..] == rest;
      }
    }
  }

  lemma {:induction false} EachPush(members: seq<Member>, m: Member, fields: seq<string>)
    ensures EachStripped(members + [m], fields)
            == EachStripped(members, fields) + [Member(m.name, Stripped(m.value, fields))]
    ensures |EachStripped(members, fields)| == |members|
  {
    if members == [] {
      assert members + [m] == [m] && [m][1..] == [];
    } else {
      EachPush(members[1..], m, fields);
      assert (members + [m])[1..] == members[1..] + [m];
    }
  }

  // --------------------------------------------------------------------- what stripping means

  /** The value reached by going through these names, from object to object. */
  function At(v: Value, path: seq<string>): Option<Value>
    decreases |path|
  {
    if path == [] then Some(v)
    else match Get(v, path[0]) case Some(w) => At(w, path[1..]) case None => None
  }

  lemma {:induction false} FindStripped(members: seq<Member>, fields: seq<string>, name: string)
    ensures Find(StripMembers(members, fields), name)
            == (if name in fields then None
                else match Find(members, name) case Some(v) => Some(Stripped(v, fields)) case None => None)
  {
    hide Stripped;
    if members != [] {
      FindStripped(members[1..], fields, name);
      var rest := StripMembers(members[1..], fields);
      if members[0].name in fields {
        assert StripMembers(members, fields) == rest;
      } else {
        var m := Member(members[0].name, Stripped(members[0].value, fields));
        assert StripMembers(members, fields) == [m] + rest;
        assert ([m] + rest)[1..] == rest;
      }
    }
  }

  /** After stripping, a path through objects leads nowhere if it has a listed name on it, and else
      to the stripped value; what is no object, an array say, is reached unchanged. */
  lemma {:induction false} StripMeaning(v: Value, fields: seq<string>, path: seq<string>)
    ensures At(Stripped(v, fields), path)
            == (if exists n :: n in path && n in fields then None
                else match At(v, path) case Some(w) => Some(Stripped(w, fields)) case None => None)
    decreases |path|
  {
    hide Find;
    if path != [] {
      assert forall n :: n in path <==> n == path[0] || n in path[1..];
      if v.Object? {
        FindStripped(v.members, fields, path[0]);
        if Get(v, path[0]).Some? {
          StripMeaning(Get(v, path[0]).value, fields, path[1..]);
        }
      }
    }
  }

  /** Two passes strip what one pass with both lists strips. */
  lemma {:induction false} StripTwice(v: Value, a: seq<string>, b: seq<string>)
    ensures Stripped(Stripped(v, a), b) == Stripped(v, a + b)
    decreases v
  {
    if v.Object? { StripMembersTwice(v.members, a, b); }
  }

  lemma {:induction false} StripMembersTwice(members: seq<Member>, a: seq<string>, b: seq<string>)
    ensures StripMembers(StripMembers(members, a), b) == StripMembers(members, a + b)
    decreases members
  {
    if members != [] {
      var m := members[0];
      assert m in members;
      StripMembersTwice(members[1..], a, b);
      var rest := StripMembers(members[1..], a);
      if m.name in a {
        assert [] + rest == rest;
      } else {
        StripTwice(m.value, a, b);
        assert ([Member(m.name, Stripped(m.value, a))] + rest)[1..] == rest;
      }
    }
  }

  lemma {:induction false} StripSameSet(v: Value, a: seq<string>, b: seq<string>)
    requires forall n :: n in a <==> n in b
    ensures Stripped(v, a) == Stripped(v, b)
    decreases v
  {
    if v.Object? { StripMembersSameSet(v.members, a, b); }
  }

  lemma {:induction false} StripMembersSameSet(members: seq<Member>, a: seq<string>, b: seq<string>)
    requires forall n :: n in a <==> n in b
    ensures StripMembers(members, a) == StripMembers(members, b)
    decreases members
  {
    if members != [] {
      assert members[0] in members;
      StripSameSet(members[0].value, a, b);
      StripMembersSameSet(members[1..], a, b);
    }
  }

  // ----------------------------------------------------------------------------------- sorting

  /** The value with the members of every object in the order of their names. */
  function Sorted(v: Value): Value {
    match v
    case Object(members) => Object(SortMembers(EachSorted(members)))
    case Array(items) => Array(ItemsSorted(items))
    case _ => v
  }

  function EachSorted(members: seq<Member>): seq<Member> {
    if members == [] then []
    else [Member(members[0].name, Sorted(members[0].value))] + EachSorted(members[1..])
  }

  function ItemsSorted(items: seq<Value>): seq<Value> {
    if items == [] then [] else [Sorted(items[0])] + ItemsSorted(items[1..])
  }

  /** A stable sort by name. */
  function SortMembers(members: seq<Member>): seq<Member> {
    if members == [] then [] else Insert(members[0], SortMembers(members[1..]))
  }

  function Insert(m: Member, sorted: seq<Member>): seq<Member> {
    if sorted == [] then [m]
    else if StringLess(sorted[0].name, m.name) then [sorted[0]] + Insert(m, sorted[1..])
    else [m] + sorted
  }

  /** Sorts inside each value first, then the members, or goes through the items of an array. */
  method SortKeys(value: Value) returns (sorted: Value)
    ensures sorted == Sorted(value)
    decreases value, 1
  {
    hide EachSorted, ItemsSorted, SortMembers;
    match value {
      case Object(members) =>
        var pairs := SortValues(value);
        sorted := Object(SortMembers(pairs));
      case Array(items) =>
        var arr := SortItems(value);
        sorted := Array(arr);
      case _ =>
        sorted := value;
    }
  }

  method SortValues(value: Value) returns (pairs: seq<Member>)
    requires value.Object?
    ensures pairs == EachSorted(value.members)
    decreases value, 0
  {
    hide Sorted;
    var members := value.members;
    pairs := [];
    for i := 0 to |members|
      invariant pairs == EachSorted(members[..i])
    {
      assert members[i] in value.members;
      EachSortedPush(members[..i], members[i]);
      assert members[..i + 1] == members[..i] + [members[i]];
      var v := SortKeys(members[i].value);
      pairs := pairs + [Member(members[i].name, v)];
    }
    assert members[..|members|] == members;
  }

  method SortItems(value: Value) returns (arr: seq<Value>)
    requires value.Array?
    ensures arr == ItemsSorted(value.items)
    decreases value, 0
  {
    hide Sorted, ItemsSorted;
    var items := value.items;
    arr := items;
    NoItemsSorted();
    for i := 0 to |items|
      invariant |arr| == |items| && arr == ItemsSorted(items[..i]) + items[i..]
    {
      ItemsSortedPush(items[..i], items[i]);
      UpdateAt(ItemsSorted(items[..i]), items, i, Sorted(items[i]));
      assert items[i] in value.items;
      var v := SortKeys(arr[i]);
      arr := arr[i := v];
    }
    assert items[..|items|] == items;
  }

  lemma NoItemsSorted()
    ensures ItemsSorted([]) == []
  {}

  lemma {:induction false} EachSortedPush(members: seq<Member>, m: Member)
    ensures EachSorted(members + [m]) == EachSorted(members) + [Member(m.name, Sorted(m.value))]
  {
    if members == [] {
      assert members + [m] == [m] && [m][1..] == [];
    } else {
      EachSortedPush(members[1..], m);
      assert (members + [m])[1..] == members[1..] + [m];
    }
  }

  lemma {:induction false} ItemsSortedPush(items: seq<Value>, v: Value)
    ensures ItemsSorted(items + [v]) == ItemsSorted(items) + [Sorted(v)] && |ItemsSorted(items)| == |items|
  {
    if items == [] {
      assert items + [v] == [v] && [v][1..] == [];
    } else {
      ItemsSortedPush(items[1..], v);
      assert (items + [v])[1..] == items[1..] + [v];
    }
  }

  lemma {:induction false} ItemsSortedAt(items: seq<Value>)
    ensures |ItemsSorted(items)| == |items| && forall i :: 0 <= i < |items| ==> ItemsSorted(items)[i] == Sorted(items[i])
  {
    if items != [] { ItemsSortedAt(items[1..]); }
  }

  // ----------------------------------------------------------------------- sorted lists of members

  ghost predicate AllAfter(name: string, members: seq<Member>) {
    forall m :: m in members ==> StringLess(name, m.name)
  }

  lemma InOrderCons(m: Member, members: seq<Member>)
    ensures InOrder([m] + members) <==> InOrder(members) && AllAfter(m.name, members)
  {
    hide StringLess;
    var all := [m] + members;
    assert forall i :: 0 <= i < |members| ==> all[i + 1] == members[i];
    if InOrder(all) {
      forall i, j | 0 <= i < j < |members| ensures StringLess(members[i].name, members[j].name) {
        assert all[i + 1] == members[i] && all[j + 1] == members[j];
      }
      forall n | n in members ensures StringLess(m.name, n.name) {
        var i :| 0 <= i < |members| && members[i] == n;
        assert all[0] == m && all[i + 1] == n;
      }
    }
  }

  lemma {:induction false} InsertInOrder(m: Member, sorted: seq<Member>)
    requires InOrder(sorted) && forall n :: n in sorted ==> n.name != m.name
    ensures InOrder(Insert(m, sorted))
    ensures forall n :: n in Insert(m, sorted) <==> n == m || n in sorted
  {
    hide StringLess, InOrder;
    if sorted == [] {
      InOrderCons(m, []);
      assert [m] + [] == [m];
    } else {
      var s, t := sorted[0], sorted[1..];
      assert sorted == [s] + t;
      InOrderCons(s, t);
      StringOrder(s.name, m.name);
      if StringLess(s.name, m.name) {
        InsertInOrder(m, t);
        InOrderCons(s, Insert(m, t));
      } else {
        forall n | n in sorted ensures StringLess(m.name, n.name) {
          if n != s { StringTransitive(m.name, s.name, n.name); }
        }
        InOrderCons(m, sorted);
      }
    }
  }

  lemma {:induction false} SortInOrder(members: seq<Member>)
    requires Distinct(members)
    ensures InOrder(SortMembers(members))
    ensures forall n :: n in SortMembers(members) <==> n in members
  {
    hide Insert, InOrder;
    if members == [] {
      NothingInOrder();
    } else {
      DistinctTail(members);
      SortInOrder(members[1..]);
      InsertInOrder(members[0], SortMembers(members[1..]));
    }
  }

  lemma NothingInOrder()
    ensures InOrder([])
  {}

  lemma DistinctTail(members: seq<Member>)
    requires Distinct(members) && members != []
    ensures Distinct(members[1..]) && forall n :: n in members[1..] ==> n.name != members[0].name
  {
    assert forall i :: 0 <= i < |members[1..]| ==> members[1..][i] == members[i + 1];
  }

  /** In a map, a member is found by its name. */
  lemma {:induction false} FindMember(members: seq<Member>, m: Member)
    requires Distinct(members) && m in members
    ensures Find(members, m.name) == Some(m.value)
  {
    if members[0] != m {
      DistinctTail(members);
      FindMember(members[1..], m);
    }
  }

  /** Two sorted lists of the same members are the same list. */
  lemma {:induction false} OrderIsUnique(a: seq<Member>, b: seq<Member>)
    requires InOrder(a) && InOrder(b) && forall m :: m in a <==> m in b
    ensures a == b
  {
    hide StringLess, InOrder;
    if a == [] {
      if b != [] {
        HasMember(b);
      }
    } else {
      assert a[0] in a && a[0] in b;
      assert a == [a[0]] + a[1..] && b == [b[0]] + b[1..];
      InOrderCons(a[0], a[1..]);
      InOrderCons(b[0], b[1..]);
      SameHead(a, b);
      SameTail(a, b);
      OrderIsUnique(a[1..], b[1..]);
    }
  }

  lemma HasMember(b: seq<Member>)
    requires b != []
    ensures exists m :: m in b
  {
    assert b[0] in b;
  }

  lemma SameTail(a: seq<Member>, b: seq<Member>)
    requires a != [] && b != [] && AllAfter(a[0].name, a[1..]) && AllAfter(b[0].name, b[1..])
    requires a[0] == b[0] && forall m :: m in a <==> m in b
    ensures forall m :: m in a[1..] <==> m in b[1..]
  {
    hide StringLess;
    StringOrder(a[0].name, a[0].name);
    forall m ensures m in a[1..] <==> m in b[1..] {
      assert m in a <==> m == a[0] || m in a[1..];
      assert m in b <==> m == b[0] || m in b[1..];
    }
  }

  lemma SameHead(a: seq<Member>, b: seq<Member>)
    requires a != [] && b != [] && AllAfter(a[0].name, a[1..]) && AllAfter(b[0].name, b[1..])
    requires forall m :: m in a <==> m in b
    ensures a[0] == b[0]
  {
    hide StringLess;
    assert b[0] in b && b[0] in a && a[0] in b;
    if a[0] != b[0] {
      StringTransitive(a[0].name, b[0].name, a[0].name);
      StringOrder(a[0].name, a[0].name);
    }
  }

  // ------------------------------------------------------------------- the form is canonical

  /** Equal up to the order of the members of objects. */
  ghost predicate Same(v: Value, w: Value) {
    if v.Object? && w.Object? then
      && (forall m :: m in v.members ==> Find(w.members, m.name).Some? && Same(m.value, Find(w.members, m.name).value))
      && (forall m :: m in w.members ==> Find(v.members, m.name).Some?)
    else if v.Array? && w.Array? then
      |v.items| == |w.items| && forall i :: 0 <= i < |v.items| ==> Same(v.items[i], w.items[i])
    else v == w
  }

  lemma {:induction false} EachSortedMember(members: seq<Member>, n: Member)
    ensures n in EachSorted(members) <==> exists m :: m in members && n == Member(m.name, Sorted(m.value))
  {
    hide Sorted;
    if members != [] {
      EachSortedMember(members[1..], n);
      assert forall m :: m in members <==> m == members[0] || m in members[1..];
      if n == Member(members[0].name, Sorted(members[0].value)) {
        assert members[0] in members;
      }
    }
  }

  lemma {:induction false} EachSortedDistinct(members: seq<Member>)
    requires Distinct(members)
    ensures Distinct(EachSorted(members))
  {
    EachSortedAt(members);
  }

  lemma {:induction false} EachSortedAt(members: seq<Member>)
    ensures |EachSorted(members)| == |members|
    ensures forall i :: 0 <= i < |members| ==> EachSorted(members)[i] == Member(members[i].name, Sorted(members[i].value))
  {
    if members != [] { EachSortedAt(members[1..]); }
  }

  lemma MemberProper(v: Value, m: Member)
    requires Proper(v) && v.Object? && m in v.members
    ensures Proper(m.value)
  {
    var i :| 0 <= i < |v.members| && v.members[i] == m;
  }

  /** Values that differ only in the order of members have the same sorted form. */
  lemma {:induction false} SameHasOneForm(v: Value, w: Value)
    requires Proper(v) && Proper(w) && Same(v, w)
    ensures Sorted(v) == Sorted(w)
    decreases v
  {
    hide SortMembers, Distinct, StringLess, Utf8.Valid;
    if v.Object? && w.Object? {
      var a, b := EachSorted(v.members), EachSorted(w.members);
      assert Distinct(v.members) && Distinct(w.members);
      EachSortedDistinct(v.members);
      EachSortedDistinct(w.members);
      forall n ensures n in a <==> n in b {
        EachSortedMember(v.members, n);
        EachSortedMember(w.members, n);
        if n in a {
          var m :| m in v.members && n == Member(m.name, Sorted(m.value));
          PartnerHasSameForm(v, w, m);
        }
        if n in b {
          var m :| m in w.members && n == Member(m.name, Sorted(m.value));
          var k := Member(m.name, Find(v.members, m.name).value);
          assert k in v.members;
          PartnerHasSameForm(v, w, k);
          FindMember(w.members, m);
        }
      }
      SortInOrder(a);
      SortInOrder(b);
      OrderIsUnique(SortMembers(a), SortMembers(b));
    } else if v.Array? && w.Array? {
      forall i | 0 <= i < |v.items| ensures Sorted(v.items[i]) == Sorted(w.items[i]) {
        SameHasOneForm(v.items[i], w.items[i]);
      }
      ItemsSortedAt(v.items);
      ItemsSortedAt(w.items);
      assert ItemsSorted(v.items) == ItemsSorted(w.items);
    }
  }

  lemma {:induction false} PartnerHasSameForm(v: Value, w: Value, m: Member)
    requires Proper(v) && Proper(w) && Same(v, w) && v.Object? && w.Object? && m in v.members
    ensures Find(w.members, m.name).Some? && Sorted(Find(w.members, m.name).value) == Sorted(m.value)
    ensures Member(m.name, Find(w.members, m.name).value) in w.members
    decreases v, 0
  {
    hide Sorted, Distinct, Utf8.Valid;
    var x := Find(w.members, m.name).value;
    MemberProper(v, m);
    MemberProper(w, Member(m.name, x));
    SameHasOneForm(m.value, x);
  }

  /** Values with the same sorted form differ only in the order of members. */
  lemma {:induction false} OneFormIsSame(v: Value, w: Value)
    requires Proper(v) && Proper(w) && Sorted(v) == Sorted(w)
    ensures Same(v, w)
    decreases v
  {
    hide SortMembers, Distinct, StringLess, Utf8.Valid;
    if v.Object? && w.Object? {
      var a, b := EachSorted(v.members), EachSorted(w.members);
      assert Distinct(v.members) && Distinct(w.members);
      EachSortedDistinct(v.members);
      EachSortedDistinct(w.members);
      SortInOrder(a);
      SortInOrder(b);
      assert forall n :: n in a <==> n in b by {
        forall n ensures n in a <==> n in b {
          assert n in a <==> n in SortMembers(a);
          assert n in b <==> n in SortMembers(b);
        }
      }
      forall m | m in v.members
        ensures Find(w.members, m.name).Some? && Same(m.value, Find(w.members, m.name).value)
      {
        var x := Partner(v.members, w.members, m);
        FindMember(w.members, x);
        MemberProper(v, m);
        MemberProper(w, x);
        OneFormIsSame(m.value, x.value);
      }
      forall m | m in w.members ensures Find(v.members, m.name).Some? {
        var x := Partner(w.members, v.members, m);
        FindMember(v.members, x);
      }
    } else if v.Array? && w.Array? {
      ItemsSortedAt(v.items);
      ItemsSortedAt(w.items);
      forall i | 0 <= i < |v.items| ensures Same(v.items[i], w.items[i]) {
        assert ItemsSorted(v.items)[i] == ItemsSorted(w.items)[i];
        OneFormIsSame(v.items[i], w.items[i]);
      }
    }
  }

  lemma Partner(a: seq<Member>, b: seq<Member>, m: Member) returns (x: Member)
    requires m in a && forall n :: n in EachSorted(a) <==> n in EachSorted(b)
    ensures x in b && x.name == m.name && Sorted(x.value) == Sorted(m.value)
  {
    hide Sorted;
    var n := Member(m.name, Sorted(m.value));
    EachSortedMember(a, n);
    EachSortedMember(b, n);
    x :| x in b && n == Member(x.name, Sorted(x.value));
  }

  // --------------------------------------------------------------- sorting and stripping together

  /** The sorted form is one that parsing can yield. */
  lemma {:induction false} SortedIsParsed(v: Value)
    requires Proper(v)
    ensures Parsed(Sorted(v))
    decreases v
  {
    hide SortMembers, StringLess, Utf8.Valid;
    if v.Object? {
      var a := EachSorted(v.members);
      EachSortedDistinct(v.members);
      EachSortedAt(v.members);
      SortInOrder(a);
      var s := SortMembers(a);
      forall n | n in s ensures Utf8.Valid(n.name) && Parsed(n.value) {
        var i :| 0 <= i < |a| && a[i] == n;
        SortedIsParsed(v.members[i].value);
      }
    } else if v.Array? {
      ItemsSortedAt(v.items);
      forall i | 0 <= i < |v.items| ensures Parsed(Sorted(v.items[i])) {
        SortedIsParsed(v.items[i]);
      }
    }
  }

  /** What parsing yields is sorted already: there the sort changes nothing. */
  lemma {:induction false} ParsedIsSorted(v: Value)
    requires Parsed(v)
    ensures Sorted(v) == v
    decreases v
  {
    hide SortMembers, StringLess, Utf8.Valid, InOrder;
    if v.Object? {
      forall n | n in v.members ensures Sorted(n.value) == n.value {
        var i :| 0 <= i < |v.members| && v.members[i] == n;
        ParsedIsSorted(v.members[i].value);
      }
      EachFixed(v.members);
      OrderIsUnique(SortedAgain(v.members), v.members);
    } else if v.Array? {
      ItemsSortedAt(v.items);
      forall i | 0 <= i < |v.items| ensures Sorted(v.items[i]) == v.items[i] {
        ParsedIsSorted(v.items[i]);
      }
      assert ItemsSorted(v.items) == v.items;
    }
  }

  /** Sorting a list that is in order. */
  ghost function SortedAgain(s: seq<Member>): (r: seq<Member>)
    requires InOrder(s)
    ensures r == SortMembers(s) && InOrder(r) && forall n :: n in r <==> n in s
  {
    OrderIsDistinct(s);
    SortInOrder(s);
    SortMembers(s)
  }

  lemma {:induction false} EachFixed(s: seq<Member>)
    requires forall n :: n in s ==> Sorted(n.value) == n.value
    ensures EachSorted(s) == s
  {
    hide Sorted;
    if s != [] {
      assert s[0] in s;
      EachFixed(s[1..]);
      assert [s[0]] + s[1..] == s;
    }
  }

  lemma {:induction false} StripMemberOf(members: seq<Member>, fields: seq<string>, n: Member)
    ensures n in StripMembers(members, fields)
            <==> exists m :: m in members && m.name !in fields && n == Member(m.name, Stripped(m.value, fields))
  {
    hide Stripped;
    if members != [] {
      StripMemberOf(members[1..], fields, n);
      var h := members[0];
      assert forall m :: m in members <==> m == h || m in members[1..];
      if h.name !in fields && n == Member(h.name, Stripped(h.value, fields)) {
        assert h in members;
      }
    }
  }

  lemma {:induction false} StripInOrder(members: seq<Member>, fields: seq<string>)
    requires InOrder(members)
    ensures InOrder(StripMembers(members, fields))
  {
    hide StringLess, InOrder, Stripped;
    if members == [] {
      NothingInOrder();
    } else {
      var m, t := members[0], members[1..];
      assert members == [m] + t;
      InOrderCons(m, t);
      StripInOrder(t, fields);
      var rest := StripMembers(t, fields);
      if m.name in fields {
        assert [] + rest == rest;
      } else {
        forall n | n in rest ensures StringLess(m.name, n.name) {
          StripMemberOf(t, fields, n);
        }
        InOrderCons(Member(m.name, Stripped(m.value, fields)), rest);
      }
    }
  }

  lemma {:induction false} StripDistinct(members: seq<Member>, fields: seq<string>)
    requires Distinct(members)
    ensures Distinct(StripMembers(members, fields))
  {
    hide Stripped;
    if members != [] {
      DistinctTail(members);
      StripDistinct(members[1..], fields);
      var rest := StripMembers(members[1..], fields);
      forall n | n in rest ensures n.name != members[0].name {
        StripMemberOf(members[1..], fields, n);
      }
      if members[0].name in fields {
        assert [] + rest == rest;
      } else {
        DistinctCons(Member(members[0].name, Stripped(members[0].value, fields)), rest);
      }
    }
  }

  lemma DistinctCons(m: Member, members: seq<Member>)
    requires Distinct(members) && forall n :: n in members ==> n.name != m.name
    ensures Distinct([m] + members)
  {
    var all := [m] + members;
    assert forall i :: 1 <= i < |all| ==> all[i] == members[i - 1] && all[i] in members;
  }

  lemma {:induction false} StrippedIsProper(v: Value, fields: seq<string>)
    requires Proper(v)
    ensures Proper(Stripped(v, fields))
    decreases v
  {
    hide Utf8.Valid, StripMembers;
    if v.Object? {
      var s := StripMembers(v.members, fields);
      StripDistinct(v.members, fields);
      forall n | n in s ensures Utf8.Valid(n.name) && Proper(n.value) {
        StripMemberOf(v.members, fields, n);
        var m :| m in v.members && m.name !in fields && n == Member(m.name, Stripped(m.value, fields));
        MemberProper(v, m);
        NameUtf8(v, m);
        StrippedIsProper(m.value, fields);
      }
      assert forall i :: 0 <= i < |s| ==> s[i] in s;
    }
  }

  lemma NameUtf8(v: Value, m: Member)
    requires Proper(v) && v.Object? && m in v.members
    ensures Utf8.Valid(m.name)
  {
    hide Utf8.Valid;
    var i :| 0 <= i < |v.members| && v.members[i] == m;
  }

  /** It does not matter whether stripping or sorting comes first. */
  lemma {:induction false} StripCommutesWithSort(v: Value, fields: seq<string>)
    requires Proper(v)
    ensures Stripped(Sorted(v), fields) == Sorted(Stripped(v, fields))
    decreases v
  {
    hide Utf8.Valid, StripMembers, EachSorted, SortMembers, StringLess, InOrder;
    if v.Object? {
      var each := EachSorted(v.members);
      EachSortedDistinct(v.members);
      SortInOrder(each);
      var a := StripMembers(SortMembers(each), fields);
      StripInOrder(SortMembers(each), fields);
      StripDistinct(v.members, fields);
      var left := EachSorted(StripMembers(v.members, fields));
      EachSortedDistinct(StripMembers(v.members, fields));
      SortInOrder(left);
      forall n ensures n in a <==> n in left {
        BothWays(v, fields, n);
      }
      OrderIsUnique(a, SortMembers(left));
    }
  }

  lemma {:induction false} BothWays(v: Value, fields: seq<string>, n: Member)
    requires Proper(v) && v.Object?
    ensures n in StripMembers(SortMembers(EachSorted(v.members)), fields)
            <==> n in EachSorted(StripMembers(v.members, fields))
    decreases v, 0
  {
    hide Utf8.Valid, StripMembers, EachSorted, SortMembers, Sorted, Stripped, Distinct;
    var each := EachSorted(v.members);
    assert Distinct(v.members);
    EachSortedDistinct(v.members);
    SortInOrder(each);
    StripMemberOf(SortMembers(each), fields, n);
    EachSortedMember(StripMembers(v.members, fields), n);
    if n in StripMembers(SortMembers(each), fields) {
      var k :| k in SortMembers(each) && k.name !in fields && n == Member(k.name, Stripped(k.value, fields));
      EachSortedMember(v.members, k);
      var m :| m in v.members && k == Member(m.name, Sorted(m.value));
      MemberProper(v, m);
      StripCommutesWithSort(m.value, fields);
      StripMemberOf(v.members, fields, Member(m.name, Stripped(m.value, fields)));
    }
    if n in EachSorted(StripMembers(v.members, fields)) {
      var k :| k in StripMembers(v.members, fields) && n == Member(k.name, Sorted(k.value));
      StripMemberOf(v.members, fields, k);
      var m :| m in v.members && m.name !in fields && k == Member(m.name, Stripped(m.value, fields));
      MemberProper(v, m);
      StripCommutesWithSort(m.value, fields);
      EachSortedMember(v.members, Member(m.name, Sorted(m.value)));
    }
  }

  // ----------------------------------------------------------------------- the normal form

  /** The names that say something about transport, attribution or routing only. */
  function StripList(provider: Provider): seq<string> {
    match provider
    case Anthropic => ["metadata"]
    case OpenAi => ["user"]
    case OpenRouter => ["user", "provider", "route"]
    case Gemini => []
  }

  function Normalized(v: Value, provider: Provider): Value {
    Sorted(Stripped(Stripped(v, ["stream"]), StripList(provider)))
  }

  function AllStripped(provider: Provider): seq<string> {
    ["stream"] + StripList(provider)
  }

  /** Two values have one normal form exactly when they are equal, up to the order of members,
      after the listed names are deleted. */
  lemma NormalFormIsCanonical(v: Value, w: Value, provider: Provider)
    requires Proper(v) && Proper(w)
    ensures Normalized(v, provider) == Normalized(w, provider)
            <==> Same(Stripped(v, AllStripped(provider)), Stripped(w, AllStripped(provider)))
  {
    hide Stripped, Sorted, Same, Proper;
    var all := AllStripped(provider);
    StripTwice(v, ["stream"], StripList(provider));
    StripTwice(w, ["stream"], StripList(provider));
    StrippedIsProper(v, all);
    StrippedIsProper(w, all);
    if Same(Stripped(v, all), Stripped(w, all)) {
      SameHasOneForm(Stripped(v, all), Stripped(w, all));
    }
    if Sorted(Stripped(v, all)) == Sorted(Stripped(w, all)) {
      OneFormIsSame(Stripped(v, all), Stripped(w, all));
    }
  }

  lemma NormalFormIsStable(v: Value, provider: Provider)
    requires Proper(v)
    ensures Parsed(Normalized(v, provider))
    ensures Normalized(Normalized(v, provider), provider) == Normalized(v, provider)
  {
    hide Stripped, Sorted, Proper, Parsed;
    var all := AllStripped(provider);
    var s := Stripped(v, all);
    StripTwice(v, ["stream"], StripList(provider));
    StrippedIsProper(v, all);
    SortedIsParsed(s);
    ParsedIsSorted(Sorted(s));
    StripTwice(Sorted(s), ["stream"], StripList(provider));
    StripCommutesWithSort(s, all);
    StripTwice(v, all, all);
    StripSameSet(v, all + all, all);
  }

  // ------------------------------------------------------------------ what the normal form forgets

  /** The names that are deleted, for each provider. */
  predicate Forgotten(provider: Provider, name: string) {
    || name == "stream"
    || (provider.Anthropic? && name == "metadata")
    || (provider.OpenAi? && name == "user")
    || (provider.OpenRouter? && (name == "user" || name == "provider" || name == "route"))
  }

  lemma ForgottenIff(provider: Provider, name: string)
    ensures name in AllStripped(provider) <==> Forgotten(provider, name)
  {}

  lemma {:induction false} FindInOrder(members: seq<Member>, m: Member)
    requires Distinct(members) && m in members
    ensures Find(members, m.name) == Some(m.value)
  {
    DistinctTail(members);
    if members[0] != m {
      FindInOrder(members[1..], m);
    }
  }

  lemma FindSorted(members: seq<Member>, name: string)
    requires Distinct(members)
    ensures Find(SortMembers(EachSorted(members)), name)
            == match Find(members, name) case Some(w) => Some(Sorted(w)) case None => None
  {
    hide Find, Sorted, SortMembers, EachSorted, Distinct, InOrder;
    var a := EachSorted(members);
    var s := SortMembers(a);
    EachSortedDistinct(members);
    SortInOrder(a);
    OrderIsDistinct(s);
    match Find(members, name) {
      case Some(w) =>
        assert Member(name, w) in members;
        EachSortedMember(members, Member(name, Sorted(w)));
        FindInOrder(s, Member(name, Sorted(w)));
      case None =>
        forall k | 0 <= k < |s| ensures s[k].name != name {
          assert s[k] in s;
          EachSortedMember(members, s[k]);
          if s[k].name == name {
            var m :| m in members && s[k] == Member(m.name, Sorted(m.value));
            FindInOrder(members, m);
          }
        }
        FindNone(s, name);
    }
  }

  /** The sorted form has the same places. */
  lemma {:induction false} SortedAt(v: Value, path: seq<string>)
    requires Proper(v)
    ensures At(Sorted(v), path) == match At(v, path) case Some(w) => Some(Sorted(w)) case None => None
    decreases |path|
  {
    hide Find, SortMembers, EachSorted, Distinct, Utf8.Valid;
    if path != [] && v.Object? {
      FindSorted(v.members, path[0]);
      var w := Find(v.members, path[0]);
      if w.Some? {
        MemberProper(v, Member(path[0], w.value));
        SortedAt(w.value, path[1..]);
      }
    }
  }

  /** Place by place, through objects: the normal form has what was there, normalised, unless a name on
      the way is one of those that are deleted. */
  lemma NormalFormAt(v: Value, provider: Provider, path: seq<string>)
    requires Proper(v)
    ensures At(Normalized(v, provider), path)
            == (if exists n :: n in path && Forgotten(provider, n) then None
                else match At(v, path) case Some(w) => Some(Normalized(w, provider)) case None => None)
  {
    hide At, Sorted, Stripped, Proper, Forgotten, AllStripped, StripList;
    var all := AllStripped(provider);
    StripTwice(v, ["stream"], StripList(provider));
    AllStrippedIs(provider);
    StrippedIsProper(v, all);
    SortedAt(Stripped(v, all), path);
    StripMeaning(v, all, path);
    forall n ensures n in all <==> Forgotten(provider, n) { ForgottenIff(provider, n); }
    if At(v, path).Some? {
      StripTwice(At(v, path).value, ["stream"], StripList(provider));
    }
  }

  lemma AllStrippedIs(provider: Provider)
    ensures AllStripped(provider) == ["stream"] + StripList(provider)
  {}

  /** An object with `x` in one place, among other members. */
  function With(before: seq<Member>, name: string, x: Value, after: seq<Member>): Value {
    Object(before + [Member(name, x)] + after)
  }

  lemma {:induction false} StripSum(a: seq<Member>, b: seq<Member>, fields: seq<string>)
    ensures StripMembers(a + b, fields) == StripMembers(a, fields) + StripMembers(b, fields)
  {
    hide Stripped;
    if a == [] {
      assert a + b == b;
    } else {
      StripSum(a[1..], b, fields);
      assert (a + b)[1..] == a[1..] + b;
      Assoc(if a[0].name in fields then [] else [Member(a[0].name, Stripped(a[0].value, fields))],
            StripMembers(a[1..], fields), StripMembers(b, fields));
    }
  }

  lemma {:induction false} EachSum(a: seq<Member>, b: seq<Member>)
    ensures EachSorted(a + b) == EachSorted(a) + EachSorted(b)
  {
    hide Sorted;
    if a == [] {
      assert a + b == b;
    } else {
      EachSum(a[1..], b);
      assert (a + b)[1..] == a[1..] + b;
      Assoc([Member(a[0].name, Sorted(a[0].value))], EachSorted(a[1..]), EachSorted(b));
    }
  }

  lemma OneStripped(m: Member, fields: seq<string>)
    ensures StripMembers([m], fields) == if m.name in fields then [] else [Member(m.name, Stripped(m.value, fields))]
  {
    hide Stripped;
    assert [m][1..] == [];
  }

  lemma OneEach(m: Member)
    ensures EachSorted([m]) == [Member(m.name, Sorted(m.value))]
  {
    hide Sorted;
    assert [m][1..] == [];
  }

  /** The normal form of an object does not depend on a deleted member, and on another only as far as the
      normal form of its value. */
  lemma SameOthers(before: seq<Member>, name: string, x: Value, y: Value, after: seq<Member>, provider: Provider)
    requires Forgotten(provider, name) || Normalized(x, provider) == Normalized(y, provider)
    ensures Normalized(With(before, name, x, after), provider) == Normalized(With(before, name, y, after), provider)
  {
    hide StripMembers, EachSorted, SortMembers, Forgotten, AllStripped, StripList;
    var all := AllStripped(provider);
    AllStrippedIs(provider);
    ForgottenIff(provider, name);
    forall z | z == x || z == y
      ensures Normalized(With(before, name, z, after), provider)
              == Object(SortMembers(EachSorted(StripMembers(before, all))
                                    + (if Forgotten(provider, name) then [] else [Member(name, Normalized(z, provider))])
                                    + EachSorted(StripMembers(after, all))))
    {
      WithNormalized(before, name, z, after, provider, all);
    }
  }

  lemma WithNormalized(before: seq<Member>, name: string, z: Value, after: seq<Member>, provider: Provider, all: seq<string>)
    requires all == AllStripped(provider)
    ensures Normalized(With(before, name, z, after), provider)
            == Object(SortMembers(EachSorted(StripMembers(before, all))
                                  + (if Forgotten(provider, name) then [] else [Member(name, Normalized(z, provider))])
                                  + EachSorted(StripMembers(after, all))))
  {
    hide StripMembers, EachSorted, SortMembers, Forgotten, AllStripped, StripList;
    var v, m := With(before, name, z, after), Member(name, z);
    AllStrippedIs(provider);
    ForgottenIff(provider, name);
    StripTwice(v, ["stream"], StripList(provider));
    StripTwice(z, ["stream"], StripList(provider));
    StripSum(before + [m], after, all);
    StripSum(before, [m], all);
    OneStripped(m, all);
    var mid := StripMembers([m], all);
    EachSum(StripMembers(before, all) + mid, StripMembers(after, all));
    EachSum(StripMembers(before, all), mid);
    if name in all {
      NothingEach();
    } else {
      OneEach(Member(name, Stripped(z, all)));
    }
  }

  lemma NothingEach()
    ensures EachSorted([]) == []
  {}

  /** Two objects that differ in one member have one normal form exactly if the name of that member is
      deleted, or its two values have one normal form. */
  lemma OneMemberMatters(before: seq<Member>, name: string, x: Value, y: Value, after: seq<Member>, provider: Provider)
    requires Proper(With(before, name, x, after)) && Proper(With(before, name, y, after))
    ensures Normalized(With(before, name, x, after), provider) == Normalized(With(before, name, y, after), provider)
            <==> Forgotten(provider, name) || Normalized(x, provider) == Normalized(y, provider)
  {
    hide Normalized, Proper, Forgotten, At;
    if Forgotten(provider, name) || Normalized(x, provider) == Normalized(y, provider) {
      SameOthers(before, name, x, y, after, provider);
    } else {
      WithAt(before, name, x, after, provider);
      WithAt(before, name, y, after, provider);
    }
  }

  lemma WithAt(before: seq<Member>, name: string, x: Value, after: seq<Member>, provider: Provider)
    requires Proper(With(before, name, x, after)) && !Forgotten(provider, name)
    ensures At(Normalized(With(before, name, x, after), provider), [name]) == Some(Normalized(x, provider))
  {
    hide Normalized, Forgotten, Utf8.Valid;
    var v := With(before, name, x, after);
    NormalFormAt(v, provider, [name]);
    assert Member(name, x) in v.members;
    FindInOrder(v.members, Member(name, x));
    assert [name][1..] == [];
    assert At(v, [name]) == Some(x);
  }

  // ---------------------------------------------------------------------------- what is hashed

  /** The functions that are not modelled: the JSON codec, the lossy reading of bytes as UTF-8, and
      the digest. */
  datatype Hashing = Hashing(codec: Codec, lossy: string -> string, digest: string -> string)

  /** The codec is faithful and reads UTF-8 only; and the lossy reading leaves UTF-8 as it is. */
  ghost predicate Reliable(h: Hashing) {
    && Faithful(h.codec)
    && (forall s :: h.codec.parse(s).Some? ==> Utf8.Valid(s))
    && (forall s :: Utf8.Valid(s) ==> h.lossy(s) == s)
  }

  function NormalText(h: Hashing, provider: Provider, body: string): string {
    match h.codec.parse(body)
    case Some(v) => h.codec.show(Normalized(v, provider))
    case None => h.lossy(body)
  }

  method NormalizeBody(h: Hashing, provider: Provider, body: string) returns (normalized: string)
    ensures normalized == NormalText(h, provider, body)
  {
    hide Stripped, Sorted;
    var parsed := h.codec.parse(body);
    if parsed.None? {
      return h.lossy(body);
    }
    var value := StripFields(parsed.value, ["stream"]);
    value := StripFields(value, StripList(provider));
    value := SortKeys(value);
    normalized := h.codec.show(value);
  }

  function HashInput(verb: string, path: string, normalized: string): string {
    verb + "|" + path + "|" + normalized
  }

  function KeyOf(h: Hashing, provider: Provider, verb: string, path: string, body: string): string {
    h.digest(HashInput(verb, path, NormalText(h, provider, body)))
  }

  method CacheKey(h: Hashing, provider: Provider, verb: string, path: string, body: string) returns (key: string)
    ensures key == KeyOf(h, provider, verb, path, body)
  {
    var normalized := NormalizeBody(h, provider, body);
    var hashed := verb;
    hashed := hashed + "|";
    hashed := hashed + path;
    hashed := hashed + "|";
    hashed := hashed + normalized;
    key := h.digest(hashed);
  }

  /** The same key, and the model that the body names. */
  method CacheKeyAndModel(h: Hashing, provider: Provider, verb: string, path: string, body: string)
    returns (key: string, model: Option<string>)
    ensures key == KeyOf(h, provider, verb, path, body)
    ensures model == match h.codec.parse(body) case Some(v) => AsString(Get(v, "model")) case None => None
  {
    var parsed := h.codec.parse(body);
    model := match parsed case Some(v) => AsString(Get(v, "model")) case None => None;
    var normalized := NormalizeBody(h, provider, body);
    var hashed := verb;
    hashed := hashed + "|";
    hashed := hashed + path;
    hashed := hashed + "|";
    hashed := hashed + normalized;
    key := h.digest(hashed);
  }

  /** What is hashed before the body. */
  function Head(verb: string, path: string): string {
    verb + "|" + path + "|"
  }

  /** Neither is the start of the other. */
  predicate Apart(s: string, t: string) {
    !(s <= t) && !(t <= s)
  }

  /** Two methods and paths can be hashed as one string, with bodies that fit, exactly if what comes
      before one body starts what comes before the other. */
  lemma HashInputAmbiguousIff(m1: string, p1: string, m2: string, p2: string)
    ensures (exists n1, n2 :: HashInput(m1, p1, n1) == HashInput(m2, p2, n2)) <==> !Apart(Head(m1, p1), Head(m2, p2))
  {
    var h1, h2 := Head(m1, p1), Head(m2, p2);
    if n1, n2 :| HashInput(m1, p1, n1) == HashInput(m2, p2, n2) {
      assert h1 + n1 == h2 + n2;
      assert (h1 + n1)[..|h1|] == h1 && (h2 + n2)[..|h2|] == h2;
    }
    if h1 <= h2 {
      assert h1 + h2[|h1|..] == h2 + "";
      assert HashInput(m1, p1, h2[|h1|..]) == HashInput(m2, p2, "");
    }
    if h2 <= h1 {
      assert h2 + h1[|h2|..] == h1 + "";
      assert HashInput(m1, p1, "") == HashInput(m2, p2, h1[|h2|..]);
    }
  }

  /** So the three parts can be read off the hashed string, unless the method and the path are others
      and what comes before one body starts what comes before the other. */
  lemma HashInputInjective(m1: string, p1: string, n1: string, m2: string, p2: string, n2: string)
    requires (m1 == m2 && p1 == p2) || Apart(Head(m1, p1), Head(m2, p2))
    requires HashInput(m1, p1, n1) == HashInput(m2, p2, n2)
    ensures m1 == m2 && p1 == p2 && n1 == n2
  {
    HashInputAmbiguousIff(m1, p1, m2, p2);
    assert HashInput(m1, p1, n1)[|Head(m1, p1)|..] == n1;
    assert HashInput(m2, p2, n2)[|Head(m2, p2)|..] == n2;
  }

  /** Without a '|' in them, the method and the path can always be told apart. */
  lemma NoBarIsApart(m1: string, p1: string, m2: string, p2: string)
    requires '|' !in m1 && '|' !in m2 && '|' !in p1 && '|' !in p2
    ensures (m1 == m2 && p1 == p2) || Apart(Head(m1, p1), Head(m2, p2))
  {
    if !Apart(Head(m1, p1), Head(m2, p2)) {
      HashInputAmbiguousIff(m1, p1, m2, p2);
      var n1, n2 :| HashInput(m1, p1, n1) == HashInput(m2, p2, n2);
      assert HashInput(m1, p1, n1) == m1 + ("|" + (p1 + ("|" + n1)));
      assert HashInput(m2, p2, n2) == m2 + ("|" + (p2 + ("|" + n2)));
      CutAtBar(m1, p1 + ("|" + n1), m2, p2 + ("|" + n2));
      CutAtBar(p1, n1, p2, n2);
    }
  }

  lemma {:induction false} CutAtBar(a: string, x: string, b: string, y: string)
    requires '|' !in a && '|' !in b && a + ("|" + x) == b + ("|" + y)
    ensures a == b && x == y
  {
    var s, t := a + ("|" + x), b + ("|" + y);
    assert a == "" ==> s[0] == '|';
    assert b == "" ==> t[0] == '|';
    assert a != "" ==> s[0] == a[0];
    assert b != "" ==> t[0] == b[0];
    if a == "" {
      assert s[1..] == x && t[1..] == y;
    } else {
      assert s[1..] == a[1..] + ("|" + x) && t[1..] == b[1..] + ("|" + y);
      CutAtBar(a[1..], x, b[1..], y);
      assert a == [a[0]] + a[1..] && b == [b[0]] + b[1..];
    }
  }

  /** Bodies that are hashed as one text: JSON that is equal up to what normalisation forgets, or bytes
      whose lossy reading is the same. */
  ghost predicate SameText(h: Hashing, provider: Provider, a: string, b: string) {
    match (h.codec.parse(a), h.codec.parse(b))
    case (Some(v), Some(w)) => Same(Stripped(v, AllStripped(provider)), Stripped(w, AllStripped(provider)))
    case (None, None) => h.lossy(a) == h.lossy(b)
    case (Some(v), None) => h.codec.show(Normalized(v, provider)) == h.lossy(b)
    case (None, Some(w)) => h.lossy(a) == h.codec.show(Normalized(w, provider))
  }

  /** The bodies are JSON and equal up to what normalisation forgets, or the same bytes. */
  ghost predicate SameBody(h: Hashing, provider: Provider, a: string, b: string) {
    match (h.codec.parse(a), h.codec.parse(b))
    case (Some(v), Some(w)) => Same(Stripped(v, AllStripped(provider)), Stripped(w, AllStripped(provider)))
    case (None, None) => a == b
    case _ => false
  }

  /** Bodies, whatever their bytes, have one normal text exactly when they are hashed as one text in
      that sense. */
  lemma NormalTextIsCanonical(h: Hashing, provider: Provider, a: string, b: string)
    requires Faithful(h.codec)
    ensures NormalText(h, provider, a) == NormalText(h, provider, b) <==> SameText(h, provider, a, b)
  {
    hide Normalized, Same, Stripped, Proper, Parsed;
    var v, w := h.codec.parse(a), h.codec.parse(b);
    if v.Some? { NormalTextReadsBack(h, provider, v.value); }
    if w.Some? { NormalTextReadsBack(h, provider, w.value); }
    if v.Some? && w.Some? {
      NormalFormIsCanonical(v.value, w.value, provider);
    }
  }

  lemma NormalTextReadsBack(h: Hashing, provider: Provider, v: Value)
    requires Faithful(h.codec) && Parsed(v)
    ensures Proper(v)
    ensures h.codec.parse(h.codec.show(Normalized(v, provider))) == Some(Normalized(v, provider))
  {
    hide Normalized, Proper, Parsed;
    ParsedIsProper(v);
    NormalFormIsStable(v, provider);
  }

  /** Bodies that are hashed as one text are the same exactly when both are UTF-8, or when they are
      the same bytes anyway. */
  lemma SameBodyIff(h: Hashing, provider: Provider, a: string, b: string)
    requires Reliable(h)
    ensures SameBody(h, provider, a, b)
            <==> SameText(h, provider, a, b) && (a == b || (Utf8.Valid(a) && Utf8.Valid(b)))
  {
    hide Normalized, Same, Stripped, Utf8.Valid, Proper, Parsed;
    var v, w := h.codec.parse(a), h.codec.parse(b);
    if v.Some? { NormalTextReadsBack(h, provider, v.value); }
    if w.Some? { NormalTextReadsBack(h, provider, w.value); }
    if a == b && v.Some? {
      NormalFormIsCanonical(v.value, v.value, provider);
    }
  }

  /** The hashed string determines the request: its method, its path, and its body up to what
      normalisation and the lossy reading forget. */
  lemma HashInputDeterminesRequest(h: Hashing, provider: Provider, m1: string, p1: string, a: string,
                                   m2: string, p2: string, b: string)
    requires Faithful(h.codec)
    requires (m1 == m2 && p1 == p2) || Apart(Head(m1, p1), Head(m2, p2))
    ensures HashInput(m1, p1, NormalText(h, provider, a)) == HashInput(m2, p2, NormalText(h, provider, b))
            <==> m1 == m2 && p1 == p2 && SameText(h, provider, a, b)
  {
    hide NormalText, HashInput, SameText, Faithful;
    NormalTextIsCanonical(h, provider, a, b);
    if HashInput(m1, p1, NormalText(h, provider, a)) == HashInput(m2, p2, NormalText(h, provider, b)) {
      HashInputInjective(m1, p1, NormalText(h, provider, a), m2, p2, NormalText(h, provider, b));
    }
  }
}
