/** Small shared definitions. */
module Common {
  datatype Option<+T> = None | Some(value: T)

  /** The concatenation of a sequence of sequences. */
  function Concat<T>(parts: seq<seq<T>>): (whole: seq<T>) {
    if parts == [] then [] else parts[0] + Concat(parts[1..])
  }

  lemma Assoc<T>(a: seq<T>, b: seq<T>, c: seq<T>)
    ensures (a + b) + c == a + (b + c)
  {}

  lemma {:induction false} ConcatSum<T>(a: seq<seq<T>>, b: seq<seq<T>>)
    ensures Concat(a + b) == Concat(a) + Concat(b)
  {
    if a == [] {
      assert a + b == b;
    } else {
      ConcatSum(a[1..], b);
      assert (a + b)[1..] == a[1..] + b;
      Assoc(a[0], Concat(a[1..]), Concat(b));
    }
  }

  lemma ConcatNone<T>()
    ensures Concat<T>([]) == []
  {}

  lemma ConcatOne<T>(s: seq<T>)
    ensures Concat([s]) == s
  {
    ConcatNone<T>();
    assert s + [] == s;
  }

  lemma PrefixOf<T>(x: seq<T>, y: seq<T>, whole: seq<T>)
    requires x + y == whole
    ensures x <= whole
  {}

  lemma ConcatPush<T>(a: seq<seq<T>>, s: seq<T>)
    ensures Concat(a + [s]) == Concat(a) + s
  {
    ConcatSum(a, [s]);
    ConcatOne(s);
  }
}
