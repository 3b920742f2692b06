/** The order of keys in a sorted map. */
module Order {

  /** Lexicographic order. */
  predicate LexLess(a: seq<int>, b: seq<int>) {
    b != [] && (a == [] || a[0] < b[0] || (a[0] == b[0] && LexLess(a[1..], b[1..])))
  }

  lemma {:induction false} LexIrreflexive(a: seq<int>)
    ensures !LexLess(a, a)
  {
    if a != [] { LexIrreflexive(a[1..]); }
  }

  lemma {:induction false} LexTransitive(a: seq<int>, b: seq<int>, c: seq<int>)
    requires LexLess(a, b) && LexLess(b, c)
    ensures LexLess(a, c)
  {
    if a != [] && a[0] == b[0] == c[0] { LexTransitive(a[1..], b[1..], c[1..]); }
  }

  lemma {:induction false} LexTotal(a: seq<int>, b: seq<int>)
    ensures LexLess(a, b) || a == b || LexLess(b, a)
  {
    if a != [] && b != [] && a[0] == b[0] {
      LexTotal(a[1..], b[1..]);
      if a[1..] == b[1..] {
        assert a == [a[0]] + a[1..] == b;
      }
    }
  }

  /** A string as numbers, closed by 0, so that a proper prefix comes first and more may follow. */
  function Code(s: string): (c: seq<int>) {
    if s == "" then [0] else [s[0] as int + 1] + Code(s[1..])
  }

  lemma {:induction false} CodeInjective(s: string, x: seq<int>, t: string, y: seq<int>)
    requires Code(s) + x == Code(t) + y
    ensures s == t && x == y
  {
    if s == "" || t == "" {
      assert (Code(s) + x)[0] == Code(s)[0] && (Code(t) + y)[0] == Code(t)[0];
      assert s == t;
      assert (Code(s) + x)[1..] == x && (Code(t) + y)[1..] == y;
    } else {
      assert (Code(s) + x)[0] == s[0] as int + 1 && (Code(t) + y)[0] == t[0] as int + 1;
      assert (Code(s) + x)[1..] == Code(s[1..]) + x && (Code(t) + y)[1..] == Code(t[1..]) + y;
      CodeInjective(s[1..], x, t[1..], y);
      assert s == [s[0]] + s[1..] && t == [t[0]] + t[1..];
    }
  }

  /** Strings in byte order. */
  predicate StringLess(s: string, t: string) {
    LexLess(Code(s), Code(t))
  }

  lemma StringOrder(s: string, t: string)
    ensures !StringLess(s, s)
    ensures StringLess(s, t) || s == t || StringLess(t, s)
  {
    LexIrreflexive(Code(s));
    LexTotal(Code(s), Code(t));
    if Code(s) == Code(t) {
      CodeInjective(s, [], t, []);
    }
  }

  lemma StringTransitive(a: string, b: string, c: string)
    requires StringLess(a, b) && StringLess(b, c)
    ensures StringLess(a, c)
  {
    LexTransitive(Code(a), Code(b), Code(c));
  }

  /** `s` and `t` agree before `i`, and there `s` has the smaller byte. */
  predicate DiffersAt(s: string, t: string, i: nat) {
    i < |s| && i < |t| && s[..i] == t[..i] && s[i] < t[i]
  }

  /** A string comes before another exactly if it is a proper prefix of it, or has the smaller byte where
      the two first differ. */
  lemma {:induction false} StringLessIff(s: string, t: string)
    ensures StringLess(s, t) <==> (s <= t && s != t) || exists i: nat :: DiffersAt(s, t, i)
  {
    hide StringLess, DiffersAt;
    if s == "" || t == "" {
      EmptyLess(s, t);
    } else {
      StringLessIff(s[1..], t[1..]);
      LessStep(s, t);
      DiffersStep(s, t);
      assert s == [s[0]] + s[1..] && t == [t[0]] + t[1..];
    }
  }

  lemma EmptyLess(s: string, t: string)
    requires s == "" || t == ""
    ensures StringLess(s, t) <==> t != ""
    ensures forall i: nat :: !DiffersAt(s, t, i)
  {
    assert Code(s)[0] == (if s == "" then 0 else s[0] as int + 1);
    assert Code(t)[0] == (if t == "" then 0 else t[0] as int + 1);
    assert !LexLess([], []);
  }

  lemma LessStep(s: string, t: string)
    requires s != "" && t != ""
    ensures StringLess(s, t) <==> s[0] < t[0] || (s[0] == t[0] && StringLess(s[1..], t[1..]))
  {
    CodeStep(s);
    CodeStep(t);
  }

  lemma DiffersStep(s: string, t: string)
    requires s != "" && t != ""
    ensures (exists i: nat :: DiffersAt(s, t, i))
            <==> s[0] < t[0] || (s[0] == t[0] && exists i: nat :: DiffersAt(s[1..], t[1..], i))
  {
    if s[0] < t[0] {
      assert DiffersAt(s, t, 0);
    } else if s[0] == t[0] {
      if i: nat :| DiffersAt(s[1..], t[1..], i) {
        assert s[..i + 1] == [s[0]] + s[1..][..i] && t[..i + 1] == [t[0]] + t[1..][..i];
        assert DiffersAt(s, t, i + 1);
      }
      if i: nat :| DiffersAt(s, t, i) {
        assert i > 0 && s[1..][..i - 1] == s[..i][1..] && t[1..][..i - 1] == t[..i][1..];
        assert DiffersAt(s[1..], t[1..], i - 1);
      }
    } else {
      forall i: nat ensures DiffersAt(s, t, i) ==> s[0] <= t[0] { FirstBytes(s, t, i); }
    }
  }

  lemma FirstBytes(s: string, t: string, i: nat)
    requires s != "" && t != ""
    ensures DiffersAt(s, t, i) ==> s[0] <= t[0]
  {
    if i > 0 && i < |s| && i < |t| {
      assert s[..i][0] == s[0] && t[..i][0] == t[0];
    }
  }

  lemma CodeStep(s: string)
    requires s != ""
    ensures Code(s)[0] == s[0] as int + 1 && Code(s)[1..] == Code(s[1..]) && Code(s) != []
  {}
}
