/** Order-preserving selection from a sequence, shared by the table models. */
module Select {

  datatype Option<+T> = None | Some(value: T)

  function Keep<T>(t: seq<T>, p: T -> bool): seq<T> {
    if t == [] then [] else (if p(t[0]) then [t[0]] else []) + Keep(t[1..], p)
  }

  lemma {:induction false} KeepMembers<T>(t: seq<T>, p: T -> bool)
    ensures forall x :: x in Keep(t, p) <==> x in t && p(x)
    ensures |Keep(t, p)| <= |t|
  {
    if t != [] {
      KeepMembers(t[1..], p);
      assert forall x :: x in t <==> x == t[0] || x in t[1..];
    }
  }

  lemma {:induction false} KeepConcat<T>(a: seq<T>, b: seq<T>, p: T -> bool)
    ensures Keep(a + b, p) == Keep(a, p) + Keep(b, p)
  {
    if a == [] {
      assert a + b == b;
      assert [] + Keep(b, p) == Keep(b, p);
    } else {
      var head := if p(a[0]) then [a[0]] else [];
      assert (a + b)[0] == a[0] && (a + b)[1..] == a[1..] + b;
      KeepConcat(a[1..], b, p);
      assert Keep(a + b, p) == head + (Keep(a[1..], p) + Keep(b, p));
      assert head + (Keep(a[1..], p) + Keep(b, p)) == (head + Keep(a[1..], p)) + Keep(b, p);
    }
  }

  lemma {:induction false} KeepNone<T>(t: seq<T>, p: T -> bool)
    requires forall x | x in t :: !p(x)
    ensures Keep(t, p) == []
  {
    if t != [] {
      assert t[0] in t;
      KeepNone(t[1..], p);
    }
  }

  lemma {:induction false} KeepAll<T>(t: seq<T>, p: T -> bool)
    requires forall x | x in t :: p(x)
    ensures Keep(t, p) == t
  {
    if t != [] {
      assert t[0] in t;
      KeepAll(t[1..], p);
    }
  }

  /** A first selection that passes everything the second one wants changes nothing. */
  lemma {:induction false} KeepKeep<T>(t: seq<T>, p: T -> bool, q: T -> bool)
    requires forall x | x in t && q(x) :: p(x)
    ensures Keep(Keep(t, p), q) == Keep(t, q)
  {
    if t != [] {
      assert t[0] in t;
      KeepKeep(t[1..], p, q);
      KeepConcat(if p(t[0]) then [t[0]] else [], Keep(t[1..], p), q);
    }
  }

  /** The two halves of a split have the length of the whole. */
  lemma {:induction false} KeepSplit<T>(t: seq<T>, p: T -> bool, q: T -> bool)
    requires forall x | x in t :: p(x) != q(x)
    ensures |Keep(t, p)| + |Keep(t, q)| == |t|
  {
    if t != [] {
      assert t[0] in t;
      KeepSplit(t[1..], p, q);
    }
  }

  // ---- insertion, the step of the sorts ----

  function InsertedAt<T>(s: seq<T>, x: T, at: nat): (r: seq<T>)
    requires at <= |s|
    ensures |r| == |s| + 1
  {
    s[..at] + [x] + s[at..]
  }

  lemma InsertedIndex<T>(s: seq<T>, x: T, at: nat, i: nat)
    requires at <= |s| && i <= |s|
    ensures InsertedAt(s, x, at)[i] == if i < at then s[i] else if i == at then x else s[i - 1]
  {
  }

  lemma InsertedElements<T>(s: seq<T>, x: T, at: nat)
    requires at <= |s|
    ensures multiset(InsertedAt(s, x, at)) == multiset(s) + multiset{x}
  {
    assert s == s[..at] + s[at..];
    assert InsertedAt(s, x, at) == (s[..at] + [x]) + s[at..];
  }
}
