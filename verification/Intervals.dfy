/** The interval algebra of app/binlog_rows.py:475-510: union with a tolerance and subtraction by binary search, against
    what they mean instant by instant. Intervals are half open. */
module Intervals {
  import opened Select

  datatype Span = Span(lo: int, hi: int)

  predicate In(s: Span, x: int) { s.lo <= x < s.hi }

  predicate Within(spans: seq<Span>, x: int) { exists s | s in spans :: In(s, x) }

  predicate Proper(spans: seq<Span>) { forall s | s in spans :: s.lo < s.hi }

  /** In a span, or in a hole of at most `tolerance` between the end of one and the start of another. */
  predicate Bridged(spans: seq<Span>, tolerance: nat, x: int) {
    Within(spans, x) || exists a, b | a in spans && b in spans :: a.hi <= x < b.lo && b.lo <= a.hi + tolerance
  }

  /** Ascending, with holes longer than `tolerance` between neighbours. */
  predicate Apart(spans: seq<Span>, tolerance: nat) {
    forall i, j | 0 <= i < j < |spans| :: spans[i].hi + tolerance < spans[j].lo
  }

  // ---- sorting ----

  predicate KeyLe(a: (int, int), b: (int, int)) { a.0 < b.0 || (a.0 == b.0 && a.1 <= b.1) }

  predicate SortedBy<T>(s: seq<T>, key: T -> (int, int)) {
    forall i, j | 0 <= i < j < |s| :: KeyLe(key(s[i]), key(s[j]))
  }

  method Sort<T>(s: seq<T>, key: T -> (int, int)) returns (t: seq<T>)
    ensures SortedBy(t, key) && multiset(t) == multiset(s)
  {
    t := [];
    var n := 0;
    while n < |s|
      invariant 0 <= n <= |s|
      invariant SortedBy(t, key) && multiset(t) == multiset(s[..n])
    {
      var at := |t|;
      while at > 0 && !KeyLe(key(t[at - 1]), key(s[n]))
        invariant 0 <= at <= |t|
        invariant forall i | at <= i < |t| :: KeyLe(key(s[n]), key(t[i]))
      {
        at := at - 1;
      }
      InsertSorted(t, key, s[n], at);
      InsertedElements(t, s[n], at);
      assert s[..n + 1] == s[..n] + [s[n]];
      t := InsertedAt(t, s[n], at);
      n := n + 1;
      hide SortedBy;
    }
    assert s[..|s|] == s;
  }

  lemma InsertSorted<T>(t: seq<T>, key: T -> (int, int), x: T, at: nat)
    requires SortedBy(t, key) && at <= |t|
    requires at > 0 ==> KeyLe(key(t[at - 1]), key(x))
    requires forall i | at <= i < |t| :: KeyLe(key(x), key(t[i]))
    ensures SortedBy(InsertedAt(t, x, at), key)
  {
    var u := InsertedAt(t, x, at);
    hide InsertedAt;
    forall i | 0 <= i < at ensures KeyLe(key(t[i]), key(x)) {
      assert i < at - 1 ==> KeyLe(key(t[i]), key(t[at - 1]));
    }
    forall i, j | 0 <= i < j < |u| ensures KeyLe(key(u[i]), key(u[j])) {
      InsertedIndex(t, x, at, i);
      InsertedIndex(t, x, at, j);
    }
  }

  // ---- union ----

  function Max(a: int, b: int): int { if a > b then a else b }

  function Min(a: int, b: int): int { if a < b then a else b }

  /** The runs `m` are what the spans `done` mean; the last run ends with the latest end so far. */
  ghost predicate Runs(done: seq<Span>, m: seq<Span>, tolerance: nat) {
    && Apart(m, tolerance) && Proper(m) && (done == [] <==> m == [])
    && (forall x :: Within(m, x) <==> Bridged(done, tolerance, x))
    && (m != [] ==>
          var last := m[|m| - 1];
          && (exists d | d in done :: d.lo == last.lo)
          && (exists d | d in done :: d.hi == last.hi)
          && forall d | d in done :: d.hi <= last.hi)
  }

  lemma WithinOneMore(spans: seq<Span>, s: Span, x: int)
    ensures Within(spans + [s], x) <==> Within(spans, x) || In(s, x)
  {
    assert forall d :: d in spans + [s] <==> d in spans || d == s;
  }

  function Joined(m: seq<Span>, s: Span): seq<Span>
    requires m != []
  {
    m[..|m| - 1] + [Span(m[|m| - 1].lo, Max(m[|m| - 1].hi, s.hi))]
  }

  lemma WithinJoined(m: seq<Span>, s: Span, x: int)
    requires m != [] && m[|m| - 1].lo <= m[|m| - 1].hi
    ensures Within(Joined(m, s), x) <==> Within(m, x) || m[|m| - 1].hi <= x < s.hi
  {
    var front, last := m[..|m| - 1], m[|m| - 1];
    WithinOneMore(front, Span(last.lo, Max(last.hi, s.hi)), x);
    WithinOneMore(front, last, x);
    assert m == front + [last];
  }

  lemma JoinAt(done: seq<Span>, m: seq<Span>, s: Span, tolerance: nat, x: int)
    requires Runs(done, m, tolerance) && s.lo < s.hi && m != []
    requires forall d | d in done :: d.lo <= s.lo
    requires s.lo <= m[|m| - 1].hi + tolerance
    ensures Within(Joined(m, s), x) <==> Bridged(done + [s], tolerance, x)
  {
    var last, more := m[|m| - 1], done + [s];
    WithinJoined(m, s, x);
    WithinOneMore(done, s, x);
    assert forall d :: d in more <==> d in done || d == s;
    assert Within(m, x) <==> Bridged(done, tolerance, x);
    var d :| d in done && d.hi == last.hi;
    var e :| e in done && e.lo == last.lo;
    assert last.lo <= x < last.hi ==> In(last, x) && last in m;
    hide Within;
    if last.hi <= x < s.lo {
      assert d in more && s in more && d.hi <= x < s.lo && s.lo <= d.hi + tolerance;
    }
    if x < last.lo && Bridged(more, tolerance, x) && !Within(more, x) {
      var a, b :| a in more && b in more && a.hi <= x < b.lo && b.lo <= a.hi + tolerance;
      assert a in done && e in done && (b == s ==> a.hi <= x < e.lo && e.lo <= a.hi + tolerance);
    }
  }

  lemma JoinRuns(done: seq<Span>, m: seq<Span>, s: Span, tolerance: nat)
    requires Runs(done, m, tolerance) && s.lo < s.hi && m != []
    requires forall d | d in done :: d.lo <= s.lo
    requires s.lo <= m[|m| - 1].hi + tolerance
    ensures Runs(done + [s], Joined(m, s), tolerance)
  {
    forall x ensures Within(Joined(m, s), x) <==> Bridged(done + [s], tolerance, x) {
      JoinAt(done, m, s, tolerance, x);
    }
    hide Within;
    hide Bridged;
    var last, more := m[|m| - 1], done + [s];
    var d :| d in done && d.hi == last.hi;
    var e :| e in done && e.lo == last.lo;
    assert d in more && e in more && s in more;
    assert last in m;
  }

  lemma AppendAt(done: seq<Span>, m: seq<Span>, s: Span, tolerance: nat, x: int)
    requires Runs(done, m, tolerance) && s.lo < s.hi
    requires forall d | d in done :: d.lo <= s.lo
    requires m != [] ==> m[|m| - 1].hi + tolerance < s.lo
    ensures Within(m + [s], x) <==> Bridged(done + [s], tolerance, x)
  {
    var more := done + [s];
    assert forall d :: d in more <==> d in done || d == s;
    WithinOneMore(m, s, x);
    WithinOneMore(done, s, x);
    assert Within(m, x) <==> Bridged(done, tolerance, x);
    hide Within;
  }

  lemma AppendRuns(done: seq<Span>, m: seq<Span>, s: Span, tolerance: nat)
    requires Runs(done, m, tolerance) && s.lo < s.hi
    requires forall d | d in done :: d.lo <= s.lo
    requires m != [] ==> m[|m| - 1].hi + tolerance < s.lo
    ensures Runs(done + [s], m + [s], tolerance)
  {
    forall x ensures Within(m + [s], x) <==> Bridged(done + [s], tolerance, x) {
      AppendAt(done, m, s, tolerance, x);
    }
    hide Within;
    hide Bridged;
    assert s in done + [s];
    forall i, j | 0 <= i < j < |m + [s]| ensures (m + [s])[i].hi + tolerance < (m + [s])[j].lo {
      if j == |m| && i < |m| - 1 {
        assert m[|m| - 1] in m;
      }
    }
  }

  /** `_union`: the runs are far apart, and cover exactly the bridged instants. */
  method Union(spans: seq<Span>, tolerance: nat) returns (merged: seq<Span>)
    requires Proper(spans)
    ensures Apart(merged, tolerance) && Proper(merged)
    ensures forall x :: Within(merged, x) <==> Bridged(spans, tolerance, x)
    ensures spans == [] <==> merged == []
  {
    hide *;
    var sorted := Sort(spans, (s: Span) => (s.lo, s.hi));
    SameElements(sorted, spans);
    merged := [];
    NoRuns(tolerance);
    var n := 0;
    while n < |sorted|
      invariant 0 <= n <= |sorted|
      invariant Runs(sorted[..n], merged, tolerance)
    {
      var s := sorted[n];
      assert s in sorted;
      ProperAt(spans, s);
      assert sorted[..n + 1] == sorted[..n] + [s];
      StartsSoFar(sorted, n);
      if merged != [] && s.lo <= merged[|merged| - 1].hi + tolerance {
        JoinRuns(sorted[..n], merged, s, tolerance);
        merged := Joined(merged, s);
      } else {
        AppendRuns(sorted[..n], merged, s, tolerance);
        merged := merged + [s];
      }
      n := n + 1;
    }
    assert sorted[..|sorted|] == sorted;
    RunsMean(sorted, spans, merged, tolerance);
  }

  lemma ProperAt(spans: seq<Span>, s: Span)
    requires Proper(spans) && s in spans
    ensures s.lo < s.hi
  {
  }

  lemma NoRuns(tolerance: nat)
    ensures Runs([], [], tolerance)
  {
  }

  lemma RunsMean(sorted: seq<Span>, spans: seq<Span>, m: seq<Span>, tolerance: nat)
    requires Runs(sorted, m, tolerance) && |sorted| == |spans| && forall x :: x in sorted <==> x in spans
    ensures Apart(m, tolerance) && Proper(m)
    ensures forall x :: Within(m, x) <==> Bridged(spans, tolerance, x)
    ensures spans == [] <==> m == []
  {
    forall x ensures Bridged(sorted, tolerance, x) <==> Bridged(spans, tolerance, x) {
    }
    hide Within;
    hide Bridged;
  }

  lemma StartsSoFar(sorted: seq<Span>, n: nat)
    requires n < |sorted| && SortedBy(sorted, (s: Span) => (s.lo, s.hi))
    ensures forall d | d in sorted[..n] :: d.lo <= sorted[n].lo
  {
    var key := (s: Span) => (s.lo, s.hi);
    forall i | 0 <= i < n ensures sorted[i].lo <= sorted[n].lo {
      assert KeyLe(key(sorted[i]), key(sorted[n]));
    }
  }

  lemma SameElements<T>(s: seq<T>, t: seq<T>)
    requires multiset(s) == multiset(t)
    ensures forall x :: x in s <==> x in t
    ensures |s| == |t|
  {
    forall x ensures x in s <==> x in t {
      assert x in s <==> x in multiset(s);
    }
    assert |multiset(s)| == |s| && |multiset(t)| == |t|;
  }

  // ---- subtraction ----

  /** `bisect.bisect_right` on the ends of the cuts. */
  method BisectRight(cuts: seq<Span>, x: int) returns (index: nat)
    requires forall i, j | 0 <= i < j < |cuts| :: cuts[i].hi <= cuts[j].hi
    ensures index <= |cuts|
    ensures forall i | 0 <= i < index :: cuts[i].hi <= x
    ensures forall i | index <= i < |cuts| :: cuts[i].hi > x
  {
    index := 0;
    var high := |cuts|;
    while index < high
      invariant index <= high <= |cuts|
      invariant forall i | 0 <= i < index :: cuts[i].hi <= x
      invariant forall i | high <= i < |cuts| :: cuts[i].hi > x
    {
      var mid := (index + high) / 2;
      if x < cuts[mid].hi {
        high := mid;
      } else {
        index := mid + 1;
      }
    }
  }

  /** Ascending and free of overlaps; neighbours may touch. */
  predicate Ascending(spans: seq<Span>) {
    && Proper(spans)
    && forall i, j | 0 <= i < j < |spans| :: spans[i].hi <= spans[j].lo
  }

  predicate InsideOf(spans: seq<Span>, lo: int, hi: int) { forall s | s in spans :: lo <= s.lo && s.hi <= hi }

  /** The inner loop of `_subtract`: one interval against the cuts it overlaps. */
  method SubtractOne(s: Span, cuts: seq<Span>) returns (out: seq<Span>)
    requires s.lo < s.hi && Apart(cuts, 0) && Proper(cuts)
    ensures Ascending(out) && InsideOf(out, s.lo, s.hi)
    ensures forall x :: Within(out, x) <==> In(s, x) && !Within(cuts, x)
  {
    out := [];
    NothingYet();
    hide Within;
    var cursor := s.lo;
    var index := BisectRight(cuts, s.lo);
    var stop := false;
    while !stop && index < |cuts| && cuts[index].lo < s.hi
      invariant 0 <= index <= |cuts| && s.lo <= cursor
      invariant stop ==> cursor >= s.hi
      invariant !stop ==> cursor < s.hi
      invariant Ascending(out) && InsideOf(out, s.lo, Min(cursor, s.hi))
      invariant forall i | 0 <= i < index && !stop :: cuts[i].hi <= cursor
      invariant !stop && index < |cuts| ==> cursor < cuts[index].hi
      invariant forall x | x < cursor :: Within(out, x) <==> In(s, x) && !Within(cuts, x)
      decreases |cuts| - index, !stop
    {
      var cut := cuts[index];
      ghost var before, from := out, cursor;
      if cut.lo > cursor {
        out := out + [Span(cursor, cut.lo)];
      }
      cursor := Max(cursor, cut.hi);
      forall x | x < cursor ensures Within(out, x) <==> In(s, x) && !Within(cuts, x) {
        CutStep(s, cuts, index, before, from, x);
      }
      if cursor >= s.hi {
        stop := true;
      } else {
        index := index + 1;
      }
    }
    if cursor < s.hi {
      ghost var before := out;
      out := out + [Span(cursor, s.hi)];
      forall x ensures Within(out, x) <==> In(s, x) && !Within(cuts, x) {
        LastPiece(s, cuts, index, before, cursor, x);
      }
    } else {
      NothingOutside(out, s.lo, s.hi);
    }
  }

  lemma NothingOutside(out: seq<Span>, lo: int, hi: int)
    requires InsideOf(out, lo, hi)
    ensures forall x | Within(out, x) :: lo <= x < hi
  {
  }

  lemma NothingYet()
    ensures forall x :: !Within([], x)
  {
  }

  lemma CutStep(s: Span, cuts: seq<Span>, index: nat, before: seq<Span>, from: int, x: int)
    requires index < |cuts| && Apart(cuts, 0) && Proper(cuts) && s.lo <= from < s.hi
    requires from < cuts[index].hi && cuts[index].lo < s.hi
    requires forall i | 0 <= i < index :: cuts[i].hi <= from
    requires InsideOf(before, s.lo, from)
    requires forall y | y < from :: Within(before, y) <==> In(s, y) && !Within(cuts, y)
    requires x < cuts[index].hi
    ensures var after := if cuts[index].lo > from then before + [Span(from, cuts[index].lo)] else before;
            Within(after, x) <==> In(s, x) && !Within(cuts, x)
  {
    var cut := cuts[index];
    var after := if cut.lo > from then before + [Span(from, cut.lo)] else before;
    assert Within(after, x) <==> Within(before, x) || (cut.lo > from && In(Span(from, cut.lo), x));
    if x >= from {
      assert !Within(before, x);
      assert cut in cuts;
      assert x >= cut.lo ==> In(cut, x);
    }
  }

  lemma LastPiece(s: Span, cuts: seq<Span>, index: nat, before: seq<Span>, from: int, x: int)
    requires index <= |cuts| && Apart(cuts, 0) && Proper(cuts) && s.lo <= from < s.hi
    requires forall i | 0 <= i < index :: cuts[i].hi <= from
    requires index < |cuts| ==> cuts[index].lo >= s.hi
    requires InsideOf(before, s.lo, from)
    requires forall y | y < from :: Within(before, y) <==> In(s, y) && !Within(cuts, y)
    ensures Within(before + [Span(from, s.hi)], x) <==> In(s, x) && !Within(cuts, x)
  {
    assert Within(before + [Span(from, s.hi)], x) <==> Within(before, x) || In(Span(from, s.hi), x);
  }

  /** `_subtract`: pointwise difference, in order when the intervals are. */
  method Subtract(intervals: seq<Span>, cuts: seq<Span>) returns (out: seq<Span>)
    requires Ascending(intervals) && Apart(cuts, 0) && Proper(cuts)
    ensures Ascending(out)
    ensures forall x :: Within(out, x) <==> Within(intervals, x) && !Within(cuts, x)
  {
    out := [];
    var n := 0;
    while n < |intervals|
      invariant 0 <= n <= |intervals|
      invariant Ascending(out)
      invariant forall o, j | o in out && n <= j < |intervals| :: o.hi <= intervals[j].lo
      invariant forall x :: Within(out, x) <==> Within(intervals[..n], x) && !Within(cuts, x)
    {
      var s := intervals[n];
      assert s in intervals;
      var pieces := SubtractOne(s, cuts);
      assert intervals[..n + 1] == intervals[..n] + [s];
      forall x ensures Within(out + pieces, x) <==> Within(intervals[..n + 1], x) && !Within(cuts, x) {
        assert Within(out + pieces, x) <==> Within(out, x) || Within(pieces, x);
        assert Within(intervals[..n] + [s], x) <==> Within(intervals[..n], x) || In(s, x);
      }
      forall o, p | o in out && p in pieces ensures o.hi <= p.lo {
      }
      hide Within;
      AscendingConcat(out, pieces);
      out := out + pieces;
      n := n + 1;
    }
    assert intervals[..|intervals|] == intervals;
  }

  lemma AscendingConcat(a: seq<Span>, b: seq<Span>)
    requires Ascending(a) && Ascending(b)
    requires forall o, p | o in a && p in b :: o.hi <= p.lo
    ensures Ascending(a + b)
  {
    var c := a + b;
    forall i, j | 0 <= i < j < |c| ensures c[i].hi <= c[j].lo {
      if i < |a| <= j {
        assert c[i] in a && c[j] in b;
      }
    }
  }

  // ---- laws of the tolerant union ----

  lemma BridgedSame(a: seq<Span>, b: seq<Span>, tolerance: nat, x: int)
    requires forall s :: s in a <==> s in b
    ensures Bridged(a, tolerance, x) <==> Bridged(b, tolerance, x)
  {
    if Bridged(a, tolerance, x) {
      UnionMonotone(a, b, tolerance, x);
    }
    if Bridged(b, tolerance, x) {
      UnionMonotone(b, a, tolerance, x);
    }
  }

  /** More spans cover no less. */
  lemma UnionMonotone(a: seq<Span>, b: seq<Span>, tolerance: nat, x: int)
    requires forall s | s in a :: s in b
    requires Bridged(a, tolerance, x)
    ensures Bridged(b, tolerance, x)
  {
    if Within(a, x) {
      var s :| s in a && In(s, x);
      assert s in b;
    }
  }

  lemma RestOfRuns(a: seq<Span>, x: int)
    requires a != [] && Apart(a, 0) && Proper(a)
    ensures Within(a[1..], x) <==> Within(a, x) && a[0].hi <= x
    ensures Within(a, x) ==> a[0].lo <= x
    ensures !Within(a, a[0].hi)
    ensures Apart(a[1..], 0) && Proper(a[1..])
  {
    forall i | 0 < i < |a| ensures a[0].hi < a[i].lo && a[i] == a[1..][i - 1] && a[i].lo < a[i].hi {
      assert a[i] in a;
    }
    assert a[0] in a && forall s :: s in a <==> s == a[0] || s in a[1..];
  }

  lemma FirstIsWithin(a: seq<Span>)
    requires Proper(a)
    ensures a != [] ==> Within(a, a[0].lo)
    ensures a != [] ==> forall x | In(a[0], x) :: Within(a, x)
  {
    if a != [] {
      assert a[0] in a;
    }
  }

  /** Runs with holes between them are determined by the instants they cover. */
  lemma {:induction false} RunsAreUnique(a: seq<Span>, b: seq<Span>)
    requires Apart(a, 0) && Proper(a) && Apart(b, 0) && Proper(b)
    requires forall x :: Within(a, x) <==> Within(b, x)
    ensures a == b
    decreases |a|
  {
    FirstIsWithin(a);
    FirstIsWithin(b);
    if a != [] {
      RestOfRuns(a, b[0].lo);
      RestOfRuns(b, a[0].lo);
      assert !In(b[0], a[0].hi) && !In(a[0], b[0].hi);
      assert a[0] == b[0];
      forall x ensures Within(a[1..], x) <==> Within(b[1..], x) {
        RestOfRuns(a, x);
        RestOfRuns(b, x);
      }
      RunsAreUnique(a[1..], b[1..]);
    }
  }

  /** Merging what is merged changes nothing: the union is idempotent. */
  lemma UnionIdempotent(merged: seq<Span>, again: seq<Span>, tolerance: nat)
    requires Apart(merged, tolerance) && Proper(merged) && Apart(again, tolerance) && Proper(again)
    requires forall x :: Within(again, x) <==> Bridged(merged, tolerance, x)
    ensures again == merged
  {
    forall x ensures Bridged(merged, tolerance, x) <==> Within(merged, x) {
      ApartIsNotBridged(merged, tolerance, x);
    }
    RunsAreUnique(again, merged);
  }

  lemma ApartIsNotBridged(merged: seq<Span>, tolerance: nat, x: int)
    requires Apart(merged, tolerance) && Proper(merged)
    ensures Bridged(merged, tolerance, x) ==> Within(merged, x)
  {
    forall a, b | a in merged && b in merged ensures !(a.hi <= x < b.lo && b.lo <= a.hi + tolerance) {
      var i :| 0 <= i < |merged| && merged[i] == a;
      var j :| 0 <= j < |merged| && merged[j] == b;
    }
  }
}
