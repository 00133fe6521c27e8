/** The newest-first query of app/binlog_rows.py:86-94 and 919-973: day slices, split in halves when the server runs out
    of memory, read until the page is full. */
module SlicedQuery {
  import opened Select

  const DAY: nat := 86_400_000_000
  const SPLIT_MIN: nat := 600_000_000

  /** A matching row: its time, and the rest of the sort key. */
  datatype Row = Row(epoch: int, position: int, index: int, event: int)

  /** At least as new, in the order of the query: time, end position, row index, all descending. */
  predicate NewerEq(a: Row, b: Row) {
    if a.epoch != b.epoch then a.epoch > b.epoch
    else if a.position != b.position then a.position > b.position
    else a.index >= b.index
  }

  predicate NewestFirst(rows: seq<Row>) { forall i, j | 0 <= i < j < |rows| :: NewerEq(rows[i], rows[j]) }

  /** An answer an `ORDER BY ... LIMIT n` over the rows `all` may give; rows with equal keys may come in any order. */
  predicate Answers(a: seq<Row>, all: multiset<Row>, n: nat) {
    && multiset(a) <= all
    && |a| == (if n < |all| then n else |all|)
    && NewestFirst(a)
    && forall r, x | r in all - multiset(a) && x in a :: NewerEq(x, r)
  }

  // ---- slices ----

  datatype Slice = Slice(lo: int, hi: int)

  /** Slices of [start, end], newest first, without hole or overlap. */
  predicate Tiles(slices: seq<Slice>, start: int, end: int) {
    if slices == [] then end < start
    else
      && slices[0].hi == end && start <= slices[0].lo <= end
      && Tiles(slices[1..], start, slices[0].lo - 1)
  }

  function DayStart(x: int): int { (x / DAY) * DAY }

  /** One slice per UTC day, newest first. */
  function Days(start: int, end: int): seq<Slice>
    decreases end - start + 1
  {
    if end < start then []
    else
      var lo := if start > DayStart(end) then start else DayStart(end);
      [Slice(lo, end)] + Days(start, lo - 1)
  }

  /** The slices tile the range, each inside one UTC day. */
  lemma {:induction false} DaysTile(start: int, end: int)
    ensures Tiles(Days(start, end), start, end)
    ensures forall s | s in Days(start, end) :: s.lo / DAY == s.hi / DAY
    decreases end - start + 1
  {
    if start <= end {
      var lo := if start > DayStart(end) then start else DayStart(end);
      DayOf(lo, end);
      DaysTile(start, lo - 1);
      assert Days(start, end)[1..] == Days(start, lo - 1);
    }
  }

  /** `day_slices` */
  method DaySlices(start: int, end: int) returns (slices: seq<Slice>)
    ensures slices == Days(start, end) && Tiles(slices, start, end)
    ensures forall s | s in slices :: s.lo / DAY == s.hi / DAY
  {
    DaysTile(start, end);
    hide Tiles;
    hide Days;
    hide DayStart;
    slices := [];
    var hi := end;
    while hi >= start
      invariant slices + Days(start, hi) == Days(start, end)
      decreases hi - start
    {
      DaysStep(start, hi, slices);
      var lo := if start > DayStart(hi) then start else DayStart(hi);
      slices := slices + [Slice(lo, hi)];
      hi := lo - 1;
    }
    DaysStep(start, hi, slices);
  }

  lemma DaysStep(start: int, hi: int, slices: seq<Slice>)
    ensures DayStart(hi) <= hi
    ensures hi < start ==> slices + Days(start, hi) == slices
    ensures var lo := if start > DayStart(hi) then start else DayStart(hi);
            hi >= start ==> slices + Days(start, hi) == slices + [Slice(lo, hi)] + Days(start, lo - 1)
  {
  }

  lemma DayOf(lo: int, hi: int)
    requires (hi / DAY) * DAY <= lo <= hi
    ensures lo / DAY == hi / DAY
  {
  }

  // ---- the rows of a range ----

  function InRange(table: seq<Row>, lo: int, hi: int): seq<Row> { Keep(table, (r: Row) => lo <= r.epoch <= hi) }

  lemma {:induction false} RangeInTwo(table: seq<Row>, lo: int, middle: int, hi: int)
    requires lo - 1 <= middle <= hi
    ensures multiset(InRange(table, lo, hi)) == multiset(InRange(table, lo, middle)) + multiset(InRange(table, middle + 1, hi))
  {
    if table != [] {
      RangeInTwo(table[1..], lo, middle, hi);
    }
  }

  lemma RangeMembers(table: seq<Row>, lo: int, hi: int)
    ensures forall r | r in multiset(InRange(table, lo, hi)) :: lo <= r.epoch <= hi
  {
    var rows := InRange(table, lo, hi);
    KeepMembers(table, (r: Row) => lo <= r.epoch <= hi);
    forall r: Row | r in multiset(rows) ensures lo <= r.epoch <= hi {
      assert r in rows;
    }
  }

  lemma RangesInOrder(table: seq<Row>, lo: int, middle: int, hi: int)
    ensures forall x, y | x in multiset(InRange(table, middle + 1, hi)) && y in multiset(InRange(table, lo, middle)) :: NewerEq(x, y)
  {
    RangeMembers(table, lo, middle);
    RangeMembers(table, middle + 1, hi);
    hide InRange;
  }

  /** The partition filter of a slice, `event_date BETWEEN d0 AND d1`, takes nothing away. */
  lemma DateFilterIsImplied(r: Row, lo: int, hi: int)
    requires lo <= r.epoch <= hi
    ensures lo / DAY <= r.epoch / DAY <= hi / DAY
  {
  }

  // ---- answers compose ----

  lemma AllOfThem(a: seq<Row>, all: multiset<Row>, n: nat)
    requires Answers(a, all, n) && |a| < n
    ensures multiset(a) == all
  {
    assert |multiset(a)| == |a|;
    assert |all - multiset(a)| == 0;
    assert all == multiset(a) + (all - multiset(a));
  }

  /** A short answer of newer rows, followed by an answer of older rows for what is still wanted, answers for both. */
  lemma AnswersInTwo(a: seq<Row>, newer: multiset<Row>, b: seq<Row>, older: multiset<Row>, n: nat)
    requires Answers(a, newer, n) && |a| < n && Answers(b, older, n - |a|)
    requires forall x, y | x in newer && y in older :: NewerEq(x, y)
    ensures Answers(a + b, newer + older, n)
  {
    AllOfThem(a, newer, n);
    assert multiset(a + b) == multiset(a) + multiset(b);
    assert newer + older - multiset(a + b) == older - multiset(b);
    forall i, j | 0 <= i < j < |a + b| ensures NewerEq((a + b)[i], (a + b)[j]) {
      if i < |a| <= j {
        assert a[i] in multiset(a) && b[j - |a|] in multiset(b);
      }
    }
    forall r, x | r in older - multiset(b) && x in a + b ensures NewerEq(x, r) {
      if x in a {
        assert x in multiset(a);
      }
    }
  }

  /** A full answer stays one when older rows are added. */
  lemma AnswersEarly(a: seq<Row>, newer: multiset<Row>, older: multiset<Row>, n: nat)
    requires Answers(a, newer, n) && |a| >= n
    requires forall x, y | x in newer && y in older :: NewerEq(x, y)
    ensures Answers(a, newer + older, n)
  {
    forall r, x | r in newer + older - multiset(a) && x in a ensures NewerEq(x, r) {
      assert x in multiset(a);
      assert r in newer - multiset(a) || r in older;
    }
  }

  lemma HeadAndTail<T>(a: seq<T>)
    requires a != []
    ensures a == [a[0]] + a[1..]
  {
  }

  lemma AnswerLength(a: seq<Row>, all: multiset<Row>, n: nat)
    requires Answers(a, all, n)
    ensures |a| == if n < |all| then n else |all|
  {
  }

  predicate DistinctKeys(all: multiset<Row>) {
    forall x, y | x in all && y in all && NewerEq(x, y) && NewerEq(y, x) :: x == y
  }

  lemma SameNewest(x: Row, y: Row, all: multiset<Row>)
    requires DistinctKeys(all) && x in all && y in all
    requires (forall r | r in all :: NewerEq(x, r)) && forall r | r in all :: NewerEq(y, r)
    ensures x == y
    ensures DistinctKeys(all - multiset{x})
  {
  }

  /** With distinct keys there is only one answer. */
  lemma {:induction false} AnswerIsUnique(a: seq<Row>, b: seq<Row>, all: multiset<Row>, n: nat)
    requires Answers(a, all, n) && Answers(b, all, n) && DistinctKeys(all)
    ensures a == b
    decreases n
  {
    hide *;
    AnswerLength(a, all, n);
    AnswerLength(b, all, n);
    if a != [] {
      NewestIsFirst(a, all, n);
      NewestIsFirst(b, all, n);
      AnswerTail(a, all, n);
      AnswerTail(b, all, n);
      SameNewest(a[0], b[0], all);
      AnswerIsUnique(a[1..], b[1..], all - multiset{a[0]}, n - 1);
      HeadAndTail(a);
      HeadAndTail(b);
    }
  }

  lemma NewestIsFirst(a: seq<Row>, all: multiset<Row>, n: nat)
    requires Answers(a, all, n) && a != []
    ensures a[0] in all && forall r | r in all :: NewerEq(a[0], r)
  {
    assert a[0] in multiset(a);
    forall r | r in all ensures NewerEq(a[0], r) {
      if r in multiset(a) {
        var i :| 0 <= i < |a| && a[i] == r;
      } else {
        assert r in all - multiset(a) && a[0] in a;
      }
    }
  }

  lemma AnswerTail(a: seq<Row>, all: multiset<Row>, n: nat)
    requires Answers(a, all, n) && a != []
    ensures n > 0 && Answers(a[1..], all - multiset{a[0]}, n - 1)
  {
    assert a == [a[0]] + a[1..];
    assert multiset(a) == multiset{a[0]} + multiset(a[1..]);
    assert all - multiset{a[0]} - multiset(a[1..]) == all - multiset(a);
  }

  // ---- the server ----

  method SortRows(rows: seq<Row>) returns (sorted: seq<Row>)
    ensures NewestFirst(sorted) && multiset(sorted) == multiset(rows)
  {
    sorted := [];
    var n := 0;
    while n < |rows|
      invariant 0 <= n <= |rows| && NewestFirst(sorted) && multiset(sorted) == multiset(rows[..n])
    {
      var at := 0;
      while at < |sorted| && NewerEq(sorted[at], rows[n])
        invariant 0 <= at <= |sorted|
        invariant forall i | 0 <= i < at :: NewerEq(sorted[i], rows[n])
      {
        at := at + 1;
      }
      InsertRow(sorted, rows[n], at);
      InsertedElements(sorted, rows[n], at);
      assert rows[..n + 1] == rows[..n] + [rows[n]];
      sorted := InsertedAt(sorted, rows[n], at);
      n := n + 1;
      hide NewestFirst;
    }
    assert rows[..|rows|] == rows;
  }

  lemma InsertRow(a: seq<Row>, r: Row, at: nat)
    requires NewestFirst(a) && at <= |a|
    requires (forall i | 0 <= i < at :: NewerEq(a[i], r)) && (at < |a| ==> !NewerEq(a[at], r))
    ensures NewestFirst(InsertedAt(a, r, at))
  {
    var b := InsertedAt(a, r, at);
    hide InsertedAt;
    forall i | at <= i < |a| ensures NewerEq(r, a[i]) {
      assert at < i ==> NewerEq(a[at], a[i]);
    }
    forall i, j | 0 <= i < j < |b| ensures NewerEq(b[i], b[j]) {
      InsertedIndex(a, r, at, i);
      InsertedIndex(a, r, at, j);
    }
  }

  /** What befalls the n-th statement; `Late` is a deadline or a cancellation seen before it is sent. */
  datatype Fate = Answered | MemoryLimit | OtherError | Late

  /** A fate that ends the query with an error: a memory failure does so only on a slice of less than twenty minutes. */
  predicate Ends(fate: Fate, s: Slice) {
    match fate
    case Answered => false
    case MemoryLimit => s.hi - s.lo < 20 * 60 * 1_000_000
    case OtherError => true
    case Late => true
  }

  /** One statement that is answered: the newest rows of the slice. */
  method Ask(table: seq<Row>, s: Slice, limit: nat) returns (rows: seq<Row>)
    ensures Answers(rows, multiset(InRange(table, s.lo, s.hi)), limit)
  {
    var all := SortRows(InRange(table, s.lo, s.hi));
    SortedPrefixAnswers(all, limit);
    rows := if limit < |all| then all[..limit] else all;
  }

  lemma SortedPrefixAnswers(all: seq<Row>, limit: nat)
    requires NewestFirst(all)
    ensures Answers(if limit < |all| then all[..limit] else all, multiset(all), limit)
  {
    var n := if limit < |all| then limit else |all|;
    var front, back := all[..n], all[n..];
    SplitSequence(all, n);
    forall i, j | 0 <= i < j < n ensures NewerEq(front[i], front[j]) {
      assert front[i] == all[i] && front[j] == all[j];
    }
    PrefixIsNewer(all, n);
    assert limit >= |all| ==> front == all;
    assert |multiset(all)| == |all|;
    hide NewerEq;
  }

  lemma SplitSequence<T>(all: seq<T>, n: nat)
    requires n <= |all|
    ensures multiset(all[..n]) <= multiset(all) && multiset(all) - multiset(all[..n]) == multiset(all[n..])
  {
    assert all == all[..n] + all[n..];
    assert multiset(all) == multiset(all[..n]) + multiset(all[n..]);
  }

  lemma PrefixIsNewer(all: seq<Row>, n: nat)
    requires NewestFirst(all) && n <= |all|
    ensures forall r, x | r in multiset(all[n..]) && x in all[..n] :: NewerEq(x, r)
  {
    var front, back := all[..n], all[n..];
    forall r: Row, x | r in multiset(back) && x in front ensures NewerEq(x, r) {
      assert r in back;
      var i :| 0 <= i < |back| && back[i] == r;
      var j :| 0 <= j < n && front[j] == x;
      assert all[n + i] == r && all[j] == x;
    }
  }

  // ---- the query loop ----

  /** Grows with the range and with the number of slices left, so that a split still counts as progress. */
  function Work(pending: seq<Slice>): int {
    if pending == [] then 0 else 2 * (pending[0].hi - pending[0].lo) + 1 + Work(pending[1..])
  }

  lemma {:induction false} WorkNat(pending: seq<Slice>, start: int, end: int)
    requires Tiles(pending, start, end)
    ensures Work(pending) >= 0
  {
    if pending != [] {
      WorkNat(pending[1..], start, pending[0].lo - 1);
    }
  }

  datatype Page = Page(rows: seq<Row>, hasMore: bool)

  /** The page cut out of one answer. */
  function PageOf(top: seq<Row>, limit: nat, offset: nat): Page {
    var rest := if offset < |top| then top[offset..] else [];
    Page(if limit < |rest| then rest[..limit] else rest, |rest| > limit)
  }

  /** Has-more says whether the range holds more rows than offset and limit take, and the page is as long as it can be. */
  lemma PageIsComplete(top: seq<Row>, all: multiset<Row>, limit: nat, offset: nat)
    requires Answers(top, all, offset + limit + 1)
    ensures var page := PageOf(top, limit, offset);
            && (page.hasMore <==> |all| > offset + limit)
            && |page.rows| == (if |all| <= offset then 0 else if |all| - offset < limit then |all| - offset else limit)
  {
    AnswerLength(top, all, offset + limit + 1);
    hide Answers;
  }

  /** The page in its own terms: the rows at `offset` and after, of all rows from the newest to the oldest. */
  predicate Stretch(page: Page, sorted: seq<Row>, limit: nat, offset: nat) {
    && (page.hasMore <==> |sorted| > offset + limit)
    && |page.rows| == (if |sorted| <= offset then 0 else if |sorted| - offset < limit then |sorted| - offset else limit)
    && forall i | 0 <= i < |page.rows| :: page.rows[i] == sorted[offset + i]
  }

  /** Times descend; at one time end positions do, and at one position row indices. */
  predicate InOrder(sorted: seq<Row>) {
    forall i, j | 0 <= i < j < |sorted| ::
      && sorted[i].epoch >= sorted[j].epoch
      && (sorted[i].epoch == sorted[j].epoch ==> sorted[i].position >= sorted[j].position)
      && (sorted[i].epoch == sorted[j].epoch && sorted[i].position == sorted[j].position ==> sorted[i].index >= sorted[j].index)
  }

  ghost predicate IsPage(page: Page, all: multiset<Row>, limit: nat, offset: nat) {
    exists sorted :: InOrder(sorted) && multiset(sorted) == all && Stretch(page, sorted, limit, offset)
  }

  lemma OrdersAgree(a: seq<Row>)
    ensures NewestFirst(a) <==> InOrder(a)
  {
    if InOrder(a) {
      forall i, j | 0 <= i < j < |a| ensures NewerEq(a[i], a[j]) {
      }
    }
  }

  lemma {:induction false} SortedExists(all: multiset<Row>) returns (sorted: seq<Row>)
    ensures NewestFirst(sorted) && multiset(sorted) == all
    decreases |all|
  {
    sorted := [];
    if all != multiset{} {
      var r :| r in all;
      var rest := SortedExists(all - multiset{r});
      var at := PlaceOf(rest, r);
      InsertRow(rest, r, at);
      InsertedElements(rest, r, at);
      sorted := InsertedAt(rest, r, at);
    }
  }

  lemma {:induction false} PlaceOf(a: seq<Row>, r: Row) returns (at: nat)
    ensures at <= |a| && (forall i | 0 <= i < at :: NewerEq(a[i], r)) && (at < |a| ==> !NewerEq(a[at], r))
  {
    if a == [] || !NewerEq(a[0], r) {
      at := 0;
    } else {
      var further := PlaceOf(a[1..], r);
      at := further + 1;
      forall i | 0 <= i < at ensures NewerEq(a[i], r) {
        assert i > 0 ==> a[i] == a[1..][i - 1];
      }
    }
  }

  /** An answer is the beginning of all rows in order. */
  lemma AnswerIsPrefix(top: seq<Row>, all: multiset<Row>, n: nat) returns (sorted: seq<Row>)
    requires Answers(top, all, n)
    ensures NewestFirst(sorted) && multiset(sorted) == all && |sorted| == |all| && top <= sorted
  {
    var rest := SortedExists(all - multiset(top));
    sorted := top + rest;
    assert multiset(sorted) == multiset(top) + multiset(rest) == all;
    assert |multiset(sorted)| == |sorted|;
    forall i, j | 0 <= i < j < |sorted| ensures NewerEq(sorted[i], sorted[j]) {
      if i < |top| <= j {
        assert rest[j - |top|] in multiset(rest);
      }
    }
  }

  /** The page cut out of an answer is the page of all rows. */
  lemma AnswerGivesPage(top: seq<Row>, all: multiset<Row>, limit: nat, offset: nat)
    requires Answers(top, all, offset + limit + 1)
    ensures IsPage(PageOf(top, limit, offset), all, limit, offset)
  {
    var sorted := AnswerIsPrefix(top, all, offset + limit + 1);
    AnswerLength(top, all, offset + limit + 1);
    OrdersAgree(sorted);
    hide Answers;
    hide NewestFirst;
    hide InOrder;
    assert forall i | 0 <= i < |top| :: top[i] == sorted[i];
    assert Stretch(PageOf(top, limit, offset), sorted, limit, offset);
  }

  lemma {:induction false} RangeCounts(table: seq<Row>, start: int, end: int)
    ensures forall r :: multiset(InRange(table, start, end))[r] == if start <= r.epoch <= end then multiset(table)[r] else 0
  {
    if table != [] {
      RangeCounts(table[1..], start, end);
      assert table == [table[0]] + table[1..];
      var first := if start <= table[0].epoch <= end then [table[0]] else [];
      assert InRange(table, start, end) == first + InRange(table[1..], start, end);
    }
  }

  lemma SortedIsUnique(a: seq<Row>, b: seq<Row>)
    requires InOrder(a) && InOrder(b) && multiset(a) == multiset(b) && DistinctKeys(multiset(a))
    ensures a == b
  {
    OrdersAgree(a);
    OrdersAgree(b);
    SortedPrefixAnswers(a, |a| + |b|);
    SortedPrefixAnswers(b, |a| + |b|);
    AnswerIsUnique(a, b, multiset(a), |a| + |b|);
  }

  lemma JoinStretches(a: Page, b: Page, c: Page, s: seq<Row>, limit: nat, offset: nat)
    requires Stretch(a, s, limit, offset) && Stretch(b, s, limit, offset + limit) && Stretch(c, s, 2 * limit, offset)
    ensures c.rows == a.rows + b.rows && c.hasMore == b.hasMore && (limit > 0 ==> (a.hasMore <==> b.rows != []))
  {
    assert |c.rows| == |a.rows| + |b.rows|;
  }

  /** With distinct keys a page followed by the next one is the page twice as long: nothing is skipped and nothing comes twice. */
  lemma PagesJoin(a: Page, b: Page, c: Page, all: multiset<Row>, limit: nat, offset: nat)
    requires IsPage(a, all, limit, offset) && IsPage(b, all, limit, offset + limit) && IsPage(c, all, 2 * limit, offset)
    requires DistinctKeys(all)
    ensures c.rows == a.rows + b.rows && c.hasMore == b.hasMore && (limit > 0 ==> (a.hasMore <==> b.rows != []))
  {
    var s :| InOrder(s) && multiset(s) == all && Stretch(a, s, limit, offset);
    var t :| InOrder(t) && multiset(t) == all && Stretch(b, t, limit, offset + limit);
    var u :| InOrder(u) && multiset(u) == all && Stretch(c, u, 2 * limit, offset);
    SortedIsUnique(s, t);
    SortedIsUnique(s, u);
    hide InOrder;
    hide DistinctKeys;
    JoinStretches(a, b, c, s, limit, offset);
  }

  lemma PairOf(a: seq<Row>, x: Row, y: Row)
    requires multiset(a) == multiset{x, y} && x != y
    ensures a == [x, y] || a == [y, x]
  {
    assert |a| == |multiset(a)| == 2;
    var b, c := a[0], a[1];
    assert a == [b, c];
    assert multiset{b, c} == multiset{x, y};
    assert b in multiset{x, y} && c in multiset{x, y};
    assert multiset{x, y}[b] == 1;
  }

  /** With equal keys it may not be: the server may give the same row on both pages, and the other one on none. */
  lemma TiedRowsMayRepeat(x: Row, y: Row)
    requires x != y && NewerEq(x, y) && NewerEq(y, x)
    ensures IsPage(Page([x], true), multiset{x, y}, 1, 0) && IsPage(Page([x], false), multiset{x, y}, 1, 1)
    ensures !IsPage(Page([x, x], false), multiset{x, y}, 2, 0)
  {
    assert InOrder([x, y]) && Stretch(Page([x], true), [x, y], 1, 0) && multiset([x, y]) == multiset{x, y};
    assert InOrder([y, x]) && Stretch(Page([x], false), [y, x], 1, 1) && multiset([y, x]) == multiset{x, y};
    var both := Page([x, x], false);
    assert both.rows[0] == x && both.rows[1] == x;
    forall sorted | multiset(sorted) == multiset{x, y} ensures !Stretch(both, sorted, 2, 0) {
      PairOf(sorted, x, y);
    }
  }

  function Halves(s: Slice): seq<Slice> {
    var mid := s.lo + (s.hi - s.lo) / 2;
    [Slice(mid + 1, s.hi), Slice(s.lo, mid)]
  }

  /** The slices still to be asked for after `n` statements: one that ran out of memory is cut in two. */
  function Pending(start: int, end: int, fates: nat -> Fate, n: nat): seq<Slice> {
    if n == 0 then Days(start, end)
    else
      var before := Pending(start, end, fates, n - 1);
      if before == [] then []
      else if fates(n - 1).MemoryLimit? then Halves(before[0]) + before[1..] else before[1..]
  }

  /** The n-th statement is sent and ends the query. */
  predicate EndsAt(start: int, end: int, fates: nat -> Fate, n: nat) {
    Pending(start, end, fates, n) != [] && Ends(fates(n), Pending(start, end, fates, n)[0])
  }

  lemma FirstPending(start: int, end: int, fates: nat -> Fate)
    ensures Pending(start, end, fates, 0) == Days(start, end)
  {
  }

  lemma NextPending(start: int, end: int, fates: nat -> Fate, n: nat)
    requires Pending(start, end, fates, n) != []
    ensures var before := Pending(start, end, fates, n);
            && Pending(start, end, fates, n + 1) ==
                 (if fates(n).MemoryLimit? then Halves(before[0]) + before[1..] else before[1..])
            && (EndsAt(start, end, fates, n) <==> Ends(fates(n), before[0]))
  {
  }

  /** `BinlogRows.query`: the page of one answer to the whole range, however the range was sliced and split. Of the `sent`
      statements none before the last ends the query, and it fails if and only if the last one does. */
  method Query(table: seq<Row>, start: int, end: int, limit: nat, offset: nat, fates: nat -> Fate)
    returns (page: Option<Page>, sent: nat)
    ensures forall n | 0 <= n < sent - 1 :: !EndsAt(start, end, fates, n)
    ensures page.None? <==> sent > 0 && EndsAt(start, end, fates, sent - 1)
    ensures page.Some? ==>
              exists all: multiset<Row> ::
                (forall r :: all[r] == if start <= r.epoch <= end then multiset(table)[r] else 0) && IsPage(page.value, all, limit, offset)
  {
    hide IsPage;
    hide Answers;
    hide InRange;
    hide Work;
    hide Pending;
    hide EndsAt;
    hide Days;
    FirstPending(start, end, fates);
    var wanted := offset + limit + 1;
    var rows: seq<Row> := [];
    var pending := DaySlices(start, end);
    sent := 0;
    ghost var low := end + 1;
    NothingRead(table, end, wanted);
    while pending != []
      invariant Tiles(pending, start, low - 1) && low <= end + 1 && (low >= start || low == end + 1)
      invariant pending == Pending(start, end, fates, sent)
      invariant forall n | 0 <= n < sent :: !EndsAt(start, end, fates, n)
      invariant |rows| < wanted && Answers(rows, multiset(InRange(table, low, end)), wanted)
      decreases Work(pending)
    {
      var s := pending[0];
      WorkSmaller(pending, start, low - 1);
      NextPending(start, end, fates, sent);
      pending := pending[1..];
      var fate := fates(sent);
      sent := sent + 1;
      if fate.Late? || fate.OtherError? || (fate.MemoryLimit? && s.hi - s.lo < 2 * SPLIT_MIN) {
        page := None;
        return;
      }
      if fate.MemoryLimit? {
        var mid := s.lo + (s.hi - s.lo) / 2;
        SplitTiles(pending, s, mid, start);
        pending := [Slice(mid + 1, s.hi), Slice(s.lo, mid)] + pending;
      } else {
        var more := Ask(table, s, wanted - |rows|);
        ReadOn(table, rows, more, s, end, wanted);
        rows := rows + more;
        low := s.lo;
        if |rows| >= wanted {
          break;
        }
      }
    }
    RestIsOlder(table, rows, start, low, end, wanted);
    page := Some(PageOf(rows, limit, offset));
    AnswerGivesPage(rows, multiset(InRange(table, start, end)), limit, offset);
    RangeCounts(table, start, end);
  }

  lemma WorkSmaller(pending: seq<Slice>, start: int, end: int)
    requires Tiles(pending, start, end) && pending != []
    ensures Work(pending) == 2 * (pending[0].hi - pending[0].lo) + 1 + Work(pending[1..]) && Work(pending[1..]) >= 0
  {
    WorkNat(pending[1..], start, pending[0].lo - 1);
  }

  lemma NothingRead(table: seq<Row>, end: int, wanted: nat)
    ensures Answers([], multiset(InRange(table, end + 1, end)), wanted)
  {
    KeepNone(table, (r: Row) => end + 1 <= r.epoch <= end);
  }

  lemma SplitTiles(pending: seq<Slice>, s: Slice, mid: int, start: int)
    requires start <= s.lo <= mid < s.hi && Tiles(pending, start, s.lo - 1)
    ensures var more := [Slice(mid + 1, s.hi), Slice(s.lo, mid)] + pending;
            Tiles(more, start, s.hi) && Work(more) == Work(pending) + 2 * (s.hi - s.lo)
  {
    var tail := [Slice(s.lo, mid)] + pending;
    assert tail[1..] == pending;
    assert ([Slice(mid + 1, s.hi), Slice(s.lo, mid)] + pending)[1..] == tail;
  }

  lemma ReadOn(table: seq<Row>, rows: seq<Row>, more: seq<Row>, s: Slice, end: int, wanted: nat)
    requires |rows| < wanted && s.lo <= s.hi <= end
    requires Answers(rows, multiset(InRange(table, s.hi + 1, end)), wanted)
    requires Answers(more, multiset(InRange(table, s.lo, s.hi)), wanted - |rows|)
    ensures Answers(rows + more, multiset(InRange(table, s.lo, end)), wanted)
  {
    hide *;
    RangeInTwo(table, s.lo, s.hi, end);
    RangesInOrder(table, s.lo, s.hi, end);
    var newer, older := multiset(InRange(table, s.hi + 1, end)), multiset(InRange(table, s.lo, s.hi));
    AnswersInTwo(rows, newer, more, older, wanted);
    SumCommutes(newer, older);
  }

  lemma SumCommutes(a: multiset<Row>, b: multiset<Row>)
    ensures a + b == b + a
  {
  }

  lemma RestIsOlder(table: seq<Row>, rows: seq<Row>, start: int, low: int, end: int, wanted: nat)
    requires low <= end + 1 && (low >= start || low == end + 1)
    requires Answers(rows, multiset(InRange(table, low, end)), wanted)
    requires |rows| >= wanted || low <= start
    ensures Answers(rows, multiset(InRange(table, start, end)), wanted)
  {
    if low < start {
      KeepNone(table, (r: Row) => low <= r.epoch <= end);
      KeepNone(table, (r: Row) => start <= r.epoch <= end);
    } else if low > start {
      RangeInTwo(table, start, low - 1, end);
      RangesInOrder(table, start, low - 1, end);
      var newer, older := multiset(InRange(table, low, end)), multiset(InRange(table, start, low - 1));
      hide InRange;
      AnswersEarly(rows, newer, older, wanted);
      hide Answers;
      assert newer + older == older + newer;
    }
  }
}
