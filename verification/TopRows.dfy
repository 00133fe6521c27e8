/** The newest rows of a set: what merging, truncating and stopping early may and may not do to them. Shared by the
    paged queries over indexed files and over packed objects. */
module TopRows {
  import opened Select

  /** An event. `rank` stands for file name, end position and row index, `body` for every other column. */
  datatype Row = Row(id: int, epoch: int, rank: int, body: int)

  /** The full sort key, descending: time, rank, and the event id as the last word. */
  predicate Newer(a: Row, b: Row) {
    if a.epoch != b.epoch then a.epoch > b.epoch
    else if a.rank != b.rank then a.rank > b.rank
    else a.id > b.id
  }

  /** One identity, one content. */
  predicate Consistent(rows: set<Row>) { forall a, b | a in rows && b in rows && a.id == b.id :: a == b }

  predicate Descending(a: seq<Row>) { forall i, j | 0 <= i < j < |a| :: Newer(a[i], a[j]) }

  function Elements(a: seq<Row>): set<Row> { set r | r in a }

  /** The first `n` of all rows in descending order. */
  predicate IsTop(a: seq<Row>, all: set<Row>, n: nat) {
    && Descending(a)
    && Elements(a) <= all
    && |a| == (if n < |all| then n else |all|)
    && forall r, x | r in all - Elements(a) && x in a :: Newer(x, r)
  }

  lemma {:induction false} DescendingIsDistinct(a: seq<Row>)
    requires Descending(a)
    ensures |Elements(a)| == |a|
  {
    if a != [] {
      var n := |a| - 1;
      DescendingIsDistinct(a[..n]);
      assert Elements(a) == Elements(a[..n]) + {a[n]};
      assert a[n] !in a[..n];
    }
  }

  lemma SubsetSize(a: set<Row>, b: set<Row>)
    requires a <= b
    ensures |a| <= |b| && (|a| == |b| ==> a == b)
  {
    assert |b - a| == |b| - |a|;
  }

  /** A top that is shorter than allowed is everything. */
  lemma ShortIsAll(a: seq<Row>, all: set<Row>, n: nat)
    requires IsTop(a, all, n) && |a| < n
    ensures Elements(a) == all
  {
    DescendingIsDistinct(a);
    SubsetSize(Elements(a), all);
  }

  /** When everything fits, the top is everything. */
  lemma TopIsAll(a: seq<Row>, all: set<Row>, n: nat)
    requires IsTop(a, all, n)
    ensures Descending(a) && (|all| <= n ==> Elements(a) == all) && (|a| >= n ==> |all| >= n)
  {
    DescendingIsDistinct(a);
    SubsetSize(Elements(a), all);
  }

  lemma ConsistentSubset(a: set<Row>, b: set<Row>)
    requires a <= b && Consistent(b)
    ensures Consistent(a)
  {
  }

  lemma NewerIsTotal(a: Row, b: Row)
    ensures Newer(a, b) || Newer(b, a) || (a.id == b.id && a.epoch == b.epoch && a.rank == b.rank)
  {
  }

  /** A set given by its top, or in full. */
  predicate Stands(b: seq<Row>, sb: set<Row>, n: nat) { Elements(b) == sb || IsTop(b, sb, n) }

  lemma StandsSize(b: seq<Row>, sb: set<Row>, n: nat)
    requires Stands(b, sb, n)
    ensures Elements(b) <= sb
    ensures Elements(b) == sb || |Elements(b)| == n < |sb|
  {
    if Elements(b) != sb {
      DescendingIsDistinct(b);
      if |b| < n {
        ShortIsAll(b, sb, n);
      }
      SubsetSize(Elements(b), sb);
    }
  }

  /** The top of what stands for two sets is the top of both; and it is everything exactly when all of it fits. */
  lemma TopOfTops(a: seq<Row>, sa: set<Row>, b: seq<Row>, sb: set<Row>, c: seq<Row>, n: nat)
    requires IsTop(a, sa, n) && Stands(b, sb, n) && IsTop(c, Elements(a) + Elements(b), n)
    requires Consistent(sa + sb)
    ensures IsTop(c, sa + sb, n)
    ensures |sa + sb| <= n <==> Elements(a) == sa && Elements(b) == sb && |Elements(a) + Elements(b)| <= n
  {
    StandsSize(a, sa, n);
    StandsSize(b, sb, n);
    var u, all := Elements(a) + Elements(b), sa + sb;
    SubsetSize(Elements(a), u);
    SubsetSize(Elements(b), u);
    SubsetSize(u, all);
    SubsetSize(sa, all);
    SubsetSize(sb, all);
    forall r, x | r in all - Elements(c) && x in c ensures Newer(x, r) {
      assert x in Elements(c);
      if r in u {
        assert r in u - Elements(c);
      } else if r in sa {
        LeftOut(a, sa, b, c, n, r, x);
      } else {
        assert Elements(b) + Elements(a) == u;
        LeftOut(b, sb, a, c, n, r, x);
      }
    }
  }

  /** A row that one top had to leave out is older than everything in the common top. */
  lemma LeftOut(a: seq<Row>, sa: set<Row>, b: seq<Row>, c: seq<Row>, n: nat, r: Row, x: Row)
    requires IsTop(a, sa, n) && IsTop(c, Elements(a) + Elements(b), n)
    requires r in sa && r !in Elements(a) && r !in Elements(b) && x in c
    requires Consistent(sa + Elements(b))
    ensures Newer(x, r)
  {
    if |a| < n {
      ShortIsAll(a, sa, n);
    }
    if !Newer(x, r) {
      assert x in Elements(c) && x.id != r.id;
      NewerIsTotal(x, r);
      forall y | y in Elements(a) ensures y in Elements(c) && y != x {
        assert r in sa - Elements(a) && Newer(y, r);
        assert y in Elements(c) || y in Elements(a) + Elements(b) - Elements(c);
      }
      assert Elements(a) + {x} <= Elements(c);
      DescendingIsDistinct(a);
      DescendingIsDistinct(c);
      SubsetSize(Elements(a) + {x}, Elements(c));
    }
  }

  /** Stopping early: rows older than all of a full top change nothing; rows of the boundary's own time must be read. */
  lemma OlderRowsDoNotMatter(a: seq<Row>, sa: set<Row>, older: set<Row>, n: nat)
    requires IsTop(a, sa, n) && |a| >= n
    requires forall r, x | r in older && x in a :: r.epoch < x.epoch
    ensures IsTop(a, sa + older, n)
  {
    DescendingIsDistinct(a);
    SubsetSize(Elements(a), sa + older);
    forall r, x | r in sa + older - Elements(a) && x in a ensures Newer(x, r) {
      assert r in sa - Elements(a) || r in older;
    }
  }

  /** Equal times are not enough: with the boundary's own time in the rest, the early stop can lose a row. */
  lemma TiesMustBeRead()
    ensures var kept, tie := Row(1, 5, 0, 0), Row(2, 5, 0, 0);
            IsTop([kept], {kept}, 1) && !IsTop([kept], {kept} + {tie}, 1)
  {
    var kept, tie := Row(1, 5, 0, 0), Row(2, 5, 0, 0);
    assert Elements([kept]) == {kept};
    assert tie in {kept} + {tie} - Elements([kept]) && kept in [kept] && !Newer(kept, tie);
  }

  /** There is only one top. */
  lemma {:induction false} TopIsUnique(a: seq<Row>, b: seq<Row>, all: set<Row>, n: nat)
    requires IsTop(a, all, n) && IsTop(b, all, n)
    ensures a == b
    decreases n
  {
    if a != [] {
      HeadIsNewest(a, all, n);
      HeadIsNewest(b, all, n);
      assert !Newer(a[0], b[0]) || !Newer(b[0], a[0]);
      TopTail(a, all, n);
      TopTail(b, all, n);
      hide IsTop;
      TopIsUnique(a[1..], b[1..], all - {a[0]}, n - 1);
      assert a == [a[0]] + a[1..] && b == [b[0]] + b[1..];
    }
  }

  lemma HeadIsNewest(a: seq<Row>, all: set<Row>, n: nat)
    requires IsTop(a, all, n) && a != []
    ensures a[0] in all && forall r | r in all && r != a[0] :: Newer(a[0], r)
  {
    assert a[0] in Elements(a);
    forall r | r in all && r != a[0] ensures Newer(a[0], r) {
      if r in Elements(a) {
        var i :| 0 <= i < |a| && a[i] == r;
      } else {
        assert r in all - Elements(a) && a[0] in a;
      }
    }
  }

  lemma TopTail(a: seq<Row>, all: set<Row>, n: nat)
    requires IsTop(a, all, n) && a != []
    ensures n > 0 && IsTop(a[1..], all - {a[0]}, n - 1)
  {
    assert a[0] in Elements(a);
    assert a[0] !in a[1..];
    assert all - {a[0]} - Elements(a[1..]) == all - Elements(a);
  }

  // ---- sorting and truncating ----

  /** Rows in descending order; rows of one identity with different contents come in any order. */
  method Sorted(rows: set<Row>) returns (a: seq<Row>)
    ensures Elements(a) == rows && |a| == |rows|
    ensures Consistent(rows) ==> Descending(a)
  {
    a := [];
    var rest := rows;
    while rest != {}
      invariant rest <= rows && Elements(a) == rows - rest && |a| == |rows| - |rest|
      invariant Consistent(rows) ==> Descending(a)
      decreases |rest|
    {
      var r: Row :| r in rest;
      var at := 0;
      while at < |a| && Newer(a[at], r)
        invariant 0 <= at <= |a|
        invariant forall i | 0 <= i < at :: Newer(a[i], r)
      {
        at := at + 1;
      }
      Inserted(a, r, at);
      if Consistent(rows) {
        InsertKeepsOrder(a, r, at, rows, rest);
      }
      a := a[..at] + [r] + a[at..];
      rest := rest - {r};
    }
  }

  lemma Inserted(a: seq<Row>, r: Row, at: nat)
    requires at <= |a|
    ensures Elements(a[..at] + [r] + a[at..]) == Elements(a) + {r}
  {
    var b := a[..at] + [r] + a[at..];
    assert a == a[..at] + a[at..];
    forall x ensures x in Elements(b) <==> x in Elements(a) || x == r {
      assert x in b <==> x in a[..at] || x == r || x in a[at..];
    }
  }

  lemma InsertKeepsOrder(a: seq<Row>, r: Row, at: nat, rows: set<Row>, rest: set<Row>)
    requires Consistent(rows) && rest <= rows && r in rest && Elements(a) == rows - rest && Descending(a)
    requires at <= |a| && (forall i | 0 <= i < at :: Newer(a[i], r)) && (at < |a| ==> !Newer(a[at], r))
    ensures Descending(a[..at] + [r] + a[at..])
  {
    assert a == a[..at] + a[at..];
    forall i | at <= i < |a| ensures Newer(r, a[i]) {
      assert a[i] in Elements(a) && a[at] in Elements(a);
      assert a[at].id != r.id;
      NewerIsTotal(r, a[at]);
    }
  }

  /** Sorted, with repeated rows next to each other. */
  predicate WeaklyDescending(a: seq<Row>) { forall i, j | 0 <= i < j < |a| :: !Newer(a[j], a[i]) }

  method WeakSort(rows: seq<Row>) returns (a: seq<Row>)
    ensures WeaklyDescending(a) && multiset(a) == multiset(rows)
  {
    a := [];
    var n := 0;
    while n < |rows|
      invariant 0 <= n <= |rows| && WeaklyDescending(a) && multiset(a) == multiset(rows[..n])
    {
      var r, at := rows[n], 0;
      while at < |a| && !Newer(r, a[at])
        invariant 0 <= at <= |a|
        invariant forall i | 0 <= i < at :: !Newer(r, a[i])
      {
        at := at + 1;
      }
      InsertWeakly(a, r, at);
      InsertedElements(a, r, at);
      assert rows[..n + 1] == rows[..n] + [r];
      a := InsertedAt(a, r, at);
      n := n + 1;
      hide WeaklyDescending;
    }
    assert rows[..|rows|] == rows;
  }

  lemma InsertWeakly(a: seq<Row>, r: Row, at: nat)
    requires WeaklyDescending(a) && at <= |a|
    requires (forall i | 0 <= i < at :: !Newer(r, a[i])) && (at < |a| ==> Newer(r, a[at]))
    ensures WeaklyDescending(InsertedAt(a, r, at))
  {
    var b := InsertedAt(a, r, at);
    hide InsertedAt;
    forall i | at <= i < |a| ensures !Newer(a[i], r) {
      assert at < i ==> !Newer(a[i], a[at]);
    }
    forall i, j | 0 <= i < j < |b| ensures !Newer(b[j], b[i]) {
      InsertedIndex(a, r, at, i);
      InsertedIndex(a, r, at, j);
    }
  }

  lemma WeakIsDescending(a: seq<Row>)
    requires WeaklyDescending(a) && |Elements(a)| == |a| && Consistent(Elements(a))
    ensures Descending(a)
  {
    forall i, j | 0 <= i < j < |a| ensures Newer(a[i], a[j]) {
      NoRepeats(a, i, j);
      assert a[i] in Elements(a) && a[j] in Elements(a);
      NewerIsTotal(a[i], a[j]);
    }
  }

  lemma NoRepeats(a: seq<Row>, i: nat, j: nat)
    requires i < j < |a| && |Elements(a)| == |a|
    ensures a[i] != a[j]
  {
    if a[i] == a[j] {
      var b := a[..j] + a[j + 1..];
      assert a == a[..j] + [a[j]] + a[j + 1..];
      assert a[i] in a[..j];
      assert Elements(b) == Elements(a);
      ElementsBound(b);
    }
  }

  lemma {:induction false} ElementsBound(a: seq<Row>)
    ensures |Elements(a)| <= |a|
  {
    if a != [] {
      var n := |a| - 1;
      ElementsBound(a[..n]);
      assert Elements(a) == Elements(a[..n]) + {a[n]};
    }
  }

  lemma SameRows(a: seq<Row>, b: seq<Row>)
    requires multiset(a) == multiset(b)
    ensures Elements(a) == Elements(b) && |a| == |b|
  {
    forall r ensures r in a <==> r in b {
      assert r in a <==> r in multiset(a);
    }
    assert |multiset(a)| == |a| && |multiset(b)| == |b|;
  }

  function First(a: seq<Row>, n: nat): seq<Row> { if n < |a| then a[..n] else a }

  lemma FirstIsTop(a: seq<Row>, rows: set<Row>, n: nat)
    requires Descending(a) && Elements(a) == rows
    ensures IsTop(First(a, n), rows, n)
  {
    DescendingIsDistinct(a);
    if n < |a| {
      assert a == a[..n] + a[n..];
      forall r, x | r in rows - Elements(a[..n]) && x in a[..n] ensures Newer(x, r) {
        var j :| 0 <= j < n && a[..n][j] == x;
        assert r in a && r in a[n..];
        var i :| 0 <= i < |a[n..]| && a[n..][i] == r;
        assert a[n + i] == r && a[j] == x;
      }
      DescendingIsDistinct(a[..n]);
    }
  }

  // ---- pages ----

  datatype Page = Page(rows: seq<Row>, hasMore: bool)

  /** Offset, limit and has-more, cut from the top of offset + limit + 1. */
  function PageOf(top: seq<Row>, limit: nat, offset: nat): Page {
    var rest := if offset < |top| then top[offset..] else [];
    Page(First(rest, limit), |top| > offset + limit)
  }

  /** The page is a stretch of the whole sorted list, and has-more tells whether the list goes on. */
  lemma PageIsStretch(top: seq<Row>, sorted: seq<Row>, rows: set<Row>, limit: nat, offset: nat)
    requires Descending(sorted) && Elements(sorted) == rows && IsTop(top, rows, offset + limit + 1)
    ensures var page := PageOf(top, limit, offset);
            && page.rows == First(if offset < |sorted| then sorted[offset..] else [], limit)
            && (page.hasMore <==> |sorted| > offset + limit)
  {
    FirstIsTop(sorted, rows, offset + limit + 1);
    TopIsUnique(top, First(sorted, offset + limit + 1), rows, offset + limit + 1);
    DescendingIsDistinct(sorted);
  }

  /** The page in its own terms: the rows at `offset` and after, of all rows from the newest to the oldest. */
  predicate Stretch(page: Page, sorted: seq<Row>, limit: nat, offset: nat) {
    && (page.hasMore <==> |sorted| > offset + limit)
    && |page.rows| == (if |sorted| <= offset then 0 else if |sorted| - offset < limit then |sorted| - offset else limit)
    && forall i | 0 <= i < |page.rows| :: page.rows[i] == sorted[offset + i]
  }

  /** Times descend; at one time ranks do, and at one rank identities. */
  predicate NewestFirst(sorted: seq<Row>) {
    forall i, j | 0 <= i < j < |sorted| ::
      && sorted[i].epoch >= sorted[j].epoch
      && (sorted[i].epoch == sorted[j].epoch ==> sorted[i].rank >= sorted[j].rank)
      && (sorted[i].epoch == sorted[j].epoch && sorted[i].rank == sorted[j].rank ==> sorted[i].id > sorted[j].id)
  }

  ghost predicate IsPage(page: Page, rows: set<Row>, limit: nat, offset: nat) {
    exists sorted :: NewestFirst(sorted) && Elements(sorted) == rows && Stretch(page, sorted, limit, offset)
  }

  lemma OrdersAgree(a: seq<Row>)
    ensures Descending(a) <==> NewestFirst(a)
  {
    if NewestFirst(a) {
      forall i, j | 0 <= i < j < |a| ensures Newer(a[i], a[j]) {
      }
    }
  }

  /** Rows of one content per identity can be put in order. */
  lemma {:induction false} SortedExists(rows: set<Row>) returns (sorted: seq<Row>)
    requires Consistent(rows)
    ensures Descending(sorted) && Elements(sorted) == rows
    decreases |rows|
  {
    sorted := [];
    if rows != {} {
      var r :| r in rows;
      ConsistentSubset(rows - {r}, rows);
      var rest := SortedExists(rows - {r});
      var at := PlaceOf(rest, r);
      Inserted(rest, r, at);
      InsertKeepsOrder(rest, r, at, rows, {r});
      sorted := rest[..at] + [r] + rest[at..];
    }
  }

  lemma {:induction false} PlaceOf(a: seq<Row>, r: Row) returns (at: nat)
    ensures at <= |a| && (forall i | 0 <= i < at :: Newer(a[i], r)) && (at < |a| ==> !Newer(a[at], r))
  {
    if a == [] || !Newer(a[0], r) {
      at := 0;
    } else {
      var further := PlaceOf(a[1..], r);
      at := further + 1;
      forall i | 0 <= i < at ensures Newer(a[i], r) {
        assert i > 0 ==> a[i] == a[1..][i - 1];
      }
    }
  }

  /** The page cut out of a top is the page of all rows. */
  lemma TopGivesPage(top: seq<Row>, rows: set<Row>, limit: nat, offset: nat)
    requires Consistent(rows) && IsTop(top, rows, offset + limit + 1)
    ensures IsPage(PageOf(top, limit, offset), rows, limit, offset)
  {
    var sorted := SortedExists(rows);
    OrdersAgree(sorted);
    PageIsStretch(top, sorted, rows, limit, offset);
    hide IsTop;
    hide Consistent;
    assert Stretch(PageOf(top, limit, offset), sorted, limit, offset);
  }

  lemma SortedIsUnique(a: seq<Row>, b: seq<Row>)
    requires NewestFirst(a) && NewestFirst(b) && Elements(a) == Elements(b)
    ensures a == b
  {
    OrdersAgree(a);
    OrdersAgree(b);
    FirstIsTop(a, Elements(a), |a| + |b|);
    FirstIsTop(b, Elements(b), |a| + |b|);
    TopIsUnique(a, b, Elements(a), |a| + |b|);
  }

  /** A page followed by the next one is the page twice as long, and says the same of what follows; there is a next row if and
      only if the first page says so. */
  lemma PagesJoin(a: Page, b: Page, c: Page, rows: set<Row>, limit: nat, offset: nat)
    requires IsPage(a, rows, limit, offset) && IsPage(b, rows, limit, offset + limit) && IsPage(c, rows, 2 * limit, offset)
    ensures c.rows == a.rows + b.rows && c.hasMore == b.hasMore && (limit > 0 ==> (a.hasMore <==> b.rows != []))
  {
    var s :| NewestFirst(s) && Elements(s) == rows && Stretch(a, s, limit, offset);
    var t :| NewestFirst(t) && Elements(t) == rows && Stretch(b, t, limit, offset + limit);
    var u :| NewestFirst(u) && Elements(u) == rows && Stretch(c, u, 2 * limit, offset);
    SortedIsUnique(s, t);
    SortedIsUnique(s, u);
    hide NewestFirst;
    hide Elements;
    assert |c.rows| == |a.rows| + |b.rows|;
  }
}
