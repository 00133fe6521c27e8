/** Queries over packed objects: choosing candidates from a versioned manifest (app/clickhouse_raw_oss.py:309-456) and
    walking them page by page with an early stop (app/clickhouse_query.py:572-688); and the paging of query_events,
    which removes duplicates as it goes (app/clickhouse_query.py:808-830). */
module PackedQuery {
  import opened Select
  import opened TopRows

  // ---- the versioned manifest ----

  /** One inserted version of a manifest row. The two flags say whether the version meets the query's root, storage and
      instance conditions, and the conditions on its catalog. */
  datatype Version = Version(path: int, version: nat, deleted: bool, minEpoch: int, maxEpoch: int, matches: bool,
                             catalogReady: bool, catalogMatches: bool)

  /** The window, and the conditions the statement over the objects has on their rows. */
  datatype Query = Query(startUs: int, endUs: int, keeps: Row -> bool)

  /** `_manifest_filter_sql` without the catalog: the conditions of the key subquery. */
  predicate KeyFilter(v: Version, q: Query) {
    !v.deleted && v.matches && v.maxEpoch >= q.startUs && v.minEpoch <= q.endUs
  }

  /** With the catalog. */
  predicate Filter(v: Version, q: Query) { KeyFilter(v, q) && (!v.catalogReady || v.catalogMatches) }

  /** FINAL for one path: the greatest version, the later insert winning. */
  function Latest(table: seq<Version>, path: int): Option<Version> {
    if table == [] then None
    else
      var before, v := Latest(table[..|table| - 1], path), table[|table| - 1];
      if v.path == path && (before.None? || v.version >= before.value.version) then Some(v) else before
  }

  /** Candidates: the latest version of a path, if it passes the whole filter. */
  predicate Selected(table: seq<Version>, q: Query, v: Version) { Latest(table, v.path) == Some(v) && Filter(v, q) }

  /** PREWHERE part_path IN (the paths any version of which passes the key filter). */
  function Narrowed(table: seq<Version>, q: Query): seq<Version> {
    var paths := set v | v in table && KeyFilter(v, q) :: v.path;
    Keep(table, (v: Version) => v.path in paths)
  }

  lemma LatestOneMore(front: seq<Version>, v: Version, path: int)
    ensures Latest(front + [v], path) ==
              if v.path == path && (Latest(front, path).None? || v.version >= Latest(front, path).value.version) then Some(v)
              else Latest(front, path)
  {
    assert (front + [v])[..|front|] == front;
  }

  lemma {:induction false} LatestKept(table: seq<Version>, p: Version -> bool, path: int)
    requires forall v | v in table && v.path == path :: p(v)
    ensures Latest(Keep(table, p), path) == Latest(table, path)
  {
    if table != [] {
      var front, v := table[..|table| - 1], table[|table| - 1];
      LatestKept(front, p, path);
      assert table == front + [v] && v in table;
      KeepConcat(front, [v], p);
      assert Keep([v], p) == if p(v) then [v] else [] by {
        assert [v][1..] == [];
      }
      hide Keep;
      LatestOneMore(front, v, path);
      LatestOneMore(Keep(front, p), v, path);
      hide Latest;
      assert Keep(front, p) + [] == Keep(front, p);
    }
  }

  lemma {:induction false} LatestIsThere(table: seq<Version>, path: int)
    ensures Latest(table, path).Some? ==> Latest(table, path).value in table && Latest(table, path).value.path == path
  {
    if table != [] {
      LatestIsThere(table[..|table| - 1], path);
    }
  }

  /** Narrowing by key first changes no candidate: a path is kept with all its versions, or has no candidate. */
  lemma NarrowingIsExact(table: seq<Version>, q: Query, v: Version)
    ensures Selected(Narrowed(table, q), q, v) <==> Selected(table, q, v)
  {
    var paths := set w | w in table && KeyFilter(w, q) :: w.path;
    var p := (w: Version) => w.path in paths;
    if v.path in paths {
      LatestKept(table, p, v.path);
    } else {
      LatestIsThere(table, v.path);
      LatestIsThere(Narrowed(table, q), v.path);
      KeepMembers(table, p);
    }
  }

  /** Filtering the versions themselves before FINAL would bring a deleted object back. */
  lemma PushingTheFilterDownResurrects(q: Query)
    requires q.startUs <= 0 <= q.endUs
    ensures exists table, v ::
              !Selected(table, q, v) && Selected(Keep(table, (w: Version) => KeyFilter(w, q)), q, v)
  {
    var alive := Version(1, 1, false, 0, 0, true, false, false);
    var gone := alive.(version := 2, deleted := true);
    var table := [alive, gone];
    var p := (w: Version) => KeyFilter(w, q);
    assert [alive][..0] == [];
    assert Latest([alive], 1) == Some(alive);
    assert table[..1] == [alive];
    assert Latest(table[..1], 1) == Some(alive);
    assert Latest(table, 1) == Some(gone);
    assert [gone][1..] == [] && Keep([gone], p) == [];
    assert table[1..] == [gone];
    assert Keep(table[1..], p) == [];
    assert Keep(table, p) == [alive];
    assert !Selected(table, q, alive) && Selected([alive], q, alive);
  }

  // ---- pages of candidates ----

  const CANDIDATE_PAGE: nat := 64
  const OBJECT_BATCH: nat := 4

  /** Candidates are ordered like rows: by greatest event time, then by path, descending. Each has one row per path. */
  function AfterCursor(all: set<Row>, cursor: Option<Row>): set<Row> {
    set c | c in all && (cursor.None? || Newer(cursor.value, c))
  }

  method CandidatePage(all: set<Row>, cursor: Option<Row>) returns (page: seq<Row>)
    requires Consistent(all)
    ensures IsTop(page, AfterCursor(all, cursor), CANDIDATE_PAGE)
  {
    var rest := AfterCursor(all, cursor);
    ConsistentSubset(rest, all);
    var sorted := Sorted(rest);
    FirstIsTop(sorted, rest, CANDIDATE_PAGE);
    page := First(sorted, CANDIDATE_PAGE);
  }

  /** The next page starts where this one ends: nothing is skipped and nothing comes twice. */
  lemma CursorMovesOn(all: set<Row>, cursor: Option<Row>, page: seq<Row>)
    requires Consistent(all) && IsTop(page, AfterCursor(all, cursor), CANDIDATE_PAGE) && page != []
    ensures AfterCursor(all, Some(page[|page| - 1])) == AfterCursor(all, cursor) - Elements(page)
  {
    var last, rest := page[|page| - 1], AfterCursor(all, cursor);
    assert last in Elements(page);
    forall c ensures c in AfterCursor(all, Some(last)) <==> c in rest - Elements(page) {
      if c in Elements(page) {
        var i :| 0 <= i < |page| && page[i] == c;
        assert i < |page| - 1 ==> Newer(c, last);
      }
      if c in rest - Elements(page) {
        assert last in page && Newer(last, c);
      }
      if c in AfterCursor(all, Some(last)) && cursor.Some? {
        assert Newer(cursor.value, last) && Newer(last, c);
      }
    }
  }

  // ---- rows of a batch of objects ----

  type Objects = map<int, set<Row>>

  function RowsAt(objects: Objects, path: int): set<Row> { if path in objects then objects[path] else {} }

  function RowsOf(objects: Objects, candidates: set<Row>): set<Row> {
    set c, r | c in candidates && r in RowsAt(objects, c.id) :: r
  }

  /** An event belongs to one object, and an object's bound covers its rows. */
  predicate WellPacked(objects: Objects, candidates: set<Row>) {
    && (forall c, d, r | c in candidates && d in candidates && r in RowsAt(objects, c.id) && r in RowsAt(objects, d.id) :: c == d)
    && forall c, r | c in candidates && r in RowsAt(objects, c.id) :: r.epoch <= c.epoch
  }

  lemma RowsOfOneMore(objects: Objects, batch: seq<Row>, n: nat)
    requires n < |batch|
    ensures RowsOf(objects, Elements(batch[..n + 1])) == RowsOf(objects, Elements(batch[..n])) + RowsAt(objects, batch[n].id)
  {
    assert batch[..n + 1] == batch[..n] + [batch[n]];
    assert Elements(batch[..n + 1]) == Elements(batch[..n]) + {batch[n]};
    RowsOfUnion(objects, Elements(batch[..n]), {batch[n]});
    assert RowsOf(objects, {batch[n]}) == RowsAt(objects, batch[n].id) by {
      forall r | r in RowsAt(objects, batch[n].id) ensures r in RowsOf(objects, {batch[n]}) {
        assert batch[n] in {batch[n]};
      }
    }
  }

  lemma RowsOfUnion(objects: Objects, a: set<Row>, b: set<Row>)
    ensures RowsOf(objects, a + b) == RowsOf(objects, a) + RowsOf(objects, b)
  {
    forall r ensures r in RowsOf(objects, a + b) <==> r in RowsOf(objects, a) || r in RowsOf(objects, b) {
      if r in RowsOf(objects, a) {
        var c :| c in a && r in RowsAt(objects, c.id);
        assert c in a + b;
      }
      if r in RowsOf(objects, b) {
        var c :| c in b && r in RowsAt(objects, c.id);
        assert c in a + b;
      }
    }
  }

  /** What a batch statement reads: every row as often as there are objects that hold it. */
  function BatchMultiset(objects: Objects, batch: seq<Row>): multiset<Row> {
    if batch == [] then multiset{}
    else BatchMultiset(objects, batch[..|batch| - 1]) + multiset(RowsAt(objects, batch[|batch| - 1].id))
  }

  lemma BatchOneMore(objects: Objects, batch: seq<Row>, n: nat, more: seq<Row>)
    requires n < |batch| && |more| == |Elements(more)| && Elements(more) == RowsAt(objects, batch[n].id)
    ensures BatchMultiset(objects, batch[..n + 1]) == BatchMultiset(objects, batch[..n]) + multiset(more)
  {
    assert batch[..n + 1][..n] == batch[..n];
    OnceEach(more);
  }

  lemma OnceEach(a: seq<Row>)
    requires |a| == |Elements(a)|
    ensures multiset(a) == multiset(Elements(a))
  {
    var all, once := multiset(a), multiset(Elements(a));
    assert once <= all;
    assert |all - once| == |all| - |once| == 0;
    assert all == once + (all - once);
  }

  /** The sorted result of the batch statement: every row of every object, an event once for each object that has it. */
  method BatchRows(objects: Objects, batch: seq<Row>) returns (list: seq<Row>)
    ensures multiset(list) == BatchMultiset(objects, batch) && WeaklyDescending(list)
    ensures Elements(list) == RowsOf(objects, Elements(batch))
    ensures Descending(batch) && Consistent(Elements(list)) && WellPacked(objects, Elements(batch)) ==> Descending(list)
  {
    hide *;
    var all: seq<Row> := [];
    NoRows(objects, batch);
    var n := 0;
    while n < |batch|
      invariant 0 <= n <= |batch|
      invariant multiset(all) == BatchMultiset(objects, batch[..n])
      invariant Elements(all) == RowsOf(objects, Elements(batch[..n]))
      invariant Descending(batch) && WellPacked(objects, Elements(batch)) ==> |all| == |Elements(all)|
    {
      var more := Sorted(RowsAt(objects, batch[n].id));
      RowsOfOneMore(objects, batch, n);
      BatchOneMore(objects, batch, n, more);
      if Descending(batch) && WellPacked(objects, Elements(batch)) {
        ObjectsDisjoint(objects, batch, n);
      }
      ElementsConcat(all, more);
      all := all + more;
      n := n + 1;
    }
    assert batch[..|batch|] == batch;
    list := WeakSort(all);
    SameRows(list, all);
    if Descending(batch) && Consistent(Elements(list)) && WellPacked(objects, Elements(batch)) {
      WeakIsDescending(list);
    }
  }

  lemma NoRows(objects: Objects, batch: seq<Row>)
    ensures Elements([]) == RowsOf(objects, Elements(batch[..0])) == {}
    ensures BatchMultiset(objects, batch[..0]) == multiset([])
  {
  }

  lemma ElementsConcat(a: seq<Row>, b: seq<Row>)
    ensures Elements(a + b) == Elements(a) + Elements(b)
    ensures Elements(a) !! Elements(b) ==> |Elements(a + b)| == |Elements(a)| + |Elements(b)|
  {
  }

  lemma ObjectsDisjoint(objects: Objects, batch: seq<Row>, n: nat)
    requires n < |batch| && Descending(batch) && WellPacked(objects, Elements(batch))
    ensures RowsOf(objects, Elements(batch[..n])) !! RowsAt(objects, batch[n].id)
  {
    forall r | r in RowsOf(objects, Elements(batch[..n])) ensures r !in RowsAt(objects, batch[n].id) {
      var c :| c in Elements(batch[..n]) && r in RowsAt(objects, c.id);
      var i :| 0 <= i < n && batch[..n][i] == c;
      assert Newer(batch[i], batch[n]) && c in Elements(batch) && batch[n] in Elements(batch);
    }
  }

  // ---- the walk ----

  /** The pages of one batch statement, read up to the target. */
  method ReadBatch(list: seq<Row>, target: nat, rawBatch: nat) returns (rows: seq<Row>)
    requires target > 0 && rawBatch > 0
    ensures rows == First(list, target)
  {
    rows := [];
    while |rows| < target
      invariant rows == First(list, |rows|) && |rows| <= target
      decreases target - |rows|
    {
      var limit := if rawBatch < target - |rows| then rawBatch else target - |rows|;
      var page := if |rows| + limit < |list| then list[|rows|..|rows| + limit] else list[|rows|..];
      rows := rows + page;
      if |page| < limit {
        break;
      }
    }
  }

  /** Keeps the first row of an event, sorts, and cuts to the target; `seen` follows. */
  method MergeBatch(unique: seq<Row>, seen: set<int>, rows: seq<Row>, target: nat) returns (more: seq<Row>, ids: set<int>)
    requires Consistent(Elements(unique)) && seen == Ids(unique)
    ensures Consistent(Elements(more)) && ids == Ids(more)
    ensures Consistent(Elements(unique) + Elements(rows)) ==> IsTop(more, Elements(unique) + Elements(rows), target)
  {
    more, ids := unique, seen;
    var n := 0;
    while n < |rows|
      invariant 0 <= n <= |rows|
      invariant Consistent(Elements(more)) && ids == Ids(more)
      invariant Consistent(Elements(unique) + Elements(rows)) ==> Elements(more) == Elements(unique) + Elements(rows[..n])
    {
      var r := rows[n];
      assert rows[..n + 1] == rows[..n] + [r];
      AddRow(more, ids, r);
      PrefixRow(unique, rows, n);
      hide Consistent;
      hide Elements;
      if r.id !in ids {
        more, ids := more + [r], ids + {r.id};
      }
      n := n + 1;
    }
    assert rows[..|rows|] == rows;
    var sorted := Sorted(Elements(more));
    FirstIsTop(sorted, Elements(more), target);
    ConsistentSubset(Elements(First(sorted, target)), Elements(more));
    more := First(sorted, target);
    ids := Ids(more);
  }

  /** A row of a new event is added; a row of a known event is the known row, if contents agree. */
  lemma AddRow(more: seq<Row>, ids: set<int>, r: Row)
    requires Consistent(Elements(more)) && ids == Ids(more)
    ensures r.id !in ids ==>
              && Consistent(Elements(more + [r])) && ids + {r.id} == Ids(more + [r])
              && Elements(more + [r]) == Elements(more) + {r}
    ensures r.id in ids && Consistent(Elements(more) + {r}) ==> Elements(more) == Elements(more) + {r}
  {
    ElementsConcat(more, [r]);
    assert Elements([r]) == {r};
    if r.id in ids {
      var known :| known in more && known.id == r.id;
      assert known in Elements(more) + {r} && r in Elements(more) + {r};
    } else {
      forall x | x in Elements(more) ensures x.id != r.id {
        assert x in more;
      }
      forall id ensures id in Ids(more + [r]) <==> id in ids + {r.id} {
        if id in ids {
          var x :| x in more && x.id == id;
          assert x in more + [r];
        }
        if id == r.id {
          assert r in more + [r];
        }
      }
    }
  }

  lemma PrefixRow(unique: seq<Row>, rows: seq<Row>, n: nat)
    requires n < |rows|
    ensures Elements(rows[..n + 1]) == Elements(rows[..n]) + {rows[n]}
    ensures Elements(rows[..0]) == {}
    ensures Consistent(Elements(unique) + Elements(rows)) ==> Consistent(Elements(unique) + Elements(rows[..n]) + {rows[n]})
  {
    assert rows[..n + 1] == rows[..n] + [rows[n]];
    ConsistentSubsetIf(Elements(unique) + Elements(rows[..n]) + {rows[n]}, Elements(unique) + Elements(rows));
  }

  lemma ConsistentSubsetIf(a: set<Row>, b: set<Row>)
    requires a <= b
    ensures Consistent(b) ==> Consistent(a)
  {
  }

  function Ids(a: seq<Row>): set<int> { set r | r in a :: r.id }

  /** The data the walk is promised: one content per event, one object per event. */
  predicate Sound(objects: Objects, candidates: set<Row>) {
    Consistent(RowsOf(objects, candidates)) && WellPacked(objects, candidates)
  }

  lemma SoundBatch(objects: Objects, candidates: set<Row>, batch: set<Row>)
    requires Sound(objects, candidates) && batch <= candidates
    ensures Consistent(RowsOf(objects, batch)) && WellPacked(objects, batch) && RowsOf(objects, batch) <= RowsOf(objects, candidates)
  {
    assert batch + candidates == candidates;
    RowsOfUnion(objects, batch, candidates);
    ConsistentSubset(RowsOf(objects, batch), RowsOf(objects, candidates));
  }

  /** One more batch read and merged. */
  lemma BatchMerged(objects: Objects, candidates: set<Row>, done: set<Row>, batch: seq<Row>, list: seq<Row>,
                    unique: seq<Row>, more: seq<Row>, target: nat)
    requires Sound(objects, candidates) && done <= candidates && Elements(batch) <= candidates
    requires IsTop(unique, RowsOf(objects, done), target)
    requires Descending(list) && Elements(list) == RowsOf(objects, Elements(batch))
    requires Consistent(Elements(unique) + Elements(First(list, target))) ==>
               IsTop(more, Elements(unique) + Elements(First(list, target)), target)
    ensures IsTop(more, RowsOf(objects, done + Elements(batch)), target)
  {
    var sa, sb := RowsOf(objects, done), RowsOf(objects, Elements(batch));
    RowsOfUnion(objects, done, Elements(batch));
    SoundBatch(objects, candidates, done + Elements(batch));
    FirstIsTop(list, sb, target);
    hide RowsOf;
    ConsistentSubset(Elements(unique) + Elements(First(list, target)), sa + sb);
    TopOfTops(unique, sa, First(list, target), sb, more, target);
  }

  /** Candidates no newer than `bound` hold nothing that could enter a full top whose last row is newer. */
  lemma WalkMayStop(objects: Objects, candidates: set<Row>, done: set<Row>, unique: seq<Row>, bound: int, target: nat)
    requires Sound(objects, candidates) && done <= candidates && IsTop(unique, RowsOf(objects, done), target)
    requires |unique| >= target > 0 && bound < unique[target - 1].epoch
    requires forall c | c in candidates - done :: c.epoch <= bound
    ensures IsTop(unique, RowsOf(objects, candidates), target)
  {
    var older := RowsOf(objects, candidates - done);
    assert |unique| == target;
    forall r, x | r in older && x in unique ensures r.epoch < x.epoch {
      var c :| c in candidates - done && r in RowsAt(objects, c.id);
      var j :| 0 <= j < |unique| && unique[j] == x;
      assert j < target - 1 ==> Newer(unique[j], unique[target - 1]);
    }
    assert done + (candidates - done) == candidates;
    RowsOfUnion(objects, done, candidates - done);
    OlderRowsDoNotMatter(unique, RowsOf(objects, done), older, target);
  }

  /** Candidates not yet read are no newer than the next one, or than the last of the page. */
  lemma RemainingBound(all: set<Row>, cursor: Option<Row>, page: seq<Row>, next: nat, c: Row)
    requires Consistent(all) && IsTop(page, AfterCursor(all, cursor), CANDIDATE_PAGE) && 0 < next <= |page|
    requires c in AfterCursor(all, cursor) && c !in page[..next]
    ensures c.epoch <= (if next < |page| then page[next] else page[|page| - 1]).epoch
  {
    if c in Elements(page) {
      var i :| 0 <= i < |page| && page[i] == c;
      forall j | 0 <= j < next ensures page[j] != c {
        assert page[..next][j] == page[j];
      }
      assert i > next ==> Newer(page[next], page[i]);
    } else {
      var last := page[|page| - 1];
      assert last in page && Newer(last, c);
      assert next < |page| - 1 ==> Newer(page[next], last);
    }
  }

  /** One page of candidates, in batches of four objects; `stop` says that the rest cannot matter. */
  method WalkPage(candidates: set<Row>, objects: Objects, ghost cursor: Option<Row>, page: seq<Row>, unique: seq<Row>,
                  seen: set<int>, target: nat, rawBatch: nat) returns (more: seq<Row>, ids: set<int>, stop: bool)
    requires Consistent(candidates) && target > 0 && rawBatch > 0
    requires IsTop(page, AfterCursor(candidates, cursor), CANDIDATE_PAGE)
    requires Consistent(Elements(unique)) && seen == Ids(unique)
    requires Sound(objects, candidates) ==>
               IsTop(unique, RowsOf(objects, candidates - AfterCursor(candidates, cursor)), target)
    ensures Consistent(Elements(more)) && ids == Ids(more)
    ensures Sound(objects, candidates) ==>
              IsTop(more, RowsOf(objects, if stop then candidates
                                          else candidates - AfterCursor(candidates, cursor) + Elements(page)), target)
  {
    hide RowsOf;
    hide Consistent;
    hide Sound;
    hide IsTop;
    more, ids, stop := unique, seen, false;
    ghost var rest := AfterCursor(candidates, cursor);
    ghost var before := candidates - rest;
    var n := 0;
    assert before + Elements(page[..0]) == before;
    while n < |page| && !stop
      invariant 0 <= n <= |page| && Consistent(Elements(more)) && ids == Ids(more)
      invariant !stop && Sound(objects, candidates) ==> IsTop(more, RowsOf(objects, before + Elements(page[..n])), target)
      invariant stop && Sound(objects, candidates) ==> IsTop(more, RowsOf(objects, candidates), target)
    {
      var next := if n + OBJECT_BATCH < |page| then n + OBJECT_BATCH else |page|;
      var batch := page[n..next];
      var list := BatchRows(objects, batch);
      var rows := ReadBatch(list, target, rawBatch);
      ghost var was := more;
      more, ids := MergeBatch(more, ids, rows, target);
      ghost var done := before + Elements(page[..next]);
      BatchInPage(page, n, next, rest);
      if Sound(objects, candidates) {
        assert Elements(batch) <= candidates && done <= candidates;
        BatchIsDescending(candidates, objects, batch, list);
        BatchMerged(objects, candidates, before + Elements(page[..n]), batch, list, was, more, target);
        assert before + Elements(page[..n]) + Elements(batch) == done;
      }
      var remaining := if next < |page| then page[next].epoch else page[|page| - 1].epoch;
      if |more| >= target && remaining < more[target - 1].epoch {
        if Sound(objects, candidates) {
          forall c | c in candidates - done ensures c.epoch <= remaining {
            RemainingBound(candidates, cursor, page, next, c);
          }
          WalkMayStop(objects, candidates, done, more, remaining, target);
        }
        stop := true;
      }
      n := next;
    }
    assert page[..|page|] == page;
  }

  lemma BatchInPage(page: seq<Row>, n: nat, next: nat, rest: set<Row>)
    requires n <= next <= |page| && IsTop(page, rest, CANDIDATE_PAGE)
    ensures Elements(page[..next]) == Elements(page[..n]) + Elements(page[n..next])
    ensures Elements(page[..next]) <= Elements(page) <= rest && Descending(page[n..next])
    ensures forall c :: c in page[..next] <==> c in Elements(page[..next])
  {
    SliceDescends(page, n, next);
    ElementsOfParts(page, n, next);
    hide Descending;
    hide Newer;
  }

  lemma ElementsOfParts(page: seq<Row>, n: nat, next: nat)
    requires n <= next <= |page|
    ensures Elements(page[..next]) == Elements(page[..n]) + Elements(page[n..next])
    ensures Elements(page[..next]) <= Elements(page)
  {
    assert page[..next] == page[..n] + page[n..next];
    ElementsConcat(page[..n], page[n..next]);
    assert page == page[..next] + page[next..];
    ElementsConcat(page[..next], page[next..]);
    hide Elements;
  }

  lemma SliceDescends(page: seq<Row>, n: nat, next: nat)
    requires n <= next <= |page| && Descending(page)
    ensures Descending(page[n..next])
  {
  }

  lemma BatchIsDescending(candidates: set<Row>, objects: Objects, batch: seq<Row>, list: seq<Row>)
    requires Sound(objects, candidates) && Elements(batch) <= candidates && Descending(batch)
    requires Elements(list) == RowsOf(objects, Elements(batch))
    requires Descending(batch) && Consistent(Elements(list)) && WellPacked(objects, Elements(batch)) ==> Descending(list)
    ensures Descending(list)
  {
    SoundBatch(objects, candidates, Elements(batch));
  }

  lemma StartOfWalk(candidates: set<Row>, objects: Objects, target: nat)
    ensures Consistent(Elements([])) && Ids([]) == {}
    ensures IsTop([], RowsOf(objects, candidates - AfterCursor(candidates, None)), target)
  {
    assert AfterCursor(candidates, None) == candidates && candidates - candidates == {};
    assert RowsOf(objects, {}) == {};
  }

  /** `_query_raw_events`: however the candidates are paged, batched and cut short, the page is that of all their rows. */
  method QueryRaw(candidates: set<Row>, objects: Objects, limit: nat, offset: nat, rawBatch: nat) returns (page: Page)
    requires Consistent(candidates) && rawBatch > 0
    ensures Sound(objects, candidates) ==>
              IsPage(page, RowsOf(objects, candidates), limit, offset)
  {
    var target := offset + limit + 1;
    StartOfWalk(candidates, objects, target);
    hide *;
    var unique: seq<Row>, seen: set<int>, stop := [], {}, false;
    var cursor: Option<Row> := None;
    while !stop
      invariant Consistent(Elements(unique)) && seen == Ids(unique)
      invariant !stop && Sound(objects, candidates) ==>
                  IsTop(unique, RowsOf(objects, candidates - AfterCursor(candidates, cursor)), target)
      invariant stop && Sound(objects, candidates) ==> IsTop(unique, RowsOf(objects, candidates), target)
      decreases !stop, |AfterCursor(candidates, cursor)|
    {
      var list := CandidatePage(candidates, cursor);
      ghost var rest := AfterCursor(candidates, cursor);
      PageOfRest(candidates, list, cursor);
      if list == [] {
        break;
      }
      unique, seen, stop := WalkPage(candidates, objects, cursor, list, unique, seen, target, rawBatch);
      if !stop && |list| < CANDIDATE_PAGE {
        break;
      }
      CursorMovesOn(candidates, cursor, list);
      cursor := Some(list[|list| - 1]);
    }
    page := PageOf(unique, limit, offset);
    if Sound(objects, candidates) {
      SoundRows(objects, candidates);
      TopGivesPage(unique, RowsOf(objects, candidates), limit, offset);
    }
  }

  lemma SoundRows(objects: Objects, candidates: set<Row>)
    requires Sound(objects, candidates)
    ensures Consistent(RowsOf(objects, candidates))
  {
  }

  /** A page shorter than allowed is the rest, and a page that is not empty makes the rest smaller. */
  lemma PageOfRest(candidates: set<Row>, page: seq<Row>, cursor: Option<Row>)
    requires IsTop(page, AfterCursor(candidates, cursor), CANDIDATE_PAGE)
    ensures var rest := AfterCursor(candidates, cursor);
            && (|page| < CANDIDATE_PAGE ==> candidates - rest + Elements(page) == candidates)
            && (page == [] ==> candidates - rest == candidates)
            && (page != [] ==> |rest - Elements(page)| < |rest|)
            && candidates - (rest - Elements(page)) == candidates - rest + Elements(page)
  {
    var rest := AfterCursor(candidates, cursor);
    assert rest <= candidates && Elements(page) <= rest;
    hide AfterCursor;
    if |page| < CANDIDATE_PAGE {
      ShortIsAll(page, rest, CANDIDATE_PAGE);
    }
    if page != [] {
      assert page[0] in Elements(page);
      SubsetSize(rest - Elements(page), rest);
    }
    assert page == [] ==> Elements(page) == {};
    hide IsTop;
    hide Elements;
  }

  // ---- from the versioned manifest to the page ----

  function CandidateOf(v: Version): Row { Row(v.path, v.maxEpoch, v.path, 0) }

  function CandidatesOf(table: seq<Version>, q: Query): set<Row> {
    set v | v in table && Selected(table, q, v) :: CandidateOf(v)
  }

  lemma OneCandidateAPath(table: seq<Version>, q: Query)
    ensures Consistent(CandidatesOf(table, q))
  {
  }

  lemma NarrowedCandidates(table: seq<Version>, q: Query)
    ensures CandidatesOf(Narrowed(table, q), q) == CandidatesOf(table, q)
  {
    var narrow := Narrowed(table, q);
    hide Narrowed;
    hide Filter;
    forall v ensures v in narrow && Selected(narrow, q, v) <==> v in table && Selected(table, q, v) {
      NarrowingIsExact(table, q, v);
      LatestIsThere(table, v.path);
      LatestIsThere(narrow, v.path);
      hide Latest;
    }
    hide Selected;
    hide CandidateOf;
    forall c ensures c in CandidatesOf(narrow, q) <==> c in CandidatesOf(table, q) {
    }
  }

  /** The version of its path that FINAL keeps: none is greater, and of equal ones it is the last. */
  predicate IsLatest(table: seq<Version>, i: nat) {
    i < |table| && forall j | 0 <= j < |table| && table[j].path == table[i].path && j != i ::
      table[j].version < table[i].version || (table[j].version == table[i].version && j < i)
  }

  lemma LatestStays(front: seq<Version>, v: Version, i: nat)
    requires IsLatest(front, i) && (v.path != front[i].path || v.version < front[i].version)
    ensures IsLatest(front + [v], i)
  {
    var table := front + [v];
    forall j | 0 <= j < |table| && table[j].path == table[i].path && j != i
      ensures table[j].version < table[i].version || (table[j].version == table[i].version && j < i)
    {
      assert j < |front| ==> table[j] == front[j];
    }
  }

  lemma LatestTakenOver(front: seq<Version>, v: Version, i: nat)
    requires IsLatest(front, i) && v.path == front[i].path && v.version >= front[i].version
    ensures IsLatest(front + [v], |front|)
  {
    var table := front + [v];
    forall j | 0 <= j < |front| && table[j].path == v.path ensures table[j].version <= v.version {
      assert table[j] == front[j];
    }
  }

  lemma {:induction false} LatestAt(table: seq<Version>, path: int) returns (i: nat)
    requires exists v :: v in table && v.path == path
    ensures i < |table| && IsLatest(table, i) && table[i].path == path && Latest(table, path) == Some(table[i])
  {
    var n := |table| - 1;
    var front, v := table[..n], table[n];
    assert table == front + [v];
    if exists w :: w in front && w.path == path {
      i := LatestAt(front, path);
      assert front[i] == table[i];
      if v.path == path && v.version >= front[i].version {
        LatestTakenOver(front, v, i);
        i := n;
      } else {
        LatestStays(front, v, i);
      }
    } else {
      i := n;
      LatestIsThere(front, path);
      forall j | 0 <= j < n ensures table[j].path != path {
        assert table[j] == front[j] && front[j] in front;
      }
    }
  }

  /** What FINAL keeps of a path is its latest version. */
  lemma LatestMeans(table: seq<Version>, i: nat)
    requires IsLatest(table, i)
    ensures Latest(table, table[i].path) == Some(table[i])
  {
    assert table[i] in table;
    var m := LatestAt(table, table[i].path);
  }

  lemma SelectedMeans(table: seq<Version>, q: Query, v: Version)
    ensures v in table && Selected(table, q, v) <==> exists i: nat | i < |table| && IsLatest(table, i) :: table[i] == v && Filter(v, q)
  {
    hide Filter;
    hide IsLatest;
    hide Latest;
    if v in table && Selected(table, q, v) {
      var i := LatestAt(table, v.path);
    }
    if i: nat :| i < |table| && IsLatest(table, i) && table[i] == v && Filter(v, q) {
      LatestMeans(table, i);
    }
  }

  predicate Between(lo: int, t: int, hi: int) { lo <= t <= hi }

  lemma OverlapMeans(v: Version, q: Query)
    requires v.minEpoch <= v.maxEpoch && q.startUs <= q.endUs
    ensures Filter(v, q) <==>
              && !v.deleted && v.matches && (v.catalogReady ==> v.catalogMatches)
              && exists t :: Between(v.minEpoch, t, v.maxEpoch) && Between(q.startUs, t, q.endUs)
  {
    var t := if v.minEpoch >= q.startUs then v.minEpoch else q.startUs;
    assert v.maxEpoch >= q.startUs && v.minEpoch <= q.endUs ==> Between(v.minEpoch, t, v.maxEpoch) && Between(q.startUs, t, q.endUs);
  }

  /** A path is a candidate exactly if its latest version is live, meets the query's conditions, has no ready catalog or a
      matching one, and has an instant in the window. */
  lemma CandidateMeans(table: seq<Version>, q: Query, c: Row)
    requires q.startUs <= q.endUs && forall v | v in table :: v.minEpoch <= v.maxEpoch
    ensures c in CandidatesOf(table, q) <==>
              exists i: nat | i < |table| && IsLatest(table, i) ::
                && c == Row(table[i].path, table[i].maxEpoch, table[i].path, 0)
                && !table[i].deleted && table[i].matches && (table[i].catalogReady ==> table[i].catalogMatches)
                && exists t :: Between(table[i].minEpoch, t, table[i].maxEpoch) && Between(q.startUs, t, q.endUs)
  {
    forall v | v in table
      ensures Filter(v, q) <==>
                && !v.deleted && v.matches && (v.catalogReady ==> v.catalogMatches)
                && exists t :: Between(v.minEpoch, t, v.maxEpoch) && Between(q.startUs, t, q.endUs)
      ensures Selected(table, q, v) <==> exists i: nat | i < |table| && IsLatest(table, i) :: table[i] == v && Filter(v, q)
    {
      OverlapMeans(v, q);
      SelectedMeans(table, q, v);
    }
    hide Filter;
    hide Selected;
    hide IsLatest;
    hide Between;
    if c in CandidatesOf(table, q) {
      var v :| v in table && Selected(table, q, v) && CandidateOf(v) == c;
    }
    forall i: nat | i < |table| && IsLatest(table, i) && Filter(table[i], q) ensures CandidateOf(table[i]) in CandidatesOf(table, q) {
      assert table[i] in table && Selected(table, q, table[i]);
    }
  }

  // ---- the rows a query is about ----

  /** The rows of each object the statement over it returns. */
  function Matching(all: Objects, q: Query): Objects {
    map path | path in all :: set r | r in all[path] && q.startUs <= r.epoch <= q.endUs && q.keeps(r)
  }

  /** A live object that meets the query's own conditions. */
  predicate Live(table: seq<Version>, i: nat) { i < |table| && IsLatest(table, i) && !table[i].deleted && table[i].matches }

  /** The row is in a live object, in the window, and meets the conditions on rows; neither the bounds of the object nor its
      catalog matter. */
  ghost predicate Searched(table: seq<Version>, all: Objects, q: Query, r: Row) {
    && q.startUs <= r.epoch <= q.endUs && q.keeps(r)
    && exists i: nat | i < |table| && Live(table, i) :: table[i].path in all && r in all[table[i].path]
  }

  /** What the manifest is trusted with: an object's bounds cover its rows, and a ready catalog that does not match means that no
      row does. */
  predicate Trusted(table: seq<Version>, all: Objects, q: Query) {
    forall i: nat, r | i < |table| && Live(table, i) && table[i].path in all && r in all[table[i].path] ::
      && table[i].minEpoch <= r.epoch <= table[i].maxEpoch
      && (table[i].catalogReady && !table[i].catalogMatches ==> !q.keeps(r))
  }

  /** One content per event, and one object. */
  ghost predicate Separate(table: seq<Version>, all: Objects, q: Query) {
    && (forall r, s | Searched(table, all, q, r) && Searched(table, all, q, s) && r.id == s.id :: r == s)
    && forall i: nat, j: nat, r | i < |table| && j < |table| && Live(table, i) && Live(table, j)
                                  && table[i].path in all && table[j].path in all && r in all[table[i].path] && r in all[table[j].path] ::
         table[i].path == table[j].path
  }

  lemma CandidateHasVersion(table: seq<Version>, q: Query, c: Row) returns (i: nat)
    requires c in CandidatesOf(table, q)
    ensures i < |table| && Live(table, i) && c == Row(table[i].path, table[i].maxEpoch, table[i].path, 0)
  {
    var v :| v in table && Selected(table, q, v) && CandidateOf(v) == c;
    i := LatestAt(table, v.path);
  }

  lemma LiveIsCandidate(table: seq<Version>, all: Objects, q: Query, i: nat, r: Row)
    requires Trusted(table, all, q) && i < |table| && Live(table, i) && table[i].path in all && r in all[table[i].path]
    requires q.startUs <= r.epoch <= q.endUs && q.keeps(r)
    ensures CandidateOf(table[i]) in CandidatesOf(table, q)
  {
    LatestMeans(table, i);
    assert table[i] in table && Selected(table, q, table[i]);
  }

  /** Choosing candidates by bounds and catalogs loses no row. */
  lemma CandidatesHoldAll(table: seq<Version>, all: Objects, q: Query, r: Row)
    requires Trusted(table, all, q)
    ensures r in RowsOf(Matching(all, q), CandidatesOf(table, q)) <==> Searched(table, all, q, r)
  {
    hide Live;
    hide CandidatesOf;
    var objects, candidates := Matching(all, q), CandidatesOf(table, q);
    if r in RowsOf(objects, candidates) {
      var c :| c in candidates && r in RowsAt(objects, c.id);
      var i := CandidateHasVersion(table, q, c);
    }
    if Searched(table, all, q, r) {
      var i: nat :| i < |table| && Live(table, i) && table[i].path in all && r in all[table[i].path];
      LiveIsCandidate(table, all, q, i, r);
      assert CandidateOf(table[i]) in candidates && r in RowsAt(objects, table[i].path);
    }
  }

  lemma CandidatesAreSound(table: seq<Version>, all: Objects, q: Query)
    requires Trusted(table, all, q) && Separate(table, all, q)
    ensures Sound(Matching(all, q), CandidatesOf(table, q))
  {
    var objects, candidates := Matching(all, q), CandidatesOf(table, q);
    hide CandidatesOf;
    hide RowsOf;
    forall r, s | r in RowsOf(objects, candidates) && s in RowsOf(objects, candidates) && r.id == s.id ensures r == s {
      CandidatesHoldAll(table, all, q, r);
      CandidatesHoldAll(table, all, q, s);
      hide Searched;
    }
    forall c, r | c in candidates && r in RowsAt(objects, c.id) ensures r.epoch <= c.epoch {
      var i := CandidateHasVersion(table, q, c);
    }
    forall c, d, r | c in candidates && d in candidates && r in RowsAt(objects, c.id) && r in RowsAt(objects, d.id) ensures c == d {
      var i := CandidateHasVersion(table, q, c);
      var j := CandidateHasVersion(table, q, d);
      LatestMeans(table, i);
      LatestMeans(table, j);
    }
  }

  /** The whole query: candidates from the narrowed table, walked page by page. The page is that of all matching rows of all live
      objects. */
  method QueryTable(table: seq<Version>, q: Query, all: Objects, limit: nat, offset: nat, rawBatch: nat)
    returns (page: Page)
    requires rawBatch > 0
    ensures Sound(Matching(all, q), CandidatesOf(table, q)) ==>
              IsPage(page, RowsOf(Matching(all, q), CandidatesOf(table, q)), limit, offset)
    ensures Trusted(table, all, q) && Separate(table, all, q) ==>
              exists rows :: (forall r :: r in rows <==> Searched(table, all, q, r)) && IsPage(page, rows, limit, offset)
  {
    hide *;
    var candidates := CandidatesOf(Narrowed(table, q), q);
    NarrowedCandidates(table, q);
    OneCandidateAPath(table, q);
    var objects := Matching(all, q);
    page := QueryRaw(candidates, objects, limit, offset, rawBatch);
    if Trusted(table, all, q) && Separate(table, all, q) {
      CandidatesAreSound(table, all, q);
      forall r ensures r in RowsOf(objects, candidates) <==> Searched(table, all, q, r) {
        CandidatesHoldAll(table, all, q, r);
      }
    }
  }

  /** An event that two objects of one batch hold counts twice against the limit of the statement, and can crowd another
      out: the batch statement, limited to two rows, finds one event of two, and no top of the rows can be made of it. Hence
      the promise that an event belongs to one object. */
  lemma RepeatedEventCrowdsOut(objects: Objects, c: Row, d: Row, r: Row, s: Row, list: seq<Row>, rows: seq<Row>)
    requires RowsAt(objects, c.id) == {r, s} && RowsAt(objects, d.id) == {r} && Newer(r, s)
    requires multiset(list) == BatchMultiset(objects, [c, d]) && WeaklyDescending(list) && rows == First(list, 2)
    ensures RowsOf(objects, Elements([c, d])) == {r, s} && Elements(rows) == {r}
    ensures forall t | Elements(t) <= Elements(rows) :: !IsTop(t, RowsOf(objects, Elements([c, d])), 2)
    ensures c != d ==> !WellPacked(objects, {c, d})
  {
    hide RowsOf;
    hide WellPacked;
    hide BatchMultiset;
    hide RowsAt;
    BatchOfTwo(objects, c, d, r, s);
    assert Elements([c, d]) == {c, d};
    RowsOfTwo(objects, c, d, r, s);
    TwiceThenOnce(list, r, s);
    assert r != s && |{r, s}| == 2;
    forall t | Elements(t) <= Elements(rows) ensures !IsTop(t, {r, s}, 2) {
      if Descending(t) {
        DescendingIsDistinct(t);
        SubsetSize(Elements(t), {r});
      }
    }
  }

  lemma BatchOfTwo(objects: Objects, c: Row, d: Row, r: Row, s: Row)
    requires RowsAt(objects, c.id) == {r, s} && RowsAt(objects, d.id) == {r} && r != s
    ensures BatchMultiset(objects, [c, d]) == multiset{r, s, r}
  {
    assert [c, d][..1] == [c] && [c][..0] == [];
    assert BatchMultiset(objects, [c, d]) == BatchMultiset(objects, [c]) + multiset(RowsAt(objects, d.id));
    assert BatchMultiset(objects, [c]) == multiset{} + multiset(RowsAt(objects, c.id));
    hide BatchMultiset;
    hide RowsAt;
    assert multiset({r, s}) == multiset{r, s} && multiset({r}) == multiset{r};
  }

  lemma RowsOfTwo(objects: Objects, c: Row, d: Row, r: Row, s: Row)
    requires RowsAt(objects, c.id) == {r, s} && RowsAt(objects, d.id) == {r}
    ensures RowsOf(objects, {c, d}) == {r, s}
    ensures c != d ==> !WellPacked(objects, {c, d})
  {
    hide RowsAt;
    assert c in {c, d} && r in RowsAt(objects, c.id) && s in RowsAt(objects, c.id) && r in RowsAt(objects, d.id);
  }

  lemma TwiceThenOnce(list: seq<Row>, r: Row, s: Row)
    requires multiset(list) == multiset{r, s, r} && WeaklyDescending(list) && Newer(r, s)
    ensures First(list, 2) == [r, r] && Elements([r, r]) == {r}
  {
    assert |list| == |multiset(list)| == 3;
    assert list == [list[0], list[1], list[2]];
    assert multiset(list) == multiset{list[0], list[1], list[2]};
    assert multiset(list)[s] == 1;
  }

  // ---- query_events ----

  /** The first row of every event, in the order of the list. */
  function Dedup(list: seq<Row>): seq<Row> {
    if list == [] then []
    else
      var front, r := Dedup(list[..|list| - 1]), list[|list| - 1];
      if r.id in Ids(front) then front else front + [r]
  }

  lemma {:induction false} DedupGrows(list: seq<Row>, n: nat)
    requires n <= |list|
    ensures Dedup(list[..n]) <= Dedup(list)
    decreases |list|
  {
    if n < |list| {
      var m := |list| - 1;
      assert list[..m][..n] == list[..n];
      DedupGrows(list[..m], n);
    } else {
      assert list[..n] == list;
    }
  }

  /** The loop of `query_events`: raw pages are read until enough different events have been seen. */
  method QueryEvents(list: seq<Row>, target: nat, rawBatch: nat) returns (unique: seq<Row>)
    requires rawBatch > 0
    ensures unique == First(Dedup(list), target)
  {
    unique := [];
    var seen: set<int> := {};
    var rawOffset := 0;
    while |unique| < target && rawOffset <= |list|
      invariant 0 <= rawOffset <= |list| + 1
      invariant |unique| <= target && seen == Ids(unique)
      invariant rawOffset <= |list| && |unique| < target ==> unique == Dedup(list[..rawOffset])
      invariant |unique| == target || rawOffset > |list| ==> unique == First(Dedup(list), target)
      decreases |list| + 1 - rawOffset
    {
      var end := if rawOffset + rawBatch < |list| then rawOffset + rawBatch else |list|;
      var n := rawOffset;
      while n < end && |unique| < target
        invariant rawOffset <= n <= end && |unique| <= target && seen == Ids(unique)
        invariant unique == Dedup(list[..n])
      {
        var r := list[n];
        assert list[..n + 1][..n] == list[..n];
        if r.id !in seen {
          SeenGrows(unique, r);
          seen, unique := seen + {r.id}, unique + [r];
        }
        n := n + 1;
      }
      DedupGrows(list, n);
      assert list[..|list|] == list;
      if end - rawOffset < rawBatch {
        rawOffset := |list| + 1;
      } else {
        rawOffset := end;
      }
    }
  }

  lemma SeenGrows(unique: seq<Row>, r: Row)
    ensures Ids(unique + [r]) == Ids(unique) + {r.id}
  {
    assert forall x :: x in unique + [r] <==> x in unique || x == r;
  }

  lemma DedupOneMore(list: seq<Row>, r: Row)
    ensures Dedup(list + [r]) == if r.id in Ids(Dedup(list)) then Dedup(list) else Dedup(list) + [r]
  {
    assert (list + [r])[..|list|] == list;
  }

  /** A row of a new event comes after all the rows before it. */
  lemma NewEventIsOlder(list: seq<Row>, front: seq<Row>, r: Row)
    requires WeaklyDescending(list + [r]) && Consistent(Elements(list + [r])) && Elements(front) == Elements(list)
    requires r.id !in Ids(front)
    ensures forall x | x in front :: Newer(x, r)
  {
    forall x | x in front ensures Newer(x, r) {
      assert x in Elements(list);
      var j :| 0 <= j < |list| && list[j] == x;
      assert (list + [r])[j] == x && (list + [r])[|list|] == r;
      NewerIsTotal(x, r);
    }
  }

  lemma KnownEvent(list: seq<Row>, front: seq<Row>, r: Row)
    requires Consistent(Elements(list + [r])) && Elements(front) == Elements(list) && r.id in Ids(front)
    ensures r in Elements(list)
  {
    var x :| x in front && x.id == r.id;
    assert x in Elements(front) && x in list;
    assert x in Elements(list + [r]) && r in Elements(list + [r]);
  }

  lemma DescendingSnoc(front: seq<Row>, r: Row)
    requires Descending(front) && forall x | x in front :: Newer(x, r)
    ensures Descending(front + [r])
  {
  }

  lemma PrefixIsWeak(list: seq<Row>, r: Row)
    requires WeaklyDescending(list + [r])
    ensures WeaklyDescending(list)
  {
    forall i, j | 0 <= i < j < |list| ensures !Newer(list[j], list[i]) {
      assert (list + [r])[i] == list[i] && (list + [r])[j] == list[j];
    }
  }

  lemma ElementsOne(r: Row)
    ensures Elements([r]) == {r}
  {
  }

  lemma NothingToRemove(list: seq<Row>)
    ensures list == [] ==> Descending(Dedup(list)) && Elements(Dedup(list)) == Elements(list)
  {
  }

  /** On sorted, consistent rows, with events repeated at will, that is the top of the set of events. */
  lemma {:induction false} DedupIsSorted(list: seq<Row>)
    requires WeaklyDescending(list) && Consistent(Elements(list))
    ensures Descending(Dedup(list)) && Elements(Dedup(list)) == Elements(list)
  {
    hide *;
    NothingToRemove(list);
    if list != [] {
      var front, r := list[..|list| - 1], list[|list| - 1];
      assert list == front + [r];
      ElementsOne(r);
      PrefixIsWeak(front, r);
      ElementsConcat(front, [r]);
      ConsistentSubset(Elements(front), Elements(list));
      DedupIsSorted(front);
      DedupOneMore(front, r);
      if r.id in Ids(Dedup(front)) {
        KnownEvent(front, Dedup(front), r);
      } else {
        ElementsConcat(Dedup(front), [r]);
        NewEventIsOlder(front, Dedup(front), r);
        DescendingSnoc(Dedup(front), r);
      }
    }
  }

  lemma QueryEventsIsTop(list: seq<Row>, target: nat)
    requires WeaklyDescending(list) && Consistent(Elements(list))
    ensures IsTop(First(Dedup(list), target), Elements(list), target)
  {
    DedupIsSorted(list);
    FirstIsTop(Dedup(list), Elements(list), target);
  }
}
