/** `run_query` of app/indexed_query_native.py: merge block by block, newest files first, stop when nothing older can
    matter, within one read budget. */
module NativeQuery {
  import opened Select
  import opened TopRows

  const MAX_READ_BYTES: nat := 268_435_456
  const MAX_REQUESTS: nat := 4096
  const MAX_OBJECTS: nat := 4096
  const MAX_RESULT_BYTES: nat := 16_777_216
  const CHUNK: nat := 1_048_576

  /** A row group: the lengths of the reads made for it, repeated attempts included, and the distinct matching rows in it. */
  datatype Block = Block(lengths: seq<nat>, rows: set<Row>)

  /** One unit of work, with the newest time it can hold. */
  datatype Entry =
    | Cached(rows: seq<Row>, maxEpoch: int)
    | Part(remote: bool, size: nat, blocks: seq<Block>, maxEpoch: int)

  function RowsOf(e: Entry): set<Row> {
    match e
    case Cached(rows, _) => Elements(rows)
    case Part(_, _, blocks, _) => BlockRows(blocks)
  }

  lemma RowsOfEntry(e: Entry)
    ensures e.Cached? ==> RowsOf(e) == Elements(e.rows)
    ensures e.Part? ==> RowsOf(e) == BlockRows(e.blocks)
  {
  }

  /** Rows after a step: those before, and the step's own. */
  predicate Inside(now: set<Row>, before: set<Row>, rows: set<Row>) { now <= before + rows }

  function Both(a: set<Row>, b: set<Row>): set<Row> { a + b }

  function BlockRows(blocks: seq<Block>): set<Row> {
    if blocks == [] then {} else BlockRows(blocks[..|blocks| - 1]) + blocks[|blocks| - 1].rows
  }

  function AllRows(work: seq<Entry>): set<Row> {
    if work == [] then {} else AllRows(work[..|work| - 1]) + RowsOf(work[|work| - 1])
  }

  /** Work comes with the newest file first, and a file's bound covers its rows. */
  predicate WellOrdered(work: seq<Entry>) {
    && (forall i, j | 0 <= i < j < |work| :: work[i].maxEpoch >= work[j].maxEpoch)
    && forall i, r | 0 <= i < |work| && r in RowsOf(work[i]) :: r.epoch <= work[i].maxEpoch
  }

  lemma {:induction false} AllRowsMembers(work: seq<Entry>)
    ensures forall r :: r in AllRows(work) <==> exists i :: 0 <= i < |work| && r in RowsOf(work[i])
  {
    if work != [] {
      var n := |work| - 1;
      AllRowsMembers(work[..n]);
      forall r ensures r in AllRows(work) <==> exists i :: 0 <= i < |work| && r in RowsOf(work[i]) {
        if i :| 0 <= i < |work| && r in RowsOf(work[i]) {
          assert i < n ==> work[..n][i] == work[i];
        }
        if i :| 0 <= i < n && r in RowsOf(work[..n][i]) {
          assert work[i] == work[..n][i];
        }
      }
    }
  }

  lemma {:induction false} BlockRowsMembers(blocks: seq<Block>)
    ensures forall r :: r in BlockRows(blocks) <==> exists i :: 0 <= i < |blocks| && r in blocks[i].rows
  {
    if blocks != [] {
      var n := |blocks| - 1;
      BlockRowsMembers(blocks[..n]);
      forall r ensures r in BlockRows(blocks) <==> exists i :: 0 <= i < |blocks| && r in blocks[i].rows {
        if i :| 0 <= i < |blocks| && r in blocks[i].rows {
          assert i < n ==> blocks[..n][i] == blocks[i];
        }
        if i :| 0 <= i < n && r in blocks[..n][i].rows {
          assert blocks[i] == blocks[..n][i];
        }
      }
    }
  }

  /** The row is among the cached rows of an entry, or in a row group of one. */
  predicate InEntry(e: Entry, r: Row) {
    match e
    case Cached(rows, _) => r in rows
    case Part(_, _, blocks, _) => exists i :: 0 <= i < |blocks| && r in blocks[i].rows
  }

  /** All rows are those of all entries. */
  lemma AllRowsMean(work: seq<Entry>, r: Row)
    ensures r in AllRows(work) <==> exists i :: 0 <= i < |work| && InEntry(work[i], r)
  {
    AllRowsMembers(work);
    forall i | 0 <= i < |work| ensures r in RowsOf(work[i]) <==> InEntry(work[i], r) {
      if work[i].Part? {
        BlockRowsMembers(work[i].blocks);
      }
    }
    hide AllRows;
    hide RowsOf;
    hide InEntry;
  }

  // ---- the shared budget ----

  function Total<T>(s: seq<T>, f: T -> nat): nat {
    if s == [] then 0 else Total(s[..|s| - 1], f) + f(s[|s| - 1])
  }

  lemma {:induction false} TotalGrows<T>(s: seq<T>, f: T -> nat, n: nat)
    requires n < |s|
    ensures Total(s[..n + 1], f) == Total(s[..n], f) + f(s[n]) && Total(s[..n + 1], f) <= Total(s, f)
  {
    assert s[..n + 1][..n] == s[..n];
    if n + 1 < |s| {
      var front := s[..|s| - 1];
      TotalGrows(front, f, n);
      assert front[..n + 1] == s[..n + 1];
    } else {
      assert s[..n + 1] == s;
    }
  }

  function Same(length: nat): nat { length }

  function BlockBytes(b: Block): nat { Total(b.lengths, Same) }

  function BlockRequests(b: Block): nat { |b.lengths| }

  /** What reading an entry to its end charges. A local file is hashed first; only a remote one takes requests. */
  function EntryBytes(e: Entry): nat {
    match e
    case Cached(_, _) => 0
    case Part(remote, size, blocks, _) => (if remote then 0 else size) + Total(blocks, BlockBytes)
  }

  function EntryObjects(e: Entry): nat { if e.Part? then 1 else 0 }

  function EntryRequests(e: Entry): nat { if e.Part? && e.remote then Total(e.blocks, BlockRequests) else 0 }

  datatype Totals = Totals(bytes: nat, requests: nat, objects: nat)

  predicate InBudget(t: Totals) { t.bytes <= MAX_READ_BYTES && t.requests <= MAX_REQUESTS && t.objects <= MAX_OBJECTS }

  /** `OssRangeReader._fetch`: the request is charged before it is made, or refused. */
  class RangeReader {
    const maxBytes: nat
    const maxRequests: nat
    var reserved: nat
    var requests: nat

    constructor (maxBytes: nat, maxRequests: nat)
      ensures this.maxBytes == maxBytes && this.maxRequests == maxRequests && reserved == 0 && requests == 0
    {
      this.maxBytes, this.maxRequests := maxBytes, maxRequests;
      reserved, requests := 0, 0;
    }

    method Fetch(length: nat) returns (ok: bool)
      requires reserved <= maxBytes && requests <= maxRequests
      modifies this
      ensures reserved <= maxBytes && requests <= maxRequests
      ensures ok <==> old(reserved) + length <= maxBytes && old(requests) < maxRequests
      ensures if ok then reserved == old(reserved) + length && requests == old(requests) + 1
              else reserved == old(reserved) && requests == old(requests)
    {
      ok := reserved + length <= maxBytes && requests < maxRequests;
      if ok {
        reserved, requests := reserved + length, requests + 1;
      }
    }
  }

  /** At most `bytes` and `requests` are charged, and all of them once `done`: to the reader of a remote file, to the totals for
      a local one. */
  predicate Charged(remote: bool, before: Totals, now: Totals, reserved: int, requested: int, bytes: nat, requests: nat, done: bool) {
    if remote then
      && now == before && 0 <= reserved <= bytes && 0 <= requested <= requests
      && (done ==> reserved == bytes && requested == requests)
    else
      && now == before.(bytes := now.bytes) && now.bytes <= before.bytes + bytes && reserved == 0 && requested == 0
      && (done ==> now.bytes == before.bytes + bytes)
  }

  lemma NothingCharged(remote: bool, now: Totals, bytes: nat, requests: nat)
    ensures Charged(remote, now, now, 0, 0, bytes, requests, false)
  {
  }

  lemma LessIsCharged(remote: bool, before: Totals, now: Totals, reserved: int, requested: int, bytes: nat, requests: nat, done: bool)
    requires Charged(remote, before, now, reserved, requested, bytes, requests, true)
    ensures Charged(remote, before, now, reserved, requested, bytes, requests, done)
  {
  }

  // ---- one query ----

  datatype Failure = Conflict | ResultTooLarge | BudgetExceeded | TooManyObjects | DeadlineExceeded

  datatype Outcome = Answer(page: Page, completeRows: Option<seq<Row>>) | Failed(why: Failure)

  class NativeQuery {
    const target: nat
    /** The length of rows written out as JSON. */
    const resultBytes: seq<Row> -> nat
    /** Whether the n-th look at the clock finds the deadline passed. */
    const late: nat -> bool
    var looks: nat
    var top: seq<Row>
    var complete: bool
    var totals: Totals

    constructor (limit: nat, offset: nat, resultBytes: seq<Row> -> nat, late: nat -> bool)
      ensures target == limit + offset + 1 && top == [] && complete && totals == Totals(0, 0, 0) && looks == 0
      ensures this.resultBytes == resultBytes && this.late == late
    {
      target, this.resultBytes, this.late, looks := limit + offset + 1, resultBytes, late, 0;
      top, complete, totals := [], true, Totals(0, 0, 0);
    }

    /** Since the look `from`, the deadline was found passed exactly if that is the failure. */
    ghost predicate InTime(from: nat, failure: Option<Failure>)
      reads this`looks
    {
      from <= looks && (failure == Some(DeadlineExceeded) <==> exists n | from <= n < looks :: late(n))
    }

    /** No look from `from` up to `to` found the deadline passed. */
    ghost predicate OnTime(from: nat, to: nat) { from <= to && forall n | from <= n < to :: !late(n) }

    lemma TimeStarts()
      ensures OnTime(looks, looks) && InTime(looks, None)
    {
    }

    lemma TimeGoesOn(from: nat, middle: nat, failure: Option<Failure>)
      requires OnTime(from, middle) && InTime(middle, failure)
      ensures InTime(from, failure) && (failure != Some(DeadlineExceeded) ==> OnTime(from, looks))
    {
    }

    /** `check` */
    method Check() returns (failure: Option<Failure>)
      modifies this`looks
      ensures looks == old(looks) + 1 && InTime(old(looks), failure)
      ensures failure in {None, Some(DeadlineExceeded)}
    {
      failure := if late(looks) then Some(DeadlineExceeded) else None;
      looks := looks + 1;
    }

    /** Why a query fails: every failure has a cause in the work or at the clock. */
    ghost predicate Cause(why: Failure, work: seq<Entry>, top: seq<Row>)
      reads this`looks
    {
      match why
      case Conflict => !Consistent(AllRows(work))
      case ResultTooLarge => resultBytes(top) > MAX_RESULT_BYTES && |top| <= target && Elements(top) <= AllRows(work)
      case BudgetExceeded => Total(work, EntryBytes) > MAX_READ_BYTES || Total(work, EntryRequests) > MAX_REQUESTS
      case TooManyObjects => Total(work, EntryObjects) > MAX_OBJECTS
      case DeadlineExceeded => exists n | 0 <= n < looks :: late(n)
    }

    /** What a query may come to: a failure with its cause, or, in time, the page of all matching rows. */
    ghost predicate Faithful(outcome: Outcome, work: seq<Entry>, limit: nat, offset: nat)
      reads this`top, this`looks
    {
      match outcome
      case Failed(why) => Cause(why, work, top)
      case Answer(page, completeRows) =>
        looks > 0 && OnTime(0, looks) &&
        (Consistent(AllRows(work)) ==>
          && IsPage(page, AllRows(work), limit, offset)
          && (completeRows.Some? ==> Elements(completeRows.value) == AllRows(work) && Descending(completeRows.value))
          && (completeRows.None? ==> |AllRows(work)| >= target))
    }

    ghost predicate Valid()
      reads this`top, this`totals
    {
      match totals
      case Totals(bytes, requests, objects) =>
        bytes <= MAX_READ_BYTES && requests <= MAX_REQUESTS && objects <= MAX_OBJECTS && Consistent(Elements(top))
    }

    /** `top` is the top of the rows merged so far, and all of them while `complete` holds. */
    ghost predicate Holds(seen: set<Row>)
      reads this`top, this`complete
    {
      match complete
      case true => IsTop(top, seen, target) && |seen| <= target
      case false => IsTop(top, seen, target) && |seen| > target
    }

    /** The row-group query: its newest `target` rows, and whether there are more. */
    method QueryBlock(rows: set<Row>) returns (page: seq<Row>, more: bool)
      ensures Elements(page) <= rows && more == (|rows| > target)
      ensures !more ==> Elements(page) == rows
      ensures Consistent(rows) ==> IsTop(page, rows, target)
    {
      var sorted := Sorted(rows);
      if Consistent(rows) {
        FirstIsTop(sorted, rows, target);
      }
      page, more := First(sorted, target), |sorted| > target;
      assert sorted == First(sorted, target) + sorted[|page|..];
    }

    method ChargeLocal(length: nat) returns (failure: Option<Failure>)
      requires InBudget(totals)
      modifies this`totals, this`looks
      ensures InBudget(totals) && InTime(old(looks), failure)
      ensures failure in {None, Some(BudgetExceeded), Some(DeadlineExceeded)}
      ensures failure != Some(DeadlineExceeded) ==>
                failure == if old(totals).bytes + length > MAX_READ_BYTES then Some(BudgetExceeded) else None
      ensures totals == if failure.None? then old(totals).(bytes := old(totals).bytes + length) else old(totals)
    {
      failure := Check();
      if failure.Some? {
        return;
      }
      if totals.bytes + length > MAX_READ_BYTES {
        return Some(BudgetExceeded);
      }
      totals := totals.(bytes := totals.bytes + length);
      failure := None;
    }

    /** The hash of a local file, charged a chunk at a time. */
    method HashLocal(size: nat) returns (failure: Option<Failure>)
      requires InBudget(totals)
      modifies this`totals, this`looks
      ensures InBudget(totals) && totals == old(totals).(bytes := totals.bytes) && InTime(old(looks), failure)
      ensures old(totals).bytes <= totals.bytes <= old(totals).bytes + size
      ensures failure.None? ==> totals.bytes == old(totals).bytes + size
      ensures failure in {None, Some(BudgetExceeded), Some(DeadlineExceeded)}
      ensures failure == Some(BudgetExceeded) ==> old(totals).bytes + size > MAX_READ_BYTES
    {
      failure := None;
      var remaining: nat := size;
      while remaining > 0
        invariant failure.None? && remaining <= size && InBudget(totals) && OnTime(old(looks), looks)
        invariant totals == old(totals).(bytes := old(totals).bytes + size - remaining)
      {
        var chunk := if remaining < CHUNK then remaining else CHUNK;
        failure := ChargeLocal(chunk);
        if failure.Some? {
          return;
        }
        remaining := remaining - chunk;
      }
    }

    /** The row groups of one file: read within the budget, queried, merged. A remote reader is charged when the file is
        done, whatever happened. */
    method ScanPart(remote: bool, size: nat, blocks: seq<Block>, ghost seen: set<Row>) returns (failure: Option<Failure>)
      requires Valid()
      modifies this`top, this`complete, this`totals, this`looks
      ensures Valid() && Inside(Elements(top), old(Elements(top)), BlockRows(blocks)) && InTime(old(looks), failure)
      ensures failure.None? && Consistent(Both(seen, BlockRows(blocks))) && old(Holds(seen)) ==> Holds(Both(seen, BlockRows(blocks)))
      ensures var e := Part(remote, size, blocks, 0);
              && totals.bytes <= old(totals).bytes + EntryBytes(e) && totals.requests <= old(totals).requests + EntryRequests(e)
              && totals.objects <= old(totals).objects + 1
              && (failure.None? ==>
                    totals == Totals(old(totals).bytes + EntryBytes(e), old(totals).requests + EntryRequests(e), old(totals).objects + 1))
              && (failure == Some(BudgetExceeded) ==>
                    old(totals).bytes + EntryBytes(e) > MAX_READ_BYTES
                    || old(totals).requests + EntryRequests(e) > MAX_REQUESTS)
      ensures failure == Some(TooManyObjects) <==> old(totals).objects >= MAX_OBJECTS
      ensures failure == Some(Conflict) ==> !Consistent(Both(old(Elements(top)), BlockRows(blocks)))
      ensures failure == Some(ResultTooLarge) ==> resultBytes(top) > MAX_RESULT_BYTES && |top| <= target
    {
      hide Consistent;
      hide Holds;
      hide IsTop;
      hide BlockRows;
      hide Both;
      hide Total;
      hide Elements;
      if totals.objects >= MAX_OBJECTS {
        return Some(TooManyObjects);
      }
      var reader := new RangeReader(MAX_READ_BYTES - totals.bytes, MAX_REQUESTS - totals.requests);
      if !remote {
        failure := HashLocal(size);
        if failure.Some? {
          return;
        }
      }
      totals := totals.(objects := totals.objects + 1);
      ghost var middle := looks;
      failure := ScanBlocks(remote, reader, blocks, seen);
      TimeGoesOn(old(looks), middle, failure);
      if remote {
        totals := totals.(bytes := totals.bytes + reader.reserved, requests := totals.requests + reader.requests);
      }
    }

    method ScanBlocks(remote: bool, reader: RangeReader, blocks: seq<Block>, ghost seen: set<Row>)
      returns (failure: Option<Failure>)
      requires Valid() && reader.reserved == 0 && reader.requests == 0
      modifies this`top, this`complete, this`totals, this`looks, reader
      ensures Valid() && reader.reserved <= reader.maxBytes && reader.requests <= reader.maxRequests && InTime(old(looks), failure)
      ensures Ended(remote, Usage(old(totals), 0, 0, old(Elements(top))), Usage(totals, reader.reserved, reader.requests, Elements(top)),
                    blocks, failure, reader.maxBytes, reader.maxRequests)
      ensures failure.None? && Consistent(Both(seen, BlockRows(blocks))) && old(Holds(seen)) ==> Holds(Both(seen, BlockRows(blocks)))
      ensures failure == Some(ResultTooLarge) ==> resultBytes(top) > MAX_RESULT_BYTES && |top| <= target
    {
      hide *;
      ghost var good := Consistent(Both(seen, BlockRows(blocks))) && Holds(seen);
      ghost var start := Usage(totals, 0, 0, Elements(top));
      NoBlocks(remote, start, seen, blocks);
      TimeStarts();
      failure := None;
      var n := 0;
      while n < |blocks|
        invariant 0 <= n <= |blocks| && failure.None? && Valid() && OnTime(old(looks), looks)
        invariant reader.reserved <= reader.maxBytes && reader.requests <= reader.maxRequests
        invariant Progress(remote, start, Usage(totals, reader.reserved, reader.requests, Elements(top)), blocks, n)
        invariant good ==> Holds(Both(seen, BlockRows(blocks[..n])))
      {
        ghost var middle := looks;
        failure := ScanNext(remote, reader, blocks, n, seen, start);
        TimeGoesOn(old(looks), middle, failure);
        if failure.Some? {
          return;
        }
        n := n + 1;
      }
      assert blocks[..|blocks|] == blocks;
      TimeStarts();
      TimeGoesOn(old(looks), looks, None);
      AllBlocks(remote, start, Usage(totals, reader.reserved, reader.requests, Elements(top)), blocks, reader.maxBytes,
                reader.maxRequests);
    }

    /** The next row group, and what a failure in it says of the whole file. */
    method ScanNext(remote: bool, reader: RangeReader, blocks: seq<Block>, n: nat, ghost seen: set<Row>, ghost start: Usage)
      returns (failure: Option<Failure>)
      requires n < |blocks| && Valid() && reader.reserved <= reader.maxBytes && reader.requests <= reader.maxRequests
      requires Progress(remote, start, Usage(totals, reader.reserved, reader.requests, Elements(top)), blocks, n)
      modifies this`top, this`complete, this`totals, this`looks, reader
      ensures Valid() && reader.reserved <= reader.maxBytes && reader.requests <= reader.maxRequests && InTime(old(looks), failure)
      ensures failure.None? ==>
                Progress(remote, start, Usage(totals, reader.reserved, reader.requests, Elements(top)), blocks, n + 1)
      ensures failure.Some? ==>
                Ended(remote, start, Usage(totals, reader.reserved, reader.requests, Elements(top)), blocks, failure, reader.maxBytes,
                      reader.maxRequests)
      ensures failure.None? && Consistent(Both(seen, BlockRows(blocks))) && old(Holds(Both(seen, BlockRows(blocks[..n])))) ==>
                Holds(Both(seen, BlockRows(blocks[..n + 1])))
      ensures failure == Some(ResultTooLarge) ==> resultBytes(top) > MAX_RESULT_BYTES && |top| <= target
    {
      hide *;
      NextBlock(seen, blocks, n);
      ghost var before := Usage(totals, reader.reserved, reader.requests, Elements(top));
      failure := ScanBlock(remote, reader, blocks[n], Both(seen, BlockRows(blocks[..n])));
      ProgressGrows(remote, start, before, Usage(totals, reader.reserved, reader.requests, Elements(top)), blocks, n, failure,
                    reader.maxBytes, reader.maxRequests);
    }

    /** One row group: read, queried, merged. */
    method ScanBlock(remote: bool, reader: RangeReader, block: Block, ghost seen: set<Row>) returns (failure: Option<Failure>)
      requires Valid() && reader.reserved <= reader.maxBytes && reader.requests <= reader.maxRequests
      modifies this`top, this`complete, this`totals, this`looks, reader
      ensures Valid() && reader.reserved <= reader.maxBytes && reader.requests <= reader.maxRequests && InTime(old(looks), failure)
      ensures Charged(remote, old(totals), totals, reader.reserved - old(reader.reserved), reader.requests - old(reader.requests),
                      BlockBytes(block), BlockRequests(block), failure.None?)
      ensures Inside(Elements(top), old(Elements(top)), block.rows)
      ensures failure.None? && Consistent(Both(seen, block.rows)) && old(Holds(seen)) ==> Holds(Both(seen, block.rows))
      ensures failure == Some(BudgetExceeded) ==>
                if remote then old(reader.reserved) + BlockBytes(block) > reader.maxBytes
                               || old(reader.requests) + BlockRequests(block) > reader.maxRequests
                else old(totals).bytes + BlockBytes(block) > MAX_READ_BYTES
      ensures failure != Some(TooManyObjects)
      ensures failure == Some(Conflict) ==> !Consistent(Both(old(Elements(top)), block.rows))
      ensures failure == Some(ResultTooLarge) ==> resultBytes(top) > MAX_RESULT_BYTES && |top| <= target
    {
      hide IsTop;
      hide Consistent;
      hide Holds;
      NothingCharged(remote, totals, BlockBytes(block), BlockRequests(block));
      failure := Check();
      if failure.Some? {
        return;
      }
      ghost var middle := looks;
      failure := ReadBlock(remote, reader, block.lengths);
      TimeGoesOn(old(looks), middle, failure);
      if failure.None? {
        failure := MergeBlock(block.rows, seen);
        LessIsCharged(remote, old(totals), totals, reader.reserved - old(reader.reserved), reader.requests - old(reader.requests),
                      BlockBytes(block), BlockRequests(block), failure.None?);
      }
      hide Charged;
    }

    method MergeBlock(rows: set<Row>, ghost seen: set<Row>) returns (failure: Option<Failure>)
      requires Consistent(Elements(top))
      modifies this`top, this`complete
      ensures Consistent(Elements(top)) && Elements(top) <= old(Elements(top)) + rows
      ensures failure.None? && Consistent(seen + rows) && old(Holds(seen)) ==> Holds(seen + rows)
      ensures failure in {None, Some(Conflict), Some(ResultTooLarge)}
      ensures failure == Some(Conflict) ==> !Consistent(old(Elements(top)) + rows)
      ensures failure == Some(ResultTooLarge) ==> resultBytes(top) > MAX_RESULT_BYTES && |top| <= target
    {
      var page, more := QueryBlock(rows);
      ghost var before := top;
      failure := Merge(page, more);
      if failure == Some(Conflict) && Consistent(Elements(before) + rows) {
        ConsistentSubset(Elements(before) + Elements(page), Elements(before) + rows);
      }
      hide IsTop;
      if failure.None? && Consistent(seen + rows) && old(Holds(seen)) {
        ConsistentSubset(rows, seen + rows);
        hide Consistent;
        MergedBlock(before, top, seen, page, rows, more, target);
      }
    }

    method ReadBlock(remote: bool, reader: RangeReader, lengths: seq<nat>) returns (failure: Option<Failure>)
      requires InBudget(totals) && reader.reserved <= reader.maxBytes && reader.requests <= reader.maxRequests
      modifies this`totals, this`looks, reader
      ensures InBudget(totals) && reader.reserved <= reader.maxBytes && reader.requests <= reader.maxRequests
      ensures InTime(old(looks), failure)
      ensures Charged(remote, old(totals), totals, reader.reserved - old(reader.reserved), reader.requests - old(reader.requests),
                      Total(lengths, Same), |lengths|, failure.None?)
      ensures failure in {None, Some(BudgetExceeded), Some(DeadlineExceeded)}
      ensures failure == Some(BudgetExceeded) ==>
                if remote then old(reader.reserved) + Total(lengths, Same) > reader.maxBytes
                               || old(reader.requests) + |lengths| > reader.maxRequests
                else old(totals).bytes + Total(lengths, Same) > MAX_READ_BYTES
    {
      failure := None;
      var n := 0;
      while n < |lengths|
        invariant 0 <= n <= |lengths| && failure.None? && OnTime(old(looks), looks)
        invariant InBudget(totals) && reader.reserved <= reader.maxBytes && reader.requests <= reader.maxRequests
        invariant Charged(remote, old(totals), totals, reader.reserved - old(reader.reserved), reader.requests - old(reader.requests),
                          Total(lengths[..n], Same), n, true)
      {
        TotalGrows(lengths, Same, n);
        if remote {
          failure := Check();
          if failure.Some? {
            return;
          }
          var ok := reader.Fetch(lengths[n]);
          if !ok {
            return Some(BudgetExceeded);
          }
        } else {
          failure := ChargeLocal(lengths[n]);
          if failure.Some? {
            return;
          }
        }
        n := n + 1;
      }
      assert lengths[..|lengths|] == lengths;
    }

    /** The whole query. Whatever the outcome, the shared budget is kept, and a failure has its cause; an answer is the page
        of all matching rows. */
    method Run(work: seq<Entry>, limit: nat, offset: nat) returns (outcome: Outcome)
      requires target == limit + offset + 1 && top == [] && complete && totals == Totals(0, 0, 0) && looks == 0
      requires WellOrdered(work)
      modifies this
      ensures totals.bytes <= 256 * 1024 * 1024 && totals.requests <= 4096 && totals.objects <= 4096
      ensures Faithful(outcome, work, limit, offset)
      ensures outcome.Answer? ==> exists n: nat :: n <= |work| && AsDemanded(totals, work, n)
    {
      hide *;
      NothingMerged(work);
      TimeStarts();
      var n, stop := 0, false;
      while n < |work| && !stop
        invariant 0 <= n <= |work| && Valid() && InBudget(totals) && OnTime(0, looks)
        invariant AsDemanded(totals, work, n) && Elements(top) <= AllRows(work[..n])
        invariant target == limit + offset + 1 && WellOrdered(work)
        invariant !stop && Consistent(AllRows(work)) ==> Holds(AllRows(work[..n]))
        invariant stop ==> !complete
        invariant stop && Consistent(AllRows(work)) ==> IsTop(top, AllRows(work), target) && |top| >= target
      {
        var failure := Check();
        TimeGoesOn(0, looks - 1, failure);
        if failure.None? {
          ghost var middle := looks;
          failure := MergeEntry(work, n);
          TimeGoesOn(0, middle, failure);
        }
        StillInBudget();
        if failure.Some? {
          WhyFailed(failure.value, work);
          outcome := Failed(failure.value);
          FailedFaithfully(failure.value, work, limit, offset);
          return;
        }
        n := n + 1;
        if |top| >= target && n < |work| && work[n].maxEpoch < top[|top| - 1].epoch {
          if Consistent(AllRows(work)) {
            HoldsMeans(AllRows(work[..n]));
            StopIsSafe(work, n, top, target);
          }
          complete := false;
          stop := true;
        }
      }
      assert work[..|work|] == work;
      StillInBudget();
      var late := Check();
      TimeGoesOn(0, looks - 1, late);
      if late.Some? {
        WhyFailed(late.value, work);
        outcome := Failed(late.value);
        FailedFaithfully(late.value, work, limit, offset);
        return;
      }
      outcome := Answer(PageOf(top, limit, offset), if complete then Some(top) else None);
      AnsweredFaithfully(work, limit, offset);
    }

    /** A failure other than that of the clock brings its cause along. */
    lemma WhyFailed(why: Failure, work: seq<Entry>)
      requires InTime(0, Some(why)) && (why != DeadlineExceeded ==> Cause(why, work, top))
      ensures Cause(why, work, top)
    {
    }

    lemma FailedFaithfully(why: Failure, work: seq<Entry>, limit: nat, offset: nat)
      requires Cause(why, work, top)
      ensures Faithful(Failed(why), work, limit, offset)
    {
      hide Cause;
    }

    lemma AnsweredFaithfully(work: seq<Entry>, limit: nat, offset: nat)
      requires looks > 0 && OnTime(0, looks) && target == offset + limit + 1
      requires Consistent(AllRows(work)) ==>
                 Holds(AllRows(work)) || (!complete && IsTop(top, AllRows(work), target) && |top| >= target)
      ensures Faithful(Answer(PageOf(top, limit, offset), if complete then Some(top) else None), work, limit, offset)
    {
      if Consistent(AllRows(work)) {
        TopIsAll(top, AllRows(work), target);
        TopGivesPage(top, AllRows(work), limit, offset);
      }
      hide AllRows;
      hide IsPage;
    }

    lemma NothingMerged(work: seq<Entry>)
      requires top == [] && complete && totals == Totals(0, 0, 0)
      ensures Holds(AllRows(work[..0])) && Valid() && InBudget(totals) && AsDemanded(totals, work, 0)
      ensures Elements(top) <= AllRows(work[..0])
    {
      NothingSeen(work, target);
    }

    lemma StillInBudget()
      ensures Valid() ==> InBudget(totals)
      ensures InBudget(totals) ==> totals.bytes <= 256 * 1024 * 1024 && totals.requests <= 4096 && totals.objects <= 4096
    {
    }

    lemma HoldsMeans(seen: set<Row>)
      ensures Holds(seen) ==> IsTop(top, seen, target) && (complete <==> |seen| <= target)
    {
    }

    /** One entry: cached rows are merged as they are, a file is scanned. */
    method MergeEntry(work: seq<Entry>, n: nat) returns (failure: Option<Failure>)
      requires n < |work| && Valid()
      requires AsDemanded(totals, work, n) && Elements(top) <= AllRows(work[..n])
      modifies this`top, this`complete, this`totals, this`looks
      ensures Valid() && InTime(old(looks), failure)
      ensures failure.Some? && failure != Some(DeadlineExceeded) ==> Cause(failure.value, work, top)
      ensures failure.None? ==> AsDemanded(totals, work, n + 1) && Elements(top) <= AllRows(work[..n + 1])
      ensures failure.None? && Consistent(AllRows(work)) && old(Holds(AllRows(work[..n]))) ==> Holds(AllRows(work[..n + 1]))
    {
      hide IsTop;
      hide Consistent;
      hide AllRows;
      hide RowsOf;
      hide Total;
      ghost var seen, before := AllRows(work[..n]), top;
      PrefixConsistent(work, n);
      DemandGrows(work, n);
      RowsOfEntry(work[n]);
      if Consistent(AllRows(work)) {
        ConsistentSubset(Elements(before) + RowsOf(work[n]), seen + RowsOf(work[n]));
      }
      match work[n] {
        case Cached(rows, _) =>
          failure := Merge(rows, false);
          if failure.None? && Consistent(AllRows(work)) && old(Holds(AllRows(work[..n]))) {
            MergedBlock(before, top, seen, rows, Elements(rows), false, target);
          }
        case Part(remote, size, blocks, _) =>
          hide Holds;
          failure := ScanPart(remote, size, blocks, seen);
      }
    }

    /** `merge`: keeps the first row of an identity, refuses a second content, truncates to the target. */
    method Merge(rows: seq<Row>, more: bool) returns (failure: Option<Failure>)
      requires Consistent(Elements(top))
      modifies this`top, this`complete
      ensures Consistent(Elements(top))
      ensures Elements(top) <= old(Elements(top)) + Elements(rows)
      ensures failure in {None, Some(Conflict), Some(ResultTooLarge)}
      ensures failure == Some(Conflict) <==> !Consistent(old(Elements(top)) + Elements(rows))
      ensures failure == Some(ResultTooLarge) ==> resultBytes(top) > MAX_RESULT_BYTES && |top| <= target
      ensures failure.None? ==>
                && resultBytes(top) <= MAX_RESULT_BYTES &&
                var all := old(Elements(top)) + Elements(rows);
                IsTop(top, all, target) && complete == (old(complete) && !more && |all| <= target)
    {
      var known: map<int, Row> := ById(top);
      ghost var before := Elements(top);
      var n := 0;
      while n < |rows|
        invariant 0 <= n <= |rows| && top == old(top) && complete == old(complete)
        invariant Keyed(known) && Consistent(before + Elements(rows[..n]))
        invariant Contents(known) == before + Elements(rows[..n])
      {
        var row := rows[n];
        assert Elements(rows[..n + 1]) == Elements(rows[..n]) + {row};
        if row.id in known && known[row.id] != row {
          assert known[row.id] in Contents(known) && row in Elements(rows);
          assert known[row.id] in before + Elements(rows);
          return Some(Conflict);
        }
        KnownGrows(known, row);
        known := known[row.id := row];
        n := n + 1;
      }
      assert rows[..|rows|] == rows;
      var ordered := Sorted(Contents(known));
      FirstIsTop(ordered, Contents(known), target);
      top := First(ordered, target);
      complete := complete && !more && |ordered| <= target;
      if resultBytes(top) > MAX_RESULT_BYTES {
        return Some(ResultTooLarge);
      }
      failure := None;
    }
  }

  lemma {:induction false} BlocksGrow(blocks: seq<Block>, n: nat)
    requires n < |blocks|
    ensures BlockRows(blocks[..n + 1]) == BlockRows(blocks[..n]) + blocks[n].rows
    ensures BlockRows(blocks[..n + 1]) <= BlockRows(blocks)
    decreases |blocks|
  {
    assert blocks[..n + 1][..n] == blocks[..n];
    var m := |blocks| - 1;
    if n < m {
      BlocksGrow(blocks[..m], n);
      assert blocks[..m][..n] == blocks[..n] && blocks[..m][..n + 1] == blocks[..n + 1];
    } else {
      assert blocks[..n + 1] == blocks;
    }
  }

  /** Merging a block into the top of what was seen gives the top of both, and the flag says whether it is everything. */
  lemma MergedBlock(before: seq<Row>, after: seq<Row>, seen: set<Row>, page: seq<Row>, block: set<Row>, more: bool, target: nat)
    requires IsTop(before, seen, target) && Consistent(seen + block) && IsTop(after, Elements(before) + Elements(page), target)
    requires if more then IsTop(page, block, target) && |block| > target else Elements(page) == block
    ensures IsTop(after, seen + block, target)
    ensures |seen + block| <= target <==> |seen| <= target && !more && |Elements(before) + Elements(page)| <= target
  {
    TopOfTops(before, seen, page, block, after, target);
    StandsSize(before, seen, target);
    SubsetSize(seen, seen + block);
    SubsetSize(block, seen + block);
    SubsetSize(Elements(before), seen);
  }

  predicate AsDemanded(t: Totals, work: seq<Entry>, n: nat)
    requires n <= |work|
  {
    t == Totals(Total(work[..n], EntryBytes), Total(work[..n], EntryRequests), Total(work[..n], EntryObjects))
  }

  lemma DemandGrows(work: seq<Entry>, n: nat)
    requires n < |work|
    ensures Total(work[..n + 1], EntryBytes) == Total(work[..n], EntryBytes) + EntryBytes(work[n]) <= Total(work, EntryBytes)
    ensures Total(work[..n + 1], EntryRequests) == Total(work[..n], EntryRequests) + EntryRequests(work[n]) <= Total(work, EntryRequests)
    ensures Total(work[..n + 1], EntryObjects) == Total(work[..n], EntryObjects) + EntryObjects(work[n]) <= Total(work, EntryObjects)
  {
    TotalGrows(work, EntryObjects, n);
    TotalGrows(work, EntryBytes, n);
    TotalGrows(work, EntryRequests, n);
  }

  /** What has been charged and merged at one point of a scan. */
  datatype Usage = Usage(totals: Totals, reserved: int, requests: int, rows: set<Row>)

  predicate Progress(remote: bool, start: Usage, now: Usage, blocks: seq<Block>, n: nat)
    requires n <= |blocks|
  {
    && Charged(remote, start.totals, now.totals, now.reserved, now.requests, Total(blocks[..n], BlockBytes),
               Total(blocks[..n], BlockRequests), true)
    && Inside(now.rows, start.rows, BlockRows(blocks[..n]))
  }

  /** How the scan of a file ended: what is charged and merged stays within the file, and a failure has its cause in it. */
  predicate Ended(remote: bool, start: Usage, now: Usage, blocks: seq<Block>, failure: Option<Failure>, maxBytes: nat, maxRequests: nat) {
    && Charged(remote, start.totals, now.totals, now.reserved, now.requests, Total(blocks, BlockBytes), Total(blocks, BlockRequests),
               failure.None?)
    && Inside(now.rows, start.rows, BlockRows(blocks))
    && match failure
       case Some(BudgetExceeded) =>
         if remote then Total(blocks, BlockBytes) > maxBytes || Total(blocks, BlockRequests) > maxRequests
         else start.totals.bytes + Total(blocks, BlockBytes) > MAX_READ_BYTES
       case Some(Conflict) => !Consistent(Both(start.rows, BlockRows(blocks)))
       case Some(TooManyObjects) => false
       case _ => true
  }

  lemma NoBlocks(remote: bool, start: Usage, seen: set<Row>, blocks: seq<Block>)
    requires start.reserved == 0 && start.requests == 0
    ensures Progress(remote, start, start, blocks, 0) && Both(seen, BlockRows(blocks[..0])) == seen
  {
  }

  lemma AllBlocks(remote: bool, start: Usage, now: Usage, blocks: seq<Block>, maxBytes: nat, maxRequests: nat)
    requires Progress(remote, start, now, blocks, |blocks|)
    ensures Ended(remote, start, now, blocks, None, maxBytes, maxRequests)
  {
    assert blocks[..|blocks|] == blocks;
  }

  /** One more block, done or not, and what a failure in it says of the whole file. */
  lemma ProgressGrows(remote: bool, start: Usage, before: Usage, now: Usage, blocks: seq<Block>, n: nat, failure: Option<Failure>,
                      maxBytes: nat, maxRequests: nat)
    requires n < |blocks| && Progress(remote, start, before, blocks, n) && Inside(now.rows, before.rows, blocks[n].rows)
    requires Charged(remote, before.totals, now.totals, now.reserved - before.reserved, now.requests - before.requests,
                     BlockBytes(blocks[n]), BlockRequests(blocks[n]), failure.None?)
    requires failure == Some(BudgetExceeded) ==>
               if remote then before.reserved + BlockBytes(blocks[n]) > maxBytes
                              || before.requests + BlockRequests(blocks[n]) > maxRequests
               else before.totals.bytes + BlockBytes(blocks[n]) > MAX_READ_BYTES
    requires failure != Some(TooManyObjects)
    requires failure == Some(Conflict) ==> !Consistent(Both(before.rows, blocks[n].rows))
    ensures failure.None? ==> Progress(remote, start, now, blocks, n + 1)
    ensures failure.Some? ==> Ended(remote, start, now, blocks, failure, maxBytes, maxRequests)
  {
    TotalGrows(blocks, BlockBytes, n);
    TotalGrows(blocks, BlockRequests, n);
    BlocksGrow(blocks, n);
    hide Total;
    hide BlockRows;
    hide BlockBytes;
    hide BlockRequests;
    if Consistent(Both(start.rows, BlockRows(blocks))) {
      ConsistentSubset(Both(before.rows, blocks[n].rows), Both(start.rows, BlockRows(blocks)));
    }
    hide Consistent;
  }

  lemma NextBlock(seen: set<Row>, blocks: seq<Block>, n: nat)
    requires n < |blocks|
    ensures Both(seen, BlockRows(blocks[..n + 1])) == Both(Both(seen, BlockRows(blocks[..n])), blocks[n].rows)
    ensures Consistent(Both(seen, BlockRows(blocks))) ==> Consistent(Both(Both(seen, BlockRows(blocks[..n])), blocks[n].rows))
  {
    assert blocks[..n + 1][..n] == blocks[..n];
    BlocksGrow(blocks, n);
    hide BlockRows;
    if Consistent(Both(seen, BlockRows(blocks))) {
      ConsistentSubset(Both(Both(seen, BlockRows(blocks[..n])), blocks[n].rows), Both(seen, BlockRows(blocks)));
    }
  }

  lemma PrefixConsistent(work: seq<Entry>, n: nat)
    requires n < |work|
    ensures AllRows(work[..n + 1]) == AllRows(work[..n]) + RowsOf(work[n]) <= AllRows(work)
    ensures Consistent(AllRows(work)) ==> Consistent(AllRows(work[..n]) + RowsOf(work[n]))
  {
    assert work[..n + 1][..n] == work[..n];
    AllRowsMembers(work);
    AllRowsMembers(work[..n + 1]);
    forall r | r in AllRows(work[..n + 1]) ensures r in AllRows(work) {
      var i :| 0 <= i < n + 1 && r in RowsOf(work[..n + 1][i]);
      assert work[i] == work[..n + 1][i];
    }
  }

  lemma NothingSeen(work: seq<Entry>, target: nat)
    ensures IsTop([], AllRows(work[..0]), target) && |AllRows(work[..0])| <= target
    ensures Consistent(Elements([]))
  {
    assert work[..0] == [];
  }

  /** Everything from the next unit on is older than the whole top. */
  lemma RestIsOlder(work: seq<Entry>, n: nat, top: seq<Row>) returns (older: set<Row>)
    requires WellOrdered(work) && 0 < n < |work| && top != [] && Descending(top)
    requires work[n].maxEpoch < top[|top| - 1].epoch
    ensures AllRows(work) == AllRows(work[..n]) + older
    ensures forall r, x | r in older && x in top :: r.epoch < x.epoch
  {
    older := AllRows(work) - AllRows(work[..n]);
    AllRowsMembers(work);
    AllRowsMembers(work[..n]);
    hide AllRows;
    assert forall k | 0 <= k < n :: work[..n][k] == work[k];
    forall r, x | r in older && x in top ensures r.epoch < x.epoch {
      var i :| 0 <= i < |work| && r in RowsOf(work[i]);
      var j :| 0 <= j < |top| && top[j] == x;
      assert j < |top| - 1 ==> Newer(top[j], top[|top| - 1]);
    }
    forall r | r in AllRows(work[..n]) ensures r in AllRows(work) {
      var i :| 0 <= i < n && r in RowsOf(work[..n][i]);
      assert work[i] == work[..n][i];
    }
  }

  lemma StopIsSafe(work: seq<Entry>, n: nat, top: seq<Row>, target: nat)
    requires WellOrdered(work) && 0 < n < |work| && |top| >= target > 0
    requires work[n].maxEpoch < top[|top| - 1].epoch && IsTop(top, AllRows(work[..n]), target)
    ensures IsTop(top, AllRows(work), target)
  {
    var older := RestIsOlder(work, n, top);
    OlderRowsDoNotMatter(top, AllRows(work[..n]), older, target);
  }

  function ById(top: seq<Row>): (known: map<int, Row>)
    requires Consistent(Elements(top))
    ensures Keyed(known) && Contents(known) == Elements(top)
  {
    if top == [] then map[]
    else
      var n := |top| - 1;
      assert Elements(top) == Elements(top[..n]) + {top[n]};
      var known := ById(top[..n]);
      assert top[n].id in known ==> known[top[n].id] in Contents(known);
      KnownGrows(known, top[n]);
      known[top[n].id := top[n]]
  }

  predicate Keyed(known: map<int, Row>) { forall id | id in known :: known[id].id == id }

  function Contents(known: map<int, Row>): set<Row> { set id | id in known :: known[id] }

  lemma KnownGrows(known: map<int, Row>, row: Row)
    requires Keyed(known) && (row.id in known ==> known[row.id] == row)
    ensures Keyed(known[row.id := row]) && Contents(known[row.id := row]) == Contents(known) + {row}
    ensures Consistent(Contents(known) + {row})
  {
    var more := known[row.id := row];
    assert row.id in more && more[row.id] == row;
    forall id | id in known ensures more[id] == known[id] {
    }
    forall r | r in Contents(known) ensures r in Contents(more) {
      var id :| id in known && known[id] == r;
      assert id in more && more[id] == r;
    }
  }
}
