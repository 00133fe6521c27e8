/** The part manifest of app/clickhouse_manifest.py: what its SQL statements do to the table, as functions. */
module Manifest {
  import opened Select
  import opened PartStatus

  /** The columns a source part brings. */
  datatype Values = Values(sha: string, revision: int, minUs: int, maxUs: int, rowCount: int, sizeBytes: int)

  datatype Source = Source(path: string, identity: string, values: Values)

  datatype Row = Row(
    values: Values, status: Status, attempts: nat, nextRetryUs: int, insertedRows: nat, lastError: string,
    firstSeenUs: int, updatedAtUs: int, readyAtUs: int, seenGeneration: nat)

  type Table = map<Key, Row>

  /** One reconcile transaction: its clock reading and generation. */
  datatype Stamp = Stamp(nowUs: int, generation: nat)

  datatype ReconcileState = ReconcileState(
    generation: nat, startUs: int, endUs: int, sourceParts: int, eligibleParts: int, completedAtUs: int, lastError: string)

  datatype Counters = Counters(
    generation: nat, eligible: nat, queued: nat, replaced: nat, deleted: nat, agedOut: nat)

  function KeyOf(p: Source): Key { Key(p.path, p.identity) }

  /** `reset_states` */
  predicate Resets(s: Status) { ActiveDelete(s) || s == Retired }

  // ---- row transitions ----

  function NewRow(p: Source, at: Stamp): Row {
    Row(p.values, Pending, 0, 0, 0, "", at.nowUs, at.nowUs, 0, at.generation)
  }

  /** The ON CONFLICT branch of the upsert. */
  function UpdatedRow(r: Row, p: Source, at: Stamp): Row {
    if Resets(r.status)
    then r.(values := p.values, status := Pending, attempts := 0, nextRetryUs := 0, insertedRows := 0, lastError := "",
            readyAtUs := 0, updatedAtUs := at.nowUs, seenGeneration := at.generation)
    else r.(values := p.values, updatedAtUs := at.nowUs, seenGeneration := at.generation)
  }

  /** Whether the upsert writes an existing row: the WHERE of the set-based form, the test of the row loop. */
  predicate Writes(r: Row, p: Source) { Resets(r.status) || r.values != p.values }

  function Upserted(t: Table, p: Source, at: Stamp): Row {
    var k := KeyOf(p);
    if k !in t then NewRow(p, at) else if Writes(t[k], p) then UpdatedRow(t[k], p, at) else t[k]
  }

  /** Another identity of a listed path is to be deleted; a deletion under way goes on. */
  function Replaced(r: Row, at: Stamp): Row {
    if r.status == Deleting then r.(updatedAtUs := at.nowUs)
    else r.(status := DeletePending, nextRetryUs := 0, lastError := "", updatedAtUs := at.nowUs)
  }

  /** A row the full sweep did not see, inside the window: as `Replaced`, but its last error stays. */
  function SweptRow(r: Row, at: Stamp): Row {
    if r.status == Deleting then r.(updatedAtUs := at.nowUs)
    else r.(status := DeletePending, nextRetryUs := 0, updatedAtUs := at.nowUs)
  }

  /** A row the full sweep did not see, older than the window. */
  function AgedRow(r: Row, at: Stamp): Row {
    r.(status := Retired, nextRetryUs := 0, lastError := "", updatedAtUs := at.nowUs)
  }

  /** `mark_ready` */
  function ReadyRow(r: Row, rows: int, nowUs: int): Row {
    r.(status := Ready, insertedRows := if rows < 0 then 0 else rows, lastError := "", nextRetryUs := 0,
       readyAtUs := nowUs, updatedAtUs := nowUs)
  }

  /** Messages are stored cut to 2000 characters. */
  function Cut(text: string): string { if |text| > 2000 then text[..2000] else text }

  /** `release_pending` */
  function ReleasedRow(r: Row, reason: string, delay: int, nowUs: int): Row {
    r.(status := Released(r.status), nextRetryUs := nowUs + (if delay < 0 then 0 else delay) * 1_000_000,
       lastError := Cut(reason), updatedAtUs := nowUs)
  }

  function PowerOfTwo(n: nat): nat { if n == 0 then 1 else 2 * PowerOfTwo(n - 1) }

  /** Back-off in seconds before the next attempt. */
  function Delay(attempts: nat): nat
    requires attempts > 0
  {
    var d := 5 * PowerOfTwo(if attempts - 1 < 8 then attempts - 1 else 8);
    if d < 900 then d else 900
  }

  /** `mark_failed` */
  function FailedRow(r: Row, error: string, nowUs: int): Row {
    r.(status := Failed(r.status), attempts := r.attempts + 1, nextRetryUs := nowUs + Delay(r.attempts + 1) * 1_000_000,
       lastError := Cut(error), updatedAtUs := nowUs)
  }

  /** `mark_retired` */
  function RetiredRow(r: Row, nowUs: int): Row {
    r.(status := Retired, nextRetryUs := 0, insertedRows := 0, lastError := "", updatedAtUs := nowUs)
  }

  /** `claim_next` */
  predicate Claimable(r: Row, nowUs: int) {
    r.status in {Pending, LoadFailed, DeletePending, DeleteFailed} && r.nextRetryUs <= nowUs
  }

  function ClaimedRow(r: Row, nowUs: int): Row {
    r.(status := if ActiveDelete(r.status) then Deleting else Loading, updatedAtUs := nowUs)
  }

  /** `recover_loading` */
  function RecoveredRow(r: Row, nowUs: int): Row {
    match r.status
    case Loading =>
      r.(status := Pending, nextRetryUs := 0, lastError := "worker restarted during ingestion", updatedAtUs := nowUs)
    case Deleting =>
      r.(status := DeletePending, nextRetryUs := 0, lastError := "worker restarted during deletion", updatedAtUs := nowUs)
    case _ => r
  }

  function Recovered(t: Table, nowUs: int): Table { map k | k in t :: RecoveredRow(t[k], nowUs) }

  predicate IsMissing(t: Table, paths: set<string>, k: Key)
    requires k in t
  {
    k.path in paths && k.path != "" && t[k].status != Retired
  }

  function MissingKeys(t: Table, paths: set<string>): set<Key> { set k | k in t && IsMissing(t, paths, k) :: k }

  /** `queue_missing_paths` */
  function MissingQueued(t: Table, paths: set<string>, at: Stamp): Table {
    map k | k in t :: if IsMissing(t, paths, k) then Replaced(t[k], at) else t[k]
  }

  /** Chunks of paths may be queued one after the other. */
  lemma MissingInTwo(t: Table, a: set<string>, b: set<string>, at: Stamp)
    requires a !! b
    ensures MissingQueued(t, a + b, at) == MissingQueued(MissingQueued(t, a, at), b, at)
    ensures |MissingKeys(t, a + b)| == |MissingKeys(t, a)| + |MissingKeys(MissingQueued(t, a, at), b)|
  {
    var u := MissingQueued(t, a, at);
    forall k: Key ensures k in MissingKeys(t, a + b) <==> k in MissingKeys(t, a) || k in MissingKeys(u, b) {
      assert k in u <==> k in t;
    }
    assert MissingKeys(t, a + b) == MissingKeys(t, a) + MissingKeys(u, b);
    assert MissingKeys(t, a) !! MissingKeys(u, b);
  }

  /** The queue's order: deletions, then failed jobs, then earlier retry times, then event time. */
  predicate Precedes(j: Key, a: Row, k: Key, b: Row, newest: bool) {
    var aDeletes, bDeletes := ActiveDelete(a.status), ActiveDelete(b.status);
    var aFailed, bFailed := a.status in {LoadFailed, DeleteFailed}, b.status in {LoadFailed, DeleteFailed};
    if aDeletes != bDeletes then aDeletes
    else if aFailed != bFailed then aFailed
    else if a.nextRetryUs != b.nextRetryUs then a.nextRetryUs < b.nextRetryUs
    else if a.values.maxUs != b.values.maxUs
    then (if newest then a.values.maxUs > b.values.maxUs else a.values.maxUs < b.values.maxUs)
    else PathLess(j.path, k.path)
  }

  /** The order of text columns. */
  predicate PathLess(a: string, b: string)
    decreases a
  {
    b != "" && (a == "" || a[0] < b[0] || (a[0] == b[0] && PathLess(a[1..], b[1..])))
  }

  lemma {:induction false} PathLessIsTransitive(a: string, b: string, c: string)
    requires PathLess(a, b) && PathLess(b, c)
    ensures PathLess(a, c)
    decreases a
  {
    if a != "" && a[0] == b[0] == c[0] {
      PathLessIsTransitive(a[1..], b[1..], c[1..]);
    }
  }

  lemma {:induction false} PathLessIsTotal(a: string, b: string)
    ensures PathLess(a, b) || PathLess(b, a) <==> a != b
    ensures !(PathLess(a, b) && PathLess(b, a))
    decreases a
  {
    if a != "" && b != "" && a[0] == b[0] {
      PathLessIsTotal(a[1..], b[1..]);
      assert a == [a[0]] + a[1..] && b == [b[0]] + b[1..];
    }
  }

  /** Of two rows of different paths one comes first: the order leaves no choice but between identities of one path. */
  lemma QueueIsOrdered(j: Key, a: Row, k: Key, b: Row, newest: bool)
    ensures !(Precedes(j, a, k, b, newest) && Precedes(k, b, j, a, newest))
    ensures j.path != k.path ==> Precedes(j, a, k, b, newest) || Precedes(k, b, j, a, newest)
  {
    PathLessIsTotal(j.path, k.path);
  }

  predicate FailedBefore(r: Row) { r.status == LoadFailed || r.status == DeleteFailed }

  predicate ToDelete(r: Row) { r.status == DeletePending || r.status == DeleteFailed }

  /** What the queue promises of the job it hands out: a due deletion is never passed over for a load; among jobs of one kind, one
      that has failed not for one that has not; then the earlier retry time goes first, then the event time, in the direction
      asked for, then the path. */
  predicate GoesFirst(k: Key, a: Row, j: Key, b: Row, newest: bool) {
    && (ToDelete(b) ==> ToDelete(a))
    && (ToDelete(a) == ToDelete(b) ==>
          && (FailedBefore(b) ==> FailedBefore(a))
          && (FailedBefore(a) == FailedBefore(b) ==>
                && a.nextRetryUs <= b.nextRetryUs
                && (a.nextRetryUs == b.nextRetryUs ==>
                      && (if newest then a.values.maxUs >= b.values.maxUs else a.values.maxUs <= b.values.maxUs)
                      && (a.values.maxUs == b.values.maxUs ==> !PathLess(j.path, k.path)))))
  }

  /** The order of the queue is that promise. */
  lemma QueueMeans(k: Key, a: Row, j: Key, b: Row, newest: bool, nowUs: int)
    requires Claimable(a, nowUs) && Claimable(b, nowUs)
    ensures !Precedes(j, b, k, a, newest) <==> GoesFirst(k, a, j, b, newest)
  {
  }

  lemma PrecedesIsTransitive(i: Key, a: Row, j: Key, b: Row, k: Key, c: Row, newest: bool)
    requires Precedes(i, a, j, b, newest) && Precedes(j, b, k, c, newest)
    ensures Precedes(i, a, k, c, newest)
  {
    if PathLess(i.path, j.path) && PathLess(j.path, k.path) {
      PathLessIsTransitive(i.path, j.path, k.path);
    }
  }

  // ---- how a row leaves its job ----

  /** The back-off starts at five seconds, doubles with every failure, and is capped at fifteen minutes. */
  lemma BackOffDoubles(attempts: nat)
    requires attempts > 0
    ensures 5 <= Delay(attempts) <= 900 && Delay(1) == 5
    ensures Delay(attempts + 1) == if 2 * Delay(attempts) < 900 then 2 * Delay(attempts) else 900
  {
    PowersGrow(if attempts - 1 < 8 then attempts - 1 else 8);
    assert PowerOfTwo(8) == 256;
  }

  lemma {:induction false} PowersGrow(n: nat)
    requires n <= 8
    ensures 1 <= PowerOfTwo(n) <= 256
    ensures n == 8 ==> PowerOfTwo(n) == 256
    ensures n < 8 ==> PowerOfTwo(n) <= 128
  {
    if n == 8 {
      assert PowerOfTwo(8) == 256;
    } else if n > 0 {
      PowersGrow(n - 1);
      assert n - 1 < 7;
      SmallPowers(n);
    }
  }

  lemma SmallPowers(n: nat)
    requires n < 8
    ensures 1 <= PowerOfTwo(n) <= 128
  {
    assert PowerOfTwo(7) == 128 && PowerOfTwo(6) == 64 && PowerOfTwo(5) == 32 && PowerOfTwo(4) == 16;
    assert PowerOfTwo(3) == 8 && PowerOfTwo(2) == 4 && PowerOfTwo(1) == 2 && PowerOfTwo(0) == 1;
  }

  /** A paused job comes back exactly when its delay is over, as the kind of job it was: a deletion stays one, anything
      else is a load. */
  lemma PausedComesAgain(r: Row, reason: string, delay: int, nowUs: int, laterUs: int)
    ensures var back := ReleasedRow(r, reason, delay, nowUs);
            && (Claimable(back, laterUs) <==> laterUs >= nowUs && laterUs >= nowUs + delay * 1_000_000)
            && (ClaimedRow(back, laterUs).status == if ActiveDelete(r.status) then Deleting else Loading)
            && back.attempts == r.attempts && back.values == r.values
  {
  }

  /** A failed job comes back exactly when its back-off is over, as the kind of job it was. */
  lemma FailedComesAgain(r: Row, error: string, nowUs: int, laterUs: int)
    ensures var back := FailedRow(r, error, nowUs);
            && (Claimable(back, laterUs) <==> laterUs >= nowUs + Delay(back.attempts) * 1_000_000)
            && (ClaimedRow(back, laterUs).status == if ActiveDelete(r.status) then Deleting else Loading)
            && back.attempts == r.attempts + 1 && back.values == r.values
  {
    hide Delay;
  }

  /** A finished job is never claimed again; one that a dead process left half done is, as the kind of job it was. */
  lemma FinishedIsNotClaimed(r: Row, rows: int, nowUs: int, laterUs: int)
    ensures !Claimable(ReadyRow(r, rows, nowUs), laterUs) && !Claimable(RetiredRow(r, nowUs), laterUs)
    ensures !Claimable(ClaimedRow(r, nowUs), laterUs)
    ensures RecoveredRow(ReadyRow(r, rows, nowUs), laterUs) == ReadyRow(r, rows, nowUs)
    ensures RecoveredRow(RetiredRow(r, nowUs), laterUs) == RetiredRow(r, nowUs)
    ensures Claimable(r, nowUs) && laterUs >= 0 ==> Claimable(RecoveredRow(ClaimedRow(r, nowUs), laterUs), laterUs)
    ensures Claimable(r, nowUs) && laterUs >= 0 ==>
              (ActiveDelete(r.status) <==> ActiveDelete(RecoveredRow(ClaimedRow(r, nowUs), laterUs).status))
  {
  }

  // ---- serving gates ----

  predicate Unready(s: Status) { s != Ready && s != Retired }

  /** `global_coverage` */
  predicate GlobalGate(t: Table, state: ReconcileState, sourceComplete: bool, sourcePending: bool) {
    sourceComplete && !sourcePending && state.completedAtUs != 0 && state.lastError == ""
    && forall k | k in t :: !Unready(t[k].status)
  }

  predicate InWindow(v: Values, startUs: int, endUs: int) { v.maxUs >= startUs && v.minUs <= endUs }

  /** `window_coverage` */
  predicate WindowGate(t: Table, state: ReconcileState, sourceComplete: bool, pendingInWindow: bool, startUs: int, endUs: int) {
    sourceComplete && !pendingInWindow && state.completedAtUs != 0 && state.lastError == ""
    && forall k | k in t && InWindow(t[k].values, startUs, endUs) :: !Unready(t[k].status)
  }

  /** One part of `coverage`: its own row is ready and every other identity of its path is retired. */
  predicate Covered(t: Table, p: Source) {
    && KeyOf(p) in t && t[KeyOf(p)].status == Ready
    && forall k | k in t && k.path == p.path && k.identity != p.identity :: t[k].status == Retired
  }

  // ---- the set-based reconcile ----

  /** The parts a streaming reconcile counts as eligible. */
  function Windowed(parts: seq<Source>, filter: bool, startUs: int, endUs: int): seq<Source> {
    if parts == [] then []
    else
      var front, p := Windowed(parts[..|parts| - 1], filter, startUs, endUs), parts[|parts| - 1];
      if !filter || InWindow(p.values, startUs, endUs) then front + [p] else front
  }

  /** INSERT OR REPLACE of one batch. */
  function Flushed(temp: map<string, Source>, batch: seq<Source>): map<string, Source> {
    if batch == [] then temp else Flushed(temp, batch[..|batch| - 1])[batch[|batch| - 1].path := batch[|batch| - 1]]
  }

  /** The TEMP table: the listed parts by path, the last one of a path winning; parts without identity are left out. */
  function Listed(parts: seq<Source>): map<string, Source> {
    if parts == [] then map[]
    else
      var last := parts[|parts| - 1];
      if last.identity == "" then Listed(parts[..|parts| - 1]) else Listed(parts[..|parts| - 1])[last.path := last]
  }

  function ListedKeys(src: map<string, Source>): set<Key> { set p | p in src :: KeyOf(src[p]) }

  predicate IsListed(src: map<string, Source>, k: Key) { k.path in src && KeyOf(src[k.path]) == k }

  /** Every listed part is keyed by its own path. */
  predicate WellKeyed(src: map<string, Source>) { forall p | p in src :: src[p].path == p && src[p].identity != "" }

  /** The two statements before the sweep: upsert, then replacement of other identities. */
  function Upserts(t: Table, src: map<string, Source>, at: Stamp): Table
    requires WellKeyed(src)
  {
    t + map p | p in src :: KeyOf(src[p]) := Upserted(t, src[p], at)
  }

  predicate IsReplaced(t: Table, src: map<string, Source>, k: Key)
    requires k in t
  {
    k.path in src && src[k.path].identity != k.identity && t[k].status != Retired
  }

  function Replacements(t: Table, src: map<string, Source>, at: Stamp): Table {
    map k | k in t :: if IsReplaced(t, src, k) then Replaced(t[k], at) else t[k]
  }

  predicate IsSwept(t: Table, listed: set<Key>, k: Key)
    requires k in t
  {
    k !in listed && t[k].status != Retired
  }

  function Swept(t: Table, listed: set<Key>, startUs: int, at: Stamp): Table {
    map k | k in t ::
      if !IsSwept(t, listed, k) then t[k]
      else if t[k].values.maxUs >= startUs then SweptRow(t[k], at) else AgedRow(t[k], at)
  }

  predicate Queues(t: Table, p: Source) { KeyOf(p) !in t || !ActiveLoad(t[KeyOf(p)].status) }

  function QueuedPaths(t: Table, src: map<string, Source>): set<string> { set p | p in src && Queues(t, src[p]) :: p }

  function ReplacedKeys(t: Table, src: map<string, Source>): set<Key> { set k | k in t && IsReplaced(t, src, k) :: k }

  function DeletedKeys(t: Table, listed: set<Key>, startUs: int): set<Key> {
    set k | k in t && IsSwept(t, listed, k) && t[k].values.maxUs >= startUs :: k
  }

  function AgedKeys(t: Table, listed: set<Key>, startUs: int): set<Key> {
    set k | k in t && IsSwept(t, listed, k) && t[k].values.maxUs < startUs :: k
  }

  // ---- the row loop ----

  /** What the row loop does for one part that has an identity. */
  function PartStep(t: Table, p: Source, at: Stamp): Table {
    var u := t[KeyOf(p) := Upserted(t, p, at)];
    map k | k in u ::
      if k.path == p.path && k.identity != p.identity && u[k].status != Retired then Replaced(u[k], at) else u[k]
  }

  function OtherKeys(t: Table, p: Source): set<Key> {
    set k | k in t && k.path == p.path && k.identity != p.identity && t[k].status != Retired :: k
  }

  datatype LoopResult = LoopResult(table: Table, seen: set<Key>, queued: nat, replaced: nat)

  /** The loop over the parts, in their order. */
  function Loop(t: Table, parts: seq<Source>, at: Stamp): LoopResult {
    if parts == [] then LoopResult(t, {}, 0, 0)
    else
      var before, p := Loop(t, parts[..|parts| - 1], at), parts[|parts| - 1];
      if p.identity == "" then before
      else LoopResult(
             PartStep(before.table, p, at),
             before.seen + {KeyOf(p)},
             before.queued + (if Queues(before.table, p) then 1 else 0),
             before.replaced + |OtherKeys(before.table, p)|)
  }

  // ---- both forms agree ----

  /** The source lists each path once (it is the primary key there). */
  predicate DistinctPaths(parts: seq<Source>) {
    forall i, j | 0 <= i < j < |parts| && parts[i].identity != "" && parts[j].identity != "" ::
      parts[i].path != parts[j].path
  }

  lemma {:induction false} ListedMeans(parts: seq<Source>)
    ensures WellKeyed(Listed(parts))
    ensures forall p | p in Listed(parts) :: exists i :: 0 <= i < |parts| && parts[i] == Listed(parts)[p]
    ensures forall i | 0 <= i < |parts| && parts[i].identity != "" :: parts[i].path in Listed(parts)
    ensures DistinctPaths(parts) ==>
              forall i | 0 <= i < |parts| && parts[i].identity != "" :: Listed(parts)[parts[i].path] == parts[i]
  {
    if parts != [] {
      var n := |parts| - 1;
      ListedMeans(parts[..n]);
      var front := Listed(parts[..n]);
      forall p | p in Listed(parts) ensures exists i :: 0 <= i < |parts| && parts[i] == Listed(parts)[p] {
        if parts[n].identity != "" && p == parts[n].path {
          assert parts[n] == Listed(parts)[p];
        } else {
          var i :| 0 <= i < n && parts[..n][i] == front[p];
          assert parts[i] == Listed(parts)[p];
        }
      }
      forall i | 0 <= i < |parts| && parts[i].identity != ""
        ensures parts[i].path in Listed(parts)
        ensures DistinctPaths(parts) ==> Listed(parts)[parts[i].path] == parts[i]
      {
        if i < n {
          assert parts[..n][i] == parts[i];
        }
      }
    }
  }

  lemma LastIsNew(parts: seq<Source>)
    requires parts != [] && DistinctPaths(parts) && parts[|parts| - 1].identity != ""
    ensures DistinctPaths(parts[..|parts| - 1])
    ensures parts[|parts| - 1].path !in Listed(parts[..|parts| - 1])
  {
    var n := |parts| - 1;
    ListedMeans(parts[..n]);
  }

  function SetBased(t: Table, src: map<string, Source>, at: Stamp): Table
    requires WellKeyed(src)
  {
    Replacements(Upserts(t, src, at), src, at)
  }

  /** The set-based result, key by key. */
  lemma SetBasedAt(t: Table, src: map<string, Source>, at: Stamp, k: Key)
    requires WellKeyed(src)
    ensures k in SetBased(t, src, at) <==> k in t || IsListed(src, k)
    ensures IsListed(src, k) ==> SetBased(t, src, at)[k] == Upserted(t, src[k.path], at)
    ensures k in t && !IsListed(src, k) ==>
              SetBased(t, src, at)[k] == if IsReplaced(t, src, k) then Replaced(t[k], at) else t[k]
  {
    var m := map p | p in src :: KeyOf(src[p]) := Upserted(t, src[p], at);
    if IsListed(src, k) {
      assert k.path in src && KeyOf(src[k.path]) == k;
      assert k in m;
    }
    if k in m {
      var p :| p in src && KeyOf(src[p]) == k;
      assert p == k.path;
    }
  }

  lemma PartStepAt(t: Table, p: Source, at: Stamp, k: Key)
    ensures k in PartStep(t, p, at) <==> k in t || k == KeyOf(p)
    ensures k == KeyOf(p) ==> PartStep(t, p, at)[k] == Upserted(t, p, at)
    ensures k in t && k != KeyOf(p) ==>
              PartStep(t, p, at)[k] == if k in OtherKeys(t, p) then Replaced(t[k], at) else t[k]
  {
  }

  lemma UpsertedSame(t: Table, u: Table, p: Source, at: Stamp)
    requires KeyOf(p) in t <==> KeyOf(p) in u
    requires KeyOf(p) in t ==> t[KeyOf(p)] == u[KeyOf(p)]
    ensures Upserted(t, p, at) == Upserted(u, p, at)
  {
  }

  /** Keys of a path the source does not list are as they were. */
  lemma UnlistedPath(t: Table, src: map<string, Source>, at: Stamp, k: Key)
    requires WellKeyed(src) && k.path !in src
    ensures k in SetBased(t, src, at) <==> k in t
    ensures k in t ==> SetBased(t, src, at)[k] == t[k]
  {
    SetBasedAt(t, src, at, k);
  }

  lemma SameOthersOfPath(t: Table, src: map<string, Source>, p: Source, at: Stamp)
    requires WellKeyed(src) && p.path !in src
    ensures OtherKeys(SetBased(t, src, at), p) == OtherKeys(t, p)
    ensures Queues(SetBased(t, src, at), p) <==> Queues(t, p)
    ensures Upserted(SetBased(t, src, at), p, at) == Upserted(t, p, at)
  {
    hide SetBased;
    forall k: Key | k.path == p.path
      ensures k in SetBased(t, src, at) <==> k in t
      ensures k in t ==> SetBased(t, src, at)[k] == t[k]
    {
      UnlistedPath(t, src, at, k);
    }
    UpsertedSame(SetBased(t, src, at), t, p, at);
  }

  lemma StepExtendsAt(t: Table, src: map<string, Source>, p: Source, at: Stamp, k: Key)
    requires WellKeyed(src) && p.identity != "" && p.path !in src
    ensures WellKeyed(src[p.path := p])
    ensures k in PartStep(SetBased(t, src, at), p, at) <==> k in SetBased(t, src[p.path := p], at)
    ensures k in PartStep(SetBased(t, src, at), p, at) ==>
              PartStep(SetBased(t, src, at), p, at)[k] == SetBased(t, src[p.path := p], at)[k]
  {
    hide SetBased;
    hide PartStep;
    hide Upserted;
    hide Replaced;
    var u, more := SetBased(t, src, at), src[p.path := p];
    SetBasedAt(t, src, at, k);
    SetBasedAt(t, more, at, k);
    PartStepAt(u, p, at, k);
    SameOthersOfPath(t, src, p, at);
  }

  /** One more part of a new path: a step of the loop is a larger source. */
  lemma StepExtends(t: Table, src: map<string, Source>, p: Source, at: Stamp)
    requires WellKeyed(src) && p.identity != "" && p.path !in src
    ensures WellKeyed(src[p.path := p])
    ensures PartStep(SetBased(t, src, at), p, at) == SetBased(t, src[p.path := p], at)
  {
    hide SetBased;
    hide PartStep;
    var v, w := PartStep(SetBased(t, src, at), p, at), SetBased(t, src[p.path := p], at);
    forall k: Key
      ensures k in v <==> k in w
      ensures k in v ==> v[k] == w[k]
    {
      StepExtendsAt(t, src, p, at, k);
    }
  }

  lemma QueuedAt(t: Table, src: map<string, Source>, p: Source, q: string)
    ensures q in QueuedPaths(t, src[p.path := p]) <==> if q == p.path then Queues(t, p) else q in QueuedPaths(t, src)
  {
    hide Queues;
    var more := src[p.path := p];
    if q == p.path {
      assert q in more && more[q] == p;
    } else {
      assert q in more <==> q in src;
      assert q in more ==> more[q] == src[q];
    }
  }

  lemma QueuedGrows(t: Table, src: map<string, Source>, p: Source)
    requires p.path !in src
    ensures |QueuedPaths(t, src[p.path := p])| == |QueuedPaths(t, src)| + (if Queues(t, p) then 1 else 0)
  {
    var now, before := QueuedPaths(t, src[p.path := p]), QueuedPaths(t, src);
    assert p.path !in before;
    hide QueuedPaths;
    hide Queues;
    forall q: string ensures q in now <==> if q == p.path then Queues(t, p) else q in before {
      QueuedAt(t, src, p, q);
    }
    if Queues(t, p) {
      assert now == before + {p.path};
    } else {
      assert now == before;
    }
  }

  lemma ReplacedGrows(t: Table, src: map<string, Source>, p: Source)
    requires WellKeyed(src) && p.path !in src
    ensures |ReplacedKeys(t, src[p.path := p])| == |ReplacedKeys(t, src)| + |OtherKeys(t, p)|
  {
    var more := src[p.path := p];
    assert ReplacedKeys(t, more) == ReplacedKeys(t, src) + OtherKeys(t, p);
    assert ReplacedKeys(t, src) !! OtherKeys(t, p);
  }

  lemma ListedKeysGrow(src: map<string, Source>, p: Source)
    requires WellKeyed(src) && p.path !in src
    ensures ListedKeys(src[p.path := p]) == ListedKeys(src) + {KeyOf(p)}
  {
    var more := src[p.path := p];
    assert p.path in more && KeyOf(more[p.path]) == KeyOf(p);
    forall k | k in ListedKeys(src) ensures k in ListedKeys(more) {
      var q :| q in src && KeyOf(src[q]) == k;
      assert q in more && KeyOf(more[q]) == k;
    }
  }

  lemma NothingListed(t: Table, at: Stamp)
    ensures SetBased(t, map[], at) == t && QueuedPaths(t, map[]) == {} && ReplacedKeys(t, map[]) == {}
  {
  }

  /** Every listing of a path is the same part. */
  predicate OnePartPerPath(parts: seq<Source>) {
    forall i, j | 0 <= i < j < |parts| && parts[i].identity != "" && parts[j].identity != "" && parts[i].path == parts[j].path ::
      parts[i] == parts[j]
  }

  /** A part listed again changes nothing more: its row is in a load state with its values, the others are on their way out. */
  lemma ListedAgain(t: Table, src: map<string, Source>, p: Source, at: Stamp)
    requires WellKeyed(src) && p.path in src && src[p.path] == p
    ensures PartStep(SetBased(t, src, at), p, at) == SetBased(t, src, at)
  {
    hide SetBased;
    hide PartStep;
    var u := SetBased(t, src, at);
    var v := PartStep(u, p, at);
    forall k: Key
      ensures k in v <==> k in u
      ensures k in v ==> v[k] == u[k]
    {
      SetBasedAt(t, src, at, k);
      SetBasedAt(t, src, at, KeyOf(p));
      PartStepAt(u, p, at, k);
    }
  }

  lemma LastListing(parts: seq<Source>)
    requires parts != [] && OnePartPerPath(parts) && parts[|parts| - 1].identity != ""
    ensures OnePartPerPath(parts[..|parts| - 1])
    ensures var p, src := parts[|parts| - 1], Listed(parts[..|parts| - 1]); p.path in src ==> src[p.path] == p
  {
    var n := |parts| - 1;
    ListedMeans(parts[..n]);
    var p, src := parts[n], Listed(parts[..n]);
    if p.path in src {
      var i :| 0 <= i < n && parts[..n][i] == src[p.path];
      assert parts[i] == src[p.path];
    }
  }

  /** One more part, of a new path or listed before: a step of the loop is the larger source. */
  lemma OneMoreListing(t: Table, src: map<string, Source>, p: Source, at: Stamp)
    requires WellKeyed(src) && p.identity != "" && (p.path in src ==> src[p.path] == p)
    ensures WellKeyed(src[p.path := p])
    ensures PartStep(SetBased(t, src, at), p, at) == SetBased(t, src[p.path := p], at)
    ensures ListedKeys(src[p.path := p]) == ListedKeys(src) + {KeyOf(p)}
  {
    hide PartStep;
    hide SetBased;
    hide ListedKeys;
    if p.path in src {
      hide WellKeyed;
      assert src[p.path := p] == src;
      ListedAgain(t, src, p, at);
      KeyIsListed(src, p);
    } else {
      StepExtends(t, src, p, at);
      ListedKeysGrow(src, p);
    }
  }

  /** For the tables alone it is enough that a path is listed with one part, however often. */
  lemma {:induction false} TablesAgree(t: Table, parts: seq<Source>, at: Stamp)
    requires OnePartPerPath(parts)
    ensures WellKeyed(Listed(parts))
    ensures Loop(t, parts, at).table == SetBased(t, Listed(parts), at)
    ensures Loop(t, parts, at).seen == ListedKeys(Listed(parts))
  {
    hide PartStep;
    hide OtherKeys;
    hide Queues;
    hide WellKeyed;
    ListedMeans(parts);
    if parts == [] {
      NothingListed(t, at);
    } else {
      hide SetBased;
      hide ListedKeys;
      var n := |parts| - 1;
      TablesAgree(t, parts[..n], at);
      if parts[n].identity != "" {
        LastListing(parts);
        OneMoreListing(t, Listed(parts[..n]), parts[n], at);
      } else {
        assert OnePartPerPath(parts[..n]);
      }
    }
  }

  lemma KeyIsListed(src: map<string, Source>, p: Source)
    requires p.path in src && src[p.path] == p
    ensures KeyOf(p) in ListedKeys(src)
  {
  }

  /** For a source that lists each path once, the row loop and the set-based statements do the same. */
  lemma {:induction false} LoopIsSetBased(t: Table, parts: seq<Source>, at: Stamp)
    requires DistinctPaths(parts)
    ensures WellKeyed(Listed(parts))
    ensures Loop(t, parts, at).table == SetBased(t, Listed(parts), at)
    ensures Loop(t, parts, at).seen == ListedKeys(Listed(parts))
    ensures Loop(t, parts, at).queued == |QueuedPaths(t, Listed(parts))|
    ensures Loop(t, parts, at).replaced == |ReplacedKeys(t, Listed(parts))|
  {
    hide PartStep;
    hide QueuedPaths;
    hide ReplacedKeys;
    hide OtherKeys;
    hide Queues;
    TablesAgree(t, parts, at);
    if parts == [] {
      NothingListed(t, at);
    } else {
      hide SetBased;
      hide ListedKeys;
      hide WellKeyed;
      var n := |parts| - 1;
      var p := parts[n];
      LoopIsSetBased(t, parts[..n], at);
      if p.identity != "" {
        LastIsNew(parts);
        var src := Listed(parts[..n]);
        assert Listed(parts) == src[p.path := p];
        SameOthersOfPath(t, src, p, at);
        QueuedGrows(t, src, p);
        ReplacedGrows(t, src, p);
      }
    }
  }

  /** The whole transaction, by the row loop. */
  function LoopReconcile(t: Table, parts: seq<Source>, startUs: int, sweep: bool, at: Stamp): (Table, Counters) {
    var r := Loop(t, parts, at);
    if !sweep then (r.table, Counters(at.generation, |parts|, r.queued, r.replaced, 0, 0))
    else (Swept(r.table, r.seen, startUs, at),
          Counters(at.generation, |parts|, r.queued, r.replaced,
                   |DeletedKeys(r.table, r.seen, startUs)|, |AgedKeys(r.table, r.seen, startUs)|))
  }

  /** The whole transaction, by set-based statements. */
  function SetReconcile(t: Table, src: map<string, Source>, eligible: nat, startUs: int, sweep: bool, at: Stamp)
    : (Table, Counters)
    requires WellKeyed(src)
  {
    var u, listed := SetBased(t, src, at), ListedKeys(src);
    var queued, replaced := |QueuedPaths(t, src)|, |ReplacedKeys(Upserts(t, src, at), src)|;
    if !sweep then (u, Counters(at.generation, eligible, queued, replaced, 0, 0))
    else (Swept(u, listed, startUs, at),
          Counters(at.generation, eligible, queued, replaced,
                   |DeletedKeys(u, listed, startUs)|, |AgedKeys(u, listed, startUs)|))
  }

  /** The upserts neither add to nor take from the rows to be replaced. */
  lemma ReplacedBeforeOrAfter(t: Table, src: map<string, Source>, at: Stamp)
    requires WellKeyed(src)
    ensures ReplacedKeys(Upserts(t, src, at), src) == ReplacedKeys(t, src)
  {
    forall k: Key ensures k in ReplacedKeys(Upserts(t, src, at), src) <==> k in ReplacedKeys(t, src) {
      UpsertsAt(t, src, at, k);
    }
  }

  lemma UpsertsAt(t: Table, src: map<string, Source>, at: Stamp, k: Key)
    requires WellKeyed(src)
    ensures k in Upserts(t, src, at) <==> k in t || IsListed(src, k)
    ensures k in t && !IsListed(src, k) ==> Upserts(t, src, at)[k] == t[k]
  {
    var m := map p | p in src :: KeyOf(src[p]) := Upserted(t, src[p], at);
    if IsListed(src, k) {
      assert k in m;
    }
    if k in m {
      var p :| p in src && KeyOf(src[p]) == k;
      assert p == k.path;
    }
  }

  /** Row loop and set-based statements leave the same table and report the same counters. */
  lemma ReconcilesAgree(t: Table, parts: seq<Source>, startUs: int, sweep: bool, at: Stamp)
    requires DistinctPaths(parts)
    ensures WellKeyed(Listed(parts))
    ensures LoopReconcile(t, parts, startUs, sweep, at) == SetReconcile(t, Listed(parts), |parts|, startUs, sweep, at)
  {
    hide Loop;
    hide SetBased;
    hide Listed;
    LoopIsSetBased(t, parts, at);
    ReplacedBeforeOrAfter(t, Listed(parts), at);
  }

  /** The reconcile state after a reconcile. */
  function NextState(state: ReconcileState, startUs: int, endUs: int, sourceParts: int, eligible: int, preserve: bool, at: Stamp)
    : ReconcileState
  {
    if preserve then state.(generation := at.generation, lastError := "")
    else ReconcileState(at.generation, startUs, endUs, sourceParts, eligible, at.nowUs, "")
  }

  datatype Outcome = Outcome(table: Table, counters: Counters, state: ReconcileState)

  function LoopOutcome(t: Table, state: ReconcileState, list: seq<Source>, startUs: int, endUs: int, sourceParts: Option<int>,
                       sweep: bool, preserve: bool, nowUs: int): Outcome
  {
    var at := Stamp(nowUs, state.generation + 1);
    var done := LoopReconcile(t, list, startUs, sweep, at);
    Outcome(done.0, done.1, NextState(state, startUs, endUs, if sourceParts.Some? then sourceParts.value else |list|, |list|,
                                      preserve, at))
  }

  function SetOutcome(t: Table, state: ReconcileState, list: seq<Source>, startUs: int, endUs: int, sourceParts: Option<int>,
                      filter: bool, sweep: bool, preserve: bool, nowUs: int): Outcome
    requires WellKeyed(Listed(Windowed(list, filter, startUs, endUs)))
  {
    var at, used := Stamp(nowUs, state.generation + 1), Windowed(list, filter, startUs, endUs);
    var done := SetReconcile(t, Listed(used), |used|, startUs, sweep, at);
    Outcome(done.0, done.1, NextState(state, startUs, endUs, if sourceParts.Some? then sourceParts.value else |list|, |used|,
                                      preserve, at))
  }

  lemma {:induction false} WindowedAll(list: seq<Source>, startUs: int, endUs: int)
    ensures Windowed(list, false, startUs, endUs) == list
  {
    if list != [] {
      WindowedAll(list[..|list| - 1], startUs, endUs);
    }
  }

  predicate Holds(lo: int, t: int, hi: int) { lo <= t <= hi }

  /** A part is in a window if and only if an instant of it is. */
  lemma WindowMeans(v: Values, startUs: int, endUs: int)
    requires v.minUs <= v.maxUs && startUs <= endUs
    ensures InWindow(v, startUs, endUs) <==> exists t :: Holds(v.minUs, t, v.maxUs) && Holds(startUs, t, endUs)
  {
    var t := if v.minUs >= startUs then v.minUs else startUs;
    assert InWindow(v, startUs, endUs) ==> Holds(v.minUs, t, v.maxUs) && Holds(startUs, t, endUs);
  }

  lemma {:induction false} WindowedMembers(list: seq<Source>, filter: bool, startUs: int, endUs: int)
    ensures forall p :: p in Windowed(list, filter, startUs, endUs) <==> p in list && (filter ==> InWindow(p.values, startUs, endUs))
  {
    if list != [] {
      WindowedMembers(list[..|list| - 1], filter, startUs, endUs);
      assert list == list[..|list| - 1] + [list[|list| - 1]];
      hide InWindow;
    }
  }

  lemma {:induction false} WindowedDistinct(list: seq<Source>, filter: bool, startUs: int, endUs: int)
    requires DistinctPaths(list)
    ensures DistinctPaths(Windowed(list, filter, startUs, endUs))
  {
    if list != [] {
      hide InWindow;
      var front, last := list[..|list| - 1], list[|list| - 1];
      WindowedDistinct(front, filter, startUs, endUs);
      WindowedMembers(front, filter, startUs, endUs);
      var kept := Windowed(front, filter, startUs, endUs);
      forall i | 0 <= i < |kept| && kept[i].identity != "" && last.identity != "" ensures kept[i].path != last.path {
        assert kept[i] in front;
        var j :| 0 <= j < |front| && front[j] == kept[i];
        assert list[j] == kept[i] && list[|list| - 1] == last;
      }
    }
  }

  /** After a streaming reconcile with a full sweep, a listed part is in a load state if and only if it was let through: with the
      window filter, if it has an instant in the window. No part with one is ever swept away. */
  lemma SweepSparesTheWindow(t: Table, list: seq<Source>, filter: bool, startUs: int, endUs: int, at: Stamp, p: Source)
    requires DistinctPaths(list) && p in list && p.identity != ""
    requires p.values.minUs <= p.values.maxUs && startUs <= endUs
    ensures WellKeyed(Listed(Windowed(list, filter, startUs, endUs)))
    ensures var used := Windowed(list, filter, startUs, endUs);
            var done := SetReconcile(t, Listed(used), |used|, startUs, true, at).0;
            (KeyOf(p) in done && ActiveLoad(done[KeyOf(p)].status)) <==>
              !filter || exists us :: Holds(p.values.minUs, us, p.values.maxUs) && Holds(startUs, us, endUs)
  {
    var used := Windowed(list, filter, startUs, endUs);
    WindowMeans(p.values, startUs, endUs);
    WindowedMembers(list, filter, startUs, endUs);
    WindowedDistinct(list, filter, startUs, endUs);
    ListedMeans(used);
    ListedOrNot(list, used, p);
    hide Windowed;
    hide Listed;
    hide DistinctPaths;
    hide InWindow;
    SweptState(t, Listed(used), startUs, at, KeyOf(p));
    hide SetBased;
    hide Swept;
  }

  /** Of the parts that are let through each is listed, and no other one of its path and identity is. */
  lemma ListedOrNot(list: seq<Source>, used: seq<Source>, p: Source)
    requires DistinctPaths(list) && DistinctPaths(used) && p in list && p.identity != "" && forall q | q in used :: q in list
    ensures IsListed(Listed(used), KeyOf(p)) <==> p in used
  {
    ListedMeans(used);
    var i :| 0 <= i < |list| && list[i] == p;
    if p in used {
      var j :| 0 <= j < |used| && used[j] == p;
    }
    if IsListed(Listed(used), KeyOf(p)) {
      var q := Listed(used)[p.path];
      var j :| 0 <= j < |used| && used[j] == q;
      assert q in used && q in list;
      var m :| 0 <= m < |list| && list[m] == q;
    }
  }

  lemma SweptState(t: Table, src: map<string, Source>, startUs: int, at: Stamp, k: Key)
    requires WellKeyed(src)
    ensures var done := Swept(SetBased(t, src, at), ListedKeys(src), startUs, at);
            (k in done && ActiveLoad(done[k].status)) <==> IsListed(src, k)
  {
    SetBasedAt(t, src, at, k);
    var done := Swept(SetBased(t, src, at), ListedKeys(src), startUs, at);
    if k in done {
      SweepLeavesOnlyListed(t, src, startUs, at, k);
    }
    hide SetBased;
  }

  /** With the window filter off and each path listed once, the two reconciles are the same call: table, counters and
      reconcile state, whatever was there before. */
  lemma OutcomesAgree(t: Table, state: ReconcileState, list: seq<Source>, startUs: int, endUs: int, sourceParts: Option<int>,
                      sweep: bool, preserve: bool, nowUs: int)
    requires DistinctPaths(list)
    ensures WellKeyed(Listed(Windowed(list, false, startUs, endUs)))
    ensures SetOutcome(t, state, list, startUs, endUs, sourceParts, false, sweep, preserve, nowUs) ==
              LoopOutcome(t, state, list, startUs, endUs, sourceParts, sweep, preserve, nowUs)
  {
    hide LoopReconcile;
    hide SetReconcile;
    hide Listed;
    hide Windowed;
    hide WellKeyed;
    hide DistinctPaths;
    hide NextState;
    WindowedAll(list, startUs, endUs);
    ReconcilesAgree(t, list, startUs, sweep, Stamp(nowUs, state.generation + 1));
  }

  // ---- exactly when both forms agree ----

  /** How often a path is listed. */
  function Listings(parts: seq<Source>, path: string): nat {
    if parts == [] then 0
    else
      var last := parts[|parts| - 1];
      Listings(parts[..|parts| - 1], path) + if last.identity != "" && last.path == path then 1 else 0
  }

  predicate IsListing(parts: seq<Source>, i: nat, path: string) {
    i < |parts| && parts[i].identity != "" && parts[i].path == path
  }

  lemma {:induction false} ListingsCount(parts: seq<Source>, i: nat, j: nat, path: string)
    requires i < j && IsListing(parts, i, path) && IsListing(parts, j, path)
    ensures Listings(parts, path) >= 2
  {
    var n := |parts| - 1;
    if j == n {
      ListedOnce(parts[..n], i, path);
    } else {
      ListingsCount(parts[..n], i, j, path);
    }
  }

  lemma {:induction false} ListedOnce(parts: seq<Source>, i: nat, path: string)
    requires IsListing(parts, i, path)
    ensures Listings(parts, path) >= 1
  {
    if i < |parts| - 1 {
      ListedOnce(parts[..|parts| - 1], i, path);
    }
  }

  predicate Lists(parts: seq<Source>, k: Key) { exists p | p in parts && p.identity != "" :: KeyOf(p) == k }

  lemma ListsOneMore(parts: seq<Source>, k: Key)
    requires parts != []
    ensures var p := parts[|parts| - 1];
            Lists(parts, k) <==> Lists(parts[..|parts| - 1], k) || (p.identity != "" && KeyOf(p) == k)
  {
    assert parts == parts[..|parts| - 1] + [parts[|parts| - 1]];
  }

  /** The loop counts an unlisted row of a path once for every listing of the path. */
  lemma {:induction false} LoopCountsAgain(t: Table, parts: seq<Source>, at: Stamp, k: Key)
    requires k in t && t[k].status != Retired && !Lists(parts, k)
    ensures k in Loop(t, parts, at).table && Loop(t, parts, at).table[k].status != Retired
    ensures Loop(t, parts, at).replaced >= Listings(parts, k.path)
  {
    if parts != [] {
      var p := parts[|parts| - 1];
      ListsOneMore(parts, k);
      LoopCountsAgain(t, parts[..|parts| - 1], at, k);
      if p.identity != "" {
        var before := Loop(t, parts[..|parts| - 1], at).table;
        PartStepAt(before, p, at, k);
        hide PartStep;
        if p.path == k.path {
          assert k in OtherKeys(before, p);
        }
      }
    }
  }

  /** There is always an identity a source does not list. */
  lemma {:induction false} FreshIdentity(parts: seq<Source>) returns (identity: string)
    ensures forall p | p in parts :: |p.identity| < |identity|
  {
    if parts == [] {
      identity := "x";
    } else {
      var shorter := FreshIdentity(parts[1..]);
      identity := if |parts[0].identity| < |shorter| then shorter else parts[0].identity + "x";
      assert forall p :: p in parts <==> p == parts[0] || p in parts[1..];
    }
  }

  function ReadyAlone(k: Key, v: Values, updatedAtUs: int): Table {
    map[k := Row(v, Ready, 0, 0, 0, "", updatedAtUs, updatedAtUs, updatedAtUs, 0)]
  }

  /** A path listed twice has any ready row of another identity counted twice by the loop and once by the statements. */
  lemma RepeatedPathIsCountedTwice(parts: seq<Source>, i: nat, j: nat, path: string, startUs: int, sweep: bool, at: Stamp)
    returns (t: Table)
    requires i < j && IsListing(parts, i, path) && IsListing(parts, j, path)
    ensures WellKeyed(Listed(parts))
    ensures LoopReconcile(t, parts, startUs, sweep, at).1.replaced >= 2
    ensures SetReconcile(t, Listed(parts), |parts|, startUs, sweep, at).1.replaced == 1
  {
    hide Loop;
    hide SetBased;
    hide Upserts;
    hide Swept;
    var identity := FreshIdentity(parts);
    var k := Key(path, identity);
    t := ReadyAlone(k, parts[i].values, 0);
    ListedMeans(parts);
    ListingsCount(parts, i, j, path);
    LoopCountsAgain(t, parts, at, k);
    var src := Listed(parts);
    ReplacedBeforeOrAfter(t, src, at);
    assert ReplacedKeys(t, src) == {k};
  }

  /** Row loop and set-based statements agree on every table, counters included, if and only if no path is listed twice. */
  lemma ReconcilesAgreeExactly(parts: seq<Source>, startUs: int, sweep: bool, at: Stamp)
    ensures WellKeyed(Listed(parts))
    ensures (forall t: Table ::
               LoopReconcile(t, parts, startUs, sweep, at) == SetReconcile(t, Listed(parts), |parts|, startUs, sweep, at)) <==>
            DistinctPaths(parts)
  {
    ListedMeans(parts);
    hide Listed;
    hide LoopReconcile;
    hide SetReconcile;
    hide WellKeyed;
    if DistinctPaths(parts) {
      forall t: Table
        ensures LoopReconcile(t, parts, startUs, sweep, at) == SetReconcile(t, Listed(parts), |parts|, startUs, sweep, at)
      {
        ReconcilesAgree(t, parts, startUs, sweep, at);
      }
    } else {
      var i, j :| 0 <= i < j < |parts| && parts[i].identity != "" && parts[j].identity != "" && parts[i].path == parts[j].path;
      var t := RepeatedPathIsCountedTwice(parts, i, j, parts[i].path, startUs, sweep, at);
      assert LoopReconcile(t, parts, startUs, sweep, at) != SetReconcile(t, Listed(parts), |parts|, startUs, sweep, at);
    }
  }

  /** The loop keeps a row for every listed key, and has seen it. */
  lemma {:induction false} LoopKeys(t: Table, parts: seq<Source>, at: Stamp, k: Key)
    ensures k in Loop(t, parts, at).table <==> k in t || Lists(parts, k)
    ensures k in Loop(t, parts, at).seen <==> Lists(parts, k)
  {
    if parts != [] {
      ListsOneMore(parts, k);
      LoopKeys(t, parts[..|parts| - 1], at, k);
      PartStepAt(Loop(t, parts[..|parts| - 1], at).table, parts[|parts| - 1], at, k);
      hide PartStep;
    }
  }

  /** The two forms keep rows of the same keys exactly when each identity listed before the last one of its path is in the
      table already. */
  lemma KeysAgreeExactly(t: Table, parts: seq<Source>, at: Stamp)
    ensures WellKeyed(Listed(parts))
    ensures Loop(t, parts, at).table.Keys == SetBased(t, Listed(parts), at).Keys <==>
            forall k | Lists(parts, k) :: k in t || IsListed(Listed(parts), k)
  {
    ListedMeans(parts);
    hide Loop;
    hide SetBased;
    hide Lists;
    var loop, sets := Loop(t, parts, at).table, SetBased(t, Listed(parts), at);
    forall k: Key
      ensures k in loop <==> k in t || Lists(parts, k)
      ensures k in sets <==> k in t || IsListed(Listed(parts), k)
      ensures IsListed(Listed(parts), k) ==> Lists(parts, k)
    {
      LoopKeys(t, parts, at, k);
      SetBasedAt(t, Listed(parts), at, k);
      if IsListed(Listed(parts), k) {
        ListedIsLast(parts, k);
      }
    }
    if loop.Keys == sets.Keys {
      forall k | Lists(parts, k) ensures k in t || IsListed(Listed(parts), k) {
        assert k in loop.Keys;
      }
    }
  }

  lemma ListedIsLast(parts: seq<Source>, k: Key)
    requires IsListed(Listed(parts), k)
    ensures Lists(parts, k)
  {
    ListedMeans(parts);
    var p := Listed(parts)[k.path];
    assert p in parts;
  }

  /** The loop writes a row for every part whose values differ from those it started with, even if later ones restore them. */
  lemma {:induction false} LoopTouches(t: Table, parts: seq<Source>, at: Stamp, k: Key)
    requires k in t && forall p | p in parts && p.path == k.path && p.identity != "" :: KeyOf(p) == k
    ensures k in Loop(t, parts, at).table
    ensures var r := Loop(t, parts, at).table[k];
            && (r == t[k] || r.updatedAtUs == at.nowUs)
            && ((exists p | p in parts && p.identity != "" && KeyOf(p) == k :: p.values != t[k].values) ==> r.updatedAtUs == at.nowUs)
  {
    if parts != [] {
      var n := |parts| - 1;
      assert parts == parts[..n] + [parts[n]];
      LoopTouches(t, parts[..n], at, k);
      PartStepAt(Loop(t, parts[..n], at).table, parts[n], at, k);
      hide PartStep;
    }
  }

  lemma SweptSame(t: Table, listed: set<Key>, startUs: int, at: Stamp, k: Key)
    ensures k in Swept(t, listed, startUs, at) <==> k in t
    ensures k in t && k in listed ==> Swept(t, listed, startUs, at)[k] == t[k]
  {
  }

  /** Two identities of one path: the loop makes rows of both in an empty table. */
  lemma TwoIdentities(parts: seq<Source>, i: nat, j: nat, startUs: int, sweep: bool, at: Stamp)
    requires i < j < |parts| && IsListing(parts, i, parts[i].path) && IsListing(parts, j, parts[i].path)
    requires parts[i].identity != parts[j].identity
    ensures WellKeyed(Listed(parts))
    ensures LoopReconcile(map[], parts, startUs, sweep, at).0 != SetReconcile(map[], Listed(parts), |parts|, startUs, sweep, at).0
  {
    ListedMeans(parts);
    var src := Listed(parts);
    var k := KeyOf(if IsListed(src, KeyOf(parts[i])) then parts[j] else parts[i]);
    assert parts[i] in parts && parts[j] in parts;
    assert Lists(parts, k) && !IsListed(src, k);
    LoopKeys(map[], parts, at, k);
    SetBasedAt(map[], src, at, k);
    SweptSame(Loop(map[], parts, at).table, Loop(map[], parts, at).seen, startUs, at, k);
    SweptSame(SetBased(map[], src, at), ListedKeys(src), startUs, at, k);
    hide Swept;
    hide SetBased;
    hide Loop;
  }

  lemma ContentWritten(t: Table, parts: seq<Source>, p: Source, startUs: int, sweep: bool, at: Stamp)
    requires p in parts && p.identity != "" && KeyOf(p) in t && p.values != t[KeyOf(p)].values
    requires forall q | q in parts && q.path == p.path && q.identity != "" :: q.identity == p.identity
    ensures var done := LoopReconcile(t, parts, startUs, sweep, at).0;
            KeyOf(p) in done && done[KeyOf(p)].updatedAtUs == at.nowUs
  {
    hide Swept;
    hide Loop;
    var k, r := KeyOf(p), Loop(t, parts, at);
    assert Lists(parts, k);
    LoopTouches(t, parts, at, k);
    LoopKeys(t, parts, at, k);
    SweptSame(r.table, r.seen, startUs, at, k);
  }

  lemma ContentKept(t: Table, src: map<string, Source>, p: Source, eligible: nat, startUs: int, sweep: bool, at: Stamp)
    requires WellKeyed(src) && p.path in src && src[p.path] == p
    requires KeyOf(p) in t && !Writes(t[KeyOf(p)], p)
    ensures var done := SetReconcile(t, src, eligible, startUs, sweep, at).0;
            KeyOf(p) in done && done[KeyOf(p)] == t[KeyOf(p)]
  {
    hide Swept;
    hide SetBased;
    SetBasedAt(t, src, at, KeyOf(p));
    KeyIsListed(src, p);
    SweptSame(SetBased(t, src, at), ListedKeys(src), startUs, at, KeyOf(p));
  }

  /** One identity with two contents: the loop writes a row that already has the last content, the statements do not. */
  lemma TwoContents(parts: seq<Source>, p: Source, startUs: int, sweep: bool, at: Stamp) returns (t: Table)
    requires WellKeyed(Listed(parts)) && p in parts && p.identity != "" && p.path in Listed(parts)
    requires p.values != Listed(parts)[p.path].values
    requires forall q | q in parts && q.path == p.path && q.identity != "" :: q.identity == p.identity
    ensures LoopReconcile(t, parts, startUs, sweep, at).0 != SetReconcile(t, Listed(parts), |parts|, startUs, sweep, at).0
  {
    hide LoopReconcile;
    hide SetReconcile;
    ListedMeans(parts);
    hide Listed;
    var last := Listed(parts)[p.path];
    assert last in parts && KeyOf(last) == KeyOf(p);
    t := ReadyAlone(KeyOf(p), last.values, at.nowUs - 1);
    ContentWritten(t, parts, p, startUs, sweep, at);
    ContentKept(t, Listed(parts), last, |parts|, startUs, sweep, at);
  }

  /** Row loop and set-based statements leave the same table, whatever it held, if and only if a path is listed with one
      part only. */
  lemma TablesAgreeExactly(parts: seq<Source>, startUs: int, sweep: bool, at: Stamp)
    ensures WellKeyed(Listed(parts))
    ensures (forall t: Table ::
               LoopReconcile(t, parts, startUs, sweep, at).0 == SetReconcile(t, Listed(parts), |parts|, startUs, sweep, at).0) <==>
            OnePartPerPath(parts)
  {
    ListedMeans(parts);
    hide Listed;
    hide Loop;
    hide SetBased;
    hide Swept;
    if OnePartPerPath(parts) {
      forall t: Table
        ensures LoopReconcile(t, parts, startUs, sweep, at).0 == SetReconcile(t, Listed(parts), |parts|, startUs, sweep, at).0
      {
        TablesAgree(t, parts, at);
      }
    } else {
      var i, j :| 0 <= i < j < |parts| && parts[i].identity != "" && parts[j].identity != "" && parts[i].path == parts[j].path
                  && parts[i] != parts[j];
      hide LoopReconcile;
      hide SetReconcile;
      var t := TwoPartsOfOnePath(parts, i, j, startUs, sweep, at);
      assert LoopReconcile(t, parts, startUs, sweep, at).0 != SetReconcile(t, Listed(parts), |parts|, startUs, sweep, at).0;
    }
  }

  lemma TwoPartsOfOnePath(parts: seq<Source>, i: nat, j: nat, startUs: int, sweep: bool, at: Stamp) returns (t: Table)
    requires i < j < |parts| && IsListing(parts, i, parts[i].path) && IsListing(parts, j, parts[i].path) && parts[i] != parts[j]
    ensures WellKeyed(Listed(parts))
    ensures LoopReconcile(t, parts, startUs, sweep, at).0 != SetReconcile(t, Listed(parts), |parts|, startUs, sweep, at).0
  {
    ListedMeans(parts);
    hide LoopReconcile;
    hide SetReconcile;
    if m :| 0 <= m < |parts| && IsListing(parts, m, parts[i].path) && parts[m].identity != parts[i].identity {
      t := map[];
      if i < m {
        TwoIdentities(parts, i, m, startUs, sweep, at);
      } else {
        TwoIdentities(parts, m, i, startUs, sweep, at);
      }
    } else {
      forall p | p in parts && p.path == parts[i].path && p.identity != "" ensures p.identity == parts[i].identity {
        var m :| 0 <= m < |parts| && parts[m] == p;
        assert IsListing(parts, m, parts[i].path);
      }
      var last := Listed(parts)[parts[i].path];
      t := TwoContents(parts, if parts[i].values != last.values then parts[i] else parts[j], startUs, sweep, at);
    }
  }

  // ---- what a reconcile does to one row ----

  /** A load that starts from nothing: due at once, with the part's values; its first failure costs five seconds. */
  ghost predicate StartsAfresh(r: Row, v: Values, at: Stamp) {
    && r.status == Pending && r.values == v && (forall nowUs: int | nowUs >= 0 :: Claimable(r, nowUs))
    && FailedRow(r, "", 0).nextRetryUs == 5_000_000
    && r.insertedRows == 0 && r.lastError == "" && r.readyAtUs == 0
    && r.updatedAtUs == at.nowUs && r.seenGeneration == at.generation
  }

  /** A listed part: a new row, or a row on its way out, starts afresh (keeping when it was first seen); any other keeps its place in
      the queue, its attempts and its error, and takes over values that differ. */
  lemma ListedRow(t: Table, src: map<string, Source>, at: Stamp, k: Key)
    requires WellKeyed(src) && IsListed(src, k)
    ensures k in SetBased(t, src, at)
    ensures var r, v := SetBased(t, src, at)[k], src[k.path].values;
            if k !in t then StartsAfresh(r, v, at) && r.firstSeenUs == at.nowUs
            else if t[k].status in {DeletePending, Deleting, DeleteFailed, Retired} then
              StartsAfresh(r, v, at) && r.firstSeenUs == t[k].firstSeenUs
            else if t[k].values == v then r == t[k]
            else r == t[k].(values := v, updatedAtUs := at.nowUs, seenGeneration := at.generation)
  {
    SetBasedAt(t, src, at, k);
    hide SetBased;
    assert PowerOfTwo(0) == 1;
  }

  /** A row to be deleted: due at once, but one that is being deleted is left to it; nothing else about it changes, but that it is no
      longer said to have failed, if `clear`. */
  ghost predicate TurnsToDeletion(now: Row, r: Row, clear: bool, nowUs: int) {
    if r.status == Deleting then now == r.(updatedAtUs := nowUs)
    else
      && now == r.(status := DeletePending, nextRetryUs := now.nextRetryUs, lastError := if clear then "" else r.lastError, updatedAtUs := nowUs)
      && forall laterUs: int | laterUs >= 0 :: Claimable(now, laterUs)
  }

  /** A row of another identity of a listed path. */
  lemma OtherRow(t: Table, src: map<string, Source>, at: Stamp, k: Key)
    requires WellKeyed(src) && k in t && !IsListed(src, k)
    ensures k in SetBased(t, src, at)
    ensures if k.path in src && t[k].status != Retired then TurnsToDeletion(SetBased(t, src, at)[k], t[k], true, at.nowUs)
            else SetBased(t, src, at)[k] == t[k]
  {
    SetBasedAt(t, src, at, k);
    hide SetBased;
  }

  /** What the full sweep does to a row: nothing to a listed or a retired one; one that reaches into the window is to be deleted, an
      older one is retired where it stands. */
  lemma SweptRowMeans(t: Table, listed: set<Key>, startUs: int, at: Stamp, k: Key)
    requires k in t
    ensures k in Swept(t, listed, startUs, at)
    ensures var now := Swept(t, listed, startUs, at)[k];
            if k in listed || t[k].status == Retired then now == t[k]
            else if startUs <= t[k].values.maxUs then TurnsToDeletion(now, t[k], false, at.nowUs)
            else now == t[k].(status := Retired, nextRetryUs := 0, lastError := "", updatedAtUs := at.nowUs)
  {
  }

  /** A part that is gone or hidden: every row of its path that is not retired is to be deleted. */
  lemma MissingRow(t: Table, paths: set<string>, at: Stamp, k: Key)
    requires k in t
    ensures k in MissingQueued(t, paths, at)
    ensures if k.path in paths && k.path != "" && t[k].status != Retired
            then TurnsToDeletion(MissingQueued(t, paths, at)[k], t[k], true, at.nowUs)
            else MissingQueued(t, paths, at)[k] == t[k]
  {
  }

  /** A finished load has the rows it was marked ready with, none if that is negative, and its row says when; a finished deletion has
      none; neither is waiting for anything, and nothing else about the row changes. */
  lemma FinishedRowMeans(r: Row, rows: int, nowUs: int)
    ensures var now := ReadyRow(r, rows, nowUs);
            && now.status == Ready && (rows >= 0 ==> now.insertedRows == rows) && (rows < 0 ==> now.insertedRows == 0)
            && now.readyAtUs == nowUs == now.updatedAtUs && now.lastError == "" && now.nextRetryUs == 0
            && now.values == r.values && now.attempts == r.attempts && now.firstSeenUs == r.firstSeenUs
            && now.seenGeneration == r.seenGeneration
    ensures var now := RetiredRow(r, nowUs);
            && now.status == Retired && now.insertedRows == 0
            && now.readyAtUs == r.readyAtUs && now.updatedAtUs == nowUs && now.lastError == "" && now.nextRetryUs == 0
            && now.values == r.values && now.attempts == r.attempts && now.firstSeenUs == r.firstSeenUs
            && now.seenGeneration == r.seenGeneration
  {
  }

  /** A message is kept whole up to 2000 characters, and its beginning beyond. */
  lemma CutMeans(text: string)
    ensures Cut(text) <= text && |Cut(text)| == if |text| <= 2000 then |text| else 2000
  {
  }

  /** What a reconcile records of itself: always its generation, and that it did not fail; the rest unless it is told to keep it. */
  lemma RecordedState(state: ReconcileState, startUs: int, endUs: int, sourceParts: int, eligible: int, preserve: bool, at: Stamp)
    ensures var now := NextState(state, startUs, endUs, sourceParts, eligible, preserve, at);
            && now.generation == at.generation && now.lastError == ""
            && (preserve ==> now.startUs == state.startUs && now.endUs == state.endUs && now.sourceParts == state.sourceParts
                             && now.eligibleParts == state.eligibleParts && now.completedAtUs == state.completedAtUs)
            && (!preserve ==> now.startUs == startUs && now.endUs == endUs && now.sourceParts == sourceParts
                              && now.eligibleParts == eligible && now.completedAtUs == at.nowUs)
  {
  }

  // ---- what a reconcile achieves ----

  /** After a reconcile every listed part is in a load state and every other identity of its path is on its way out. */
  lemma ReconcileHandsOver(t: Table, src: map<string, Source>, at: Stamp, k: Key)
    requires WellKeyed(src) && k.path in src && (k in t || IsListed(src, k))
    ensures k in SetBased(t, src, at)
    ensures var s := SetBased(t, src, at)[k].status;
            if IsListed(src, k) then ActiveLoad(s) else ActiveDelete(s) || s == Retired
  {
    SetBasedAt(t, src, at, k);
  }

  /** After a full sweep nothing but the listed parts is left in a load state. */
  lemma SweepLeavesOnlyListed(t: Table, src: map<string, Source>, startUs: int, at: Stamp, k: Key)
    requires WellKeyed(src) && k in Swept(SetBased(t, src, at), ListedKeys(src), startUs, at)
    ensures ActiveLoad(Swept(SetBased(t, src, at), ListedKeys(src), startUs, at)[k].status) <==> IsListed(src, k)
  {
    hide Swept;
    hide SetBased;
    hide Upserted;
    ListedKeysMeans(src, k);
    SetBasedAt(t, src, at, k);
    SweptAt(SetBased(t, src, at), ListedKeys(src), startUs, at, k);
    assert IsListed(src, k) ==> ActiveLoad(SetBased(t, src, at)[k].status) by {
      if IsListed(src, k) {
        ReconcileHandsOver(t, src, at, k);
      }
    }
  }

  lemma SweptAt(t: Table, listed: set<Key>, startUs: int, at: Stamp, k: Key)
    ensures k in Swept(t, listed, startUs, at) <==> k in t
    ensures k in t ==>
              Swept(t, listed, startUs, at)[k] == (
                if !IsSwept(t, listed, k) then t[k]
                else if t[k].values.maxUs >= startUs then SweptRow(t[k], at) else AgedRow(t[k], at))
  {
  }

  lemma ListedKeysMeans(src: map<string, Source>, k: Key)
    requires WellKeyed(src)
    ensures k in ListedKeys(src) <==> IsListed(src, k)
  {
    if k in ListedKeys(src) {
      var p :| p in src && KeyOf(src[p]) == k;
      assert p == k.path;
    }
  }

  /** A reconcile never touches a ready row whose part it lists again unchanged, and never un-readies one whose
      digest or revision changed under the same identity. */
  lemma ReadyStaysReady(t: Table, src: map<string, Source>, at: Stamp, k: Key)
    requires WellKeyed(src) && k in t && t[k].status == Ready && IsListed(src, k)
    ensures var r := SetBased(t, src, at)[k];
            && r.status == Ready && r.insertedRows == t[k].insertedRows && r.values == src[k.path].values
            && (t[k].values == src[k.path].values ==> r == t[k])
  {
    SetBasedAt(t, src, at, k);
  }
}
