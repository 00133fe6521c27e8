/** The row-store commit protocol of app/binlog_rows_worker.py with `RowsIngestor` and `purge_file_rows` of
    app/binlog_rows.py: several lanes, a background recovery, and a process that can be killed between any two
    steps. The row store, the aggregates, the manifest, the marker files and the deletions the server is still at survive;
    lanes, claims and the cached list of ingested files do not. */
module RowStore {
  import opened Select

  type FileId = string

  /** One parsed row: `kept` is ROW_STORE_FILTER, (`day`, `bucket`) the partition it lands in. */
  datatype Row = Row(file: FileId, day: string, bucket: nat, kept: bool, body: int)

  /** What the parser makes of each file; loading a file again yields the same rows. */
  type Content = FileId -> seq<Row>

  ghost predicate ValidContent(c: Content) {
    forall f: FileId, r: Row | r in c(f) :: r.file == f
  }

  type Pairs = set<(string, nat)>

  datatype Kind = Agg | AggTxn | AggTxnAll

  const KINDS: seq<Kind> := [Agg, AggTxn, AggTxnAll]

  datatype Token = Token(kind: Kind, file: FileId)

  datatype Lane =
    | Idle
    | Selecting(files: seq<FileId>, candidate: Option<FileId>)
    | Loading(files: seq<FileId>)
    | OldMarkers(files: seq<FileId>, done: nat, purged: bool)
    | NewMarkers(files: seq<FileId>, done: nat)
    | Moving(files: seq<FileId>, bound: nat)
    | MoveFailed(files: seq<FileId>, bucket: nat)
    | Unmarking(files: seq<FileId>, done: nat)
    | Finishing(files: seq<FileId>, done: nat, kinds: nat, recorded: bool)

  /** What outlives the process. `pending` are the files with a deletion that timed out and goes on at the server. */
  datatype Disk = Disk(
    store: seq<Row>,
    aggregates: map<Token, seq<Row>>,
    recorded: set<FileId>,
    markers: map<FileId, Pairs>,
    pending: set<FileId>)

  /** `cached` is the list of ingested files as it was last read. */
  datatype World = World(
    disk: Disk,
    cached: Option<set<FileId>>,
    claims: set<FileId>,
    done: set<FileId>,
    recovering: map<FileId, bool>,
    lanes: seq<Lane>)

  // ---- rows ----

  function Of(s: seq<Row>, f: FileId): seq<Row> { Keep(s, (r: Row) => r.file == f) }

  /** The rows of a file the row store is to hold. */
  function Stored(c: Content, f: FileId): seq<Row> { Keep(c(f), (r: Row) => r.kept) }

  function Buffer(c: Content, files: seq<FileId>): seq<Row> {
    if files == [] then [] else c(files[0]) + Buffer(c, files[1..])
  }

  /** `RowsIngestor.partitions` */
  function Partitions(c: Content, files: seq<FileId>): Pairs {
    set r | r in Buffer(c, files) && r.kept :: (r.day, r.bucket)
  }

  function BucketRows(c: Content, files: seq<FileId>, bucket: nat): seq<Row> {
    Keep(Buffer(c, files), (r: Row) => r.kept && r.bucket == bucket)
  }

  function Days(pairs: Pairs): set<string> { set p | p in pairs :: p.0 }

  function Buckets(pairs: Pairs): set<nat> { set p | p in pairs :: p.1 }

  /** `partition_filter`: the dates times the buckets of the pairs. */
  predicate InFilter(pairs: Pairs, r: Row) { r.day in Days(pairs) && r.bucket in Buckets(pairs) }

  /** `purge_file_rows` with the partitions of a marker or of the buckets a move attempted. */
  function Purge(s: seq<Row>, files: set<FileId>, pairs: Pairs): seq<Row> {
    Keep(s, (r: Row) => !(r.file in files && InFilter(pairs, r)))
  }

  /** The pairs of the buckets up to the one whose INSERT failed. */
  function Attempted(pairs: Pairs, bucket: nat): Pairs { set p | p in pairs && p.1 <= bucket }

  function SetOf(files: seq<FileId>): set<FileId> { set f | f in files }

  // ---- claims ----

  function Held(l: Lane): set<FileId> {
    match l
    case Idle => {}
    case Selecting(files, candidate) => SetOf(files) + (if candidate.Some? then {candidate.value} else {})
    case Loading(files) => SetOf(files)
    case OldMarkers(files, _, _) => SetOf(files)
    case NewMarkers(files, _) => SetOf(files)
    case Moving(files, _) => SetOf(files)
    case MoveFailed(files, _) => SetOf(files)
    case Unmarking(files, _) => SetOf(files)
    case Finishing(files, _, _, _) => SetOf(files)
  }

  function WithLane(w: World, l: nat, lane: Lane): World
    requires l < |w.lanes|
  {
    w.(lanes := w.lanes[l := lane])
  }

  /** The lane gives up: `claims.release` for every file it holds. */
  function Release(w: World, l: nat): World
    requires l < |w.lanes|
  {
    WithLane(w.(claims := w.claims - Held(w.lanes[l])), l, Idle)
  }

  // ---- steps ----

  /** `rows` are what a failed statement left in the store, anything the caller of the step says. */
  datatype Event =
    | Take(l: nat, file: FileId)
    | Refresh
    | Check(l: nat)
    | StartLoad(l: nat)
    | FinishLoad(l: nat)
    | PurgeOld(l: nat)
    | PurgeOldTimesOut(l: nat)
    | SkipOld(l: nat)
    | WriteMarker(l: nat)
    | StartMove(l: nat)
    | MoveBucket(l: nat, bucket: nat)
    | FailBucket(l: nat, bucket: nat, landed: seq<Row>)
    | PurgeFailedMove(l: nat)
    | PurgeMoveTimesOut(l: nat)
    | DropMarker(l: nat)
    | EndMove(l: nat)
    | Aggregate(l: nat)
    | Record(l: nat)
    | Unlink(l: nat)
    | Finish(l: nat)
    | GiveUp(l: nat)
    | RecoverCommitted(file: FileId)
    | RecoverPurge(file: FileId)
    | RecoverTimesOut(file: FileId)
    | RecoverUnlink(file: FileId)
    | RecoverGiveUp(file: FileId)
    | Erode(file: FileId, left: seq<Row>)
    | Settle(file: FileId)
    | Crash

  /** The smallest bucket of the batch at or above `bound`, as `sorted({b for _day, b in partitions})` walks them. */
  predicate NextBucket(pairs: Pairs, bound: nat, bucket: nat) {
    && bucket in Buckets(pairs) && bound <= bucket
    && forall b | b in Buckets(pairs) && bound <= b :: bucket <= b
  }

  /** A lane that may be stopped by an error where it stands, keeping whatever it has written. */
  predicate CanGiveUp(l: Lane) {
    l.Loading? || l.OldMarkers? || l.NewMarkers? || l.Moving? || l.MoveFailed? || l.Unmarking? || l.Finishing?
  }

  predicate IsSelect(e: Event) { e.Take? || e.Refresh? || e.Check? || e.StartLoad? || e.FinishLoad? }

  predicate IsMark(e: Event) { e.PurgeOld? || e.PurgeOldTimesOut? || e.SkipOld? || e.WriteMarker? || e.StartMove? }

  predicate IsMove(e: Event) { e.MoveBucket? || e.FailBucket? || e.PurgeFailedMove? || e.PurgeMoveTimesOut? || e.DropMarker? || e.EndMove? }

  predicate IsFinish(e: Event) { e.Aggregate? || e.Record? || e.Unlink? || e.Finish? || e.GiveUp? }

  /** Steps: choosing and loading a batch. */
  ghost predicate SelectStep(c: Content, w: World, e: Event, u: World)
    requires IsSelect(e)
  {
    match e
    case Take(l, f) =>
      && l < |w.lanes| && f !in w.claims && f !in w.done
      && (w.lanes[l].Idle? || (w.lanes[l].Selecting? && w.lanes[l].candidate.None?))
      && u == WithLane(w.(claims := w.claims + {f}), l,
                       Selecting(if w.lanes[l].Idle? then [] else w.lanes[l].files, Some(f)))
    case Refresh =>
      u == w.(cached := Some(w.disk.recorded))
    case Check(l) =>
      && l < |w.lanes| && w.lanes[l].Selecting? && w.lanes[l].candidate.Some? && w.cached.Some?
      && var files, f := w.lanes[l].files, w.lanes[l].candidate.value;
         u == if f in w.cached.value
              then WithLane(w.(claims := w.claims - {f}, done := w.done + {f}), l, Selecting(files, None))
              else WithLane(w, l, Selecting(files + [f], None))
    case StartLoad(l) =>
      && l < |w.lanes| && w.lanes[l].Selecting? && w.lanes[l].candidate.None?
      && u == WithLane(w, l, if w.lanes[l].files == [] then Idle else Loading(w.lanes[l].files))
    case FinishLoad(l) =>
      && l < |w.lanes| && w.lanes[l].Loading?
      && u == WithLane(w, l, OldMarkers(w.lanes[l].files, 0, false))
  }

  /** Steps: the markers of a batch. */
  ghost predicate MarkStep(c: Content, w: World, e: Event, u: World)
    requires IsMark(e)
  {
    match e
    case PurgeOld(l) =>
      && l < |w.lanes| && w.lanes[l].OldMarkers? && w.lanes[l].done < |w.lanes[l].files|
      && var f := w.lanes[l].files[w.lanes[l].done];
         && f in w.disk.markers && !w.lanes[l].purged && (f in w.disk.recorded || f !in w.disk.pending)
         && u == WithLane(if f in w.disk.recorded then w else w.(disk := w.disk.(store := Purge(w.disk.store, {f}, w.disk.markers[f]))), l,
                          w.lanes[l].(purged := true))
    case PurgeOldTimesOut(l) =>
      && l < |w.lanes| && w.lanes[l].OldMarkers? && w.lanes[l].done < |w.lanes[l].files|
      && var f := w.lanes[l].files[w.lanes[l].done];
         && f in w.disk.markers && !w.lanes[l].purged && f !in w.disk.recorded
         && u == w.(disk := w.disk.(pending := w.disk.pending + {f}))
    case SkipOld(l) =>
      && l < |w.lanes| && w.lanes[l].OldMarkers? && w.lanes[l].done < |w.lanes[l].files|
      && var f := w.lanes[l].files[w.lanes[l].done];
         && (f in w.disk.markers ==> w.lanes[l].purged)
         && u == WithLane(w.(disk := w.disk.(markers := w.disk.markers - {f})), l, w.lanes[l].(done := w.lanes[l].done + 1, purged := false))
    case WriteMarker(l) =>
      && l < |w.lanes|
      && ((w.lanes[l].OldMarkers? && w.lanes[l].done == |w.lanes[l].files|
           && u == WithLane(w, l, NewMarkers(w.lanes[l].files, 0)))
          || (w.lanes[l].NewMarkers? && w.lanes[l].done < |w.lanes[l].files|
              && var files, i := w.lanes[l].files, w.lanes[l].done;
                 u == WithLane(w.(disk := w.disk.(markers := w.disk.markers[files[i] := Partitions(c, files)])), l, NewMarkers(files, i + 1))))
    case StartMove(l) =>
      && l < |w.lanes| && w.lanes[l].NewMarkers? && w.lanes[l].done == |w.lanes[l].files|
      && u == WithLane(w, l, Moving(w.lanes[l].files, 0))
  }

  /** Steps: moving it, and cleaning up a move that failed. */
  ghost predicate MoveStep(c: Content, w: World, e: Event, u: World)
    requires IsMove(e)
  {
    match e
    case MoveBucket(l, b) =>
      && l < |w.lanes| && w.lanes[l].Moving?
      && var files := w.lanes[l].files;
         && NextBucket(Partitions(c, files), w.lanes[l].bound, b)
         && u == WithLane(w.(disk := w.disk.(store := w.disk.store + BucketRows(c, files, b))), l, Moving(files, b + 1))
    case FailBucket(l, b, landed) =>
      && l < |w.lanes| && w.lanes[l].Moving?
      && var files := w.lanes[l].files;
         && NextBucket(Partitions(c, files), w.lanes[l].bound, b)
         && (forall r | r in landed :: r in BucketRows(c, files, b))
         && u == WithLane(w.(disk := w.disk.(store := w.disk.store + landed)), l, MoveFailed(files, b))
    case PurgeFailedMove(l) =>
      && l < |w.lanes| && w.lanes[l].MoveFailed?
      && var files := w.lanes[l].files;
         && w.disk.pending !! SetOf(files)
         && u == WithLane(w.(disk := w.disk.(store := Purge(w.disk.store, SetOf(files), Attempted(Partitions(c, files), w.lanes[l].bucket)))), l,
                          Unmarking(files, 0))
    case PurgeMoveTimesOut(l) =>
      && l < |w.lanes| && w.lanes[l].MoveFailed?
      && u == w.(disk := w.disk.(pending := w.disk.pending + SetOf(w.lanes[l].files)))
    case DropMarker(l) =>
      && l < |w.lanes| && w.lanes[l].Unmarking? && w.lanes[l].done < |w.lanes[l].files|
      && var files, i := w.lanes[l].files, w.lanes[l].done;
         u == WithLane(w.(disk := w.disk.(markers := w.disk.markers - {files[i]})), l, Unmarking(files, i + 1))
    case EndMove(l) =>
      && l < |w.lanes| && w.lanes[l].Moving?
      && (forall b | b in Buckets(Partitions(c, w.lanes[l].files)) :: b < w.lanes[l].bound)
      && u == WithLane(w, l, Finishing(w.lanes[l].files, 0, 0, false))
  }

  /** Steps: aggregates, record and marker of each file. */
  ghost predicate FinishStep(c: Content, w: World, e: Event, u: World)
    requires IsFinish(e)
  {
    match e
    case Aggregate(l) =>
      && l < |w.lanes| && w.lanes[l].Finishing?
      && w.lanes[l].done < |w.lanes[l].files| && w.lanes[l].kinds < |KINDS|
      && var files, i, k := w.lanes[l].files, w.lanes[l].done, w.lanes[l].kinds;
         u == WithLane(w.(disk := w.disk.(aggregates := Counted(w.disk.aggregates, Token(KINDS[k], files[i]), Aggregated(c, files, i)))), l,
                       w.lanes[l].(kinds := k + 1))
    case Record(l) =>
      && l < |w.lanes| && w.lanes[l].Finishing?
      && w.lanes[l].done < |w.lanes[l].files| && w.lanes[l].kinds == |KINDS| && !w.lanes[l].recorded
      && u == WithLane(w.(disk := w.disk.(recorded := w.disk.recorded + {w.lanes[l].files[w.lanes[l].done]})), l, w.lanes[l].(recorded := true))
    case Unlink(l) =>
      && l < |w.lanes| && w.lanes[l].Finishing? && w.lanes[l].done < |w.lanes[l].files| && w.lanes[l].recorded
      && var files, i := w.lanes[l].files, w.lanes[l].done;
         u == WithLane(w.(disk := w.disk.(markers := w.disk.markers - {files[i]})), l, Finishing(files, i + 1, 0, false))
    case Finish(l) =>
      && l < |w.lanes| && w.lanes[l].Finishing? && w.lanes[l].done == |w.lanes[l].files|
      && u == Release(w, l).(done := w.done + Held(w.lanes[l]),
                             cached := if w.cached.Some? then Some(w.cached.value + Held(w.lanes[l])) else None)
    case GiveUp(l) =>
      l < |w.lanes| && CanGiveUp(w.lanes[l]) && u == Release(w, l)
  }

  /** Steps: recovery, the server, and a restart. */
  ghost predicate OtherStep(c: Content, w: World, e: Event, u: World)
    requires !IsSelect(e) && !IsMark(e) && !IsMove(e) && !IsFinish(e)
  {
    match e
    case RecoverCommitted(f) =>
      && f in w.recovering && f in w.disk.markers && f in w.disk.recorded
      && u == w.(disk := w.disk.(markers := w.disk.markers - {f}), recovering := w.recovering - {f}, claims := w.claims - {f})
    case RecoverPurge(f) =>
      && f in w.recovering && f in w.disk.markers && f !in w.disk.recorded && f !in w.disk.pending
      && u == w.(disk := w.disk.(store := Purge(w.disk.store, {f}, w.disk.markers[f])), recovering := w.recovering[f := true])
    case RecoverTimesOut(f) =>
      && f in w.recovering && f in w.disk.markers && f !in w.disk.recorded && !w.recovering[f]
      && u == w.(disk := w.disk.(pending := w.disk.pending + {f}))
    case RecoverUnlink(f) =>
      && f in w.recovering && w.recovering[f]
      && u == w.(disk := w.disk.(markers := w.disk.markers - {f}), recovering := w.recovering - {f}, claims := w.claims - {f})
    case RecoverGiveUp(f) =>
      && f in w.recovering
      && u == w.(recovering := w.recovering - {f}, claims := w.claims - {f})
    case Erode(f, left) =>
      && f in w.disk.pending
      && (forall r | r in Of(left, f) :: r in Of(w.disk.store, f))
      && (forall g | g != f :: Of(left, g) == Of(w.disk.store, g))
      && u == w.(disk := w.disk.(store := left))
    case Settle(f) =>
      u == w.(disk := w.disk.(pending := w.disk.pending - {f}))
    case Crash =>
      u == w.(cached := None, claims := w.disk.markers.Keys, done := {}, recovering := map f | f in w.disk.markers :: false,
              lanes := seq(|w.lanes|, _ => Idle))
  }

  ghost predicate Next(c: Content, w: World, e: Event, u: World) {
    if IsSelect(e) then SelectStep(c, w, e, u)
    else if IsMark(e) then MarkStep(c, w, e, u)
    else if IsMove(e) then MoveStep(c, w, e, u)
    else if IsFinish(e) then FinishStep(c, w, e, u)
    else OtherStep(c, w, e, u)
  }

  /** One aggregate INSERT: the deduplication token drops a repeated one. */
  function Counted(a: map<Token, seq<Row>>, t: Token, rows: seq<Row>): map<Token, seq<Row>> {
    if t in a then a else a[t := rows]
  }

  /** The rows an aggregate of file `i` reads: only that file's when the buffer holds a batch. */
  function Aggregated(c: Content, files: seq<FileId>, i: nat): seq<Row>
    requires i < |files|
  {
    var buffer := Buffer(c, files);
    if |files| > 1 then Keep(buffer, (r: Row) => r.kept && r.file == files[i]) else Keep(buffer, (r: Row) => r.kept)
  }

  /** The list served to a check is not older than the record of its candidate. */
  predicate FreshCheck(w: World, e: Event) {
    (e.Check? && e.l < |w.lanes| && w.lanes[e.l].Selecting? && w.lanes[e.l].candidate.Some? && w.cached.Some?
     && w.lanes[e.l].candidate.value in w.disk.recorded) ==>
      w.lanes[e.l].candidate.value in w.cached.value
  }

  // ---- what holds in every reachable world ----

  predicate OnceInStore(c: Content, store: seq<Row>, f: FileId) {
    multiset(Of(store, f)) == multiset(Stored(c, f))
  }

  predicate CountedOnce(c: Content, aggregates: map<Token, seq<Row>>, f: FileId) {
    forall k: Kind :: Token(k, f) in aggregates && multiset(aggregates[Token(k, f)]) == multiset(Stored(c, f))
  }

  /** The promise per file. */
  predicate FileOk(c: Content, d: Disk, f: FileId) {
    && (f in d.recorded ==> OnceInStore(c, d.store, f) && CountedOnce(c, d.aggregates, f))
    && (f !in d.recorded && f !in d.markers ==> Of(d.store, f) == [])
    && (f !in d.recorded && f in d.markers ==> forall r | r in Of(d.store, f) :: InFilter(d.markers[f], r))
    && (f in d.pending ==> f in d.markers && f !in d.recorded)
  }

  predicate Distinct(files: seq<FileId>) {
    forall i, j | 0 <= i < j < |files| :: files[i] != files[j]
  }

  predicate Fresh(recorded: set<FileId>, files: seq<FileId>) {
    Distinct(files) && forall f | f in files :: f !in recorded
  }

  predicate Marked(c: Content, markers: map<FileId, Pairs>, files: seq<FileId>, from: nat) {
    forall i | from <= i < |files| :: files[i] in markers && markers[files[i]] == Partitions(c, files)
  }

  /** The file has exactly its rows of the buckets below `bound` in the store. */
  predicate MovedBelow(c: Content, store: seq<Row>, f: FileId, bound: nat) {
    multiset(Of(store, f)) == multiset(Keep(Stored(c, f), (r: Row) => r.bucket < bound))
  }

  predicate LaneOk(c: Content, d: Disk, l: Lane) {
    match l
    case Idle => true
    case Selecting(files, candidate) =>
      Fresh(d.recorded, files) && (candidate.Some? ==> candidate.value !in files)
    case Loading(files) => Fresh(d.recorded, files)
    case OldMarkers(files, i, purged) =>
      && Fresh(d.recorded, files) && i <= |files|
      && (forall j | 0 <= j < i :: files[j] !in d.markers)
      && (purged ==> i < |files| && Of(d.store, files[i]) == [] && files[i] !in d.pending)
    case NewMarkers(files, i) =>
      && Fresh(d.recorded, files) && i <= |files|
      && (forall f | f in files :: Of(d.store, f) == [] && f !in d.pending)
      && (forall j | 0 <= j < i :: files[j] in d.markers && d.markers[files[j]] == Partitions(c, files))
    case Moving(files, bound) =>
      && Fresh(d.recorded, files) && Marked(c, d.markers, files, 0)
      && forall f | f in files :: MovedBelow(c, d.store, f, bound) && f !in d.pending
    case MoveFailed(files, b) =>
      && Fresh(d.recorded, files) && Marked(c, d.markers, files, 0)
      && forall f, r | f in files && r in Of(d.store, f) :: r.bucket <= b && (r.day, r.bucket) in Partitions(c, files)
    case Unmarking(files, i) =>
      Fresh(d.recorded, files) && i <= |files| && forall f | f in files :: Of(d.store, f) == [] && f !in d.pending
    case Finishing(files, i, k, recorded) =>
      && Distinct(files) && i <= |files| && k <= |KINDS| && (recorded ==> i < |files| && k == |KINDS|)
      && Marked(c, d.markers, files, i)
      && (forall j | i <= j < |files| :: OnceInStore(c, d.store, files[j]) && files[j] !in d.pending)
      && (forall j | 0 <= j < |files| :: files[j] in d.recorded <==> j < i || (recorded && j == i))
      && (i < |files| ==> forall m | 0 <= m < k :: Token(KINDS[m], files[i]) in d.aggregates)
  }

  predicate AggregatesOk(c: Content, aggregates: map<Token, seq<Row>>) {
    forall t | t in aggregates :: multiset(aggregates[t]) == multiset(Stored(c, t.file))
  }

  /** Every file in work belongs to one lane or to recovery, and is claimed. */
  predicate Ownership(w: World) {
    && (forall i | 0 <= i < |w.lanes| :: Held(w.lanes[i]) <= w.claims && Held(w.lanes[i]) !! w.recovering.Keys)
    && (forall i, j | 0 <= i < j < |w.lanes| :: Held(w.lanes[i]) !! Held(w.lanes[j]))
    && w.recovering.Keys <= w.claims
  }

  predicate RecoveryOk(w: World) {
    forall f | f in w.recovering && w.recovering[f] :: f !in w.disk.recorded && Of(w.disk.store, f) == [] && f !in w.disk.pending
  }

  ghost predicate Inv(c: Content, w: World) {
    match w
    case World(disk, cached, _, _, _, lanes) =>
      && (forall f: FileId :: FileOk(c, disk, f))
      && (forall i | 0 <= i < |lanes| :: LaneOk(c, disk, lanes[i]))
      && AggregatesOk(c, disk.aggregates) && Ownership(w) && RecoveryOk(w)
      && (cached.Some? ==> cached.value <= disk.recorded)
  }
}
