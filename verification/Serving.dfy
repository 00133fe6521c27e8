/** From the source metadata to a served part: the change queue (app/clickhouse_change_queue.py, the triggers of
    app/metadata.py:703-835), the periodic reconcile and the ingestion of one part (app/clickhouse_ingest.py:309-387,
    492-659), as steps of one worker beside a source that changes at any moment. */
module Serving {
  import opened Select
  import opened PartStatus
  import opened Manifest

  /** A part as the metadata store describes it; `archived` means that its object key is set. */
  datatype SourcePart = SourcePart(identity: string, values: Values, visible: bool, archived: bool)

  type Sources = map<string, SourcePart>

  function Get(source: Sources, path: string): Option<SourcePart> {
    if path in source then Some(source[path]) else None
  }

  predicate Visible(p: Option<SourcePart>) { p.Some? && p.value.visible }

  /** Visible, archived, and with an identity: ready to be handed to the manifest. */
  predicate Eligible(p: Option<SourcePart>) { Visible(p) && p.value.archived && p.value.identity != "" }

  /** The rows of one part in ClickHouse. A deletion is an asynchronous mutation: while it is unfinished, the rows it
      found are doomed but still counted. */
  datatype Remote = Remote(live: nat, doomed: Option<nat>)

  function Held(rows: map<Key, Remote>, k: Key): Remote { if k in rows then rows[k] else Remote(0, None) }

  function DoomedRows(r: Remote): nat { if r.doomed.Some? then r.doomed.value else 0 }

  function Count(r: Remote): nat { r.live + DoomedRows(r) }

  /** `delete_part`: no second mutation while one for the same part is unfinished. */
  function Doomed(r: Remote): Remote { if r.doomed.Some? then r else Remote(0, Some(r.live)) }

  /** A mutation that has `left` of its rows to go. */
  function Mutated(r: Remote, left: nat): Remote { r.(doomed := if left > 0 then Some(left) else None) }

  /** Requesting a deletion takes no row yet, and the mutation leaves the live rows and those it has to go. */
  lemma MutationCounts(r: Remote, left: nat)
    ensures Count(Doomed(r)) == Count(r) && Doomed(r).doomed.Some?
    ensures Mutated(r, left).live == r.live && Count(Mutated(r, left)) == r.live + left
    ensures Mutated(r, left).doomed.Some? <==> left > 0
  {
  }

  /** One entry of a page of the change queue: the version it was read with, and the part as it was then. */
  datatype Entry = Entry(version: nat, seen: Option<SourcePart>)

  /** How far the claimed job has come. */
  datatype Stage =
    | Load                      // claimed for loading
    | Checked(expected: int)    // still the source's part
    | Clearing(expected: int)   // other rows found, their deletion requested
    | Cleared(expected: int)    // no row there
    | Confirmed(expected: int)  // looked up again: still the source's part
    | Sent(expected: int)       // INSERT sent
    | Stale(late: bool)         // no longer the source's part
    | Delete                    // claimed for deletion
    | Closing                   // the manifest is updated, last probes to come

  /** Where the worker stands. */
  datatype Phase =
    | Idle
    | Paged(page: map<string, Entry>)     // a page of changes has been read
    | Merged(page: map<string, Entry>)    // its eligible parts are in the manifest
    | Handed(page: map<string, Entry>)    // its removed paths are queued for deletion
    | Scanned(seen: Sources, startUs: int, endUs: int, full: bool)
    | Swept(clean: bool)                  // a full scan that found every part archived, or not
    | Job(key: Key, stage: Stage)

  datatype World = World(
    source: Sources, queue: map<string, nat>, version: nat, complete: bool,
    parts: Table, state: ReconcileState, rows: map<Key, Remote>, phase: Phase)

  datatype Event =
    | ChangeSource(path: string, part: Option<SourcePart>)
    | ReadPage(paths: set<string>)
    | Merge(at: Stamp)
    | QueueRemoved(at: Stamp)
    | Acknowledge
    | Scan(startUs: int, endUs: int, full: bool)
    | Sweep(at: Stamp)
    | MarkComplete
    | RecordError(error: string)
    | Claim(key: Key, nowUs: int)
    | RequestDelete
    | Mutate(key: Key, left: nat)
    | ReadSource
    | AcceptRemote(nowUs: int)
    | FindOtherRows
    | FindNoRows
    | ReadSourceAgain
    | Insert(count: nat)
    | Verify(nowUs: int)
    | Retire(nowUs: int)
    | Finish
    | Release(reason: string, delay: int, nowUs: int)
    | Fail(error: string, nowUs: int)
    | Crash
    | Recover(nowUs: int)

  // ---- the steps ----

  /** The path a change trigger enqueues: a part that was or becomes visible, and every deletion. */
  predicate Enqueues(before: Option<SourcePart>, after: Option<SourcePart>) {
    before != after && (Visible(before) || Visible(after) || after.None?)
  }

  function Changed(w: World, path: string, part: Option<SourcePart>): World {
    var source := if part.Some? then w.source[path := part.value] else w.source - {path};
    if Enqueues(Get(w.source, path), part)
    then w.(source := source, version := w.version + 1, queue := w.queue[path := w.version + 1])
    else w.(source := source)
  }

  function PageOf(w: World, paths: set<string>): map<string, Entry> {
    map p | p in w.queue && p in paths :: Entry(w.queue[p], Get(w.source, p))
  }

  function AsSource(path: string, p: SourcePart): Source { Source(path, p.identity, p.values) }

  function EligibleOf(page: map<string, Entry>): (src: map<string, Source>)
    ensures WellKeyed(src)
  {
    map p | p in page && Eligible(page[p].seen) :: AsSource(p, page[p].seen.value)
  }

  function RemovedOf(page: map<string, Entry>): set<string> { set p | p in page && !Visible(page[p].seen) }

  /** A visible part without an archived object stays in the queue. */
  predicate Acknowledges(e: Entry) { !Visible(e.seen) || Eligible(e.seen) }

  predicate Acks(w: World, page: map<string, Entry>, p: string) {
    p in page && Acknowledges(page[p]) && p in w.queue && w.queue[p] == page[p].version
  }

  /** What the scan hands to the reconcile. */
  function InScan(seen: Sources, startUs: int, endUs: int): (src: map<string, Source>)
    ensures WellKeyed(src)
  {
    map p | p in seen && Eligible(Some(seen[p])) && InWindow(seen[p].values, startUs, endUs) :: AsSource(p, seen[p])
  }

  predicate AllArchived(seen: Sources, startUs: int, endUs: int) {
    forall p | p in seen && seen[p].visible && InWindow(seen[p].values, startUs, endUs) :: Eligible(Some(seen[p]))
  }

  function Reconciled(t: Table, seen: Sources, startUs: int, endUs: int, full: bool, at: Stamp): Table {
    var src := InScan(seen, startUs, endUs);
    if full then Manifest.Swept(SetBased(t, src, at), ListedKeys(src), startUs, at) else SetBased(t, src, at)
  }

  predicate Current(w: World, k: Key) { k.path in w.source && w.source[k.path].identity == k.identity }

  /** The counters match the source's part, and `mark_ready` finds the row in a load state. */
  predicate CanBeReady(w: World, k: Key, expected: int) {
    Count(Held(w.rows, k)) == expected && k in w.parts && Loadable(w.parts[k].status)
  }

  predicate Possible(w: World, e: Event) {
    match e
    case ChangeSource(_, _) => true
    case ReadPage(_) => w.phase.Idle?
    case Merge(_) => w.phase.Paged?
    case QueueRemoved(_) => w.phase.Merged?
    case Acknowledge => w.phase.Handed?
    case Scan(_, _, _) => w.phase.Idle?
    case Sweep(_) => w.phase.Scanned?
    case MarkComplete => w.phase.Swept?
    case RecordError(_) => true
    case Claim(k, nowUs) => w.phase.Idle? && k in w.parts && Claimable(w.parts[k], nowUs)
    case RequestDelete => w.phase.Job? && (w.phase.stage.Stale? || w.phase.stage.Delete? || w.phase.stage.Clearing?)
    case Mutate(k, left) => k in w.rows && left <= DoomedRows(w.rows[k])
    case ReadSource => w.phase.Job? && w.phase.stage.Load?
    case AcceptRemote(_) => w.phase.Job? && w.phase.stage.Checked? && CanBeReady(w, w.phase.key, w.phase.stage.expected)
    case FindOtherRows => w.phase.Job? && w.phase.stage.Checked? && Count(Held(w.rows, w.phase.key)) > 0
    case FindNoRows =>
      w.phase.Job? && (w.phase.stage.Checked? || w.phase.stage.Clearing?) && Count(Held(w.rows, w.phase.key)) == 0
    case ReadSourceAgain => w.phase.Job? && w.phase.stage.Cleared?
    case Insert(_) => w.phase.Job? && w.phase.stage.Confirmed?
    case Verify(_) => w.phase.Job? && w.phase.stage.Sent? && CanBeReady(w, w.phase.key, w.phase.stage.expected)
    case Retire(_) =>
      && w.phase.Job? && (w.phase.stage.Delete? || w.phase.stage.Stale?) && w.phase.key in w.parts
      && ((w.phase.stage.Stale? && w.phase.stage.late) || Count(Held(w.rows, w.phase.key)) == 0)
    case Finish => w.phase.Job? && w.phase.stage.Closing?
    case Release(_, _, _) => w.phase.Job? && w.phase.key in w.parts
    case Fail(_, _) => w.phase.Job? && w.phase.key in w.parts
    case Crash => true
    case Recover(_) => w.phase.Idle?
  }

  /** The source, the change queue and the periodic scan. */
  predicate IsSourceEvent(e: Event) {
    e.ChangeSource? || e.ReadPage? || e.Merge? || e.QueueRemoved? || e.Acknowledge? || e.Scan? || e.Sweep? || e.MarkComplete?
  }

  function SourceStep(w: World, e: Event): World
    requires IsSourceEvent(e) && Possible(w, e)
  {
    match e
    case ChangeSource(path, part) => Changed(w, path, part)
    case ReadPage(paths) => w.(phase := Paged(PageOf(w, paths)))
    case Merge(at) =>
      var src := EligibleOf(w.phase.page);
      w.(parts := SetBased(w.parts, src, at), phase := Merged(w.phase.page),
         state := if src == map[] then w.state else w.state.(generation := at.generation, lastError := ""))
    case QueueRemoved(at) =>
      w.(parts := MissingQueued(w.parts, RemovedOf(w.phase.page), at), phase := Handed(w.phase.page))
    case Acknowledge =>
      w.(queue := map p | p in w.queue && !Acks(w, w.phase.page, p) :: w.queue[p], phase := Idle)
    case Scan(startUs, endUs, full) => w.(phase := Scanned(w.source, startUs, endUs, full))
    case Sweep(at) =>
      var ph := w.phase;
      w.(parts := Reconciled(w.parts, ph.seen, ph.startUs, ph.endUs, ph.full, at),
         state := if ph.full
                  then ReconcileState(at.generation, ph.startUs, ph.endUs, |ph.seen|, |InScan(ph.seen, ph.startUs, ph.endUs)|,
                                      at.nowUs, "")
                  else w.state.(generation := at.generation, lastError := ""),
         phase := Swept(ph.full && AllArchived(ph.seen, ph.startUs, ph.endUs)))
    case MarkComplete => w.(complete := w.complete || w.phase.clean, phase := Idle)
  }

  function PutRow(w: World, k: Key, r: Row, phase: Phase): World { w.(parts := w.parts[k := r], phase := phase) }

  function PutRemote(w: World, k: Key, r: Remote, phase: Phase): World { w.(rows := w.rows[k := r], phase := phase) }

  predicate IsLoadEvent(e: Event) {
    e.ReadSource? || e.AcceptRemote? || e.FindOtherRows? || e.FindNoRows? || e.ReadSourceAgain? || e.Insert? || e.Verify?
  }

  /** Loading the claimed part. */
  function LoadStep(w: World, e: Event): World
    requires IsLoadEvent(e) && Possible(w, e)
  {
    var k := w.phase.key;
    var r := Held(w.rows, k);
    match e
    case ReadSource =>
      w.(phase := if !Current(w, k) then Job(k, Stale(false))
                  else if !w.source[k.path].archived then w.phase
                  else Job(k, Checked(w.source[k.path].values.rowCount)))
    case AcceptRemote(nowUs) => PutRow(w, k, ReadyRow(w.parts[k], Count(r), nowUs), Job(k, Closing))
    case FindOtherRows => PutRemote(w, k, Doomed(r), Job(k, Clearing(w.phase.stage.expected)))
    case FindNoRows => w.(phase := Job(k, Cleared(w.phase.stage.expected)))
    case ReadSourceAgain =>
      w.(phase := Job(k, if Current(w, k) then Confirmed(w.phase.stage.expected) else Stale(true)))
    case Insert(count) => PutRemote(w, k, r.(live := r.live + count), Job(k, Sent(w.phase.stage.expected)))
    case Verify(nowUs) => PutRow(w, k, ReadyRow(w.parts[k], Count(r), nowUs), Job(k, Closing))
  }

  /** The rest of a job's life, and what ClickHouse does on its own. */
  function JobStep(w: World, e: Event): World
    requires !IsSourceEvent(e) && !IsLoadEvent(e) && Possible(w, e)
  {
    match e
    case RecordError(error) => w.(state := w.state.(lastError := Cut(error)))
    case Claim(k, nowUs) =>
      PutRow(w, k, ClaimedRow(w.parts[k], nowUs), Job(k, if ActiveDelete(w.parts[k].status) then Delete else Load))
    case RequestDelete => PutRemote(w, w.phase.key, Doomed(Held(w.rows, w.phase.key)), w.phase)
    case Mutate(k, left) => PutRemote(w, k, Mutated(w.rows[k], left), w.phase)
    case Retire(nowUs) => PutRow(w, w.phase.key, RetiredRow(w.parts[w.phase.key], nowUs), Job(w.phase.key, Closing))
    case Finish => w.(phase := Idle)
    case Release(reason, delay, nowUs) =>
      PutRow(w, w.phase.key, ReleasedRow(w.parts[w.phase.key], reason, delay, nowUs), Idle)
    case Fail(error, nowUs) => PutRow(w, w.phase.key, FailedRow(w.parts[w.phase.key], error, nowUs), Idle)
    case Crash => w.(phase := Idle)
    case Recover(nowUs) => w.(parts := Recovered(w.parts, nowUs))
  }

  function Step(w: World, e: Event): World
    requires Possible(w, e)
  {
    if IsSourceEvent(e) then SourceStep(w, e) else if IsLoadEvent(e) then LoadStep(w, e) else JobStep(w, e)
  }

  // ---- runs ----

  /** A new installation: no manifest rows, tracking not complete; the source may already hold parts. */
  predicate Fresh(w: World) {
    w.parts == map[] && w.phase.Idle? && !w.complete && w.state.completedAtUs == 0
    && forall p | p in w.queue :: w.queue[p] <= w.version
  }

  ghost predicate IsRun(w: World, es: seq<Event>)
    decreases |es|
  {
    es == [] || (Possible(w, es[0]) && IsRun(Step(w, es[0]), es[1..]))
  }

  function Final(w: World, es: seq<Event>): World
    requires IsRun(w, es)
    decreases |es|
  {
    if es == [] then w else Final(Step(w, es[0]), es[1..])
  }
}
