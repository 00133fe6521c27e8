/** `ingest_one` of app/clickhouse_ingest.py:492-659 over the manifest's own methods, while the source and ClickHouse change
    beside it. Everything that happens is logged, so that `Valid` says: so far this is a run of the serving protocol. */
module ServingWorker {
  import opened Select
  import opened PartStatus
  import opened Manifest
  import opened ManifestStore
  import opened Serving
  import opened ServingGates
  import opened ServingRuns

  datatype Outcome = NothingDue | PartRetired | SourceChanged | AlreadyReady | Loaded | Paused | Failure

  /** How a job of one key may end: no other row is touched, and its own is where the outcome says. */
  predicate Ended(was: Table, k: Key, outcome: Outcome, t: Table) {
    && k in was && t.Keys == was.Keys && (forall j | j in t && j != k :: t[j] == was[j])
    && match outcome
       case NothingDue => false
       case PartRetired => t[k].status == Retired && ActiveDelete(was[k].status)
       case SourceChanged => t[k].status == Retired && ActiveLoad(was[k].status)
       case AlreadyReady => t[k].status == Ready && ActiveLoad(was[k].status)
       case Loaded => t[k].status == Ready && ActiveLoad(was[k].status)
       case Paused => t[k].status in {Pending, DeletePending} && t[k].nextRetryUs == t[k].updatedAtUs + 30_000_000
       case Failure =>
         && t[k].status in {LoadFailed, DeleteFailed} && t[k].attempts == was[k].attempts + 1
         && t[k].nextRetryUs == t[k].updatedAtUs + Delay(t[k].attempts) * 1_000_000
  }

  /** The source's part of the key. */
  function ItsPart(source: Sources, k: Key): Option<SourcePart> {
    if k.path in source && source[k.path].identity == k.identity then Some(source[k.path]) else None
  }

  /** What a load comes to when nothing fails and nothing changes: the part is ready with its rows if its object has as many as the
      source says, unless it is gone, or not archived. */
  predicate CalmLoad(k: Key, source: Sources, objects: Key -> nat, outcome: Outcome, t: Table) {
    match ItsPart(source, k)
    case None => outcome == SourceChanged
    case Some(part) =>
      if !part.archived then outcome == Failure
      else
        && (outcome in {AlreadyReady, Loaded} ==> k in t && t[k].insertedRows == part.values.rowCount)
        && (objects(k) == part.values.rowCount ==> outcome in {AlreadyReady, Loaded})
        && (objects(k) != part.values.rowCount ==> outcome in {AlreadyReady, Failure})
  }

  lemma {:induction false} AdmittedSnoc(w: World, es: seq<Event>, e: Event)
    requires IsRun(w, es) && AdmittedRun(w, es, false) && Possible(Final(w, es), e) && !e.Sweep?
    ensures IsRun(w, es + [e]) && AdmittedRun(w, es + [e], false) && Final(w, es + [e]) == Step(Final(w, es), e)
    decreases |es|
  {
    hide Step;
    hide Possible;
    RunSnoc(w, es, e);
    if es == [] {
      assert es + [e] == [e] && [e][1..] == [];
    } else {
      AdmittedSnoc(Step(w, es[0]), es[1..], e);
      assert (es + [e])[0] == es[0] && (es + [e])[1..] == es[1..] + [e];
    }
  }

  class Ingester {
    const manifest: ClickHouseManifest
    var source: Sources
    var queue: map<string, nat>
    var version: nat
    var complete: bool
    var rows: map<Key, Remote>
    /** While set, nothing fails, mutations finish at once, and the source stays as it is. */
    const calm: bool
    /** How many rows the object of a part holds. */
    const objects: Key -> nat
    ghost const first: World
    ghost var phase: Phase
    ghost var events: seq<Event>

    ghost function Now(): World
      reads this, manifest
    {
      World(source, queue, version, complete, manifest.parts, manifest.state, rows, phase)
    }

    /** Nothing is under way at the server for the key, if all is calm. */
    ghost predicate Quiet(k: Key)
      reads this`rows
    {
      calm ==> Held(rows, k).doomed.None?
    }

    ghost predicate Valid()
      reads this, manifest
    {
      IsRun(first, events) && AdmittedRun(first, events, false) && Final(first, events) == Now()
    }

    /** The worker is at a stage of the job, and has not touched the manifest since it claimed the row. */
    ghost predicate At(k: Key, stage: Stage)
      reads this, manifest
    {
      && Valid() && phase == Job(k, stage) && k in manifest.parts
      && manifest.parts[k].status == if stage.Delete? then Deleting else Loading
    }

    /** A worker beside a manifest that some run has brought to where it is. */
    constructor (store: ClickHouseManifest, ghost w: World, ghost es: seq<Event>, now: Sources, changes: map<string, nat>,
                 last: nat, tracked: bool, held: map<Key, Remote>, objects: Key -> nat, calm: bool)
      requires IsRun(w, es) && AdmittedRun(w, es, false)
      requires Final(w, es) == World(now, changes, last, tracked, store.parts, store.state, held, Idle)
      ensures Valid() && phase.Idle? && manifest == store && first == w && events == es
      ensures this.objects == objects && this.calm == calm
    {
      this.objects, this.calm := objects, calm;
      manifest, source, queue, version, complete, rows := store, now, changes, last, tracked, held;
      first, phase, events := w, Idle, es;
    }

    /** One step, already taken by the fields. */
    ghost method Log(w: World, e: Event)
      requires IsRun(first, events) && AdmittedRun(first, events, false) && Final(first, events) == w
      requires Possible(w, e) && !e.Sweep? && Now().(phase := Step(w, e).phase) == Step(w, e)
      modifies this`phase, this`events
      ensures Valid() && phase == Step(w, e).phase && events == old(events) + [e]
    {
      hide Step;
      AdmittedSnoc(first, events, e);
      phase, events := Step(w, e).phase, events + [e];
    }

    method ChangeOne(path: string, part: Option<SourcePart>)
      requires Valid()
      modifies this`source, this`queue, this`version, this`phase, this`events
      ensures Valid() && phase == old(phase) && old(events) <= events
    {
      hide IsRun;
      hide AdmittedRun;
      hide Final;
      ghost var w := Now();
      var before := Get(source, path);
      source := if part.Some? then source[path := part.value] else source - {path};
      if Enqueues(before, part) {
        version := version + 1;
        queue := queue[path := version];
      }
      hide Enqueues;
      hide Get;
      Log(w, ChangeSource(path, part));
    }

    method MutateOne(k: Key, left: nat)
      requires Valid() && k in rows && left <= DoomedRows(rows[k])
      modifies this`rows, this`phase, this`events
      ensures Valid() && phase == old(phase) && old(events) <= events
      ensures rows == old(rows)[k := Mutated(old(rows)[k], left)]
    {
      hide DoomedRows;
      hide Mutated;
      ghost var w := Now();
      rows := rows[k := Mutated(rows[k], left)];
      Log(w, Mutate(k, left));
    }

    /** Source parts change and mutations go on, any number of times; if all is calm, only the mutation of the job's own rows
        ends. */
    method Others(k: Key)
      requires Valid()
      modifies this`source, this`queue, this`version, this`rows, this`phase, this`events
      ensures Valid() && phase == old(phase) && old(events) <= events
      ensures Quiet(k)
      ensures calm ==> source == old(source) && Held(rows, k) == old(Held(rows, k)).(doomed := None)
    {
      hide IsRun;
      hide AdmittedRun;
      hide Final;
      if calm {
        if k in rows && rows[k].doomed.Some? {
          MutateOne(k, 0);
        }
      } else {
        Disturb();
      }
    }

    method Disturb()
      requires Valid()
      modifies this`source, this`queue, this`version, this`rows, this`phase, this`events
      ensures Valid() && phase == old(phase) && old(events) <= events
    {
      hide *;
      var n: nat :| true;
      while n > 0
        invariant Valid() && phase == old(phase) && old(events) <= events
      {
        if * {
          var path: string := *;
          var part: Option<SourcePart> := *;
          ChangeOne(path, part);
        } else if rows != map[] {
          var k: Key :| k in rows;
          var left: nat :| left <= DoomedRows(rows[k]);
          MutateOne(k, left);
        }
        n := n - 1;
      }
    }

    /** Whether something fails here. */
    method Trouble() returns (fails: bool)
      ensures calm ==> !fails
    {
      fails := *;
      fails := fails && !calm;
    }

    lemma HeldThere(rows: map<Key, Remote>, k: Key)
      requires k in rows
      ensures Held(rows, k) == rows[k]
    {
    }

    // ---- how a job ends ----

    /** The last probes are over. */
    method Close(k: Key)
      requires Valid() && phase == Job(k, Closing)
      modifies this`phase, this`events
      ensures Valid() && phase.Idle? && old(events) <= events
    {
      hide IsRun;
      hide AdmittedRun;
      hide Final;
      Log(Now(), Finish);
    }

    /** `IngestPaused`: thirty seconds, then the job comes again. */
    method Pause(k: Key)
      requires Valid() && phase.Job? && phase.key == k && k in manifest.parts
      modifies this`phase, this`events, manifest`parts
      ensures Valid() && phase.Idle? && old(events) <= events
      ensures Ended(old(manifest.parts), k, Paused, manifest.parts)
    {
      hide IsRun;
      hide AdmittedRun;
      hide Final;
      ghost var w := Now();
      var nowUs: int := *;
      var reason: string := *;
      var _ := manifest.ReleasePending(k, reason, 30, nowUs);
      Log(w, Release(reason, 30, nowUs));
    }

    /** Any other exception. */
    method Fails(k: Key)
      requires Valid() && phase.Job? && phase.key == k && k in manifest.parts
      modifies this`phase, this`events, manifest`parts
      ensures Valid() && phase.Idle? && old(events) <= events
      ensures Ended(old(manifest.parts), k, Failure, manifest.parts)
    {
      hide IsRun;
      hide AdmittedRun;
      hide Final;
      hide Delay;
      ghost var w := Now();
      var nowUs: int := *;
      var error: string := *;
      var _ := manifest.MarkFailed(k, error, nowUs);
      Log(w, Fail(error, nowUs));
    }

    /** A pause, or another exception. */
    method Stop(k: Key) returns (outcome: Outcome)
      requires Valid() && phase.Job? && phase.key == k && k in manifest.parts
      modifies this`phase, this`events, manifest`parts
      ensures Valid() && phase.Idle? && old(events) <= events
      ensures outcome in {Paused, Failure} && Ended(old(manifest.parts), k, outcome, manifest.parts)
    {
      if * {
        Pause(k);
        outcome := Paused;
      } else {
        Fails(k);
        outcome := Failure;
      }
    }

    /** `delete_part`, and the mutation's work until the next statement. */
    method DeletePart(k: Key, stage: Stage)
      requires At(k, stage) && (stage.Delete? || stage.Stale?)
      modifies this`source, this`queue, this`version, this`rows, this`phase, this`events
      ensures At(k, stage) && old(events) <= events && Quiet(k)
      ensures calm ==> source == old(source) && (old(Held(rows, k)).doomed.None? ==> Count(Held(rows, k)) == 0)
    {
      hide IsRun;
      hide AdmittedRun;
      hide Final;
      ghost var w := Now();
      rows := rows[k := Doomed(Held(rows, k))];
      Log(w, RequestDelete);
      Others(k);
    }

    /** `mark_retired`, once no row is left or the source has moved on during the load. */
    method Retiring(k: Key, stage: Stage)
      requires At(k, stage) && (stage.Delete? || stage.Stale?)
      requires stage == Stale(true) || Count(Held(rows, k)) == 0
      modifies this`phase, this`events, manifest`parts
      ensures Valid() && phase == Job(k, Closing) && old(events) <= events
      ensures manifest.parts.Keys == old(manifest.parts).Keys && manifest.parts[k].status == Retired
      ensures forall j | j in manifest.parts && j != k :: manifest.parts[j] == old(manifest.parts)[j]
      ensures manifest.parts[k].attempts == old(manifest.parts)[k].attempts
    {
      hide IsRun;
      hide AdmittedRun;
      hide Final;
      ghost var w := Now();
      var nowUs: int := *;
      var _ := manifest.MarkRetired(k, nowUs);
      Log(w, Retire(nowUs));
    }

    /** `mark_ready`, with the rows counted just before. */
    method MakeReady(k: Key, stage: Stage)
      requires At(k, stage) && (stage.Checked? || stage.Sent?) && Count(Held(rows, k)) == stage.expected
      modifies this`phase, this`events, manifest`parts
      ensures Valid() && phase == Job(k, Closing) && old(events) <= events
      ensures manifest.parts.Keys == old(manifest.parts).Keys && manifest.parts[k].status == Ready
      ensures manifest.parts[k].insertedRows == stage.expected
      ensures forall j | j in manifest.parts && j != k :: manifest.parts[j] == old(manifest.parts)[j]
      ensures manifest.parts[k].attempts == old(manifest.parts)[k].attempts
    {
      hide IsRun;
      hide AdmittedRun;
      hide Final;
      hide Held;
      hide Count;
      ghost var w := Now();
      var nowUs: int := *;
      var _ := manifest.MarkReady(k, Count(Held(rows, k)), nowUs);
      Log(w, if stage.Checked? then AcceptRemote(nowUs) else Verify(nowUs));
    }

    // ---- the job of a part to be deleted, or no longer the source's ----

    method Remove(k: Key, stage: Stage) returns (outcome: Outcome)
      requires At(k, stage) && stage in {Delete, Stale(false)} && Quiet(k)
      modifies this`source, this`queue, this`version, this`rows, this`phase, this`events, manifest`parts
      ensures Valid() && phase.Idle? && old(events) <= events
      ensures Ended(old(manifest.parts), k, outcome, manifest.parts)
      ensures outcome in {Paused, Failure, if stage.Delete? then PartRetired else SourceChanged}
      ensures calm ==> outcome == if stage.Delete? then PartRetired else SourceChanged
    {
      var fails := Trouble();
      if fails {
        outcome := Stop(k);
        return;
      }
      DeletePart(k, stage);
      fails := Trouble();
      if fails {
        outcome := Stop(k);
        return;
      }
      if Count(Held(rows, k)) > 0 {
        Pause(k);
        return Paused;
      }
      Retiring(k, stage);
      fails := Trouble();
      if stage.Delete? && fails {
        outcome := Stop(k);
        return;
      }
      Close(k);
      outcome := if stage.Delete? then PartRetired else SourceChanged;
    }

    // ---- the job of a part to be loaded ----

    /** The claimed part as the source has it now, if it still has it. */
    method ReadPart(k: Key) returns (current: Option<SourcePart>)
      requires At(k, Stage.Load) && Quiet(k)
      modifies this`source, this`queue, this`version, this`rows, this`phase, this`events
      ensures old(events) <= events && Quiet(k)
      ensures calm ==> source == old(source) && Held(rows, k) == old(Held(rows, k)) && current == ItsPart(old(source), k)
      ensures current.None? ==> At(k, Stale(false))
      ensures current.Some? && current.value.archived ==> At(k, Checked(current.value.values.rowCount))
      ensures current.Some? && !current.value.archived ==> At(k, Stage.Load)
    {
      current := Get(source, k.path);
      Log(Now(), ReadSource);
      if current.Some? && current.value.identity != k.identity {
        current := None;
      }
      Others(k);
    }

    /** `delete_part` of rows that are not the part's. */
    method DeleteOthers(k: Key, expected: int)
      requires At(k, Checked(expected)) && Count(Held(rows, k)) > 0 && Quiet(k)
      modifies this`source, this`queue, this`version, this`rows, this`phase, this`events
      ensures At(k, Clearing(expected)) && old(events) <= events && Quiet(k)
      ensures calm ==> source == old(source) && Count(Held(rows, k)) == 0
    {
      ghost var w := Now();
      rows := rows[k := Doomed(Held(rows, k))];
      Log(w, FindOtherRows);
      Others(k);
    }

    method FindNone(k: Key, expected: int)
      requires Quiet(k) && (At(k, Checked(expected)) || At(k, Clearing(expected))) && Count(Held(rows, k)) == 0
      modifies this`source, this`queue, this`version, this`rows, this`phase, this`events
      ensures At(k, Cleared(expected)) && old(events) <= events && Quiet(k)
      ensures calm ==> source == old(source) && Count(Held(rows, k)) == 0
    {
      hide IsRun;
      hide AdmittedRun;
      hide Final;
      Log(Now(), FindNoRows);
      Others(k);
    }

    /** The second look at the source, with the object at hand. */
    method ReadPartAgain(k: Key, expected: int) returns (current: bool)
      requires At(k, Cleared(expected)) && Quiet(k)
      modifies this`source, this`queue, this`version, this`rows, this`phase, this`events
      ensures At(k, if current then Confirmed(expected) else Stale(true)) && old(events) <= events && Quiet(k)
      ensures calm ==> source == old(source) && Held(rows, k) == old(Held(rows, k)) && current == ItsPart(old(source), k).Some?
    {
      hide IsRun;
      hide AdmittedRun;
      hide Final;
      var latest := Get(source, k.path);
      current := latest.Some? && latest.value.identity == k.identity;
      Log(Now(), ReadSourceAgain);
      Others(k);
    }

    /** The INSERT, which may land any number of rows. */
    method SendRows(k: Key, expected: int) returns (landed: nat)
      requires At(k, Confirmed(expected))
      modifies this`rows, this`phase, this`events
      ensures At(k, Sent(expected)) && old(events) <= events
      ensures Held(rows, k) == old(Held(rows, k)).(live := old(Held(rows, k)).live + landed)
      ensures calm ==> landed == objects(k)
    {
      hide IsRun;
      hide AdmittedRun;
      hide Final;
      ghost var w := Now();
      var before := Held(rows, k);
      landed :| calm ==> landed == objects(k);
      rows := rows[k := before.(live := before.live + landed)];
      HeldThere(rows, k);
      hide Held;
      Log(w, Insert(landed));
    }

    method InsertPart(k: Key, expected: int)
      requires At(k, Confirmed(expected)) && Quiet(k)
      modifies this`source, this`queue, this`version, this`rows, this`phase, this`events
      ensures At(k, Sent(expected)) && old(events) <= events && Quiet(k)
      ensures calm ==> Count(Held(rows, k)) == old(Count(Held(rows, k))) + objects(k)
    {
      hide IsRun;
      hide AdmittedRun;
      hide Final;
      hide Held;
      var landed := SendRows(k, expected);
      Others(k);
    }

    /** The claimed part is looked up, and its rows in ClickHouse are compared with it. */
    method Load(k: Key) returns (outcome: Outcome)
      requires At(k, Stage.Load) && Quiet(k)
      modifies this`source, this`queue, this`version, this`rows, this`phase, this`events, manifest`parts
      ensures Valid() && phase.Idle? && old(events) <= events
      ensures Ended(old(manifest.parts), k, outcome, manifest.parts) && outcome != PartRetired
      ensures calm ==> CalmLoad(k, old(source), objects, outcome, manifest.parts)
      ensures calm && ItsPart(old(source), k).Some? && ItsPart(old(source), k).value.archived ==>
                var part, found := ItsPart(old(source), k).value, old(Count(Held(rows, k)));
                && (outcome.AlreadyReady? ==> found == part.values.rowCount)
                && (found == part.values.rowCount == 0 ==> outcome.AlreadyReady?)
    {
      hide IsRun;
      hide AdmittedRun;
      hide Final;
      hide Step;
      hide Possible;
      var current := ReadPart(k);
      if current.None? {
        outcome := Remove(k, Stale(false));
        return;
      }
      if !current.value.archived {
        Fails(k);
        return Failure;
      }
      var fails := Trouble();
      if fails {
        outcome := Stop(k);
        return;
      }
      var expected, found := current.value.values.rowCount, Count(Held(rows, k));
      var same: bool := *;
      if found == expected && (found == 0 || same) {
        MakeReady(k, Checked(expected));
        Close(k);
        return AlreadyReady;
      }
      outcome := Clear(k, expected);
    }

    /** Other rows of the identity are deleted first. */
    method Clear(k: Key, expected: int) returns (outcome: Outcome)
      requires At(k, Checked(expected)) && Quiet(k)
      modifies this`source, this`queue, this`version, this`rows, this`phase, this`events, manifest`parts
      ensures Valid() && phase.Idle? && old(events) <= events
      ensures Ended(old(manifest.parts), k, outcome, manifest.parts) && outcome in {SourceChanged, Loaded, Paused, Failure}
      ensures calm && ItsPart(old(source), k).Some? ==>
                outcome == (if objects(k) == expected then Loaded else Failure)
                && (outcome.Loaded? ==> manifest.parts[k].insertedRows == expected)
    {
      hide IsRun;
      hide AdmittedRun;
      hide Final;
      hide Step;
      hide Possible;
      hide Held;
      hide Count;
      hide Delay;
      if Count(Held(rows, k)) > 0 {
        DeleteOthers(k, expected);
        var broken := Trouble();
        if broken {
          outcome := Stop(k);
          return;
        }
        if Count(Held(rows, k)) > 0 {
          Pause(k);
          return Paused;
        }
      }
      FindNone(k, expected);
      var fails := Trouble();
      if fails {
        outcome := Stop(k);
        return;
      }
      var current := ReadPartAgain(k, expected);
      if current {
        outcome := Send(k, expected);
      } else {
        outcome := Overtaken(k);
      }
    }

    /** The source has moved on while the object was read. */
    method Overtaken(k: Key) returns (outcome: Outcome)
      requires At(k, Stale(true)) && Quiet(k)
      modifies this`source, this`queue, this`version, this`rows, this`phase, this`events, manifest`parts
      ensures Valid() && phase.Idle? && old(events) <= events
      ensures Ended(old(manifest.parts), k, outcome, manifest.parts) && outcome in {SourceChanged, Paused, Failure}
    {
      hide IsRun;
      hide AdmittedRun;
      hide Final;
      hide Step;
      hide Possible;
      hide Held;
      hide Count;
      hide Delay;
      DeletePart(k, Stale(true));
      var fails := Trouble();
      if fails {
        outcome := Stop(k);
        return;
      }
      Retiring(k, Stale(true));
      Close(k);
      outcome := SourceChanged;
    }

    /** The part is sent, and must be there entirely. */
    method Send(k: Key, expected: int) returns (outcome: Outcome)
      requires At(k, Confirmed(expected)) && Quiet(k)
      modifies this`source, this`queue, this`version, this`rows, this`phase, this`events, manifest`parts
      ensures Valid() && phase.Idle? && old(events) <= events
      ensures Ended(old(manifest.parts), k, outcome, manifest.parts) && outcome in {Loaded, Paused, Failure}
      ensures calm && old(Count(Held(rows, k))) == 0 ==>
                outcome == (if objects(k) == expected then Loaded else Failure)
                && (outcome.Loaded? ==> manifest.parts[k].insertedRows == expected)
    {
      hide IsRun;
      hide AdmittedRun;
      hide Final;
      hide Step;
      hide Possible;
      hide Quiet;
      hide Held;
      hide Count;
      hide Ended;
      var fails := Trouble();
      if fails {
        outcome := Stop(k);
      } else {
        InsertPart(k, expected);
        outcome := Confirm(k, expected);
      }
    }

    method Confirm(k: Key, expected: int) returns (outcome: Outcome)
      requires At(k, Sent(expected))
      modifies this`source, this`queue, this`version, this`rows, this`phase, this`events, manifest`parts
      ensures Valid() && phase.Idle? && old(events) <= events
      ensures Ended(old(manifest.parts), k, outcome, manifest.parts) && outcome in {Loaded, Paused, Failure}
      ensures calm ==>
                outcome == (if old(Count(Held(rows, k))) == expected then Loaded else Failure)
                && (outcome.Loaded? ==> manifest.parts[k].insertedRows == expected)
    {
      hide Ended;
      hide IsRun;
      hide AdmittedRun;
      hide Final;
      hide Step;
      hide Possible;
      hide Held;
      hide Count;
      hide Delay;
      var found := Count(Held(rows, k));
      var same: bool := *;
      same := same || calm;
      var fails := Trouble();
      if fails {
        outcome := Stop(k);
        return;
      }
      if found != expected || (found > 0 && !same) {
        Fails(k);
        return Failure;
      }
      outcome := Serve(k, expected);
    }

    /** The last probes, before and after the row is marked ready. */
    method Serve(k: Key, expected: int) returns (outcome: Outcome)
      requires At(k, Sent(expected)) && Count(Held(rows, k)) == expected
      modifies this`phase, this`events, manifest`parts
      ensures Valid() && phase.Idle? && old(events) <= events
      ensures Ended(old(manifest.parts), k, outcome, manifest.parts) && outcome in {Loaded, Paused, Failure}
      ensures calm ==> outcome.Loaded?
      ensures outcome.Loaded? ==> manifest.parts[k].insertedRows == expected
    {
      hide IsRun;
      hide AdmittedRun;
      hide Final;
      hide Step;
      hide Possible;
      hide Held;
      hide Count;
      hide Delay;
      var fails := Trouble();
      if fails {
        outcome := Stop(k);
        return;
      }
      MakeReady(k, Sent(expected));
      fails := Trouble();
      if fails {
        outcome := Stop(k);
        return;
      }
      Close(k);
      outcome := Loaded;
    }

    /** `claim_next`, and whatever happens until the job begins. */
    method ClaimJob(newest: bool) returns (claim: Option<Key>)
      requires Valid() && phase.Idle?
      modifies this`source, this`queue, this`version, this`rows, this`phase, this`events, manifest`parts
      ensures old(events) <= events
      ensures claim.Some? ==> Quiet(claim.value) && (calm ==> source == old(source))
      ensures claim.None? ==> Valid() && phase.Idle? && manifest.parts == old(manifest.parts)
      ensures claim.Some? ==>
                var k := claim.value;
                && k in old(manifest.parts) && manifest.parts.Keys == old(manifest.parts).Keys
                && At(k, if ActiveDelete(old(manifest.parts)[k].status) then Delete else Stage.Load)
                && manifest.parts[k].attempts == old(manifest.parts)[k].attempts
                && (ActiveDelete(old(manifest.parts)[k].status) || ActiveLoad(old(manifest.parts)[k].status))
                && forall j | j in manifest.parts && j != k :: manifest.parts[j] == old(manifest.parts)[j]
    {
      hide IsRun;
      hide AdmittedRun;
      hide Final;
      hide Precedes;
      ghost var w := Now();
      var nowUs: int := *;
      claim := manifest.ClaimNext(newest, nowUs);
      if claim.Some? {
        Log(w, Claim(claim.value, nowUs));
        Others(claim.value);
      }
    }

    /** One job from claim to end: a run of the protocol, whatever fails and whatever changes meanwhile. */
    method IngestOne(newest: bool) returns (outcome: Outcome, claim: Option<Key>)
      requires Valid() && phase.Idle?
      modifies this`source, this`queue, this`version, this`rows, this`phase, this`events, manifest`parts
      ensures Valid() && phase.Idle? && old(events) <= events
      ensures claim.None? <==> outcome.NothingDue?
      ensures claim.None? ==> manifest.parts == old(manifest.parts)
      ensures claim.Some? ==> Ended(old(manifest.parts), claim.value, outcome, manifest.parts)
      ensures claim.Some? && calm ==>
                if ActiveDelete(old(manifest.parts)[claim.value].status) then outcome == PartRetired
                else CalmLoad(claim.value, old(source), objects, outcome, manifest.parts)
    {
      hide IsRun;
      hide AdmittedRun;
      hide Final;
      hide Step;
      hide Possible;
      claim := ClaimJob(newest);
      if claim.None? {
        return NothingDue, None;
      }
      var k := claim.value;
      var fails := Trouble();
      if fails {
        outcome := Stop(k);
      } else if manifest.parts[k].status == Deleting {
        outcome := Remove(k, Delete);
      } else {
        outcome := Load(k);
      }
    }

    // ---- around the jobs ----

    /** A new process, wherever the last one was killed: no job is left half claimed. */
    method Restart() returns (recovered: nat)
      requires Valid()
      modifies this`phase, this`events, manifest`parts
      ensures Valid() && phase.Idle? && old(events) <= events
      ensures manifest.parts.Keys == old(manifest.parts).Keys
      ensures forall k | k in manifest.parts :: manifest.parts[k].status != Loading && manifest.parts[k].status != Deleting
    {
      hide IsRun;
      hide AdmittedRun;
      hide Final;
      Log(Now(), Crash);
      ghost var w := Now();
      var nowUs: int := *;
      recovered := manifest.RecoverLoading(nowUs);
      hide Recovered;
      Log(w, Recover(nowUs));
    }

    /** A reconcile that fails closes the gates until one succeeds. */
    method ReconcileFailed(error: string)
      requires Valid()
      modifies this`phase, this`events, manifest`state
      ensures Valid() && phase == old(phase) && old(events) <= events
      ensures error != "" ==> !GlobalGateOf(Now())
      ensures error != "" ==> forall startUs, endUs :: !WindowGateOf(Now(), startUs, endUs)
    {
      hide IsRun;
      hide AdmittedRun;
      hide Final;
      ghost var w := Now();
      manifest.RecordReconcileError(error);
      Log(w, RecordError(error));
    }

    /** The gate a query asks, on the fields as they are: open, it means exact coverage. */
    method Serves() returns (open: bool, covered: int)
      requires Valid()
      ensures open <==> GlobalGateOf(Now())
      ensures open && Fresh(first) ==> AllCovered(Now())
      ensures covered == if open then manifest.state.eligibleParts else 0
    {
      open, covered := manifest.GlobalCoverage(complete, queue != map[]);
      if Fresh(first) {
        OpenGateIsCoverage(first, events);
      }
    }

    /** The gate of one window: open, every visible part of the window is ready and no other identity of its path is. */
    method ServesWindow(startUs: int, endUs: int) returns (open: bool, covered: int)
      requires Valid()
      ensures open <==> WindowGateOf(Now(), startUs, endUs)
      ensures open && Fresh(first) ==>
                forall p | p in source && source[p].visible && InWindow(source[p].values, startUs, endUs) ::
                  var k := Key(p, source[p].identity);
                  && k in manifest.parts && manifest.parts[k].status == Ready && manifest.parts[k].values == source[p].values
                  && forall j | j in manifest.parts && j.path == p && j != k :: manifest.parts[j].status != Ready
    {
      var pending := set p | p in queue && (p !in source || InWindow(source[p].values, startUs, endUs)) :: p;
      assert pending != {} <==> PendingInWindow(Now(), startUs, endUs) by {
        if PendingInWindow(Now(), startUs, endUs) {
          var p :| p in queue && (p !in source || InWindow(source[p].values, startUs, endUs));
          assert p in pending;
        }
      }
      open, covered := manifest.WindowCoverage(complete, pending != {}, startUs, endUs);
      if open && Fresh(first) {
        hide *;
        forall p | p in source && source[p].visible && InWindow(source[p].values, startUs, endUs)
          ensures var k := Key(p, source[p].identity);
                  && k in manifest.parts && manifest.parts[k].status == Ready && manifest.parts[k].values == source[p].values
                  && forall j | j in manifest.parts && j.path == p && j != k :: manifest.parts[j].status != Ready
        {
          OpenWindowIsServed(first, events, startUs, endUs, p);
        }
      }
    }
  }
}
