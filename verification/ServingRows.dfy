/** What `ready` says about ClickHouse: in every run, and exactly when an unfinished deletion makes it wrong. */
module ServingRows {
  import opened PartStatus
  import opened Manifest
  import opened Serving

  /** The row says `ready`, and ClickHouse holds exactly its `inserted_rows` with no deletion outstanding. */
  predicate ReadyIsTrue(w: World, k: Key)
    requires k in w.parts
  {
    w.parts[k].status == Ready ==> DoomedRows(Held(w.rows, k)) == 0 && Held(w.rows, k).live == w.parts[k].insertedRows
  }

  predicate JobRows(w: World) {
    w.phase.Job? ==>
      var k := w.phase.key;
      match w.phase.stage
      case Closing => true
      case Delete => k in w.parts && w.parts[k].status == Deleting
      case Cleared(_) => k in w.parts && w.parts[k].status == Loading && Count(Held(w.rows, k)) == 0
      case Confirmed(_) => k in w.parts && w.parts[k].status == Loading && Count(Held(w.rows, k)) == 0
      case Sent(_) => k in w.parts && w.parts[k].status == Loading && DoomedRows(Held(w.rows, k)) == 0
      case _ => k in w.parts && w.parts[k].status == Loading
  }

  ghost predicate RowsInv(w: World) { JobRows(w) && forall k | k in w.parts :: ReadyIsTrue(w, k) }

  /** A part accepted as already loaded has no unfinished deletion. */
  predicate AcceptsCleanly(w: World, e: Event)
    requires Possible(w, e)
  {
    e.AcceptRemote? ==> DoomedRows(Held(w.rows, w.phase.key)) == 0
  }

  // ---- no table statement makes a row ready ----

  predicate NoNewReady(t: Table, u: Table) {
    forall k | k in u && u[k].status == Ready ::
      k in t && t[k].status == Ready && t[k].insertedRows == u[k].insertedRows
  }

  lemma ReconcileMakesNothingReady(t: Table, seen: Sources, startUs: int, endUs: int, full: bool, at: Stamp)
    ensures NoNewReady(t, Reconciled(t, seen, startUs, endUs, full, at))
  {
    var src := InScan(seen, startUs, endUs);
    var u := Reconciled(t, seen, startUs, endUs, full, at);
    SetBasedMakesNothingReady(t, src, at);
    hide SetBased;
    hide InScan;
    hide WellKeyed;
    hide ListedKeys;
    forall k | full && k in u && u[k].status == Ready
      ensures k in SetBased(t, src, at) && SetBased(t, src, at)[k] == u[k]
    {
      SweptAt(SetBased(t, src, at), ListedKeys(src), startUs, at, k);
    }
  }

  lemma SetBasedMakesNothingReady(t: Table, src: map<string, Source>, at: Stamp)
    requires WellKeyed(src)
    ensures NoNewReady(t, SetBased(t, src, at))
  {
    var u := SetBased(t, src, at);
    hide SetBased;
    hide WellKeyed;
    forall k | k in u && u[k].status == Ready
      ensures k in t && t[k].status == Ready && t[k].insertedRows == u[k].insertedRows
    {
      SetBasedAt(t, src, at, k);
    }
  }

  lemma NoNewReadyKeeps(w: World, v: World)
    requires RowsInv(w) && NoNewReady(w.parts, v.parts) && v.rows == w.rows
    ensures forall k | k in v.parts :: ReadyIsTrue(v, k)
  {
    hide DoomedRows;
    hide Held;
    forall k | k in v.parts ensures ReadyIsTrue(v, k) {
      if v.parts[k].status == Ready {
        assert ReadyIsTrue(w, k);
      }
    }
  }

  // ---- steps ----

  lemma SourceMakesNothingReady(w: World, e: Event)
    requires IsSourceEvent(e) && Possible(w, e)
    ensures NoNewReady(w.parts, SourceStep(w, e).parts) && SourceStep(w, e).rows == w.rows
  {
    hide NoNewReady;
    hide SetBased;
    hide MissingQueued;
    hide Reconciled;
    NoNewReadyAtAll(w.parts);
    match e
    case Merge(at) => SetBasedMakesNothingReady(w.parts, EligibleOf(w.phase.page), at);
    case Sweep(at) => ReconcileMakesNothingReady(w.parts, w.phase.seen, w.phase.startUs, w.phase.endUs, w.phase.full, at);
    case QueueRemoved(at) => MissingMakesNothingReady(w.parts, RemovedOf(w.phase.page), at);
    case _ =>
  }

  lemma NoNewReadyAtAll(t: Table)
    ensures NoNewReady(t, t)
  {
  }

  lemma SourceKeepsJobRows(w: World, e: Event)
    requires JobRows(w) && IsSourceEvent(e) && Possible(w, e)
    ensures JobRows(SourceStep(w, e))
  {
    hide Held;
    hide Count;
    hide DoomedRows;
    hide SetBased;
    hide MissingQueued;
    hide Reconciled;
  }

  lemma SourceKeepsRows(w: World, e: Event)
    requires RowsInv(w) && IsSourceEvent(e) && Possible(w, e)
    ensures RowsInv(SourceStep(w, e))
  {
    hide SourceStep;
    hide Possible;
    hide JobRows;
    hide ReadyIsTrue;
    hide NoNewReady;
    SourceKeepsJobRows(w, e);
    SourceMakesNothingReady(w, e);
    NoNewReadyKeeps(w, SourceStep(w, e));
  }

  lemma MissingMakesNothingReady(t: Table, paths: set<string>, at: Stamp)
    ensures NoNewReady(t, MissingQueued(t, paths, at))
  {
  }

  lemma RecoverMakesNothingReady(t: Table, nowUs: int)
    ensures NoNewReady(t, Recovered(t, nowUs))
  {
  }

  /** The rows of the job's own part change; its row is not ready. */
  lemma PutRemoteKeepsRows(w: World, k: Key, r: Remote, phase: Phase)
    requires RowsInv(w)
    requires k in w.parts ==> w.parts[k].status != Ready || (r.live == Held(w.rows, k).live && DoomedRows(r) == 0)
    ensures forall j | j in w.parts :: ReadyIsTrue(PutRemote(w, k, r, phase), j)
  {
    hide DoomedRows;
    forall j | j in w.parts ensures ReadyIsTrue(PutRemote(w, k, r, phase), j) {
      assert ReadyIsTrue(w, j);
    }
  }

  lemma PutRowKeepsRows(w: World, k: Key, r: Row, phase: Phase)
    requires RowsInv(w)
    requires r.status == Ready ==> DoomedRows(Held(w.rows, k)) == 0 && Held(w.rows, k).live == r.insertedRows
    ensures forall j | j in PutRow(w, k, r, phase).parts :: ReadyIsTrue(PutRow(w, k, r, phase), j)
  {
    hide DoomedRows;
    hide Held;
    forall j | j in PutRow(w, k, r, phase).parts ensures ReadyIsTrue(PutRow(w, k, r, phase), j) {
      if j != k {
        assert ReadyIsTrue(w, j);
      }
    }
  }

  lemma LoadKeepsJobRows(w: World, e: Event)
    requires JobRows(w) && IsLoadEvent(e) && Possible(w, e)
    ensures JobRows(LoadStep(w, e))
  {
    if e.Insert? {
      hide Doomed;
    } else {
      hide DoomedRows;
      hide Held;
    }
  }

  lemma LoadKeepsRows(w: World, e: Event)
    requires RowsInv(w) && IsLoadEvent(e) && Possible(w, e) && AcceptsCleanly(w, e)
    ensures RowsInv(LoadStep(w, e))
  {
    hide ReadyIsTrue;
    LoadKeepsJobRows(w, e);
    var k := w.phase.key;
    var r := Held(w.rows, k);
    if e.AcceptRemote? || e.Verify? {
      PutRowKeepsRows(w, k, ReadyRow(w.parts[k], Count(r), e.nowUs), Job(k, Closing));
    } else if e.FindOtherRows? {
      PutRemoteKeepsRows(w, k, Doomed(r), Job(k, Clearing(w.phase.stage.expected)));
    } else if e.Insert? {
      PutRemoteKeepsRows(w, k, r.(live := r.live + e.count), Job(k, Sent(w.phase.stage.expected)));
    } else {
      NoNewReadyKeeps(w, LoadStep(w, e));
    }
    hide JobRows;
    hide Possible;
  }

  lemma JobKeepsRows(w: World, e: Event)
    requires RowsInv(w) && !IsSourceEvent(e) && !IsLoadEvent(e) && Possible(w, e)
    ensures RowsInv(JobStep(w, e))
  {
    hide ReadyIsTrue;
    match e
    case Claim(k, nowUs) => PutRowKeepsRows(w, k, ClaimedRow(w.parts[k], nowUs), JobStep(w, e).phase);
    case RequestDelete => PutRemoteKeepsRows(w, w.phase.key, Doomed(Held(w.rows, w.phase.key)), w.phase);
    case Mutate(k, left) => MutateKeepsRows(w, k, left);
    case Retire(nowUs) => PutRowKeepsRows(w, w.phase.key, RetiredRow(w.parts[w.phase.key], nowUs), Job(w.phase.key, Closing));
    case Release(reason, delay, nowUs) =>
      PutRowKeepsRows(w, w.phase.key, ReleasedRow(w.parts[w.phase.key], reason, delay, nowUs), Idle);
    case Fail(error, nowUs) => PutRowKeepsRows(w, w.phase.key, FailedRow(w.parts[w.phase.key], error, nowUs), Idle);
    case Recover(nowUs) => RecoverMakesNothingReady(w.parts, nowUs); NoNewReadyKeeps(w, JobStep(w, e));
    case RecordError(_) => NoNewReadyKeeps(w, JobStep(w, e));
    case Finish => NoNewReadyKeeps(w, JobStep(w, e));
    case Crash => NoNewReadyKeeps(w, JobStep(w, e));
  }

  /** A mutation removes doomed rows only. */
  lemma MutateKeepsRows(w: World, k: Key, left: nat)
    requires RowsInv(w) && Possible(w, Mutate(k, left))
    ensures RowsInv(PutRemote(w, k, Mutated(w.rows[k], left), w.phase))
  {
    if k in w.parts {
      assert ReadyIsTrue(w, k);
    }
    hide ReadyIsTrue;
    PutRemoteKeepsRows(w, k, Mutated(w.rows[k], left), w.phase);
  }

  ghost predicate CleanRun(w: World, es: seq<Event>)
    requires IsRun(w, es)
    decreases |es|
  {
    es == [] || (AcceptsCleanly(w, es[0]) && CleanRun(Step(w, es[0]), es[1..]))
  }

  lemma StepKeepsRows(w: World, e: Event)
    requires RowsInv(w) && Possible(w, e) && AcceptsCleanly(w, e)
    ensures RowsInv(Step(w, e))
  {
    hide RowsInv;
    hide Possible;
    hide AcceptsCleanly;
    hide SourceStep;
    hide LoadStep;
    hide JobStep;
    if IsSourceEvent(e) {
      SourceKeepsRows(w, e);
    } else if IsLoadEvent(e) {
      LoadKeepsRows(w, e);
    } else {
      JobKeepsRows(w, e);
    }
  }

  lemma {:induction false} RunKeepsRows(w: World, es: seq<Event>)
    requires RowsInv(w) && IsRun(w, es) && CleanRun(w, es)
    ensures RowsInv(Final(w, es))
    decreases |es|
  {
    hide RowsInv;
    hide Possible;
    hide AcceptsCleanly;
    hide Step;
    if es != [] {
      StepKeepsRows(w, es[0]);
      RunKeepsRows(Step(w, es[0]), es[1..]);
    }
  }

  /** In every run that accepts no part with an unfinished deletion, `ready` means that ClickHouse holds exactly the
      recorded number of rows, and that no mutation will change it. */
  lemma ReadyMeansRows(w: World, es: seq<Event>, k: Key)
    requires Fresh(w) && IsRun(w, es) && CleanRun(w, es)
    requires k in Final(w, es).parts && Final(w, es).parts[k].status == Ready
    ensures var v := Final(w, es);
            && Count(Held(v.rows, k)) == v.parts[k].insertedRows
            && DoomedRows(Held(v.rows, k)) == 0
  {
    RunKeepsRows(w, es);
    assert ReadyIsTrue(Final(w, es), k);
  }

  /** Accepting a part whose counters match is lasting exactly when no deletion of it is unfinished. */
  lemma AcceptExact(w: World, nowUs: int)
    requires Possible(w, AcceptRemote(nowUs)) && w.phase.key in w.rows
    ensures var v := Step(w, AcceptRemote(nowUs));
            var k := w.phase.key;
            (forall left | 0 <= left <= DoomedRows(v.rows[k]) && Possible(v, Mutate(k, left)) ::
               Count(Held(Step(v, Mutate(k, left)).rows, k)) == v.parts[k].insertedRows)
            <==> DoomedRows(Held(w.rows, k)) == 0
  {
    var v, k := Step(w, AcceptRemote(nowUs)), w.phase.key;
    assert v.rows == w.rows && v.parts[k].insertedRows == Count(w.rows[k]);
    hide LoadStep;
    hide SourceStep;
    assert Possible(v, Mutate(k, 0));
    assert Count(Held(Step(v, Mutate(k, 0)).rows, k)) == w.rows[k].live;
  }
}
