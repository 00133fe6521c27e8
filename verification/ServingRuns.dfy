/** Runs of the serving protocol from a new installation: a part is listed, loaded and served, and then each of the ways
    in which that goes wrong. */
module ServingRuns {
  import opened Select
  import opened PartStatus
  import opened Manifest
  import opened Serving
  import opened ServingProof
  import opened ServingGates

  // ---- single steps ----

  lemma {:induction false} RunSnoc(w: World, es: seq<Event>, e: Event)
    requires IsRun(w, es) && Possible(Final(w, es), e)
    ensures IsRun(w, es + [e]) && Final(w, es + [e]) == Step(Final(w, es), e)
    decreases |es|
  {
    hide Step;
    hide Possible;
    if es == [] {
      assert es + [e] == [e] && [e][1..] == [];
    } else {
      RunSnoc(Step(w, es[0]), es[1..], e);
      assert (es + [e])[0] == es[0] && (es + [e])[1..] == es[1..] + [e];
    }
  }

  lemma Extend(w: World, es: seq<Event>, v: World, e: Event) returns (more: seq<Event>, u: World)
    requires IsRun(w, es) && Final(w, es) == v && Possible(v, e)
    ensures IsRun(w, more) && Final(w, more) == u && u == Step(v, e)
  {
    hide Step;
    RunSnoc(w, es, e);
    more, u := es + [e], Step(v, e);
  }

  /** The only part is visible and ready; a full scan that ends before it queues its deletion. */
  lemma ScanQueuesDeletion(t: Table, seen: Sources, p: string, startUs: int, endUs: int, at: Stamp)
    requires seen.Keys == {p} && !InWindow(seen[p].values, startUs, endUs)
    requires var k := Key(p, seen[p].identity); t.Keys == {k} && t[k].status == Ready && t[k].values.maxUs >= startUs
    ensures InScan(seen, startUs, endUs) == map[]
    ensures var k := Key(p, seen[p].identity); Reconciled(t, seen, startUs, endUs, true, at) == map[k := SweptRow(t[k], at)]
  {
    hide SetBased;
    var k, src := Key(p, seen[p].identity), InScan(seen, startUs, endUs);
    assert src == map[];
    NothingListed(t, at);
    assert ListedKeys(src) == {};
    hide ListedKeys;
    SweptAt(t, {}, startUs, at, k);
    var u := Manifest.Swept(t, {}, startUs, at);
    assert u.Keys == {k};
    hide Manifest.Swept;
  }

  lemma AfterSweep(v: World, at: Stamp)
    requires v.phase.Scanned? && v.phase.full
    ensures Possible(v, Sweep(at))
    ensures var ph := v.phase;
            Step(v, Sweep(at)) == v.(
              parts := Reconciled(v.parts, ph.seen, ph.startUs, ph.endUs, true, at),
              state := ReconcileState(at.generation, ph.startUs, ph.endUs, |ph.seen|, |InScan(ph.seen, ph.startUs, ph.endUs)|,
                                      at.nowUs, ""),
              phase := Swept(AllArchived(ph.seen, ph.startUs, ph.endUs)))
  {
  }

  lemma AfterClaim(v: World, k: Key, nowUs: int)
    requires v.phase.Idle? && k in v.parts && Claimable(v.parts[k], nowUs)
    ensures Possible(v, Claim(k, nowUs))
    ensures Step(v, Claim(k, nowUs)) ==
              v.(parts := v.parts[k := ClaimedRow(v.parts[k], nowUs)],
                 phase := Job(k, if ActiveDelete(v.parts[k].status) then Delete else Load))
  {
  }

  lemma AfterRequestDelete(v: World, k: Key)
    requires v.phase == Job(k, Delete)
    ensures Possible(v, RequestDelete)
    ensures Step(v, RequestDelete) == v.(rows := v.rows[k := Doomed(Held(v.rows, k))])
  {
    hide Doomed;
    hide Held;
  }

  lemma AfterMutate(v: World, k: Key)
    requires k in v.rows
    ensures Possible(v, Mutate(k, 0))
    ensures Step(v, Mutate(k, 0)) == v.(rows := v.rows[k := Mutated(v.rows[k], 0)])
  {
  }

  lemma AfterRetire(v: World, k: Key, nowUs: int)
    requires v.phase == Job(k, Delete) && k in v.parts && Count(Held(v.rows, k)) == 0
    ensures Possible(v, Retire(nowUs))
    ensures Step(v, Retire(nowUs)) == v.(parts := v.parts[k := RetiredRow(v.parts[k], nowUs)], phase := Job(k, Closing))
  {
    hide Held;
    hide Count;
  }

  /** Two requested deletions, each run to its end, leave no row. */
  lemma DeleteAll(w: World, es: seq<Event>, v: World, k: Key) returns (more: seq<Event>, u: World)
    requires IsRun(w, es) && Final(w, es) == v && v.phase == Job(k, Delete)
    ensures IsRun(w, more) && Final(w, more) == u && u == v.(rows := u.rows) && Count(Held(u.rows, k)) == 0
  {
    hide Step;
    hide Possible;
    hide IsRun;
    hide Final;
    AfterRequestDelete(v, k);
    more, u := Extend(w, es, v, RequestDelete);
    AfterMutate(u, k);
    more, u := Extend(w, more, u, Mutate(k, 0));
    AfterRequestDelete(u, k);
    more, u := Extend(w, more, u, RequestDelete);
    AfterMutate(u, k);
    more, u := Extend(w, more, u, Mutate(k, 0));
  }

  lemma AfterFinish(v: World, k: Key)
    requires v.phase == Job(k, Closing)
    ensures Possible(v, Finish) && Step(v, Finish) == v.(phase := Idle)
  {
  }

  /** Scan, sweep, and the note that tracking is complete. */
  lemma RunScan(w: World, p: string, startUs: int, endUs: int, at: Stamp) returns (es: seq<Event>, v: World)
    requires w.complete && w.phase.Idle?
    ensures IsRun(w, es) && Final(w, es) == v
    ensures v.parts == Reconciled(w.parts, w.source, startUs, endUs, true, at) && v.phase.Idle?
    ensures v.source == w.source && v.queue == w.queue && v.complete
    ensures v.state.completedAtUs == at.nowUs && v.state.lastError == ""
  {
    hide *;
    es := [];
    EmptyRun(w);
    AfterScan(w, startUs, endUs);
    es, v := Extend(w, es, w, Scan(startUs, endUs, true));
    AfterSweep(v, at);
    es, v := Extend(w, es, v, Sweep(at));
    AfterMarkComplete(v);
    es, v := Extend(w, es, v, MarkComplete);
  }

  lemma EmptyRun(w: World)
    ensures IsRun(w, []) && Final(w, []) == w
  {
  }

  lemma AfterScan(w: World, startUs: int, endUs: int)
    requires w.phase.Idle?
    ensures Possible(w, Scan(startUs, endUs, true))
    ensures Step(w, Scan(startUs, endUs, true)) == w.(phase := Scanned(w.source, startUs, endUs, true))
  {
  }

  lemma AfterMarkComplete(v: World)
    requires v.phase.Swept?
    ensures Possible(v, MarkComplete)
    ensures Step(v, MarkComplete) == v.(complete := v.complete || v.phase.clean, phase := Idle)
  {
  }

  /** A queued deletion is claimed, run and retired. */
  lemma RunDeletion(w: World, es: seq<Event>, v: World, k: Key, nowUs: int) returns (more: seq<Event>, u: World)
    requires IsRun(w, es) && Final(w, es) == v && v.phase.Idle?
    requires k in v.parts && v.parts[k].status == DeletePending && v.parts[k].nextRetryUs <= nowUs
    ensures IsRun(w, more) && Final(w, more) == u
    ensures k in u.parts && u.parts[k].status == Retired
    ensures u == v.(parts := v.parts[k := u.parts[k]], rows := u.rows)
  {
    hide Step;
    hide Possible;
    hide IsRun;
    hide Final;
    hide Held;
    hide Count;
    hide ClaimedRow;
    AfterClaim(v, k, nowUs);
    more, u := Extend(w, es, v, Claim(k, nowUs));
    more, u := DeleteAll(w, more, u, k);
    AfterRetire(u, k, nowUs);
    more, u := Extend(w, more, u, Retire(nowUs));
    AfterFinish(u, k);
    more, u := Extend(w, more, u, Finish);
  }

  lemma AfterChange(v: World, p: string, part: Option<SourcePart>)
    requires Enqueues(Get(v.source, p), part)
    ensures Possible(v, ChangeSource(p, part))
    ensures var u := Step(v, ChangeSource(p, part));
            && u == v.(source := u.source, version := v.version + 1, queue := v.queue[p := v.version + 1])
            && Get(u.source, p) == part && (part.Some? ==> u.source == v.source[p := part.value])
  {
  }

  lemma AfterReadPage(v: World, p: string)
    requires v.phase.Idle? && v.queue.Keys == {p}
    ensures Possible(v, ReadPage({p}))
    ensures Step(v, ReadPage({p})) == v.(phase := Paged(map[p := Entry(v.queue[p], Get(v.source, p))]))
  {
    assert PageOf(v, {p}) == map[p := Entry(v.queue[p], Get(v.source, p))];
  }

  lemma OneEligible(p: string, e: Entry)
    ensures EligibleOf(map[p := e]) == if Eligible(e.seen) then map[p := AsSource(p, e.seen.value)] else map[]
  {
  }

  lemma AfterMerge(v: World, p: string, e: Entry, at: Stamp)
    requires v.phase == Paged(map[p := e])
    ensures Possible(v, Merge(at))
    ensures var src := if Eligible(e.seen) then map[p := AsSource(p, e.seen.value)] else map[];
            && WellKeyed(src)
            && Step(v, Merge(at)) == v.(
                 parts := SetBased(v.parts, src, at), phase := Merged(map[p := e]),
                 state := if Eligible(e.seen) then v.state.(generation := at.generation, lastError := "") else v.state)
  {
    OneEligible(p, e);
    assert Eligible(e.seen) ==> p in EligibleOf(map[p := e]);
    hide EligibleOf;
    hide SetBased;
    assert Step(v, Merge(at)) == SourceStep(v, Merge(at));
  }

  lemma AfterQueueRemoved(v: World, p: string, e: Entry, at: Stamp)
    requires v.phase == Merged(map[p := e])
    ensures Possible(v, QueueRemoved(at))
    ensures Step(v, QueueRemoved(at)) == v.(
              parts := MissingQueued(v.parts, if Visible(e.seen) then {} else {p}, at), phase := Handed(map[p := e]))
  {
    assert RemovedOf(map[p := e]) == if Visible(e.seen) then {} else {p};
    hide MissingQueued;
  }

  lemma AfterAcknowledge(v: World, p: string, e: Entry)
    requires v.phase == Handed(map[p := e]) && v.queue == map[p := e.version] && Acknowledges(e)
    ensures Possible(v, Acknowledge) && Step(v, Acknowledge) == v.(queue := map[], phase := Idle)
  {
  }

  lemma AfterReadSource(v: World, k: Key)
    requires v.phase == Job(k, Load) && Current(v, k) && v.source[k.path].archived
    ensures Possible(v, ReadSource)
    ensures Step(v, ReadSource) == v.(phase := Job(k, Checked(v.source[k.path].values.rowCount)))
  {
  }

  lemma AfterFindNoRows(v: World, k: Key, n: int)
    requires v.phase == Job(k, Checked(n)) && Count(Held(v.rows, k)) == 0
    ensures Possible(v, FindNoRows) && Step(v, FindNoRows) == v.(phase := Job(k, Cleared(n)))
  {
    hide Count;
    hide Held;
  }

  lemma AfterReadSourceAgain(v: World, k: Key, n: int)
    requires v.phase == Job(k, Cleared(n)) && Current(v, k)
    ensures Possible(v, ReadSourceAgain) && Step(v, ReadSourceAgain) == v.(phase := Job(k, Confirmed(n)))
  {
  }

  lemma AfterInsert(v: World, k: Key, n: int, count: nat)
    requires v.phase == Job(k, Confirmed(n))
    ensures Possible(v, Insert(count))
    ensures Step(v, Insert(count)) ==
              v.(rows := v.rows[k := Held(v.rows, k).(live := Held(v.rows, k).live + count)], phase := Job(k, Sent(n)))
  {
    hide Held;
  }

  lemma AfterVerify(v: World, k: Key, n: int, nowUs: int)
    requires v.phase == Job(k, Sent(n)) && CanBeReady(v, k, n)
    ensures Possible(v, Verify(nowUs))
    ensures Step(v, Verify(nowUs)) ==
              v.(parts := v.parts[k := ReadyRow(v.parts[k], Count(Held(v.rows, k)), nowUs)], phase := Job(k, Closing))
  {
    hide Count;
    hide Held;
  }

  lemma AfterAccept(v: World, k: Key, n: int, nowUs: int)
    requires v.phase == Job(k, Checked(n)) && CanBeReady(v, k, n)
    ensures Possible(v, AcceptRemote(nowUs))
    ensures Step(v, AcceptRemote(nowUs)) ==
              v.(parts := v.parts[k := ReadyRow(v.parts[k], Count(Held(v.rows, k)), nowUs)], phase := Job(k, Closing))
  {
    hide Count;
    hide Held;
  }

  lemma AfterPause(v: World, reason: string, delay: int, nowUs: int)
    requires v.phase.Job? && v.phase.key in v.parts
    ensures Possible(v, Release(reason, delay, nowUs))
    ensures Step(v, Release(reason, delay, nowUs)) ==
              v.(parts := v.parts[v.phase.key := ReleasedRow(v.parts[v.phase.key], reason, delay, nowUs)], phase := Idle)
  {
  }

  // ---- a table of one row ----

  lemma OneListed(t: Table, k: Key, src: Source, at: Stamp)
    requires t.Keys <= {k} && KeyOf(src) == k && src.identity != ""
    ensures WellKeyed(map[k.path := src])
    ensures SetBased(t, map[k.path := src], at) == map[k := Upserted(t, src, at)]
  {
    var m := map[k.path := src];
    var u := SetBased(t, m, at);
    hide SetBased;
    hide Upserted;
    forall j ensures j in u <==> j == k {
      SetBasedAt(t, m, at, j);
    }
    SetBasedAt(t, m, at, k);
  }

  lemma OneMissing(k: Key, r: Row, at: Stamp)
    requires k.path != "" && r.status == Ready
    ensures MissingQueued(map[k := r], {k.path}, at) == map[k := Replaced(r, at)]
    ensures MissingQueued(map[k := r], {}, at) == map[k := r]
  {
  }

  lemma NoneMissing(t: Table, at: Stamp)
    ensures MissingQueued(t, {}, at) == t
  {
  }

  lemma OneSwept(k: Key, r: Row, startUs: int, at: Stamp)
    ensures Manifest.Swept(map[k := r], {k}, startUs, at) == map[k := r]
  {
  }

  /** A scan that takes in the only part lists it. */
  lemma OneScanned(t: Table, k: Key, part: SourcePart, startUs: int, endUs: int, at: Stamp)
    requires t.Keys <= {k} && part.identity == k.identity && Eligible(Some(part)) && InWindow(part.values, startUs, endUs)
    ensures Reconciled(t, map[k.path := part], startUs, endUs, true, at) == map[k := Upserted(t, AsSource(k.path, part), at)]
    ensures AllArchived(map[k.path := part], startUs, endUs)
  {
    hide Manifest.Swept;
    hide SetBased;
    hide Upserted;
    hide ListedKeys;
    hide InScan;
    hide WellKeyed;
    var seen, src := map[k.path := part], AsSource(k.path, part);
    OneInScan(k, part, startUs, endUs);
    OneListed(t, k, src, at);
    OneKey(k, src);
    OneSwept(k, Upserted(t, src, at), startUs, at);
  }

  lemma OneInScan(k: Key, part: SourcePart, startUs: int, endUs: int)
    requires Eligible(Some(part)) && InWindow(part.values, startUs, endUs)
    ensures InScan(map[k.path := part], startUs, endUs) == map[k.path := AsSource(k.path, part)]
    ensures AllArchived(map[k.path := part], startUs, endUs)
  {
  }

  lemma OneKey(k: Key, src: Source)
    requires KeyOf(src) == k
    ensures ListedKeys(map[k.path := src]) == {k}
  {
    var m := map[k.path := src];
    assert k.path in m && KeyOf(m[k.path]) == k;
  }

  // ---- stretches of a run ----

  /** A worker at rest over a source with one part, its row, and nothing else. */
  predicate AtRest(v: World, p: string, part: SourcePart, r: Row, rows: map<Key, Remote>) {
    && v.source == map[p := part] && v.parts == map[Key(p, part.identity) := r] && v.rows == rows
    && v.queue == map[] && v.complete && v.state.completedAtUs != 0 && v.state.lastError == "" && v.phase == Idle
  }

  /** The only queued path is handed to the manifest and acknowledged. */
  lemma HandOver(w: World, es: seq<Event>, v: World, p: string, at: Stamp) returns (more: seq<Event>, u: World)
    requires IsRun(w, es) && Final(w, es) == v && v.phase == Idle && v.queue.Keys == {p}
    requires var seen := Get(v.source, p); Eligible(seen) || !Visible(seen)
    ensures IsRun(w, more) && Final(w, more) == u
    ensures var seen := Get(v.source, p);
            && (Eligible(seen) ==> WellKeyed(map[p := AsSource(p, seen.value)]))
            && u == v.(
                 parts := if Eligible(seen) then SetBased(v.parts, map[p := AsSource(p, seen.value)], at)
                          else MissingQueued(v.parts, {p}, at),
                 state := if Eligible(seen) then v.state.(generation := at.generation, lastError := "") else v.state,
                 queue := map[], phase := Idle)
  {
    var seen := Get(v.source, p);
    var e := Entry(v.queue[p], seen);
    assert v.queue == map[p := e.version];
    NothingListed(v.parts, at);
    hide IsRun;
    hide Final;
    hide Step;
    hide Possible;
    hide SetBased;
    hide MissingQueued;
    AfterReadPage(v, p);
    more, u := Extend(w, es, v, ReadPage({p}));
    AfterMerge(u, p, e, at);
    more, u := Extend(w, more, u, Merge(at));
    AfterQueueRemoved(u, p, e, at);
    NoneMissing(u.parts, at);
    more, u := Extend(w, more, u, QueueRemoved(at));
    AfterAcknowledge(u, p, e);
    more, u := Extend(w, more, u, Acknowledge);
  }

  function New(): World { World(map[], map[], 0, false, map[], ReconcileState(0, 0, 0, 0, 0, 0, ""), map[], Idle) }

  predicate Servable(p: string, part: SourcePart) {
    p != "" && part.identity != "" && part.visible && part.archived && part.values.rowCount > 0
  }

  /** A part appears, is handed over, and the first full scan completes the tracking. */
  lemma ListFirst(p: string, part: SourcePart, startUs: int, endUs: int, at: Stamp) returns (es: seq<Event>, v: World, r: Row)
    requires Servable(p, part) && InWindow(part.values, startUs, endUs) && at.nowUs > 0
    ensures IsRun(New(), es) && Final(New(), es) == v && AtRest(v, p, part, r, map[])
    ensures r.status == Pending && r.nextRetryUs == 0 && r.values == part.values
  {
    hide IsRun;
    hide Step;
    hide SetBased;
    hide Reconciled;
    hide AllArchived;
    var k, src := Key(p, part.identity), AsSource(p, part);
    EmptyRun(New());
    AfterChange(New(), p, Some(part));
    es, v := Extend(New(), [], New(), ChangeSource(p, Some(part)));
    assert v.source == map[p := part] && v.queue == map[p := 1];
    r := NewRow(src, at);
    OneListed(map[], k, src, at);
    assert Upserted(map[], src, at) == r && Upserted(map[k := r], src, at) == r;
    OneScanned(map[k := r], k, part, startUs, endUs, at);
    hide Final;
    hide Possible;
    hide Upserted;
    es, v := HandOver(New(), es, v, p, at);
    assert v.parts == map[k := r];
    AfterScan(v, startUs, endUs);
    es, v := Extend(New(), es, v, Scan(startUs, endUs, true));
    AfterSweep(v, at);
    es, v := Extend(New(), es, v, Sweep(at));
    AfterMarkComplete(v);
    es, v := Extend(New(), es, v, MarkComplete);
  }

  /** A load is claimed and finds its rows gone. */
  lemma ClaimPart(w: World, es: seq<Event>, v: World, p: string, part: SourcePart, r: Row, rows: map<Key, Remote>, nowUs: int)
    returns (more: seq<Event>, u: World, s: Row)
    requires IsRun(w, es) && Final(w, es) == v && AtRest(v, p, part, r, rows) && part.archived
    requires r.status == Pending && r.nextRetryUs <= nowUs
    ensures IsRun(w, more) && Final(w, more) == u
    ensures var k := Key(p, part.identity);
            u == v.(parts := map[k := s], phase := Job(k, Checked(part.values.rowCount)))
    ensures s == ClaimedRow(r, nowUs) && s.status == Loading && s.values == r.values
  {
    var k := Key(p, part.identity);
    s := ClaimedRow(r, nowUs);
    assert v.parts[k] == r && Claimable(r, nowUs);
    assert map[k := r][k := s] == map[k := s];
    hide IsRun;
    hide Final;
    hide Step;
    hide Possible;
    hide ClaimedRow;
    AfterClaim(v, k, nowUs);
    more, u := Extend(w, es, v, Claim(k, nowUs));
    AfterReadSource(u, k);
    more, u := Extend(w, more, u, ReadSource);
  }

  /** A claimed load goes as far as its INSERT. */
  lemma SendPart(w: World, es: seq<Event>, v: World, p: string, part: SourcePart, r: Row, rows: map<Key, Remote>, nowUs: int)
    returns (more: seq<Event>, u: World, s: Row)
    requires IsRun(w, es) && Final(w, es) == v && AtRest(v, p, part, r, rows) && part.archived && part.values.rowCount > 0
    requires var k := Key(p, part.identity); Count(Held(rows, k)) == 0
    requires r.status == Pending && r.nextRetryUs <= nowUs
    ensures IsRun(w, more) && Final(w, more) == u
    ensures var k := Key(p, part.identity);
            && u == v.(parts := map[k := s], rows := rows[k := Remote(part.values.rowCount, Held(rows, k).doomed)],
                       phase := Job(k, Sent(part.values.rowCount)))
            && s == ClaimedRow(r, nowUs) && s.status == Loading && s.values == r.values && Count(u.rows[k]) == part.values.rowCount
  {
    hide Final;
    hide Step;
    hide Possible;
    var k, n := Key(p, part.identity), part.values.rowCount;
    more, u, s := ClaimPart(w, es, v, p, part, r, rows, nowUs);
    var sent := Remote(n, Held(rows, k).doomed);
    assert Held(rows, k).live == 0 && Held(rows, k).(live := Held(rows, k).live + n) == sent && Count(sent) == n;
    assert Current(v, k);
    hide IsRun;
    hide ClaimedRow;
    hide Held;
    hide Count;
    AfterFindNoRows(u, k, n);
    more, u := Extend(w, more, u, FindNoRows);
    AfterReadSourceAgain(u, k, n);
    more, u := Extend(w, more, u, ReadSourceAgain);
    AfterInsert(u, k, n, n);
    more, u := Extend(w, more, u, Insert(n));
  }

  /** And on to its verification. */
  lemma LoadPart(w: World, es: seq<Event>, v: World, p: string, part: SourcePart, r: Row, rows: map<Key, Remote>, nowUs: int)
    returns (more: seq<Event>, u: World, s: Row)
    requires IsRun(w, es) && Final(w, es) == v && AtRest(v, p, part, r, rows) && part.archived && part.values.rowCount > 0
    requires var k := Key(p, part.identity); Count(Held(rows, k)) == 0
    requires r.status == Pending && r.nextRetryUs <= nowUs
    ensures IsRun(w, more) && Final(w, more) == u
    ensures var k, n := Key(p, part.identity), part.values.rowCount;
            && AtRest(u, p, part, s, rows[k := Remote(n, Held(rows, k).doomed)])
            && s.status == Ready && s.insertedRows == n && s.values == r.values && Count(u.rows[k]) == n
  {
    var k, n := Key(p, part.identity), part.values.rowCount;
    more, u, s := SendPart(w, es, v, p, part, r, rows, nowUs);
    var ready := ReadyRow(s, n, nowUs);
    assert map[k := s][k := ready] == map[k := ready];
    assert CanBeReady(u, k, n);
    hide IsRun;
    hide Final;
    hide Step;
    hide Possible;
    hide CanBeReady;
    AfterVerify(u, k, n, nowUs);
    more, u := Extend(w, more, u, Verify(nowUs));
    AfterFinish(u, k);
    more, u := Extend(w, more, u, Finish);
    s := ready;
  }

  /** A new installation serves its first part. */
  lemma ServeFirst(p: string, part: SourcePart, startUs: int, endUs: int, at: Stamp)
    returns (es: seq<Event>, v: World, r: Row)
    requires Servable(p, part) && InWindow(part.values, startUs, endUs) && at.nowUs > 0
    ensures IsRun(New(), es) && Final(New(), es) == v
    ensures var k, n := Key(p, part.identity), part.values.rowCount;
            && AtRest(v, p, part, r, map[k := Remote(n, None)])
            && r.status == Ready && r.insertedRows == n && r.values == part.values
    ensures GlobalGateOf(v) && AllCovered(v)
  {
    es, v, r := ListFirst(p, part, startUs, endUs, at);
    es, v, r := LoadPart(New(), es, v, p, part, r, map[], at.nowUs);
    hide IsRun;
    hide Final;
    hide New;
    assert map[][Key(p, part.identity) := Remote(part.values.rowCount, None)] == v.rows;
  }

  /** The part is hidden, and its row queued for deletion. */
  lemma HidePart(w: World, es: seq<Event>, v: World, p: string, part: SourcePart, r: Row, rows: map<Key, Remote>, at: Stamp)
    returns (more: seq<Event>, u: World, s: Row)
    requires IsRun(w, es) && Final(w, es) == v && AtRest(v, p, part, r, rows) && Servable(p, part) && r.status == Ready
    ensures IsRun(w, more) && Final(w, more) == u && AtRest(u, p, part.(visible := false), s, rows)
    ensures s.status == DeletePending && s.nextRetryUs == 0 && s.values == r.values
  {
    var k, gone := Key(p, part.identity), part.(visible := false);
    s := Replaced(r, at);
    OneMissing(k, r, at);
    AfterChange(v, p, Some(gone));
    hide IsRun;
    hide Final;
    hide Step;
    hide Possible;
    hide MissingQueued;
    hide Replaced;
    assert map[p := part][p := gone] == map[p := gone];
    more, u := Extend(w, es, v, ChangeSource(p, Some(gone)));
    assert u.queue == map[p := v.version + 1];
    more, u := HandOver(w, more, u, p, at);
  }

  lemma CoveredIsReady(w: World, p: string)
    requires AllCovered(w) && p in w.source && w.source[p].visible
    ensures var k := Key(p, w.source[p].identity); k in w.parts && w.parts[k].status == Ready
  {
    assert Covered(w.parts, AsSource(p, w.source[p]));
  }

  /** Retired rows do not keep the gate closed. */
  lemma RetiredRowOpensTheGate(v: World, p: string)
    requires v.complete && v.queue == map[] && v.state.completedAtUs != 0 && v.state.lastError == ""
    requires p in v.source && v.source[p].visible
    requires var k := Key(p, v.source[p].identity); v.parts.Keys == {k} && v.parts[k].status == Retired
    ensures GlobalGateOf(v) && !AllCovered(v)
  {
    assert !Covered(v.parts, AsSource(p, v.source[p]));
  }

  lemma NotOverlapping(v: Values, startUs: int, endUs: int)
    requires v.minUs > endUs
    ensures !InWindow(v, startUs, endUs)
  {
  }

  lemma SweptIsQueued(r: Row, at: Stamp, nowUs: int)
    requires r.status == Ready && nowUs >= 0
    ensures SweptRow(r, at).status == DeletePending && SweptRow(r, at).nextRetryUs <= nowUs
  {
  }

  /** A part that was loaded and acknowledged, newer than the end of the next full scan: the scan has it deleted, no
      queued change brings it back, and the gate opens again without it. */
  lemma MissedPartOpensTheGate(w: World, p: string, startUs: int, endUs: int, at: Stamp) returns (es: seq<Event>)
    requires w.complete && w.queue == map[] && w.phase.Idle? && GlobalGateOf(w) && AllCovered(w) && at.nowUs > 0
    requires w.source.Keys == {p} && w.source[p].visible && w.source[p].values.minUs > endUs
    requires var k := Key(p, w.source[p].identity); w.parts.Keys == {k} && w.parts[k].values.maxUs >= startUs
    ensures IsRun(w, es) && GlobalGateOf(Final(w, es)) && !AllCovered(Final(w, es))
  {
    hide *;
    var k := Key(p, w.source[p].identity);
    CoveredIsReady(w, p);
    NotOverlapping(w.source[p].values, startUs, endUs);
    SweptIsQueued(w.parts[k], at, at.nowUs);
    var v: World;
    es, v := RunScan(w, p, startUs, endUs, at);
    ScanQueuesDeletion(w.parts, w.source, p, startUs, endUs, at);
    es, v := RunDeletion(w, es, v, k, at.nowUs);
    RetiredRowOpensTheGate(v, p);
  }

  // ---- a scan that ends too early ----

  /** A new installation serves a part; a later full scan that ends before it has it deleted, and the gate opens again
      without it. */
  lemma MissedPartRun(p: string, part: SourcePart, startUs: int, endUs: int, at: Stamp, laterUs: int, earlyUs: int, later: Stamp)
    returns (es: seq<Event>)
    requires Servable(p, part) && InWindow(part.values, startUs, endUs) && at.nowUs > 0 && later.nowUs > 0
    requires part.values.minUs > earlyUs && part.values.maxUs >= laterUs
    ensures IsRun(New(), es) && GlobalGateOf(Final(New(), es)) && !AllCovered(Final(New(), es))
  {
    var first, v, r := ServeFirst(p, part, startUs, endUs, at);
    hide IsRun;
    hide Final;
    hide GlobalGateOf;
    hide AllCovered;
    hide New;
    var rest := MissedPartOpensTheGate(v, p, laterUs, earlyUs, later);
    RunConcat(New(), first, rest);
    es := first + rest;
  }

  lemma {:induction false} RunConcat(w: World, a: seq<Event>, b: seq<Event>)
    requires IsRun(w, a) && IsRun(Final(w, a), b)
    ensures IsRun(w, a + b) && Final(w, a + b) == Final(Final(w, a), b)
    decreases |a|
  {
    hide Step;
    hide Possible;
    if a == [] {
      assert a + b == b;
    } else {
      RunConcat(Step(w, a[0]), a[1..], b);
      assert (a + b)[0] == a[0] && (a + b)[1..] == a[1..] + b;
    }
  }

  // ---- a part accepted while its rows are still being deleted ----

  /** The part is hidden, its deletion requested and paused; it appears again before a row is gone, its counters match,
      and it is accepted as loaded. Then the deletion ends: the gate is open, the row says ready, and no row is left. */
  lemma AcceptedPartLosesItsRows(p: string, part: SourcePart, startUs: int, endUs: int, at: Stamp)
    returns (es: seq<Event>, v: World)
    requires Servable(p, part) && InWindow(part.values, startUs, endUs) && at.nowUs > 0
    ensures IsRun(New(), es) && Final(New(), es) == v && GlobalGateOf(v) && AllCovered(v)
    ensures var k := Key(p, part.identity);
            && k in v.parts && v.parts[k].status == Ready && v.parts[k].insertedRows == part.values.rowCount > 0
            && Count(Held(v.rows, k)) == 0
  {
    var r: Row;
    es, v, r := ServeFirst(p, part, startUs, endUs, at);
    es, v, r := PauseDeletion(New(), es, v, p, part, r, at);
    es, v, r := ShowAgain(New(), es, v, p, part, r, v.rows, at);
    es, v := AcceptAndErase(New(), es, v, p, part, r, at);
  }

  lemma PauseDeletion(w: World, es: seq<Event>, v: World, p: string, part: SourcePart, r: Row, at: Stamp)
    returns (more: seq<Event>, u: World, s: Row)
    requires IsRun(w, es) && Final(w, es) == v && Servable(p, part) && r.status == Ready && r.values == part.values
    requires at.nowUs > 0
    requires AtRest(v, p, part, r, map[Key(p, part.identity) := Remote(part.values.rowCount, None)])
    ensures IsRun(w, more) && Final(w, more) == u
    ensures AtRest(u, p, part.(visible := false), s, map[Key(p, part.identity) := Remote(0, Some(part.values.rowCount))])
    ensures s.status == DeletePending && s.values == part.values
  {
    hide IsRun;
    hide Final;
    hide Step;
    hide Possible;
    var k, gone := Key(p, part.identity), part.(visible := false);
    var rows := v.rows;
    more, u, s := HidePart(w, es, v, p, part, r, rows, at);
    var claimed := ClaimedRow(s, at.nowUs);
    var put := ReleasedRow(claimed, "", 0, at.nowUs);
    assert put.status == DeletePending && put.values == part.values;
    assert u.parts[k] == s && Claimable(s, at.nowUs);
    assert map[k := s][k := claimed] == map[k := claimed] && map[k := claimed][k := put] == map[k := put];
    assert Doomed(Held(rows, k)) == Remote(0, Some(part.values.rowCount));
    assert rows[k := Remote(0, Some(part.values.rowCount))] == map[k := Remote(0, Some(part.values.rowCount))];
    hide ClaimedRow;
    hide ReleasedRow;
    hide Held;
    hide Doomed;
    AfterClaim(u, k, at.nowUs);
    more, u := Extend(w, more, u, Claim(k, at.nowUs));
    AfterRequestDelete(u, k);
    more, u := Extend(w, more, u, RequestDelete);
    AfterPause(u, "", 0, at.nowUs);
    more, u := Extend(w, more, u, Release("", 0, at.nowUs));
    s := put;
  }

  /** The hidden part appears again, and its row returns to the load queue. */
  lemma ShowAgain(w: World, es: seq<Event>, v: World, p: string, part: SourcePart, r: Row, rows: map<Key, Remote>, at: Stamp)
    returns (more: seq<Event>, u: World, s: Row)
    requires IsRun(w, es) && Final(w, es) == v && Servable(p, part)
    requires AtRest(v, p, part.(visible := false), r, rows) && r.status == DeletePending && r.values == part.values
    ensures IsRun(w, more) && Final(w, more) == u && AtRest(u, p, part, s, rows)
    ensures s.status == Pending && s.nextRetryUs == 0 && s.values == part.values
  {
    hide IsRun;
    hide Final;
    hide SetBased;
    var k, src := Key(p, part.identity), AsSource(p, part);
    OneListed(map[k := r], k, src, at);
    s := Upserted(map[k := r], src, at);
    assert s == UpdatedRow(r, src, at);
    AfterChange(v, p, Some(part));
    hide Step;
    hide Possible;
    hide Upserted;
    hide UpdatedRow;
    assert map[p := part.(visible := false)][p := part] == map[p := part];
    more, u := Extend(w, es, v, ChangeSource(p, Some(part)));
    assert u.queue == map[p := v.version + 1];
    more, u := HandOver(w, more, u, p, at);
  }

  lemma AcceptAndErase(w: World, es: seq<Event>, v: World, p: string, part: SourcePart, r: Row, at: Stamp)
    returns (more: seq<Event>, u: World)
    requires IsRun(w, es) && Final(w, es) == v && Servable(p, part) && at.nowUs > 0
    requires AtRest(v, p, part, r, map[Key(p, part.identity) := Remote(0, Some(part.values.rowCount))])
    requires r.status == Pending && r.nextRetryUs == 0 && r.values == part.values
    ensures IsRun(w, more) && Final(w, more) == u && GlobalGateOf(u) && AllCovered(u)
    ensures var k := Key(p, part.identity);
            && k in u.parts && u.parts[k].status == Ready && u.parts[k].insertedRows == part.values.rowCount
            && Count(Held(u.rows, k)) == 0
  {
    hide IsRun;
    hide Final;
    hide Step;
    hide Possible;
    var k, n, rows := Key(p, part.identity), part.values.rowCount, v.rows;
    var s: Row;
    more, u, s := ClaimPart(w, es, v, p, part, r, rows, at.nowUs);
    var ready := ReadyRow(s, n, at.nowUs);
    assert CanBeReady(u, k, n) && Count(Held(rows, k)) == n;
    assert map[k := s][k := ready] == map[k := ready];
    assert rows[k := Mutated(rows[k], 0)] == map[k := Remote(0, None)];
    hide ReadyRow;
    AfterAccept(u, k, n, at.nowUs);
    more, u := Extend(w, more, u, AcceptRemote(at.nowUs));
    AfterFinish(u, k);
    more, u := Extend(w, more, u, Finish);
    AfterMutate(u, k);
    more, u := Extend(w, more, u, Mutate(k, 0));
  }

  // ---- a hidden part revived ----

  /** The part is hidden and its row retired; a pause in the last probes puts the row back into the load queue, where the
      part is found without regard to its visibility: it is loaded and served, hidden as it is, with the gate open. */
  lemma RevivedPartIsServed(p: string, part: SourcePart, startUs: int, endUs: int, at: Stamp) returns (es: seq<Event>, v: World)
    requires Servable(p, part) && InWindow(part.values, startUs, endUs) && at.nowUs > 0
    ensures IsRun(New(), es) && Final(New(), es) == v && GlobalGateOf(v)
    ensures var k := Key(p, part.identity); k in v.parts && v.parts[k].status == Ready && !IsVisible(v, k)
  {
    var r: Row;
    var gone := part.(visible := false);
    es, v, r := ServeFirst(p, part, startUs, endUs, at);
    es, v, r := HidePart(New(), es, v, p, part, r, v.rows, at);
    es, v, r := RetireAndPause(New(), es, v, p, gone, r, at);
    es, v, r := LoadPart(New(), es, v, p, gone, r, v.rows, at.nowUs);
  }

  lemma RetireAndPause(w: World, es: seq<Event>, v: World, p: string, gone: SourcePart, r: Row, at: Stamp)
    returns (more: seq<Event>, u: World, s: Row)
    requires IsRun(w, es) && Final(w, es) == v && at.nowUs > 0 && gone.values.rowCount > 0
    requires AtRest(v, p, gone, r, map[Key(p, gone.identity) := Remote(gone.values.rowCount, None)])
    requires r.status == DeletePending && r.nextRetryUs == 0
    ensures IsRun(w, more) && Final(w, more) == u
    ensures AtRest(u, p, gone, s, map[Key(p, gone.identity) := Remote(0, None)])
    ensures s.status == Pending && s.nextRetryUs <= at.nowUs && s.values == r.values
  {
    hide IsRun;
    hide Step;
    var k, n, rows := Key(p, gone.identity), gone.values.rowCount, v.rows;
    var claimed := ClaimedRow(r, at.nowUs);
    var retired := RetiredRow(claimed, at.nowUs);
    s := ReleasedRow(retired, "", 0, at.nowUs);
    assert Claimable(r, at.nowUs) && map[k := r][k := claimed] == map[k := claimed];
    assert map[k := claimed][k := retired] == map[k := retired] && map[k := retired][k := s] == map[k := s];
    assert Doomed(Held(rows, k)) == Remote(0, Some(n));
    assert rows[k := Remote(0, Some(n))][k := Remote(0, None)] == map[k := Remote(0, None)];
    assert Mutated(Remote(0, Some(n)), 0) == Remote(0, None) && Count(Remote(0, None)) == 0;
    hide Final;
    hide Possible;
    hide ClaimedRow;
    hide RetiredRow;
    hide ReleasedRow;
    hide Doomed;
    hide Mutated;
    hide Count;
    AfterClaim(v, k, at.nowUs);
    more, u := Extend(w, es, v, Claim(k, at.nowUs));
    AfterRequestDelete(u, k);
    more, u := Extend(w, more, u, RequestDelete);
    AfterMutate(u, k);
    more, u := Extend(w, more, u, Mutate(k, 0));
    AfterRetire(u, k, at.nowUs);
    more, u := Extend(w, more, u, Retire(at.nowUs));
    AfterPause(u, "", 0, at.nowUs);
    more, u := Extend(w, more, u, Release("", 0, at.nowUs));
  }

  // ---- a load overtaken by the source ----

  /** The source's part is replaced between the INSERT and its verification: the row of the old part becomes ready all the
      same. Its path is queued, and the gate stays closed. */
  lemma OvertakenLoadBecomesReady(p: string, part: SourcePart, other: SourcePart, startUs: int, endUs: int, at: Stamp)
    returns (es: seq<Event>, v: World)
    requires Servable(p, part) && InWindow(part.values, startUs, endUs) && at.nowUs > 0
    requires other.visible && other.identity != part.identity
    ensures IsRun(New(), es) && Final(New(), es) == v
    ensures var k := Key(p, part.identity);
            k in v.parts && v.parts[k].status == Ready && !Current(v, k) && p in v.queue && !GlobalGateOf(v)
  {
    var k, n := Key(p, part.identity), part.values.rowCount;
    var r: Row, s: Row;
    es, v, r := ListFirst(p, part, startUs, endUs, at);
    es, v, s := SendPart(New(), es, v, p, part, r, map[], at.nowUs);
    AfterChange(v, p, Some(other));
    hide IsRun;
    hide Final;
    hide Step;
    hide Possible;
    es, v := Extend(New(), es, v, ChangeSource(p, Some(other)));
    AfterVerify(v, k, n, at.nowUs);
    es, v := Extend(New(), es, v, Verify(at.nowUs));
  }
}
