/** What every run of the serving protocol keeps, and what its gates promise. */
module ServingProof {
  import opened Select
  import opened PartStatus
  import opened Manifest
  import opened Serving

  // ---- what the manifest must say about one path ----

  /** A visible part is archived and its row is in a load state with the part's values, and no other identity of the
      path is ready. With `tidy`, a path without a visible part has no row in a load state. */
  ghost predicate Agrees(t: Table, p: string, seen: Option<SourcePart>, tidy: bool) {
    if Visible(seen) then
      var k := Key(p, seen.value.identity);
      && Eligible(seen)
      && k in t && ActiveLoad(t[k].status) && t[k].values == seen.value.values
      && forall j | j in t && j.path == p && j != k :: t[j].status != Ready
    else
      tidy && p != "" ==> forall j | j in t && j.path == p :: !ActiveLoad(t[j].status)
  }

  /** The row of `k` may become `r` without disturbing its path. */
  predicate Harmless(t: Table, k: Key, r: Row, seen: Option<SourcePart>, tidy: bool)
    requires k in t
  {
    var own := seen.Some? && seen.value.identity == k.identity;
    if Visible(seen) && own then ActiveLoad(r.status) && r.values == t[k].values
    else if Visible(seen) then r.status != Ready
    else tidy && k.path != "" ==> !ActiveLoad(r.status)
  }

  lemma AgreesAfterPut(t: Table, k: Key, r: Row, p: string, seen: Option<SourcePart>, tidy: bool)
    requires k in t && Agrees(t, p, seen, tidy)
    requires k.path == p ==> Harmless(t, k, r, seen, tidy)
    ensures Agrees(t[k := r], p, seen, tidy)
  {
  }

  lemma AgreesAfterRecover(t: Table, nowUs: int, p: string, seen: Option<SourcePart>, tidy: bool)
    requires Agrees(t, p, seen, tidy)
    ensures Agrees(Recovered(t, nowUs), p, seen, tidy)
  {
  }

  /** A part handed to a reconcile agrees afterwards, whatever the manifest said before. */
  lemma AgreesOnceListed(t: Table, src: map<string, Source>, at: Stamp, p: string, seen: Option<SourcePart>, tidy: bool)
    requires WellKeyed(src) && Eligible(seen) && p in src && src[p] == AsSource(p, seen.value)
    ensures Agrees(SetBased(t, src, at), p, seen, tidy)
  {
    hide SetBased;
    var u, k := SetBased(t, src, at), Key(p, seen.value.identity);
    SetBasedAt(t, src, at, k);
    forall j | j in u && j.path == p && j != k ensures u[j].status != Ready {
      SetBasedAt(t, src, at, j);
      assert j == Key(j.path, j.identity);
    }
  }

  lemma AgreesUnlisted(t: Table, src: map<string, Source>, at: Stamp, p: string, seen: Option<SourcePart>, tidy: bool)
    requires WellKeyed(src) && p !in src && Agrees(t, p, seen, tidy)
    ensures Agrees(SetBased(t, src, at), p, seen, tidy)
  {
    var u := SetBased(t, src, at);
    hide SetBased;
    forall j: Key | j.path == p
      ensures j in u <==> j in t
      ensures j in t ==> u[j] == t[j]
    {
      UnlistedPath(t, src, at, j);
    }
  }

  /** After a full sweep a path agrees when its part was listed or is not visible. */
  lemma AgreesOnceSwept(t: Table, src: map<string, Source>, startUs: int, at: Stamp, p: string, seen: Option<SourcePart>,
                        tidy: bool)
    requires WellKeyed(src)
    requires if Visible(seen) then Eligible(seen) && p in src && src[p] == AsSource(p, seen.value) else p !in src
    ensures Agrees(Manifest.Swept(SetBased(t, src, at), ListedKeys(src), startUs, at), p, seen, tidy)
  {
    hide SetBased;
    hide Manifest.Swept;
    hide ListedKeys;
    var u, listed := SetBased(t, src, at), ListedKeys(src);
    var v := Manifest.Swept(u, listed, startUs, at);
    forall j: Key | j.path == p
      ensures j in v <==> j in u
      ensures j in u ==> if IsListed(src, j) then v[j] == u[j] else !ActiveLoad(v[j].status)
    {
      SweptAt(u, listed, startUs, at, j);
      ListedKeysMeans(src, j);
    }
    if Visible(seen) {
      AgreesOnceListed(t, src, at, p, seen, tidy);
      assert IsListed(src, Key(p, seen.value.identity));
      hide SweptRow;
      hide AgedRow;
    }
  }

  lemma AgreesOnceRemoved(t: Table, paths: set<string>, at: Stamp, p: string, seen: Option<SourcePart>, tidy: bool)
    requires if p in paths then !Visible(seen) else Agrees(t, p, seen, tidy)
    ensures Agrees(MissingQueued(t, paths, at), p, seen, tidy)
  {
  }

  // ---- the invariant ----

  ghost predicate Tracked(w: World) { w.complete || (w.phase.Swept? && w.phase.clean) }

  /** Once tracking is complete, every path with no queued change agrees with its source. */
  ghost predicate GateInv(w: World, tidy: bool) {
    Tracked(w) ==> forall p | p !in w.queue :: Agrees(w.parts, p, Get(w.source, p), tidy)
  }

  predicate VersionsInv(w: World) { forall p | p in w.queue :: w.queue[p] <= w.version }

  /** The same part, or none that can be queried: the triggers pass over a change from hidden to hidden. */
  predicate Same(a: Option<SourcePart>, b: Option<SourcePart>) { a == b || (!Visible(a) && !Visible(b)) }

  /** A page is a snapshot: its paths stay queued, and an unchanged version means an unchanged part. */
  predicate PageInv(w: World, page: map<string, Entry>) {
    forall p | p in page ::
      && p in w.queue && page[p].version <= w.queue[p]
      && (page[p].version == w.queue[p] ==> Same(Get(w.source, p), page[p].seen))
  }

  predicate Settled(w: World, k: Key, s: Status) { k in w.parts && w.parts[k].status == s }

  predicate IsVisible(w: World, k: Key) { Current(w, k) && w.source[k.path].visible }

  /** The part being loaded is the one the source shows, where the gate relies on it. */
  predicate StillWanted(w: World, k: Key, tidy: bool) {
    k.path in w.queue || IsVisible(w, k) || (!Visible(Get(w.source, k.path)) && !(tidy && w.complete && k.path != ""))
  }

  predicate StillUnwanted(w: World, k: Key) { k.path in w.queue || !IsVisible(w, k) || !w.complete }

  predicate JobInv(w: World, k: Key, stage: Stage, tidy: bool) {
    match stage
    case Load => Settled(w, k, Loading)
    case Stale(_) => Settled(w, k, Loading) && (k.path in w.queue || !IsVisible(w, k))
    case Delete => Settled(w, k, Deleting) && StillUnwanted(w, k)
    case Closing => k in w.parts
    case _ => Settled(w, k, Loading) && StillWanted(w, k, tidy)
  }

  ghost predicate PhaseInv(w: World, tidy: bool) {
    match w.phase
    case Paged(page) => PageInv(w, page)
    case Merged(page) =>
      PageInv(w, page) && forall p | p in page && Eligible(page[p].seen) :: Agrees(w.parts, p, page[p].seen, tidy)
    case Handed(page) =>
      PageInv(w, page) && forall p | p in page && Acknowledges(page[p]) :: Agrees(w.parts, p, page[p].seen, tidy)
    case Scanned(seen, _, _, _) => forall p | p !in w.queue :: Same(Get(w.source, p), Get(seen, p))
    case Job(k, stage) => JobInv(w, k, stage, tidy)
    case _ => true
  }

  ghost predicate Inv(w: World, tidy: bool) { VersionsInv(w) && GateInv(w, tidy) && PhaseInv(w, tidy) }

  // ---- what a run must be free of ----

  /** A full scan looks at every visible part that has no queued change. */
  predicate ScanCovers(w: World)
    requires w.phase.Scanned?
  {
    forall p | p in w.source && p !in w.queue && w.source[p].visible ::
      InWindow(w.source[p].values, w.phase.startUs, w.phase.endUs)
  }

  /** A pause or an error after a retirement puts the row of a hidden or deleted part back into the load queue. */
  predicate Revives(w: World, e: Event)
    requires Possible(w, e)
  {
    (e.Release? || e.Fail?) && w.phase.stage.Closing? && w.parts[w.phase.key].status == Retired
    && !Visible(Get(w.source, w.phase.key.path))
  }

  predicate Admitted(w: World, e: Event, tidy: bool)
    requires Possible(w, e)
  {
    && (e.Sweep? && w.phase.full ==> ScanCovers(w))
    && (tidy ==> !Revives(w, e))
  }

  // ---- every step keeps the invariant ----

  lemma AgreesSame(t: Table, p: string, a: Option<SourcePart>, b: Option<SourcePart>, tidy: bool)
    requires Agrees(t, p, a, tidy) && Same(a, b)
    ensures Agrees(t, p, b, tidy)
  {
  }

  predicate Unmoved(w: World, v: World, p: string) {
    && (p in w.queue ==> p in v.queue && w.queue[p] <= v.queue[p])
    && (p !in v.queue || (p in w.queue && w.queue[p] == v.queue[p]) ==> Same(Get(w.source, p), Get(v.source, p)))
  }

  /** A change that gets no new queue version leaves its path as good as unchanged. */
  lemma ChangedIsQueued(w: World, path: string, part: Option<SourcePart>, p: string)
    requires VersionsInv(w)
    ensures Unmoved(w, Changed(w, path, part), p)
  {
  }

  lemma DriftKeepsGate(w: World, v: World, tidy: bool)
    requires GateInv(w, tidy)
    requires v.parts == w.parts && v.complete == w.complete && v.phase == w.phase
    requires forall p :: Unmoved(w, v, p)
    ensures GateInv(v, tidy)
  {
    forall p | Tracked(v) && p !in v.queue ensures Agrees(v.parts, p, Get(v.source, p), tidy) {
      assert Unmoved(w, v, p);
      assert Agrees(w.parts, p, Get(w.source, p), tidy);
      AgreesSame(w.parts, p, Get(w.source, p), Get(v.source, p), tidy);
    }
  }

  lemma DriftKeepsPage(w: World, v: World, page: map<string, Entry>)
    requires PageInv(w, page) && forall p :: Unmoved(w, v, p)
    ensures PageInv(v, page)
  {
    hide Get;
    forall p | p in page
      ensures p in v.queue && page[p].version <= v.queue[p]
      ensures page[p].version == v.queue[p] ==> Same(Get(v.source, p), page[p].seen)
    {
      assert Unmoved(w, v, p);
    }
  }

  lemma DriftKeepsWanted(w: World, v: World, k: Key, tidy: bool)
    requires v.complete == w.complete && Unmoved(w, v, k.path)
    ensures StillWanted(w, k, tidy) ==> StillWanted(v, k, tidy)
    ensures StillUnwanted(w, k) ==> StillUnwanted(v, k)
    ensures k.path in w.queue || !IsVisible(w, k) ==> k.path in v.queue || !IsVisible(v, k)
  {
  }

  lemma DriftKeepsPhase(w: World, v: World, tidy: bool)
    requires PhaseInv(w, tidy)
    requires v.parts == w.parts && v.complete == w.complete && v.phase == w.phase
    requires forall p :: Unmoved(w, v, p)
    ensures PhaseInv(v, tidy)
  {
    hide Agrees;
    hide Eligible;
    hide Acknowledges;
    hide StillWanted;
    hide StillUnwanted;
    hide IsVisible;
    if w.phase.Job? {
      var k := w.phase.key;
      assert Unmoved(w, v, k.path);
      DriftKeepsWanted(w, v, k, tidy);
      hide Unmoved;
    } else {
      match w.phase
      case Paged(page) => DriftKeepsPage(w, v, page); hide PageInv;
      case Merged(page) => DriftKeepsPage(w, v, page); hide PageInv;
      case Handed(page) => DriftKeepsPage(w, v, page); hide PageInv;
      case Scanned(seen, _, _, _) =>
        forall p | p !in v.queue ensures Same(Get(v.source, p), Get(seen, p)) {
          assert Unmoved(w, v, p);
        }
      case _ =>
    }
  }

  lemma ChangeKeepsInv(w: World, path: string, part: Option<SourcePart>, tidy: bool)
    requires Inv(w, tidy)
    ensures Inv(Changed(w, path, part), tidy)
  {
    hide GateInv;
    hide PhaseInv;
    forall p ensures Unmoved(w, Changed(w, path, part), p) {
      ChangedIsQueued(w, path, part, p);
    }
    hide Unmoved;
    DriftKeepsGate(w, Changed(w, path, part), tidy);
    DriftKeepsPhase(w, Changed(w, path, part), tidy);
  }

  // ---- the hand-over ----

  /** The manifest's account of a path is disturbed only for paths that are still queued. */
  lemma GateAfterTable(w: World, t: Table, phase: Phase, tidy: bool)
    requires GateInv(w, tidy) && !phase.Swept?
    requires forall p | p !in w.queue && Agrees(w.parts, p, Get(w.source, p), tidy) :: Agrees(t, p, Get(w.source, p), tidy)
    ensures GateInv(w.(parts := t, phase := phase), tidy)
  {
    hide Agrees;
    var v := w.(parts := t, phase := phase);
    if Tracked(v) {
      assert Tracked(w);
      forall p | p !in v.queue ensures Agrees(v.parts, p, Get(v.source, p), tidy) {
        assert Agrees(w.parts, p, Get(w.source, p), tidy);
      }
    }
  }

  lemma MergeKeepsInv(w: World, at: Stamp, tidy: bool)
    requires Inv(w, tidy) && w.phase.Paged?
    ensures Inv(SourceStep(w, Merge(at)), tidy)
  {
    hide Agrees;
    hide SetBased;
    hide WellKeyed;
    hide GateInv;
    var page := w.phase.page;
    var src := EligibleOf(page);
    var t := SetBased(w.parts, src, at);
    forall p | p !in w.queue && Agrees(w.parts, p, Get(w.source, p), tidy) ensures Agrees(t, p, Get(w.source, p), tidy) {
      AgreesUnlisted(w.parts, src, at, p, Get(w.source, p), tidy);
    }
    forall p | p in page && Eligible(page[p].seen) ensures Agrees(t, p, page[p].seen, tidy) {
      AgreesOnceListed(w.parts, src, at, p, page[p].seen, tidy);
    }
    GateAfterTable(w, t, Merged(page), tidy);
    StateIsNotInGate(w.(parts := t, phase := Merged(page)), SourceStep(w, Merge(at)).state, tidy);
  }

  lemma StateIsNotInGate(w: World, state: ReconcileState, tidy: bool)
    requires GateInv(w, tidy)
    ensures GateInv(w.(state := state), tidy)
  {
  }

  lemma QueueRemovedKeepsInv(w: World, at: Stamp, tidy: bool)
    requires Inv(w, tidy) && w.phase.Merged?
    ensures Inv(SourceStep(w, QueueRemoved(at)), tidy)
  {
    hide Agrees;
    hide MissingQueued;
    hide GateInv;
    var page := w.phase.page;
    var removed := RemovedOf(page);
    var t := MissingQueued(w.parts, removed, at);
    forall p | p !in w.queue && Agrees(w.parts, p, Get(w.source, p), tidy) ensures Agrees(t, p, Get(w.source, p), tidy) {
      AgreesOnceRemoved(w.parts, removed, at, p, Get(w.source, p), tidy);
    }
    forall p | p in page && Acknowledges(page[p]) ensures Agrees(t, p, page[p].seen, tidy) {
      AgreesOnceRemoved(w.parts, removed, at, p, page[p].seen, tidy);
    }
    GateAfterTable(w, t, Handed(page), tidy);
  }

  /** An acknowledgement drops only paths whose part is still the one the manifest was given. */
  lemma AcknowledgeKeepsInv(w: World, tidy: bool)
    requires Inv(w, tidy) && w.phase.Handed?
    ensures Inv(SourceStep(w, Acknowledge), tidy)
  {
    hide Agrees;
    var v := SourceStep(w, Acknowledge);
    if Tracked(v) {
      forall p | p !in v.queue ensures Agrees(v.parts, p, Get(v.source, p), tidy) {
        if p in w.queue {
          assert Acks(w, w.phase.page, p);
          AgreesSame(w.parts, p, w.phase.page[p].seen, Get(w.source, p), tidy);
        } else {
          assert Agrees(w.parts, p, Get(w.source, p), tidy);
        }
      }
    }
  }

  // ---- the scan ----

  lemma SweepKeepsInv(w: World, at: Stamp, tidy: bool)
    requires Inv(w, tidy) && w.phase.Scanned? && (w.phase.full ==> ScanCovers(w))
    ensures Inv(SourceStep(w, Sweep(at)), tidy)
  {
    var v := SourceStep(w, Sweep(at));
    if Tracked(v) {
      forall p | p !in v.queue ensures Agrees(v.parts, p, Get(v.source, p), tidy) {
        SweepOnPath(w, at, p, tidy);
      }
    }
  }

  lemma SweptParts(w: World, at: Stamp)
    requires w.phase.Scanned? && Possible(w, Sweep(at))
    ensures var src := InScan(w.phase.seen, w.phase.startUs, w.phase.endUs);
            SourceStep(w, Sweep(at)).parts ==
              if w.phase.full then Manifest.Swept(SetBased(w.parts, src, at), ListedKeys(src), w.phase.startUs, at)
              else SetBased(w.parts, src, at)
  {
    hide SetBased;
    hide Manifest.Swept;
    hide InScan;
  }

  lemma SweepOnPath(w: World, at: Stamp, p: string, tidy: bool)
    requires Inv(w, tidy) && w.phase.Scanned? && (w.phase.full ==> ScanCovers(w)) && p !in w.queue
    requires Tracked(SourceStep(w, Sweep(at)))
    ensures Agrees(SourceStep(w, Sweep(at)).parts, p, Get(w.source, p), tidy)
  {
    var ph, now := w.phase, Get(w.source, p);
    var src := InScan(ph.seen, ph.startUs, ph.endUs);
    assert Same(now, Get(ph.seen, p));
    assert w.complete ==> Agrees(w.parts, p, now, tidy);
    hide GateInv;
    hide PhaseInv;
    SweptParts(w, at);
    if ph.full {
      assert Visible(now) ==> Eligible(now) && p in src && src[p] == AsSource(p, now.value);
      hide *;
      AgreesOnceSwept(w.parts, src, ph.startUs, at, p, now, tidy);
    } else if p in src {
      hide *;
      AgreesOnceListed(w.parts, src, at, p, now, tidy);
    } else {
      hide *;
      AgreesUnlisted(w.parts, src, at, p, now, tidy);
    }
  }

  // ---- the job in hand ----

  lemma PutKeepsGate(w: World, k: Key, r: Row, phase: Phase, tidy: bool)
    requires GateInv(w, tidy) && k in w.parts && !w.phase.Swept? && !phase.Swept?
    requires w.complete && k.path !in w.queue && Agrees(w.parts, k.path, Get(w.source, k.path), tidy) ==>
               Harmless(w.parts, k, r, Get(w.source, k.path), tidy)
    ensures GateInv(PutRow(w, k, r, phase), tidy)
  {
    hide Agrees;
    hide Harmless;
    var v := PutRow(w, k, r, phase);
    if Tracked(v) {
      forall p | p !in v.queue ensures Agrees(v.parts, p, Get(v.source, p), tidy) {
        assert Agrees(w.parts, p, Get(w.source, p), tidy);
        AgreesAfterPut(w.parts, k, r, p, Get(w.source, p), tidy);
      }
    }
  }

  lemma ClaimKeepsInv(w: World, k: Key, nowUs: int, tidy: bool)
    requires Inv(w, tidy) && Possible(w, Claim(k, nowUs))
    ensures Inv(JobStep(w, Claim(k, nowUs)), tidy)
  {
    var v := JobStep(w, Claim(k, nowUs));
    if w.complete && k.path !in w.queue {
      assert Agrees(w.parts, k.path, Get(w.source, k.path), tidy);
    }
    PutKeepsGate(w, k, ClaimedRow(w.parts[k], nowUs), v.phase, tidy);
    hide GateInv;
  }

  /** A step that leaves source, queue and manifest alone leaves the gate alone. */
  lemma SameBooksKeepGate(w: World, v: World, tidy: bool)
    requires GateInv(w, tidy)
    requires v.parts == w.parts && v.source == w.source && v.queue == w.queue && v.complete == w.complete
    requires v.phase == w.phase || !v.phase.Swept?
    ensures GateInv(v, tidy)
  {
  }

  lemma MakeReadyKeepsInv(w: World, r: Row, tidy: bool)
    requires Inv(w, tidy) && w.phase.Job? && (w.phase.stage.Checked? || w.phase.stage.Sent?) && w.phase.key in w.parts
    requires r.status == Ready && r.values == w.parts[w.phase.key].values
    ensures Inv(PutRow(w, w.phase.key, r, Job(w.phase.key, Closing)), tidy)
  {
    hide Agrees;
    hide GateInv;
    PutKeepsGate(w, w.phase.key, r, Job(w.phase.key, Closing), tidy);
  }

  lemma LoadKeepsInv(w: World, e: Event, tidy: bool)
    requires Inv(w, tidy) && IsLoadEvent(e) && Possible(w, e)
    ensures Inv(LoadStep(w, e), tidy)
  {
    hide Held;
    hide Doomed;
    hide PageInv;
    hide Count;
    hide Agrees;
    hide GateInv;
    var k := w.phase.key;
    var v := LoadStep(w, e);
    if e.AcceptRemote? || e.Verify? {
      MakeReadyKeepsInv(w, ReadyRow(w.parts[k], Count(Held(w.rows, k)), e.nowUs), tidy);
    } else {
      SameBooksKeepGate(w, v, tidy);
      LoadKeepsPhase(w, e, tidy);
      hide LoadStep;
      hide PhaseInv;
    }
  }

  lemma ReadSourceKeepsPhase(w: World, tidy: bool)
    requires Inv(w, tidy) && Possible(w, ReadSource)
    ensures PhaseInv(LoadStep(w, ReadSource), tidy)
  {
    var k := w.phase.key;
    if k.path !in w.queue && w.complete {
      assert Agrees(w.parts, k.path, Get(w.source, k.path), tidy);
    }
    hide GateInv;
    hide Held;
  }

  lemma LoadKeepsPhase(w: World, e: Event, tidy: bool)
    requires Inv(w, tidy) && IsLoadEvent(e) && !e.AcceptRemote? && !e.Verify? && Possible(w, e)
    ensures PhaseInv(LoadStep(w, e), tidy)
  {
    hide Held;
    hide Doomed;
    hide PageInv;
    hide Count;
    hide GateInv;
    hide Agrees;
    if e.ReadSource? {
      ReadSourceKeepsPhase(w, tidy);
    } else {
      assert !e.ReadSourceAgain? ==> StillWanted(LoadStep(w, e), w.phase.key, tidy);
      hide StillWanted;
    }
  }

  lemma RetireKeepsInv(w: World, nowUs: int, tidy: bool)
    requires Inv(w, tidy) && Possible(w, Retire(nowUs))
    ensures Inv(JobStep(w, Retire(nowUs)), tidy)
  {
    hide Agrees;
    hide GateInv;
    hide Count;
    hide PageInv;
    var k := w.phase.key;
    PutKeepsGate(w, k, RetiredRow(w.parts[k], nowUs), Job(k, Closing), tidy);
  }

  /** A pause or a failure sends the row back where it came from. */
  lemma PutBackKeepsInv(w: World, r: Row, e: Event, tidy: bool)
    requires Inv(w, tidy) && (e.Release? || e.Fail?) && Possible(w, e) && (tidy ==> !Revives(w, e))
    requires var s := w.parts[w.phase.key].status; r.status == Released(s) || r.status == Failed(s)
    requires r.values == w.parts[w.phase.key].values
    ensures Inv(PutRow(w, w.phase.key, r, Idle), tidy)
  {
    var k := w.phase.key;
    if w.complete && k.path !in w.queue && Agrees(w.parts, k.path, Get(w.source, k.path), tidy) {
      var s := w.parts[k].status;
      assert s == Retired ==> w.phase.stage.Closing?;
    }
    PutKeepsGate(w, k, r, Idle, tidy);
    hide GateInv;
  }

  lemma RecoverKeepsInv(w: World, nowUs: int, tidy: bool)
    requires Inv(w, tidy) && w.phase.Idle?
    ensures Inv(JobStep(w, Recover(nowUs)), tidy)
  {
    hide Agrees;
    hide Recovered;
    var t := Recovered(w.parts, nowUs);
    forall p | p !in w.queue && Agrees(w.parts, p, Get(w.source, p), tidy) ensures Agrees(t, p, Get(w.source, p), tidy) {
      AgreesAfterRecover(w.parts, nowUs, p, Get(w.source, p), tidy);
    }
    GateAfterTable(w, t, Idle, tidy);
  }

  lemma JobKeepsInv(w: World, e: Event, tidy: bool)
    requires Inv(w, tidy) && !IsSourceEvent(e) && !IsLoadEvent(e) && Possible(w, e) && Admitted(w, e, tidy)
    ensures Inv(JobStep(w, e), tidy)
  {
    hide Agrees;
    hide GateInv;
    match e
    case Claim(k, nowUs) => ClaimKeepsInv(w, k, nowUs, tidy);
    case Retire(nowUs) => RetireKeepsInv(w, nowUs, tidy);
    case Release(reason, delay, nowUs) =>
      PutBackKeepsInv(w, ReleasedRow(w.parts[w.phase.key], reason, delay, nowUs), e, tidy);
    case Fail(error, nowUs) => PutBackKeepsInv(w, FailedRow(w.parts[w.phase.key], error, nowUs), e, tidy);
    case Recover(nowUs) => RecoverKeepsInv(w, nowUs, tidy);
    case _ => QuietKeepsInv(w, e, tidy);
  }

  lemma QuietKeepsInv(w: World, e: Event, tidy: bool)
    requires Inv(w, tidy) && Possible(w, e)
    requires e.RecordError? || e.RequestDelete? || e.Mutate? || e.Finish? || e.Crash?
    ensures Inv(JobStep(w, e), tidy)
  {
    hide Held;
    hide Doomed;
    hide PageInv;
    hide Count;
    hide Agrees;
    hide GateInv;
    var v := JobStep(w, e);
    SameBooksKeepGate(w, v, tidy);
    SameBooksKeepPhase(w, v, tidy);
  }

  lemma SameBooksKeepPhase(w: World, v: World, tidy: bool)
    requires PhaseInv(w, tidy)
    requires v.parts == w.parts && v.source == w.source && v.queue == w.queue && v.complete == w.complete
    requires v.phase == w.phase || v.phase.Idle?
    ensures PhaseInv(v, tidy)
  {
    hide Agrees;
    hide Same;
  }

  lemma SourceKeepsInv(w: World, e: Event, tidy: bool)
    requires Inv(w, tidy) && IsSourceEvent(e) && Possible(w, e) && Admitted(w, e, tidy)
    ensures Inv(SourceStep(w, e), tidy)
  {
    hide Agrees;
    match e
    case ChangeSource(path, part) => ChangeKeepsInv(w, path, part, tidy);
    case Merge(at) => MergeKeepsInv(w, at, tidy);
    case QueueRemoved(at) => QueueRemovedKeepsInv(w, at, tidy);
    case Acknowledge => AcknowledgeKeepsInv(w, tidy);
    case Sweep(at) => SweepKeepsInv(w, at, tidy);
    case _ =>
  }

  lemma StepKeepsInv(w: World, e: Event, tidy: bool)
    requires Inv(w, tidy) && Possible(w, e) && Admitted(w, e, tidy)
    ensures Inv(Step(w, e), tidy)
  {
    hide Inv;
    hide Possible;
    hide Admitted;
    hide SourceStep;
    hide LoadStep;
    hide JobStep;
    if IsSourceEvent(e) {
      SourceKeepsInv(w, e, tidy);
    } else if IsLoadEvent(e) {
      LoadKeepsInv(w, e, tidy);
    } else {
      JobKeepsInv(w, e, tidy);
    }
  }
}
