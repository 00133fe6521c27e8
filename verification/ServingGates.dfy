/** The promises of the serving gates and of the `ready` state, over whole runs, and the exact limits of both. */
module ServingGates {
  import opened Select
  import opened PartStatus
  import opened Manifest
  import opened Serving
  import opened ServingProof

  // ---- runs ----

  ghost predicate AdmittedRun(w: World, es: seq<Event>, tidy: bool)
    requires IsRun(w, es)
    decreases |es|
  {
    es == [] || (Admitted(w, es[0], tidy) && AdmittedRun(Step(w, es[0]), es[1..], tidy))
  }

  lemma {:induction false} RunKeepsInv(w: World, es: seq<Event>, tidy: bool)
    requires Inv(w, tidy) && IsRun(w, es) && AdmittedRun(w, es, tidy)
    ensures Inv(Final(w, es), tidy)
    decreases |es|
  {
    hide Inv;
    hide Step;
    hide Possible;
    hide Admitted;
    if es != [] {
      StepKeepsInv(w, es[0], tidy);
      RunKeepsInv(Step(w, es[0]), es[1..], tidy);
    }
  }

  // ---- the cheap gate implies the exact one ----

  predicate GlobalGateOf(w: World) { GlobalGate(w.parts, w.state, w.complete, w.queue != map[]) }

  /** Every visible source part passes `coverage`. */
  predicate AllCovered(w: World) {
    forall p | p in w.source && w.source[p].visible :: Covered(w.parts, AsSource(p, w.source[p]))
  }

  lemma GateImpliesCoverage(w: World)
    requires Inv(w, false) && GlobalGateOf(w)
    ensures AllCovered(w)
    ensures forall p | p in w.source && w.source[p].visible :: w.source[p].archived
  {
    forall p | p in w.source && w.source[p].visible
      ensures Covered(w.parts, AsSource(p, w.source[p])) && w.source[p].archived
    {
      assert Agrees(w.parts, p, Get(w.source, p), false);
      hide GateInv;
      hide PhaseInv;
      var k := KeyOf(AsSource(p, w.source[p]));
      assert !Unready(w.parts[k].status);
      forall j | j in w.parts && j.path == p && j.identity != k.identity ensures w.parts[j].status == Retired {
        assert !Unready(w.parts[j].status);
      }
    }
  }

  /** In every run whose full scans look at every visible part, an open gate means exact coverage of all visible
      source parts, whatever changes, crashes, pauses and failures came before. */
  lemma OpenGateIsCoverage(w: World, es: seq<Event>)
    requires Fresh(w) && IsRun(w, es) && AdmittedRun(w, es, false)
    ensures GlobalGateOf(Final(w, es)) ==> AllCovered(Final(w, es))
  {
    RunKeepsInv(w, es, false);
    hide Inv;
    if GlobalGateOf(Final(w, es)) {
      GateImpliesCoverage(Final(w, es));
    }
  }

  /** Without revivals an open gate also means that nothing else is served: a ready row is a visible part's own. */
  lemma OpenGateServesNothingElse(w: World, es: seq<Event>, k: Key)
    requires Fresh(w) && IsRun(w, es) && AdmittedRun(w, es, true)
    requires var v := Final(w, es); GlobalGateOf(v) && k in v.parts && k.path != "" && v.parts[k].status == Ready
    ensures IsVisible(Final(w, es), k)
  {
    RunKeepsInv(w, es, true);
    var v := Final(w, es);
    assert Agrees(v.parts, k.path, Get(v.source, k.path), true);
    hide GateInv;
    hide PhaseInv;
    assert k == Key(k.path, k.identity);
  }

  // ---- the gate of one window ----

  /** `clickhouse_pending_changes_overlap`: a queued path whose part overlaps the window, or is gone. */
  predicate PendingInWindow(w: World, startUs: int, endUs: int) {
    exists p | p in w.queue :: p !in w.source || InWindow(w.source[p].values, startUs, endUs)
  }

  predicate WindowGateOf(w: World, startUs: int, endUs: int) {
    WindowGate(w.parts, w.state, w.complete, PendingInWindow(w, startUs, endUs), startUs, endUs)
  }

  /** While other windows are being worked on, an open window gate still means that each visible part of the window is
      ready under the bounds the gate has judged it by, and that no other identity of its path is. */
  lemma OpenWindowIsServed(w: World, es: seq<Event>, startUs: int, endUs: int, p: string)
    requires Fresh(w) && IsRun(w, es) && AdmittedRun(w, es, false)
    requires var v := Final(w, es);
             WindowGateOf(v, startUs, endUs) && p in v.source && v.source[p].visible && InWindow(v.source[p].values, startUs, endUs)
    ensures var v := Final(w, es);
            var k := Key(p, v.source[p].identity);
            && k in v.parts && v.parts[k].status == Ready && v.parts[k].values == v.source[p].values
            && forall j | j in v.parts && j.path == p && j != k :: v.parts[j].status != Ready
  {
    RunKeepsInv(w, es, false);
    var v := Final(w, es);
    assert p !in v.queue;
    assert Agrees(v.parts, p, Get(v.source, p), false);
    hide GateInv;
    hide PhaseInv;
    assert !Unready(v.parts[Key(p, v.source[p].identity)].status);
  }

  // ---- what a full scan that looks too short does ----

  /** The scan lists the visible part of the path. */
  predicate ScanLists(w: World, p: string)
    requires w.phase.Scanned? && p in w.source
  {
    Eligible(Some(w.source[p])) && InWindow(w.source[p].values, w.phase.startUs, w.phase.endUs)
  }

  /** A full scan leaves every path without a queued change in agreement if and only if it lists every visible part among
      them: each is archived, and none lies outside its window. */
  lemma ScanExact(w: World, at: Stamp)
    requires Inv(w, false) && w.phase.Scanned? && w.phase.full
    ensures (forall p | p !in w.queue :: Agrees(Step(w, Sweep(at)).parts, p, Get(w.source, p), false))
       <==> (forall p | p in w.source && p !in w.queue && w.source[p].visible :: ScanLists(w, p))
  {
    var ph := w.phase;
    var src := InScan(ph.seen, ph.startUs, ph.endUs);
    SweptParts(w, at);
    assert Step(w, Sweep(at)).parts == SourceStep(w, Sweep(at)).parts;
    forall p | p !in w.queue
      ensures Agrees(Step(w, Sweep(at)).parts, p, Get(w.source, p), false) <==>
                (p in w.source && w.source[p].visible ==> ScanLists(w, p))
    {
      assert Same(Get(w.source, p), Get(ph.seen, p));
      hide Inv;
      hide Step;
      hide SourceStep;
      ScannedPath(w.parts, ph.seen, ph.startUs, ph.endUs, at, p, Get(w.source, p));
      hide Agrees;
    }
    hide Inv;
    hide Agrees;
    hide ScanLists;
  }

  lemma ScannedPath(t: Table, seen: Sources, startUs: int, endUs: int, at: Stamp, p: string, now: Option<SourcePart>)
    requires Same(now, Get(seen, p))
    ensures var src := InScan(seen, startUs, endUs);
            Agrees(Manifest.Swept(SetBased(t, src, at), ListedKeys(src), startUs, at), p, now, false)
            <==> (Visible(now) ==> Eligible(now) && InWindow(now.value.values, startUs, endUs))
  {
    var src := InScan(seen, startUs, endUs);
    if Visible(now) {
      if Eligible(now) && InWindow(now.value.values, startUs, endUs) {
        assert p in src && src[p] == AsSource(p, now.value);
        hide *;
        AgreesOnceSwept(t, src, startUs, at, p, now, false);
      } else {
        UnlistedDisagrees(t, src, startUs, at, p, now);
      }
    }
  }

  lemma UnlistedDisagrees(t: Table, src: map<string, Source>, startUs: int, at: Stamp, p: string, now: Option<SourcePart>)
    requires WellKeyed(src) && Visible(now) && (!Eligible(now) || p !in src)
    ensures !Agrees(Manifest.Swept(SetBased(t, src, at), ListedKeys(src), startUs, at), p, now, false)
  {
    if Eligible(now) {
      var k, u := Key(p, now.value.identity), SetBased(t, src, at);
      UnlistedPath(t, src, at, k);
      ListedKeysMeans(src, k);
      if k in u {
        hide SetBased;
        SweptAt(u, ListedKeys(src), startUs, at, k);
        hide Manifest.Swept;
      }
    }
  }

  // ---- what a pause after a retirement does ----

  /** The row of the job after a pause or a failure. */
  function PutBack(w: World, e: Event): Row
    requires Possible(w, e) && (e.Release? || e.Fail?)
  {
    if e.Release? then ReleasedRow(w.parts[w.phase.key], e.reason, e.delay, e.nowUs)
    else FailedRow(w.parts[w.phase.key], e.error, e.nowUs)
  }

  lemma AfterPutBack(w: World, e: Event)
    requires Possible(w, e) && (e.Release? || e.Fail?)
    ensures w.phase.key in w.parts && Step(w, e) == PutRow(w, w.phase.key, PutBack(w, e), Idle)
  {
  }

  /** A pause or failure leaves the path of its job in agreement exactly when it revives nothing: when its row is not
      retired already, or the path has a visible part. */
  lemma PutBackExact(w: World, e: Event)
    requires Inv(w, true) && w.complete && Possible(w, e) && (e.Release? || e.Fail?)
    requires w.phase.key.path !in w.queue && w.phase.key.path != ""
    ensures Agrees(Step(w, e).parts, w.phase.key.path, Get(w.source, w.phase.key.path), true) <==> !Revives(w, e)
  {
    hide PhaseInv;
    hide Step;
    var k := w.phase.key;
    if !Revives(w, e) {
      StepKeepsInv(w, e, true);
    }
    AfterPutBack(w, e);
    hide GateInv;
  }
}
