/** A load and the source it was read from: when a finished load is out of date, what the gates make of it, and how a row
    that has left the load states can come back. */
module ServingJobs {
  import opened Select
  import opened PartStatus
  import opened Manifest
  import opened Serving
  import opened ServingProof
  import opened ServingGates

  // ---- the source changes by its own events only ----

  predicate Changes(e: Event, p: string) { e.ChangeSource? && e.path == p }

  function SourceAfter(now: Option<SourcePart>, es: seq<Event>, p: string): Option<SourcePart>
    decreases es
  {
    if es == [] then now else SourceAfter(if Changes(es[0], p) then es[0].part else now, es[1..], p)
  }

  lemma {:induction false} SourceFollows(w: World, es: seq<Event>, p: string)
    requires IsRun(w, es)
    ensures Get(Final(w, es).source, p) == SourceAfter(Get(w.source, p), es, p)
    decreases |es|
  {
    if es != [] {
      SourceStepOnly(w, es[0], p);
      hide Step;
      hide Possible;
      SourceFollows(Step(w, es[0]), es[1..], p);
    }
  }

  lemma SourceStepOnly(w: World, e: Event, p: string)
    requires Possible(w, e)
    ensures Get(Step(w, e).source, p) == if Changes(e, p) then e.part else Get(w.source, p)
  {
    hide Possible;
    hide SourceStep;
    hide LoadStep;
    hide JobStep;
    if IsSourceEvent(e) {
      SourceAfterSourceStep(w, e, p);
    } else if IsLoadEvent(e) {
      SameSourceAfterLoad(w, e);
    } else {
      SameSourceAfterJob(w, e);
    }
  }

  lemma SourceAfterSourceStep(w: World, e: Event, p: string)
    requires IsSourceEvent(e) && Possible(w, e)
    ensures Get(SourceStep(w, e).source, p) == if Changes(e, p) then e.part else Get(w.source, p)
  {
    hide SetBased;
    hide MissingQueued;
    hide Reconciled;
    hide InScan;
    hide AllArchived;
    hide Acks;
    hide PageOf;
  }

  lemma SameSourceAfterLoad(w: World, e: Event)
    requires IsLoadEvent(e) && Possible(w, e)
    ensures LoadStep(w, e).source == w.source
  {
    hide Held;
    hide Count;
    hide Doomed;
  }

  lemma SameSourceAfterJob(w: World, e: Event)
    requires !IsSourceEvent(e) && !IsLoadEvent(e) && Possible(w, e)
    ensures JobStep(w, e).source == w.source
  {
    hide Held;
    hide Recovered;
    hide Doomed;
  }

  predicate Has(part: Option<SourcePart>, identity: string) { part.Some? && part.value.identity == identity }

  predicate LastChange(es: seq<Event>, p: string, i: nat) {
    i < |es| && Changes(es[i], p) && forall j | i < j < |es| :: !Changes(es[j], p)
  }

  /** The last change of the path takes the identity away. */
  predicate Overtaken(es: seq<Event>, k: Key) { exists i: nat | i < |es| :: LastChange(es, k.path, i) && !Has(es[i].part, k.identity) }

  predicate Touched(es: seq<Event>, p: string) { exists i | 0 <= i < |es| :: Changes(es[i], p) }

  lemma {:induction false} AfterMeans(now: Option<SourcePart>, es: seq<Event>, k: Key)
    ensures Has(SourceAfter(now, es, k.path), k.identity) <==> !Overtaken(es, k) && (Touched(es, k.path) || Has(now, k.identity))
    decreases es
  {
    if es != [] {
      var p, rest := k.path, es[1..];
      AfterMeans(if Changes(es[0], p) then es[0].part else now, rest, k);
      assert forall i | 0 <= i < |rest| :: rest[i] == es[i + 1];
      forall i: nat | i < |rest| ensures LastChange(rest, p, i) <==> LastChange(es, p, i + 1) {
        if LastChange(rest, p, i) {
          forall j | i + 1 < j < |es| ensures !Changes(es[j], p) {
            assert es[j] == rest[j - 1];
          }
        }
      }
      TailOvertaken(es, k);
    }
  }

  lemma TailOvertaken(es: seq<Event>, k: Key)
    requires es != []
    requires forall i: nat | i < |es| - 1 :: LastChange(es[1..], k.path, i) <==> LastChange(es, k.path, i + 1)
    ensures Touched(es, k.path) <==> Changes(es[0], k.path) || Touched(es[1..], k.path)
    ensures Overtaken(es, k) <==>
              if Touched(es[1..], k.path) then Overtaken(es[1..], k) else Changes(es[0], k.path) && !Has(es[0].part, k.identity)
  {
    var p, rest := k.path, es[1..];
    assert forall i | 0 <= i < |rest| :: rest[i] == es[i + 1];
    if i: nat :| i < |es| && LastChange(es, p, i) && !Has(es[i].part, k.identity) {
      if i > 0 {
        assert LastChange(rest, p, i - 1) && !Has(rest[i - 1].part, k.identity);
      } else {
        forall j | 0 <= j < |rest| ensures !Changes(rest[j], p) {
          assert rest[j] == es[j + 1];
        }
      }
    }
    if i: nat :| i < |rest| && LastChange(rest, p, i) && !Has(rest[i].part, k.identity) {
      assert LastChange(es, p, i + 1);
    }
    if !Touched(rest, p) && Changes(es[0], p) {
      forall j | 0 < j < |es| ensures !Changes(es[j], p) {
        assert es[j] == rest[j - 1];
      }
      assert LastChange(es, p, 0);
    }
    if Touched(es, p) {
      var j :| 0 <= j < |es| && Changes(es[j], p);
      assert j > 0 ==> Changes(rest[j - 1], p);
    }
  }

  // ---- a load, from its last look at the source to its end ----

  predicate Reads(e: Event) { e.ReadSource? || e.ReadSourceAgain? }

  predicate NoRead(es: seq<Event>) { forall e | e in es :: !Reads(e) }

  /** A load that has found its part in the source. */
  predicate UnderWay(w: World) {
    w.phase.Job?
    && (w.phase.stage.Checked? || w.phase.stage.Clearing? || w.phase.stage.Cleared? || w.phase.stage.Confirmed? || w.phase.stage.Sent?)
  }

  lemma StillSameJob(w: World, e: Event)
    requires Possible(w, e) && !Reads(e) && UnderWay(Step(w, e))
    ensures UnderWay(w) && Step(w, e).phase.key == w.phase.key
  {
    hide SetBased;
    hide MissingQueued;
    hide Reconciled;
    hide Recovered;
  }

  lemma {:induction false} RunKeepsJob(w: World, es: seq<Event>, k: Key)
    requires IsRun(w, es) && NoRead(es) && (UnderWay(w) ==> w.phase.key == k)
    ensures UnderWay(Final(w, es)) ==> Final(w, es).phase.key == k
    decreases |es|
  {
    if es != [] {
      assert es[0] in es;
      if UnderWay(Step(w, es[0])) {
        StillSameJob(w, es[0]);
      }
      hide Step;
      hide Possible;
      hide UnderWay;
      RunKeepsJob(Step(w, es[0]), es[1..], k);
    }
  }

  lemma MadeReady(w: World, e: Event)
    requires Possible(w, e) && (e.AcceptRemote? || e.Verify?)
    ensures UnderWay(w) && Step(w, e).source == w.source
    ensures w.phase.key in Step(w, e).parts && Step(w, e).parts[w.phase.key].status == Ready
  {
  }

  lemma ReadFinds(w: World, e: Event)
    requires Possible(w, e) && Reads(e) && UnderWay(Step(w, e))
    ensures w.phase.Job? && Step(w, e).phase.key == w.phase.key && Step(w, e).source == w.source
    ensures Has(Get(w.source, w.phase.key.path), w.phase.key.identity)
  {
  }

  /** A load that found its part in the source at its last look makes its row ready; the source still has the part then
      if and only if no change since has taken it away. */
  lemma ReadyIsCurrentExactly(w: World, read: Event, es: seq<Event>, last: Event)
    requires Possible(w, read) && Reads(read) && UnderWay(Step(w, read))
    requires IsRun(Step(w, read), es) && NoRead(es)
    requires Possible(Final(Step(w, read), es), last) && (last.AcceptRemote? || last.Verify?)
    ensures w.phase.Job?
    ensures var v := Step(Final(Step(w, read), es), last);
            var k := w.phase.key;
            && k in v.parts && v.parts[k].status == Ready
            && (Current(v, k) <==> !Overtaken(es, k))
  {
    ReadFinds(w, read);
    var u, k := Step(w, read), w.phase.key;
    RunKeepsJob(u, es, k);
    MadeReady(Final(u, es), last);
    SourceFollows(u, es, k.path);
    AfterMeans(Get(u.source, k.path), es, k);
    hide Step;
    hide Possible;
    hide UnderWay;
    hide IsRun;
    hide Overtaken;
    hide Touched;
    NotTouched(Get(u.source, k.path), es, k);
  }

  lemma {:induction false} NotTouched(now: Option<SourcePart>, es: seq<Event>, k: Key)
    ensures Touched(es, k.path) || !Overtaken(es, k)
  {
    if i: nat :| i < |es| && LastChange(es, k.path, i) && !Has(es[i].part, k.identity) {
      assert Changes(es[i], k.path);
    }
  }

  /** In every run without a revival, a ready row that the source does not list has its path queued once tracking is
      complete, and keeps the gate closed in any case. */
  lemma OutdatedRowClosesTheGate(w: World, es: seq<Event>, k: Key)
    requires Fresh(w) && IsRun(w, es) && AdmittedRun(w, es, true)
    requires var v := Final(w, es); k in v.parts && v.parts[k].status == Ready && k.path != "" && !Current(v, k)
    ensures var v := Final(w, es); !GlobalGateOf(v) && (v.complete ==> k.path in v.queue)
  {
    var v := Final(w, es);
    RunKeepsInv(w, es, true);
    hide IsRun;
    hide AdmittedRun;
    assert v.complete && k.path !in v.queue ==> Agrees(v.parts, k.path, Get(v.source, k.path), true);
    hide Inv;
    ReadyAgrees(v.parts, k, Get(v.source, k.path));
  }

  lemma ReadyAgrees(t: Table, k: Key, seen: Option<SourcePart>)
    requires k in t && t[k].status == Ready && k.path != ""
    ensures Agrees(t, k.path, seen, true) ==> Has(seen, k.identity)
  {
  }

  // ---- a row that has left the load states ----

  predicate IsOut(t: Table, k: Key) { k in t && !ActiveLoad(t[k].status) }

  /** The steps that put such a row back: a reconcile that lists its part, and a pause or failure after its retirement. */
  predicate LetsBackIn(w: World, e: Event, k: Key)
    requires Possible(w, e)
  {
    || (e.Merge? && IsListed(EligibleOf(w.phase.page), k))
    || (e.Sweep? && IsListed(InScan(w.phase.seen, w.phase.startUs, w.phase.endUs), k))
    || ((e.Release? || e.Fail?) && w.phase.key == k && w.parts[k].status == Retired)
  }

  lemma OutAfterListing(t: Table, src: map<string, Source>, at: Stamp, k: Key)
    requires WellKeyed(src) && IsOut(t, k)
    ensures IsOut(SetBased(t, src, at), k) <==> !IsListed(src, k)
  {
    SetBasedAt(t, src, at, k);
    hide SetBased;
  }

  lemma OutAfterSweep(t: Table, src: map<string, Source>, startUs: int, at: Stamp, k: Key)
    requires WellKeyed(src) && IsOut(t, k)
    ensures IsOut(Manifest.Swept(SetBased(t, src, at), ListedKeys(src), startUs, at), k) <==> !IsListed(src, k)
  {
    var u := SetBased(t, src, at);
    OutAfterListing(t, src, at, k);
    ListedKeysMeans(src, k);
    SetBasedAt(t, src, at, k);
    hide SetBased;
    hide WellKeyed;
    SweptOut(u, ListedKeys(src), startUs, at, k);
    hide ListedKeys;
    hide Manifest.Swept;
    hide IsListed;
    hide Upserted;
  }

  lemma SweptOut(u: Table, listed: set<Key>, startUs: int, at: Stamp, k: Key)
    requires k in u
    ensures k in Manifest.Swept(u, listed, startUs, at)
    ensures k in listed ==> Manifest.Swept(u, listed, startUs, at)[k] == u[k]
    ensures k !in listed ==> IsOut(Manifest.Swept(u, listed, startUs, at), k)
  {
    SweptAt(u, listed, startUs, at, k);
    hide Manifest.Swept;
  }

  lemma OutAfterSource(w: World, e: Event, k: Key)
    requires IsOut(w.parts, k) && IsSourceEvent(e) && Possible(w, e)
    ensures IsOut(SourceStep(w, e).parts, k) <==> !LetsBackIn(w, e, k)
  {
    hide SetBased;
    hide EligibleOf;
    hide InScan;
    hide Manifest.Swept;
    hide IsListed;
    match e
    case Merge(at) => OutAfterListing(w.parts, EligibleOf(w.phase.page), at, k);
    case Sweep(at) =>
      var src := InScan(w.phase.seen, w.phase.startUs, w.phase.endUs);
      OutAfterListing(w.parts, src, at, k);
      OutAfterSweep(w.parts, src, w.phase.startUs, at, k);
    case _ =>
  }

  lemma OutAfterStep(w: World, e: Event, k: Key)
    requires IsOut(w.parts, k) && Possible(w, e)
    ensures IsOut(Step(w, e).parts, k) <==> !LetsBackIn(w, e, k)
  {
    hide SourceStep;
    if IsSourceEvent(e) {
      hide LetsBackIn;
      hide IsOut;
      hide LoadStep;
      hide JobStep;
      OutAfterSource(w, e, k);
    } else if IsLoadEvent(e) {
      hide JobStep;
      OutAfterLoad(w, e, k);
    } else {
      hide LoadStep;
      OutAfterJob(w, e, k);
    }
  }

  lemma OutAfterLoad(w: World, e: Event, k: Key)
    requires IsOut(w.parts, k) && IsLoadEvent(e) && Possible(w, e)
    ensures IsOut(LoadStep(w, e).parts, k) && !LetsBackIn(w, e, k)
  {
    hide IsListed;
    hide Held;
    hide Count;
    hide Doomed;
  }

  lemma OutAfterJob(w: World, e: Event, k: Key)
    requires IsOut(w.parts, k) && !IsSourceEvent(e) && !IsLoadEvent(e) && Possible(w, e)
    ensures IsOut(JobStep(w, e).parts, k) <==> !LetsBackIn(w, e, k)
  {
    hide IsListed;
    hide Held;
    hide Count;
    hide Doomed;
  }

  ghost predicate NeverLetIn(w: World, es: seq<Event>, k: Key)
    requires IsRun(w, es)
    decreases |es|
  {
    es == [] || (!LetsBackIn(w, es[0], k) && NeverLetIn(Step(w, es[0]), es[1..], k))
  }

  /** A row that has left the load states is not ready again, nor even in a load state, before a reconcile lists its part
      or a pause or failure revives it. */
  lemma {:induction false} OutStaysOut(w: World, es: seq<Event>, k: Key)
    requires IsOut(w.parts, k) && IsRun(w, es) && NeverLetIn(w, es, k)
    ensures IsOut(Final(w, es).parts, k)
    decreases |es|
  {
    hide Step;
    hide Possible;
    hide LetsBackIn;
    hide IsOut;
    if es != [] {
      OutAfterStep(w, es[0], k);
      OutStaysOut(Step(w, es[0]), es[1..], k);
    }
  }
}
