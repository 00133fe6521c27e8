/** The single-flight supervisor of app/indexed_query_worker.py: one native process at a time, and cancellations that
    fence an identity before it is ever admitted. Handler threads are interleaved step by step; the clock is a counter. */
module Supervisor {
  import opened Select

  type Id = string

  const FENCE_SECONDS: nat := 65
  const FENCES: nat := 128

  // ---- what the lock protects ----

  /** `active` is the serial number of the admitted job. */
  datatype Server = Server(active: Option<nat>, cancelled: map<Id, int>)

  predicate FencedOff(s: Server, id: Id, now: int) { id in s.cancelled && s.cancelled[id] > now }

  /** Admission: refused for a fenced identity, refused while a job is active. */
  predicate Admits(s: Server, id: Id, now: int) { !FencedOff(s, id, now) && s.active.None? }

  function Unexpired(cancelled: map<Id, int>, now: int): map<Id, int> { map k | k in cancelled && cancelled[k] > now :: cancelled[k] }

  predicate CanFence(s: Server, id: Id, now: int) {
    |Unexpired(s.cancelled, now)| < FENCES || id in Unexpired(s.cancelled, now)
  }

  /** A cancellation of an identity that is not active. */
  function Fence(s: Server, id: Id, now: int): Server {
    var live := Unexpired(s.cancelled, now);
    s.(cancelled := if CanFence(s, id, now) then live[id := now + FENCE_SECONDS] else live)
  }

  /** `QueryServer`: its fields change only under the lock, one method at a time. */
  class QueryServer {
    var active: Option<nat>
    var cancelled: map<Id, int>

    constructor ()
      ensures State() == Server(None, map[])
    {
      active, cancelled := None, map[];
    }

    function State(): Server
      reads this
    {
      Server(active, cancelled)
    }

    method Admit(id: Id, serial: nat, now: int) returns (admitted: bool)
      modifies this
      ensures admitted == Admits(old(State()), id, now)
      ensures State() == if admitted then old(State()).(active := Some(serial)) else old(State())
    {
      if id in cancelled && cancelled[id] > now {
        return false;
      }
      if active.Some? {
        return false;
      }
      active := Some(serial);
      admitted := true;
    }

    method FenceOff(id: Id, now: int) returns (terminal: bool)
      modifies this
      ensures terminal == CanFence(old(State()), id, now)
      ensures State() == Fence(old(State()), id, now)
    {
      cancelled := map k | k in cancelled && cancelled[k] > now :: cancelled[k];
      terminal := |cancelled| < FENCES || id in cancelled;
      if terminal {
        cancelled := cancelled[id := now + FENCE_SECONDS];
      }
    }

    method Release()
      modifies this
      ensures State() == old(State()).(active := None)
    {
      active := None;
    }
  }

  // ---- stopping a process ----

  class Process {
    var alive: bool

    /** The process may end at any moment; `exited` is what a bounded wait reports. */
    method Wait() returns (exited: bool)
      modifies this
      ensures exited <==> !alive
      ensures alive ==> old(alive)
    {
      if * {
        alive := false;
      }
      exited := !alive;
    }
  }

  /** `stop_owned_process`: a normal return means that the process has ended; otherwise the last wait has timed out. */
  method StopOwnedProcess(p: Process) returns (timedOut: bool)
    modifies p
    ensures timedOut <==> p.alive
    ensures p.alive ==> old(p.alive)
  {
    timedOut := false;
    if p.alive {
      var exited := p.Wait();
      if !exited {
        exited := p.Wait();
        timedOut := !exited;
      }
    }
  }

  // ---- interleaved handlers ----

  datatype ProcessState = NotStarted | Alive | Exited

  /** Where a query handler stands. */
  datatype Stage =
    | Admitted      // holds the slot, no process yet
    | Running       // its process has been started
    | Ending        // in the last clause: the process is stopped, or was never started
    | Lost          // the process could not be stopped; the slot is kept for good
    | Closed        // the slot has been given back

  datatype Job = Job(id: Id, stage: Stage, process: ProcessState, cancel: bool, done: bool)

  /** A cancellation answered with `terminal: true`. */
  datatype Ack = JobEnded(serial: nat) | Fenced(id: Id, until: int)

  datatype World = World(server: Server, jobs: seq<Job>, waiting: set<nat>, acks: set<Ack>, clock: int)

  datatype Event =
    | Tick
    | Query(id: Id)
    | Cancel(id: Id)
    | CancelAnswer(serial: nat)   // a waiting cancellation returns, on `done` or after its timeout
    | Start(serial: nat)
    | StartFails(serial: nat)
    | ProcessEnds(serial: nat)
    | Stopped(serial: nat)        // the inner clause: stop_owned_process returned, `done` is set
    | GivesUp(serial: nat)        // an exception on the way: on to the last clause
    | Confirm(serial: nat)        // the last clause, under the lock
    | Abandon(serial: nat)        // stop_owned_process fails in the last clause too

  predicate IsJob(w: World, n: nat, stage: Stage) { n < |w.jobs| && w.jobs[n].stage == stage }

  predicate Possible(w: World, e: Event) {
    match e
    case Tick => true
    case Query(_) => true
    case Cancel(_) => true
    case CancelAnswer(n) => n in w.waiting && n < |w.jobs|
    case Start(n) => IsJob(w, n, Admitted)
    case StartFails(n) => IsJob(w, n, Admitted)
    case ProcessEnds(n) => n < |w.jobs| && w.jobs[n].process == Alive
    case Stopped(n) => IsJob(w, n, Running) && w.jobs[n].process == Exited
    case GivesUp(n) => IsJob(w, n, Running)
    case Confirm(n) => IsJob(w, n, Ending) && w.jobs[n].process != Alive
    case Abandon(n) => IsJob(w, n, Ending) && w.jobs[n].process == Alive
  }

  function Put(w: World, n: nat, job: Job): World
    requires n < |w.jobs|
  {
    w.(jobs := w.jobs[n := job])
  }

  function Step(w: World, e: Event): World
    requires Possible(w, e)
  {
    match e
    case Tick => w.(clock := w.clock + 1)
    case Query(id) =>
      if Admits(w.server, id, w.clock)
      then w.(server := w.server.(active := Some(|w.jobs|)), jobs := w.jobs + [Job(id, Admitted, NotStarted, false, false)])
      else w
    case Cancel(id) =>
      if w.server.active.Some? && w.server.active.value < |w.jobs| && w.jobs[w.server.active.value].id == id
      then
        var n := w.server.active.value;
        Put(w, n, w.jobs[n].(cancel := true)).(waiting := w.waiting + {n})
      else
        w.(server := Fence(w.server, id, w.clock),
           acks := if CanFence(w.server, id, w.clock) then w.acks + {Fenced(id, w.clock + FENCE_SECONDS)} else w.acks)
    case CancelAnswer(n) =>
      w.(waiting := w.waiting - {n}, acks := if w.jobs[n].done then w.acks + {JobEnded(n)} else w.acks)
    case Start(n) => Put(w, n, w.jobs[n].(stage := Running, process := Alive))
    case StartFails(n) => Put(w, n, w.jobs[n].(stage := Ending))
    case ProcessEnds(n) => Put(w, n, w.jobs[n].(process := Exited))
    case Stopped(n) => Put(w, n, w.jobs[n].(stage := Ending, done := true))
    case GivesUp(n) => Put(w, n, w.jobs[n].(stage := Ending))
    case Confirm(n) => Put(w, n, w.jobs[n].(stage := Closed, done := true)).(server := w.server.(active := None))
    case Abandon(n) => Put(w, n, w.jobs[n].(stage := Lost))
  }

  // ---- what every step keeps ----

  /** An admitted job that has not given its slot back is the active one; only such a job has a process. */
  predicate JobInv(w: World, n: nat)
    requires n < |w.jobs|
  {
    var job := w.jobs[n];
    && (job.stage != Closed <==> w.server.active == Some(n))
    && (job.stage == Admitted ==> job.process == NotStarted)
    && (job.stage == Running ==> job.process != NotStarted)
    && (job.process == Alive ==> job.stage in {Running, Ending, Lost})
    && (job.done ==> job.process != Alive && job.stage in {Ending, Closed})
  }

  /** A fence that was acknowledged is still up, and no job of its identity holds the slot. */
  predicate AckInv(w: World, a: Ack) {
    match a
    case JobEnded(n) => n < |w.jobs| && w.jobs[n].done
    case Fenced(id, until) =>
      w.clock < until ==>
        && id in w.server.cancelled && w.server.cancelled[id] >= until
        && forall n | 0 <= n < |w.jobs| && w.jobs[n].id == id :: w.jobs[n].stage == Closed
  }

  ghost predicate Inv(w: World) {
    && (w.server.active.Some? ==> w.server.active.value < |w.jobs|)
    && (forall n | 0 <= n < |w.jobs| :: JobInv(w, n))
    && (forall a | a in w.acks :: AckInv(w, a))
    && (forall id | id in w.server.cancelled :: w.server.cancelled[id] <= w.clock + FENCE_SECONDS)
    && (forall id | id in w.server.cancelled :: Fenced(id, w.server.cancelled[id]) in w.acks)
    && |w.server.cancelled| <= FENCES
  }

  lemma FenceSize(s: Server, id: Id, now: int)
    requires |s.cancelled| <= FENCES
    ensures |Fence(s, id, now).cancelled| <= FENCES
  {
    var live := Unexpired(s.cancelled, now);
    assert live.Keys <= s.cancelled.Keys;
    SubsetSize(live.Keys, s.cancelled.Keys);
    assert |live| == |live.Keys| && |s.cancelled| == |s.cancelled.Keys|;
    if id in live {
      assert live[id := now + FENCE_SECONDS].Keys == live.Keys;
    }
  }

  lemma FenceMeans(s: Server, id: Id, now: int)
    ensures Fence(s, id, now).active == s.active
    ensures forall k | k in Fence(s, id, now).cancelled && (k != id || !CanFence(s, id, now)) ::
              k in s.cancelled && s.cancelled[k] == Fence(s, id, now).cancelled[k]
    ensures forall k | k in s.cancelled && s.cancelled[k] > now && k != id ::
              k in Fence(s, id, now).cancelled && Fence(s, id, now).cancelled[k] == s.cancelled[k]
    ensures CanFence(s, id, now) ==> id in Fence(s, id, now).cancelled && Fence(s, id, now).cancelled[id] == now + FENCE_SECONDS
    ensures !CanFence(s, id, now) ==> !FencedOff(s, id, now)
  {
  }

  lemma SubsetSize<T>(a: set<T>, b: set<T>)
    requires a <= b
    ensures |a| <= |b|
  {
    assert |b - a| == |b| - |a|;
  }

  lemma StepKeepsInv(w: World, e: Event)
    requires Inv(w) && Possible(w, e)
    ensures Inv(Step(w, e))
  {
    match e
    case Cancel(id) => CancelKeepsInv(w, id);
    case Query(id) => QueryKeepsInv(w, id);
    case _ => JobStepKeepsInv(w, e);
  }

  lemma QueryKeepsInv(w: World, id: Id)
    requires Inv(w)
    ensures Inv(Step(w, Query(id)))
  {
    var v := Step(w, Query(id));
    if v != w {
      forall n | 0 <= n < |v.jobs| ensures JobInv(v, n) {
        assert n < |w.jobs| ==> JobInv(w, n);
      }
      forall a | a in v.acks ensures AckInv(v, a) {
        assert AckInv(w, a);
      }
    }
  }

  lemma CancelActiveKeepsInv(w: World, n: nat)
    requires Inv(w) && w.server.active == Some(n) && n < |w.jobs|
    ensures Inv(Put(w, n, w.jobs[n].(cancel := true)).(waiting := w.waiting + {n}))
  {
    var v := Put(w, n, w.jobs[n].(cancel := true)).(waiting := w.waiting + {n});
    forall m | 0 <= m < |v.jobs| ensures JobInv(v, m) {
      assert JobInv(w, m);
    }
    forall a | a in v.acks ensures AckInv(v, a) {
      assert AckInv(w, a);
    }
  }

  function FencedWorld(w: World, id: Id): World {
    w.(server := Fence(w.server, id, w.clock),
       acks := if CanFence(w.server, id, w.clock) then w.acks + {Fenced(id, w.clock + FENCE_SECONDS)} else w.acks)
  }

  lemma FenceKeepsAck(w: World, id: Id, a: Ack)
    requires Inv(w) && a in w.acks
    ensures AckInv(FencedWorld(w, id), a)
  {
    hide Fence;
    FenceMeans(w.server, id, w.clock);
    assert AckInv(w, a);
  }

  lemma NewAckHolds(w: World, id: Id)
    requires Inv(w) && (w.server.active.Some? ==> w.jobs[w.server.active.value].id != id) && CanFence(w.server, id, w.clock)
    ensures AckInv(FencedWorld(w, id), Fenced(id, w.clock + FENCE_SECONDS))
  {
    hide Fence;
    FenceMeans(w.server, id, w.clock);
    forall n | 0 <= n < |w.jobs| && w.jobs[n].id == id ensures w.jobs[n].stage == Closed {
      assert JobInv(w, n);
    }
  }

  lemma FenceKeepsFences(w: World, id: Id)
    requires Inv(w)
    ensures var v := FencedWorld(w, id);
            && (forall k | k in v.server.cancelled :: v.server.cancelled[k] <= v.clock + FENCE_SECONDS)
            && (forall k | k in v.server.cancelled :: Fenced(k, v.server.cancelled[k]) in v.acks)
            && |v.server.cancelled| <= FENCES
  {
    hide Fence;
    FenceSize(w.server, id, w.clock);
    FenceMeans(w.server, id, w.clock);
    hide AckInv;
    hide JobInv;
  }

  lemma FenceKeepsJobs(w: World, id: Id)
    requires Inv(w)
    ensures var v := FencedWorld(w, id);
            v.jobs == w.jobs && v.server.active == w.server.active && forall n | 0 <= n < |v.jobs| :: JobInv(v, n)
  {
    var v := FencedWorld(w, id);
    forall n | 0 <= n < |v.jobs| ensures JobInv(v, n) {
      assert JobInv(w, n);
    }
  }

  lemma FenceKeepsAcks(w: World, id: Id)
    requires Inv(w) && (w.server.active.Some? ==> w.jobs[w.server.active.value].id != id)
    ensures forall a | a in FencedWorld(w, id).acks :: AckInv(FencedWorld(w, id), a)
  {
    hide AckInv;
    hide Fence;
    hide CanFence;
    hide JobInv;
    forall a | a in FencedWorld(w, id).acks ensures AckInv(FencedWorld(w, id), a) {
      if a in w.acks {
        FenceKeepsAck(w, id, a);
      } else {
        NewAckHolds(w, id);
      }
    }
  }

  lemma FenceKeepsInv(w: World, id: Id)
    requires Inv(w) && (w.server.active.Some? ==> w.jobs[w.server.active.value].id != id)
    ensures Inv(FencedWorld(w, id))
  {
    hide AckInv;
    hide JobInv;
    hide FencedWorld;
    FenceKeepsFences(w, id);
    FenceKeepsJobs(w, id);
    FenceKeepsAcks(w, id);
  }

  lemma CancelKeepsInv(w: World, id: Id)
    requires Inv(w)
    ensures Inv(Step(w, Cancel(id)))
  {
    hide Inv;
    hide Fence;
    hide CanFence;
    ActiveIsJob(w);
    if w.server.active.Some? && w.jobs[w.server.active.value].id == id {
      CancelActiveKeepsInv(w, w.server.active.value);
    } else {
      FenceKeepsInv(w, id);
    }
  }

  lemma ActiveIsJob(w: World)
    requires Inv(w)
    ensures w.server.active.Some? ==> w.server.active.value < |w.jobs|
  {
  }

  lemma JobStepKeepsInv(w: World, e: Event)
    requires Inv(w) && Possible(w, e) && !e.Cancel? && !e.Query?
    ensures Inv(Step(w, e))
  {
    var v := Step(w, e);
    forall n | 0 <= n < |v.jobs| ensures JobInv(v, n) {
      assert JobInv(w, n);
      assert e.Confirm? ==> JobInv(w, e.serial);
    }
    forall a | a in v.acks ensures AckInv(v, a) {
      assert a in w.acks ==> AckInv(w, a);
    }
  }

  // ---- runs ----

  predicate Fresh(w: World) {
    w.server == Server(None, map[]) && w.jobs == [] && w.waiting == {} && w.acks == {}
  }

  ghost predicate IsRun(w: World, es: seq<Event>)
    decreases |es|
  {
    es == [] || (Possible(w, es[0]) && IsRun(Step(w, es[0]), es[1..]))
  }

  function Final(w: World, es: seq<Event>): World
    requires IsRun(w, es)
    decreases |es|
  {
    if es == [] then w else Final(Step(w, es[0]), es[1..])
  }

  lemma {:induction false} RunKeepsInv(w: World, es: seq<Event>)
    requires Inv(w) && IsRun(w, es)
    ensures Inv(Final(w, es))
    decreases |es|
  {
    hide Inv;
    hide Step;
    hide Possible;
    if es != [] {
      StepKeepsInv(w, es[0]);
      RunKeepsInv(Step(w, es[0]), es[1..]);
    }
  }

  predicate IsAlive(w: World, n: nat) { n < |w.jobs| && w.jobs[n].process == Alive }

  /** Under any interleaving at most one native process is alive, and it belongs to the job that holds the slot. */
  lemma AtMostOneProcess(w: World, es: seq<Event>, m: nat, n: nat)
    requires Fresh(w) && IsRun(w, es) && IsAlive(Final(w, es), m) && IsAlive(Final(w, es), n)
    ensures m == n && Final(w, es).server.active == Some(m)
  {
    RunKeepsInv(w, es);
    assert JobInv(Final(w, es), m) && JobInv(Final(w, es), n);
  }

  /** The slot is given back only after the job's process has exited, or was never started. */
  lemma SlotFreedAfterExit(w: World, es: seq<Event>, e: Event)
    requires Fresh(w) && IsRun(w, es) && Possible(Final(w, es), e)
    requires var v := Final(w, es); v.server.active.Some? && Step(v, e).server.active != v.server.active
    ensures var v := Final(w, es);
            var n := v.server.active.value;
            n < |v.jobs| && v.jobs[n].process != Alive && Step(v, e).server.active == None && Step(v, e).jobs[n].stage == Closed
  {
    RunKeepsInv(w, es);
    var v := Final(w, es);
    if e.Confirm? {
      assert JobInv(v, e.serial);
    }
  }

  /** A job that has ended stays ended: no later step gives it a process. */
  lemma {:induction false} EndedStaysEnded(w: World, es: seq<Event>, n: nat)
    requires Inv(w) && IsRun(w, es) && n < |w.jobs| && w.jobs[n].done
    ensures var v := Final(w, es); n < |v.jobs| && v.jobs[n].id == w.jobs[n].id && v.jobs[n].done && v.jobs[n].process != Alive
    decreases |es|
  {
    if es == [] {
      assert JobInv(w, n);
    } else {
      EndedAfterStep(w, es[0], n);
      StepKeepsInv(w, es[0]);
      hide Inv;
      hide Step;
      hide Possible;
      EndedStaysEnded(Step(w, es[0]), es[1..], n);
    }
  }

  lemma EndedAfterStep(w: World, e: Event, n: nat)
    requires Inv(w) && Possible(w, e) && n < |w.jobs| && w.jobs[n].done
    ensures var v := Step(w, e); n < |v.jobs| && v.jobs[n].id == w.jobs[n].id && v.jobs[n].done
  {
    assert JobInv(w, n);
  }

  /** What an acknowledged cancellation is worth: the process of its job has ended, or, while the fence is up, no process of
      that identity is alive and none will be admitted. */
  lemma AcknowledgedCancelIsFinal(w: World, es: seq<Event>, a: Ack)
    requires Fresh(w) && IsRun(w, es) && a in Final(w, es).acks
    ensures var v := Final(w, es);
            match a
            case JobEnded(n) => n < |v.jobs| && v.jobs[n].done && v.jobs[n].process != Alive
            case Fenced(id, until) =>
              v.clock < until ==>
                && !Admits(v.server, id, v.clock)
                && forall n | 0 <= n < |v.jobs| && v.jobs[n].id == id :: v.jobs[n].process != Alive
  {
    RunKeepsInv(w, es);
    var v := Final(w, es);
    assert AckInv(v, a);
    match a
    case JobEnded(n) => assert JobInv(v, n);
    case Fenced(id, until) =>
      forall n | 0 <= n < |v.jobs| && v.jobs[n].id == id && v.clock < until ensures v.jobs[n].process != Alive {
        assert JobInv(v, n);
      }
  }

  /** The fences never outgrow their table. */
  lemma FencesAreBounded(w: World, es: seq<Event>)
    requires Fresh(w) && IsRun(w, es)
    ensures |Final(w, es).server.cancelled| <= FENCES
  {
    RunKeepsInv(w, es);
  }

  // ---- who is let in ----

  /** An acknowledged fence of the identity has not expired. */
  ghost predicate IsFenced(w: World, id: Id) { exists until :: Fenced(id, until) in w.acks && w.clock < until }

  lemma FencesAreAcknowledged(w: World, id: Id)
    requires Inv(w)
    ensures FencedOff(w.server, id, w.clock) <==> IsFenced(w, id)
  {
    if until :| Fenced(id, until) in w.acks && w.clock < until {
      assert AckInv(w, Fenced(id, until));
    }
  }

  /** In every run a query is admitted exactly when every job before it has given its slot back and no acknowledged fence of its
      identity is up; then it holds the slot. */
  lemma AdmittedExactly(w: World, es: seq<Event>, id: Id)
    requires Fresh(w) && IsRun(w, es)
    ensures var v := Final(w, es);
            var u := Step(v, Query(id));
            if (forall job | job in v.jobs :: job.stage == Closed) && !IsFenced(v, id)
            then u.jobs == v.jobs + [Job(id, Admitted, NotStarted, false, false)] && u.server.active == Some(|v.jobs|)
            else u == v
  {
    RunKeepsInv(w, es);
    var v := Final(w, es);
    FencesAreAcknowledged(v, id);
    if v.server.active.Some? {
      assert JobInv(v, v.server.active.value) && v.jobs[v.server.active.value] in v.jobs;
    } else {
      forall job | job in v.jobs ensures job.stage == Closed {
        var n :| 0 <= n < |v.jobs| && v.jobs[n] == job;
        assert JobInv(v, n);
      }
    }
    hide IsFenced;
  }

  /** Identities with an acknowledged fence that is up. */
  ghost function FencedIds(w: World): set<Id> { set id | id in w.server.cancelled && IsFenced(w, id) }

  /** In every run the cancellation of an identity that holds no slot is acknowledged at once, for 65 seconds, unless 128 other
      identities are fenced. */
  lemma CancelledExactly(w: World, es: seq<Event>, id: Id)
    requires Fresh(w) && IsRun(w, es) && forall job | job in Final(w, es).jobs && job.id == id :: job.stage == Closed
    ensures var v := Final(w, es);
            var u := Step(v, Cancel(id));
            && (forall other | IsFenced(v, other) :: other in FencedIds(v))
            && u.acks == if IsFenced(v, id) || |FencedIds(v)| < 128 then v.acks + {Fenced(id, v.clock + 65)} else v.acks
  {
    hide *;
    FreshIsInv(w);
    RunKeepsInv(w, es);
    CancelledIn(Final(w, es), id);
  }

  lemma FreshIsInv(w: World)
    requires Fresh(w)
    ensures Inv(w)
  {
  }

  lemma CancelledIn(v: World, id: Id)
    requires Inv(v) && forall job | job in v.jobs && job.id == id :: job.stage == Closed
    ensures forall other | IsFenced(v, other) :: other in FencedIds(v)
    ensures Step(v, Cancel(id)).acks ==
              if IsFenced(v, id) || |FencedIds(v)| < 128 then v.acks + {Fenced(id, v.clock + 65)} else v.acks
  {
    hide *;
    HoldsNoSlot(v, id);
    FencedIdsAre(v);
    CancelStep(v, id);
  }

  lemma CancelStep(v: World, id: Id)
    requires v.server.active.Some? ==> v.server.active.value < |v.jobs| && v.jobs[v.server.active.value].id != id
    ensures var live := Unexpired(v.server.cancelled, v.clock);
            Step(v, Cancel(id)).acks == if id in live || |live| < 128 then v.acks + {Fenced(id, v.clock + 65)} else v.acks
  {
    hide Unexpired;
  }

  lemma HoldsNoSlot(v: World, id: Id)
    requires Inv(v) && forall job | job in v.jobs && job.id == id :: job.stage == Closed
    ensures v.server.active.Some? ==> v.server.active.value < |v.jobs| && v.jobs[v.server.active.value].id != id
  {
    if v.server.active.Some? {
      assert JobInv(v, v.server.active.value) && v.jobs[v.server.active.value] in v.jobs;
    }
  }

  lemma FencedIdsAre(v: World)
    requires Inv(v)
    ensures |Unexpired(v.server.cancelled, v.clock)| == |FencedIds(v)|
    ensures forall id :: IsFenced(v, id) <==> id in FencedIds(v)
    ensures forall id :: id in Unexpired(v.server.cancelled, v.clock) <==> IsFenced(v, id)
  {
    forall id ensures FencedOff(v.server, id, v.clock) <==> IsFenced(v, id) {
      FencesAreAcknowledged(v, id);
    }
    hide IsFenced;
    hide Inv;
    assert Unexpired(v.server.cancelled, v.clock).Keys == FencedIds(v);
  }

  /** A job's events to its end. */
  function WayOut(job: Job, n: nat): seq<Event> {
    match job.stage
    case Admitted => [StartFails(n), Confirm(n)]
    case Running => if job.process == Alive then [ProcessEnds(n), Stopped(n), Confirm(n)] else [Stopped(n), Confirm(n)]
    case Ending => if job.process == Alive then [ProcessEnds(n), Confirm(n)] else [Confirm(n)]
    case Lost => []
    case Closed => []
  }

  lemma RunOn(w: World, e: Event, es: seq<Event>)
    requires Possible(w, e) && IsRun(Step(w, e), es)
    ensures IsRun(w, [e] + es) && Final(w, [e] + es) == Final(Step(w, e), es)
  {
    assert ([e] + es)[1..] == es;
  }

  lemma EndingEnds(w: World, n: nat)
    requires n < |w.jobs| && w.jobs[n].stage == Ending
    ensures var es := if w.jobs[n].process == Alive then [ProcessEnds(n), Confirm(n)] else [Confirm(n)];
            IsRun(w, es) && Final(w, es).server.active == None && n < |Final(w, es).jobs| && Final(w, es).jobs[n].done
  {
    if w.jobs[n].process == Alive {
      var u := Step(w, ProcessEnds(n));
      RunOn(u, Confirm(n), []);
      assert [Confirm(n)] + [] == [Confirm(n)];
      RunOn(w, ProcessEnds(n), [Confirm(n)]);
      assert [ProcessEnds(n)] + [Confirm(n)] == [ProcessEnds(n), Confirm(n)];
    } else {
      RunOn(w, Confirm(n), []);
      assert [Confirm(n)] + [] == [Confirm(n)];
    }
  }

  lemma RunningEnds(w: World, n: nat)
    requires n < |w.jobs| && w.jobs[n].stage == Running && w.jobs[n].process == Exited
    ensures var es := [Stopped(n), Confirm(n)];
            IsRun(w, es) && Final(w, es).server.active == None && n < |Final(w, es).jobs| && Final(w, es).jobs[n].done
  {
    EndingEnds(Step(w, Stopped(n)), n);
    RunOn(w, Stopped(n), [Confirm(n)]);
    assert [Stopped(n)] + [Confirm(n)] == [Stopped(n), Confirm(n)];
  }

  /** Whoever holds the slot can give it back, unless its process could not be stopped. */
  lemma SlotCanBeFreed(w: World)
    requires Inv(w) && w.server.active.Some? && w.jobs[w.server.active.value].stage != Lost
    ensures var n := w.server.active.value;
            var es := WayOut(w.jobs[n], n);
            IsRun(w, es) && Final(w, es).server.active == None && n < |Final(w, es).jobs| && Final(w, es).jobs[n].done
  {
    var n := w.server.active.value;
    var job := w.jobs[n];
    assert JobInv(w, n);
    hide Inv;
    match job.stage {
      case Admitted =>
        EndingEnds(Step(w, StartFails(n)), n);
        RunOn(w, StartFails(n), [Confirm(n)]);
        assert [StartFails(n)] + [Confirm(n)] == [StartFails(n), Confirm(n)];
      case Running =>
        if job.process == Alive {
          RunningEnds(Step(w, ProcessEnds(n)), n);
          RunOn(w, ProcessEnds(n), [Stopped(n), Confirm(n)]);
          assert [ProcessEnds(n)] + [Stopped(n), Confirm(n)] == [ProcessEnds(n), Stopped(n), Confirm(n)];
        } else {
          RunningEnds(w, n);
        }
      case Ending => EndingEnds(w, n);
      case _ =>
    }
  }
}
