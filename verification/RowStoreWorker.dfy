/** `Claims`, and `commit_batch` as a lane executes it while everything else goes on. */
module RowStoreWorker {
  import opened Select
  import opened RowStore
  import opened RowStoreProof

  /** In-process ownership (`Claims`), as the steps of the protocol use it. A committed file is never handed out again. */
  class Claims {
    var ids: set<FileId>
    var done: set<FileId>

    ghost predicate Mirrors(w: World)
      reads this
    {
      ids == w.claims && done == w.done
    }

    constructor ()
      ensures ids == {} && done == {}
    {
      ids, done := {}, {};
    }

    method Take(f: FileId) returns (taken: bool)
      modifies this`ids
      ensures taken <==> f !in old(ids) && f !in done
      ensures ids == if taken then old(ids) + {f} else old(ids)
    {
      if f in ids || f in done {
        return false;
      }
      ids := ids + {f};
      taken := true;
    }

    method Free(f: FileId)
      modifies this`ids
      ensures ids == old(ids) - {f}
    {
      ids := ids - {f};
    }

    method Finish(f: FileId)
      modifies this
      ensures ids == old(ids) - {f} && done == old(done) + {f}
    {
      ids, done := ids - {f}, done + {f};
    }

    /** A lane asks for a file: it gets it exactly where the protocol lets it take one, and that is the step it takes. */
    method TakeCandidate(f: FileId, ghost c: Content, ghost w: World, ghost l: nat) returns (taken: bool)
      requires Mirrors(w) && l < |w.lanes| && (w.lanes[l].Idle? || (w.lanes[l].Selecting? && w.lanes[l].candidate.None?))
      modifies this`ids
      ensures taken <==> exists u :: Next(c, w, Event.Take(l, f), u)
      ensures taken ==> forall u | Next(c, w, Event.Take(l, f), u) :: Mirrors(u)
      ensures !taken ==> Mirrors(w)
    {
      taken := Take(f);
      if taken {
        ghost var files := if w.lanes[l].Idle? then [] else w.lanes[l].files;
        assert Next(c, w, Event.Take(l, f), WithLane(w.(claims := w.claims + {f}), l, Selecting(files, Some(f))));
      }
    }

    /** A candidate that turns out to be ingested is finished, not loaded. */
    method FinishCandidate(f: FileId, ghost c: Content, ghost w: World, ghost l: nat)
      requires Mirrors(w) && l < |w.lanes| && w.lanes[l].Selecting? && w.lanes[l].candidate == Some(f)
      requires w.cached.Some? && f in w.cached.value
      modifies this
      ensures forall u | Next(c, w, Check(l), u) :: Mirrors(u)
    {
      Finish(f);
    }

    /** The end of a batch that failed. */
    method FreeBatch(files: seq<FileId>, ghost c: Content, ghost w: World, ghost l: nat)
      requires Mirrors(w) && l < |w.lanes| && Held(w.lanes[l]) == SetOf(files)
      modifies this`ids
      ensures forall u | Next(c, w, GiveUp(l), u) :: Mirrors(u)
    {
      var i := 0;
      while i < |files|
        invariant 0 <= i <= |files| && done == old(done) && ids == old(ids) - SetOf(files[..i])
      {
        assert files[..i + 1] == files[..i] + [files[i]];
        Free(files[i]);
        i := i + 1;
      }
      assert files[..|files|] == files;
    }

    /** The end of a batch that is committed. */
    method FinishBatch(files: seq<FileId>, ghost c: Content, ghost w: World, ghost l: nat)
      requires Mirrors(w) && l < |w.lanes| && Held(w.lanes[l]) == SetOf(files)
      modifies this
      ensures forall u | Next(c, w, Event.Finish(l), u) :: Mirrors(u)
    {
      var i := 0;
      while i < |files|
        invariant 0 <= i <= |files|
        invariant ids == old(ids) - SetOf(files[..i]) && done == old(done) + SetOf(files[..i])
      {
        assert files[..i + 1] == files[..i] + [files[i]];
        Finish(files[i]);
        i := i + 1;
      }
      assert files[..|files|] == files;
    }

    /** A new process claims the files of the markers it finds. */
    method TakeMarked(files: seq<FileId>, ghost c: Content, ghost w: World)
      requires ids == {} && done == {} && SetOf(files) == w.disk.markers.Keys
      modifies this`ids
      ensures forall u | Next(c, w, Crash, u) :: Mirrors(u)
    {
      var i := 0;
      while i < |files|
        invariant 0 <= i <= |files| && ids == SetOf(files[..i])
      {
        assert files[..i + 1] == files[..i] + [files[i]];
        var _ := Take(files[i]);
        i := i + 1;
      }
      assert files[..|files|] == files;
    }
  }

  /** One lane at work in a world that other lanes, recovery and the server change between any two of its steps.
      Everything it does is logged, so that `Valid` says: so far this is a run of the protocol. */
  class Worker {
    ghost const c: Content
    /** While set, nothing fails, nobody else does anything, and deletions end when they are waited for. */
    ghost const calm: bool
    ghost var world: World
    ghost var worlds: seq<World>
    ghost var events: seq<Event>

    ghost predicate Valid()
      reads this
    {
      ValidContent(c) && FreshRun(c, worlds, events) && worlds[|events|] == world
    }

    ghost method Log(e: Event, next: World)
      requires Valid() && Next(c, world, e, next) && FreshCheck(world, e)
      modifies this
      ensures Valid() && world == next
    {
      hide Next;
      hide FreshCheck;
      worlds, events, world := worlds + [next], events + [e], next;
    }

    /** Any number of steps of anybody else. */
    ghost method Others(l: nat)
      requires Valid()
      modifies this
      ensures calm ==> world == old(world)
      ensures Valid() && |world.lanes| == |old(world).lanes|
      ensures l < |world.lanes| ==> world.lanes[l] == old(world).lanes[l] || world.lanes[l] == Idle
      ensures old(world).disk.recorded <= world.disk.recorded
    {
      hide Next;
      var n: nat :| calm ==> n == 0;
      while n > 0
        invariant calm ==> n == 0 && world == old(world)
        invariant Valid() && |world.lanes| == |old(world).lanes|
        invariant l < |world.lanes| ==> world.lanes[l] == old(world).lanes[l] || world.lanes[l] == Idle
        invariant old(world).disk.recorded <= world.disk.recorded
      {
        n := n - 1;
        if exists e, u :: Next(c, world, e, u) && FreshCheck(world, e) && ByOthers(e, l) {
          var e, u :| Next(c, world, e, u) && FreshCheck(world, e) && ByOthers(e, l);
          OthersLeaveLane(c, world, e, u, l);
          Log(e, u);
        }
      }
    }

    ghost predicate At(l: nat, lane: Lane)
      reads this
    {
      Valid() && l < |world.lanes| && world.lanes[l] == lane
    }

    /** Whether something fails here. */
    ghost method Trouble() returns (fails: bool)
      ensures calm ==> !fails
    {
      fails := *;
      fails := fails && !calm;
    }

    /** One step of the lane, and whatever happens until its next one; false if the process died meanwhile. */
    ghost method Do(l: nat, e: Event, next: World) returns (alive: bool)
      requires Valid() && Next(c, world, e, next) && !e.Check?
      requires l < |world.lanes| == |next.lanes| && next.lanes[l] != Idle
      modifies this
      ensures Valid() && l < |world.lanes| && next.disk.recorded <= world.disk.recorded
      ensures calm ==> alive && world == next
      ensures alive ==> At(l, next.lanes[l])
      ensures !alive ==> At(l, Idle)
    {
      Log(e, next);
      Others(l);
      alive := world.lanes[l] != Idle;
    }

    ghost method GiveUpLane(l: nat)
      requires Valid() && l < |world.lanes| && CanGiveUp(world.lanes[l])
      modifies this
      ensures At(l, Idle)
    {
      Log(GiveUp(l), Release(world, l));
    }

    /** `_wait_mutations_done`: gives up when a deletion of the file that timed out earlier does not end in time. */
    ghost method WaitForPurge(l: nat, files: seq<FileId>, i: nat) returns (alive: bool)
      requires i < |files| && At(l, OldMarkers(files, i, false))
      modifies this
      ensures alive ==> At(l, OldMarkers(files, i, false)) && (files[i] in world.disk.recorded || files[i] !in world.disk.pending)
      ensures calm ==> alive
      ensures !alive ==> At(l, Idle)
    {
      hide FreshRun;
      alive := true;
      if calm {
        Log(Settle(files[i]), world.(disk := world.disk.(pending := world.disk.pending - {files[i]})));
        return;
      }
      var patience: nat :| true;
      while alive && patience > 0 && files[i] in world.disk.pending
        invariant alive ==> At(l, OldMarkers(files, i, false))
        invariant !alive ==> At(l, Idle)
        decreases patience, alive
      {
        Others(l);
        alive := world.lanes[l] != Idle;
        patience := patience - 1;
      }
      if alive && files[i] in world.disk.pending {
        GiveUpLane(l);
        alive := false;
      }
    }

    /** The first loop of `commit_batch`: purge behind the markers of earlier attempts. */
    ghost method RemoveOldMarkers(l: nat, files: seq<FileId>) returns (alive: bool)
      requires At(l, OldMarkers(files, 0, false))
      modifies this
      ensures alive ==> At(l, OldMarkers(files, |files|, false))
      ensures calm ==> alive
      ensures !alive ==> At(l, Idle)
    {
      hide FreshRun;
      var i := 0;
      while i < |files|
        invariant 0 <= i <= |files| && At(l, OldMarkers(files, i, false))
      {
        alive := RemoveOldMarker(l, files, i);
        if !alive {
          return;
        }
        i := i + 1;
      }
      alive := true;
    }

    ghost method RemoveOldMarker(l: nat, files: seq<FileId>, i: nat) returns (alive: bool)
      requires i < |files| && At(l, OldMarkers(files, i, false))
      modifies this
      ensures alive ==> At(l, OldMarkers(files, i + 1, false))
      ensures calm ==> alive
      ensures !alive ==> At(l, Idle)
    {
      hide FreshRun;
      hide Purge;
      var f := files[i];
      if f in world.disk.markers && f in world.disk.pending && f !in world.disk.recorded {
        alive := WaitForPurge(l, files, i);
        if !alive {
          return;
        }
      }
      if f in world.disk.markers {
        alive := PurgeOldMarker(l, files, i);
        if !alive {
          return;
        }
      }
      var w := world;
      alive := Do(l, SkipOld(l), WithLane(w.(disk := w.disk.(markers := w.disk.markers - {f})), l, OldMarkers(files, i + 1, false)));
    }

    /** `purge_marker` of a file that no deletion is after. */
    ghost method PurgeOldMarker(l: nat, files: seq<FileId>, i: nat) returns (alive: bool)
      requires i < |files| && At(l, OldMarkers(files, i, false)) && files[i] in world.disk.markers
      requires files[i] in world.disk.recorded || files[i] !in world.disk.pending
      modifies this
      ensures alive ==> At(l, OldMarkers(files, i, true))
      ensures calm ==> alive
      ensures !alive ==> At(l, Idle)
    {
      hide FreshRun;
      hide Purge;
      var f, w := files[i], world;
      var fails := Trouble();
      if fails {
        if f !in w.disk.recorded {
          Log(PurgeOldTimesOut(l), w.(disk := w.disk.(pending := w.disk.pending + {f})));
        }
        GiveUpLane(l);
        return false;
      }
      alive := Do(l, PurgeOld(l),
                  WithLane(if f in w.disk.recorded then w
                           else w.(disk := w.disk.(store := Purge(w.disk.store, {f}, w.disk.markers[f]))),
                           l, OldMarkers(files, i, true)));
    }

    ghost method WriteMarkers(l: nat, files: seq<FileId>) returns (alive: bool)
      requires At(l, OldMarkers(files, |files|, false))
      modifies this
      ensures alive ==> At(l, Moving(files, 0))
      ensures calm ==> alive
      ensures !alive ==> At(l, Idle)
    {
      hide FreshRun;
      alive := Do(l, WriteMarker(l), WithLane(world, l, NewMarkers(files, 0)));
      var i := 0;
      while alive && i < |files|
        invariant 0 <= i <= |files|
        invariant alive ==> At(l, NewMarkers(files, i))
        invariant !alive ==> At(l, Idle)
        invariant calm ==> alive
        decreases |files| - i, alive
      {
        var fails := Trouble();
        if fails {
          GiveUpLane(l);
          return false;
        }
        alive := Do(l, WriteMarker(l), WithLane(world.(disk := world.disk.(markers := world.disk.markers[files[i] := Partitions(c, files)])), l,
                                                NewMarkers(files, i + 1)));
        i := i + 1;
      }
      if alive {
        alive := Do(l, StartMove(l), WithLane(world, l, Moving(files, 0)));
      }
    }

    /** `RowsIngestor.move`: bucket by bucket; a failed INSERT is followed by the purge of what was attempted. */
    ghost method Move(l: nat, files: seq<FileId>) returns (alive: bool)
      requires At(l, Moving(files, 0))
      modifies this
      ensures alive ==> At(l, Finishing(files, 0, 0, false))
      ensures calm ==> alive
      ensures !alive ==> At(l, Idle)
    {
      hide FreshRun;
      hide Partitions;
      hide BucketRows;
      hide NextBucket;
      var pairs := Partitions(c, files);
      var bound := 0;
      while exists b :: b in Buckets(pairs) && bound <= b
        invariant At(l, Moving(files, bound))
        decreases Ahead(pairs, bound)
      {
        var b := SmallestBucket(pairs, bound);
        alive := MoveOne(l, files, bound, b);
        if !alive {
          return;
        }
        FewerAhead(pairs, bound, b);
        bound := b + 1;
      }
      alive := Do(l, EndMove(l), WithLane(world, l, Finishing(files, 0, 0, false)));
    }

    ghost method MoveOne(l: nat, files: seq<FileId>, bound: nat, b: nat) returns (alive: bool)
      requires At(l, Moving(files, bound)) && NextBucket(Partitions(c, files), bound, b)
      modifies this
      ensures alive ==> At(l, Moving(files, b + 1))
      ensures calm ==> alive
      ensures !alive ==> At(l, Idle)
    {
      hide FreshRun;
      hide Partitions;
      hide BucketRows;
      hide NextBucket;
      var w := world;
      var fails := Trouble();
      if fails {
        var landed: seq<Row> :| forall r | r in landed :: r in BucketRows(c, files, b);
        alive := Do(l, FailBucket(l, b, landed), WithLane(w.(disk := w.disk.(store := w.disk.store + landed)), l, MoveFailed(files, b)));
        if alive {
          CleanUpMove(l, files, b);
        }
        return false;
      }
      alive := Do(l, MoveBucket(l, b), WithLane(w.(disk := w.disk.(store := w.disk.store + BucketRows(c, files, b))), l,
                                                Moving(files, b + 1)));
    }

    ghost method CleanUpMove(l: nat, files: seq<FileId>, b: nat)
      requires At(l, MoveFailed(files, b))
      modifies this
      ensures At(l, Idle)
    {
      hide FreshRun;
      var w := world;
      var late: bool := *;
      if late || !(w.disk.pending !! SetOf(files)) {
        Log(PurgeMoveTimesOut(l), w.(disk := w.disk.(pending := w.disk.pending + SetOf(files))));
        GiveUpLane(l);
        return;
      }
      var pairs := Attempted(Partitions(c, files), b);
      var alive := Do(l, PurgeFailedMove(l), WithLane(world.(disk := world.disk.(store := Purge(world.disk.store, SetOf(files), pairs))), l,
                                                      Unmarking(files, 0)));
      if alive {
        DropMarkers(l, files);
      }
    }

    ghost method DropMarkers(l: nat, files: seq<FileId>)
      requires At(l, Unmarking(files, 0))
      modifies this
      ensures At(l, Idle)
    {
      hide FreshRun;
      var alive, i := true, 0;
      while alive && i < |files|
        invariant 0 <= i <= |files|
        invariant alive ==> At(l, Unmarking(files, i))
        invariant !alive ==> At(l, Idle)
        decreases |files| - i, alive
      {
        var w := world;
        alive := Do(l, DropMarker(l), WithLane(w.(disk := w.disk.(markers := w.disk.markers - {files[i]})), l, Unmarking(files, i + 1)));
        i := i + 1;
      }
      if alive {
        GiveUpLane(l);
      }
    }

    /** Aggregates, manifest and marker of file `i`. */
    ghost method FinishFile(l: nat, files: seq<FileId>, i: nat) returns (alive: bool)
      requires i < |files| && At(l, Finishing(files, i, 0, false))
      modifies this
      ensures alive ==> At(l, Finishing(files, i + 1, 0, false)) && files[i] in world.disk.recorded
      ensures alive ==> old(world).disk.recorded <= world.disk.recorded
      ensures calm ==> alive
      ensures !alive ==> At(l, Idle)
    {
      hide FreshRun;
      hide Next;
      alive := CountFile(l, files, i);
      if alive {
        alive := RecordFile(l, files, i);
      }
      if alive {
        alive := UnlinkFile(l, files, i);
      }
    }

    ghost method RecordFile(l: nat, files: seq<FileId>, i: nat) returns (alive: bool)
      requires i < |files| && At(l, Finishing(files, i, |KINDS|, false))
      modifies this
      ensures alive ==> At(l, Finishing(files, i, |KINDS|, true)) && old(world).disk.recorded + {files[i]} <= world.disk.recorded
      ensures calm ==> alive
      ensures !alive ==> At(l, Idle)
    {
      hide FreshRun;
      var fails := Trouble();
      if fails {
        GiveUpLane(l);
        return false;
      }
      var w := world;
      alive := Do(l, Record(l), WithLane(w.(disk := w.disk.(recorded := w.disk.recorded + {files[i]})), l,
                                         Finishing(files, i, |KINDS|, true)));
    }

    ghost method UnlinkFile(l: nat, files: seq<FileId>, i: nat) returns (alive: bool)
      requires i < |files| && At(l, Finishing(files, i, |KINDS|, true))
      modifies this
      ensures alive ==> At(l, Finishing(files, i + 1, 0, false)) && old(world).disk.recorded <= world.disk.recorded
      ensures calm ==> alive
      ensures !alive ==> At(l, Idle)
    {
      hide FreshRun;
      var fails := Trouble();
      if fails {
        GiveUpLane(l);
        return false;
      }
      var w := world;
      alive := Do(l, Unlink(l), WithLane(w.(disk := w.disk.(markers := w.disk.markers - {files[i]})), l,
                                         Finishing(files, i + 1, 0, false)));
    }

    /** The three aggregates of file `i`. */
    ghost method CountFile(l: nat, files: seq<FileId>, i: nat) returns (alive: bool)
      requires i < |files| && At(l, Finishing(files, i, 0, false))
      modifies this
      ensures alive ==> At(l, Finishing(files, i, |KINDS|, false)) && old(world).disk.recorded <= world.disk.recorded
      ensures calm ==> alive
      ensures !alive ==> At(l, Idle)
    {
      hide FreshRun;
      hide Aggregated;
      hide Counted;
      var k := 0;
      alive := true;
      while alive && k < |KINDS|
        invariant 0 <= k <= |KINDS| && old(world).disk.recorded <= world.disk.recorded
        invariant alive ==> At(l, Finishing(files, i, k, false))
        invariant !alive ==> At(l, Idle)
        invariant calm ==> alive
        decreases |KINDS| - k, alive
      {
        var fails := Trouble();
        if fails {
          GiveUpLane(l);
          return false;
        }
        var w, rows := world, Aggregated(c, files, i);
        alive := Do(l, Aggregate(l),
                    WithLane(w.(disk := w.disk.(aggregates := Counted(w.disk.aggregates, Token(KINDS[k], files[i]), rows))),
                             l, Finishing(files, i, k + 1, false)));
        k := k + 1;
      }
    }

    /** `commit_batch` of a loaded batch. When it succeeds, every file of the batch is recorded, stored exactly once
        and counted exactly once, whatever the other lanes did meanwhile. */
    ghost method CommitBatch(l: nat, files: seq<FileId>) returns (committed: bool)
      requires At(l, OldMarkers(files, 0, false))
      modifies this
      ensures At(l, Idle)
      ensures calm ==> committed
      ensures committed ==> forall f | f in files ::
                f in world.disk.recorded && OnceInStore(c, world.disk.store, f) && CountedOnce(c, world.disk.aggregates, f)
    {
      hide FreshRun;
      hide Next;
      hide OnceInStore;
      hide CountedOnce;
      committed := RemoveOldMarkers(l, files);
      if committed {
        committed := WriteMarkers(l, files);
      }
      if committed {
        committed := Move(l, files);
      }
      if committed {
        committed := FinishFiles(l, files);
      }
      if committed {
        FinishBatch(l, files);
      }
    }

    ghost method FinishFiles(l: nat, files: seq<FileId>) returns (alive: bool)
      requires At(l, Finishing(files, 0, 0, false))
      modifies this
      ensures alive ==> At(l, Finishing(files, |files|, 0, false)) && forall f | f in files :: f in world.disk.recorded
      ensures calm ==> alive
      ensures !alive ==> At(l, Idle)
    {
      hide FreshRun;
      hide Next;
      var i := 0;
      alive := true;
      while alive && i < |files|
        invariant 0 <= i <= |files|
        invariant alive ==> At(l, Finishing(files, i, 0, false)) && forall j | 0 <= j < i :: files[j] in world.disk.recorded
        invariant !alive ==> At(l, Idle)
        invariant calm ==> alive
        decreases |files| - i, alive
      {
        alive := FinishFile(l, files, i);
        i := i + 1;
      }
    }

    ghost method FinishBatch(l: nat, files: seq<FileId>)
      requires At(l, Finishing(files, |files|, 0, false)) && forall f | f in files :: f in world.disk.recorded
      modifies this
      ensures At(l, Idle)
      ensures forall f | f in files :: f in world.disk.recorded && OnceInStore(c, world.disk.store, f) && CountedOnce(c, world.disk.aggregates, f)
    {
      hide FreshRun;
      Log(Finish(l), Release(world, l).(done := world.done + Held(world.lanes[l]),
                                        cached := if world.cached.Some? then Some(world.cached.value + Held(world.lanes[l]))
                                                  else None));
      hide Next;
      hide OnceInStore;
      hide CountedOnce;
      forall f | f in files ensures OnceInStore(c, world.disk.store, f) && CountedOnce(c, world.disk.aggregates, f) {
        ExactlyOnce(c, worlds, events, f);
      }
    }
  }

  predicate NoLane(e: Event) {
    e.Refresh? || !(IsSelect(e) || IsMark(e) || IsMove(e) || IsFinish(e))
  }

  predicate ByOthers(e: Event, l: nat) { NoLane(e) || e.l != l }

  lemma OthersLeaveLane(c: Content, w: World, e: Event, u: World, l: nat)
    requires Next(c, w, e, u) && ByOthers(e, l)
    ensures |u.lanes| == |w.lanes|
    ensures l < |u.lanes| ==> u.lanes[l] == w.lanes[l] || u.lanes[l] == Idle
    ensures w.disk.recorded <= u.disk.recorded
  {
    if !NoLane(e) {
      LaneEventIsLocal(c, w, e, u);
    }
  }

  lemma LaneEventIsLocal(c: Content, w: World, e: Event, u: World)
    requires !NoLane(e) && Next(c, w, e, u)
    ensures e.l < |w.lanes| == |u.lanes| && w.disk.recorded <= u.disk.recorded
    ensures forall i | 0 <= i < |w.lanes| && i != e.l :: u.lanes[i] == w.lanes[i]
  {
    hide Next;
    if IsSelect(e) {
      SelectIsLocal(c, w, e, u);
    } else if IsMark(e) {
      MarkIsLocal(c, w, e, u);
    } else if IsMove(e) {
      MoveIsLocal(c, w, e, u);
    } else {
      FinishIsLocal(c, w, e, u);
    }
  }

  lemma SelectIsLocal(c: Content, w: World, e: Event, u: World)
    requires IsSelect(e) && !e.Refresh? && Next(c, w, e, u)
    ensures e.l < |w.lanes| == |u.lanes| && w.disk.recorded <= u.disk.recorded
    ensures forall i | 0 <= i < |w.lanes| && i != e.l :: u.lanes[i] == w.lanes[i]
  {
    hide Purge;
    hide Partitions;
    hide BucketRows;
    hide Aggregated;
    hide Counted;
    hide NextBucket;
    hide CanGiveUp;
    hide Held;
    hide Buckets;
    hide Attempted;
    hide SetOf;
  }

  lemma MarkIsLocal(c: Content, w: World, e: Event, u: World)
    requires IsMark(e) && Next(c, w, e, u)
    ensures e.l < |w.lanes| == |u.lanes| && w.disk.recorded <= u.disk.recorded
    ensures forall i | 0 <= i < |w.lanes| && i != e.l :: u.lanes[i] == w.lanes[i]
  {
    hide Purge;
    hide Partitions;
    hide BucketRows;
    hide Aggregated;
    hide Counted;
    hide NextBucket;
    hide CanGiveUp;
    hide Held;
    hide Buckets;
    hide Attempted;
    hide SetOf;
  }

  lemma MoveIsLocal(c: Content, w: World, e: Event, u: World)
    requires IsMove(e) && Next(c, w, e, u)
    ensures e.l < |w.lanes| == |u.lanes| && w.disk.recorded <= u.disk.recorded
    ensures forall i | 0 <= i < |w.lanes| && i != e.l :: u.lanes[i] == w.lanes[i]
  {
    hide Purge;
    hide Partitions;
    hide BucketRows;
    hide Aggregated;
    hide Counted;
    hide NextBucket;
    hide CanGiveUp;
    hide Held;
    hide Buckets;
    hide Attempted;
    hide SetOf;
  }

  lemma FinishIsLocal(c: Content, w: World, e: Event, u: World)
    requires IsFinish(e) && Next(c, w, e, u)
    ensures e.l < |w.lanes| == |u.lanes| && w.disk.recorded <= u.disk.recorded
    ensures forall i | 0 <= i < |w.lanes| && i != e.l :: u.lanes[i] == w.lanes[i]
  {
    hide Purge;
    hide Partitions;
    hide BucketRows;
    hide Aggregated;
    hide Counted;
    hide NextBucket;
    hide CanGiveUp;
    hide Held;
    hide Buckets;
    hide Attempted;
    hide SetOf;
  }

  ghost function Ahead(pairs: Pairs, bound: nat): set<nat> { set b | b in Buckets(pairs) && bound <= b }

  lemma FewerAhead(pairs: Pairs, bound: nat, b: nat)
    requires NextBucket(pairs, bound, b)
    ensures Ahead(pairs, b + 1) < Ahead(pairs, bound)
  {
    assert b in Ahead(pairs, bound) && b !in Ahead(pairs, b + 1);
  }

  lemma SmallestBucket(pairs: Pairs, bound: nat) returns (b: nat)
    requires exists b :: b in Buckets(pairs) && bound <= b
    ensures NextBucket(pairs, bound, b)
  {
    b :| b in Buckets(pairs) && bound <= b;
    while exists smaller :: smaller in Buckets(pairs) && bound <= smaller < b
      invariant b in Buckets(pairs) && bound <= b
      decreases b
    {
      var smaller :| smaller in Buckets(pairs) && bound <= smaller < b;
      b := smaller;
    }
  }
}
