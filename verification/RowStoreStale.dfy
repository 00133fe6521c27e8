/** Why the check before a load has to be fresh: one commit on its own, whatever the check said, and a run in which a list
    of ingested files that is up to a minute old lets a file in twice (app/binlog_rows_worker.py:375-383, 442-469, 912). */
module RowStoreStale {
  import opened Select
  import opened RowStore
  import opened RowStoreProof

  // ---- one commit, from a world where it may not even be due ----

  /** Lane `l` commits file `f` alone, from the loaded buffer to the end of its move, nobody else taking a step. */
  ghost predicate Solo(c: Content, worlds: seq<World>, events: seq<Event>, l: nat, f: FileId) {
    && |worlds| == |events| + 1 && (forall i | 0 <= i < |events| :: LaneEvent(c, worlds[i], events[i], worlds[i + 1], l))
    && l < |worlds[0].lanes| && worlds[0].lanes[l] == OldMarkers([f], 0, false)
  }

  ghost predicate LaneEvent(c: Content, w: World, e: Event, u: World, l: nat) {
    Next(c, w, e, u) && (IsMark(e) || IsMove(e)) && e.l == l
  }

  /** The rows of the file that the purges of the commit leave: `purge_marker` deletes nothing of a recorded file, and
      `commit` does not look at what it answered. */
  function Left(w: World, f: FileId): seq<Row> { if f in w.disk.recorded then Of(w.disk.store, f) else [] }

  function Below(c: Content, f: FileId, bound: nat): seq<Row> { Keep(Stored(c, f), (r: Row) => r.bucket < bound) }

  /** How far the commit that began in `start` has come. */
  ghost predicate Committing(c: Content, start: World, w: World, l: nat, f: FileId) {
    && l < |w.lanes| && w.disk.recorded == start.disk.recorded
    && match w.lanes[l]
       case OldMarkers(files, i, purged) =>
         && files == [f] && i <= 1
         && (if i == 0 && !purged
             then Of(w.disk.store, f) == Of(start.disk.store, f) && (f in w.disk.markers <==> f in start.disk.markers)
                  && (f in w.disk.markers ==> w.disk.markers[f] == start.disk.markers[f])
             else Of(w.disk.store, f) == Left(start, f))
       case NewMarkers(files, _) => files == [f] && Of(w.disk.store, f) == Left(start, f)
       case Moving(files, bound) =>
         files == [f] && multiset(Of(w.disk.store, f)) ==
                           multiset(Left(start, f)) + multiset(Below(c, f, bound))
       case Finishing(files, i, _, _) =>
         files == [f] && i == 0 && multiset(Of(w.disk.store, f)) == multiset(Left(start, f)) + multiset(Stored(c, f))
       case _ => w.lanes[l].MoveFailed? || w.lanes[l].Unmarking?
  }

  lemma PurgeGoesOn(c: Content, start: World, w: World, u: World, l: nat, f: FileId)
    requires Committing(c, start, w, l, f) && Next(c, w, PurgeOld(l), u) && FileOk(c, start.disk, f)
    ensures Committing(c, start, u, l, f)
  {
    assert w.lanes[l].OldMarkers? && w.lanes[l].done == 0 && !w.lanes[l].purged && f in w.disk.markers;
    OfPurge(w.disk.store, {f}, w.disk.markers[f], f);
    hide Of;
    hide InFilter;
    hide Purge;
    hide Stored;
    hide OnceInStore;
    hide CountedOnce;
  }

  lemma MoveBegins(c: Content, start: World, w: World, u: World, l: nat, f: FileId)
    requires Committing(c, start, w, l, f) && Next(c, w, StartMove(l), u)
    ensures Committing(c, start, u, l, f)
  {
    KeepNone(Stored(c, f), (r: Row) => r.bucket < 0);
    assert Below(c, f, 0) == [] && u.lanes[l] == Moving([f], 0);
    hide Below;
    hide Of;
  }

  lemma MarkingGoesOn(c: Content, start: World, w: World, e: Event, u: World, l: nat, f: FileId)
    requires Committing(c, start, w, l, f) && (e.PurgeOldTimesOut? || e.SkipOld? || e.WriteMarker?) && e.l == l
    requires Next(c, w, e, u) && FileOk(c, start.disk, f)
    ensures Committing(c, start, u, l, f)
  {
    hide Stored;
    hide Partitions;
    hide InFilter;
    hide Below;
    hide Of;
    hide OnceInStore;
    hide CountedOnce;
  }

  /** The next bucket adds the file's rows of that bucket. */
  lemma BucketAdds(c: Content, store: seq<Row>, f: FileId, bound: nat, b: nat, base: multiset<Row>)
    requires ValidContent(c) && NextBucket(Partitions(c, [f]), bound, b)
    requires multiset(Of(store, f)) == base + multiset(Below(c, f, bound))
    ensures multiset(Of(store + BucketRows(c, [f], b), f)) == base + multiset(Below(c, f, b + 1))
  {
    OfConcat(store, BucketRows(c, [f], b), f);
    OfBucketRows(c, [f], b, f);
    StoredInPartitions(c, [f], f);
    forall r | r in Stored(c, f) ensures r.bucket < bound || b <= r.bucket {
      assert (r.day, r.bucket).1 in Buckets(Partitions(c, [f]));
    }
    KeepUnion(Stored(c, f), (r: Row) => r.bucket < bound, (r: Row) => r.bucket == b, (r: Row) => r.bucket < b + 1);
  }

  lemma AllBuckets(c: Content, f: FileId, bound: nat)
    requires ValidContent(c) && forall b | b in Buckets(Partitions(c, [f])) :: b < bound
    ensures Below(c, f, bound) == Stored(c, f)
  {
    StoredInPartitions(c, [f], f);
    forall r | r in Stored(c, f) ensures r.bucket < bound {
      assert (r.day, r.bucket).1 in Buckets(Partitions(c, [f]));
    }
    KeepAll(Stored(c, f), (r: Row) => r.bucket < bound);
  }

  lemma BucketStep(c: Content, w: World, b: nat, u: World, l: nat)
    requires Next(c, w, MoveBucket(l, b), u)
    ensures l < |w.lanes| && w.lanes[l].Moving? && NextBucket(Partitions(c, w.lanes[l].files), w.lanes[l].bound, b)
    ensures u == WithLane(w.(disk := w.disk.(store := w.disk.store + BucketRows(c, w.lanes[l].files, b))), l, Moving(w.lanes[l].files, b + 1))
  {
    hide NextBucket;
    hide Partitions;
    hide BucketRows;
  }

  lemma BucketGoesOn(c: Content, start: World, w: World, b: nat, u: World, l: nat, f: FileId)
    requires ValidContent(c) && Committing(c, start, w, l, f) && Next(c, w, MoveBucket(l, b), u)
    ensures Committing(c, start, u, l, f)
  {
    BucketStep(c, w, b, u, l);
    hide Next;
    hide Below;
    hide Left;
    hide Of;
    hide BucketRows;
    hide NextBucket;
    hide Partitions;
    BucketAdds(c, w.disk.store, f, w.lanes[l].bound, b, multiset(Left(start, f)));
  }

  lemma MovingEnds(c: Content, start: World, w: World, u: World, l: nat, f: FileId)
    requires ValidContent(c) && Committing(c, start, w, l, f) && Next(c, w, EndMove(l), u)
    ensures Committing(c, start, u, l, f)
  {
    AllBuckets(c, f, w.lanes[l].bound);
    hide Below;
    hide Stored;
    hide Partitions;
    hide Of;
  }

  lemma MovingFails(c: Content, start: World, w: World, e: Event, u: World, l: nat, f: FileId)
    requires Committing(c, start, w, l, f) && IsMove(e) && !e.MoveBucket? && !e.EndMove? && e.l == l && Next(c, w, e, u)
    ensures Committing(c, start, u, l, f)
  {
    hide Stored;
    hide Partitions;
    hide Of;
    hide Purge;
    hide BucketRows;
    hide NextBucket;
    hide Attempted;
  }

  lemma {:induction false} SoloCommits(c: Content, worlds: seq<World>, events: seq<Event>, l: nat, f: FileId)
    requires ValidContent(c) && Solo(c, worlds, events, l, f) && FileOk(c, worlds[0].disk, f)
    ensures Committing(c, worlds[0], worlds[|events|], l, f)
    decreases |events|
  {
    hide Next;
    hide FileOk;
    if events != [] {
      var n := |events| - 1;
      SoloCommits(c, worlds[..n + 1], events[..n], l, f);
      assert LaneEvent(c, worlds[n], events[n], worlds[n + 1], l);
      hide Committing;
      if events[n].PurgeOld? {
        PurgeGoesOn(c, worlds[0], worlds[n], worlds[n + 1], l, f);
      } else if events[n].StartMove? {
        MoveBegins(c, worlds[0], worlds[n], worlds[n + 1], l, f);
      } else if IsMark(events[n]) {
        MarkingGoesOn(c, worlds[0], worlds[n], events[n], worlds[n + 1], l, f);
      } else if events[n].MoveBucket? {
        BucketGoesOn(c, worlds[0], worlds[n], events[n].bucket, worlds[n + 1], l, f);
      } else if events[n].EndMove? {
        MovingEnds(c, worlds[0], worlds[n], worlds[n + 1], l, f);
      } else {
        MovingFails(c, worlds[0], worlds[n], events[n], worlds[n + 1], l, f);
      }
    }
  }

  /** A commit that gets to the end of its move leaves the file's rows exactly once if and only if the file was not
      recorded when it began, the case of a file without stored rows aside. */
  lemma CommitNeedsFreshCheck(c: Content, worlds: seq<World>, events: seq<Event>, l: nat, f: FileId)
    requires ValidContent(c) && Solo(c, worlds, events, l, f) && FileOk(c, worlds[0].disk, f)
    requires l < |worlds[|events|].lanes| && worlds[|events|].lanes[l].Finishing?
    ensures OnceInStore(c, worlds[|events|].disk.store, f) <==> f !in worlds[0].disk.recorded || Stored(c, f) == []
  {
    hide Of;
    hide Stored;
    hide Next;
    hide CountedOnce;
    hide InFilter;
    SoloCommits(c, worlds, events, l, f);
    TwiceIsNotOnce(Stored(c, f));
  }

  lemma TwiceIsNotOnce(rows: seq<Row>)
    ensures multiset(rows) + multiset(rows) == multiset(rows) <==> rows == []
    ensures multiset([]) + multiset(rows) == multiset(rows)
  {
    assert |multiset(rows) + multiset(rows)| == |rows| + |rows|;
    assert |multiset(rows)| == |rows|;
  }

  // ---- a run that lets a file in twice ----

  lemma Extend(c: Content, worlds: seq<World>, events: seq<Event>, e: Event, u: World)
    returns (more: seq<World>, longer: seq<Event>)
    requires Run(c, worlds, events) && Next(c, worlds[|events|], e, u)
    ensures Run(c, more, longer) && more[|longer|] == u && |more| == |longer| + 1
  {
    hide Next;
    hide Start;
    more, longer := worlds + [u], events + [e];
    forall i | 0 <= i < |longer| ensures Next(c, more[i], longer[i], more[i + 1]) {
      if i < |events| {
        assert more[i] == worlds[i] && more[i + 1] == worlds[i + 1];
      }
    }
  }

  /** All rows of the file lie in one bucket. */
  predicate OneBucket(c: Content, f: FileId, b: nat) { Buckets(Partitions(c, [f])) == {b} }

  function Lone(w: World, lane: Lane): World { w.(lanes := [lane]) }

  lemma LoadRun(c: Content, worlds: seq<World>, events: seq<Event>, f: FileId) returns (more: seq<World>, longer: seq<Event>)
    requires Run(c, worlds, events) && worlds[|events|].lanes == [Selecting([f], None)]
    ensures Run(c, more, longer) && more[|longer|] == Lone(worlds[|events|], OldMarkers([f], 0, false))
  {
    var w := worlds[|events|];
    hide Run;
    more, longer := Extend(c, worlds, events, StartLoad(0), Lone(w, Loading([f])));
    more, longer := Extend(c, more, longer, FinishLoad(0), Lone(w, OldMarkers([f], 0, false)));
  }

  lemma UnmarkRun(c: Content, worlds: seq<World>, events: seq<Event>, f: FileId) returns (more: seq<World>, longer: seq<Event>)
    requires Run(c, worlds, events) && worlds[|events|].lanes == [OldMarkers([f], 0, false)]
    requires f in worlds[|events|].disk.markers ==> f in worlds[|events|].disk.recorded
    ensures Run(c, more, longer) && |more| == |longer| + 1
    ensures var w := worlds[|events|];
            more[|longer|] == Lone(w.(disk := w.disk.(markers := w.disk.markers - {f})), NewMarkers([f], 0))
  {
    var w := worlds[|events|];
    hide Run;
    hide Partitions;
    more, longer := worlds, events;
    if f in w.disk.markers {
      more, longer := Extend(c, more, longer, PurgeOld(0), Lone(w, OldMarkers([f], 0, true)));
    }
    var v := w.(disk := w.disk.(markers := w.disk.markers - {f}));
    more, longer := Extend(c, more, longer, SkipOld(0), Lone(v, OldMarkers([f], 1, false)));
    more, longer := Extend(c, more, longer, WriteMarker(0), Lone(v, NewMarkers([f], 0)));
  }

  lemma MarkRun(c: Content, worlds: seq<World>, events: seq<Event>, f: FileId) returns (more: seq<World>, longer: seq<Event>)
    requires Run(c, worlds, events) && worlds[|events|].lanes == [OldMarkers([f], 0, false)]
    requires f in worlds[|events|].disk.markers ==> f in worlds[|events|].disk.recorded
    ensures Run(c, more, longer)
    ensures var w := worlds[|events|];
            more[|longer|] == Lone(w.(disk := w.disk.(markers := w.disk.markers[f := Partitions(c, [f])])), Moving([f], 0))
  {
    var w := worlds[|events|];
    more, longer := UnmarkRun(c, worlds, events, f);
    hide Run;
    hide Partitions;
    var v := more[|longer|];
    v := v.(disk := v.disk.(markers := v.disk.markers[f := Partitions(c, [f])]));
    assert v.disk.markers == w.disk.markers[f := Partitions(c, [f])];
    more, longer := Extend(c, more, longer, WriteMarker(0), Lone(v, NewMarkers([f], 1)));
    more, longer := Extend(c, more, longer, StartMove(0), Lone(v, Moving([f], 0)));
  }

  /** A whole move, whether it is due or not. */
  lemma MoveRun(c: Content, worlds: seq<World>, events: seq<Event>, f: FileId, b: nat)
    returns (more: seq<World>, longer: seq<Event>)
    requires ValidContent(c) && OneBucket(c, f, b)
    requires Run(c, worlds, events) && worlds[|events|].lanes == [Selecting([f], None)]
    requires f in worlds[|events|].disk.markers ==> f in worlds[|events|].disk.recorded
    ensures Run(c, more, longer)
    ensures var w := worlds[|events|];
            more[|longer|] == Lone(w.(disk := w.disk.(store := w.disk.store + BucketRows(c, [f], b), markers := w.disk.markers[f := Partitions(c, [f])])), Finishing([f], 0, 0, false))
  {
    hide Partitions;
    hide BucketRows;
    more, longer := LoadRun(c, worlds, events, f);
    more, longer := MarkRun(c, more, longer, f);
    var w := more[|longer|];
    assert NextBucket(Partitions(c, [f]), 0, b);
    hide Run;
    hide NextBucket;
    w := w.(disk := w.disk.(store := w.disk.store + BucketRows(c, [f], b)));
    more, longer := Extend(c, more, longer, MoveBucket(0, b), Lone(w, Moving([f], b + 1)));
    more, longer := Extend(c, more, longer, EndMove(0), Lone(w, Finishing([f], 0, 0, false)));
  }

  lemma CountRun(c: Content, worlds: seq<World>, events: seq<Event>, f: FileId) returns (more: seq<World>, longer: seq<Event>)
    requires Run(c, worlds, events) && worlds[|events|].lanes == [Finishing([f], 0, 0, false)]
    ensures Run(c, more, longer)
    ensures var w, u := worlds[|events|], more[|longer|];
            u == Lone(w.(disk := w.disk.(aggregates := u.disk.aggregates, recorded := w.disk.recorded + {f})), Finishing([f], 0, 3, true))
  {
    hide Aggregated;
    var w := worlds[|events|];
    ghost var start := w;
    hide Run;
    var rows := Aggregated(c, [f], 0);
    more, longer := worlds, events;
    var k := 0;
    while k < 3
      invariant 0 <= k <= 3 && Run(c, more, longer) && |more| == |longer| + 1
      invariant w == start.(disk := start.disk.(aggregates := w.disk.aggregates)) && more[|longer|] == Lone(w, Finishing([f], 0, k, false))
    {
      w := w.(disk := w.disk.(aggregates := Counted(w.disk.aggregates, Token(KINDS[k], f), rows)));
      more, longer := Extend(c, more, longer, Aggregate(0), Lone(w, Finishing([f], 0, k + 1, false)));
      k := k + 1;
    }
    w := w.(disk := w.disk.(recorded := w.disk.recorded + {f}));
    more, longer := Extend(c, more, longer, Record(0), Lone(w, Finishing([f], 0, 3, true)));
  }

  function Empty(): World { World(Disk([], map[], {}, map[], {}), None, {}, {}, map[], [Idle]) }

  /** Taken, and let in by whatever list the process holds. */
  lemma TakeRun(c: Content, worlds: seq<World>, events: seq<Event>, f: FileId) returns (more: seq<World>, longer: seq<Event>)
    requires Run(c, worlds, events)
    requires var w := worlds[|events|]; w.lanes == [Idle] && f !in w.claims + w.done && w.cached.Some? && f !in w.cached.value
    ensures Run(c, more, longer)
    ensures var w := worlds[|events|]; more[|longer|] == Lone(w.(claims := w.claims + {f}), Selecting([f], None))
  {
    var w := worlds[|events|];
    hide Run;
    w := w.(claims := w.claims + {f});
    more, longer := Extend(c, worlds, events, Event.Take(0, f), Lone(w, Selecting([], Some(f))));
    assert [] + [f] == [f];
    more, longer := Extend(c, more, longer, Check(0), Lone(w, Selecting([f], None)));
  }

  lemma TwiceInStore(c: Content, f: FileId, b: nat)
    requires ValidContent(c) && OneBucket(c, f, b)
    ensures Of(BucketRows(c, [f], b) + BucketRows(c, [f], b), f) == Stored(c, f) + Stored(c, f)
  {
    OfBucketRows(c, [f], b, f);
    OfConcat(BucketRows(c, [f], b), BucketRows(c, [f], b), f);
    StoredInPartitions(c, [f], f);
    forall r | r in Stored(c, f) ensures r.bucket == b {
      assert (r.day, r.bucket).1 in Buckets(Partitions(c, [f]));
    }
    KeepAll(Stored(c, f), (r: Row) => r.bucket == b);
  }

  /** A process records a file, fails to remove its marker and gives the file up; the list it read a moment before still
      lacks the file, so it is taken and moved once more: the recorded file has every row twice. */
  lemma StaleCheckDoubles(c: Content, f: FileId, b: nat) returns (worlds: seq<World>, events: seq<Event>)
    requires ValidContent(c) && OneBucket(c, f, b)
    ensures Run(c, worlds, events)
    ensures var w := worlds[|events|]; f in w.disk.recorded && Of(w.disk.store, f) == Stored(c, f) + Stored(c, f)
  {
    TwiceInStore(c, f, b);
    worlds, events := [Empty()], [];
    worlds, events := Extend(c, worlds, events, Refresh, Empty().(cached := Some({})));
    worlds, events := TakeRun(c, worlds, events, f);
    worlds, events := MoveRun(c, worlds, events, f, b);
    worlds, events := CountRun(c, worlds, events, f);
    hide BucketRows;
    hide Partitions;
    hide Of;
    hide Stored;
    var w := worlds[|events|];
    worlds, events := Extend(c, worlds, events, GiveUp(0), Release(w, 0));
    assert Held(w.lanes[0]) == {f};
    worlds, events := TakeRun(c, worlds, events, f);
    worlds, events := MoveRun(c, worlds, events, f, b);
    assert [] + BucketRows(c, [f], b) == BucketRows(c, [f], b);
  }
}
