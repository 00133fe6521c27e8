/** Every step of the row-store protocol keeps its invariant, hence every run does. */
module RowStoreProof {
  import opened Select
  import opened RowStore

  // ---- selections ----

  lemma {:induction false} KeepBoth<T>(t: seq<T>, p: T -> bool, q: T -> bool, both: T -> bool)
    requires forall x | x in t :: both(x) <==> p(x) && q(x)
    ensures Keep(Keep(t, p), q) == Keep(t, both)
  {
    if t != [] {
      assert t[0] in t;
      KeepBoth(t[1..], p, q, both);
      KeepConcat(if p(t[0]) then [t[0]] else [], Keep(t[1..], p), q);
    }
  }

  lemma {:induction false} KeepUnion<T>(t: seq<T>, p: T -> bool, q: T -> bool, either: T -> bool)
    requires forall x | x in t :: (either(x) <==> p(x) || q(x)) && !(p(x) && q(x))
    ensures multiset(Keep(t, either)) == multiset(Keep(t, p)) + multiset(Keep(t, q))
  {
    if t != [] {
      assert t[0] in t;
      KeepUnion(t[1..], p, q, either);
    }
  }

  lemma OfMembers(s: seq<Row>, f: FileId)
    ensures forall r :: r in Of(s, f) <==> r in s && r.file == f
  {
    KeepMembers(s, (r: Row) => r.file == f);
  }

  lemma OfConcat(a: seq<Row>, b: seq<Row>, f: FileId)
    ensures Of(a + b, f) == Of(a, f) + Of(b, f)
  {
    KeepConcat(a, b, (r: Row) => r.file == f);
  }

  /** A purge removes the rows of the files whose date and whose bucket are among the pairs, and keeps all others. */
  lemma {:induction false} PurgeMeans(s: seq<Row>, files: set<FileId>, pairs: Pairs, r: Row)
    ensures multiset(Purge(s, files, pairs))[r] ==
              if r.file in files && (exists p, q | p in pairs && q in pairs :: r.day == p.0 && r.bucket == q.1) then 0
              else multiset(s)[r]
  {
    if s != [] {
      PurgeMeans(s[1..], files, pairs, r);
      assert s == [s[0]] + s[1..];
      assert Purge(s, files, pairs) ==
             (if s[0].file in files && InFilter(pairs, s[0]) then [] else [s[0]]) + Purge(s[1..], files, pairs);
    }
  }

  /** A purge removes all of a file whose rows lie in the filtered partitions and touches no other file. */
  lemma OfPurge(s: seq<Row>, files: set<FileId>, pairs: Pairs, f: FileId)
    ensures f !in files ==> Of(Purge(s, files, pairs), f) == Of(s, f)
    ensures f in files && (forall r | r in Of(s, f) :: InFilter(pairs, r)) ==> Of(Purge(s, files, pairs), f) == []
    ensures forall r | r in Of(Purge(s, files, pairs), f) :: r in Of(s, f)
  {
    var keep, mine := (r: Row) => !(r.file in files && InFilter(pairs, r)), (r: Row) => r.file == f;
    KeepMembers(s, keep);
    OfMembers(s, f);
    OfMembers(Purge(s, files, pairs), f);
    if f !in files {
      KeepKeep(s, keep, mine);
    } else if forall r | r in Of(s, f) :: InFilter(pairs, r) {
      KeepNone(Purge(s, files, pairs), mine);
    }
  }

  // ---- the buffer ----

  lemma {:induction false} OfBuffer(c: Content, files: seq<FileId>, f: FileId)
    requires ValidContent(c) && Distinct(files)
    ensures Of(Buffer(c, files), f) == if f in files then c(f) else []
    ensures forall r | r in Buffer(c, files) :: r.file in files && r in c(r.file)
  {
    if files != [] {
      var g, rest := files[0], files[1..];
      OfBuffer(c, rest, f);
      OfConcat(c(g), Buffer(c, rest), f);
      if f == g {
        assert g !in rest;
        KeepAll(c(g), (r: Row) => r.file == f);
      } else {
        KeepNone(c(g), (r: Row) => r.file == f);
      }
      assert Buffer(c, files) == c(g) + Buffer(c, rest);
    }
  }

  lemma StoredInPartitions(c: Content, files: seq<FileId>, f: FileId)
    requires ValidContent(c) && Distinct(files) && f in files
    ensures forall r | r in Stored(c, f) :: r.file == f && r.kept && (r.day, r.bucket) in Partitions(c, files)
    ensures forall r | r in Stored(c, f) :: InFilter(Partitions(c, files), r)
  {
    KeepMembers(c(f), (r: Row) => r.kept);
    OfBuffer(c, files, f);
    OfMembers(Buffer(c, files), f);
    forall r | r in Stored(c, f)
      ensures (r.day, r.bucket) in Partitions(c, files) && InFilter(Partitions(c, files), r)
    {
      assert r in Of(Buffer(c, files), f);
      PairInFilter(Partitions(c, files), r);
    }
  }

  lemma PairInFilter(pairs: Pairs, r: Row)
    requires (r.day, r.bucket) in pairs
    ensures InFilter(pairs, r)
  {
    var p := (r.day, r.bucket);
    assert p in pairs && p.0 in Days(pairs) && p.1 in Buckets(pairs);
  }

  /** One bucket INSERT brings each file exactly its rows of that bucket. */
  lemma OfBucketRows(c: Content, files: seq<FileId>, b: nat, f: FileId)
    requires ValidContent(c) && Distinct(files)
    ensures f in files ==> Of(BucketRows(c, files, b), f) == Keep(Stored(c, f), (r: Row) => r.bucket == b)
    ensures f !in files ==> Of(BucketRows(c, files, b), f) == []
  {
    var buffer := Buffer(c, files);
    var inBucket, mine := (r: Row) => r.kept && r.bucket == b, (r: Row) => r.file == f;
    var all := (r: Row) => r.file == f && r.kept && r.bucket == b;
    OfBuffer(c, files, f);
    KeepBoth(buffer, inBucket, mine, all);
    KeepBoth(buffer, mine, inBucket, all);
    assert Of(BucketRows(c, files, b), f) == Keep(Of(buffer, f), inBucket);
    if f in files {
      KeepBoth(c(f), (r: Row) => r.kept, (r: Row) => r.bucket == b, inBucket);
    }
  }

  lemma BucketRowMeans(c: Content, files: seq<FileId>, b: nat, r: Row)
    requires ValidContent(c) && Distinct(files) && r in BucketRows(c, files, b)
    ensures r.file in files && r.bucket == b && (r.day, r.bucket) in Partitions(c, files)
  {
    KeepMembers(Buffer(c, files), (q: Row) => q.kept && q.bucket == b);
    OfBuffer(c, files, r.file);
  }

  lemma {:induction false} AggregatedIsStored(c: Content, files: seq<FileId>, i: nat)
    requires ValidContent(c) && Distinct(files) && i < |files|
    ensures Aggregated(c, files, i) == Stored(c, files[i])
  {
    var buffer, f := Buffer(c, files), files[i];
    OfBuffer(c, files, f);
    if |files| > 1 {
      KeepBoth(buffer, (r: Row) => r.file == f, (r: Row) => r.kept, (r: Row) => r.kept && r.file == f);
    } else {
      assert Buffer(c, files) == c(f) + Buffer(c, []) == c(f);
    }
  }

  // ---- frames ----

  /** Nothing the invariants say about `f` has changed, except that more of it may have been aggregated. */
  predicate SameFile(d: Disk, e: Disk, f: FileId) {
    && Of(d.store, f) == Of(e.store, f)
    && (f in d.recorded <==> f in e.recorded) && (f in d.pending <==> f in e.pending)
    && (f in d.markers <==> f in e.markers) && (f in d.markers ==> d.markers[f] == e.markers[f])
    && (forall k: Kind :: Token(k, f) in d.aggregates ==>
          Token(k, f) in e.aggregates && e.aggregates[Token(k, f)] == d.aggregates[Token(k, f)])
  }

  lemma FileFrame(c: Content, d: Disk, e: Disk, f: FileId)
    requires FileOk(c, d, f) && SameFile(d, e, f)
    ensures FileOk(c, e, f)
  {
  }

  lemma LaneFrame(c: Content, d: Disk, e: Disk, l: Lane)
    requires LaneOk(c, d, l) && forall f | f in Held(l) :: SameFile(d, e, f)
    ensures LaneOk(c, e, l)
  {
    match l
    case Idle =>
    case Selecting(files, _) => SameFiles(d, e, files);
    case Loading(files) => SameFiles(d, e, files);
    case OldMarkers(files, _, _) => SameFiles(d, e, files);
    case NewMarkers(files, _) => SameFiles(d, e, files);
    case Moving(files, _) => SameFiles(d, e, files);
    case MoveFailed(files, _) => SameFiles(d, e, files);
    case Unmarking(files, _) => SameFiles(d, e, files);
    case Finishing(files, _, _, _) => SameFiles(d, e, files);
  }

  lemma SameFiles(d: Disk, e: Disk, files: seq<FileId>)
    requires forall f | f in SetOf(files) :: SameFile(d, e, f)
    ensures forall f | f in files :: SameFile(d, e, f)
    ensures forall i | 0 <= i < |files| :: SameFile(d, e, files[i])
  {
    forall f | f in files ensures SameFile(d, e, f) {
      assert f in SetOf(files);
    }
  }

  /** A step of lane `l` that touches only files it holds. */
  lemma LaneStep(c: Content, w: World, u: World, l: nat, touched: set<FileId>)
    requires Inv(c, w) && l < |w.lanes| == |u.lanes| && u.recovering == w.recovering
    requires u.cached.Some? ==> u.cached.value <= u.disk.recorded
    requires forall i | 0 <= i < |w.lanes| && i != l :: u.lanes[i] == w.lanes[i]
    requires touched <= Held(w.lanes[l]) && forall f: FileId | f !in touched :: SameFile(w.disk, u.disk, f)
    requires LaneOk(c, u.disk, u.lanes[l]) && forall f | f in touched :: FileOk(c, u.disk, f)
    requires AggregatesOk(c, u.disk.aggregates) && Ownership(u)
    ensures Inv(c, u)
  {
    forall f: FileId ensures FileOk(c, u.disk, f) {
      if f !in touched {
        FileFrame(c, w.disk, u.disk, f);
      }
    }
    forall i | 0 <= i < |u.lanes| ensures LaneOk(c, u.disk, u.lanes[i]) {
      if i != l {
        forall f | f in Held(w.lanes[i]) ensures f !in touched {
          if i < l {
            assert Held(w.lanes[i]) !! Held(w.lanes[l]);
          } else {
            assert Held(w.lanes[l]) !! Held(w.lanes[i]);
          }
        }
        LaneFrame(c, w.disk, u.disk, w.lanes[i]);
      }
    }
    forall f | f in u.recovering && u.recovering[f] ensures f !in u.disk.recorded && Of(u.disk.store, f) == [] && f !in u.disk.pending {
      assert f !in Held(w.lanes[l]);
    }
  }

  lemma InvAt(c: Content, w: World, l: nat)
    requires Inv(c, w) && l < |w.lanes|
    ensures LaneOk(c, w.disk, w.lanes[l]) && Ownership(w) && AggregatesOk(c, w.disk.aggregates)
    ensures forall f: FileId :: FileOk(c, w.disk, f)
    ensures w.cached.Some? ==> w.cached.value <= w.disk.recorded
  {
  }

  lemma SameHolding(w: World, u: World, l: nat)
    requires Ownership(w) && l < |w.lanes| == |u.lanes| && u.recovering == w.recovering && u.claims == w.claims
    requires forall i | 0 <= i < |w.lanes| && i != l :: u.lanes[i] == w.lanes[i]
    requires Held(u.lanes[l]) <= Held(w.lanes[l])
    ensures Ownership(u)
  {
    forall i, j | 0 <= i < j < |u.lanes| ensures Held(u.lanes[i]) !! Held(u.lanes[j]) {
      assert Held(w.lanes[i]) !! Held(w.lanes[j]);
    }
  }

  /** A step of lane `l` that leaves the disk alone. */
  lemma PlainStep(c: Content, w: World, u: World, l: nat)
    requires Inv(c, w) && l < |w.lanes| == |u.lanes| && u.recovering == w.recovering && u.disk == w.disk
    requires u.cached.Some? ==> u.cached.value <= u.disk.recorded
    requires forall i | 0 <= i < |w.lanes| && i != l :: u.lanes[i] == w.lanes[i]
    requires LaneOk(c, u.disk, u.lanes[l]) && Ownership(u)
    ensures Inv(c, u)
  {
    hide LaneOk;
    hide FileOk;
    hide AggregatesOk;
    hide Ownership;
  }

  // ---- the steps of a lane ----

  lemma TakeKeepsInv(c: Content, w: World, l: nat, f: FileId, u: World)
    requires Inv(c, w) && Next(c, w, Take(l, f), u)
    ensures Inv(c, u)
  {
    var files := if w.lanes[l].Idle? then [] else w.lanes[l].files;
    assert SetOf(files) == Held(w.lanes[l]);
    assert Held(u.lanes[l]) == Held(w.lanes[l]) + {f};
    assert LaneOk(c, w.disk, w.lanes[l]);
    assert LaneOk(c, u.disk, u.lanes[l]);
    assert Ownership(w);
    hide LaneOk;
    hide Inv;
    forall i, j | 0 <= i < j < |u.lanes| ensures Held(u.lanes[i]) !! Held(u.lanes[j]) {
      assert Held(w.lanes[i]) !! Held(w.lanes[j]);
    }
    PlainStep(c, w, u, l);
  }

  lemma HoldingShrinks(w: World, u: World, l: nat)
    requires Ownership(w) && l < |w.lanes| == |u.lanes| && u.recovering == w.recovering
    requires forall i | 0 <= i < |w.lanes| && i != l :: u.lanes[i] == w.lanes[i]
    requires Held(u.lanes[l]) <= Held(w.lanes[l])
    requires w.claims - Held(w.lanes[l]) <= u.claims && Held(u.lanes[l]) <= u.claims
    ensures Ownership(u)
  {
    forall i | 0 <= i < |u.lanes| && i != l ensures Held(u.lanes[i]) <= u.claims {
      if i < l {
        assert Held(w.lanes[i]) !! Held(w.lanes[l]);
      } else {
        assert Held(w.lanes[l]) !! Held(w.lanes[i]);
      }
    }
    forall i, j | 0 <= i < j < |u.lanes| ensures Held(u.lanes[i]) !! Held(u.lanes[j]) {
      assert Held(w.lanes[i]) !! Held(w.lanes[j]);
    }
  }

  lemma CheckKeepsInv(c: Content, w: World, l: nat, u: World)
    requires Inv(c, w) && Next(c, w, Check(l), u) && FreshCheck(w, Check(l))
    ensures Inv(c, u)
  {
    InvAt(c, w, l);
    hide Inv;
    hide FileOk;
    hide AggregatesOk;
    hide Ownership;
    var files, f := w.lanes[l].files, w.lanes[l].candidate.value;
    assert Held(w.lanes[l]) == SetOf(files) + {f};
    assert Held(u.lanes[l]) <= w.claims by { HeldIsClaimed(w, l); }
    HoldingShrinks(w, u, l);
    PlainStep(c, w, u, l);
  }

  lemma HeldIsClaimed(w: World, l: nat)
    requires Ownership(w) && l < |w.lanes|
    ensures Held(w.lanes[l]) <= w.claims
  {
  }

  lemma ReleaseKeepsInv(c: Content, w: World, l: nat, done: set<FileId>, cached: Option<set<FileId>>)
    requires Inv(c, w) && l < |w.lanes| && (cached.Some? ==> cached.value <= w.disk.recorded)
    ensures Inv(c, Release(w, l).(done := done, cached := cached))
  {
    var u := Release(w, l).(done := done, cached := cached);
    InvAt(c, w, l);
    HoldingShrinks(w, u, l);
    hide Inv;
    hide Ownership;
    PlainStep(c, w, u, l);
  }

  lemma GiveUpKeepsInv(c: Content, w: World, l: nat, u: World)
    requires Inv(c, w) && Next(c, w, GiveUp(l), u)
    ensures Inv(c, u)
  {
    hide Inv;
    hide Held;
    hide LaneOk;
    hide FileOk;
    hide Ownership;
    hide AggregatesOk;
    hide CanGiveUp;
    InvAt(c, w, l);
    ReleaseKeepsInv(c, w, l, w.done, w.cached);
  }

  /** Everything a finished lane holds is recorded. */
  lemma FinishedIsRecorded(c: Content, w: World, l: nat)
    requires Inv(c, w) && l < |w.lanes| && w.lanes[l].Finishing? && w.lanes[l].done == |w.lanes[l].files|
    ensures Held(w.lanes[l]) <= w.disk.recorded
  {
    InvAt(c, w, l);
    hide Inv;
    forall f | f in Held(w.lanes[l]) ensures f in w.disk.recorded {
      var j :| 0 <= j < |w.lanes[l].files| && w.lanes[l].files[j] == f;
    }
  }

  lemma FinishKeepsInv(c: Content, w: World, l: nat, u: World)
    requires Inv(c, w) && Next(c, w, Finish(l), u)
    ensures Inv(c, u)
  {
    FinishedIsRecorded(c, w, l);
    InvAt(c, w, l);
    hide Inv;
    hide Held;
    hide LaneOk;
    ReleaseKeepsInv(c, w, l, u.done, u.cached);
  }

  lemma RefreshKeepsInv(c: Content, w: World, u: World)
    requires Inv(c, w) && Next(c, w, Refresh, u)
    ensures Inv(c, u)
  {
    forall f: FileId ensures SameFile(w.disk, u.disk, f) && FileOk(c, u.disk, f) {
      FileFrame(c, w.disk, u.disk, f);
    }
    forall i | 0 <= i < |u.lanes| ensures LaneOk(c, u.disk, u.lanes[i]) {
      LaneFrame(c, w.disk, u.disk, w.lanes[i]);
    }
  }

  lemma LoadKeepsInv(c: Content, w: World, e: Event, u: World)
    requires Inv(c, w) && (e.StartLoad? || e.FinishLoad?) && Next(c, w, e, u)
    ensures Inv(c, u)
  {
    var l := e.l;
    InvAt(c, w, l);
    hide Inv;
    hide FileOk;
    SameHolding(w, u, l);
    hide Ownership;
    PlainStep(c, w, u, l);
  }

  lemma StartMoveKeepsInv(c: Content, w: World, l: nat, u: World)
    requires Inv(c, w) && Next(c, w, StartMove(l), u)
    ensures Inv(c, u)
  {
    InvAt(c, w, l);
    hide Inv;
    hide FileOk;
    hide AggregatesOk;
    SameHolding(w, u, l);
    hide Ownership;
    forall f | f in w.lanes[l].files ensures MovedBelow(c, u.disk.store, f, 0) {
      KeepNone(Stored(c, f), (r: Row) => r.bucket < 0);
    }
    PlainStep(c, w, u, l);
  }

  lemma EndMoveKeepsInv(c: Content, w: World, l: nat, u: World)
    requires Inv(c, w) && Next(c, w, EndMove(l), u) && ValidContent(c)
    ensures Inv(c, u)
  {
    InvAt(c, w, l);
    hide Inv;
    hide FileOk;
    hide AggregatesOk;
    SameHolding(w, u, l);
    hide Ownership;
    forall f | f in w.lanes[l].files ensures OnceInStore(c, u.disk.store, f) {
      AllMoved(c, w, w.lanes[l].files, w.lanes[l].bound, f);
    }
    PlainStep(c, w, u, l);
  }

  lemma AllMoved(c: Content, w: World, files: seq<FileId>, bound: nat, f: FileId)
    requires ValidContent(c) && Distinct(files) && f in files
    requires forall b | b in Buckets(Partitions(c, files)) :: b < bound
    requires MovedBelow(c, w.disk.store, f, bound)
    ensures OnceInStore(c, w.disk.store, f)
  {
    StoredInPartitions(c, files, f);
    forall r | r in Stored(c, f) ensures r.bucket < bound {
      assert (r.day, r.bucket).1 in Buckets(Partitions(c, files));
    }
    KeepAll(Stored(c, f), (r: Row) => r.bucket < bound);
  }

  lemma PurgeOldKeepsInv(c: Content, w: World, l: nat, u: World)
    requires Inv(c, w) && Next(c, w, PurgeOld(l), u)
    ensures Inv(c, u)
  {
    var files, i := w.lanes[l].files, w.lanes[l].done;
    var f := files[i];
    InvAt(c, w, l);
    assert f in files && FileOk(c, w.disk, f);
    hide Inv;
    hide AggregatesOk;
    hide InFilter;
    hide Of;
    hide Purge;
    hide Stored;
    hide Partitions;
    hide OnceInStore;
    hide CountedOnce;
    hide SameFile;
    PurgeKeepsFiles(c, w, u, f);
    hide FileOk;
    SameHolding(w, u, l);
    hide Ownership;
    assert LaneOk(c, u.disk, u.lanes[l]);
    hide LaneOk;
    LaneStep(c, w, u, l, {f});
  }

  lemma SkipOldKeepsInv(c: Content, w: World, l: nat, u: World)
    requires Inv(c, w) && Next(c, w, SkipOld(l), u)
    ensures Inv(c, u)
  {
    hide Inv;
    hide Ownership;
    var files, i := w.lanes[l].files, w.lanes[l].done;
    var f := files[i];
    InvAt(c, w, l);
    hide AggregatesOk;
    assert f in files && FileOk(c, w.disk, f);
    assert FileOk(c, u.disk, f);
    hide FileOk;
    SameHolding(w, u, l);
    LaneStep(c, w, u, l, {f});
  }

  lemma WriteMarkerKeepsInv(c: Content, w: World, l: nat, u: World)
    requires Inv(c, w) && Next(c, w, WriteMarker(l), u)
    ensures Inv(c, u)
  {
    if w.lanes[l].OldMarkers? {
      OldMarkersGone(c, w, l, u);
    } else {
      NewMarkerKeepsInv(c, w, l, u);
    }
  }

  lemma OldMarkersGone(c: Content, w: World, l: nat, u: World)
    requires Inv(c, w) && l < |w.lanes| && w.lanes[l].OldMarkers? && w.lanes[l].done == |w.lanes[l].files|
    requires u == WithLane(w, l, NewMarkers(w.lanes[l].files, 0))
    ensures Inv(c, u)
  {
    InvAt(c, w, l);
    hide Inv;
    hide AggregatesOk;
    hide Partitions;
    SameHolding(w, u, l);
    hide Ownership;
    forall f | f in w.lanes[l].files ensures Of(u.disk.store, f) == [] && f !in u.disk.pending {
      assert FileOk(c, w.disk, f);
    }
    PlainStep(c, w, u, l);
  }

  lemma NewMarkerKeepsInv(c: Content, w: World, l: nat, u: World)
    requires Inv(c, w) && l < |w.lanes| && w.lanes[l].NewMarkers? && w.lanes[l].done < |w.lanes[l].files|
    requires var files, i := w.lanes[l].files, w.lanes[l].done;
             u == WithLane(w.(disk := w.disk.(markers := w.disk.markers[files[i] := Partitions(c, files)])), l, NewMarkers(files, i + 1))
    ensures Inv(c, u)
  {
    InvAt(c, w, l);
    hide Inv;
    hide AggregatesOk;
    hide Partitions;
    SameHolding(w, u, l);
    hide Ownership;
    var files, i := w.lanes[l].files, w.lanes[l].done;
    assert files[i] in files;
    assert FileOk(c, u.disk, files[i]);
    hide FileOk;
    LaneStep(c, w, u, l, {files[i]});
  }

  /** What one bucket INSERT does to a file of the batch. */
  lemma BucketMoved(c: Content, w: World, u: World, files: seq<FileId>, bound: nat, b: nat, f: FileId)
    requires ValidContent(c) && Distinct(files) && f in files
    requires NextBucket(Partitions(c, files), bound, b)
    requires u.disk.store == w.disk.store + BucketRows(c, files, b)
    requires MovedBelow(c, w.disk.store, f, bound)
    ensures MovedBelow(c, u.disk.store, f, b + 1)
  {
    OfConcat(w.disk.store, BucketRows(c, files, b), f);
    OfBucketRows(c, files, b, f);
    StoredInPartitions(c, files, f);
    forall r | r in Stored(c, f) ensures r.bucket < bound || b <= r.bucket {
      assert (r.day, r.bucket).1 in Buckets(Partitions(c, files));
    }
    KeepUnion(Stored(c, f), (r: Row) => r.bucket < bound, (r: Row) => r.bucket == b, (r: Row) => r.bucket < b + 1);
  }

  lemma OthersUntouched(c: Content, w: World, files: seq<FileId>, b: nat, landed: seq<Row>)
    requires ValidContent(c) && Distinct(files) && forall r | r in landed :: r in BucketRows(c, files, b)
    ensures forall g: FileId | g !in files :: Of(w.disk.store + landed, g) == Of(w.disk.store, g)
  {
    forall g: FileId | g !in files ensures Of(w.disk.store + landed, g) == Of(w.disk.store, g) {
      forall r | r in landed ensures r.file != g {
        BucketRowMeans(c, files, b, r);
      }
      OfConcat(w.disk.store, landed, g);
      KeepNone(landed, (r: Row) => r.file == g);
    }
  }

  /** A row of the batch that is in the store lies within what the batch's markers make a purge cover. */
  lemma MovedIsCovered(c: Content, w: World, files: seq<FileId>, bound: nat, f: FileId)
    requires ValidContent(c) && Distinct(files) && f in files && MovedBelow(c, w.disk.store, f, bound)
    ensures forall r | r in Of(w.disk.store, f) ::
              r.bucket < bound && (r.day, r.bucket) in Partitions(c, files) && InFilter(Partitions(c, files), r)
  {
    StoredInPartitions(c, files, f);
    KeepMembers(Stored(c, f), (r: Row) => r.bucket < bound);
    forall r | r in Of(w.disk.store, f) ensures r in Keep(Stored(c, f), (q: Row) => q.bucket < bound) {
      assert r in multiset(Of(w.disk.store, f));
    }
  }

  lemma MarkedAt(c: Content, w: World, files: seq<FileId>, f: FileId)
    requires Marked(c, w.disk.markers, files, 0) && f in files
    ensures f in w.disk.markers && w.disk.markers[f] == Partitions(c, files)
  {
  }

  lemma MoveBucketKeepsInv(c: Content, w: World, l: nat, b: nat, u: World)
    requires Inv(c, w) && Next(c, w, MoveBucket(l, b), u) && ValidContent(c)
    ensures Inv(c, u)
  {
    hide Stored;
    hide Partitions;
    hide BucketRows;
    hide NextBucket;
    hide MovedBelow;
    hide InFilter;
    var files, bound := w.lanes[l].files, w.lanes[l].bound;
    assert LaneOk(c, w.disk, w.lanes[l]);
    OthersUntouched(c, w, files, b, BucketRows(c, files, b));
    SameHolding(w, u, l);
    forall f | f in files ensures MovedBelow(c, u.disk.store, f, b + 1) && FileOk(c, u.disk, f) {
      BucketMoved(c, w, u, files, bound, b, f);
      MovedIsCovered(c, u, files, b + 1, f);
      MarkedAt(c, w, files, f);
    }
    LaneStep(c, w, u, l, SetOf(files));
  }

  lemma FailBucketKeepsInv(c: Content, w: World, l: nat, b: nat, landed: seq<Row>, u: World)
    requires Inv(c, w) && Next(c, w, FailBucket(l, b, landed), u) && ValidContent(c)
    ensures Inv(c, u)
  {
    hide Stored;
    hide Partitions;
    hide BucketRows;
    hide MovedBelow;
    hide InFilter;
    var files, bound := w.lanes[l].files, w.lanes[l].bound;
    assert LaneOk(c, w.disk, w.lanes[l]);
    OthersUntouched(c, w, files, b, landed);
    SameHolding(w, u, l);
    forall f, r | f in files && r in Of(u.disk.store, f)
      ensures r.bucket <= b && (r.day, r.bucket) in Partitions(c, files) && InFilter(Partitions(c, files), r)
    {
      MovedIsCovered(c, w, files, bound, f);
      OfConcat(w.disk.store, landed, f);
      OfMembers(landed, f);
      if r !in Of(w.disk.store, f) {
        BucketRowMeans(c, files, b, r);
        PairInFilter(Partitions(c, files), r);
      }
    }
    forall f | f in files ensures FileOk(c, u.disk, f) {
      MarkedAt(c, w, files, f);
    }
    LaneStep(c, w, u, l, SetOf(files));
  }

  lemma PurgeFailedMoveKeepsInv(c: Content, w: World, l: nat, u: World)
    requires Inv(c, w) && Next(c, w, PurgeFailedMove(l), u)
    ensures Inv(c, u)
  {
    hide Stored;
    hide Partitions;
    hide InFilter;
    hide Purge;
    var files, b := w.lanes[l].files, w.lanes[l].bucket;
    var pairs := Attempted(Partitions(c, files), b);
    assert LaneOk(c, w.disk, w.lanes[l]);
    SameHolding(w, u, l);
    forall g: FileId
      ensures g !in files ==> Of(u.disk.store, g) == Of(w.disk.store, g)
      ensures g in files ==> Of(u.disk.store, g) == [] && FileOk(c, u.disk, g)
    {
      if g in files {
        forall r | r in Of(w.disk.store, g) ensures InFilter(pairs, r) {
          PairInFilter(pairs, r);
        }
      }
      OfPurge(w.disk.store, SetOf(files), pairs, g);
    }
    LaneStep(c, w, u, l, SetOf(files));
  }

  lemma DropMarkerKeepsInv(c: Content, w: World, l: nat, u: World)
    requires Inv(c, w) && Next(c, w, DropMarker(l), u)
    ensures Inv(c, u)
  {
    hide Stored;
    hide Partitions;
    hide InFilter;
    var files, i := w.lanes[l].files, w.lanes[l].done;
    assert LaneOk(c, w.disk, w.lanes[l]) && files[i] in files;
    SameHolding(w, u, l);
    LaneStep(c, w, u, l, {files[i]});
  }

  lemma CountedKeepsAggregates(c: Content, a: map<Token, seq<Row>>, t: Token, rows: seq<Row>)
    requires AggregatesOk(c, a) && multiset(rows) == multiset(Stored(c, t.file))
    ensures AggregatesOk(c, Counted(a, t, rows)) && t in Counted(a, t, rows)
    ensures forall s | s in a :: s in Counted(a, t, rows) && Counted(a, t, rows)[s] == a[s]
  {
  }

  lemma LaneAfterAggregate(c: Content, d: Disk, e: Disk, files: seq<FileId>, i: nat, k: nat)
    requires LaneOk(c, d, Finishing(files, i, k, false)) && i < |files| && k < |KINDS|
    requires e == d.(aggregates := e.aggregates) && forall t | t in d.aggregates :: t in e.aggregates
    requires Token(KINDS[k], files[i]) in e.aggregates
    ensures LaneOk(c, e, Finishing(files, i, k + 1, false))
  {
    hide OnceInStore;
    hide Marked;
    hide Distinct;
  }

  /** A step of lane `l` that only adds an aggregate. */
  lemma CountingStep(c: Content, w: World, u: World, l: nat, t: Token, rows: seq<Row>)
    requires Inv(c, w) && l < |w.lanes| == |u.lanes| && multiset(rows) == multiset(Stored(c, t.file))
    requires u == w.(disk := w.disk.(aggregates := Counted(w.disk.aggregates, t, rows)), lanes := u.lanes)
    requires forall i | 0 <= i < |w.lanes| && i != l :: u.lanes[i] == w.lanes[i]
    requires LaneOk(c, u.disk, u.lanes[l]) && Held(u.lanes[l]) == Held(w.lanes[l])
    ensures Inv(c, u)
  {
    InvAt(c, w, l);
    CountedKeepsAggregates(c, w.disk.aggregates, t, rows);
    SameHolding(w, u, l);
    hide Inv;
    hide LaneOk;
    hide Ownership;
    hide AggregatesOk;
    hide Counted;
    LaneStep(c, w, u, l, {});
  }

  lemma AggregateStep(c: Content, w: World, l: nat, u: World)
    requires Next(c, w, Aggregate(l), u)
    ensures l < |w.lanes| && w.lanes[l].Finishing? && w.lanes[l].done < |w.lanes[l].files| && w.lanes[l].kinds < |KINDS|
    ensures !w.lanes[l].recorded ==> u.lanes[l] == Finishing(w.lanes[l].files, w.lanes[l].done, w.lanes[l].kinds + 1, false)
    ensures var files, i := w.lanes[l].files, w.lanes[l].done;
            u == w.(disk := w.disk.(aggregates := Counted(w.disk.aggregates, Token(KINDS[w.lanes[l].kinds], files[i]),
                                                          Aggregated(c, files, i))),
                    lanes := w.lanes[l := w.lanes[l].(kinds := w.lanes[l].kinds + 1)])
  {
    hide Counted;
    hide Aggregated;
  }

  lemma AggregateKeepsInv(c: Content, w: World, l: nat, u: World)
    requires Inv(c, w) && Next(c, w, Aggregate(l), u) && ValidContent(c)
    ensures Inv(c, u)
  {
    InvAt(c, w, l);
    AggregateStep(c, w, l, u);
    hide Next;
    hide Inv;
    hide FileOk;
    hide OnceInStore;
    hide Marked;
    hide Stored;
    hide AggregatesOk;
    hide Ownership;
    hide Distinct;
    hide Aggregated;
    var files, i, k := w.lanes[l].files, w.lanes[l].done, w.lanes[l].kinds;
    assert Distinct(files) && !w.lanes[l].recorded;
    AggregatedIsStored(c, files, i);
    LaneAfterAggregate(c, w.disk, u.disk, files, i, k);
    hide LaneOk;
    hide Counted;
    CountingStep(c, w, u, l, Token(KINDS[k], files[i]), Aggregated(c, files, i));
  }

  lemma RecordedIsCounted(c: Content, w: World, f: FileId)
    requires AggregatesOk(c, w.disk.aggregates)
    requires forall m | 0 <= m < |KINDS| :: Token(KINDS[m], f) in w.disk.aggregates
    ensures CountedOnce(c, w.disk.aggregates, f)
  {
    forall k: Kind ensures Token(k, f) in w.disk.aggregates {
      assert k == KINDS[0] || k == KINDS[1] || k == KINDS[2];
    }
  }

  lemma RecordStep(c: Content, w: World, l: nat, u: World)
    requires Next(c, w, Record(l), u)
    ensures l < |w.lanes| && w.lanes[l].Finishing? && w.lanes[l].done < |w.lanes[l].files|
    ensures var files, i := w.lanes[l].files, w.lanes[l].done;
            && w.lanes[l] == Finishing(files, i, |KINDS|, false)
            && u == w.(disk := w.disk.(recorded := w.disk.recorded + {files[i]}),
                       lanes := w.lanes[l := Finishing(files, i, |KINDS|, true)])
  {
  }

  lemma RecordKeepsFiles(c: Content, d: Disk, f: FileId)
    requires FileOk(c, d, f) && OnceInStore(c, d.store, f) && CountedOnce(c, d.aggregates, f) && f !in d.pending
    ensures FileOk(c, d.(recorded := d.recorded + {f}), f)
    ensures forall g: FileId | g != f :: SameFile(d, d.(recorded := d.recorded + {f}), g)
  {
    hide OnceInStore;
    hide CountedOnce;
    hide Of;
    hide InFilter;
  }

  lemma LaneAfterRecord(c: Content, d: Disk, files: seq<FileId>, i: nat)
    requires LaneOk(c, d, Finishing(files, i, |KINDS|, false)) && i < |files|
    ensures LaneOk(c, d.(recorded := d.recorded + {files[i]}), Finishing(files, i, |KINDS|, true))
  {
    hide OnceInStore;
    hide Marked;
  }

  lemma RecordKeepsInv(c: Content, w: World, l: nat, u: World)
    requires Inv(c, w) && Next(c, w, Record(l), u)
    ensures Inv(c, u)
  {
    InvAt(c, w, l);
    RecordStep(c, w, l, u);
    hide Next;
    hide Inv;
    hide OnceInStore;
    hide Marked;
    hide FileOk;
    hide SameFile;
    hide AggregatesOk;
    hide CountedOnce;
    hide Distinct;
    var files, i := w.lanes[l].files, w.lanes[l].done;
    RecordedIsCounted(c, w, files[i]);
    assert OnceInStore(c, w.disk.store, files[i]) && files[i] !in w.disk.pending;
    RecordKeepsFiles(c, w.disk, files[i]);
    LaneAfterRecord(c, w.disk, files, i);
    hide LaneOk;
    SameHolding(w, u, l);
    hide Ownership;
    assert files[i] in files;
    LaneStep(c, w, u, l, {files[i]});
  }

  lemma LaneAfterUnlink(c: Content, d: Disk, e: Disk, files: seq<FileId>, i: nat)
    requires LaneOk(c, d, Finishing(files, i, |KINDS|, true)) && i < |files|
    requires e == d.(markers := d.markers - {files[i]})
    ensures LaneOk(c, e, Finishing(files, i + 1, 0, false))
  {
    hide Partitions;
    hide OnceInStore;
  }

  lemma UnlinkStep(c: Content, w: World, l: nat, u: World)
    requires Next(c, w, Unlink(l), u)
    ensures l < |w.lanes| && w.lanes[l].Finishing? && w.lanes[l].done < |w.lanes[l].files| && w.lanes[l].recorded
    ensures var files, i := w.lanes[l].files, w.lanes[l].done;
            u == w.(disk := w.disk.(markers := w.disk.markers - {files[i]}), lanes := w.lanes[l := Finishing(files, i + 1, 0, false)])
  {
  }

  lemma UnlinkKeepsInv(c: Content, w: World, l: nat, u: World)
    requires Inv(c, w) && Next(c, w, Unlink(l), u)
    ensures Inv(c, u)
  {
    InvAt(c, w, l);
    UnlinkStep(c, w, l, u);
    hide Next;
    hide Inv;
    hide OnceInStore;
    hide Marked;
    hide FileOk;
    hide SameFile;
    hide AggregatesOk;
    hide Distinct;
    hide Of;
    var files, i := w.lanes[l].files, w.lanes[l].done;
    assert files[i] in w.disk.recorded && w.lanes[l].kinds == |KINDS|;
    UnmarkKeepsFiles(c, w, u, files[i]);
    LaneAfterUnlink(c, w.disk, u.disk, files, i);
    hide LaneOk;
    SameHolding(w, u, l);
    hide Ownership;
    assert files[i] in files;
    LaneStep(c, w, u, l, {files[i]});
  }

  // ---- recovery, background deletion, restart ----

  /** A step that leaves the lanes alone and touches one file that no lane holds. */
  lemma RecoveryStep(c: Content, w: World, u: World, f: FileId)
    requires Inv(c, w) && u.lanes == w.lanes && f in w.recovering
    requires forall g: FileId | g != f :: SameFile(w.disk, u.disk, g)
    requires u.recovering.Keys <= w.recovering.Keys && w.claims - {f} <= u.claims
    requires forall g | g in u.recovering && g != f :: u.recovering[g] == w.recovering[g]
    requires f in u.recovering ==>
               f in u.claims && (u.recovering[f] ==> f !in u.disk.recorded && Of(u.disk.store, f) == [] && f !in u.disk.pending)
    requires FileOk(c, u.disk, f) && u.disk.aggregates == w.disk.aggregates && u.cached == w.cached && u.disk.recorded == w.disk.recorded
    ensures Inv(c, u)
  {
    forall g: FileId ensures FileOk(c, u.disk, g) {
      if g != f {
        FileFrame(c, w.disk, u.disk, g);
      }
    }
    forall i | 0 <= i < |u.lanes| ensures LaneOk(c, u.disk, u.lanes[i]) {
      assert f !in Held(w.lanes[i]);
      LaneFrame(c, w.disk, u.disk, w.lanes[i]);
    }
    forall g | g in u.recovering && u.recovering[g] ensures g !in u.disk.recorded && Of(u.disk.store, g) == [] && g !in u.disk.pending {
      if g != f {
        assert SameFile(w.disk, u.disk, g);
      }
    }
  }

  /** A deletion that goes on at the server was asked for by a lane that has moved nothing of the file. */
  lemma TimeOutStep(c: Content, w: World, e: Event, u: World)
    requires (e.PurgeOldTimesOut? || e.PurgeMoveTimesOut?) && Next(c, w, e, u)
    ensures e.l < |w.lanes| && u == w.(disk := w.disk.(pending := u.disk.pending)) && w.disk.pending <= u.disk.pending
    ensures var lane := w.lanes[e.l];
            && (lane.MoveFailed? || (lane.OldMarkers? && !lane.purged))
            && forall f | f in u.disk.pending - w.disk.pending ::
                 f in lane.files && (lane.OldMarkers? ==> f in w.disk.markers && f !in w.disk.recorded)
  {
  }

  lemma TimedOutFile(c: Content, d: Disk, e: Disk, f: FileId)
    requires FileOk(c, d, f) && f in d.markers && f !in d.recorded && e == d.(pending := e.pending)
    ensures FileOk(c, e, f)
  {
    hide Of;
    hide InFilter;
  }

  lemma PurgeTimesOutKeepsInv(c: Content, w: World, e: Event, u: World)
    requires Inv(c, w) && (e.PurgeOldTimesOut? || e.PurgeMoveTimesOut?) && Next(c, w, e, u)
    ensures Inv(c, u)
  {
    hide Inv;
    hide AggregatesOk;
    hide Partitions;
    hide Of;
    hide FileOk;
    hide Ownership;
    var l := e.l;
    var lane, late := w.lanes[l], u.disk.pending - w.disk.pending;
    InvAt(c, w, l);
    TimeOutStep(c, w, e, u);
    hide Next;
    forall f | f in late ensures f in Held(lane) && FileOk(c, u.disk, f) {
      assert f in lane.files;
      TimedOutFile(c, w.disk, u.disk, f);
    }
    assert LaneOk(c, u.disk, lane);
    assert forall f: FileId | f !in late :: SameFile(w.disk, u.disk, f);
    hide LaneOk;
    hide SameFile;
    SameHolding(w, u, l);
    LaneStep(c, w, u, l, late);
  }

  lemma RecoverTimesOutKeepsInv(c: Content, w: World, f: FileId, u: World)
    requires Inv(c, w) && Next(c, w, RecoverTimesOut(f), u)
    ensures Inv(c, u)
  {
    assert w.recovering.Keys <= w.claims;
    assert FileOk(c, w.disk, f);
    assert FileOk(c, u.disk, f);
    hide Inv;
    hide FileOk;
    hide Of;
    RecoveryStep(c, w, u, f);
  }

  /** A purge within the partitions of a marker empties its file and leaves the others alone. */
  lemma PurgeKeepsFiles(c: Content, w: World, u: World, f: FileId)
    requires f in w.disk.markers && f !in w.disk.recorded && u.disk.pending == w.disk.pending
    requires (forall r | r in Of(w.disk.store, f) :: InFilter(w.disk.markers[f], r))
    requires u.disk.store == Purge(w.disk.store, {f}, w.disk.markers[f]) && u.disk.recorded == w.disk.recorded
    requires u.disk.markers == w.disk.markers && u.disk.aggregates == w.disk.aggregates
    ensures Of(u.disk.store, f) == [] && FileOk(c, u.disk, f)
    ensures forall g: FileId | g != f :: SameFile(w.disk, u.disk, g)
  {
    forall g: FileId ensures g != f ==> Of(u.disk.store, g) == Of(w.disk.store, g) {
      OfPurge(w.disk.store, {f}, w.disk.markers[f], g);
    }
    OfPurge(w.disk.store, {f}, w.disk.markers[f], f);
    hide Of;
    hide Purge;
    hide InFilter;
  }

  /** A marker may go once its file is recorded or has no row left. */
  lemma UnmarkKeepsFiles(c: Content, w: World, u: World, f: FileId)
    requires FileOk(c, w.disk, f) && (f in w.disk.recorded || (Of(w.disk.store, f) == [] && f !in w.disk.pending))
    requires u.disk.store == w.disk.store && u.disk.recorded == w.disk.recorded && u.disk.aggregates == w.disk.aggregates && u.disk.pending == w.disk.pending
    requires u.disk.markers == w.disk.markers - {f}
    ensures FileOk(c, u.disk, f)
    ensures forall g: FileId | g != f :: SameFile(w.disk, u.disk, g)
  {
    hide Of;
    hide Stored;
    hide InFilter;
  }

  lemma RecoverPurgeKeepsInv(c: Content, w: World, f: FileId, u: World)
    requires Inv(c, w) && Next(c, w, RecoverPurge(f), u)
    ensures Inv(c, u)
  {
    assert FileOk(c, w.disk, f);
    assert w.recovering.Keys <= w.claims;
    hide Inv;
    hide Of;
    hide Stored;
    hide Purge;
    hide InFilter;
    hide CountedOnce;
    hide OnceInStore;
    PurgeKeepsFiles(c, w, u, f);
    hide FileOk;
    hide SameFile;
    RecoveryStep(c, w, u, f);
  }

  lemma RecoveredFile(c: Content, w: World, f: FileId, u: World)
    requires Next(c, w, RecoverCommitted(f), u) || Next(c, w, RecoverUnlink(f), u)
    ensures f in w.recovering && (f in w.disk.recorded || w.recovering[f])
    ensures u == w.(disk := w.disk.(markers := w.disk.markers - {f}), recovering := w.recovering - {f}, claims := w.claims - {f})
  {
  }

  lemma RecoverUnlinkKeepsInv(c: Content, w: World, f: FileId, u: World)
    requires Inv(c, w) && (Next(c, w, RecoverCommitted(f), u) || Next(c, w, RecoverUnlink(f), u))
    ensures Inv(c, u)
  {
    assert FileOk(c, w.disk, f);
    assert w.recovering.Keys <= w.claims;
    assert f in w.recovering && w.recovering[f] ==> Of(w.disk.store, f) == [] && f !in w.disk.pending;
    RecoveredFile(c, w, f, u);
    hide *;
    UnmarkKeepsFiles(c, w, u, f);
    RecoveryStep(c, w, u, f);
  }

  lemma RecoverGiveUpKeepsInv(c: Content, w: World, f: FileId, u: World)
    requires Inv(c, w) && Next(c, w, RecoverGiveUp(f), u)
    ensures Inv(c, u)
  {
    assert w.recovering.Keys <= w.claims;
    assert FileOk(c, w.disk, f);
    forall g: FileId ensures SameFile(w.disk, u.disk, g) {
    }
    hide Inv;
    hide Of;
    FileFrame(c, w.disk, u.disk, f);
    hide FileOk;
    hide SameFile;
    RecoveryStep(c, w, u, f);
  }

  lemma NothingLeft(left: seq<Row>, rows: seq<Row>)
    requires forall r | r in left :: r in rows
    ensures rows == [] ==> left == []
  {
    if left != [] {
      assert left[0] in rows;
    }
  }

  /** What a lane has moved, or found moved, no deletion at the server is after. */
  lemma MovedIsNotPending(c: Content, w: World, i: nat, f: FileId)
    requires Inv(c, w) && i < |w.lanes| && (w.lanes[i].Moving? || w.lanes[i].Finishing?) && f in w.lanes[i].files
    ensures f !in w.disk.pending
  {
    InvAt(c, w, i);
    hide Inv;
    hide Marked;
    hide MovedBelow;
    hide OnceInStore;
    assert FileOk(c, w.disk, f);
    hide CountedOnce;
    var j :| 0 <= j < |w.lanes[i].files| && w.lanes[i].files[j] == f;
  }

  /** Some rows of `f` are gone. */
  ghost predicate Eroded(d: Disk, e: Disk, f: FileId) {
    && e == d.(store := e.store)
    && (forall r | r in Of(e.store, f) :: r in Of(d.store, f))
    && forall g: FileId | g != f :: Of(e.store, g) == Of(d.store, g)
  }

  lemma ErodedLane(c: Content, d: Disk, e: Disk, f: FileId, l: Lane)
    requires LaneOk(c, d, l) && !(l.Moving? || l.Finishing?) && Eroded(d, e, f)
    ensures LaneOk(c, e, l)
  {
    NothingLeft(Of(e.store, f), Of(d.store, f));
    hide Marked;
    hide Distinct;
    hide Of;
    hide Partitions;
    assert forall g: FileId :: Of(d.store, g) == [] ==> Of(e.store, g) == [];
    assert forall g: FileId, r | r in Of(e.store, g) :: r in Of(d.store, g);
  }

  lemma ErodedFiles(c: Content, d: Disk, e: Disk, f: FileId)
    requires (forall g: FileId :: FileOk(c, d, g)) && Eroded(d, e, f) && f in d.pending
    ensures forall g: FileId :: FileOk(c, e, g)
    ensures forall g: FileId | g != f :: SameFile(d, e, g)
  {
    hide InFilter;
    hide Of;
    forall g: FileId ensures FileOk(c, e, g) {
      assert FileOk(c, d, g) && FileOk(c, d, f);
      hide Stored;
      hide CountedOnce;
    }
  }

  lemma ErodeStep(c: Content, w: World, f: FileId, left: seq<Row>, u: World)
    requires Next(c, w, Erode(f, left), u)
    ensures f in w.disk.pending && Eroded(w.disk, u.disk, f) && u == w.(disk := u.disk)
  {
  }

  /** A purge that timed out keeps deleting at the server: it takes no row of a file that is recorded or that a lane has
      moved. */
  lemma ErodeKeepsInv(c: Content, w: World, f: FileId, left: seq<Row>, u: World)
    requires Inv(c, w) && Next(c, w, Erode(f, left), u)
    ensures Inv(c, u)
  {
    ErodeStep(c, w, f, left, u);
    hide Next;
    ErodedFiles(c, w.disk, u.disk, f);
    forall i | 0 <= i < |u.lanes| ensures LaneOk(c, u.disk, u.lanes[i]) {
      if f in Held(w.lanes[i]) {
        if w.lanes[i].Moving? || w.lanes[i].Finishing? {
          MovedIsNotPending(c, w, i, f);
        }
        ErodedLane(c, w.disk, u.disk, f, w.lanes[i]);
      } else {
        LaneFrame(c, w.disk, u.disk, w.lanes[i]);
      }
      hide FileOk;
      hide SameFile;
      hide LaneOk;
    }
    hide FileOk;
    hide SameFile;
    hide LaneOk;
    hide Of;
    assert forall g | g in u.recovering && u.recovering[g] :: g != f;
  }

  lemma SettleKeepsInv(c: Content, w: World, f: FileId, u: World)
    requires Inv(c, w) && Next(c, w, Settle(f), u)
    ensures Inv(c, u)
  {
    assert u == w.(disk := w.disk.(pending := w.disk.pending - {f}));
    hide Next;
    SettledFiles(c, w.disk, u.disk);
    hide FileOk;
    forall i | 0 <= i < |u.lanes| ensures LaneOk(c, u.disk, u.lanes[i]) {
      SettledLane(c, w.disk, u.disk, w.lanes[i]);
    }
    hide LaneOk;
  }

  lemma SettledFiles(c: Content, d: Disk, e: Disk)
    requires (forall g: FileId :: FileOk(c, d, g)) && e == d.(pending := e.pending) && e.pending <= d.pending
    ensures forall g: FileId :: FileOk(c, e, g)
  {
    hide Of;
    hide OnceInStore;
    hide CountedOnce;
    hide InFilter;
    forall g: FileId ensures FileOk(c, e, g) {
      assert FileOk(c, d, g);
    }
  }

  lemma SettledLane(c: Content, d: Disk, e: Disk, l: Lane)
    requires LaneOk(c, d, l) && e == d.(pending := e.pending) && e.pending <= d.pending
    ensures LaneOk(c, e, l)
  {
    hide Of;
    hide OnceInStore;
    hide MovedBelow;
    hide Marked;
    hide Distinct;
    hide Partitions;
  }

  lemma CrashKeepsInv(c: Content, w: World, u: World)
    requires Inv(c, w) && Next(c, w, Crash, u)
    ensures Inv(c, u)
  {
    assert u.disk == w.disk;
    hide FileOk;
  }

  lemma NextKeepsInv(c: Content, w: World, e: Event, u: World)
    requires ValidContent(c) && Inv(c, w) && Next(c, w, e, u) && FreshCheck(w, e)
    ensures Inv(c, u)
  {
    hide Inv;
    match e
    case Take(l, f) => TakeKeepsInv(c, w, l, f, u);
    case Refresh => RefreshKeepsInv(c, w, u);
    case Check(l) => CheckKeepsInv(c, w, l, u);
    case StartLoad(_) => LoadKeepsInv(c, w, e, u);
    case FinishLoad(_) => LoadKeepsInv(c, w, e, u);
    case PurgeOld(l) => PurgeOldKeepsInv(c, w, l, u);
    case PurgeOldTimesOut(_) => PurgeTimesOutKeepsInv(c, w, e, u);
    case SkipOld(l) => SkipOldKeepsInv(c, w, l, u);
    case WriteMarker(l) => WriteMarkerKeepsInv(c, w, l, u);
    case StartMove(l) => StartMoveKeepsInv(c, w, l, u);
    case MoveBucket(l, b) => MoveBucketKeepsInv(c, w, l, b, u);
    case FailBucket(l, b, landed) => FailBucketKeepsInv(c, w, l, b, landed, u);
    case PurgeFailedMove(l) => PurgeFailedMoveKeepsInv(c, w, l, u);
    case PurgeMoveTimesOut(_) => PurgeTimesOutKeepsInv(c, w, e, u);
    case DropMarker(l) => DropMarkerKeepsInv(c, w, l, u);
    case EndMove(l) => EndMoveKeepsInv(c, w, l, u);
    case Aggregate(l) => AggregateKeepsInv(c, w, l, u);
    case Record(l) => RecordKeepsInv(c, w, l, u);
    case Unlink(l) => UnlinkKeepsInv(c, w, l, u);
    case Finish(l) => FinishKeepsInv(c, w, l, u);
    case GiveUp(l) => GiveUpKeepsInv(c, w, l, u);
    case RecoverCommitted(f) => RecoverUnlinkKeepsInv(c, w, f, u);
    case RecoverPurge(f) => RecoverPurgeKeepsInv(c, w, f, u);
    case RecoverTimesOut(f) => RecoverTimesOutKeepsInv(c, w, f, u);
    case RecoverUnlink(f) => RecoverUnlinkKeepsInv(c, w, f, u);
    case RecoverGiveUp(f) => RecoverGiveUpKeepsInv(c, w, f, u);
    case Erode(f, left) => ErodeKeepsInv(c, w, f, left, u);
    case Settle(f) => SettleKeepsInv(c, w, f, u);
    case Crash => CrashKeepsInv(c, w, u);
  }

  // ---- runs ----

  /** Empty stores, no markers, idle lanes. */
  predicate Start(w: World) {
    && w.disk.store == [] && w.disk.aggregates == map[] && w.disk.recorded == {} && w.disk.markers == map[] && w.disk.pending == {}
    && w.cached == None && w.claims == {} && w.done == {} && w.recovering == map[]
    && forall i | 0 <= i < |w.lanes| :: w.lanes[i] == Idle
  }

  ghost predicate Run(c: Content, worlds: seq<World>, events: seq<Event>) {
    && |worlds| == |events| + 1 && Start(worlds[0])
    && forall i | 0 <= i < |events| :: Next(c, worlds[i], events[i], worlds[i + 1])
  }

  /** No check is answered from a list that is older than the record of its candidate. */
  ghost predicate FreshRun(c: Content, worlds: seq<World>, events: seq<Event>) {
    Run(c, worlds, events) && forall i | 0 <= i < |events| :: FreshCheck(worlds[i], events[i])
  }

  lemma {:induction false} RunKeepsInv(c: Content, worlds: seq<World>, events: seq<Event>)
    requires ValidContent(c) && FreshRun(c, worlds, events)
    ensures Inv(c, worlds[|events|])
    decreases |events|
  {
    hide Next;
    hide FreshCheck;
    if events == [] {
      StartIsInv(c, worlds[0]);
    } else {
      var n := |events| - 1;
      RunKeepsInv(c, worlds[..n + 1], events[..n]);
      NextKeepsInv(c, worlds[n], events[n], worlds[n + 1]);
    }
  }

  lemma StartIsInv(c: Content, w: World)
    requires Start(w)
    ensures Inv(c, w)
  {
  }

  /** In every world of every run: a recorded file has each of its rows exactly once in the row store and is
      counted exactly once by every aggregate; a file with neither record nor marker has no row there; and every
      row of a marked file lies where the purge of its marker reaches. */
  lemma ExactlyOnce(c: Content, worlds: seq<World>, events: seq<Event>, f: FileId)
    requires ValidContent(c) && FreshRun(c, worlds, events)
    ensures var w := worlds[|events|];
            && (f in w.disk.recorded ==> OnceInStore(c, w.disk.store, f) && CountedOnce(c, w.disk.aggregates, f))
            && (f !in w.disk.recorded && f !in w.disk.markers ==> Of(w.disk.store, f) == [])
            && (f !in w.disk.recorded && f in w.disk.markers ==> Of(Purge(w.disk.store, {f}, w.disk.markers[f]), f) == [])
  {
    var w := worlds[|events|];
    RunKeepsInv(c, worlds, events);
    assert FileOk(c, w.disk, f);
    if f in w.disk.markers {
      OfPurge(w.disk.store, {f}, w.disk.markers[f], f);
    }
  }

  /** In every such run a deletion that goes on at the server takes no row of a file that is recorded, nor of one that a
      lane has begun to move or has moved. */
  lemma ErosionTakesNothing(c: Content, worlds: seq<World>, events: seq<Event>, f: FileId, left: seq<Row>, u: World, g: FileId)
    requires ValidContent(c) && FreshRun(c, worlds, events) && Next(c, worlds[|events|], Erode(f, left), u)
    requires var w := worlds[|events|];
             || g in w.disk.recorded
             || exists i | 0 <= i < |w.lanes| :: (w.lanes[i].Moving? || w.lanes[i].Finishing?) && g in w.lanes[i].files
    ensures g !in worlds[|events|].disk.pending && Of(u.disk.store, g) == Of(worlds[|events|].disk.store, g)
  {
    var w := worlds[|events|];
    RunKeepsInv(c, worlds, events);
    ErodeStep(c, w, f, left, u);
    hide Next;
    hide FreshRun;
    if g in w.disk.recorded {
      assert FileOk(c, w.disk, g);
    } else {
      var i :| 0 <= i < |w.lanes| && (w.lanes[i].Moving? || w.lanes[i].Finishing?) && g in w.lanes[i].files;
      MovedIsNotPending(c, w, i, g);
    }
  }
}
