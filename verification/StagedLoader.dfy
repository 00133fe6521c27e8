/** `StagedBatchLoader` of app/clickhouse_stage.py. Every request to the server, the manifest or the file
    system may fail before or after its effect, and the process may die there; what a method ensures without
    naming its outcome therefore holds at every step of it. */
module StagedLoader {
  import opened Select
  import opened PartStatus
  import opened PartTable
  import opened StageProtocol
  import opened StageDelivery

  datatype Outcome<+T> = Done(value: T) | StageError | ClientError | Crashed {
    predicate IsFailure() { !Done? }

    function PropagateFailure<U>(): Outcome<U>
      requires IsFailure()
    {
      match this
      case StageError => StageError
      case ClientError => ClientError
      case Crashed => Crashed
    }

    function Extract(): T
      requires Done?
    {
      value
    }
  }

  class StagedBatchLoader {
    var stageTime: Table
    var stageName: Table
    var finalTime: Table
    var finalName: Table
    var journal: Option<Journal>
    var manifest: map<Key, Status>
    /** While set, no request fails and the process is not killed. */
    const healthy: bool
    /** What the server reads in the object of an identity. */
    const objects: Objects

    constructor (finalTime: Table, finalName: Table, manifest: map<Key, Status>, objects: Objects, healthy: bool)
      ensures Inv(S()) && journal.None? && this.healthy == healthy && this.objects == objects
      ensures this.finalTime == finalTime && this.finalName == finalName && this.manifest == manifest
    {
      this.objects := objects;
      stageTime, stageName, journal := [], [], None;
      this.finalTime, this.finalName, this.manifest, this.healthy := finalTime, finalName, manifest, healthy;
    }

    ghost function S(): Store
      reads this
    {
      Store(stageTime, stageName, finalTime, finalName, journal, manifest)
    }

    // ---- requests ----

    method Request() returns (r: Outcome<()>)
      ensures !r.StageError?
      ensures healthy ==> r.Done?
    {
      r := Done(());
      if !healthy {
        if * { r := ClientError; } else if * { r := Crashed; }
      }
    }

    method WriteJournal(step: Step, parts: seq<Part>) returns (r: Outcome<()>)
      modifies this`journal
      ensures !r.StageError? && (healthy ==> r.Done?)
      ensures r.Done? ==> journal == Some(Journal(step, parts))
      ensures journal == old(journal) || journal == Some(Journal(step, parts))
    {
      var _ :- Request();
      journal := Some(Journal(step, parts));
      r := Request();
    }

    /** The direct insert writes the rows the server reads, in any order; a failed one may have written some of them. */
    method InsertFromStore() returns (r: Outcome<()>)
      requires Inv(S()) && journal.Some? && stageTime == [] && Filling(S(), journal.value.parts)
      modifies this`stageTime
      ensures !r.StageError? && (healthy ==> r.Done?)
      ensures Inv(S()) && Filling(S(), journal.value.parts)
      ensures multiset(stageTime) <= multiset(Delivered(objects, journal.value.parts))
      ensures r.Done? ==> Landed(objects, journal.value.parts, stageTime)
    {
      var _ :- Request();
      var all := Delivered(objects, journal.value.parts);
      DeliveredRows(objects, journal.value.parts);
      var fails: bool := *;
      if !healthy && fails {
        var some: Table :| multiset(some) <= multiset(all);
        SomeRowsOfOneDay(some, all);
        InsertKeepsInv(S(), some);
        stageTime := stageTime + some;
        assert stageTime == some;
        return ClientError;
      }
      var got: Table :| multiset(got) == multiset(all);
      SomeRowsOfOneDay(got, all);
      InsertKeepsInv(S(), got);
      stageTime := stageTime + got;
      assert stageTime == got;
      r := Request();
    }

    /** `copy_table` runs on one thread, so a failed copy leaves a prefix. */
    method CopyTimeToName() returns (r: Outcome<()>)
      requires Inv(S()) && journal.Some? && Copying(S(), journal.value.parts) && stageName == []
      modifies this`stageName
      ensures !r.StageError? && (healthy ==> r.Done? && stageName == stageTime)
      ensures Inv(S()) && Copying(S(), journal.value.parts)
    {
      var _ :- Request();
      var n: int := *;
      if healthy || n < 0 || n > |stageTime| {
        n := |stageTime|;
      }
      CopyKeepsInv(S(), n);
      stageName := stageName + stageTime[..n];
      r := Request();
    }

    method MoveNamePartition(day: string) returns (r: Outcome<()>)
      modifies this`stageName, this`finalName
      ensures !r.StageError? && (healthy ==> r.Done?)
      ensures S() == old(S()) || S() == NamePartitionMoved(old(S()), day)
      ensures r.Done? ==> S() == NamePartitionMoved(old(S()), day)
    {
      var _ :- Request();
      stageName, finalName := OffDay(stageName, day), finalName + OnDay(stageName, day);
      r := Request();
    }

    method MoveTimePartition(day: string) returns (r: Outcome<()>)
      modifies this`stageTime, this`finalTime
      ensures !r.StageError? && (healthy ==> r.Done?)
      ensures S() == old(S()) || S() == TimePartitionMoved(old(S()), day)
      ensures r.Done? ==> S() == TimePartitionMoved(old(S()), day)
    {
      var _ :- Request();
      stageTime, finalTime := OffDay(stageTime, day), finalTime + OnDay(stageTime, day);
      r := Request();
    }
  
    /** A failing `unlink` has removed nothing; only a kill leaves its effect unknown. */
    method ClearJournal() returns (r: Outcome<()>)
      modifies this`journal
      ensures !r.StageError? && (healthy ==> r.Done?)
      ensures r.Done? ==> journal == None
      ensures r.ClientError? ==> journal == old(journal)
      ensures journal == old(journal) || journal == None
    {
      var _ :- Request();
      journal := None;
      r := Done(());
      if !healthy {
        if * { r := Crashed; }
      }
    }

    method TruncateStaging() returns (r: Outcome<()>)
      requires Inv(S()) && journal.Some?
      requires (stageTime == [] && stageName == []) || Filling(S(), journal.value.parts)
            || Copying(S(), journal.value.parts)
      modifies this`stageTime, this`stageName
      ensures !r.StageError? && (healthy ==> r.Done?)
      ensures Inv(S())
      ensures r.Done? ==> stageTime == [] && stageName == []
    {
      if stageName != [] {
        var _ :- Request();
        DiscardKeepsInv(S(), journal.value.parts);
        stageName := [];
        var _ :- Request();
      }
      if stageTime != [] {
        var _ :- Request();
        DiscardKeepsInv(S(), journal.value.parts);
        stageTime := [];
        var _ :- Request();
      }
      r := Done(());
    }

    method MoveNamePartitions(days: set<string>, ghost parts: seq<Part>) returns (r: Outcome<()>)
      requires Inv(S()) && journal.Some? && journal.value.parts == parts && Moving(S(), parts)
      requires DaysOf(stageName) <= days
      modifies this`stageName, this`finalName
      ensures !r.StageError? && (healthy ==> r.Done?)
      ensures Inv(S()) && Moving(S(), parts) && FinalsGrow(old(S().Final()), S().Final(), Ids(parts))
      ensures SameNames(old(S()), S(), parts)
      ensures r.Done? ==> stageName == []
    {
      hide Inv;
      hide Moving;
      hide FinalsGrow;
      hide DaysOf;
      FinalsGrowSelf(S().Final(), Ids(parts));
      var left := days;
      assert SameNames(old(S()), S(), parts);
      hide SameNames;
      while left != {}
        invariant Inv(S()) && Moving(S(), parts) && FinalsGrow(old(S().Final()), S().Final(), Ids(parts))
        invariant DaysOf(stageName) <= left && SameNames(old(S()), S(), parts)
      {
        var day :| day in left;
        NameMoveStep(old(S()), S(), parts, day);
        MovedDayIsGone(stageName, day, left);
        var _ :- MoveNamePartition(day);
        left := left - {day};
      }
      NoDaysNoRows(stageName);
      r := Done(());
    }

    method MoveTimePartitions(days: set<string>, ghost parts: seq<Part>) returns (r: Outcome<()>)
      requires Inv(S()) && journal.Some? && journal.value.parts == parts && Moving(S(), parts) && stageName == []
      requires DaysOf(stageTime) <= days
      modifies this`stageTime, this`finalTime
      ensures !r.StageError? && (healthy ==> r.Done?)
      ensures Inv(S()) && Moving(S(), parts) && FinalsGrow(old(S().Final()), S().Final(), Ids(parts))
      ensures r.Done? ==> stageTime == []
    {
      hide Inv;
      hide Moving;
      hide FinalsGrow;
      hide DaysOf;
      FinalsGrowSelf(S().Final(), Ids(parts));
      var left := days;
      while left != {}
        invariant Inv(S()) && Moving(S(), parts) && FinalsGrow(old(S().Final()), S().Final(), Ids(parts))
        invariant DaysOf(stageTime) <= left
      {
        var day :| day in left;
        TimeMoveStep(old(S().Final()), S(), parts, day);
        MovedDayIsGone(stageTime, day, left);
        var _ :- MoveTimePartition(day);
        left := left - {day};
      }
      NoDaysNoRows(stageTime);
      r := Done(());
    }

    /** `mark_ready` part by part; each row is its own transaction. */
    method MarkReady(parts: seq<Part>) returns (r: Outcome<()>)
      requires forall p | p in parts :: InFinal(p, S())
      modifies this`manifest
      ensures !r.StageError? && (healthy ==> r.Done?)
      ensures OnlyReadyMarks(old(manifest), manifest, old(S()), parts)
      ensures r.Done? ==> AllReady(old(manifest), manifest, parts)
    {
      hide InFinal;
      hide Marked;
      hide AllReady;
      NoMarksYet(manifest, S(), parts);
      var i := 0;
      while i < |parts|
        invariant 0 <= i <= |parts|
        invariant OnlyReadyMarks(old(manifest), manifest, old(S()), parts)
        invariant AllReady(old(manifest), manifest, parts[..i])
      {
        var _ :- Request();
        MarkStep(old(manifest), manifest, old(S()), parts, i);
        manifest := Marked(manifest, KeyOf(parts[i]));
        var _ :- Request();
        i := i + 1;
      }
      assert parts[..|parts|] == parts;
      r := Done(());
    }
  
    method MoveRemainingStaging(ghost parts: seq<Part>) returns (r: Outcome<()>)
      requires Inv(S()) && journal.Some? && journal.value.parts == parts && Moving(S(), parts)
      modifies this`stageName, this`stageTime, this`finalName, this`finalTime
      ensures !r.StageError? && (healthy ==> r.Done?)
      ensures Inv(S()) && Moving(S(), parts) && FinalsGrow(old(S().Final()), S().Final(), Ids(parts))
      ensures r.Done? ==> stageName == [] && stageTime == []
    {
      hide Inv;
      hide Moving;
      hide FinalsGrow;
      FinalsGrowSelf(S().Final(), Ids(parts));
      var _ :- Request();
      r := MoveNamePartitions(DaysOf(stageName), parts);
      label named:
      if r.Done? {
        var _ :- Request();
        r := MoveTimePartitions(DaysOf(stageTime), parts);
        FinalsGrowTrans(old(S().Final()), old@named(S().Final()), S().Final(), Ids(parts));
      }
    }

    /** The loop of `recover` over the journaled parts. */
    method Examine(parts: seq<Part>) returns (r: Outcome<bool>)
      ensures !r.ClientError? && !r.Crashed?
      ensures r.StageError? <==> Contradicted(S(), parts)
      ensures r.Done? ==> (r.value <==> forall p | p in parts :: CanFinish(p, S()))
    {
      hide Inexact;
      hide InBoth;
      hide CanFinish;
      hide Started;
      var canFinish, finalHasRows := true, false;
      var i := 0;
      while i < |parts|
        invariant 0 <= i <= |parts|
        invariant forall p | p in parts[..i] :: !Inexact(p, S()) && !InBoth(p, S())
        invariant canFinish <==> forall p | p in parts[..i] :: CanFinish(p, S())
        invariant finalHasRows <==> exists p | p in parts[..i] :: Started(p, S())
      {
        var p := parts[i];
        var here := Store(stageTime, stageName, finalTime, finalName, journal, manifest);
        assert here == S() && p in parts;
        assert forall q :: q in parts[..i + 1] <==> q in parts[..i] || q == p;
        finalHasRows := finalHasRows || Started(p, here);
        if Inexact(p, here) {
          return StageError;
        }
        if InBoth(p, here) {
          return StageError;
        }
        canFinish := canFinish && CanFinish(p, here);
        i := i + 1;
      }
      assert parts[..|parts|] == parts;
      if !canFinish && finalHasRows {
        return StageError;
      }
      r := Done(canFinish);
    }
  
    /** Finishes or discards the journaled batch. None of its own three checks can fire. */
    method Recover() returns (r: Outcome<nat>)
      requires Inv(S())
      modifies this
      ensures Inv(S()) && !r.StageError? && (healthy ==> r.Done?)
      ensures journal.None? || journal == old(journal)
      ensures r.ClientError? ==> journal == old(journal)
      ensures old(journal).None? ==> S() == old(S()) && (r.Done? ==> r.value == 0)
      ensures old(journal).Some? ==>
                && FinalsGrow(old(S().Final()), S().Final(), Ids(old(journal).value.parts))
                && OnlyReadyMarks(old(manifest), manifest, S(), old(journal).value.parts)
      ensures old(journal).Some? ==> forall p | p in old(journal).value.parts && old(InFinal(p, S())) :: InFinal(p, S())
      ensures old(journal).Some? && r.Done? ==> Recovered(old(S()), S(), old(journal).value.parts, r.value)
      ensures old(journal.Some? && Filling(S(), journal.value.parts)) && r.Done? ==> r.value == 0
    {
      hide FinalsGrow;
      hide Moving;
      hide Filling;
      hide Copying;
      if journal.None? {
        return Done(0);
      }
      var parts := journal.value.parts;
      FinalsGrowSelf(S().Final(), Ids(parts));
      if Filling(S(), parts) {
        FillingIsDiscarded(S(), parts);
      }
      var _ :- Request();
      AllInFinal(S(), parts);
      if forall p | p in parts :: TableMatches(finalTime, p) && TableMatches(finalName, p) {
        LoadedLeavesStageEmpty(S(), parts);
        r := FinishRecovery(parts);
        return;
      }
      var _ :- Request();
      VerdictIsSafe(S(), parts);
      var examined := Examine(parts);
      assert examined.Done?;
      if examined.value {
        r := FinishBatch(parts);
      } else {
        r := DiscardBatch(parts);
      }
    }

    method FinishBatch(parts: seq<Part>) returns (r: Outcome<nat>)
      requires Inv(S()) && journal.Some? && journal.value.parts == parts && Moving(S(), parts)
      modifies this
      ensures Inv(S()) && !r.StageError? && (healthy ==> r.Done?)
      ensures journal.None? || journal == old(journal)
      ensures r.ClientError? ==> journal == old(journal)
      ensures FinalsGrow(old(S().Final()), S().Final(), Ids(parts)) && OnlyReadyMarks(old(manifest), manifest, S(), parts)
      ensures forall p | p in parts && old(InFinal(p, S())) :: InFinal(p, S())
      ensures r.Done? ==> Recovered(old(S()), S(), parts, r.value)
    {
      hide FinalsGrow;
      hide Inv;
      hide Moving;
      FinalsGrowSelf(S().Final(), Ids(parts));
      var _ :- Request();
      BothSummariesHold(S(), parts);
      assert SummaryMatches(parts, stageTime) && SummaryMatches(parts, stageName);
      var _ :- MoveAndVerify(parts);
      r := FinishRecovery(parts);
    }

    method MoveAndVerify(parts: seq<Part>) returns (r: Outcome<()>)
      requires Inv(S()) && journal.Some? && journal.value.parts == parts && Moving(S(), parts)
      modifies this`stageName, this`stageTime, this`finalName, this`finalTime
      ensures Inv(S()) && !r.StageError? && (healthy ==> r.Done?)
      ensures FinalsGrow(old(S().Final()), S().Final(), Ids(parts))
      ensures forall p | p in parts && old(InFinal(p, S())) :: InFinal(p, S())
      ensures r.Done? ==> stageTime == [] && stageName == [] && forall p | p in parts :: Loaded(p, S())
    {
      hide FinalsGrow;
      r := MoveRemainingStaging(parts);
      InFinalStays(old(S()), S(), parts);
      if !r.Done? {
        return;
      }
      var _ :- Request();
      MovedOutIsLoaded(S(), parts);
      AllInFinal(S(), parts);
      assert forall p | p in parts :: TableMatches(finalTime, p) && TableMatches(finalName, p);
      r := Done(());
    }

    method DiscardBatch(parts: seq<Part>) returns (r: Outcome<nat>)
      requires Inv(S()) && journal.Some? && journal.value.parts == parts
      requires Filling(S(), parts) || Copying(S(), parts)
      modifies this
      ensures Inv(S()) && !r.StageError? && (healthy ==> r.Done?)
      ensures journal.None? || journal == old(journal)
      ensures r.ClientError? ==> journal == old(journal)
      ensures finalTime == old(finalTime) && finalName == old(finalName) && manifest == old(manifest)
      ensures r.Done? ==> Recovered(old(S()), S(), parts, 0) && r.value == 0
    {
      var _ :- TruncateStaging();
      var _ :- ClearJournal();
      r := Done(0);
    }

    /** The tail shared by both successful ends of `recover`: staging is already empty. */
    method FinishRecovery(parts: seq<Part>) returns (r: Outcome<nat>)
      requires Inv(S()) && journal.Some? && journal.value.parts == parts
      requires stageTime == [] && stageName == [] && forall p | p in parts :: Loaded(p, S())
      modifies this`journal, this`manifest
      ensures Inv(S()) && !r.StageError? && (healthy ==> r.Done?)
      ensures journal.None? || journal == old(journal)
      ensures r.ClientError? ==> journal == old(journal)
      ensures OnlyReadyMarks(old(manifest), manifest, S(), parts)
      ensures r.Done? ==> r.value == |parts| && journal.None? && AllReady(old(manifest), manifest, parts)
    {
      var _ :- MarkReady(parts);
      var _ :- ClearJournal();
      r := Done(|parts|);
    }

    /** The INSERT of a batch whose journal is written and whose staging is empty, and its verification. */
    method StageTimes(missing: seq<Part>) returns (r: Outcome<()>)
      requires Inv(S()) && journal == Some(Journal(Prepared, missing)) && Filling(S(), missing) && stageTime == []
      modifies this`stageTime, this`journal
      ensures Inv(S()) && journal.Some? && journal.value.parts == missing && Filling(S(), missing)
      ensures healthy ==> (r.Done? <==> forall p | p in missing :: Whole(objects, p))
      ensures healthy && !r.Done? ==> r.StageError?
      ensures r.Done? ==> Copying(S(), missing) && SingleTableExact(missing, stageTime) && Landed(objects, missing, stageTime)
    {
      hide Exact;
      var _ :- InsertFromStore();
      VerificationDecides(objects, missing, stageTime);
      hide Landed;
      var _ :- Request();
      if !SingleTableExact(missing, stageTime) || stageName != [] {
        return StageError;
      }
      VerifiedTimeIsCopying(S(), missing);
      hide SingleTableExact;
      r := WriteJournal(TimeLoaded, missing);
    }

    /** The copy to the name table, and the verification of both. */
    method StageNames(missing: seq<Part>) returns (r: Outcome<set<string>>)
      requires Inv(S()) && journal.Some? && journal.value.parts == missing && Copying(S(), missing) && stageName == []
      requires SingleTableExact(missing, stageTime)
      modifies this`stageName
      ensures Inv(S()) && (healthy ==> r.Done?)
      ensures r.Done? ==>
                && Moving(S(), missing) && stageName == stageTime && r.value == DaysOf(stageName)
                && forall p | p in missing :: Unloaded(p, S())
    {
      hide Exact;
      var _ :- CopyTimeToName();
      var _ :- Request();
      if !SingleTableExact(missing, stageName) {
        return StageError;
      }
      SingleTableMeans(missing, stageName);
      VerifiedNameIsMoving(S(), missing);
      SomeDay(missing, stageTime);
      hide SingleTableExact;
      var _ :- Request();
      var days := DaysOf(stageTime);
      if days != DaysOf(stageName) || days == {} {
        return StageError;
      }
      r := Done(days);
    }

    /** The `try` block of `load`. */
    method Attempt(missing: seq<Part>) returns (r: Outcome<()>)
      requires Inv(S()) && journal == Some(Journal(Prepared, missing)) && Filling(S(), missing) && stageTime == []
      modifies this
      ensures Inv(S())
      ensures journal.None? || (journal.Some? && journal.value.parts == missing)
      ensures FinalsGrow(old(S().Final()), S().Final(), Ids(missing))
      ensures OnlyReadyMarks(old(manifest), manifest, S(), missing)
      ensures healthy ==> r.Done? || r.StageError?
      ensures r.StageError? || r.ClientError? ==> journal.Some?
      ensures r.Done? ==>
                && journal.None? && AllReady(old(manifest), manifest, missing)
                && (forall p | p in missing :: Loaded(p, S())) && LoadedWhole(objects, S(), missing)
      ensures healthy && r.StageError? ==> Filling(S(), missing) && exists p | p in missing :: !Whole(objects, p)
    {
      hide FinalsGrow;
      hide Moving;
      hide Landed;
      hide SameNames;
      hide Copying;
      FinalsGrowSelf(S().Final(), Ids(missing));
      hide SingleTableExact;
      var _ :- StageTimes(missing);
      var days :- StageNames(missing);
      label staged:
      assert ValidBatch(missing);
      r := Publish(missing, days);
      if r.Done? {
        PublishedWhole(objects, old@staged(S()), S(), missing);
      }
      hide LoadedWhole;
    }
  
    /** From the verified pair of staging tables to the final tables, name before time. */
    method Publish(missing: seq<Part>, days: set<string>) returns (r: Outcome<()>)
      requires Inv(S()) && journal.Some? && journal.value.parts == missing && Moving(S(), missing)
      requires DaysOf(stageName) <= days && DaysOf(stageTime) <= days
      modifies this
      ensures Inv(S()) && !r.StageError? && (healthy ==> r.Done?)
      ensures journal.None? || (journal.Some? && journal.value.parts == missing)
      ensures FinalsGrow(old(S().Final()), S().Final(), Ids(missing))
      ensures OnlyReadyMarks(old(manifest), manifest, S(), missing)
      ensures r.ClientError? ==> journal.Some?
      ensures r.Done? ==>
                && journal.None? && AllReady(old(manifest), manifest, missing)
                && (forall p | p in missing :: Loaded(p, S()))
                && stageName == [] && SameNames(old(S()), S(), missing)
    {
      hide FinalsGrow;
      ghost var ids := Ids(missing);
      FinalsGrowSelf(S().Final(), ids);
      var _ :- WriteJournal(Verified, missing);
      r := MoveNamePartitions(days, missing);
      label named:
      if !r.Done? {
        return;
      }
      var _ :- WriteJournal(NameMoved, missing);
      r := MoveTimePartitions(days, missing);
      FinalsGrowTrans(old(S().Final()), old@named(S().Final()), S().Final(), ids);
      if !r.Done? {
        return;
      }
      var _ :- Request();
      MovedOutIsLoaded(S(), missing);
      AllInFinal(S(), missing);
      assert forall p | p in missing :: TableMatches(finalTime, p) && TableMatches(finalName, p);
      var _ :- FinishRecovery(missing);
      r := Done(());
    }
  
    /** Sorts the parts into those already complete and those to load; refuses a part of which a final table
        holds something else. */
    method Classify(parts: seq<Part>) returns (r: Outcome<(seq<Part>, seq<Part>)>)
      ensures !r.ClientError? && !r.Crashed?
      ensures r.StageError? ==> exists p | p in parts :: !InFinal(p, S()) && !Unloaded(p, S())
      ensures r.Done? ==>
                && r.value.0 == ReadyParts(parts, S())
                && r.value.1 == MissingParts(parts, S())
                && forall p | p in r.value.1 :: p.rowCount > 0 && Unloaded(p, S())
    {
      hide InFinal;
      hide Unloaded;
      hide ReadyParts;
      hide MissingParts;
      SortNone(S());
      var ready, missing := [], [];
      var i := 0;
      while i < |parts|
        invariant 0 <= i <= |parts|
        invariant ready == ReadyParts(parts[..i], S()) && missing == MissingParts(parts[..i], S())
        invariant forall p | p in missing :: p.rowCount > 0 && Unloaded(p, S())
      {
        var p := parts[i];
        assert p in parts;
        SortOne(parts, S(), i);
        PartCheck(p, S());
        if TableMatches(finalTime, p) && TableMatches(finalName, p) {
          ready := ready + [p];
        } else if Present(finalTime, p) || Present(finalName, p) {
          return StageError;
        } else {
          missing := missing + [p];
        }
        i := i + 1;
      }
      assert parts[..|parts|] == parts;
      r := Done((ready, missing));
    }

    method MarkFailed(p: Part) returns (r: Outcome<()>)
      modifies this`manifest
      ensures !r.StageError? && (healthy ==> r.Done?)
      ensures manifest == old(manifest) || manifest == MarkedFailed(old(manifest), KeyOf(p))
      ensures r.Done? ==> manifest == MarkedFailed(old(manifest), KeyOf(p))
    {
      var _ :- Request();
      manifest := MarkedFailed(manifest, KeyOf(p));
      r := Request();
    }
  
    /** Loads the parts, bisecting a batch that fails until the failing parts are found. */
    method Load(parts: seq<Part>) returns (r: Outcome<(nat, nat)>)
      requires Inv(S()) && Distinct(parts) && forall p | p in parts :: p.identity != "" && p.path != ""
      modifies this
      decreases |parts|, 3
      ensures Inv(S())
      ensures FinalsGrow(old(S().Final()), S().Final(), Ids(parts)) && Marks(old(manifest), manifest, S(), parts)
      ensures r.StageError? ==> old(journal).Some? || exists p | p in parts :: old(!InFinal(p, S()) && !Unloaded(p, S()))
      ensures healthy ==> r.Done? || r.StageError?
      ensures old(journal).Some? ==> journal == old(journal) && S().Final() == old(S().Final())
      ensures r.Done? && old(journal).None? ==> journal.None?
      ensures r.Done? ==> LoadDone(old(S()), S(), parts, r.value.0, r.value.1)
      ensures healthy && old(journal).None? && r.Done? ==> LoadsWhole(objects, old(S()), S(), parts)
      ensures healthy && old(journal).None? && (forall p | p in parts :: p.rowCount > 0 && old(Unloaded(p, S())) && Whole(objects, p)) ==>
                r == Done((|parts|, 0))
    {
      hide LoadDone;
      hide FinalsGrow;
      hide Marks;
      hide AllReady;
      hide OnlyReadyMarks;
      hide InFinal;
      hide Unloaded;
      hide ReadyParts;
      hide LoadsWhole;
      hide Whole;
      hide MissingParts;
      FinalsGrowSelf(S().Final(), Ids(parts));
      NoMarksYet(manifest, S(), ReadyParts(parts, S()));
      AfterReady(S(), S(), parts);
      var _ :- Request();
      var sorted :- Classify(parts);
      var ready, missing := sorted.0, sorted.1;
      SortedParts(parts, S());
      r := LoadSorted(parts, ready, missing);
      if healthy && r.Done? && old(journal).None? && forall p | p in parts :: p.rowCount > 0 && old(Unloaded(p, S())) && Whole(objects, p) {
        WholeBatchLoads(objects, old(S()), S(), parts, r.value.0, r.value.1);
      }
    }

    method LoadSorted(ghost parts: seq<Part>, ready: seq<Part>, missing: seq<Part>) returns (r: Outcome<(nat, nat)>)
      requires Inv(S()) && Distinct(parts) && forall p | p in parts :: p.identity != "" && p.path != ""
      requires ready == ReadyParts(parts, S()) && missing == MissingParts(parts, S()) && Distinct(missing)
      requires forall p | p in missing :: p in parts && p.rowCount > 0 && Unloaded(p, S())
      requires forall p | p in ready :: InFinal(p, S())
      requires |missing| <= |parts|
      modifies this
      decreases |parts|, 2
      ensures Inv(S())
      ensures FinalsGrow(old(S().Final()), S().Final(), Ids(parts)) && Marks(old(manifest), manifest, S(), parts)
      ensures r.StageError? ==> old(journal).Some?
      ensures healthy ==> r.Done? || r.StageError?
      ensures old(journal).Some? ==> journal == old(journal) && S().Final() == old(S().Final())
      ensures r.Done? && old(journal).None? ==> journal.None?
      ensures r.Done? ==> LoadDone(old(S()), S(), parts, r.value.0, r.value.1)
      ensures healthy && old(journal).None? ==> LoadsWhole(objects, old(S()), S(), parts)
    {
      hide LoadDone;
      hide FinalsGrow;
      hide Marks;
      hide AllReady;
      hide OnlyReadyMarks;
      hide InFinal;
      hide ReadyParts;
      hide LoadsWhole;
      hide Whole;
      hide MissingParts;
      FinalsGrowSelf(S().Final(), Ids(parts));
      r := MarkReadyParts(ready);
      AfterReady(old(S()), S(), parts);
      if !r.Done? {
        return;
      }
      if missing == [] {
        NothingMissing(old(S()), S(), parts);
        WholeOfMissing(objects, old(S()), S(), S(), parts);
        return;
      }
      if journal.Some? {
        return StageError;
      }
      var _ :- Request();
      assert stageTime == [] && stageName == [];
      label marked:
      r := LoadMissing(missing);
      AfterMissing(old(S()), old@marked(S()), S(), parts, if r.Done? then r.value.0 else 0, if r.Done? then r.value.1 else 0);
      if healthy {
        WholeOfMissing(objects, old(S()), old@marked(S()), S(), parts);
      }
      if r.Done? {
        r := Done((|ready| + r.value.0, r.value.1));
      }
    }

    method MarkReadyParts(ready: seq<Part>) returns (r: Outcome<(nat, nat)>)
      requires forall p | p in ready :: InFinal(p, S())
      modifies this`manifest
      ensures !r.StageError? && (healthy ==> r.Done?)
      ensures OnlyReadyMarks(old(manifest), manifest, old(S()), ready)
      ensures r.Done? ==> AllReady(old(manifest), manifest, ready) && r.value == (|ready|, 0)
    {
      var _ :- MarkReady(ready);
      r := Done((|ready|, 0));
    }

    /** The body of `load` from the journal on, and its `except` branch. */
    method LoadMissing(missing: seq<Part>) returns (r: Outcome<(nat, nat)>)
      requires Inv(S()) && journal.None? && ValidBatch(missing)
      requires forall p | p in missing :: Unloaded(p, S())
      modifies this
      decreases |missing|, 1
      ensures Inv(S()) && !r.StageError? && (healthy ==> r.Done?)
      ensures FinalsGrow(old(S().Final()), S().Final(), Ids(missing)) && Marks(old(manifest), manifest, S(), missing)
      ensures r.Done? ==> journal.None? && LoadDone(old(S()), S(), missing, r.value.0, r.value.1)
      ensures healthy ==> LoadsWhole(objects, old(S()), S(), missing)
    {
      hide LoadDone;
      hide FinalsGrow;
      hide Marks;
      hide AllReady;
      hide OnlyReadyMarks;
      hide LoadsWhole;
      hide LoadedWhole;
      hide Whole;
      OpenKeepsInv(S(), missing);
      var journaled := WriteJournal(Prepared, missing);
      NothingChanged(old(S()), S(), missing);
      if !journaled.Done? {
        return journaled.PropagateFailure();
      }
      var attempt := Attempt(missing);
      MarksOfBatch(old(manifest), manifest, S(), missing, missing);
      if attempt.Done? {
        NoMarksYet(old(manifest), S(), missing);
        BatchDone(old(S()), S(), old(manifest), missing);
        LoadedIsWhole(objects, old(S()), S(), missing);
        return Done((|missing|, 0));
      }
      if attempt.Crashed? {
        return Crashed;
      }
      label attempted:
      var recovered := Recover();
      MarksTwice(old(manifest), old@attempted(manifest), manifest, old@attempted(S()), S(), missing);
      MarksOfBatch(old(manifest), manifest, S(), missing, missing);
      FinalsGrowTrans(old(S().Final()), old@attempted(S().Final()), S().Final(), Ids(missing));
      if !recovered.Done? {
        return recovered.PropagateFailure();
      }
      if recovered.value > 0 {
        BatchDone(old(S()), S(), old@attempted(manifest), missing);
        return Done((recovered.value, 0));
      }
      NothingMarked(old(S()), S(), missing);
      label discarded:
      r := Bisect(missing);
      StartOver(old(S()), old@discarded(S()), S(), missing, if r.Done? then r.value.0 else 0,
                if r.Done? then r.value.1 else 0);
      if healthy {
        WholeFromStart(objects, old(S()), old@discarded(S()), S(), missing);
      }
    }

    /** After a discarded attempt: both halves of a batch separately, a single part as failed. */
    method Bisect(missing: seq<Part>) returns (r: Outcome<(nat, nat)>)
      requires Inv(S()) && journal.None? && ValidBatch(missing)
      requires forall p | p in missing :: Unloaded(p, S())
      requires healthy ==> exists p | p in missing :: !Whole(objects, p)
      modifies this
      decreases |missing|, 0
      ensures Inv(S()) && !r.StageError? && (healthy ==> r.Done?)
      ensures FinalsGrow(old(S().Final()), S().Final(), Ids(missing)) && Marks(old(manifest), manifest, S(), missing)
      ensures r.Done? ==> journal.None? && LoadDone(old(S()), S(), missing, r.value.0, r.value.1)
      ensures healthy ==> LoadsWhole(objects, old(S()), S(), missing)
    {
      hide LoadDone;
      hide FinalsGrow;
      hide Marks;
      hide InFinal;
      hide Unloaded;
      hide LoadsWhole;
      hide Whole;
      hide Inv;
      hide Distinct;
      NothingChanged(S(), S(), missing);
      if |missing| > 1 {
        var middle := |missing| / 2;
        HalvesOf(missing, middle);
        var left := Load(missing[..middle]);
        FirstHalf(old(S()), S(), missing[..middle], missing);
        if !left.Done? {
          return left;
        }
        StillUnloaded(old(S()), S(), missing[..middle], missing[middle..]);
        label halved:
        var right := Load(missing[middle..]);
        SecondHalf(old(S()), old@halved(S()), S(), missing[..middle], missing[middle..], missing,
                   left.value.0, left.value.1, if right.Done? then right.value.0 else 0, if right.Done? then right.value.1 else 0);
        if healthy {
          WholeInTwo(objects, old(S()), old@halved(S()), S(), missing[..middle], missing[middle..]);
        }
        if !right.Done? {
          return right;
        }
        return Done((left.value.0 + right.value.0, left.value.1 + right.value.1));
      }
      r := FailSingle(missing);
    }

    method FailSingle(missing: seq<Part>) returns (r: Outcome<(nat, nat)>)
      requires Inv(S()) && journal.None? && |missing| == 1 && ValidBatch(missing) && Unloaded(missing[0], S())
      modifies this`manifest
      ensures Inv(S()) && !r.StageError? && (healthy ==> r.Done?)
      ensures !Whole(objects, missing[0]) ==> LoadsWhole(objects, old(S()), S(), missing)
      ensures Marks(old(manifest), manifest, S(), missing)
      ensures r.Done? ==> LoadDone(old(S()), S(), missing, r.value.0, r.value.1)
    {
      hide LoadDone;
      hide LoadsWhole;
      hide Whole;
      assert missing == [missing[0]];
      NothingChanged(S(), S(), missing);
      var marked := MarkFailed(missing[0]);
      if !Whole(objects, missing[0]) {
        NotLoadedIsWhole(objects, old(S()), S(), missing[0]);
      }
      if !marked.Done? {
        return marked.PropagateFailure();
      }
      FailedPartDone(old(S()), S(), missing[0]);
      r := Done((0, 1));
    }
  }
}
