/** The staged two-table load as a protocol over four tables, a journal file and the manifest
    (app/clickhouse_stage.py): what holds after every single step, whoever stops the process there. */
module StageProtocol {
  import opened Select
  import opened PartStatus
  import opened PartTable

  datatype Step = Prepared | TimeLoaded | Verified | NameMoved

  /** `recover` reads only the parts of a journal, never its state. */
  datatype Journal = Journal(step: Step, parts: seq<Part>)

  datatype Store = Store(
    stageTime: Table, stageName: Table,
    finalTime: Table, finalName: Table,
    journal: Option<Journal>,
    manifest: map<Key, Status>)
  {
    function Final(): Finals { Finals(finalTime, finalName) }
  }

  datatype Finals = Finals(time: Table, name: Table)

  function KeyOf(p: Part): Key { Key(p.path, p.identity) }

  predicate ValidBatch(parts: seq<Part>) {
    && parts != []
    && Distinct(parts)
    && forall p | p in parts :: p.identity != "" && p.path != "" && p.rowCount > 0
  }

  /** The rows of one source part share one event date, hence one partition. */
  predicate OneDay(t: Table) {
    forall r, q | r in t && q in t && r.key == q.key :: r.day == q.day
  }

  // ---- the phases a journaled batch can be in ----

  predicate Unloaded(p: Part, s: Store) {
    Of(s.finalTime, p.identity) == [] && Of(s.finalName, p.identity) == []
  }

  /** Complete in both final tables, with the same rows in both. */
  predicate Loaded(p: Part, s: Store) {
    && Exact(p, s.finalTime) && Exact(p, s.finalName)
    && Of(s.finalTime, p.identity) == Of(s.finalName, p.identity)
  }

  /** Nothing of the batch beyond stage-time yet; stage-time may hold anything. */
  predicate Filling(s: Store, parts: seq<Part>) {
    s.stageName == [] && forall p | p in parts :: Unloaded(p, s)
  }

  /** Stage-time is verified; stage-name holds a prefix of it. */
  predicate Copying(s: Store, parts: seq<Part>) {
    && OnlyParts(s.stageTime, Ids(parts))
    && s.stageName <= s.stageTime
    && forall p | p in parts :: Exact(p, s.stageTime) && Unloaded(p, s)
  }

  /** The part is complete on exactly one of the two tables of a side. */
  predicate Settled(p: Part, stage: Table, final: Table) {
    || (Exact(p, stage) && Of(final, p.identity) == [])
    || (Exact(p, final) && Of(stage, p.identity) == [])
  }

  /** Every part is complete on both sides, the sides agree, and time follows name. */
  predicate Moving(s: Store, parts: seq<Part>) {
    && OnlyParts(s.stageTime, Ids(parts)) && OnlyParts(s.stageName, Ids(parts))
    && (forall p | p in parts :: Settled(p, s.stageTime, s.finalTime) && Settled(p, s.stageName, s.finalName))
    && (forall p | p in parts ::
          Of(s.finalTime + s.stageTime, p.identity) == Of(s.finalName + s.stageName, p.identity))
    && (s.stageName != [] ==> forall p | p in parts :: Of(s.finalTime, p.identity) == [])
  }

  predicate Inv(s: Store) {
    match s.journal
    case None => s.stageTime == [] && s.stageName == []
    case Some(j) =>
      && ValidBatch(j.parts)
      && OneDay(s.stageTime) && OneDay(s.stageName)
      && (Filling(s, j.parts) || Copying(s, j.parts) || Moving(s, j.parts))
  }

  // ---- single steps ----

  function Inserted(s: Store, got: Table): Store { s.(stageTime := s.stageTime + got) }

  function Copied(s: Store, n: nat): Store
    requires n <= |s.stageTime|
  {
    s.(stageName := s.stageName + s.stageTime[..n])
  }

  function NamePartitionMoved(s: Store, day: string): Store {
    s.(stageName := OffDay(s.stageName, day), finalName := s.finalName + OnDay(s.stageName, day))
  }

  function TimePartitionMoved(s: Store, day: string): Store {
    s.(stageTime := OffDay(s.stageTime, day), finalTime := s.finalTime + OnDay(s.stageTime, day))
  }

  function Marked(m: map<Key, Status>, k: Key): map<Key, Status> {
    if k in m && Loadable(m[k]) then m[k := Ready] else m
  }

  // ---- every step keeps the invariant ----

  lemma PartOf(parts: seq<Part>, id: string) returns (p: Part)
    requires id in Ids(parts)
    ensures p in parts && p.identity == id
  {
    p :| p in parts && p.identity == id;
  }

  lemma OpenKeepsInv(s: Store, parts: seq<Part>)
    requires Inv(s) && s.journal.None? && ValidBatch(parts)
    requires forall p | p in parts :: Unloaded(p, s)
    ensures Inv(s.(journal := Some(Journal(Prepared, parts))))
    ensures Filling(s.(journal := Some(Journal(Prepared, parts))), parts)
  {
  }

  lemma InsertKeepsInv(s: Store, got: Table)
    requires Inv(s) && s.journal.Some? && s.stageTime == [] && Filling(s, s.journal.value.parts) && OneDay(got)
    ensures Inv(Inserted(s, got)) && Filling(Inserted(s, got), s.journal.value.parts)
  {
    assert s.stageTime + got == got;
  }

  /** `_single_table_states_are_exact`: no unexpected part, and every part exact. */
  predicate SingleTableExact(parts: seq<Part>, t: Table) {
    Keys(t) == Ids(parts) && forall p | p in parts :: Matches(p, StateOf(t, p.identity))
  }

  lemma SingleTableMeans(parts: seq<Part>, t: Table)
    requires SingleTableExact(parts, t)
    ensures OnlyParts(t, Ids(parts)) && forall p | p in parts :: Exact(p, t)
  {
    forall p | p in parts ensures Exact(p, t) {
      MatchesIffExact(p, t);
    }
    forall r | r in t ensures r.key in Ids(parts) {
      assert r.key in Keys(t);
    }
  }

  lemma VerifiedTimeIsCopying(s: Store, parts: seq<Part>)
    requires Filling(s, parts) && SingleTableExact(parts, s.stageTime)
    ensures Copying(s, parts)
  {
    SingleTableMeans(parts, s.stageTime);
  }

  lemma CopyKeepsInv(s: Store, n: nat)
    requires Inv(s) && s.journal.Some? && Copying(s, s.journal.value.parts) && s.stageName == [] && n <= |s.stageTime|
    ensures Inv(Copied(s, n)) && Copying(Copied(s, n), s.journal.value.parts)
  {
    assert [] + s.stageTime[..n] == s.stageTime[..n];
    forall r | r in s.stageTime[..n] ensures r in s.stageTime {
    }
  }

  /** A prefix in which every part is complete is the whole table. */
  lemma CompletePrefixIsAll(parts: seq<Part>, t: Table, u: Table)
    requires u <= t && OnlyParts(t, Ids(parts))
    requires forall p | p in parts :: Exact(p, t) && Exact(p, u)
    ensures u == t
  {
    if |u| < |t| {
      var r := t[|u|];
      assert r in t;
      var p := PartOf(parts, r.key);
      var rest := t[|u|..];
      assert r == rest[0];
      OfMembers(rest, r.key);
      assert r in Of(rest, r.key);
      assert t == u + rest;
      OfConcat(u, rest, r.key);
    }
  }

  lemma VerifiedNameIsMoving(s: Store, parts: seq<Part>)
    requires Copying(s, parts) && forall p | p in parts :: Exact(p, s.stageName)
    ensures Moving(s, parts) && s.stageName == s.stageTime
  {
    CompletePrefixIsAll(parts, s.stageTime, s.stageName);
    forall p | p in parts
      ensures Of(s.finalTime + s.stageTime, p.identity) == Of(s.finalName + s.stageName, p.identity)
    {
      OfConcat(s.finalTime, s.stageTime, p.identity);
      OfConcat(s.finalName, s.stageName, p.identity);
    }
  }

  /** Moving a partition takes a part as a whole or leaves it. */
  lemma PartitionHoldsWholeParts(t: Table, day: string, key: string)
    requires OneDay(t)
    ensures || (Of(OnDay(t, day), key) == Of(t, key) && Of(OffDay(t, day), key) == [])
            || (Of(OnDay(t, day), key) == [] && Of(OffDay(t, day), key) == Of(t, key))
  {
    var on, off, isKey := (r: Row) => r.day == day, (r: Row) => r.day != day, (r: Row) => r.key == key;
    KeepMembers(t, on);
    KeepMembers(t, off);
    if exists r :: r in t && r.key == key && r.day == day {
      KeepKeep(t, on, isKey);
      KeepNone(OffDay(t, day), isKey);
    } else {
      KeepKeep(t, off, isKey);
      KeepNone(OnDay(t, day), isKey);
    }
  }

  /** One side of `Moving` after one of its partitions went over. */
  lemma SideAfterMove(p: Part, stage: Table, final: Table, day: string)
    requires OneDay(stage) && Settled(p, stage, final)
    ensures Settled(p, OffDay(stage, day), final + OnDay(stage, day))
    ensures Of(final + OnDay(stage, day) + OffDay(stage, day), p.identity) == Of(final + stage, p.identity)
  {
    var k := p.identity;
    PartitionHoldsWholeParts(stage, day, k);
    OfConcat(final, OnDay(stage, day), k);
    OfConcat(final + OnDay(stage, day), OffDay(stage, day), k);
    OfConcat(final, stage, k);
  }

  lemma OffDayMembers(t: Table, day: string)
    ensures forall r :: r in OffDay(t, day) <==> r in t && r.day != day
    ensures forall r :: r in OnDay(t, day) <==> r in t && r.day == day
  {
    KeepMembers(t, (r: Row) => r.day != day);
    KeepMembers(t, (r: Row) => r.day == day);
  }

  lemma NameMoveKeepsMoving(s: Store, parts: seq<Part>, day: string)
    requires Moving(s, parts) && OneDay(s.stageName)
    ensures Moving(NamePartitionMoved(s, day), parts) && OneDay(NamePartitionMoved(s, day).stageName)
  {
    var u := NamePartitionMoved(s, day);
    OffDayMembers(s.stageName, day);
    forall p | p in parts
      ensures Settled(p, u.stageName, u.finalName)
      ensures Of(u.finalTime + u.stageTime, p.identity) == Of(u.finalName + u.stageName, p.identity)
    {
      SideAfterMove(p, s.stageName, s.finalName, day);
    }
    if u.stageName != [] {
      assert u.stageName[0] in s.stageName;
    }
  }

  lemma TimeMoveKeepsMoving(s: Store, parts: seq<Part>, day: string)
    requires Moving(s, parts) && OneDay(s.stageTime) && s.stageName == []
    ensures Moving(TimePartitionMoved(s, day), parts) && OneDay(TimePartitionMoved(s, day).stageTime)
  {
    var u := TimePartitionMoved(s, day);
    OffDayMembers(s.stageTime, day);
    forall p | p in parts
      ensures Settled(p, u.stageTime, u.finalTime)
      ensures Of(u.finalTime + u.stageTime, p.identity) == Of(u.finalName + u.stageName, p.identity)
    {
      SideAfterMove(p, s.stageTime, s.finalTime, day);
    }
  }

  /** When both staging tables have been emptied by moves, the whole batch is loaded. */
  lemma MovedOutIsLoaded(s: Store, parts: seq<Part>)
    requires Moving(s, parts) && ValidBatch(parts) && s.stageTime == [] && s.stageName == []
    ensures forall p | p in parts :: Loaded(p, s)
  {
    assert s.finalTime + [] == s.finalTime && s.finalName + [] == s.finalName;
  }

  /** On neither side are rows of one part ever in the staging table and in the final table. */
  lemma NeverInBoth(s: Store, p: Part)
    requires Inv(s) && s.journal.Some? && p in s.journal.value.parts
    ensures Of(s.stageTime, p.identity) == [] || Of(s.finalTime, p.identity) == []
    ensures Of(s.stageName, p.identity) == [] || Of(s.finalName, p.identity) == []
  {
  }

  /** The first row of a batch in the final time table comes after the whole batch is in the final name table. */
  lemma TimeFollowsName(s: Store, p: Part, q: Part)
    requires Inv(s) && s.journal.Some? && p in s.journal.value.parts && q in s.journal.value.parts
    requires Of(s.finalTime, p.identity) != []
    ensures Exact(q, s.finalName)
  {
  }

  // ---- rows of other parts ----

  ghost predicate SameOthers(t: Table, u: Table, ids: set<string>) {
    forall key | key !in ids :: Of(u, key) == Of(t, key)
  }

  lemma MoveLeavesOthers(stage: Table, final: Table, day: string, ids: set<string>)
    requires OnlyParts(stage, ids)
    ensures SameOthers(final, final + OnDay(stage, day), ids)
  {
    forall key | key !in ids ensures Of(final + OnDay(stage, day), key) == Of(final, key) {
      OffDayMembers(stage, day);
      OfConcat(final, OnDay(stage, day), key);
      KeepNone(OnDay(stage, day), (r: Row) => r.key == key);
    }
  }

  // ---- what recovery decides ----

  predicate Present(t: Table, p: Part) { StateOf(t, p.identity).rows > 0 }

  predicate TableMatches(t: Table, p: Part) { Matches(p, StateOf(t, p.identity)) }

  /** A final table holds some of the part, but not exactly the part. */
  predicate Inexact(p: Part, s: Store) {
    || (Present(s.finalTime, p) && !TableMatches(s.finalTime, p))
    || (Present(s.finalName, p) && !TableMatches(s.finalName, p))
  }

  predicate StagedMatches(t: Table, p: Part) { TableMatches(t, p) && Present(t, p) }

  predicate InBoth(p: Part, s: Store) {
    || (TableMatches(s.finalTime, p) && StagedMatches(s.stageTime, p))
    || (TableMatches(s.finalName, p) && StagedMatches(s.stageName, p))
  }

  predicate CanFinish(p: Part, s: Store) {
    && (TableMatches(s.finalTime, p) || StagedMatches(s.stageTime, p))
    && (TableMatches(s.finalName, p) || StagedMatches(s.stageName, p))
  }

  predicate Started(p: Part, s: Store) { Present(s.finalTime, p) || Present(s.finalName, p) }

  /** The loop over the journaled parts finds a contradiction, or a batch that can be neither finished nor discarded. */
  predicate Contradicted(s: Store, parts: seq<Part>) {
    || (exists p | p in parts :: Inexact(p, s) || InBoth(p, s))
    || (!(forall p | p in parts :: CanFinish(p, s)) && exists p | p in parts :: Started(p, s))
  }

  lemma PresentIffRows(t: Table, p: Part)
    ensures Present(t, p) <==> Of(t, p.identity) != []
    ensures TableMatches(t, p) <==> Exact(p, t)
  {
    MatchesIffExact(p, t);
  }

  lemma PartVerdict(p: Part, s: Store)
    requires p.rowCount > 0
    ensures Inexact(p, s) <==>
              || (Of(s.finalTime, p.identity) != [] && !Exact(p, s.finalTime))
              || (Of(s.finalName, p.identity) != [] && !Exact(p, s.finalName))
    ensures InBoth(p, s) <==>
              || (Exact(p, s.finalTime) && Exact(p, s.stageTime))
              || (Exact(p, s.finalName) && Exact(p, s.stageName))
    ensures CanFinish(p, s) <==>
              && (Exact(p, s.finalTime) || Exact(p, s.stageTime))
              && (Exact(p, s.finalName) || Exact(p, s.stageName))
    ensures Started(p, s) <==> !Unloaded(p, s)
  {
    PresentIffRows(s.finalTime, p);
    PresentIffRows(s.finalName, p);
    PresentIffRows(s.stageTime, p);
    PresentIffRows(s.stageName, p);
  }

  /** Whatever step the process died after, recovery finds no contradiction, finishes a batch it can
      finish, and discards only batches of which no row has reached a final table. */
  lemma VerdictIsSafe(s: Store, parts: seq<Part>)
    requires Inv(s) && s.journal.Some? && s.journal.value.parts == parts
    ensures forall p | p in parts :: !Inexact(p, s) && !InBoth(p, s)
    ensures (forall p | p in parts :: CanFinish(p, s)) ==> Moving(s, parts)
    ensures !(forall p | p in parts :: CanFinish(p, s)) ==> forall p | p in parts :: !Started(p, s)
    ensures !(forall p | p in parts :: CanFinish(p, s)) ==> Filling(s, parts) || Copying(s, parts)
  {
    forall p | p in parts
      ensures !Inexact(p, s) && !InBoth(p, s)
      ensures Moving(s, parts) ==> CanFinish(p, s)
      ensures Filling(s, parts) ==> !CanFinish(p, s)
      ensures !Moving(s, parts) ==> !Started(p, s)
      ensures Copying(s, parts) && CanFinish(p, s) ==> Exact(p, s.stageName)
    {
      PartVerdict(p, s);
    }
    assert parts[0] in parts;
    if Copying(s, parts) && forall p | p in parts :: CanFinish(p, s) {
      VerifiedNameIsMoving(s, parts);
    }
  }

  /** A batch that has filled nothing but stage-time is neither complete nor can it be finished. */
  lemma FillingIsDiscarded(s: Store, parts: seq<Part>)
    requires ValidBatch(parts) && Filling(s, parts)
    ensures exists p | p in parts :: !TableMatches(s.finalTime, p)
    ensures exists p | p in parts :: !CanFinish(p, s)
  {
    var p := parts[0];
    assert p in parts;
    PartVerdict(p, s);
    PresentIffRows(s.finalTime, p);
  }

  /** `_summary_matches` holds for the staging tables whenever recovery can finish. */
  lemma SummariesHold(parts: seq<Part>, stage: Table, final: Table)
    requires ValidBatch(parts) && OnlyParts(stage, Ids(parts))
    requires forall p | p in parts :: Settled(p, stage, final)
    ensures SummaryMatches(parts, stage)
  {
    var f := (p: Part) => Matches(p, StateOf(stage, p.identity)) && p.rowCount > 0;
    KeepMembers(parts, f);
    forall r | r in stage ensures r.key in Ids(Selected(parts, stage)) {
      var p := PartOf(parts, r.key);
      OfMembers(stage, r.key);
      assert r in Of(stage, r.key);
      MatchesIffExact(p, stage);
      assert f(p);
      assert p in Selected(parts, stage);
    }
    SummaryIffOnlySelected(parts, stage);
  }

  lemma BothSummariesHold(s: Store, parts: seq<Part>)
    requires Inv(s) && s.journal.Some? && s.journal.value.parts == parts && Moving(s, parts)
    ensures SummaryMatches(parts, s.stageTime) && SummaryMatches(parts, s.stageName)
  {
    SummariesHold(parts, s.stageTime, s.finalTime);
    SummariesHold(parts, s.stageName, s.finalName);
  }

  lemma RowCounts(t: Table, r: Row)
    requires r in t
    ensures Of(t, r.key) != []
  {
    OfMembers(t, r.key);
    assert r in Of(t, r.key);
  }

  /** A batch found complete in both final tables has left the staging tables. */
  lemma LoadedLeavesStageEmpty(s: Store, parts: seq<Part>)
    requires Inv(s) && s.journal.Some? && s.journal.value.parts == parts
    requires forall p | p in parts :: Exact(p, s.finalTime) && Exact(p, s.finalName)
    ensures s.stageTime == [] && s.stageName == []
    ensures forall p | p in parts :: Loaded(p, s)
  {
    assert parts[0] in parts;
    if s.stageTime != [] {
      var r := s.stageTime[0];
      var p := PartOf(parts, r.key);
      RowCounts(s.stageTime, r);
    }
    MovedOutIsLoaded(s, parts);
  }

  lemma DiscardKeepsInv(s: Store, parts: seq<Part>)
    requires Inv(s) && s.journal.Some? && s.journal.value.parts == parts
    requires Filling(s, parts) || Copying(s, parts)
    ensures Inv(s.(stageName := [])) && (Filling(s.(stageName := []), parts))
    ensures s.stageName == [] ==> Inv(s.(stageTime := [])) && Filling(s.(stageTime := []), parts)
  {
  }

  // ---- why the one-day assumption is needed, exactly ----

  /** The state after the partitions `names` of the verified name stage and `times` of the time stage have been moved. */
  function PartlyMoved(s: Store, names: set<string>, times: set<string>): Store {
    s.(stageName := Keep(s.stageName, (r: Row) => r.day !in names),
       finalName := s.finalName + Keep(s.stageName, (r: Row) => r.day in names),
       stageTime := Keep(s.stageTime, (r: Row) => r.day !in times),
       finalTime := s.finalTime + Keep(s.stageTime, (r: Row) => r.day in times))
  }

  /** All refusals of `recover` before it changes anything: the last one is that of the totals. */
  predicate Refuses(s: Store, parts: seq<Part>) {
    || Contradicted(s, parts)
    || ((forall p | p in parts :: CanFinish(p, s)) && !(SummaryMatches(parts, s.stageTime) && SummaryMatches(parts, s.stageName)))
  }

  predicate SplitBy(t: Table, key: string, days: set<string>) {
    && (exists r | r in t :: r.key == key && r.day in days)
    && (exists r | r in t :: r.key == key && r.day !in days)
  }

  lemma {:induction false} KeepShorter(t: Table, p: Row -> bool, q: Row -> bool)
    ensures |Keep(Keep(t, p), q)| <= |Keep(t, q)|
    ensures (exists r | r in t :: q(r) && !p(r)) ==> |Keep(Keep(t, p), q)| < |Keep(t, q)|
  {
    if t != [] {
      KeepShorter(t[1..], p, q);
      KeepConcat(if p(t[0]) then [t[0]] else [], Keep(t[1..], p), q);
      assert forall r :: r in t <==> r == t[0] || r in t[1..];
    }
  }

  lemma RowsOnDays(t: Table, key: string, days: set<string>, gone: Table)
    requires gone == Keep(t, (r: Row) => r.day in days)
    ensures Of(gone, key) != [] <==> exists r | r in t :: r.key == key && r.day in days
    ensures |Of(gone, key)| == |Of(t, key)| <==> forall r | r in t && r.key == key :: r.day in days
    ensures forall r | r in Of(gone, key) :: r in Of(t, key)
  {
    var onDays, isKey := (r: Row) => r.day in days, (r: Row) => r.key == key;
    KeepMembers(t, onDays);
    OfMembers(t, key);
    OfMembers(gone, key);
    if r :| r in t && r.key == key && r.day in days {
      assert r in Of(gone, key);
    }
    if Of(gone, key) != [] {
      assert Of(gone, key)[0] in Of(gone, key);
    }
    if forall r | r in t && r.key == key :: r.day in days {
      KeepKeep(t, onDays, isKey);
    } else {
      KeepShorter(t, onDays, isKey);
    }
  }

  /** One side of a part: torn if its rows were on moved and unmoved days, else whole in one of the two tables. */
  lemma SideAfterDays(stage: Table, final: Table, p: Part, days: set<string>)
    requires p.rowCount > 0 && Exact(p, stage) && Of(final, p.identity) == []
    ensures var left, moved := Keep(stage, (r: Row) => r.day !in days), final + Keep(stage, (r: Row) => r.day in days);
            if SplitBy(stage, p.identity, days) then Of(moved, p.identity) != [] && !Exact(p, moved)
            else Settled(p, left, moved)
  {
    var onDays, offDays, isKey := (r: Row) => r.day in days, (r: Row) => r.day !in days, (r: Row) => r.key == p.identity;
    var gone := Keep(stage, onDays);
    OfConcat(final, gone, p.identity);
    assert Of(final + gone, p.identity) == Of(gone, p.identity);
    RowsOnDays(stage, p.identity, days, gone);
    OfMembers(stage, p.identity);
    if !SplitBy(stage, p.identity, days) {
      if forall r | r in stage && r.key == p.identity :: r.day in days {
        KeepMembers(stage, offDays);
        KeepNone(Keep(stage, offDays), isKey);
      } else {
        KeepKeep(stage, offDays, isKey);
      }
    }
  }

  lemma PartAfterDays(s: Store, p: Part, names: set<string>, times: set<string>)
    requires p.rowCount > 0 && Exact(p, s.stageName) && Exact(p, s.stageTime) && Unloaded(p, s)
    ensures var u := PartlyMoved(s, names, times);
            if SplitBy(s.stageName, p.identity, names) || SplitBy(s.stageTime, p.identity, times) then Inexact(p, u)
            else CanFinish(p, u) && !Inexact(p, u) && !InBoth(p, u)
                 && Settled(p, u.stageName, u.finalName) && Settled(p, u.stageTime, u.finalTime)
  {
    SideAfterDays(s.stageName, s.finalName, p, names);
    SideAfterDays(s.stageTime, s.finalTime, p, times);
    PartVerdict(p, PartlyMoved(s, names, times));
    hide Exact;
  }

  /** Whichever partitions of the two verified stages have been moved, `recover` refuses if and only if that has torn a part;
      and it never discards: what it does not refuse, it can finish. */
  lemma PartialMoveIsNeverDiscarded(s: Store, parts: seq<Part>, names: set<string>, times: set<string>)
    requires ValidBatch(parts) && OnlyParts(s.stageName, Ids(parts)) && OnlyParts(s.stageTime, Ids(parts))
    requires forall p | p in parts :: Exact(p, s.stageName) && Exact(p, s.stageTime) && Unloaded(p, s)
    ensures var u := PartlyMoved(s, names, times);
            && (Refuses(u, parts) <==>
                exists p | p in parts :: SplitBy(s.stageName, p.identity, names) || SplitBy(s.stageTime, p.identity, times))
            && (!Refuses(u, parts) ==> forall p | p in parts :: CanFinish(p, u))
  {
    hide Inexact;
    hide InBoth;
    hide CanFinish;
    hide SplitBy;
    hide Exact;
    hide Settled;
    hide Started;
    hide SummaryMatches;
    var u := PartlyMoved(s, names, times);
    forall p | p in parts
      ensures if SplitBy(s.stageName, p.identity, names) || SplitBy(s.stageTime, p.identity, times) then Inexact(p, u)
              else CanFinish(p, u) && !Inexact(p, u) && !InBoth(p, u)
                   && Settled(p, u.stageName, u.finalName) && Settled(p, u.stageTime, u.finalTime)
    {
      PartAfterDays(s, p, names, times);
    }
    if forall p | p in parts :: !SplitBy(s.stageName, p.identity, names) && !SplitBy(s.stageTime, p.identity, times) {
      KeepMembers(s.stageName, (r: Row) => r.day !in names);
      KeepMembers(s.stageTime, (r: Row) => r.day !in times);
      SummariesHold(parts, u.stageName, u.finalName);
      SummariesHold(parts, u.stageTime, u.finalTime);
    }
  }

  /** Recovery is refused after some moves of partitions, of either table, exactly when some part of the batch spans two
      partitions in that table. */
  lemma RecoveryNeedsOneDay(s: Store, parts: seq<Part>)
    requires ValidBatch(parts) && OnlyParts(s.stageName, Ids(parts)) && OnlyParts(s.stageTime, Ids(parts))
    requires forall p | p in parts :: Exact(p, s.stageName) && Exact(p, s.stageTime) && Unloaded(p, s)
    ensures (forall names: set<string> :: !Refuses(PartlyMoved(s, names, {}), parts)) <==> OneDay(s.stageName)
    ensures (forall times: set<string> :: !Refuses(PartlyMoved(s, DaysOf(s.stageName), times), parts)) <==> OneDay(s.stageTime)
    ensures (forall names: set<string>, times: set<string> :: !Refuses(PartlyMoved(s, names, times), parts)) <==>
            OneDay(s.stageName) && OneDay(s.stageTime)
  {
    hide Refuses;
    hide PartlyMoved;
    hide Exact;
    hide Unloaded;
    forall names: set<string>, times: set<string>
      ensures Refuses(PartlyMoved(s, names, times), parts) <==>
              exists p | p in parts :: SplitBy(s.stageName, p.identity, names) || SplitBy(s.stageTime, p.identity, times)
    {
      PartialMoveIsNeverDiscarded(s, parts, names, times);
    }
    assert forall p | p in parts :: !SplitBy(s.stageTime, p.identity, {}) && !SplitBy(s.stageName, p.identity, DaysOf(s.stageName));
    OneDayOrTorn(s.stageName, parts);
    OneDayOrTorn(s.stageTime, parts);
    hide SplitBy;
    hide OneDay;
    if !OneDay(s.stageName) {
      var p, day :| p in parts && SplitBy(s.stageName, p.identity, {day});
      assert Refuses(PartlyMoved(s, {day}, {}), parts);
    }
    if !OneDay(s.stageTime) {
      var p, day :| p in parts && SplitBy(s.stageTime, p.identity, {day});
      assert Refuses(PartlyMoved(s, DaysOf(s.stageName), {day}), parts);
    }
  }

  lemma OneDayOrTorn(t: Table, parts: seq<Part>)
    requires OnlyParts(t, Ids(parts))
    ensures OneDay(t) ==> forall days: set<string>, p | p in parts :: !SplitBy(t, p.identity, days)
    ensures !OneDay(t) ==> exists p, day :: p in parts && SplitBy(t, p.identity, {day})
  {
    if !OneDay(t) {
      var r, q :| r in t && q in t && r.key == q.key && r.day != q.day;
      var p := PartOf(parts, r.key);
      assert SplitBy(t, p.identity, {r.day});
    }
  }

  // ---- what a whole call may have done ----

  predicate InFinal(p: Part, s: Store) { Exact(p, s.finalTime) && Exact(p, s.finalName) }

  /** The final tables only gained rows, and only rows of the parts `ids`. */
  ghost predicate FinalsGrow(s: Finals, u: Finals, ids: set<string>) {
    && s.time <= u.time && s.name <= u.name
    && SameOthers(s.time, u.time, ids) && SameOthers(s.name, u.name, ids)
  }

  /** Manifest rows were neither added nor removed, and the rows that changed became ready for a complete part. */
  ghost predicate OnlyReadyMarks(m: map<Key, Status>, n: map<Key, Status>, s: Store, parts: seq<Part>) {
    && m.Keys == n.Keys
    && forall k | k in m && n[k] != m[k] ::
         Loadable(m[k]) && n[k] == Ready && exists p | p in parts :: KeyOf(p) == k && InFinal(p, s)
  }

  /** Rows that changed belong to parts of the call, and are ready only if the part is complete. */
  ghost predicate Marks(m: map<Key, Status>, n: map<Key, Status>, s: Store, parts: seq<Part>) {
    && m.Keys == n.Keys
    && forall k | k in m && n[k] != m[k] ::
         exists p | p in parts :: KeyOf(p) == k && (n[k] == Ready ==> InFinal(p, s))
  }

  /** Every part whose row could become ready, or was, is ready. */
  predicate AllReady(m: map<Key, Status>, n: map<Key, Status>, parts: seq<Part>)
    requires m.Keys == n.Keys
  {
    forall p | p in parts && KeyOf(p) in m && (Loadable(m[KeyOf(p)]) || m[KeyOf(p)] == Ready) :: n[KeyOf(p)] == Ready
  }

  lemma InFinalPersists(p: Part, s: Store, u: Store, ids: set<string>)
    requires FinalsGrow(s.Final(), u.Final(), ids) && p.identity !in ids
    ensures InFinal(p, s) <==> InFinal(p, u)
    ensures Unloaded(p, s) <==> Unloaded(p, u)
    ensures Loaded(p, s) <==> Loaded(p, u)
  {
    assert Of(u.finalTime, p.identity) == Of(s.finalTime, p.identity);
    assert Of(u.finalName, p.identity) == Of(s.finalName, p.identity);
  }

  lemma NoDaysNoRows(t: Table)
    ensures DaysOf(t) <= {} ==> t == []
  {
    if t != [] {
      assert t[0].day in DaysOf(t);
    }
  }

  lemma SomeDay(parts: seq<Part>, t: Table)
    requires ValidBatch(parts) && SingleTableExact(parts, t)
    ensures DaysOf(t) != {}
  {
    assert parts[0] in parts && parts[0].identity in Keys(t);
    var r :| r in t;
    assert r.day in DaysOf(t);
  }

  lemma MovedDayIsGone(t: Table, day: string, left: set<string>)
    requires DaysOf(t) <= left
    ensures DaysOf(OffDay(t, day)) <= left - {day}
  {
    OffDayMembers(t, day);
  }

  lemma FinalsGrowSelf(s: Finals, ids: set<string>)
    ensures FinalsGrow(s, s, ids)
  {
  }

  lemma FinalsGrowTrans(s: Finals, u: Finals, v: Finals, ids: set<string>)
    requires FinalsGrow(s, u, ids) && FinalsGrow(u, v, ids)
    ensures FinalsGrow(s, v, ids)
  {
  }

  lemma NoMarksYet(m: map<Key, Status>, s: Store, parts: seq<Part>)
    ensures OnlyReadyMarks(m, m, s, parts) && AllReady(m, m, parts[..0])
  {
  }

  /** Staged and final name rows together are, part by part, what they were. */
  ghost predicate SameNames(s: Store, u: Store, parts: seq<Part>) {
    forall p | p in parts :: Of(u.finalName + u.stageName, p.identity) == Of(s.finalName + s.stageName, p.identity)
  }

  lemma NameMoveStep(start: Store, s: Store, parts: seq<Part>, day: string)
    requires Inv(s) && s.journal.Some? && s.journal.value.parts == parts && Moving(s, parts)
    requires FinalsGrow(start.Final(), s.Final(), Ids(parts)) && SameNames(start, s, parts)
    ensures Inv(NamePartitionMoved(s, day)) && Moving(NamePartitionMoved(s, day), parts)
    ensures FinalsGrow(start.Final(), NamePartitionMoved(s, day).Final(), Ids(parts))
    ensures SameNames(start, NamePartitionMoved(s, day), parts)
  {
    NameMoveKeepsMoving(s, parts, day);
    forall p | p in parts
      ensures Of(NamePartitionMoved(s, day).finalName + NamePartitionMoved(s, day).stageName, p.identity)
           == Of(s.finalName + s.stageName, p.identity)
    {
      SideAfterMove(p, s.stageName, s.finalName, day);
    }
    MoveLeavesOthers(s.stageName, s.finalName, day, Ids(parts));
  }

  lemma TimeMoveStep(start: Finals, s: Store, parts: seq<Part>, day: string)
    requires Inv(s) && s.journal.Some? && s.journal.value.parts == parts && Moving(s, parts) && s.stageName == []
    requires FinalsGrow(start, s.Final(), Ids(parts))
    ensures Inv(TimePartitionMoved(s, day)) && Moving(TimePartitionMoved(s, day), parts)
    ensures FinalsGrow(start, TimePartitionMoved(s, day).Final(), Ids(parts))
  {
    TimeMoveKeepsMoving(s, parts, day);
    MoveLeavesOthers(s.stageTime, s.finalTime, day, Ids(parts));
  }

  lemma MarkStep(m: map<Key, Status>, n: map<Key, Status>, s: Store, parts: seq<Part>, i: nat)
    requires i < |parts| && InFinal(parts[i], s)
    requires OnlyReadyMarks(m, n, s, parts) && AllReady(m, n, parts[..i])
    ensures OnlyReadyMarks(m, Marked(n, KeyOf(parts[i])), s, parts)
    ensures AllReady(m, Marked(n, KeyOf(parts[i])), parts[..i + 1])
  {
    var p := parts[i];
    var o := Marked(n, KeyOf(p));
    assert p in parts;
    assert parts[..i + 1] == parts[..i] + [p];
    forall q | q in parts[..i + 1] && KeyOf(q) in m && (Loadable(m[KeyOf(q)]) || m[KeyOf(q)] == Ready)
      ensures o[KeyOf(q)] == Ready
    {
      if KeyOf(q) != KeyOf(p) {
        assert q in parts[..i];
      }
    }
  }

  // ---- what recovery leaves ----

  /** Recovery that ended: journal gone, staging empty, and all of the batch loaded and marked or none of it. */
  ghost predicate Recovered(s: Store, u: Store, parts: seq<Part>, count: nat) {
    && u.journal.None? && u.stageTime == [] && u.stageName == []
    && (count == |parts| || count == 0)
    && (count == |parts| ==>
          && (forall p | p in parts :: Loaded(p, u))
          && s.manifest.Keys == u.manifest.Keys && AllReady(s.manifest, u.manifest, parts))
    && (count == 0 ==> (forall p | p in parts :: Unloaded(p, u)) && u.manifest == s.manifest)
  }

  lemma AllInFinal(s: Store, parts: seq<Part>)
    ensures (forall p | p in parts :: TableMatches(s.finalTime, p) && TableMatches(s.finalName, p))
       <==> forall p | p in parts :: InFinal(p, s)
  {
    forall p | p in parts
      ensures TableMatches(s.finalTime, p) && TableMatches(s.finalName, p) <==> InFinal(p, s)
    {
      PresentIffRows(s.finalTime, p);
      PresentIffRows(s.finalName, p);
    }
  }

  /** A part complete in the final tables stays so while recovery moves the rest of its batch. */
  lemma InFinalStays(s: Store, u: Store, parts: seq<Part>)
    requires Inv(s) && s.journal.Some? && s.journal.value.parts == parts
    requires Inv(u) && u.journal.Some? && u.journal.value.parts == parts
    requires FinalsGrow(s.Final(), u.Final(), Ids(parts))
    ensures forall p | p in parts && InFinal(p, s) :: InFinal(p, u)
  {
    forall p | p in parts && InFinal(p, s) ensures InFinal(p, u) {
      RowsStay(s.finalTime, u.finalTime, p.identity);
      RowsStay(s.finalName, u.finalName, p.identity);
    }
  }

  lemma RowsStay(t: Table, u: Table, key: string)
    requires t <= u && Of(t, key) != []
    ensures Of(u, key) != []
  {
    assert u == t + u[|t|..];
    OfConcat(t, u[|t|..], key);
  }

  // ---- what a finished load leaves ----

  function CountInFinal(parts: seq<Part>, s: Store): nat { |Keep(parts, (p: Part) => InFinal(p, s))| }

  function ExpectedMark(before: Status, complete: bool): Status {
    if !complete then Failed(before) else if Loadable(before) then Ready else before
  }

  /** Exactly the manifest a finished load leaves. */
  ghost predicate MarksDone(m: map<Key, Status>, n: map<Key, Status>, s: Store, parts: seq<Part>) {
    && m.Keys == n.Keys
    && (forall p | p in parts && KeyOf(p) in m :: n[KeyOf(p)] == ExpectedMark(m[KeyOf(p)], InFinal(p, s)))
    && (forall k | k in m && (forall p | p in parts :: KeyOf(p) != k) :: n[k] == m[k])
  }

  /** `ready` parts are complete in both final tables, `failed` ones have no row in either. */
  ghost predicate LoadDone(s: Store, u: Store, parts: seq<Part>, ready: nat, failed: nat) {
    && ready + failed == |parts| && ready == CountInFinal(parts, u)
    && (forall p | p in parts :: InFinal(p, u) || Unloaded(p, u))
    && (forall p | p in parts && p.rowCount > 0 && Unloaded(p, s) && InFinal(p, u) :: Loaded(p, u))
    && MarksDone(s.manifest, u.manifest, u, parts)
  }

  lemma DistinctKeys(parts: seq<Part>, p: Part, q: Part)
    requires Distinct(parts) && p in parts && q in parts && p.identity == q.identity
    ensures p == q
  {
  }

  lemma SplitBatch(a: seq<Part>, b: seq<Part>)
    requires Distinct(a + b)
    ensures Distinct(a) && Distinct(b)
    ensures Ids(a + b) == Ids(a) + Ids(b)
    ensures forall p, q | p in a && q in b :: p.identity != q.identity
  {
    forall i, j | 0 <= i < j < |a| ensures a[i].identity != a[j].identity {
      assert (a + b)[i] == a[i] && (a + b)[j] == a[j];
    }
    forall i, j | 0 <= i < j < |b| ensures b[i].identity != b[j].identity {
      assert (a + b)[|a| + i] == b[i] && (a + b)[|a| + j] == b[j];
    }
    forall p, q | p in a && q in b ensures p.identity != q.identity {
      var i :| 0 <= i < |a| && a[i] == p;
      var j :| 0 <= j < |b| && b[j] == q;
      assert (a + b)[i] == p && (a + b)[|a| + j] == q;
    }
  }

  lemma GrowMore(s: Finals, u: Finals, ids: set<string>, more: set<string>)
    requires FinalsGrow(s, u, ids) && ids <= more
    ensures FinalsGrow(s, u, more)
  {
  }

  lemma {:induction false} CountAgrees(parts: seq<Part>, f: Part -> bool, g: Part -> bool)
    requires forall p | p in parts :: f(p) == g(p)
    ensures |Keep(parts, f)| == |Keep(parts, g)|
  {
    if parts != [] {
      assert parts[0] in parts;
      CountAgrees(parts[1..], f, g);
    }
  }

  /** Two loads of separate parts in a row are one load of both. */
  lemma LoadsCompose(s: Store, u: Store, v: Store, a: seq<Part>, b: seq<Part>, ra: nat, fa: nat, rb: nat, fb: nat)
    requires Distinct(a + b)
    requires LoadDone(s, u, a, ra, fa) && FinalsGrow(s.Final(), u.Final(), Ids(a))
    requires LoadDone(u, v, b, rb, fb) && FinalsGrow(u.Final(), v.Final(), Ids(b))
    ensures LoadDone(s, v, a + b, ra + rb, fa + fb) && FinalsGrow(s.Final(), v.Final(), Ids(a + b))
  {
    SplitBatch(a, b);
    GrowMore(s.Final(), u.Final(), Ids(a), Ids(a + b));
    GrowMore(u.Final(), v.Final(), Ids(b), Ids(a + b));
    FinalsGrowTrans(s.Final(), u.Final(), v.Final(), Ids(a + b));
    forall p | p in a
      ensures InFinal(p, u) <==> InFinal(p, v)
      ensures Unloaded(p, u) <==> Unloaded(p, v)
      ensures Loaded(p, u) <==> Loaded(p, v)
    {
      InFinalPersists(p, u, v, Ids(b));
    }
    forall p | p in b ensures Unloaded(p, s) <==> Unloaded(p, u) {
      InFinalPersists(p, s, u, Ids(a));
    }
    KeepConcat(a, b, (p: Part) => InFinal(p, v));
    CountAgrees(a, (p: Part) => InFinal(p, u), (p: Part) => InFinal(p, v));
    MarksCompose(s.manifest, u.manifest, v.manifest, u, v, a, b);
  }

  lemma MarksCompose(m: map<Key, Status>, n: map<Key, Status>, o: map<Key, Status>, u: Store, v: Store,
                     a: seq<Part>, b: seq<Part>)
    requires forall p, q | p in a && q in b :: p.identity != q.identity
    requires forall p | p in a :: InFinal(p, u) <==> InFinal(p, v)
    requires MarksDone(m, n, u, a) && MarksDone(n, o, v, b)
    ensures MarksDone(m, o, v, a + b)
  {
    forall p | p in a + b && KeyOf(p) in m ensures o[KeyOf(p)] == ExpectedMark(m[KeyOf(p)], InFinal(p, v)) {
      if p in a {
        assert forall q | q in b :: KeyOf(q) != KeyOf(p);
      } else {
        assert forall q | q in a :: KeyOf(q) != KeyOf(p);
      }
    }
    forall k | k in m && forall p | p in a + b :: KeyOf(p) != k ensures o[k] == m[k] {
      assert forall p | p in a :: p in a + b;
      assert forall p | p in b :: p in a + b;
    }
  }

  /** The order of the parts does not matter to the result of a load. */
  lemma LoadReordered(s: Store, u: Store, parts: seq<Part>, f: Part -> bool, g: Part -> bool, ready: nat, failed: nat)
    requires forall p | p in parts :: f(p) != g(p)
    requires LoadDone(s, u, Keep(parts, f) + Keep(parts, g), ready, failed)
    ensures LoadDone(s, u, parts, ready, failed)
    ensures Ids(parts) == Ids(Keep(parts, f) + Keep(parts, g))
  {
    var again := Keep(parts, f) + Keep(parts, g);
    KeepMembers(parts, f);
    KeepMembers(parts, g);
    assert forall p :: p in parts <==> p in again;
    KeepSplit(parts, f, g);
    CountReordered(parts, f, g, (p: Part) => InFinal(p, u));
  }

  lemma {:induction false} CountReordered(parts: seq<Part>, f: Part -> bool, g: Part -> bool, h: Part -> bool)
    requires forall p | p in parts :: f(p) != g(p)
    ensures |Keep(Keep(parts, f) + Keep(parts, g), h)| == |Keep(parts, h)|
  {
    KeepConcat(Keep(parts, f), Keep(parts, g), h);
    if parts != [] {
      assert parts[0] in parts;
      CountReordered(parts[1..], f, g, h);
      KeepConcat(Keep(parts[1..], f), Keep(parts[1..], g), h);
      KeepConcat(if f(parts[0]) then [parts[0]] else [], Keep(parts[1..], f), h);
      KeepConcat(if g(parts[0]) then [parts[0]] else [], Keep(parts[1..], g), h);
    }
  }

  // ---- the steps of a load ----

  lemma ReadyPartsDone(s: Store, u: Store, ready: seq<Part>)
    requires Distinct(ready) && forall p | p in ready :: InFinal(p, s)
    requires u.Final() == s.Final()
    requires OnlyReadyMarks(s.manifest, u.manifest, s, ready) && AllReady(s.manifest, u.manifest, ready)
    ensures LoadDone(s, u, ready, |ready|, 0)
  {
    KeepAll(ready, (p: Part) => InFinal(p, u));
    forall p | p in ready && KeyOf(p) in s.manifest
      ensures u.manifest[KeyOf(p)] == ExpectedMark(s.manifest[KeyOf(p)], true)
    {
    }
  }

  /** A batch that ended up in the final tables, marked in one or two rounds. */
  lemma BatchDone(s: Store, u: Store, middle: map<Key, Status>, batch: seq<Part>)
    requires ValidBatch(batch) && forall p | p in batch :: Loaded(p, u)
    requires OnlyReadyMarks(s.manifest, middle, u, batch)
    requires OnlyReadyMarks(middle, u.manifest, u, batch) && AllReady(middle, u.manifest, batch)
    ensures LoadDone(s, u, batch, |batch|, 0)
  {
    KeepAll(batch, (p: Part) => InFinal(p, u));
    forall p | p in batch && KeyOf(p) in s.manifest
      ensures u.manifest[KeyOf(p)] == ExpectedMark(s.manifest[KeyOf(p)], true)
    {
    }
  }

  lemma NothingMarked(s: Store, u: Store, batch: seq<Part>)
    requires ValidBatch(batch) && forall p | p in batch :: Unloaded(p, u)
    requires OnlyReadyMarks(s.manifest, u.manifest, u, batch)
    ensures u.manifest == s.manifest
  {
    forall k | k in s.manifest ensures u.manifest[k] == s.manifest[k] {
    }
  }

  function MarkedFailed(m: map<Key, Status>, k: Key): map<Key, Status> {
    if k in m then m[k := Failed(m[k])] else m
  }

  lemma FailedPartDone(s: Store, u: Store, p: Part)
    requires p.rowCount > 0 && Unloaded(p, u)
    requires u.manifest == MarkedFailed(s.manifest, KeyOf(p))
    ensures LoadDone(s, u, [p], 0, 1)
  {
    KeepNone([p], (q: Part) => InFinal(q, u));
  }

  lemma DoneMeansMarks(m: map<Key, Status>, n: map<Key, Status>, s: Store, parts: seq<Part>)
    requires MarksDone(m, n, s, parts)
    ensures Marks(m, n, s, parts)
  {
    forall k | k in m && n[k] != m[k]
      ensures exists p | p in parts :: KeyOf(p) == k && (n[k] == Ready ==> InFinal(p, s))
    {
      var p :| p in parts && KeyOf(p) == k;
    }
  }

  lemma MarksOfBatch(m: map<Key, Status>, n: map<Key, Status>, s: Store, batch: seq<Part>, parts: seq<Part>)
    requires OnlyReadyMarks(m, n, s, batch) && forall p | p in batch :: p in parts
    ensures Marks(m, n, s, parts)
  {
    forall k | k in m && n[k] != m[k]
      ensures exists p | p in parts :: KeyOf(p) == k && (n[k] == Ready ==> InFinal(p, s))
    {
      var p :| p in batch && KeyOf(p) == k && InFinal(p, s);
    }
  }

  /** Marks of an interrupted call after a finished one on other parts. */
  lemma MarksExtend(s: Store, u: Store, v: Store, a: seq<Part>, b: seq<Part>, parts: seq<Part>)
    requires forall p | p in a || p in b :: p in parts
    requires forall p, q | p in a && q in b :: p.identity != q.identity
    requires Marks(s.manifest, u.manifest, u, a) && Marks(u.manifest, v.manifest, v, b)
    requires FinalsGrow(u.Final(), v.Final(), Ids(b))
    ensures Marks(s.manifest, v.manifest, v, parts)
  {
    forall k | k in s.manifest && v.manifest[k] != s.manifest[k]
      ensures exists p | p in parts :: KeyOf(p) == k && (v.manifest[k] == Ready ==> InFinal(p, v))
    {
      if u.manifest[k] == v.manifest[k] {
        var p :| p in a && KeyOf(p) == k && (u.manifest[k] == Ready ==> InFinal(p, u));
        InFinalPersists(p, u, v, Ids(b));
      } else {
        var p :| p in b && KeyOf(p) == k && (v.manifest[k] == Ready ==> InFinal(p, v));
      }
    }
  }

  function ReadyParts(parts: seq<Part>, s: Store): seq<Part> { Keep(parts, (p: Part) => InFinal(p, s)) }

  function MissingParts(parts: seq<Part>, s: Store): seq<Part> { Keep(parts, (p: Part) => !InFinal(p, s)) }

  lemma SortNone(s: Store)
    ensures ReadyParts([], s) == [] && MissingParts([], s) == []
  {
  }

  lemma SortOne(parts: seq<Part>, s: Store, i: nat)
    requires i < |parts|
    ensures ReadyParts(parts[..i + 1], s) == ReadyParts(parts[..i], s) + (if InFinal(parts[i], s) then [parts[i]] else [])
    ensures MissingParts(parts[..i + 1], s)
         == MissingParts(parts[..i], s) + (if InFinal(parts[i], s) then [] else [parts[i]])
  {
    assert parts[..i + 1] == parts[..i] + [parts[i]];
    KeepConcat(parts[..i], [parts[i]], (p: Part) => InFinal(p, s));
    KeepConcat(parts[..i], [parts[i]], (p: Part) => !InFinal(p, s));
  }

  /** The three-way test of `load`; a part without rows is complete when the final tables hold none of it. */
  lemma PartCheck(p: Part, s: Store)
    ensures TableMatches(s.finalTime, p) && TableMatches(s.finalName, p) <==> InFinal(p, s)
    ensures Present(s.finalTime, p) || Present(s.finalName, p) <==> !Unloaded(p, s)
    ensures Unloaded(p, s) && !InFinal(p, s) ==> p.rowCount > 0
  {
    PresentIffRows(s.finalTime, p);
    PresentIffRows(s.finalName, p);
  }

  lemma SortedParts(parts: seq<Part>, s: Store)
    requires Distinct(parts)
    ensures Distinct(ReadyParts(parts, s)) && Distinct(MissingParts(parts, s))
    ensures Distinct(ReadyParts(parts, s) + MissingParts(parts, s))
    ensures |MissingParts(parts, s)| <= |parts|
    ensures forall p :: p in ReadyParts(parts, s) <==> p in parts && InFinal(p, s)
    ensures forall p :: p in MissingParts(parts, s) <==> p in parts && !InFinal(p, s)
  {
    var f, g := (p: Part) => InFinal(p, s), (p: Part) => !InFinal(p, s);
    KeepMembers(parts, f);
    KeepMembers(parts, g);
    KeepDistinct(parts, f);
    KeepDistinct(parts, g);
    DistinctUnion(ReadyParts(parts, s), MissingParts(parts, s), parts);
  }

  lemma DistinctUnion(a: seq<Part>, b: seq<Part>, parts: seq<Part>)
    requires Distinct(a) && Distinct(b) && Distinct(parts)
    requires forall p | p in a || p in b :: p in parts
    requires forall p | p in a :: p !in b
    ensures Distinct(a + b)
  {
    forall i, j | 0 <= i < j < |a + b| ensures (a + b)[i].identity != (a + b)[j].identity {
      var p, q := (a + b)[i], (a + b)[j];
      if j >= |a| && i < |a| {
        assert p in a && q in b;
        if p.identity == q.identity {
          DistinctKeys(parts, p, q);
        }
      }
    }
  }

  /** The ready parts first, then the missing ones: together a load of all parts. */
  lemma LoadAssembles(s: Store, u: Store, v: Store, parts: seq<Part>, ready: nat, failed: nat)
    requires Distinct(parts)
    requires LoadDone(s, u, ReadyParts(parts, s), |ReadyParts(parts, s)|, 0) && u.Final() == s.Final()
    requires LoadDone(u, v, MissingParts(parts, s), ready, failed)
    requires FinalsGrow(u.Final(), v.Final(), Ids(MissingParts(parts, s)))
    ensures LoadDone(s, v, parts, |ReadyParts(parts, s)| + ready, failed)
    ensures FinalsGrow(s.Final(), v.Final(), Ids(parts))
  {
    var a, b := ReadyParts(parts, s), MissingParts(parts, s);
    SortedParts(parts, s);
    FinalsGrowSelf(s.Final(), Ids(a));
    LoadsCompose(s, u, v, a, b, |a|, 0, ready, failed);
    LoadReordered(s, v, parts, (p: Part) => InFinal(p, s), (p: Part) => !InFinal(p, s), |a| + ready, failed);
  }

  /** After the ready parts have been marked, or the marking was cut short. */
  lemma AfterReady(s: Store, u: Store, parts: seq<Part>)
    requires Distinct(parts) && u.Final() == s.Final()
    requires OnlyReadyMarks(s.manifest, u.manifest, s, ReadyParts(parts, s))
    ensures Marks(s.manifest, u.manifest, u, ReadyParts(parts, s)) && Marks(s.manifest, u.manifest, u, parts)
    ensures AllReady(s.manifest, u.manifest, ReadyParts(parts, s)) ==>
              LoadDone(s, u, ReadyParts(parts, s), |ReadyParts(parts, s)|, 0)
  {
    SortedParts(parts, s);
    MarksOfBatch(s.manifest, u.manifest, u, ReadyParts(parts, s), parts);
    MarksOfBatch(s.manifest, u.manifest, u, ReadyParts(parts, s), ReadyParts(parts, s));
    if AllReady(s.manifest, u.manifest, ReadyParts(parts, s)) {
      ReadyPartsDone(s, u, ReadyParts(parts, s));
    }
  }

  lemma NothingMissing(s: Store, u: Store, parts: seq<Part>)
    requires Distinct(parts) && u.Final() == s.Final() && MissingParts(parts, s) == []
    requires LoadDone(s, u, ReadyParts(parts, s), |ReadyParts(parts, s)|, 0)
    ensures LoadDone(s, u, parts, |ReadyParts(parts, s)|, 0)
  {
    assert LoadDone(u, u, [], 0, 0);
    FinalsGrowSelf(u.Final(), {});
    LoadAssembles(s, u, u, parts, 0, 0);
  }

  lemma AfterMissing(s: Store, u: Store, v: Store, parts: seq<Part>, ready: nat, failed: nat)
    requires Distinct(parts)
    requires LoadDone(s, u, ReadyParts(parts, s), |ReadyParts(parts, s)|, 0) && u.Final() == s.Final()
    requires FinalsGrow(u.Final(), v.Final(), Ids(MissingParts(parts, s)))
    requires Marks(s.manifest, u.manifest, u, ReadyParts(parts, s))
    requires Marks(u.manifest, v.manifest, v, MissingParts(parts, s))
    ensures FinalsGrow(s.Final(), v.Final(), Ids(parts)) && Marks(s.manifest, v.manifest, v, parts)
    ensures LoadDone(u, v, MissingParts(parts, s), ready, failed) ==>
              LoadDone(s, v, parts, |ReadyParts(parts, s)| + ready, failed)
  {
    SortedParts(parts, s);
    SplitBatch(ReadyParts(parts, s), MissingParts(parts, s));
    MarksExtend(s, u, v, ReadyParts(parts, s), MissingParts(parts, s), parts);
    GrowMore(s.Final(), v.Final(), Ids(MissingParts(parts, s)), Ids(parts));
    if LoadDone(u, v, MissingParts(parts, s), ready, failed) {
      LoadAssembles(s, u, v, parts, ready, failed);
    }
  }

  lemma MarksTwice(m: map<Key, Status>, n: map<Key, Status>, o: map<Key, Status>, u: Store, v: Store, batch: seq<Part>)
    requires OnlyReadyMarks(m, n, u, batch) && OnlyReadyMarks(n, o, v, batch)
    requires forall p | p in batch && InFinal(p, u) :: InFinal(p, v)
    ensures OnlyReadyMarks(m, n, v, batch) && OnlyReadyMarks(m, o, v, batch)
  {
    forall k | k in m && n[k] != m[k] ensures exists p | p in batch :: KeyOf(p) == k && InFinal(p, v) {
      var p :| p in batch && KeyOf(p) == k && InFinal(p, u);
      assert InFinal(p, v);
    }
  }

  /** A load of a batch that starts over from a discarded attempt counts from before the attempt. */
  lemma StartOver(s: Store, u: Store, v: Store, batch: seq<Part>, ready: nat, failed: nat)
    requires s.manifest == u.manifest && forall p | p in batch :: Unloaded(p, s) && Unloaded(p, u)
    requires FinalsGrow(s.Final(), u.Final(), Ids(batch)) && FinalsGrow(u.Final(), v.Final(), Ids(batch))
    ensures FinalsGrow(s.Final(), v.Final(), Ids(batch))
    ensures LoadDone(u, v, batch, ready, failed) ==> LoadDone(s, v, batch, ready, failed)
  {
  }

  lemma HalvesOf(batch: seq<Part>, middle: nat)
    requires ValidBatch(batch) && middle <= |batch|
    ensures batch[..middle] + batch[middle..] == batch
    ensures Distinct(batch[..middle]) && Distinct(batch[middle..])
    ensures forall p | p in batch[..middle] || p in batch[middle..] :: p in batch
    ensures Ids(batch[..middle]) <= Ids(batch) && Ids(batch[middle..]) <= Ids(batch)
    ensures forall p, q | p in batch[..middle] && q in batch[middle..] :: p.identity != q.identity
  {
    assert batch[..middle] + batch[middle..] == batch;
    SplitBatch(batch[..middle], batch[middle..]);
  }

  lemma StillUnloaded(s: Store, u: Store, a: seq<Part>, b: seq<Part>)
    requires FinalsGrow(s.Final(), u.Final(), Ids(a))
    requires forall p, q | p in a && q in b :: p.identity != q.identity
    requires forall p | p in b :: Unloaded(p, s)
    ensures forall p | p in b :: Unloaded(p, u)
  {
    forall p | p in b ensures Unloaded(p, u) {
      assert p.identity !in Ids(a);
      InFinalPersists(p, s, u, Ids(a));
    }
  }

  /** The second half after a finished first half, whether or not it finished. */
  lemma SecondHalf(s: Store, u: Store, v: Store, a: seq<Part>, b: seq<Part>, parts: seq<Part>,
                   ra: nat, fa: nat, rb: nat, fb: nat)
    requires Distinct(parts) && parts == a + b
    requires LoadDone(s, u, a, ra, fa) && FinalsGrow(s.Final(), u.Final(), Ids(a))
    requires FinalsGrow(u.Final(), v.Final(), Ids(b)) && Marks(u.manifest, v.manifest, v, b)
    ensures FinalsGrow(s.Final(), v.Final(), Ids(parts)) && Marks(s.manifest, v.manifest, v, parts)
    ensures LoadDone(u, v, b, rb, fb) ==> LoadDone(s, v, parts, ra + rb, fa + fb)
  {
    SplitBatch(a, b);
    DoneMeansMarks(s.manifest, u.manifest, u, a);
    MarksExtend(s, u, v, a, b, parts);
    GrowMore(s.Final(), u.Final(), Ids(a), Ids(parts));
    GrowMore(u.Final(), v.Final(), Ids(b), Ids(parts));
    FinalsGrowTrans(s.Final(), u.Final(), v.Final(), Ids(parts));
    if LoadDone(u, v, b, rb, fb) {
      LoadsCompose(s, u, v, a, b, ra, fa, rb, fb);
    }
  }

  lemma FirstHalf(s: Store, u: Store, a: seq<Part>, parts: seq<Part>)
    requires FinalsGrow(s.Final(), u.Final(), Ids(a)) && Marks(s.manifest, u.manifest, u, a)
    requires Ids(a) <= Ids(parts) && forall p | p in a :: p in parts
    ensures FinalsGrow(s.Final(), u.Final(), Ids(parts)) && Marks(s.manifest, u.manifest, u, parts)
  {
    GrowMore(s.Final(), u.Final(), Ids(a), Ids(parts));
  }

  lemma NothingChanged(s: Store, u: Store, parts: seq<Part>)
    requires u.Final() == s.Final() && u.manifest == s.manifest
    ensures FinalsGrow(s.Final(), u.Final(), Ids(parts)) && Marks(s.manifest, u.manifest, u, parts)
  {
  }
}
