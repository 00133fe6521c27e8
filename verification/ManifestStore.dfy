/** `ClickHouseManifest` of app/clickhouse_manifest.py: one table and one state row, changed in place. */
module ManifestStore {
  import opened Select
  import opened PartStatus
  import opened Manifest

  datatype Mirror = Mirror(status: Status, values: Values)

  function MirrorOf(t: Table): map<Key, Mirror> { map k | k in t :: Mirror(t[k].status, t[k].values) }

  function IdsAt(ids: map<string, set<string>>, path: string): set<string> { if path in ids then ids[path] else {} }

  /** `ids_by_path` indexes exactly the keys of the table. */
  ghost predicate Indexes(ids: map<string, set<string>>, t: Table) {
    forall k: Key :: k.identity in IdsAt(ids, k.path) <==> k in t
  }

  class ClickHouseManifest {
    var parts: Table
    var state: ReconcileState

    constructor ()
      ensures parts == map[] && state == ReconcileState(0, 0, 0, 0, 0, 0, "")
    {
      parts, state := map[], ReconcileState(0, 0, 0, 0, 0, 0, "");
    }

    method RecordState(generation: nat, startUs: int, endUs: int, sourceParts: int, eligible: int, preserve: bool, nowUs: int)
      modifies this`state
      ensures state == NextState(old(state), startUs, endUs, sourceParts, eligible, preserve, Stamp(nowUs, generation))
    {
      if preserve {
        state := state.(generation := generation, lastError := "");
      } else {
        state := ReconcileState(generation, startUs, endUs, sourceParts, eligible, nowUs, "");
      }
    }

    /** First half of the loop body: the upsert, skipped for an unchanged row in a load state. */
    method UpsertPart(p: Source, at: Stamp, rows: map<Key, Mirror>, ids: map<string, set<string>>)
      returns (newRows: map<Key, Mirror>, newIds: map<string, set<string>>)
      requires rows == MirrorOf(parts) && Indexes(ids, parts)
      modifies this`parts
      ensures parts == old(parts)[KeyOf(p) := Upserted(old(parts), p, at)]
      ensures newRows == MirrorOf(parts) && Indexes(newIds, parts)
    {
      newRows, newIds := rows, ids;
      var k := KeyOf(p);
      if k !in rows || Resets(rows[k].status) || rows[k].values != p.values {
        parts := parts[k := if k in parts then UpdatedRow(parts[k], p, at) else NewRow(p, at)];
        newRows := rows[k := Mirror(if k !in rows || Resets(rows[k].status) then Pending else rows[k].status, p.values)];
        newIds := ids[p.path := IdsAt(ids, p.path) + {p.identity}];
      }
    }

    /** Second half: the UPDATE of the path's other identities, issued only when the mirror knows of one. */
    method ReplaceOthers(p: Source, at: Stamp, rows: map<Key, Mirror>, ids: map<string, set<string>>)
      returns (newRows: map<Key, Mirror>, hits: nat)
      requires rows == MirrorOf(parts) && Indexes(ids, parts)
      modifies this`parts
      ensures parts == WithReplaced(old(parts), OtherKeys(old(parts), p), at)
      ensures newRows == MirrorOf(parts) && Indexes(ids, parts) && hits == |OtherKeys(old(parts), p)|
    {
      newRows, hits := rows, 0;
      var others := set o | o in IdsAt(ids, p.path) && o != p.identity && rows[Key(p.path, o)].status != Retired;
      OthersAgree(parts, ids, p, others);
      hide OtherKeys;
      hide Indexes;
      hide IdsAt;
      if others != {} {
        var keys := OtherKeys(parts, p);
        newRows := map k | k in rows ::
          if k.path == p.path && k.identity in others && rows[k].status != Deleting
          then rows[k].(status := DeletePending) else rows[k];
        MirrorFollows(parts, keys, at, rows, newRows, p, others);
        parts := WithReplaced(parts, keys, at);
        hits := |keys|;
      }
    }

    /** The sweep: rows the loop did not see, deleted inside the window and retired before it. */
    method SweepUnseen(rows: map<Key, Mirror>, seen: set<Key>, startUs: int, at: Stamp) returns (deleted: nat, aged: nat)
      requires rows == MirrorOf(parts)
      modifies this`parts
      ensures parts == Swept(old(parts), seen, startUs, at)
      ensures deleted == |DeletedKeys(old(parts), seen, startUs)| && aged == |AgedKeys(old(parts), seen, startUs)|
    {
      var unseen := set k | k in rows && k !in seen && rows[k].status != Retired :: k;
      var deleteKeys := set k | k in unseen && rows[k].values.maxUs >= startUs :: k;
      var retireKeys := set k | k in unseen && rows[k].values.maxUs < startUs :: k;
      assert deleteKeys == DeletedKeys(parts, seen, startUs) && retireKeys == AgedKeys(parts, seen, startUs);
      hide *;
      SweptInTwo(parts, seen, startUs, at);
      parts := WithSwept(parts, deleteKeys, at);
      parts := WithAged(parts, retireKeys, at);
      deleted, aged := |deleteKeys|, |retireKeys|;
    }

    /** One turn of the row loop: upsert, then replacement, with the mirror kept equal to the table. */
    method ReconcilePart(p: Source, at: Stamp, rows: map<Key, Mirror>, ids: map<string, set<string>>)
      returns (newRows: map<Key, Mirror>, newIds: map<string, set<string>>, hits: nat)
      requires rows == MirrorOf(parts) && Indexes(ids, parts)
      modifies this`parts
      ensures parts == PartStep(old(parts), p, at) && hits == |OtherKeys(old(parts), p)|
      ensures newRows == MirrorOf(parts) && Indexes(newIds, parts)
    {
      hide PartStep;
      hide OtherKeys;
      StepInTwo(parts, p, at);
      newRows, newIds := UpsertPart(p, at, rows, ids);
      newRows, hits := ReplaceOthers(p, at, newRows, newIds);
    }

    method ReconcileRows(list: seq<Source>, at: Stamp)
      returns (rows: map<Key, Mirror>, seen: set<Key>, queued: nat, replaced: nat)
      modifies this`parts
      ensures Loop(old(parts), list, at) == LoopResult(parts, seen, queued, replaced) && rows == MirrorOf(parts)
    {
      hide PartStep;
      hide OtherKeys;
      hide Queues;
      hide MirrorOf;
      hide Indexes;
      var ids := IdsOf(parts);
      rows, seen, queued, replaced := MirrorOf(parts), {}, 0, 0;
      var i := 0;
      while i < |list|
        invariant 0 <= i <= |list|
        invariant Loop(old(parts), list[..i], at) == LoopResult(parts, seen, queued, replaced)
        invariant rows == MirrorOf(parts) && Indexes(ids, parts)
      {
        assert list[..i + 1][..i] == list[..i];
        var p := list[i];
        if p.identity != "" {
          QueuesByMirror(parts, rows, p);
          seen := seen + {KeyOf(p)};
          if KeyOf(p) !in rows || !ActiveLoad(rows[KeyOf(p)].status) {
            queued := queued + 1;
          }
          var hits: nat;
          rows, ids, hits := ReconcilePart(p, at, rows, ids);
          replaced := replaced + hits;
        }
        i := i + 1;
      }
      assert list[..|list|] == list;
    }

    /** The row loop over an in-memory mirror of the table; only real changes are written. */
    method Reconcile(list: seq<Source>, startUs: int, endUs: int, sourceParts: Option<int>, sweep: bool, preserve: bool,
                     nowUs: int)
      returns (counters: Counters)
      modifies this
      ensures Outcome(parts, counters, state) ==
                LoopOutcome(old(parts), old(state), list, startUs, endUs, sourceParts, sweep, preserve, nowUs)
    {
      hide Loop;
      hide Swept;
      hide DeletedKeys;
      hide AgedKeys;
      hide MirrorOf;
      hide NextState;
      var at := Stamp(nowUs, state.generation + 1);
      var rows, seen, queued, replaced := ReconcileRows(list, at);
      var deleted, aged := 0, 0;
      if sweep {
        deleted, aged := SweepUnseen(rows, seen, startUs, at);
      }
      RecordState(at.generation, startUs, endUs, if sourceParts.Some? then sourceParts.value else |list|, |list|, preserve, nowUs);
      counters := Counters(at.generation, |list|, queued, replaced, deleted, aged);
    }

    /** The same sweep as two statements over the TEMP table of listed parts. */
    method SweepUnlisted(listed: set<Key>, startUs: int, at: Stamp) returns (deleted: nat, aged: nat)
      modifies this`parts
      ensures parts == Swept(old(parts), listed, startUs, at)
      ensures deleted == |DeletedKeys(old(parts), listed, startUs)| && aged == |AgedKeys(old(parts), listed, startUs)|
    {
      var doomed := DeletedKeys(parts, listed, startUs);
      SweptInTwo(parts, listed, startUs, at);
      AgedAfterSwept(parts, listed, startUs, at);
      hide *;
      parts := WithSwept(parts, doomed, at);
      var tooOld := AgedKeys(parts, listed, startUs);
      parts := WithAged(parts, tooOld, at);
      deleted, aged := |doomed|, |tooOld|;
    }

    /** Stages the source in batches, each part under its path. */
    method StageSource(list: seq<Source>, startUs: int, endUs: int, filter: bool, stageBatch: int)
      returns (temp: map<string, Source>, eligible: nat)
      ensures temp == Listed(Windowed(list, filter, startUs, endUs))
      ensures eligible == |Windowed(list, filter, startUs, endUs)|
    {
      hide WellKeyed;
      temp, eligible := map[], 0;
      var batch: seq<Source> := [];
      var i := 0;
      while i < |list|
        invariant 0 <= i <= |list|
        invariant eligible == |Windowed(list[..i], filter, startUs, endUs)|
        invariant Flushed(temp, batch) == Listed(Windowed(list[..i], filter, startUs, endUs))
      {
        var p := list[i];
        assert list[..i + 1][..i] == list[..i];
        if !filter || InWindow(p.values, startUs, endUs) {
          ghost var used := Windowed(list[..i], filter, startUs, endUs);
          assert (used + [p])[..|used|] == used;
          eligible := eligible + 1;
          if p.identity != "" {
            assert (batch + [p])[..|batch|] == batch;
            batch := batch + [p];
            if |batch| >= (if stageBatch > 1 then stageBatch else 1) {
              temp, batch := Flushed(temp, batch), [];
            }
          }
        }
        i := i + 1;
      }
      assert list[..|list|] == list;
      temp := Flushed(temp, batch);
    }

    /** The set-based form: the source is staged in batches, then compared with a fixed number of statements. */
    method ReconcileStreaming(list: seq<Source>, startUs: int, endUs: int, sourceParts: Option<int>, filter: bool,
                              sweep: bool, preserve: bool, stageBatch: int, nowUs: int)
      returns (counters: Counters)
      modifies this
      ensures WellKeyed(Listed(Windowed(list, filter, startUs, endUs)))
      ensures Outcome(parts, counters, state) ==
                SetOutcome(old(parts), old(state), list, startUs, endUs, sourceParts, filter, sweep, preserve, nowUs)
    {
      hide Listed;
      hide Windowed;
      hide Upserts;
      hide Swept;
      ListedMeans(Windowed(list, filter, startUs, endUs));
      var temp, eligible := StageSource(list, startUs, endUs, filter, stageBatch);
      var at := Stamp(nowUs, state.generation + 1);
      var queued := |QueuedPaths(parts, temp)|;
      parts := Upserts(parts, temp, at);
      var replaced := |ReplacedKeys(parts, temp)|;
      parts := Replacements(parts, temp, at);
      var deleted, aged := 0, 0;
      if sweep {
        deleted, aged := SweepUnlisted(ListedKeys(temp), startUs, at);
      }
      RecordState(at.generation, startUs, endUs, if sourceParts.Some? then sourceParts.value else |list|, eligible, preserve, nowUs);
      counters := Counters(at.generation, eligible, queued, replaced, deleted, aged);
    }

    method RecordReconcileError(error: string)
      modifies this`state
      ensures state == old(state).(lastError := Cut(error))
    {
      state := state.(lastError := Cut(error));
    }

    /** One claim: the first claimable row in the queue's order. */
    method ClaimNext(newest: bool, nowUs: int) returns (claim: Option<Key>)
      modifies this`parts
      ensures claim.None? ==> parts == old(parts) && forall k | k in parts :: !Claimable(parts[k], nowUs)
      ensures claim.Some? ==>
                var k := claim.value;
                && k in old(parts) && Claimable(old(parts)[k], nowUs)
                && (forall j | j in old(parts) && Claimable(old(parts)[j], nowUs) ::
                      GoesFirst(k, old(parts)[k], j, old(parts)[j], newest))
                && parts == old(parts)[k := ClaimedRow(old(parts)[k], nowUs)]
    {
      claim := None;
      var rest := parts.Keys;
      while rest != {}
        invariant rest <= parts.Keys && parts == old(parts)
        invariant claim.None? ==> forall k | k in parts && k !in rest :: !Claimable(parts[k], nowUs)
        invariant claim.Some? ==> claim.value in parts && Claimable(parts[claim.value], nowUs)
        invariant claim.Some? ==> forall j | j in parts && j !in rest && Claimable(parts[j], nowUs) ::
                                    !Precedes(j, parts[j], claim.value, parts[claim.value], newest)
        decreases |rest|
      {
        var k: Key :| k in rest;
        rest := rest - {k};
        if Claimable(parts[k], nowUs) {
          if claim.None? {
            QueueIsOrdered(k, parts[k], k, parts[k], newest);
            claim := Some(k);
          } else if Precedes(k, parts[k], claim.value, parts[claim.value], newest) {
            Displaced(parts, claim.value, k, newest);
            claim := Some(k);
          }
        }
      }
      if claim.Some? {
        forall j | j in parts && Claimable(parts[j], nowUs) ensures GoesFirst(claim.value, parts[claim.value], j, parts[j], newest) {
          QueueMeans(claim.value, parts[claim.value], j, parts[j], newest, nowUs);
        }
        hide GoesFirst;
        parts := parts[claim.value := ClaimedRow(parts[claim.value], nowUs)];
      }
    }

    method MarkReady(k: Key, rows: int, nowUs: int) returns (ok: bool)
      modifies this`parts
      ensures ok <==> k in old(parts) && Loadable(old(parts)[k].status)
      ensures parts == if ok then old(parts)[k := ReadyRow(old(parts)[k], rows, nowUs)] else old(parts)
    {
      ok := k in parts && Loadable(parts[k].status);
      if ok {
        parts := parts[k := ReadyRow(parts[k], rows, nowUs)];
      }
    }

    method ReleasePending(k: Key, reason: string, delay: int, nowUs: int) returns (ok: bool)
      modifies this`parts
      ensures ok <==> k in old(parts)
      ensures parts == if ok then old(parts)[k := ReleasedRow(old(parts)[k], reason, delay, nowUs)] else old(parts)
    {
      ok := k in parts;
      if ok {
        parts := parts[k := ReleasedRow(parts[k], reason, delay, nowUs)];
      }
    }

    method MarkFailed(k: Key, error: string, nowUs: int) returns (ok: bool)
      modifies this`parts
      ensures ok <==> k in old(parts)
      ensures parts == if ok then old(parts)[k := FailedRow(old(parts)[k], error, nowUs)] else old(parts)
    {
      ok := k in parts;
      if ok {
        parts := parts[k := FailedRow(parts[k], error, nowUs)];
      }
    }

    method MarkRetired(k: Key, nowUs: int) returns (ok: bool)
      modifies this`parts
      ensures ok <==> k in old(parts)
      ensures parts == if ok then old(parts)[k := RetiredRow(old(parts)[k], nowUs)] else old(parts)
    {
      ok := k in parts;
      if ok {
        parts := parts[k := RetiredRow(parts[k], nowUs)];
      }
    }

    method RecoverLoading(nowUs: int) returns (count: nat)
      modifies this`parts
      ensures parts == Recovered(old(parts), nowUs)
      ensures forall k | k in parts :: parts[k].status != Loading && parts[k].status != Deleting
      ensures count == |WithStatus(old(parts), Loading)| + |WithStatus(old(parts), Deleting)|
    {
      var loading := WithStatus(parts, Loading);
      parts := RecoveredKeys(parts, loading, nowUs);
      var deleting := WithStatus(parts, Deleting);
      RecoveredInTwo(old(parts), loading, deleting, nowUs);
      parts := RecoveredKeys(parts, deleting, nowUs);
      count := |loading| + |deleting|;
    }

    /** Removed or hidden paths, in chunks of 400. */
    method QueueMissingPaths(paths: set<string>, nowUs: int) returns (changed: nat)
      modifies this`parts
      ensures parts == MissingQueued(old(parts), paths, Stamp(nowUs, 0))
      ensures changed == |MissingKeys(old(parts), paths)|
    {
      hide *;
      changed := 0;
      var at := Stamp(nowUs, 0);
      var rest := paths - {""};
      NothingMissing(parts, paths, at);
      while rest != {}
        invariant rest <= paths - {""}
        invariant parts == MissingQueued(old(parts), paths - rest, at)
        invariant changed == |MissingKeys(old(parts), paths - rest)|
        decreases |rest|
      {
        var chunk := Chunk(rest);
        ghost var done := paths - rest;
        MissingInTwo(old(parts), done, chunk, at);
        assert done + chunk == paths - (rest - chunk);
        changed := changed + |MissingKeys(parts, chunk)|;
        parts := MissingQueued(parts, chunk, at);
        rest := rest - chunk;
      }
      assert paths - rest == paths;
    }

    // ---- serving gates ----

    /** The gate over all history: one unready row is enough to close it. */
    method GlobalCoverage(sourceComplete: bool, sourcePending: bool) returns (complete: bool, covered: int)
      ensures complete <==> GlobalGate(parts, state, sourceComplete, sourcePending)
      ensures covered == if complete then state.eligibleParts else 0
    {
      var unready := set k | k in parts && Unready(parts[k].status) :: k;
      complete := sourceComplete && !sourcePending && state.completedAtUs != 0 && state.lastError == "" && unready == {};
      assert forall k | k in parts && Unready(parts[k].status) :: k in unready;
      covered := if complete then state.eligibleParts else 0;
    }

    /** The gate of one window: unready rows that do not overlap it are no matter. */
    method WindowCoverage(sourceComplete: bool, pendingInWindow: bool, startUs: int, endUs: int)
      returns (complete: bool, covered: int)
      ensures complete <==> WindowGate(parts, state, sourceComplete, pendingInWindow, startUs, endUs)
      ensures covered == if complete then state.eligibleParts else 0
    {
      var unready := set k | k in parts && Unready(parts[k].status)
                             && parts[k].values.minUs <= endUs && parts[k].values.maxUs >= startUs :: k;
      complete := sourceComplete && !pendingInWindow && state.completedAtUs != 0 && state.lastError == "" && unready == {};
      assert forall k | k in parts && Unready(parts[k].status) && parts[k].values.minUs <= endUs
                        && parts[k].values.maxUs >= startUs :: k in unready;
      covered := if complete then state.eligibleParts else 0;
    }

    /** The rows of one path: its own, and any other that is not retired. */
    method PartCoverage(p: Source) returns (covered: bool)
      ensures covered <==> Covered(parts, p)
    {
      var current, stale := false, false;
      var all := set k | k in parts && k.path == p.path;
      var rows := all;
      while rows != {}
        invariant rows <= all
        invariant current <==> KeyOf(p) in all - rows && parts[KeyOf(p)].status == Ready
        invariant stale <==> exists k | k in all - rows :: k.identity != p.identity && parts[k].status != Retired
        decreases |rows|
      {
        var k: Key :| k in rows;
        ghost var seen := all - rows;
        rows := rows - {k};
        assert all - rows == seen + {k};
        if k.identity == p.identity {
          assert k == KeyOf(p);
          current := parts[k].status == Ready;
        } else if parts[k].status != Retired {
          stale := true;
        }
      }
      assert all - rows == all;
      covered := current && !stale;
    }

    /** The exact verifier over an explicit list of parts: the missing paths in the order of the list, and the rows of the
        others. */
    method Coverage(list: seq<Source>) returns (complete: bool, missing: seq<string>, coveredRows: nat)
      ensures missing == MissingPaths(parts, Listed(list), PathOrder(list))
      ensures coveredRows == CoveredRows(parts, Listed(list), PathOrder(list))
      ensures complete <==> state.completedAtUs != 0 && forall p | p in Listed(list) :: Covered(parts, Listed(list)[p])
    {
      var expected, paths := Listed(list), PathOrder(list);
      PathOrderMeans(list);
      hide Covered;
      hide Listed;
      hide PathOrder;
      missing, coveredRows := [], 0;
      var n := 0;
      while n < |paths|
        invariant 0 <= n <= |paths| && missing == MissingPaths(parts, expected, paths[..n])
        invariant coveredRows == CoveredRows(parts, expected, paths[..n])
      {
        var path := paths[n];
        assert paths[..n + 1] == paths[..n] + [path] && paths[..n + 1][..n] == paths[..n];
        var covered := PartCoverage(expected[path]);
        if covered {
          RowOfCovered(parts, expected[path]);
          coveredRows := coveredRows + parts[KeyOf(expected[path])].insertedRows;
        } else {
          missing := missing + [path];
        }
        n := n + 1;
      }
      assert paths[..|paths|] == paths;
      NothingIsMissing(parts, expected, paths);
      complete := state.completedAtUs != 0 && missing == [];
    }
  }

  /** The paths of a list as a dictionary keeps them: in the order in which each was first seen. */
  function PathOrder(list: seq<Source>): seq<string> {
    if list == [] then []
    else
      var front, p := PathOrder(list[..|list| - 1]), list[|list| - 1];
      if p.identity == "" || p.path in front then front else front + [p.path]
  }

  lemma {:induction false} PathOrderMeans(list: seq<Source>)
    ensures forall p :: p in PathOrder(list) <==> p in Listed(list)
  {
    if list != [] {
      PathOrderMeans(list[..|list| - 1]);
    }
  }

  function MissingPaths(t: Table, expected: map<string, Source>, paths: seq<string>): seq<string> {
    if paths == [] then []
    else
      var before, p := MissingPaths(t, expected, paths[..|paths| - 1]), paths[|paths| - 1];
      if p in expected && !Covered(t, expected[p]) then before + [p] else before
  }

  lemma {:induction false} NothingIsMissing(t: Table, expected: map<string, Source>, paths: seq<string>)
    ensures MissingPaths(t, expected, paths) == [] <==> forall p | p in paths && p in expected :: Covered(t, expected[p])
  {
    if paths != [] {
      NothingIsMissing(t, expected, paths[..|paths| - 1]);
      assert forall p :: p in paths <==> p in paths[..|paths| - 1] || p == paths[|paths| - 1];
      hide Covered;
    }
  }

  function CoveredRows(t: Table, expected: map<string, Source>, paths: seq<string>): nat {
    if paths == [] then 0
    else
      var before, p := CoveredRows(t, expected, paths[..|paths| - 1]), paths[|paths| - 1];
      if p in expected && KeyOf(expected[p]) in t && Covered(t, expected[p]) then before + t[KeyOf(expected[p])].insertedRows
      else before
  }

  lemma RowOfCovered(t: Table, p: Source)
    requires Covered(t, p)
    ensures KeyOf(p) in t
  {
  }

  /** What preceded the old claim's rivals still does when a row that precedes it takes its place. */
  lemma Displaced(t: Table, was: Key, now: Key, newest: bool)
    requires was in t && now in t && Precedes(now, t[now], was, t[was], newest)
    ensures forall j | j in t && !Precedes(j, t[j], was, t[was], newest) :: !Precedes(j, t[j], now, t[now], newest)
    ensures !Precedes(was, t[was], now, t[now], newest) && !Precedes(now, t[now], now, t[now], newest)
  {
    forall j | j in t && !Precedes(j, t[j], was, t[was], newest) ensures !Precedes(j, t[j], now, t[now], newest) {
      if Precedes(j, t[j], now, t[now], newest) {
        PrecedesIsTransitive(j, t[j], now, t[now], was, t[was], newest);
      }
    }
    QueueIsOrdered(was, t[was], now, t[now], newest);
    QueueIsOrdered(now, t[now], now, t[now], newest);
  }

  lemma QueuesByMirror(t: Table, rows: map<Key, Mirror>, p: Source)
    requires rows == MirrorOf(t)
    ensures (KeyOf(p) !in rows || !ActiveLoad(rows[KeyOf(p)].status)) <==> Queues(t, p)
  {
  }

  lemma StepInTwo(t: Table, p: Source, at: Stamp)
    ensures var u := t[KeyOf(p) := Upserted(t, p, at)];
            && PartStep(t, p, at) == WithReplaced(u, OtherKeys(u, p), at)
            && OtherKeys(u, p) == OtherKeys(t, p)
  {
  }

  function PathsOf(t: Table): set<string> { set k | k in t :: k.path }

  function IdsOfPath(t: Table, path: string): set<string> { set k | k in t && k.path == path :: k.identity }

  function IdsOf(t: Table): (ids: map<string, set<string>>)
    ensures Indexes(ids, t)
  {
    var ids := map path | path in PathsOf(t) :: IdsOfPath(t, path);
    assert forall k: Key :: k == Key(k.path, k.identity);
    ids
  }

  function WithSwept(t: Table, keys: set<Key>, at: Stamp): Table {
    map k | k in t :: if k in keys then SweptRow(t[k], at) else t[k]
  }

  function WithAged(t: Table, keys: set<Key>, at: Stamp): Table {
    map k | k in t :: if k in keys then AgedRow(t[k], at) else t[k]
  }

  lemma SweptInTwo(t: Table, listed: set<Key>, startUs: int, at: Stamp)
    ensures WithAged(WithSwept(t, DeletedKeys(t, listed, startUs), at), AgedKeys(t, listed, startUs), at) ==
              Swept(t, listed, startUs, at)
  {
  }

  lemma AgedAfterSwept(t: Table, listed: set<Key>, startUs: int, at: Stamp)
    ensures AgedKeys(WithSwept(t, DeletedKeys(t, listed, startUs), at), listed, startUs) == AgedKeys(t, listed, startUs)
  {
    var u := WithSwept(t, DeletedKeys(t, listed, startUs), at);
    forall k: Key ensures k in AgedKeys(u, listed, startUs) <==> k in AgedKeys(t, listed, startUs) {
      assert k in u <==> k in t;
    }
  }

  /** Replacing the rows of `others` in table and mirror keeps the two equal. */
  lemma MirrorFollows(t: Table, keys: set<Key>, at: Stamp, rows: map<Key, Mirror>, newRows: map<Key, Mirror>, p: Source,
                      others: set<string>)
    requires rows == MirrorOf(t) && forall k | k in t :: k in keys <==> k.path == p.path && k.identity in others
    requires newRows == map k | k in rows ::
                          if k.path == p.path && k.identity in others && rows[k].status != Deleting
                          then rows[k].(status := DeletePending) else rows[k]
    ensures newRows == MirrorOf(WithReplaced(t, keys, at)) && WithReplaced(t, keys, at).Keys == t.Keys
  {
  }

  function WithReplaced(t: Table, keys: set<Key>, at: Stamp): Table {
    map k | k in t :: if k in keys then Replaced(t[k], at) else t[k]
  }

  lemma OthersAgree(t: Table, ids: map<string, set<string>>, p: Source, others: set<string>)
    requires Indexes(ids, t)
    requires forall o :: o in others <==>
               o in IdsAt(ids, p.path) && o != p.identity && Key(p.path, o) in t && t[Key(p.path, o)].status != Retired
    ensures forall k :: k in OtherKeys(t, p) <==> k.path == p.path && k.identity in others
    ensures others == {} <==> OtherKeys(t, p) == {}
  {
    forall k: Key ensures k in OtherKeys(t, p) <==> k.path == p.path && k.identity in others {
      assert k == Key(k.path, k.identity);
    }
    if others != {} {
      var o :| o in others;
      assert Key(p.path, o) in OtherKeys(t, p);
    }
  }

  function WithStatus(t: Table, s: Status): set<Key> { set k | k in t && t[k].status == s :: k }

  function RecoveredKeys(t: Table, keys: set<Key>, nowUs: int): Table {
    map k | k in t :: if k in keys then RecoveredRow(t[k], nowUs) else t[k]
  }

  /** The two updates of a recovery: interrupted loads, then interrupted deletions. */
  lemma RecoveredInTwo(t: Table, loading: set<Key>, deleting: set<Key>, nowUs: int)
    requires loading == WithStatus(t, Loading) && deleting == WithStatus(RecoveredKeys(t, loading, nowUs), Deleting)
    ensures deleting == WithStatus(t, Deleting)
    ensures RecoveredKeys(RecoveredKeys(t, loading, nowUs), deleting, nowUs) == Recovered(t, nowUs)
  {
    var u := RecoveredKeys(t, loading, nowUs);
    forall k: Key ensures k in WithStatus(u, Deleting) <==> k in WithStatus(t, Deleting) {
      assert k in u <==> k in t;
    }
  }

  lemma NothingMissing(t: Table, paths: set<string>, at: Stamp)
    ensures MissingQueued(t, paths - (paths - {""}), at) == t && MissingKeys(t, paths - (paths - {""})) == {}
  {
  }

  method Chunk(rest: set<string>) returns (chunk: set<string>)
    requires rest != {}
    ensures chunk != {} && chunk <= rest && |chunk| <= 400
  {
    chunk := {};
    var left := rest;
    while left != {} && |chunk| < 400
      invariant chunk == rest - left && left <= rest
      invariant |chunk| <= 400
      invariant chunk == {} ==> left == rest
      decreases |left|
    {
      var p: string :| p in left;
      chunk, left := chunk + {p}, left - {p};
    }
  }
}
