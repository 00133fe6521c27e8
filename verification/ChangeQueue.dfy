/** `reconcile_pending_source_changes` (app/clickhouse_change_queue.py:9-75) over the two stores it joins. */
module ChangeQueue {
  import opened Select
  import opened Manifest
  import opened ManifestStore
  import opened Serving

  /** One row of `pending_clickhouse_changes`. */
  datatype Change = Change(path: string, version: nat, seen: Option<SourcePart>)

  predicate DistinctChanges(changes: seq<Change>) {
    forall i, j | 0 <= i < j < |changes| :: changes[i].path != changes[j].path
  }

  /** The page as the protocol sees it. */
  function PageMap(changes: seq<Change>): map<string, Entry> {
    if changes == [] then map[]
    else
      var c := changes[|changes| - 1];
      PageMap(changes[..|changes| - 1])[c.path := Entry(c.version, c.seen)]
  }

  lemma {:induction false} NotOnPage(changes: seq<Change>, path: string)
    requires forall c | c in changes :: c.path != path
    ensures path !in PageMap(changes)
  {
    if changes != [] {
      NotOnPage(changes[..|changes| - 1], path);
    }
  }

  /** The source side: the pending changes of the metadata store. */
  class PendingChanges {
    var queue: map<string, nat>

    /** One transaction of DELETEs, each by path and version. */
    method Acknowledge(acks: map<string, nat>)
      modifies this
      ensures queue == map p | p in old(queue) && !(p in acks && acks[p] == old(queue)[p]) :: old(queue)[p]
    {
      queue := map p | p in queue && !(p in acks && acks[p] == queue[p]) :: queue[p];
    }
  }

  /** Sorts a page into parts to load, paths to delete and versions to acknowledge; the rest is deferred. */
  method SplitPage(changes: seq<Change>) returns (eligible: seq<Source>, removed: set<string>, acks: map<string, nat>,
                                                  deferred: nat)
    requires DistinctChanges(changes)
    ensures DistinctPaths(eligible) && Listed(eligible) == EligibleOf(PageMap(changes))
    ensures eligible == [] <==> EligibleOf(PageMap(changes)) == map[]
    ensures removed == RemovedOf(PageMap(changes)) && acks == Acked(PageMap(changes))
    ensures deferred == |Deferred(PageMap(changes))|
  {
    eligible, removed, acks, deferred := [], {}, map[], 0;
    var i := 0;
    while i < |changes|
      invariant 0 <= i <= |changes|
      invariant DistinctPaths(eligible) && Listed(eligible) == EligibleOf(PageMap(changes[..i]))
      invariant forall e | e in eligible :: e.path in PageMap(changes[..i])
      invariant eligible == [] <==> Listed(eligible) == map[]
      invariant removed == RemovedOf(PageMap(changes[..i])) && acks == Acked(PageMap(changes[..i]))
      invariant deferred == |Deferred(PageMap(changes[..i]))|
    {
      var c := changes[i];
      assert changes[..i + 1][..i] == changes[..i];
      NotOnPage(changes[..i], c.path);
      ghost var page := PageMap(changes[..i]);
      EligibleGrows(page, c);
      RemovedGrows(page, c);
      AckedGrows(page, c);
      hide EligibleOf;
      hide RemovedOf;
      hide Acked;
      hide Deferred;
      hide Listed;
      hide DistinctPaths;
      if Visible(c.seen) {
        if c.seen.value.archived && c.seen.value.identity != "" {
          ListedGrows(eligible, AsSource(c.path, c.seen.value));
          eligible := eligible + [AsSource(c.path, c.seen.value)];
          acks := acks[c.path := c.version];
        } else {
          deferred := deferred + 1;
        }
      } else {
        removed := removed + {c.path};
        acks := acks[c.path := c.version];
      }
      i := i + 1;
    }
    assert changes[..|changes|] == changes;
  }

  lemma EmptyPage()
    ensures Listed([]) == map[]
  {
  }

  /** Manifest first, then the acknowledgements; the result is what the protocol's three steps make of the page. */
  method ReconcilePendingSourceChanges(pending: PendingChanges, manifest: ClickHouseManifest, changes: seq<Change>, nowUs: int)
    returns (deferred: nat)
    requires DistinctChanges(changes)
    modifies pending, manifest
    ensures var page := PageMap(changes);
            var at := Stamp(nowUs, old(manifest.state.generation) + 1);
            && manifest.parts ==
                 MissingQueued(SetBased(old(manifest.parts), EligibleOf(page), at), RemovedOf(page), Stamp(nowUs, 0))
            && pending.queue == Unacknowledged(old(pending.queue), page)
            && deferred == |Deferred(page)|
            && manifest.state ==
                 (if EligibleOf(page) == map[] then old(manifest.state)
                  else old(manifest.state).(generation := at.generation, lastError := ""))
  {
    hide PageMap;
    hide SetBased;
    hide MissingQueued;
    hide EligibleOf;
    hide RemovedOf;
    hide Listed;
    hide DistinctPaths;
    hide Deferred;
    hide LoopReconcile;
    ghost var page := PageMap(changes);
    ghost var at := Stamp(nowUs, manifest.state.generation + 1);
    var eligible, removed, acks;
    eligible, removed, acks, deferred := SplitPage(changes);
    if eligible != [] {
      LoopOverPage(manifest.parts, eligible, at);
      // without a sweep and with the reconcile state preserved, the time bounds are not looked at
      var _ := manifest.Reconcile(eligible, 0, 0, None, false, true, nowUs);
    } else {
      EmptyPage();
      NothingListed(manifest.parts, at);
    }
    var _ := manifest.QueueMissingPaths(removed, nowUs);
    pending.Acknowledge(acks);
  }

  /** What an acknowledgement of the page leaves queued: a path changed since, or deferred, stays. */
  function Unacknowledged(queue: map<string, nat>, page: map<string, Entry>): map<string, nat> {
    map p | p in queue && !(p in page && Acknowledges(page[p]) && queue[p] == page[p].version) :: queue[p]
  }

  function Acked(page: map<string, Entry>): map<string, nat> {
    map p | p in page && Acknowledges(page[p]) :: page[p].version
  }

  function Deferred(page: map<string, Entry>): set<string> { set p | p in page && !Acknowledges(page[p]) }

  lemma EligibleGrows(page: map<string, Entry>, c: Change)
    requires c.path !in page
    ensures EligibleOf(page[c.path := Entry(c.version, c.seen)]) ==
              if Eligible(c.seen) then EligibleOf(page)[c.path := AsSource(c.path, c.seen.value)] else EligibleOf(page)
  {
  }

  lemma RemovedGrows(page: map<string, Entry>, c: Change)
    requires c.path !in page
    ensures RemovedOf(page[c.path := Entry(c.version, c.seen)]) == RemovedOf(page) + (if Visible(c.seen) then {} else {c.path})
  {
  }

  lemma AckedGrows(page: map<string, Entry>, c: Change)
    requires c.path !in page
    ensures var more := page[c.path := Entry(c.version, c.seen)];
            var stays := Visible(c.seen) && !Eligible(c.seen);
            && Acked(more) == (if stays then Acked(page) else Acked(page)[c.path := c.version])
            && |Deferred(more)| == |Deferred(page)| + (if stays then 1 else 0)
  {
    hide Visible;
    hide Eligible;
    var e := Entry(c.version, c.seen);
    assert Deferred(page[c.path := e]) == Deferred(page) + (if Acknowledges(e) then {} else {c.path});
    assert c.path !in Deferred(page);
  }

  lemma ListedGrows(parts: seq<Source>, p: Source)
    requires DistinctPaths(parts) && p.identity != ""
    requires forall e | e in parts :: e.path != p.path
    ensures DistinctPaths(parts + [p]) && Listed(parts + [p]) == Listed(parts)[p.path := p]
  {
    assert (parts + [p])[..|parts|] == parts;
  }

  /** The row loop over the page's eligible parts, without a sweep. */
  lemma LoopOverPage(t: Table, eligible: seq<Source>, at: Stamp)
    requires DistinctPaths(eligible)
    ensures WellKeyed(Listed(eligible))
    ensures LoopReconcile(t, eligible, 0, false, at).0 == SetBased(t, Listed(eligible), at)
  {
    hide Loop;
    hide SetBased;
    LoopIsSetBased(t, eligible, at);
  }
}
