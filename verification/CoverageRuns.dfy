/** `coverage_runs` of app/binlog_rows.py:507-590: which time is covered by ingested files, and why the rest is not. */
module CoverageRuns {
  import opened Select
  import opened Intervals

  const TOLERANCE: nat := 2_000_000
  const POINT_SPAN: nat := 1_000_000

  datatype State =
    | Discovered | DownloadFailed | Downloading | Downloaded | Parsing | Stored   // UNFINISHED_STATES
    | Skipped | Superseded                                                       // SETTLED_STATES
    | Unavailable | Other

  datatype File = File(id: string, lo: int, hi: int, state: State, host: string)

  datatype Reason = SourceMissing | Collecting | Pending | SourceUnlisted | NoData | NotCollectedYet

  datatype Gap = Gap(start: int, end: int, reason: Reason, files: nat)

  predicate Settled(f: File) { f.state == Skipped || f.state == Superseded }

  predicate Unfinished(f: File) { f.state in {Discovered, DownloadFailed, Downloading, Downloaded, Parsing, Stored} }

  /** `_span`: a file with an empty span covers one second. */
  function SpanOf(f: File): (s: Span)
    ensures s.lo < s.hi
  {
    if f.hi > f.lo then Span(f.lo, f.hi) else Span(f.lo, f.lo + POINT_SPAN)
  }

  function ReasonOf(f: File): Reason {
    if f.state == Unavailable then SourceMissing else if Unfinished(f) then Collecting else Pending
  }

  // ---- what coverage means ----

  function Live(files: seq<File>): seq<File> { Keep(files, (f: File) => !Settled(f)) }

  function Good(files: seq<File>, ingested: set<string>): seq<File> {
    Keep(Live(files), (f: File) => f.id in ingested)
  }

  function Elsewhere(files: seq<File>, ingested: set<string>, host: string): seq<File> {
    Keep(Good(files, ingested), (f: File) => f.host != host)
  }

  function Spans(files: seq<File>): seq<Span> { if files == [] then [] else [SpanOf(files[0])] + Spans(files[1..]) }

  lemma {:induction false} SpansMembers(files: seq<File>)
    ensures Proper(Spans(files)) && |Spans(files)| == |files|
    ensures forall f | f in files :: SpanOf(f) in Spans(files)
    ensures forall s | s in Spans(files) :: exists f :: f in files && SpanOf(f) == s
  {
    if files != [] {
      SpansMembers(files[1..]);
      assert files[0] in files;
      assert forall f :: f in files <==> f == files[0] || f in files[1..];
    }
  }

  /** A live file that is not ingested, at an instant of its span that no other host's ingested files bridge. */
  predicate Missing(files: seq<File>, ingested: set<string>, f: File, x: int) {
    && f in files && !Settled(f) && f.id !in ingested && In(SpanOf(f), x)
    && !Bridged(Spans(Elsewhere(files, ingested, f.host)), TOLERANCE, x)
  }

  /** An instant between two live files that none of them bridges. */
  predicate Unlisted(files: seq<File>, x: int) {
    && !Bridged(Spans(Live(files)), TOLERANCE, x)
    && (exists f | f in Live(files) :: SpanOf(f).hi <= x)
    && exists f | f in Live(files) :: x < SpanOf(f).lo
  }

  predicate Lacking(files: seq<File>, ingested: set<string>, x: int) {
    (exists f | f in files :: Missing(files, ingested, f, x)) || Unlisted(files, x)
  }

  /** Covered: bridged by ingested files, and in no gap. */
  predicate Covered(files: seq<File>, ingested: set<string>, x: int) {
    Bridged(Spans(Good(files, ingested)), TOLERANCE, x) && !Lacking(files, ingested, x)
  }

  // ---- laws of coverage ----

  lemma LiveMembers(files: seq<File>, ingested: set<string>, host: string)
    ensures forall f :: f in Live(files) <==> f in files && !Settled(f)
    ensures forall f :: f in Good(files, ingested) <==> f in files && !Settled(f) && f.id in ingested
    ensures forall f :: f in Elsewhere(files, ingested, host) <==>
                          f in files && !Settled(f) && f.id in ingested && f.host != host
  {
    KeepMembers(files, (f: File) => !Settled(f));
    KeepMembers(Live(files), (f: File) => f.id in ingested);
    KeepMembers(Good(files, ingested), (f: File) => f.host != host);
  }

  lemma SpansSubset(a: seq<File>, b: seq<File>)
    requires forall f | f in a :: f in b
    ensures forall s | s in Spans(a) :: s in Spans(b)
  {
    SpansMembers(a);
    SpansMembers(b);
    forall s | s in Spans(a) ensures s in Spans(b) {
      var f :| f in a && SpanOf(f) == s;
      assert f in b;
    }
  }

  /** Every instant of a live file's span is covered or in a gap. */
  lemma EveryLiveInstantIsAccountedFor(files: seq<File>, ingested: set<string>, f: File, x: int)
    requires f in files && !Settled(f) && In(SpanOf(f), x)
    ensures Covered(files, ingested, x) || Lacking(files, ingested, x)
  {
    var good := Good(files, ingested);
    LiveMembers(files, ingested, f.host);
    if f.id in ingested {
      SpansMembers(good);
      assert f in good;
      assert SpanOf(f) in Spans(good);
    } else if !Missing(files, ingested, f, x) {
      SpansSubset(Elsewhere(files, ingested, f.host), good);
      UnionMonotone(Spans(Elsewhere(files, ingested, f.host)), Spans(good), TOLERANCE, x);
    }
  }

  /** A covered instant of a file that is not ingested is bridged by other hosts' ingested files. */
  lemma CoveredByAnotherHost(files: seq<File>, ingested: set<string>, f: File, x: int)
    requires f in files && !Settled(f) && f.id !in ingested && In(SpanOf(f), x) && Covered(files, ingested, x)
    ensures Bridged(Spans(Elsewhere(files, ingested, f.host)), TOLERANCE, x)
  {
    assert !Missing(files, ingested, f, x);
  }

  /** Between the first and the last file, an instant that is neither covered nor in a gap lies in a hole between two
      files that is no longer than the tolerance. */
  lemma UnclassifiedIsAShortHole(files: seq<File>, ingested: set<string>, x: int)
    requires !Covered(files, ingested, x) && !Lacking(files, ingested, x)
    requires exists f | f in Live(files) :: SpanOf(f).lo <= x
    requires exists f | f in Live(files) :: x < SpanOf(f).hi
    ensures exists a, b | a in Live(files) && b in Live(files) ::
              SpanOf(a).hi <= x < SpanOf(b).lo && SpanOf(b).lo <= SpanOf(a).hi + TOLERANCE
  {
    hide Spans;
    hide Live;
    hide Lacking;
    hide Covered;
    hide Bridged;
    hide Within;
    LiveIsOutside(files, ingested, x);
    BetweenFilesIsBridged(files, ingested, x);
    BridgedByFiles(Live(files), x);
  }

  lemma LiveIsOutside(files: seq<File>, ingested: set<string>, x: int)
    requires !Covered(files, ingested, x) && !Lacking(files, ingested, x)
    ensures !Within(Spans(Live(files)), x)
  {
    hide Lacking;
    hide Covered;
    SpansMembers(Live(files));
    LiveMembers(files, ingested, "");
    hide Spans;
    hide Live;
    forall f | f in Live(files) ensures !In(SpanOf(f), x) {
      if In(SpanOf(f), x) {
        EveryLiveInstantIsAccountedFor(files, ingested, f, x);
      }
    }
  }

  lemma BridgedByFiles(live: seq<File>, x: int)
    requires Bridged(Spans(live), TOLERANCE, x) && !Within(Spans(live), x)
    ensures exists a, b | a in live && b in live ::
              SpanOf(a).hi <= x < SpanOf(b).lo && SpanOf(b).lo <= SpanOf(a).hi + TOLERANCE
  {
    SpansMembers(live);
    hide Spans;
    var s, t :| s in Spans(live) && t in Spans(live) && s.hi <= x < t.lo && t.lo <= s.hi + TOLERANCE;
    var a :| a in live && SpanOf(a) == s;
    var b :| b in live && SpanOf(b) == t;
  }

  lemma BetweenFilesIsBridged(files: seq<File>, ingested: set<string>, x: int)
    requires !Lacking(files, ingested, x) && !Within(Spans(Live(files)), x)
    requires exists f | f in Live(files) :: SpanOf(f).lo <= x
    requires exists f | f in Live(files) :: x < SpanOf(f).hi
    ensures Bridged(Spans(Live(files)), TOLERANCE, x)
  {
    var live := Live(files);
    SpansMembers(live);
    assert !Unlisted(files, x);
    hide Lacking;
    var f :| f in live && SpanOf(f).lo <= x;
    var g :| g in live && x < SpanOf(g).hi;
    hide Live;
    assert !In(SpanOf(f), x) && !In(SpanOf(g), x);
  }

  /** Ingesting more files never uncovers an instant. */
  lemma CoverageMonotone(files: seq<File>, ingested: set<string>, more: set<string>, x: int)
    requires ingested <= more && Covered(files, ingested, x)
    ensures Covered(files, more, x)
  {
    LiveMembers(files, ingested, "");
    LiveMembers(files, more, "");
    SpansSubset(Good(files, ingested), Good(files, more));
    UnionMonotone(Spans(Good(files, ingested)), Spans(Good(files, more)), TOLERANCE, x);
    forall f | f in files ensures !Missing(files, more, f, x) {
      if Missing(files, more, f, x) {
        LiveMembers(files, ingested, f.host);
        LiveMembers(files, more, f.host);
        SpansSubset(Elsewhere(files, ingested, f.host), Elsewhere(files, more, f.host));
        if Bridged(Spans(Elsewhere(files, ingested, f.host)), TOLERANCE, x) {
          UnionMonotone(Spans(Elsewhere(files, ingested, f.host)), Spans(Elsewhere(files, more, f.host)), TOLERANCE, x);
        }
      }
    }
  }

  // ---- the gaps, by reason ----

  predicate Expired(files: seq<File>, before: Option<int>, x: int) {
    before.Some? && exists f | f in Live(files) :: x < SpanOf(f).lo <= before.value
  }

  predicate Gapped(files: seq<File>, ingested: set<string>, before: Option<int>, reason: Reason, x: int) {
    || (exists f | f in files && ReasonOf(f) == reason :: Missing(files, ingested, f, x))
    || (Unlisted(files, x) && reason == if Expired(files, before, x) then SourceMissing else SourceUnlisted)
  }

  predicate InGap(gaps: seq<Gap>, reason: Reason, x: int) {
    exists g | g in gaps && g.reason == reason :: g.start <= x < g.end
  }

  predicate RealGaps(gaps: seq<Gap>) { forall g | g in gaps :: g.start < g.end }

  function FileTotal(gaps: seq<Gap>): nat { if gaps == [] then 0 else FileTotal(gaps[..|gaps| - 1]) + gaps[|gaps| - 1].files }

  lemma InGapConcat(a: seq<Gap>, b: seq<Gap>, reason: Reason, x: int)
    ensures InGap(a + b, reason, x) <==> InGap(a, reason, x) || InGap(b, reason, x)
  {
    assert forall g :: g in a + b <==> g in a || g in b;
  }

  /** Pieces of one missing file. */
  function Pieces(spans: seq<Span>, reason: Reason): seq<Gap> {
    seq(|spans|, i requires 0 <= i < |spans| => Gap(spans[i].lo, spans[i].hi, reason, 1))
  }

  lemma PiecesMean(spans: seq<Span>, reason: Reason, r: Reason, x: int)
    ensures InGap(Pieces(spans, reason), r, x) <==> r == reason && Within(spans, x)
  {
    var pieces := Pieces(spans, reason);
    if r == reason && Within(spans, x) {
      var s :| s in spans && In(s, x);
      var i :| 0 <= i < |spans| && spans[i] == s;
      assert pieces[i] in pieces && pieces[i].start <= x < pieces[i].end;
    }
    if InGap(pieces, r, x) {
      var g :| g in pieces && g.reason == r && g.start <= x < g.end;
      var i :| 0 <= i < |spans| && pieces[i] == g;
      assert spans[i] in spans && In(spans[i], x);
    }
  }

  /** What the gaps of the first files mean. */
  predicate MissingAmong(done: seq<File>, files: seq<File>, ingested: set<string>, reason: Reason, x: int) {
    exists f | f in done && ReasonOf(f) == reason :: Missing(files, ingested, f, x)
  }

  /** The loop over the files that are not ingested, with the other hosts' runs cached by host. */
  method MissingGaps(ordered: seq<File>, files: seq<File>, ingested: set<string>) returns (raw: seq<Gap>)
    requires forall f | f in ordered :: f in files && !Settled(f)
    ensures RealGaps(raw)
    ensures forall r, x :: InGap(raw, r, x) <==> MissingAmong(ordered, files, ingested, r, x)
  {
    raw := [];
    var cache: map<string, seq<Span>> := map[];
    var n := 0;
    while n < |ordered|
      invariant 0 <= n <= |ordered|
      invariant RealGaps(raw)
      invariant forall r, x :: InGap(raw, r, x) <==> MissingAmong(ordered[..n], files, ingested, r, x)
      invariant forall h | h in cache :: CacheEntry(files, ingested, h, cache[h])
    {
      var f := ordered[n];
      assert f in ordered;
      assert ordered[..n + 1] == ordered[..n] + [f];
      ghost var before := raw;
      if f.id !in ingested {
        if f.host !in cache {
          SpansMembers(Elsewhere(files, ingested, f.host));
          var others := Union(Spans(Elsewhere(files, ingested, f.host)), TOLERANCE);
          cache := cache[f.host := others];
        }
        assert CacheEntry(files, ingested, f.host, cache[f.host]);
        assert Proper([SpanOf(f)]);
        var left := Subtract([SpanOf(f)], cache[f.host]);
        raw := raw + Pieces(left, ReasonOf(f));
        forall r, x ensures InGap(raw, r, x) <==> MissingAmong(ordered[..n + 1], files, ingested, r, x) {
          PieceStep(ordered[..n], f, files, ingested, cache[f.host], left, before, r, x);
        }
      } else {
        forall r, x ensures InGap(raw, r, x) <==> MissingAmong(ordered[..n + 1], files, ingested, r, x) {
          assert !Missing(files, ingested, f, x);
          assert forall g :: g in ordered[..n + 1] <==> g in ordered[..n] || g == f;
        }
      }
      hide InGap;
      hide MissingAmong;
      hide CacheEntry;
      n := n + 1;
    }
    assert ordered[..|ordered|] == ordered;
  }

  ghost predicate CacheEntry(files: seq<File>, ingested: set<string>, host: string, others: seq<Span>) {
    && Apart(others, TOLERANCE) && Proper(others)
    && forall x :: Within(others, x) <==> Bridged(Spans(Elsewhere(files, ingested, host)), TOLERANCE, x)
  }

  lemma PieceStep(done: seq<File>, f: File, files: seq<File>, ingested: set<string>, others: seq<Span>, left: seq<Span>,
                  raw: seq<Gap>, r: Reason, x: int)
    requires f in files && !Settled(f) && f.id !in ingested && CacheEntry(files, ingested, f.host, others)
    requires forall y :: Within(left, y) <==> Within([SpanOf(f)], y) && !Within(others, y)
    requires InGap(raw, r, x) <==> MissingAmong(done, files, ingested, r, x)
    ensures InGap(raw + Pieces(left, ReasonOf(f)), r, x) <==> MissingAmong(done + [f], files, ingested, r, x)
  {
    InGapConcat(raw, Pieces(left, ReasonOf(f)), r, x);
    PiecesMean(left, ReasonOf(f), r, x);
    assert Within([SpanOf(f)], x) <==> In(SpanOf(f), x) by {
      assert SpanOf(f) in [SpanOf(f)];
    }
    assert Missing(files, ingested, f, x) <==> Within(left, x);
    assert forall g :: g in done + [f] <==> g in done || g == f;
    hide Missing;
    hide InGap;
  }

  // ---- time between the registered files ----

  /** The runs of all live files. */
  ghost predicate Registered(files: seq<File>, runs: seq<Span>) {
    && Apart(runs, TOLERANCE) && Proper(runs)
    && forall x :: Within(runs, x) <==> Bridged(Spans(Live(files)), TOLERANCE, x)
  }

  predicate InHole(runs: seq<Span>, i: nat, x: int)
    requires i + 1 < |runs|
  {
    runs[i].hi <= x < runs[i + 1].lo
  }

  lemma HoleIsOutside(runs: seq<Span>, i: nat, x: int)
    requires Apart(runs, TOLERANCE) && Proper(runs) && i + 1 < |runs| && InHole(runs, i, x)
    ensures !Within(runs, x)
  {
    forall j | 0 <= j < |runs| ensures !In(runs[j], x) {
      assert runs[j] in runs;
      assert j < i || j == i || j == i + 1 || j > i + 1;
    }
  }

  /** A file ends before any instant of a hole. */
  lemma FileBefore(spans: seq<Span>, y: int, x: int)
    requires Bridged(spans, TOLERANCE, y) && !Bridged(spans, TOLERANCE, x) && y < x && Proper(spans)
    ensures exists s | s in spans :: s.hi <= x
  {
    if Within(spans, y) {
      var s :| s in spans && In(s, y);
      assert !In(s, x);
    }
  }

  /** A file starts after any instant of a hole, no later than the next run. */
  lemma FileAfter(spans: seq<Span>, y: int, x: int)
    requires Bridged(spans, TOLERANCE, y) && !Bridged(spans, TOLERANCE, x) && x < y && Proper(spans)
    ensures exists s | s in spans :: x < s.lo <= y
  {
    if Within(spans, y) {
      var s :| s in spans && In(s, y);
      assert !In(s, x);
    } else {
      var a, b :| a in spans && b in spans && a.hi <= y < b.lo && b.lo <= a.hi + TOLERANCE;
      assert !In(a, x);
      assert !(a.hi <= x < b.lo);
    }
  }

  /** Both neighbours of a hole are bridged, the hole is not. */
  lemma AroundHole(spans: seq<Span>, runs: seq<Span>, i: nat, x: int)
    requires Apart(runs, TOLERANCE) && Proper(runs) && i + 1 < |runs| && InHole(runs, i, x)
    requires forall y :: Within(runs, y) <==> Bridged(spans, TOLERANCE, y)
    ensures !Bridged(spans, TOLERANCE, x)
    ensures Bridged(spans, TOLERANCE, runs[i].hi - 1) && Bridged(spans, TOLERANCE, runs[i + 1].lo)
    ensures runs[i].hi - 1 < x
  {
    HoleIsOutside(runs, i, x);
    assert runs[i] in runs && runs[i + 1] in runs;
    assert In(runs[i], runs[i].hi - 1) && In(runs[i + 1], runs[i + 1].lo);
    hide Bridged;
  }

  lemma HoleIsUnlisted(files: seq<File>, runs: seq<Span>, i: nat, before: Option<int>, x: int)
    requires Registered(files, runs) && i + 1 < |runs| && InHole(runs, i, x)
    ensures Unlisted(files, x)
    ensures Expired(files, before, x) <==> before.Some? && runs[i + 1].lo <= before.value
  {
    var live := Live(files);
    var spans := Spans(live);
    SpansMembers(live);
    hide Bridged;
    hide Within;
    hide Live;
    hide Spans;
    AroundHole(spans, runs, i, x);
    FileBefore(spans, runs[i].hi - 1, x);
    FileAfter(spans, runs[i + 1].lo, x);
    var s :| s in spans && s.hi <= x;
    var t :| t in spans && x < t.lo <= runs[i + 1].lo;
    var f :| f in live && SpanOf(f) == s;
    var g :| g in live && SpanOf(g) == t;
    if Expired(files, before, x) {
      var h :| h in live && x < SpanOf(h).lo <= before.value;
      RunOf(runs, spans, SpanOf(h), i, x);
    }
  }

  /** The run a later file belongs to is no earlier than the next one. */
  lemma RunOf(runs: seq<Span>, spans: seq<Span>, s: Span, i: nat, x: int)
    requires Apart(runs, TOLERANCE) && Proper(runs) && i + 1 < |runs| && InHole(runs, i, x)
    requires s in spans && s.lo < s.hi && x < s.lo
    requires Within(runs, s.lo) <==> Bridged(spans, TOLERANCE, s.lo)
    ensures runs[i + 1].lo <= s.lo
  {
    assert In(s, s.lo);
    var r :| r in runs && In(r, s.lo);
    var j :| 0 <= j < |runs| && runs[j] == r;
    forall k | 0 <= k <= i ensures runs[k].hi <= runs[i].hi {
      if k < i {
        assert runs[i] in runs;
      }
    }
  }

  /** An instant after one run and before another lies in one of the holes. */
  lemma {:induction false} FindHole(runs: seq<Span>, j: nat, k: nat, x: int) returns (i: nat)
    requires Apart(runs, TOLERANCE) && Proper(runs) && !Within(runs, x)
    requires j < k < |runs| && runs[j].hi <= x < runs[k].lo
    ensures i + 1 < |runs| && InHole(runs, i, x)
    decreases k - j
  {
    if j + 1 == k {
      i := j;
    } else {
      assert runs[j + 1] in runs && !In(runs[j + 1], x);
      if runs[j + 1].hi <= x {
        i := FindHole(runs, j + 1, k, x);
      } else {
        i := j;
      }
    }
  }

  lemma RunAround(runs: seq<Span>, y: int) returns (j: nat)
    requires Within(runs, y)
    ensures j < |runs| && In(runs[j], y)
  {
    var r :| r in runs && In(r, y);
    j :| 0 <= j < |runs| && runs[j] == r;
  }

  lemma SpanIsBridged(spans: seq<Span>, s: Span, y: int)
    requires s in spans && In(s, y)
    ensures Bridged(spans, TOLERANCE, y)
  {
  }

  lemma UnlistedIsInHole(files: seq<File>, runs: seq<Span>, x: int) returns (i: nat)
    requires Registered(files, runs) && Unlisted(files, x)
    ensures i + 1 < |runs| && InHole(runs, i, x)
  {
    hide Bridged;
    hide Spans;
    hide Live;
    var live := Live(files);
    var spans := Spans(live);
    SpansMembers(live);
    var f :| f in live && SpanOf(f).hi <= x;
    var g :| g in live && x < SpanOf(g).lo;
    assert !Within(runs, x);
    SpanIsBridged(spans, SpanOf(f), SpanOf(f).hi - 1);
    SpanIsBridged(spans, SpanOf(g), SpanOf(g).lo);
    var j := RunAround(runs, SpanOf(f).hi - 1);
    var k := RunAround(runs, SpanOf(g).lo);
    hide Unlisted;
    assert runs[j] in runs && runs[k] in runs;
    assert !In(runs[j], x) && !In(runs[k], x);
    i := FindHole(runs, j, k, x);
  }

  /** The loop over neighbouring runs. */
  method UnlistedGaps(files: seq<File>, runs: seq<Span>, before: Option<int>) returns (gaps: seq<Gap>)
    requires Registered(files, runs)
    ensures RealGaps(gaps)
    ensures forall r, x :: InGap(gaps, r, x) <==>
                             Unlisted(files, x) && r == if Expired(files, before, x) then SourceMissing else SourceUnlisted
  {
    gaps := [];
    var n := 0;
    while n + 1 < |runs|
      invariant 0 <= n <= |runs| && (runs != [] ==> n < |runs|)
      invariant |gaps| == n && RealGaps(gaps)
      invariant forall i | 0 <= i < n :: gaps[i] == HoleGap(runs, i, before)
    {
      gaps := gaps + [HoleGap(runs, n, before)];
      n := n + 1;
    }
    forall r, x
      ensures InGap(gaps, r, x) <==>
              Unlisted(files, x) && r == if Expired(files, before, x) then SourceMissing else SourceUnlisted
    {
      HolesMean(files, runs, before, gaps, r, x);
    }
  }

  function HoleGap(runs: seq<Span>, i: nat, before: Option<int>): Gap
    requires i + 1 < |runs|
  {
    Gap(runs[i].hi, runs[i + 1].lo,
        if before.Some? && runs[i + 1].lo <= before.value then SourceMissing else SourceUnlisted, 0)
  }

  lemma HolesMean(files: seq<File>, runs: seq<Span>, before: Option<int>, gaps: seq<Gap>, r: Reason, x: int)
    requires Registered(files, runs) && |gaps| == (if runs == [] then 0 else |runs| - 1)
    requires forall i | 0 <= i < |gaps| :: gaps[i] == HoleGap(runs, i, before)
    ensures InGap(gaps, r, x) <==>
            Unlisted(files, x) && r == if Expired(files, before, x) then SourceMissing else SourceUnlisted
  {
    if InGap(gaps, r, x) {
      var g :| g in gaps && g.reason == r && g.start <= x < g.end;
      var i :| 0 <= i < |gaps| && gaps[i] == g;
      HoleIsUnlisted(files, runs, i, before, x);
    }
    if Unlisted(files, x) {
      var i := UnlistedIsInHole(files, runs, x);
      HoleIsUnlisted(files, runs, i, before, x);
      assert gaps[i] in gaps;
    }
  }

  // ---- merging neighbouring gaps ----

  function GapKey(g: Gap): (int, int) { (g.start, g.end) }

  lemma FileTotalOneMore(gaps: seq<Gap>, g: Gap)
    ensures FileTotal(gaps + [g]) == FileTotal(gaps) + g.files
  {
    assert (gaps + [g])[..|gaps|] == gaps;
  }

  lemma InGapOne(g: Gap, r: Reason, x: int)
    ensures InGap([g], r, x) <==> g.reason == r && g.start <= x < g.end
  {
    assert g in [g];
  }

  /** The merged gaps of the first raw gaps `done`, none of them starting after `bound`. */
  ghost predicate MergedSoFar(done: seq<Gap>, gaps: seq<Gap>, bound: int) {
    && RealGaps(gaps) && FileTotal(gaps) == FileTotal(done)
    && (forall r, x :: InGap(gaps, r, x) <==> InGap(done, r, x))
    && (forall i, j | 0 <= i < j < |gaps| :: gaps[i].start <= gaps[j].start)
    && forall g | g in gaps :: g.start <= bound
  }

  lemma AddGap(done: seq<Gap>, gaps: seq<Gap>, bound: int, gap: Gap)
    requires MergedSoFar(done, gaps, bound) && bound <= gap.start < gap.end
    ensures MergedSoFar(done + [gap], gaps + [gap], gap.start)
  {
    hide InGap;
    hide FileTotal;
    FileTotalOneMore(done, gap);
    FileTotalOneMore(gaps, gap);
    forall r, x ensures InGap(gaps + [gap], r, x) <==> InGap(done + [gap], r, x) {
      InGapConcat(gaps, [gap], r, x);
      InGapConcat(done, [gap], r, x);
    }
  }

  function Widened(gaps: seq<Gap>, gap: Gap): (wider: seq<Gap>)
    requires gaps != []
    ensures |wider| == |gaps|
  {
    var last := gaps[|gaps| - 1];
    gaps[..|gaps| - 1] + [Gap(last.start, Max(last.end, gap.end), last.reason, last.files + gap.files)]
  }

  lemma InWidened(gaps: seq<Gap>, gap: Gap, r: Reason, x: int)
    requires gaps != [] && gaps[|gaps| - 1].start < gaps[|gaps| - 1].end
    requires gaps[|gaps| - 1].start <= gap.start <= gaps[|gaps| - 1].end && gaps[|gaps| - 1].reason == gap.reason
    ensures InGap(Widened(gaps, gap), r, x) <==> InGap(gaps, r, x) || InGap([gap], r, x)
  {
    var front, last := gaps[..|gaps| - 1], gaps[|gaps| - 1];
    var wider := Gap(last.start, Max(last.end, gap.end), last.reason, last.files + gap.files);
    assert gaps == front + [last];
    InGapConcat(front, [last], r, x);
    InGapConcat(front, [wider], r, x);
    InGapOne(wider, r, x);
    InGapOne(last, r, x);
    InGapOne(gap, r, x);
    hide InGap;
  }

  lemma WidenGap(done: seq<Gap>, gaps: seq<Gap>, bound: int, gap: Gap)
    requires MergedSoFar(done, gaps, bound) && bound <= gap.start < gap.end
    requires gaps != [] && gap.start <= gaps[|gaps| - 1].end && gaps[|gaps| - 1].reason == gap.reason
    ensures MergedSoFar(done + [gap], Widened(gaps, gap), gap.start)
  {
    hide InGap;
    hide FileTotal;
    var front, last := gaps[..|gaps| - 1], gaps[|gaps| - 1];
    assert last in gaps && gaps == front + [last];
    FileTotalOneMore(done, gap);
    FileTotalOneMore(front, last);
    FileTotalOneMore(front, Widened(gaps, gap)[|gaps| - 1]);
    forall r, x ensures InGap(Widened(gaps, gap), r, x) <==> InGap(done + [gap], r, x) {
      InWidened(gaps, gap, r, x);
      InGapConcat(done, [gap], r, x);
    }
  }

  /** Gaps of one reason that touch in start order become one; every instant keeps its reasons, and the file counts add up. */
  method MergeGaps(raw: seq<Gap>) returns (gaps: seq<Gap>)
    requires RealGaps(raw) && SortedBy(raw, GapKey)
    ensures RealGaps(gaps) && FileTotal(gaps) == FileTotal(raw)
    ensures forall r, x :: InGap(gaps, r, x) <==> InGap(raw, r, x)
    ensures forall i, j | 0 <= i < j < |gaps| :: gaps[i].start <= gaps[j].start
  {
    gaps := [];
    if raw == [] {
      return;
    }
    FirstGap(raw);
    InStartOrder(raw);
    hide *;
    gaps := [raw[0]];
    assert raw[..1] == gaps;
    var n := 1;
    while n < |raw|
      invariant 1 <= n <= |raw| && gaps != []
      invariant MergedSoFar(raw[..n], gaps, raw[n - 1].start)
    {
      var gap := raw[n];
      assert raw[..n + 1] == raw[..n] + [gap];
      if gaps[|gaps| - 1].reason == gap.reason && gap.start <= gaps[|gaps| - 1].end {
        WidenGap(raw[..n], gaps, raw[n - 1].start, gap);
        gaps := Widened(gaps, gap);
      } else {
        AddGap(raw[..n], gaps, raw[n - 1].start, gap);
        gaps := gaps + [gap];
      }
      n := n + 1;
    }
    assert raw[..|raw|] == raw;
    AllMerged(raw, gaps, raw[|raw| - 1].start);
  }

  lemma AllMerged(raw: seq<Gap>, gaps: seq<Gap>, bound: int)
    requires MergedSoFar(raw, gaps, bound)
    ensures RealGaps(gaps) && FileTotal(gaps) == FileTotal(raw)
    ensures forall r, x :: InGap(gaps, r, x) <==> InGap(raw, r, x)
    ensures forall i, j | 0 <= i < j < |gaps| :: gaps[i].start <= gaps[j].start
  {
    hide InGap;
    hide FileTotal;
  }

  lemma FirstGap(raw: seq<Gap>)
    requires RealGaps(raw) && raw != []
    ensures MergedSoFar([raw[0]], [raw[0]], raw[0].start)
  {
    assert raw[0] in raw;
    hide InGap;
    hide FileTotal;
  }

  lemma InStartOrder(raw: seq<Gap>)
    requires RealGaps(raw) && SortedBy(raw, GapKey)
    ensures forall n | 0 <= n < |raw| :: raw[n].start < raw[n].end
    ensures forall n | 0 < n < |raw| :: raw[n - 1].start <= raw[n].start
  {
    forall n | 0 <= n < |raw| ensures raw[n].start < raw[n].end {
      assert raw[n] in raw;
    }
    forall n | 0 < n < |raw| ensures raw[n - 1].start <= raw[n].start {
      assert KeyLe(GapKey(raw[n - 1]), GapKey(raw[n]));
    }
  }

  // ---- the whole computation ----

  datatype Report = Report(intervals: seq<Span>, gaps: seq<Gap>)

  function GapSpans(gaps: seq<Gap>): seq<Span> {
    seq(|gaps|, i requires 0 <= i < |gaps| => Span(gaps[i].start, gaps[i].end))
  }

  lemma GapSpansMean(gaps: seq<Gap>, x: int)
    requires RealGaps(gaps)
    ensures Proper(GapSpans(gaps))
    ensures Bridged(GapSpans(gaps), 0, x) <==> exists r :: InGap(gaps, r, x)
  {
    var spans := GapSpans(gaps);
    forall s | s in spans ensures s.lo < s.hi {
      var i :| 0 <= i < |spans| && spans[i] == s;
      assert gaps[i] in gaps;
    }
    if Within(spans, x) {
      var s :| s in spans && In(s, x);
      var i :| 0 <= i < |spans| && spans[i] == s;
      assert gaps[i] in gaps && InGap(gaps, gaps[i].reason, x);
    }
    if r :| InGap(gaps, r, x) {
      var g :| g in gaps && g.reason == r && g.start <= x < g.end;
      var i :| 0 <= i < |gaps| && gaps[i] == g;
      assert spans[i] in spans && In(spans[i], x);
    }
  }

  lemma LackingIsGapped(files: seq<File>, ingested: set<string>, before: Option<int>, x: int)
    ensures Lacking(files, ingested, x) <==> exists r :: Gapped(files, ingested, before, r, x)
  {
    if f :| f in files && Missing(files, ingested, f, x) {
      assert Gapped(files, ingested, before, ReasonOf(f), x);
    }
    if Unlisted(files, x) {
      assert Gapped(files, ingested, before, if Expired(files, before, x) then SourceMissing else SourceUnlisted, x);
    }
  }

  lemma SameSpans(a: seq<File>, b: seq<File>, x: int)
    requires forall f :: f in a <==> f in b
    ensures Bridged(Spans(a), TOLERANCE, x) <==> Bridged(Spans(b), TOLERANCE, x)
  {
    SpansSubset(a, b);
    SpansSubset(b, a);
    BridgedSame(Spans(a), Spans(b), TOLERANCE, x);
  }

  lemma InGapSame(a: seq<Gap>, b: seq<Gap>, r: Reason, x: int)
    requires forall g :: g in a <==> g in b
    ensures InGap(a, r, x) <==> InGap(b, r, x)
  {
  }

  /** The gaps of all time, by reason. */
  method AllGaps(ordered: seq<File>, files: seq<File>, ingested: set<string>, before: Option<int>) returns (gaps: seq<Gap>)
    requires forall f :: f in ordered <==> f in Live(files)
    ensures RealGaps(gaps)
    ensures forall r, x :: InGap(gaps, r, x) <==> Gapped(files, ingested, before, r, x)
    ensures forall i, j | 0 <= i < j < |gaps| :: gaps[i].start <= gaps[j].start
  {
    LiveMembers(files, ingested, "");
    SpansMembers(ordered);
    hide Live;
    var raw := MissingGaps(ordered, files, ingested);
    var registered := Union(Spans(ordered), TOLERANCE);
    forall x ensures Within(registered, x) <==> Bridged(Spans(Live(files)), TOLERANCE, x) {
      SameSpans(ordered, Live(files), x);
    }
    hide Bridged;
    hide Within;
    var holes := UnlistedGaps(files, registered, before);
    var sorted := Sort(raw + holes, GapKey);
    SameElements(sorted, raw + holes);
    hide SortedBy;
    gaps := MergeGaps(sorted);
    forall r, x ensures InGap(gaps, r, x) <==> Gapped(files, ingested, before, r, x) {
      InGapSame(sorted, raw + holes, r, x);
      InGapConcat(raw, holes, r, x);
      GappedInTwo(ordered, files, ingested, before, r, x);
    }
  }

  lemma GappedInTwo(ordered: seq<File>, files: seq<File>, ingested: set<string>, before: Option<int>, r: Reason, x: int)
    requires forall f :: f in ordered <==> f in files && !Settled(f)
    ensures Gapped(files, ingested, before, r, x) <==>
              MissingAmong(ordered, files, ingested, r, x)
              || (Unlisted(files, x) && r == if Expired(files, before, x) then SourceMissing else SourceUnlisted)
  {
    if f :| f in files && ReasonOf(f) == r && Missing(files, ingested, f, x) {
      assert f in ordered;
    }
  }

  /** `coverage_runs` without a window. */
  method CoverageRuns(files: seq<File>, ingested: set<string>, before: Option<int>) returns (report: Report)
    ensures Ascending(report.intervals) && RealGaps(report.gaps)
    ensures forall x :: Within(report.intervals, x) <==> Covered(files, ingested, x)
    ensures forall r, x :: InGap(report.gaps, r, x) <==> Gapped(files, ingested, before, r, x)
    ensures forall i, j | 0 <= i < j < |report.gaps| :: report.gaps[i].start <= report.gaps[j].start
  {
    var byTime := Sort(files, (f: File) => (f.lo, f.hi));
    SameElements(byTime, files);
    var ordered := Live(byTime);
    LiveMembers(byTime, ingested, "");
    LiveMembers(files, ingested, "");
    var good := Keep(ordered, (f: File) => f.id in ingested);
    assert good == Good(byTime, ingested);
    hide Live;
    hide Good;
    hide SortedBy;
    var gaps := AllGaps(ordered, files, ingested, before);
    SpansMembers(good);
    var runs := Union(Spans(good), TOLERANCE);
    forall x ensures Bridged(Spans(good), TOLERANCE, x) <==> Bridged(Spans(Good(files, ingested)), TOLERANCE, x) {
      SameSpans(good, Good(files, ingested), x);
    }
    GapSpansMean(gaps, 0);
    var cuts := Union(GapSpans(gaps), 0);
    var intervals := Subtract(runs, cuts);
    forall x ensures Within(intervals, x) <==> Covered(files, ingested, x) {
      GapSpansMean(gaps, x);
      LackingIsGapped(files, ingested, before, x);
    }
    report := Report(intervals, gaps);
  }

  // ---- a window ----

  /** Clipping keeps what lies inside the window. */
  method ClipSpans(intervals: seq<Span>, start: int, end: int) returns (clipped: seq<Span>)
    requires Ascending(intervals)
    ensures Ascending(clipped) && InsideOf(clipped, start, end)
    ensures forall x :: Within(clipped, x) <==> Within(intervals, x) && start <= x < end
  {
    clipped := [];
    var n := 0;
    while n < |intervals|
      invariant 0 <= n <= |intervals|
      invariant Ascending(clipped) && InsideOf(clipped, start, end)
      invariant forall c, j | c in clipped && n <= j < |intervals| :: c.hi <= intervals[j].lo
      invariant forall x :: Within(clipped, x) <==> Within(intervals[..n], x) && start <= x < end
    {
      var s := Span(Max(intervals[n].lo, start), Min(intervals[n].hi, end));
      assert intervals[n] in intervals && intervals[..n + 1] == intervals[..n] + [intervals[n]];
      ghost var was := clipped;
      if s.lo < s.hi {
        clipped := clipped + [s];
      }
      forall x ensures Within(clipped, x) <==> Within(intervals[..n + 1], x) && start <= x < end {
        WithinOneMore(intervals[..n], intervals[n], x);
        WithinOneMore(was, s, x);
      }
      hide Within;
      n := n + 1;
    }
    assert intervals[..|intervals|] == intervals;
  }

  method ClipGaps(gaps: seq<Gap>, start: int, end: int) returns (clipped: seq<Gap>)
    ensures RealGaps(clipped)
    ensures forall r, x :: InGap(clipped, r, x) <==> InGap(gaps, r, x) && start <= x < end
  {
    clipped := [];
    var n := 0;
    while n < |gaps|
      invariant 0 <= n <= |gaps| && RealGaps(clipped)
      invariant forall r, x :: InGap(clipped, r, x) <==> InGap(gaps[..n], r, x) && start <= x < end
    {
      var g := Gap(Max(gaps[n].start, start), Min(gaps[n].end, end), gaps[n].reason, gaps[n].files);
      assert gaps[..n + 1] == gaps[..n] + [gaps[n]];
      ghost var was := clipped;
      if g.start < g.end {
        clipped := clipped + [g];
      }
      forall r, x ensures InGap(clipped, r, x) <==> InGap(gaps[..n + 1], r, x) && start <= x < end {
        InGapConcat(gaps[..n], [gaps[n]], r, x);
        InGapConcat(was, [g], r, x);
        InGapOne(g, r, x);
        InGapOne(gaps[n], r, x);
      }
      hide InGap;
      n := n + 1;
    }
    assert gaps[..|gaps|] == gaps;
  }

  function Length(spans: seq<Span>): int { if spans == [] then 0 else spans[0].hi - spans[0].lo + Length(spans[1..]) }

  /** Disjoint intervals never add up to more than the window. */
  lemma {:induction false} LengthWithin(spans: seq<Span>, lo: int, hi: int)
    requires Ascending(spans) && InsideOf(spans, lo, hi)
    ensures 0 <= Length(spans) <= Max(hi - lo, 0)
  {
    if spans != [] {
      assert spans[0] in spans;
      forall s | s in spans[1..] ensures spans[0].hi <= s.lo && s.hi <= hi && s.lo < s.hi && s in spans {
        var i :| 0 <= i < |spans| - 1 && spans[1..][i] == s;
        assert spans[i + 1] == s;
      }
      LengthWithin(spans[1..], spans[0].hi, hi);
    }
  }

  ghost function Instants(s: Span): set<int> { set x: int | s.lo <= x < s.hi && In(s, x) }

  lemma {:induction false} CountInstants(s: Span)
    requires s.lo <= s.hi
    ensures |Instants(s)| == s.hi - s.lo
    decreases s.hi - s.lo
  {
    if s.lo < s.hi {
      var rest := Span(s.lo + 1, s.hi);
      CountInstants(rest);
      assert Instants(s) == {s.lo} + Instants(rest);
    }
  }

  ghost function InstantsWithin(spans: seq<Span>, lo: int, hi: int): set<int> { set x: int | lo <= x < hi && Within(spans, x) }

  lemma FirstAndRest(spans: seq<Span>, x: int)
    requires spans != []
    ensures Within(spans, x) <==> In(spans[0], x) || Within(spans[1..], x)
  {
    assert spans == [spans[0]] + spans[1..];
    assert forall s :: s in spans <==> s == spans[0] || s in spans[1..];
  }

  lemma RestBegins(spans: seq<Span>, lo: int, hi: int)
    requires spans != [] && Ascending(spans) && InsideOf(spans, lo, hi)
    ensures lo <= spans[0].lo < spans[0].hi <= hi && Ascending(spans[1..]) && InsideOf(spans[1..], spans[0].hi, hi)
  {
    assert spans[0] in spans;
    forall t | t in spans[1..] ensures spans[0].hi <= t.lo && t.hi <= hi && t.lo < t.hi && t in spans {
      var i :| 0 <= i < |spans| - 1 && spans[1..][i] == t;
      assert spans[i + 1] == t;
    }
  }

  lemma WithinInside(spans: seq<Span>, lo: int, hi: int, x: int)
    requires InsideOf(spans, lo, hi) && Within(spans, x)
    ensures lo <= x < hi
  {
  }

  lemma InstantsSplit(spans: seq<Span>, lo: int, hi: int)
    requires spans != [] && Ascending(spans) && InsideOf(spans, lo, hi)
    ensures var first, others := Instants(spans[0]), InstantsWithin(spans[1..], spans[0].hi, hi);
            InstantsWithin(spans, lo, hi) == first + others && first !! others
  {
    RestBegins(spans, lo, hi);
    hide Ascending;
    hide InsideOf;
    hide Within;
    forall x ensures Within(spans, x) <==> In(spans[0], x) || Within(spans[1..], x) {
      FirstAndRest(spans, x);
    }
    forall x | Within(spans[1..], x) ensures spans[0].hi <= x < hi {
      WithinInside(spans[1..], spans[0].hi, hi, x);
    }
  }

  /** The length of disjoint intervals is the number of their instants. */
  lemma {:induction false} LengthCounts(spans: seq<Span>, lo: int, hi: int)
    requires Ascending(spans) && InsideOf(spans, lo, hi)
    ensures Length(spans) == |InstantsWithin(spans, lo, hi)|
  {
    if spans == [] {
      assert InstantsWithin(spans, lo, hi) == {};
    } else {
      RestBegins(spans, lo, hi);
      InstantsSplit(spans, lo, hi);
      LengthCounts(spans[1..], spans[0].hi, hi);
      CountInstants(spans[0]);
      hide *;
    }
  }

  predicate Before(live: seq<File>, x: int) { forall f | f in live :: x < f.lo }

  predicate After(live: seq<File>, x: int) { live != [] && forall f | f in live :: f.hi <= x }

  method Bounds(ordered: seq<File>) returns (earliest: int, latest: int)
    requires ordered != []
    ensures (forall f | f in ordered :: earliest <= f.lo) && exists f :: f in ordered && f.lo == earliest
    ensures (forall f | f in ordered :: f.hi <= latest) && exists f :: f in ordered && f.hi == latest
  {
    earliest, latest := ordered[0].lo, ordered[0].hi;
    var n := 1;
    while n < |ordered|
      invariant 1 <= n <= |ordered|
      invariant forall i | 0 <= i < n :: earliest <= ordered[i].lo && ordered[i].hi <= latest
      invariant exists i | 0 <= i < n :: earliest == ordered[i].lo
      invariant exists i | 0 <= i < n :: latest == ordered[i].hi
    {
      earliest, latest := Min(earliest, ordered[n].lo), Max(latest, ordered[n].hi);
      n := n + 1;
    }
    var i :| 0 <= i < |ordered| && earliest == ordered[i].lo;
    var j :| 0 <= j < |ordered| && latest == ordered[j].hi;
    assert ordered[i] in ordered && ordered[j] in ordered;
  }

  /** The gap before the oldest file and the one after the newest. */
  method EdgeGaps(ordered: seq<File>, start: int, end: int) returns (first: seq<Gap>, last: seq<Gap>)
    ensures forall r, x :: InGap(first, r, x) || InGap(last, r, x) <==>
              start <= x < end && ((r == NoData && Before(ordered, x)) || (r == NotCollectedYet && After(ordered, x)))
  {
    first, last := [], [];
    if ordered == [] {
      last := [Gap(start, end, NoData, 0)];
      assert forall r, x :: InGap(last, r, x) <==> r == NoData && start <= x < end by {
        forall r, x ensures InGap(last, r, x) <==> r == NoData && start <= x < end {
          InGapOne(last[0], r, x);
        }
      }
      return;
    }
    var earliest, latest := Bounds(ordered);
    if earliest > start {
      first := [Gap(start, Min(earliest, end), NoData, 0)];
    }
    if latest < end && Max(latest, start) < end {
      last := [Gap(Max(latest, start), end, NotCollectedYet, 0)];
    }
    forall r, x
      ensures InGap(first, r, x) <==> r == NoData && start <= x < end && Before(ordered, x)
      ensures InGap(last, r, x) <==> r == NotCollectedYet && start <= x < end && After(ordered, x)
    {
      if first != [] {
        InGapOne(first[0], r, x);
      }
      if last != [] {
        InGapOne(last[0], r, x);
      }
    }
  }

  /** The gaps reported for a window: those of all time, and the time before the oldest and after the newest file. */
  predicate WindowGapped(files: seq<File>, ingested: set<string>, before: Option<int>, r: Reason, x: int) {
    || Gapped(files, ingested, before, r, x)
    || (r == NoData && Before(Live(files), x))
    || (r == NotCollectedYet && After(Live(files), x))
  }

  /** An instant past the newest file, in the second that stands for an ingested file of zero length, and missed by no
      file. */
  predicate PointPastTheNewest(files: seq<File>, ingested: set<string>, x: int) {
    && After(Live(files), x)
    && (exists f | f in Good(files, ingested) :: f.lo == f.hi <= x < f.lo + POINT_SPAN)
    && !exists f | f in files :: Missing(files, ingested, f, x)
  }

  /** With a window, an interval and a gap never overlap, but for the gap after the newest file: there a covered instant
      belongs to an ingested file with an empty span, whose one second reaches past its end. */
  lemma OverlapIsPastTheNewest(files: seq<File>, ingested: set<string>, before: Option<int>, r: Reason, x: int)
    requires forall f | f in files :: f.lo <= f.hi
    requires Covered(files, ingested, x) && WindowGapped(files, ingested, before, r, x)
    ensures r == NotCollectedYet && PointPastTheNewest(files, ingested, x)
  {
    LackingIsGapped(files, ingested, before, x);
    LiveMembers(files, ingested, "");
    var good := Good(files, ingested);
    SpansMembers(good);
    hide Missing;
    hide Gapped;
    hide Live;
    hide Good;
    if Within(Spans(good), x) {
      var s :| s in Spans(good) && In(s, x);
      var f :| f in good && SpanOf(f) == s;
      assert f in Live(files);
    }
  }

  /** Past the newest file, a point file no file contradicts is covered all the same. */
  lemma PointPastTheNewestOverlaps(files: seq<File>, ingested: set<string>, before: Option<int>, x: int)
    requires forall f | f in files :: f.lo <= f.hi
    requires PointPastTheNewest(files, ingested, x)
    ensures Covered(files, ingested, x) && WindowGapped(files, ingested, before, NotCollectedYet, x)
  {
    LiveMembers(files, ingested, "");
    SpansMembers(Good(files, ingested));
    hide Missing;
    hide Gapped;
    hide Live;
    hide Good;
    var f :| f in Good(files, ingested) && f.lo == f.hi <= x < f.lo + POINT_SPAN;
    assert In(SpanOf(f), x);
  }

  /** Exactly there intervals and gaps overlap. */
  lemma OnlyAPointFileReachesPastTheNewest(files: seq<File>, ingested: set<string>, before: Option<int>, x: int)
    requires forall f | f in files :: f.lo <= f.hi
    ensures Covered(files, ingested, x) && (exists r :: WindowGapped(files, ingested, before, r, x)) <==>
              PointPastTheNewest(files, ingested, x)
  {
    if r :| Covered(files, ingested, x) && WindowGapped(files, ingested, before, r, x) {
      OverlapIsPastTheNewest(files, ingested, before, r, x);
    }
    if PointPastTheNewest(files, ingested, x) {
      PointPastTheNewestOverlaps(files, ingested, before, x);
    }
  }

  /** One ingested file of zero length is enough: its second is reported as covered and as not collected yet. */
  lemma OnePointFileOverlaps(id: string, host: string, at: int, before: Option<int>)
    ensures var files := [File(id, at, at, Stored, host)];
            forall x | at <= x < at + POINT_SPAN ::
              Covered(files, {id}, x) && WindowGapped(files, {id}, before, NotCollectedYet, x)
  {
    var files := [File(id, at, at, Stored, host)];
    LiveMembers(files, {id}, "");
    assert files[0] in files;
    forall x | at <= x < at + POINT_SPAN
      ensures Covered(files, {id}, x) && WindowGapped(files, {id}, before, NotCollectedYet, x)
    {
      assert files[0] in Good(files, {id}) && files[0] in Live(files);
      PointPastTheNewestOverlaps(files, {id}, before, x);
    }
  }

  /** `coverage_runs` with a window: clipped, and with the time before the oldest and after the newest file named. */
  method CoverageInWindow(files: seq<File>, ingested: set<string>, start: int, end: int, before: Option<int>)
    returns (report: Report, covered: int, requested: int)
    ensures Ascending(report.intervals) && InsideOf(report.intervals, start, end)
    ensures forall x :: Within(report.intervals, x) <==> Covered(files, ingested, x) && start <= x < end
    ensures forall r, x :: InGap(report.gaps, r, x) <==>
              start <= x < end && WindowGapped(files, ingested, before, r, x)
    ensures (forall f | f in files :: f.lo <= f.hi) ==>
              forall x :: Within(report.intervals, x) && (exists r :: InGap(report.gaps, r, x)) <==>
                            start <= x < end && PointPastTheNewest(files, ingested, x)
    ensures covered == |set x: int | start <= x < end && Covered(files, ingested, x)|
    ensures 0 <= covered <= requested == Max(end - start, 0)
  {
    var all := CoverageRuns(files, ingested, before);
    var intervals := ClipSpans(all.intervals, start, end);
    var clipped := ClipGaps(all.gaps, start, end);
    covered, requested := Length(intervals), Max(end - start, 0);
    LengthWithin(intervals, start, end);
    LengthCounts(intervals, start, end);
    assert InstantsWithin(intervals, start, end) == set x: int | start <= x < end && Covered(files, ingested, x);
    var first, last := EdgeGaps(Live(files), start, end);
    hide Live;
    hide InGap;
    hide Gapped;
    hide Covered;
    forall r, x
      ensures InGap(first + clipped + last, r, x) <==>
              start <= x < end && WindowGapped(files, ingested, before, r, x)
    {
      InGapConcat(first + clipped, last, r, x);
      InGapConcat(first, clipped, r, x);
    }
    report := Report(intervals, first + clipped + last);
    hide WindowGapped;
    hide PointPastTheNewest;
    if forall f | f in files :: f.lo <= f.hi {
      forall x
        ensures Within(report.intervals, x) && (exists r :: InGap(report.gaps, r, x)) <==>
                  start <= x < end && PointPastTheNewest(files, ingested, x)
      {
        OnlyAPointFileReachesPastTheNewest(files, ingested, before, x);
      }
    }
  }

  // ---- small archives ----

  lemma AloneMembers(f: File, ingested: set<string>, x: int)
    requires f.state != Skipped && f.state != Superseded
    ensures Live([f]) == [f] && Good([f], ingested) == (if f.id in ingested then [f] else [])
    ensures Elsewhere([f], ingested, f.host) == []
    ensures Within(Spans([f]), x) <==> In(SpanOf(f), x)
    ensures Bridged(Spans([f]), TOLERANCE, x) <==> In(SpanOf(f), x)
  {
    assert [f][0] == f && [f][1..] == [];
    assert Spans([f]) == [SpanOf(f)];
    KeepAll([f], (f: File) => !Settled(f));
    if f.id in ingested {
      KeepAll([f], (f: File) => f.id in ingested);
    } else {
      KeepNone([f], (f: File) => f.id in ingested);
    }
    KeepNone(Good([f], ingested), (g: File) => g.host != f.host);
  }

  /** A single ingested file covers its span, or one second if that is empty, and nothing else. */
  lemma OneFileCovers(f: File, x: int)
    requires f.state != Skipped && f.state != Superseded && f.lo <= f.hi
    ensures Covered([f], {f.id}, x) <==> f.lo <= x < if f.lo < f.hi then f.hi else f.lo + 1_000_000
  {
    AloneMembers(f, {f.id}, x);
    LiveMembers([f], {f.id}, f.host);
  }

  /** A single file that is not ingested is a gap over the same time: its source is missing if it is unavailable, it is being
      collected if it is on its way, and waits to be ingested otherwise. */
  lemma OneFileIsMissing(f: File, r: Reason, x: int)
    requires f.state != Skipped && f.state != Superseded && f.lo <= f.hi
    ensures Gapped([f], {}, None, r, x) <==>
              && (f.lo <= x < if f.lo < f.hi then f.hi else f.lo + 1_000_000)
              && match f.state
                 case Unavailable => r == SourceMissing
                 case Discovered => r == Collecting
                 case DownloadFailed => r == Collecting
                 case Downloading => r == Collecting
                 case Downloaded => r == Collecting
                 case Parsing => r == Collecting
                 case Stored => r == Collecting
                 case _ => r == Pending
  {
    AloneMembers(f, {}, x);
    LiveMembers([f], {}, f.host);
    assert f in [f];
  }

  /** A hole between two ingested files is covered if it is no longer than two seconds, else it is a gap: of a file nobody has listed,
      or, once the source keeps nothing so old, of one that is gone. */
  lemma HoleBetweenTwo(f: File, g: File, before: Option<int>, r: Reason, x: int)
    requires f.state == g.state == Stored && f.id != g.id && f.lo < f.hi <= x < g.lo < g.hi
    ensures Covered([f, g], {f.id, g.id}, x) <==> g.lo - f.hi <= 2_000_000
    ensures Gapped([f, g], {f.id, g.id}, before, r, x) <==>
              && g.lo - f.hi > 2_000_000
              && r == if before.Some? && g.lo <= before.value then SourceMissing else SourceUnlisted
  {
    var files, ids := [f, g], {f.id, g.id};
    TwoMembers(f, g);
    hide Live;
    hide Good;
    hide Elsewhere;
    TwoSpans(Live(files), f, g, x);
    TwoSpans(Good(files, ids), f, g, x);
    hide Bridged;
    hide Spans;
    assert forall h | h in files :: h.id in ids;
    assert forall h :: !Missing(files, ids, h, x);
    hide Missing;
    assert SpanOf(f) == Span(f.lo, f.hi) && SpanOf(g) == Span(g.lo, g.hi);
    assert Expired(files, before, x) <==> before.Some? && g.lo <= before.value;
    assert Unlisted(files, x) <==> g.lo - f.hi > 2_000_000;
  }

  lemma TwoMembers(f: File, g: File)
    requires f.state == g.state == Stored
    ensures forall h :: h in [f, g] <==> h == f || h == g
    ensures forall h :: h in Live([f, g]) <==> h == f || h == g
    ensures forall h :: h in Good([f, g], {f.id, g.id}) <==> h == f || h == g
  {
    LiveMembers([f, g], {f.id, g.id}, f.host);
  }

  lemma TwoSpans(files: seq<File>, f: File, g: File, x: int)
    requires f.lo < f.hi <= x < g.lo < g.hi && forall h :: h in files <==> h == f || h == g
    ensures Bridged(Spans(files), TOLERANCE, x) <==> g.lo - f.hi <= 2_000_000
  {
    SpansMembers(files);
    TwoSpansBridge(Spans(files), SpanOf(f), SpanOf(g), x);
  }

  lemma TwoSpansBridge(spans: seq<Span>, s: Span, t: Span, x: int)
    requires s.lo < s.hi <= x < t.lo < t.hi && s in spans && t in spans && forall u | u in spans :: u == s || u == t
    ensures Bridged(spans, TOLERANCE, x) <==> t.lo - s.hi <= 2_000_000
  {
    assert forall u | u in spans :: !In(u, x);
  }

  lemma SameLive(files: seq<File>, f: File)
    requires Settled(f)
    ensures Live(files + [f]) == Live(files)
  {
    var live := (f: File) => !Settled(f);
    KeepConcat(files, [f], live);
    KeepNone([f], live);
    hide Keep;
    assert Live(files) + [] == Live(files);
  }

  /** Copies that are set aside count for nothing. */
  lemma SetAsideCountsForNothing(files: seq<File>, f: File, ingested: set<string>, before: Option<int>, r: Reason, x: int)
    requires f.state == Skipped || f.state == Superseded
    ensures Covered(files + [f], ingested, x) <==> Covered(files, ingested, x)
    ensures Gapped(files + [f], ingested, before, r, x) <==> Gapped(files, ingested, before, r, x)
  {
    hide Keep;
    hide Bridged;
    hide Spans;
    hide SpanOf;
    hide ReasonOf;
    var more := files + [f];
    SameLive(files, f);
    hide Live;
    assert forall g :: g in more <==> g in files || g == f;
    forall g ensures Missing(more, ingested, g, x) <==> Missing(files, ingested, g, x) {
    }
    assert Unlisted(more, x) <==> Unlisted(files, x);
    assert Expired(more, before, x) <==> Expired(files, before, x);
    hide Missing;
    hide Unlisted;
    hide Expired;
  }
}
