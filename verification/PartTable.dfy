/** A ClickHouse table of source rows and the per-part counters that the loaders compare with the metadata:
    app/clickhouse_client.py:500-656 and the exactness predicates of app/clickhouse_stage.py:47-87. */
module PartTable {
  import opened Select

  /** One stored row: its source part, that part's digest and revision, its partition, and the event itself. */
  datatype Row = Row(key: string, sha: string, revision: int, day: string, event: int)

  type Table = seq<Row>

  datatype Part = Part(path: string, identity: string, sha: string, revision: int, rowCount: nat)

  function Of(t: Table, key: string): Table {
    Keep(t, (r: Row) => r.key == key)
  }

  function OnDay(t: Table, day: string): Table {
    Keep(t, (r: Row) => r.day == day)
  }

  function OffDay(t: Table, day: string): Table {
    Keep(t, (r: Row) => r.day != day)
  }

  function Without(t: Table, key: string): Table {
    Keep(t, (r: Row) => r.key != key)
  }

  // ---- counters ----

  /** `count(), uniqExact(sha), any(sha), min(revision), max(revision)` of one part. */
  datatype PartState = PartState(rows: nat, shaCount: nat, sha: string, minRevision: int, maxRevision: int)

  function MinRevision(t: Table): int
    requires t != []
  {
    if |t| == 1 then t[0].revision
    else if t[0].revision <= MinRevision(t[1..]) then t[0].revision else MinRevision(t[1..])
  }

  function MaxRevision(t: Table): int
    requires t != []
  {
    if |t| == 1 then t[0].revision
    else if t[0].revision >= MaxRevision(t[1..]) then t[0].revision else MaxRevision(t[1..])
  }

  function Shas(t: Table): set<string> { set r | r in t :: r.sha }

  function StateOf(t: Table, key: string): PartState {
    var rows := Of(t, key);
    if rows == [] then PartState(0, 0, "", 0, 0)
    else PartState(|rows|, |Shas(rows)|, rows[0].sha, MinRevision(rows), MaxRevision(rows))
  }

  /** `_time_matches` and `_name_matches`, on the counters of their own table. */
  predicate Matches(part: Part, state: PartState) {
    if part.rowCount == 0 then state.rows == 0
    else
      && state.rows == part.rowCount
      && state.shaCount == 1
      && state.sha == part.sha
      && state.minRevision == part.revision
      && state.maxRevision == part.revision
  }

  /** What the counters are meant to establish: exactly the part's rows, all of this digest and revision. */
  predicate Exact(part: Part, t: Table) {
    var rows := Of(t, part.identity);
    && |rows| == part.rowCount
    && forall r | r in rows :: r.sha == part.sha && r.revision == part.revision
  }

  lemma {:induction false} RevisionBounds(t: Table)
    requires t != []
    ensures forall r | r in t :: MinRevision(t) <= r.revision <= MaxRevision(t)
    ensures (exists r | r in t :: r.revision == MinRevision(t)) && (exists r | r in t :: r.revision == MaxRevision(t))
  {
    assert t[0] in t;
    if |t| > 1 {
      RevisionBounds(t[1..]);
      assert forall r :: r in t <==> r == t[0] || r in t[1..];
    }
  }

  lemma OneSha(t: Table)
    requires t != []
    ensures |Shas(t)| == 1 <==> forall r | r in t :: r.sha == t[0].sha
  {
    assert t[0] in t && t[0].sha in Shas(t);
    if |Shas(t)| == 1 {
      var other := Shas(t) - {t[0].sha};
      assert |other| == 0;
      forall r | r in t ensures r.sha == t[0].sha {
        assert r.sha in Shas(t);
        assert r.sha !in other;
      }
    }
    if forall r | r in t :: r.sha == t[0].sha {
      assert Shas(t) == {t[0].sha};
    }
  }

  /** The five counters decide exactness: no wrong row set passes and no right one is refused. */
  lemma MatchesIffExact(part: Part, t: Table)
    ensures Matches(part, StateOf(t, part.identity)) <==> Exact(part, t)
  {
    var rows := Of(t, part.identity);
    if rows != [] {
      RevisionBounds(rows);
      OneSha(rows);
      assert rows[0] in rows;
    }
  }

  // ---- whole-table summary ----

  function Keys(t: Table): set<string> { set r | r in t :: r.key }

  /** `active_partitions` */
  function DaysOf(t: Table): set<string> { set r | r in t :: r.day }

  function Ids(parts: seq<Part>): set<string> { set p | p in parts :: p.identity }

  predicate Distinct(parts: seq<Part>) {
    forall i, j | 0 <= i < j < |parts| :: parts[i].identity != parts[j].identity
  }

  predicate OnlyParts(t: Table, ids: set<string>) {
    forall r | r in t :: r.key in ids
  }

  function RowTotal(parts: seq<Part>): nat {
    if parts == [] then 0 else parts[0].rowCount + RowTotal(parts[1..])
  }

  /** The parts `_summary_matches` selects. */
  function Selected(parts: seq<Part>, t: Table): seq<Part> {
    Keep(parts, (p: Part) => Matches(p, StateOf(t, p.identity)) && p.rowCount > 0)
  }

  /** `_summary_matches`: row and part totals of the table against the selected parts. */
  predicate SummaryMatches(parts: seq<Part>, t: Table) {
    && |t| == RowTotal(Selected(parts, t))
    && |Keys(t)| == |Selected(parts, t)|
  }

  lemma OfMembers(t: Table, key: string)
    ensures forall r :: r in Of(t, key) <==> r in t && r.key == key
  {
    KeepMembers(t, (r: Row) => r.key == key);
  }

  lemma OfConcat(a: Table, b: Table, key: string)
    ensures Of(a + b, key) == Of(a, key) + Of(b, key)
  {
    KeepConcat(a, b, (r: Row) => r.key == key);
  }

  lemma OfAbsent(t: Table, key: string)
    ensures Of(t, key) == [] <==> key !in Keys(t)
  {
    OfMembers(t, key);
    if Of(t, key) != [] {
      assert Of(t, key)[0] in Of(t, key);
    }
    if key in Keys(t) {
      var r :| r in t && r.key == key;
      assert r in Of(t, key);
    }
  }

  lemma OfWithout(t: Table, key: string, other: string)
    requires key != other
    ensures Of(Without(t, key), other) == Of(t, other)
  {
    KeepKeep(t, (r: Row) => r.key != key, (r: Row) => r.key == other);
  }

  lemma WithoutSize(t: Table, key: string)
    ensures |Without(t, key)| + |Of(t, key)| == |t|
    ensures forall r :: r in Without(t, key) <==> r in t && r.key != key
  {
    KeepSplit(t, (r: Row) => r.key != key, (r: Row) => r.key == key);
    KeepMembers(t, (r: Row) => r.key != key);
  }

  /** Rows of distinct exact parts never outnumber the table, and fill it only when nothing else is there. */
  lemma {:induction false} TotalsBound(parts: seq<Part>, t: Table)
    requires Distinct(parts)
    requires forall p | p in parts :: Exact(p, t)
    ensures RowTotal(parts) <= |t|
    ensures RowTotal(parts) == |t| <==> OnlyParts(t, Ids(parts))
  {
    if parts == [] {
      if t != [] {
        assert t[0] in t;
      }
    } else {
      var p, rest := parts[0], parts[1..];
      var u := Without(t, p.identity);
      assert p in parts;
      WithoutSize(t, p.identity);
      forall q | q in rest ensures Exact(q, u) {
        assert q in parts && q.identity != p.identity;
        OfWithout(t, p.identity, q.identity);
      }
      TotalsBound(rest, u);
      assert Ids(parts) == {p.identity} + Ids(rest);
      if OnlyParts(u, Ids(rest)) {
        forall r | r in t ensures r.key in Ids(parts) {
          assert r.key == p.identity || r in u;
        }
      }
      if OnlyParts(t, Ids(parts)) {
        forall r | r in u ensures r.key in Ids(rest) {
          assert r in t;
        }
      }
    }
  }

  lemma {:induction false} IdsCount(parts: seq<Part>)
    requires Distinct(parts)
    ensures |Ids(parts)| == |parts|
  {
    if parts != [] {
      var p, rest := parts[0], parts[1..];
      IdsCount(rest);
      assert Ids(parts) == {p.identity} + Ids(rest);
      assert p.identity !in Ids(rest);
    }
  }

  lemma {:induction false} KeepDistinct(parts: seq<Part>, f: Part -> bool)
    requires Distinct(parts)
    ensures Distinct(Keep(parts, f))
  {
    if parts != [] {
      KeepDistinct(parts[1..], f);
      KeepMembers(parts[1..], f);
      var rest := Keep(parts[1..], f);
      if f(parts[0]) {
        forall j | 0 <= j < |rest| ensures parts[0].identity != rest[j].identity {
          assert rest[j] in rest;
        }
      }
    }
  }

  /** The two totals hold exactly when the table holds nothing but complete parts of the batch. */
  lemma SummaryIffOnlySelected(parts: seq<Part>, t: Table)
    requires Distinct(parts)
    ensures SummaryMatches(parts, t) <==> OnlyParts(t, Ids(Selected(parts, t)))
  {
    var f := (p: Part) => Matches(p, StateOf(t, p.identity)) && p.rowCount > 0;
    var selected := Selected(parts, t);
    KeepDistinct(parts, f);
    KeepMembers(parts, f);
    forall p | p in selected ensures Exact(p, t) && p.identity in Keys(t) {
      MatchesIffExact(p, t);
      OfAbsent(t, p.identity);
    }
    TotalsBound(selected, t);
    IdsCount(selected);
    if OnlyParts(t, Ids(selected)) {
      assert Keys(t) == Ids(selected);
    }
  }
}
