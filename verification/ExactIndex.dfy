/** The exact primary-key index of app/exact_index.py: what it stores for a part, and when looking a key up in it is as good
    as reading every row. */
module ExactIndex {
  import opened Select
  import opened ExactKeys

  // ---- segments ----

  datatype Doc = Doc(identity: string, position: nat, event: string, epoch: int, operation: Operation)

  datatype Posting = Posting(table: TableName, schema: string, ordinal: int, typeId: int, key: Encoded, doc: nat)

  /** Primary key of `part_tables`: without the column's name. */
  datatype TableId = TableId(path: string, table: TableName, schema: string, ordinal: int, typeId: int)

  datatype TableRow = TableRow(identity: string, name: string, complete: bool, rowEvents: nat, indexedEvents: nat)

  /** Documents are numbered in the order they were inserted. */
  datatype Segment = Segment(docs: seq<Doc>, postings: set<Posting>, tables: map<TableId, TableRow>)

  /** `rowCount` is what the metadata says of the part, 0 where it does not say. */
  datatype Part = Part(path: string, identity: string, rowCount: nat)

  /** Rows of a part by its identity; the same identity is the same content everywhere. */
  type Contents = map<string, seq<Row>>

  /** The rows `_add_part` looks at. */
  predicate Relevant(registry: Registry, r: Row) {
    && !r.operation.Unrelated? && r.database != "" && r.table != ""
    && (registry == map[] || NameOf(r) in Registered(registry))
  }

  function ContextOf(registry: Registry, r: Row): Context { PrimaryContext(r, MappingFor(registry, r)) }

  function IdOf(path: string, r: Row, c: KeyColumn): TableId { TableId(path, NameOf(r), c.schema, c.ordinal, c.typeId) }

  predicate IsRow(contents: Contents, identity: string, position: nat) {
    identity in contents && position < |contents[identity]|
  }

  function RowAt(contents: Contents, identity: string, position: nat): Row
    requires IsRow(contents, identity, position)
  {
    contents[identity][position]
  }

  /** A document is a row whose key is known. */
  predicate DocOk(registry: Registry, contents: Contents, d: Doc) {
    && IsRow(contents, d.identity, d.position)
    && var r := RowAt(contents, d.identity, d.position);
       && d == Doc(d.identity, d.position, r.event, r.epoch, r.operation)
       && Relevant(registry, r) && ContextOf(registry, r).Known?
  }

  /** The posting of a document under one of its key values. */
  predicate PostingOf(registry: Registry, contents: Contents, d: Doc, n: nat, p: Posting) {
    && DocOk(registry, contents, d)
    && var r := RowAt(contents, d.identity, d.position);
       var c := ContextOf(registry, r);
       p.table == NameOf(r) && p.schema == c.column.schema && p.ordinal == c.column.ordinal && p.typeId == c.column.typeId
       && p.key in c.values && p.doc == n
  }

  function PostingFor(registry: Registry, contents: Contents, d: Doc, n: nat, key: Encoded): Posting
    requires DocOk(registry, contents, d)
  {
    var r := RowAt(contents, d.identity, d.position);
    var c := ContextOf(registry, r).column;
    Posting(NameOf(r), c.schema, c.ordinal, c.typeId, key, n)
  }

  function KeysOf(registry: Registry, contents: Contents, d: Doc): seq<Encoded>
    requires DocOk(registry, contents, d)
  {
    ContextOf(registry, RowAt(contents, d.identity, d.position)).values
  }

  /** Documents and postings agree with the parts they come from. */
  predicate SegmentOk(registry: Registry, contents: Contents, s: Segment) {
    && (forall n | 0 <= n < |s.docs| :: DocOk(registry, contents, s.docs[n]))
    && (forall p | p in s.postings :: p.doc < |s.docs| && PostingOf(registry, contents, s.docs[p.doc], p.doc, p))
    && (forall n, key | 0 <= n < |s.docs| && key in KeysOf(registry, contents, s.docs[n]) ::
          PostingFor(registry, contents, s.docs[n], n, key) in s.postings)
  }

  predicate HasDoc(docs: seq<Doc>, identity: string, position: nat) {
    exists n | 0 <= n < |docs| :: docs[n].identity == identity && docs[n].position == position
  }

  /** A relevant row is accounted for in the table summaries, and has its document if its summary is complete. */
  predicate RowIndexed(registry: Registry, s: Segment, path: string, identity: string, position: nat, r: Row) {
    Relevant(registry, r) ==>
      var c := ContextOf(registry, r);
      && !c.Irrelevant?
      && IdOf(path, r, c.column) in s.tables
      && s.tables[IdOf(path, r, c.column)].identity == identity
      && (s.tables[IdOf(path, r, c.column)].complete ==> c.Known? && HasDoc(s.docs, identity, position))
  }

  predicate PartIndexed(registry: Registry, s: Segment, path: string, identity: string, rows: seq<Row>) {
    forall i | 0 <= i < |rows| :: RowIndexed(registry, s, path, identity, i, rows[i])
  }

  predicate IsOf(registry: Registry, r: Row, name: TableName) { Relevant(registry, r) && NameOf(r) == name }

  /** A summary is there because of a row of its table, and incomplete because of one whose key cannot be told. */
  predicate SummaryJustified(registry: Registry, rows: seq<Row>, t: TableId, item: TableRow) {
    && (exists i | 0 <= i < |rows| :: IsOf(registry, rows[i], t.table))
    && (!item.complete ==> exists i | 0 <= i < |rows| :: IsOf(registry, rows[i], t.table) && !ContextOf(registry, rows[i]).Known?)
  }

  predicate PartJustified(registry: Registry, s: Segment, path: string, rows: seq<Row>) {
    forall t | t in s.tables && t.path == path :: SummaryJustified(registry, rows, t, s.tables[t])
  }

  // ---- building a segment ----

  /** A key of `_add_part`'s coverage: with the column's name. */
  datatype CoverageKey = CoverageKey(table: TableName, column: KeyColumn)

  type Coverage = map<CoverageKey, TableRow>

  /** What the coverage says about one row already seen. */
  predicate RowSeen(registry: Registry, docs: seq<Doc>, coverage: Coverage, identity: string, position: nat, r: Row) {
    Relevant(registry, r) ==>
      var c := ContextOf(registry, r);
      && !c.Irrelevant?
      && CoverageKey(NameOf(r), c.column) in coverage
      && (if c.Known? then HasDoc(docs, identity, position) else !coverage[CoverageKey(NameOf(r), c.column)].complete)
  }

  predicate HasKey(registry: Registry, r: Row, k: CoverageKey) {
    Relevant(registry, r) && NameOf(r) == k.table && !ContextOf(registry, r).Irrelevant? && ContextOf(registry, r).column == k.column
  }

  /** A summary is there because of a row, and incomplete because of a row whose key is not known. */
  predicate Justified(registry: Registry, rows: seq<Row>, upTo: nat, k: CoverageKey, item: TableRow)
    requires upTo <= |rows|
  {
    && (exists j | 0 <= j < upTo :: HasKey(registry, rows[j], k))
    && (!item.complete ==> exists j | 0 <= j < upTo :: HasKey(registry, rows[j], k) && !ContextOf(registry, rows[j]).Known?)
  }

  lemma RowSeenGrows(registry: Registry, docs: seq<Doc>, coverage: Coverage, more: seq<Doc>, wider: Coverage,
                     identity: string, position: nat, r: Row)
    requires RowSeen(registry, docs, coverage, identity, position, r) && docs <= more
    requires forall k | k in coverage :: k in wider && (wider[k].complete ==> coverage[k].complete)
    ensures RowSeen(registry, more, wider, identity, position, r)
  {
    if HasDoc(docs, identity, position) {
      var n :| 0 <= n < |docs| && docs[n].identity == identity && docs[n].position == position;
      assert more[n] == docs[n];
    }
  }

  /** A known row adds a document and its postings. */
  lemma DocAdded(registry: Registry, contents: Contents, s: Segment, d: Doc, postings: set<Posting>)
    requires SegmentOk(registry, contents, s) && DocOk(registry, contents, d)
    requires postings == s.postings + (set key | key in KeysOf(registry, contents, d) :: PostingFor(registry, contents, d, |s.docs|, key))
    ensures SegmentOk(registry, contents, Segment(s.docs + [d], postings, s.tables))
  {
    var docs, n := s.docs + [d], |s.docs|;
    forall p | p in postings ensures p.doc < |docs| && PostingOf(registry, contents, docs[p.doc], p.doc, p) {
      if p in s.postings {
        assert docs[p.doc] == s.docs[p.doc];
      } else {
        var key :| key in KeysOf(registry, contents, d) && p == PostingFor(registry, contents, d, n, key);
      }
    }
    forall m, key | 0 <= m < |docs| && key in KeysOf(registry, contents, docs[m])
      ensures PostingFor(registry, contents, docs[m], m, key) in postings
    {
      assert m < n ==> docs[m] == s.docs[m];
    }
  }

  /** The coverage of the first `upTo` rows. */
  predicate Covers(registry: Registry, docs: seq<Doc>, coverage: Coverage, identity: string, rows: seq<Row>, upTo: nat)
    requires upTo <= |rows|
  {
    && (forall j | 0 <= j < upTo :: RowSeen(registry, docs, coverage, identity, j, rows[j]))
    && forall k | k in coverage ::
         && coverage[k].identity == identity && (coverage[k].complete ==> coverage[k].rowEvents == coverage[k].indexedEvents)
         && Justified(registry, rows, upTo, k, coverage[k])
  }

  /** The loop body for a relevant row. */
  method RecordRow(registry: Registry, contents: Contents, s: Segment, coverage: Coverage, identity: string, i: nat)
    returns (after: Segment, wider: Coverage)
    requires SegmentOk(registry, contents, s) && IsRow(contents, identity, i)
    requires Relevant(registry, contents[identity][i]) && Covers(registry, s.docs, coverage, identity, contents[identity], i)
    ensures SegmentOk(registry, contents, after) && s.docs <= after.docs && after.tables == s.tables
    ensures Covers(registry, after.docs, wider, identity, contents[identity], i + 1)
  {
    var rows := contents[identity];
    var r := rows[i];
    var c := ContextOf(registry, r);
    assert !c.Irrelevant? && HasKey(registry, r, CoverageKey(NameOf(r), c.column));
    var k := CoverageKey(NameOf(r), c.column);
    var state := if k in coverage then coverage[k] else TableRow(identity, c.column.name, true, 0, 0);
    assert k in coverage ==> coverage[k].identity == identity && (state.complete ==> state.rowEvents == state.indexedEvents);
    if c.Known? {
      var d := Doc(identity, i, r.event, r.epoch, r.operation);
      var postings := s.postings + (set key | key in c.values :: PostingFor(registry, contents, d, |s.docs|, key));
      DocAdded(registry, contents, s, d, postings);
      assert HasDoc(s.docs + [d], identity, i) by {
        assert (s.docs + [d])[|s.docs|] == d;
      }
      hide *;
      after := Segment(s.docs + [d], postings, s.tables);
      var item := state.(rowEvents := state.rowEvents + 1, indexedEvents := state.indexedEvents + 1);
      wider := coverage[k := item];
      WiderCovers(registry, rows, i, identity, s.docs, coverage, after.docs, k, item);
    } else {
      hide *;
      after := s;
      var item := state.(rowEvents := state.rowEvents + 1, complete := false);
      wider := coverage[k := item];
      WiderCovers(registry, rows, i, identity, s.docs, coverage, after.docs, k, item);
    }
  }

  lemma WiderCovers(registry: Registry, rows: seq<Row>, i: nat, identity: string, docs: seq<Doc>, coverage: Coverage,
                    more: seq<Doc>, k: CoverageKey, item: TableRow)
    requires i < |rows| && Covers(registry, docs, coverage, identity, rows, i) && docs <= more
    requires HasKey(registry, rows[i], k) && item.identity == identity
    requires item.complete ==> item.rowEvents == item.indexedEvents
    requires if ContextOf(registry, rows[i]).Known?
             then HasDoc(more, identity, i) && item.complete == (k in coverage ==> coverage[k].complete) else !item.complete
    ensures Covers(registry, more, coverage[k := item], identity, rows, i + 1)
  {
    hide HasDoc;
    hide ContextOf;
    hide Justified;
    hide HasKey;
    hide Relevant;
    var wider := coverage[k := item];
    CoverageGrows(registry, rows, i, identity, docs, coverage, more, wider);
    LastRowSeen(registry, rows[i], identity, more, wider, i, k);
    hide RowSeen;
  }

  lemma LastRowSeen(registry: Registry, r: Row, identity: string, docs: seq<Doc>, coverage: Coverage, i: nat, k: CoverageKey)
    requires HasKey(registry, r, k) && k in coverage
    requires if ContextOf(registry, r).Known? then HasDoc(docs, identity, i) else !coverage[k].complete
    ensures RowSeen(registry, docs, coverage, identity, i, r)
  {
  }

  lemma SkippedRow(registry: Registry, docs: seq<Doc>, coverage: Coverage, identity: string, rows: seq<Row>, i: nat)
    requires i < |rows| && Covers(registry, docs, coverage, identity, rows, i) && !Relevant(registry, rows[i])
    ensures Covers(registry, docs, coverage, identity, rows, i + 1)
  {
    forall j | 0 <= j < i + 1 ensures RowSeen(registry, docs, coverage, identity, j, rows[j]) {
    }
    hide RowSeen;
    hide Relevant;
    hide HasKey;
    hide ContextOf;
    forall k | k in coverage ensures Justified(registry, rows, i + 1, k, coverage[k]) {
      JustifiedGrows(registry, rows, i, k, coverage[k]);
    }
    hide Justified;
  }

  lemma JustifiedGrows(registry: Registry, rows: seq<Row>, i: nat, k: CoverageKey, item: TableRow)
    requires i < |rows| && Justified(registry, rows, i, k, item)
    ensures Justified(registry, rows, i + 1, k, item)
  {
    hide HasKey;
    hide ContextOf;
  }

  /** The loop over one part's rows. */
  method ScanRows(registry: Registry, contents: Contents, s: Segment, identity: string) returns (after: Segment, coverage: Coverage)
    requires SegmentOk(registry, contents, s) && identity in contents
    ensures SegmentOk(registry, contents, after) && s.docs <= after.docs && after.tables == s.tables
    ensures Covers(registry, after.docs, coverage, identity, contents[identity], |contents[identity]|)
    ensures forall k | k in coverage :: coverage[k].complete ==> coverage[k].rowEvents == coverage[k].indexedEvents
  {
    hide SegmentOk;
    var rows := contents[identity];
    after, coverage := s, map[];
    var i := 0;
    assert Covers(registry, s.docs, map[], identity, rows, 0);
    hide Covers;
    while i < |rows|
      invariant 0 <= i <= |rows|
      invariant SegmentOk(registry, contents, after) && s.docs <= after.docs && after.tables == s.tables
      invariant Covers(registry, after.docs, coverage, identity, rows, i)
    {
      if Relevant(registry, rows[i]) {
        after, coverage := RecordRow(registry, contents, after, coverage, identity, i);
      } else {
        SkippedRow(registry, after.docs, coverage, identity, rows, i);
      }
      i := i + 1;
    }
    CompleteMeansAllIndexed(registry, after.docs, coverage, identity, rows);
  }

  lemma CompleteMeansAllIndexed(registry: Registry, docs: seq<Doc>, coverage: Coverage, identity: string, rows: seq<Row>)
    requires Covers(registry, docs, coverage, identity, rows, |rows|)
    ensures forall k | k in coverage :: coverage[k].complete ==> coverage[k].rowEvents == coverage[k].indexedEvents
  {
    hide RowSeen;
    hide Justified;
  }

  lemma CoverageGrows(registry: Registry, rows: seq<Row>, i: nat, identity: string, docs: seq<Doc>, before: Coverage,
                      more: seq<Doc>, coverage: Coverage)
    requires i < |rows| && docs <= more
    requires forall j | 0 <= j < i :: RowSeen(registry, docs, before, identity, j, rows[j])
    requires forall k | k in before :: k in coverage && (coverage[k].complete ==> before[k].complete)
    requires forall k | k in before :: Justified(registry, rows, i, k, before[k])
    requires forall k | k in coverage ::
               (k in before && coverage[k] == before[k])
               || (HasKey(registry, rows[i], k)
                   && (if ContextOf(registry, rows[i]).Known? then k !in before || coverage[k].complete == before[k].complete
                       else !coverage[k].complete)
                   && (k in before || coverage[k].complete || !ContextOf(registry, rows[i]).Known?))
    ensures forall j | 0 <= j < i :: RowSeen(registry, more, coverage, identity, j, rows[j])
    ensures forall k | k in coverage :: Justified(registry, rows, i + 1, k, coverage[k])
  {
    hide RowSeen;
    forall j | 0 <= j < i ensures RowSeen(registry, more, coverage, identity, j, rows[j]) {
      RowSeenGrows(registry, docs, before, more, coverage, identity, j, rows[j]);
    }
    forall k | k in coverage ensures Justified(registry, rows, i + 1, k, coverage[k]) {
      if k in before {
        assert Justified(registry, rows, i, k, before[k]);
      }
      hide HasKey;
    }
  }

  /** The summaries inserted for the keys of `done`, beside those that were there. */
  ghost predicate Inserted(old_: map<TableId, TableRow>, tables: map<TableId, TableRow>, coverage: Coverage, done: set<CoverageKey>,
                           path: string)
  {
    && (forall t | t in old_ :: t in tables && tables[t] == old_[t])
    && (forall t | t in tables && t !in old_ :: exists k | k in done && k in coverage :: IdOfKey(path, k) == t && tables[t] == coverage[k])
    && (forall k | k in done && k in coverage :: IdOfKey(path, k) in tables && tables[IdOfKey(path, k)] == coverage[k])
  }

  lemma InsertOne(old_: map<TableId, TableRow>, tables: map<TableId, TableRow>, coverage: Coverage, done: set<CoverageKey>,
                  path: string, k: CoverageKey)
    requires Inserted(old_, tables, coverage, done, path) && k in coverage && IdOfKey(path, k) !in tables
    ensures Inserted(old_, tables[IdOfKey(path, k) := coverage[k]], coverage, done + {k}, path)
  {
    var more := tables[IdOfKey(path, k) := coverage[k]];
    forall t | t in more && t !in old_
      ensures exists j | j in done + {k} && j in coverage :: IdOfKey(path, j) == t && more[t] == coverage[j]
    {
      if t == IdOfKey(path, k) {
        assert k in done + {k};
      } else {
        var j :| j in done && j in coverage && IdOfKey(path, j) == t && tables[t] == coverage[j];
        assert j in done + {k};
      }
    }
  }

  /** With all summaries in, the part is indexed. */
  lemma CoverageIndexes(registry: Registry, s: Segment, docs: seq<Doc>, coverage: Coverage, old_: map<TableId, TableRow>, path: string,
                        identity: string, rows: seq<Row>)
    requires Covers(registry, docs, coverage, identity, rows, |rows|) && docs == s.docs
    requires Inserted(old_, s.tables, coverage, coverage.Keys, path)
    ensures PartIndexed(registry, s, path, identity, rows)
  {
    forall i | 0 <= i < |rows| ensures RowIndexed(registry, s, path, identity, i, rows[i]) {
      var r := rows[i];
      assert RowSeen(registry, docs, coverage, identity, i, r);
      if Relevant(registry, r) {
        var k := CoverageKey(NameOf(r), ContextOf(registry, r).column);
        assert k in coverage.Keys && IdOfKey(path, k) == IdOf(path, r, k.column);
      }
      hide HasDoc;
      hide ContextOf;
      hide Justified;
    }
  }

  /** A summary of the part, or of none of its rows' making. */
  ghost predicate SummaryOk(registry: Registry, rows: seq<Row>, path: string, t: TableId, item: TableRow) {
    t.path == path && exists k | IdOfKey(path, k) == t :: Justified(registry, rows, |rows|, k, item)
  }

  lemma SummaryIsJustified(registry: Registry, rows: seq<Row>, path: string, t: TableId, item: TableRow)
    requires SummaryOk(registry, rows, path, t, item)
    ensures t.path == path && SummaryJustified(registry, rows, t, item)
  {
    hide ContextOf;
    hide Relevant;
    var k :| IdOfKey(path, k) == t && Justified(registry, rows, |rows|, k, item);
    var i :| 0 <= i < |rows| && HasKey(registry, rows[i], k);
    assert IsOf(registry, rows[i], t.table);
    if !item.complete {
      var j :| 0 <= j < |rows| && HasKey(registry, rows[j], k) && !ContextOf(registry, rows[j]).Known?;
      assert IsOf(registry, rows[j], t.table);
    }
  }

  // ---- summaries that cannot be stored ----

  /** The row's summary has this key of `part_tables`, less the path. */
  function KeyOf(registry: Registry, r: Row): Option<CoverageKey> {
    var c := ContextOf(registry, r);
    if Relevant(registry, r) && !c.Irrelevant? then Some(CoverageKey(NameOf(r), c.column)) else None
  }

  /** Two summaries of one key: their columns differ in nothing but the name, which `part_tables` leaves out of its key. */
  predicate SameSummary(k: CoverageKey, j: CoverageKey) { IdOfKey("", k) == IdOfKey("", j) }

  predicate RowsClash(registry: Registry, a: Row, b: Row) {
    var k, j := KeyOf(registry, a), KeyOf(registry, b);
    k.Some? && j.Some? && k != j && SameSummary(k.value, j.value)
  }

  predicate PartClashes(registry: Registry, rows: seq<Row>) {
    exists i, j | 0 <= i < |rows| && 0 <= j < |rows| :: RowsClash(registry, rows[i], rows[j])
  }

  predicate Taken(registry: Registry, path: string, tables: map<TableId, TableRow>, r: Row) {
    KeyOf(registry, r).Some? && IdOfKey(path, KeyOf(registry, r).value) in tables
  }

  ghost predicate CannotInsert(old_: map<TableId, TableRow>, coverage: Coverage, path: string) {
    || (exists k | k in coverage :: IdOfKey(path, k) in old_)
    || (exists k, j | k in coverage && j in coverage :: k != j && SameSummary(k, j))
  }

  /** The coverage has the keys of the rows, and no others. */
  ghost predicate KeysAreRows(registry: Registry, rows: seq<Row>, coverage: Coverage) {
    && (forall i | 0 <= i < |rows| :: KeyOf(registry, rows[i]).Some? ==> KeyOf(registry, rows[i]).value in coverage)
    && forall k | k in coverage :: exists i | 0 <= i < |rows| :: KeyOf(registry, rows[i]) == Some(k)
  }

  lemma CoversKeys(registry: Registry, docs: seq<Doc>, coverage: Coverage, identity: string, rows: seq<Row>)
    requires Covers(registry, docs, coverage, identity, rows, |rows|)
    ensures KeysAreRows(registry, rows, coverage)
  {
    forall i | 0 <= i < |rows| ensures KeyOf(registry, rows[i]).Some? ==> KeyOf(registry, rows[i]).value in coverage {
      assert RowSeen(registry, docs, coverage, identity, i, rows[i]);
      hide ContextOf;
      hide HasDoc;
      hide Relevant;
      hide Justified;
    }
    forall k | k in coverage ensures exists i | 0 <= i < |rows| :: KeyOf(registry, rows[i]) == Some(k) {
      assert Justified(registry, rows, |rows|, k, coverage[k]);
      hide Covers;
      hide Justified;
      KeyHasRow(registry, rows, k, coverage[k]);
      hide KeyOf;
    }
  }

  lemma ClashOfRows(registry: Registry, rows: seq<Row>, coverage: Coverage)
    requires KeysAreRows(registry, rows, coverage)
    ensures (exists k, j | k in coverage && j in coverage :: k != j && SameSummary(k, j)) <==> PartClashes(registry, rows)
  {
    hide KeyOf;
    hide SameSummary;
    if PartClashes(registry, rows) {
      var i, j :| 0 <= i < |rows| && 0 <= j < |rows| && RowsClash(registry, rows[i], rows[j]);
      assert SameSummary(KeyOf(registry, rows[i]).value, KeyOf(registry, rows[j]).value);
    }
    if k, j :| k in coverage && j in coverage && k != j && SameSummary(k, j) {
      var a :| 0 <= a < |rows| && KeyOf(registry, rows[a]) == Some(k);
      var b :| 0 <= b < |rows| && KeyOf(registry, rows[b]) == Some(j);
      assert RowsClash(registry, rows[a], rows[b]);
    }
  }

  lemma TakenByRows(registry: Registry, rows: seq<Row>, coverage: Coverage, old_: map<TableId, TableRow>, path: string)
    requires KeysAreRows(registry, rows, coverage)
    ensures (exists k | k in coverage :: IdOfKey(path, k) in old_)
       <==> exists i | 0 <= i < |rows| :: Taken(registry, path, old_, rows[i])
  {
    hide KeyOf;
    hide IdOfKey;
    if k :| k in coverage && IdOfKey(path, k) in old_ {
      var a :| 0 <= a < |rows| && KeyOf(registry, rows[a]) == Some(k);
      assert Taken(registry, path, old_, rows[a]);
    }
    if i :| 0 <= i < |rows| && Taken(registry, path, old_, rows[i]) {
      assert KeyOf(registry, rows[i]).value in coverage;
    }
  }

  /** A coverage cannot be stored exactly when the rows it covers clash with each other or with what is stored. */
  lemma CannotInsertRows(registry: Registry, docs: seq<Doc>, coverage: Coverage, identity: string, rows: seq<Row>,
                         old_: map<TableId, TableRow>, path: string)
    requires Covers(registry, docs, coverage, identity, rows, |rows|)
    ensures CannotInsert(old_, coverage, path)
       <==> PartClashes(registry, rows) || exists i | 0 <= i < |rows| :: Taken(registry, path, old_, rows[i])
  {
    CoversKeys(registry, docs, coverage, identity, rows);
    hide Covers;
    hide KeysAreRows;
    hide PartClashes;
    hide Taken;
    hide SameSummary;
    ClashOfRows(registry, rows, coverage);
    TakenByRows(registry, rows, coverage, old_, path);
  }

  lemma KeyHasRow(registry: Registry, rows: seq<Row>, k: CoverageKey, item: TableRow)
    requires Justified(registry, rows, |rows|, k, item)
    ensures exists i | 0 <= i < |rows| :: KeyOf(registry, rows[i]) == Some(k)
  {
    var i :| 0 <= i < |rows| && HasKey(registry, rows[i], k);
    assert KeyOf(registry, rows[i]) == Some(k);
  }

  predicate WrongCount(part: Part, rows: seq<Row>) { part.rowCount != 0 && part.rowCount != |rows| }

  /** `_add_part`: refuses exactly where the metadata has another row count, or where two summaries would share a key, among
      themselves or with the segment. */
  method AddPart(registry: Registry, contents: Contents, s: Segment, part: Part) returns (result: Option<Segment>)
    requires SegmentOk(registry, contents, s) && part.identity in contents
    ensures var rows := contents[part.identity];
            result.None? <==> WrongCount(part, rows) || PartClashes(registry, rows)
                              || exists i | 0 <= i < |rows| :: Taken(registry, part.path, s.tables, rows[i])
    ensures result.Some? ==>
              && SegmentOk(registry, contents, result.value) && s.docs <= result.value.docs
              && PartIndexed(registry, result.value, part.path, part.identity, contents[part.identity])
              && (forall t | t in s.tables :: t in result.value.tables && result.value.tables[t] == s.tables[t])
              && (forall t | t in result.value.tables && t !in s.tables ::
                    SummaryOk(registry, contents[part.identity], part.path, t, result.value.tables[t]))
  {
    hide *;
    var after, coverage := ScanRows(registry, contents, s, part.identity);
    CannotInsertRows(registry, after.docs, coverage, part.identity, contents[part.identity], s.tables, part.path);
    var tables := InsertSummaries(after.tables, coverage, part.path);
    if tables.None? || WrongCount(part, contents[part.identity]) {
      return None;
    }
    var done := Segment(after.docs, after.postings, tables.value);
    CoverageIndexes(registry, done, after.docs, coverage, s.tables, part.path, part.identity, contents[part.identity]);
    NewSummaries(registry, after.docs, coverage, part, contents[part.identity], s.tables, tables.value);
    KeepsSegmentOk(registry, contents, after, tables.value);
    result := Some(done);
  }

  /** The summaries of one part; a summary whose counts disagree would be incomplete. */
  method InsertSummaries(old_: map<TableId, TableRow>, coverage: Coverage, path: string)
    returns (result: Option<map<TableId, TableRow>>)
    requires forall k | k in coverage :: coverage[k].complete ==> coverage[k].rowEvents == coverage[k].indexedEvents
    ensures result.None? <==> CannotInsert(old_, coverage, path)
    ensures result.Some? ==> Inserted(old_, result.value, coverage, coverage.Keys, path)
  {
    var tables, done := old_, {};
    while coverage.Keys - done != {}
      invariant done <= coverage.Keys && Inserted(old_, tables, coverage, done, path)
      invariant Apart(old_, done, path)
      decreases coverage.Keys - done
    {
      var k: CoverageKey :| k in coverage.Keys - done;
      var id := IdOfKey(path, k);
      if id in tables {
        TakenTwice(old_, tables, coverage, done, path, k);
        return None;
      }
      ApartGrows(old_, tables, coverage, done, path, k);
      var item := coverage[k];
      if item.rowEvents != item.indexedEvents {
        item := item.(complete := false);
      }
      InsertOne(old_, tables, coverage, done, path, k);
      hide Inserted;
      tables := tables[id := item];
      done := done + {k};
    }
    forall k | k in coverage.Keys ensures k in done {
      assert k in done || k in coverage.Keys - done;
    }
    assert done == coverage.Keys;
    result := Some(tables);
  }

  /** The keys of `done` have summaries of their own. */
  ghost predicate Apart(old_: map<TableId, TableRow>, done: set<CoverageKey>, path: string) {
    && (forall k | k in done :: IdOfKey(path, k) !in old_)
    && (forall k, j | k in done && j in done :: SameSummary(k, j) ==> k == j)
  }

  lemma ApartGrows(old_: map<TableId, TableRow>, tables: map<TableId, TableRow>, coverage: Coverage, done: set<CoverageKey>,
                   path: string, k: CoverageKey)
    requires Inserted(old_, tables, coverage, done, path) && Apart(old_, done, path) && done <= coverage.Keys
    requires IdOfKey(path, k) !in tables
    ensures Apart(old_, done + {k}, path)
  {
    forall j | j in done ensures !SameSummary(k, j) && !SameSummary(j, k) {
      assert IdOfKey(path, j) in tables;
    }
  }

  lemma TakenTwice(old_: map<TableId, TableRow>, tables: map<TableId, TableRow>, coverage: Coverage, done: set<CoverageKey>,
                   path: string, k: CoverageKey)
    requires Inserted(old_, tables, coverage, done, path) && done <= coverage.Keys
    requires k in coverage && k !in done && IdOfKey(path, k) in tables
    ensures CannotInsert(old_, coverage, path)
  {
    if IdOfKey(path, k) !in old_ {
      var j :| j in done && j in coverage && IdOfKey(path, j) == IdOfKey(path, k);
      assert SameSummary(k, j);
    }
  }

  lemma NewSummaries(registry: Registry, docs: seq<Doc>, coverage: Coverage, part: Part, rows: seq<Row>,
                     old_: map<TableId, TableRow>, tables: map<TableId, TableRow>)
    requires Covers(registry, docs, coverage, part.identity, rows, |rows|)
    requires Inserted(old_, tables, coverage, coverage.Keys, part.path)
    ensures forall t | t in old_ :: t in tables && tables[t] == old_[t]
    ensures forall t | t in tables && t !in old_ :: SummaryOk(registry, rows, part.path, t, tables[t])
  {
    forall t | t in tables && t !in old_ ensures SummaryOk(registry, rows, part.path, t, tables[t]) {
      var k :| k in coverage.Keys && k in coverage && IdOfKey(part.path, k) == t && tables[t] == coverage[k];
      assert Justified(registry, rows, |rows|, k, tables[t]);
    }
  }

  lemma KeepsSegmentOk(registry: Registry, contents: Contents, s: Segment, tables: map<TableId, TableRow>)
    requires SegmentOk(registry, contents, s)
    ensures SegmentOk(registry, contents, Segment(s.docs, s.postings, tables))
  {
  }

  function IdOfKey(path: string, k: CoverageKey): TableId {
    TableId(path, k.table, k.column.schema, k.column.ordinal, k.column.typeId)
  }

  /** Adding another part takes nothing from the parts already indexed. */
  lemma IndexedGrows(registry: Registry, s: Segment, after: Segment, path: string, identity: string, rows: seq<Row>)
    requires PartIndexed(registry, s, path, identity, rows) && s.docs <= after.docs
    requires forall t | t in s.tables :: t in after.tables && after.tables[t] == s.tables[t]
    ensures PartIndexed(registry, after, path, identity, rows)
  {
    forall i | 0 <= i < |rows| ensures RowIndexed(registry, after, path, identity, i, rows[i]) {
      assert RowIndexed(registry, s, path, identity, i, rows[i]);
      if HasDoc(s.docs, identity, i) {
        var n :| 0 <= n < |s.docs| && s.docs[n].identity == identity && s.docs[n].position == i;
        assert after.docs[n] == s.docs[n];
      }
    }
  }

  // ---- the index ----

  /** A segment file with the registry it was built under. */
  datatype SegmentFile = SegmentFile(registry: Registry, segment: Segment)

  /** One row of `segment_parts`. */
  datatype Entry = Entry(segment: nat, identity: string)

  /** A catalog of a part: whether it is of the part's own digest, and the names in it. */
  datatype Catalog = Catalog(current: bool, databases: set<string>, tables: set<string>)

  type Catalogs = map<string, Catalog>

  /** `_catalog_excludes` */
  predicate Excludes(catalogs: Catalogs, path: string, name: TableName) {
    path in catalogs && catalogs[path].current
    && (name.database !in catalogs[path].databases || name.table !in catalogs[path].tables)
  }

  /** A current catalog names every table its part has rows of. */
  predicate Truthful(catalogs: Catalogs, contents: Contents, p: Part) {
    p.path in catalogs && catalogs[p.path].current && p.identity in contents ==>
      forall r | r in contents[p.identity] && !r.operation.Unrelated? ::
        r.database in catalogs[p.path].databases && r.table in catalogs[p.path].tables
  }

  datatype Index = Index(registry: Registry, files: map<nat, SegmentFile>, entries: map<string, Entry>, tables: map<TableId, TableRow>)

  predicate FilesOk(x: Index, contents: Contents) {
    forall f | f in x.files :: SegmentOk(x.files[f].registry, contents, x.files[f].segment)
  }

  predicate EntryOk(x: Index, contents: Contents, path: string, e: Entry) {
    && e.segment in x.files && e.identity in contents
    && PartIndexed(x.files[e.segment].registry, x.files[e.segment].segment, path, e.identity, contents[e.identity])
    && PartJustified(x.files[e.segment].registry, x.files[e.segment].segment, path, contents[e.identity])
  }

  predicate EntriesOk(x: Index, contents: Contents) { forall p | p in x.entries :: EntryOk(x, contents, p, x.entries[p]) }

  /** The summaries of a path in the manifest are those of its segment. */
  ghost predicate TablesOk(x: Index)
    requires forall p | p in x.entries :: x.entries[p].segment in x.files
  {
    && (forall t: TableId | t.path in x.entries && t in x.files[x.entries[t.path].segment].segment.tables ::
          t in x.tables && x.tables[t] == x.files[x.entries[t.path].segment].segment.tables[t])
    && (forall t | t in x.tables ::
          t.path in x.entries && t in x.files[x.entries[t.path].segment].segment.tables)
  }

  /** Segments agree with the parts, and the manifest with the segments. */
  ghost predicate Valid(x: Index, contents: Contents) {
    FilesOk(x, contents) && EntriesOk(x, contents) && TablesOk(x)
  }

  /** The part is in a segment of this registry, under this identity. */
  predicate Current(x: Index, p: Part) {
    && p.path in x.entries && x.entries[p.path].identity == p.identity
    && x.entries[p.path].segment in x.files && x.files[x.entries[p.path].segment].registry == x.registry
  }

  predicate OfTable(x: Index, p: Part, name: TableName, t: TableId) {
    t in x.tables && t.path == p.path && t.table == name && x.tables[t].identity == p.identity
  }

  predicate PartCovered(x: Index, catalogs: Catalogs, p: Part, name: TableName) {
    if Current(x, p) then forall t | t in x.tables && OfTable(x, p, name, t) :: x.tables[t].complete
    else Excludes(catalogs, p.path, name)
  }

  predicate Uses(x: Index, p: Part, name: TableName) { Current(x, p) && exists t | t in x.tables :: OfTable(x, p, name, t) }

  /** `coverage`: complete when every part is covered; the segments that hold rows of the table. */
  method CoverageOf(x: Index, parts: seq<Part>, catalogs: Catalogs, name: TableName) returns (complete: bool, segments: set<nat>)
    ensures complete <==> (x.registry == map[] || name in Registered(x.registry))
                          && forall p | p in parts :: PartCovered(x, catalogs, p, name)
    ensures complete ==> forall f :: f in segments <==> exists p | p in parts && Uses(x, p, name) :: x.entries[p.path].segment == f
  {
    complete, segments := true, {};
    if x.registry != map[] && name !in Registered(x.registry) {
      return false, {};
    }
    var i := 0;
    while i < |parts|
      invariant 0 <= i <= |parts|
      invariant complete <==> forall p | p in parts[..i] :: PartCovered(x, catalogs, p, name)
      invariant complete ==>
                  forall f :: f in segments <==> exists p | p in parts[..i] && Uses(x, p, name) :: x.entries[p.path].segment == f
    {
      var p := parts[i];
      assert parts[..i + 1] == parts[..i] + [p];
      assert forall q :: q in parts[..i + 1] <==> q in parts[..i] || q == p;
      var covered, used := PartState(x, catalogs, p, name);
      hide PartCovered;
      hide Uses;
      complete := complete && covered;
      if used {
        segments := segments + {x.entries[p.path].segment};
      }
      i := i + 1;
    }
    assert parts[..|parts|] == parts;
  }

  /** One part: whether it is covered, and whether its segment is needed. */
  method PartState(x: Index, catalogs: Catalogs, p: Part, name: TableName) returns (covered: bool, used: bool)
    ensures covered == PartCovered(x, catalogs, p, name)
    ensures covered ==> used == Uses(x, p, name)
    ensures used ==> Current(x, p)
  {
    if !Current(x, p) {
      return Excludes(catalogs, p.path, name), false;
    }
    var rows := set t | t in x.tables && OfTable(x, p, name, t) :: t;
    if exists t | t in rows :: !x.tables[t].complete {
      return false, false;
    }
    covered, used := true, rows != {};
    if used {
      var t :| t in rows;
      assert OfTable(x, p, name, t);
    }
    assert forall t | t in x.tables && OfTable(x, p, name, t) :: t in rows;
  }

  // ---- publishing a segment ----

  function PathsOf(parts: seq<Part>): set<string> { set p | p in parts :: p.path }

  predicate DistinctPaths(parts: seq<Part>) { forall i, j | 0 <= i < j < |parts| :: parts[i].path != parts[j].path }

  /** The segment of the first parts of a build. */
  ghost predicate Built(registry: Registry, contents: Contents, s: Segment, parts: seq<Part>) {
    && SegmentOk(registry, contents, s)
    && (forall p | p in parts :: p.identity in contents && PartIndexed(registry, s, p.path, p.identity, contents[p.identity]))
    && (forall p | p in parts :: PartJustified(registry, s, p.path, contents[p.identity]))
    && forall t | t in s.tables :: t.path in PathsOf(parts)
  }

  lemma JustifiedStays(registry: Registry, contents: Contents, s: Segment, after: Segment, parts: seq<Part>, p: Part)
    requires (forall q | q in parts :: q.identity in contents && PartJustified(registry, s, q.path, contents[q.identity]))
    requires p.identity in contents && p.path !in PathsOf(parts) && forall t | t in s.tables :: t.path in PathsOf(parts)
    requires forall t | t in s.tables :: t in after.tables && after.tables[t] == s.tables[t]
    requires forall t | t in after.tables && t !in s.tables ::
               t.path == p.path && SummaryJustified(registry, contents[p.identity], t, after.tables[t])
    ensures forall q | q in parts + [p] :: PartJustified(registry, after, q.path, contents[q.identity])
  {
    hide IsOf;
    hide ContextOf;
    forall q | q in parts + [p] ensures PartJustified(registry, after, q.path, contents[q.identity]) {
      if q in parts {
        assert q.path in PathsOf(parts);
        assert forall t | t in after.tables && t.path == q.path :: t in s.tables;
      }
    }
  }

  lemma BuiltGrows(registry: Registry, contents: Contents, s: Segment, after: Segment, parts: seq<Part>, p: Part)
    requires Built(registry, contents, s, parts) && SegmentOk(registry, contents, after) && s.docs <= after.docs
    requires p.identity in contents && PartIndexed(registry, after, p.path, p.identity, contents[p.identity])
    requires forall t | t in s.tables :: t in after.tables && after.tables[t] == s.tables[t]
    requires forall t | t in after.tables && t !in s.tables :: SummaryOk(registry, contents[p.identity], p.path, t, after.tables[t])
    requires p.path !in PathsOf(parts)
    ensures Built(registry, contents, after, parts + [p])
  {
    hide SegmentOk;
    hide SummaryJustified;
    hide ContextOf;
    hide Justified;
    hide IdOfKey;
    hide PartJustified;
    forall q | q in parts ensures PartIndexed(registry, after, q.path, q.identity, contents[q.identity]) {
      IndexedGrows(registry, s, after, q.path, q.identity, contents[q.identity]);
    }
    hide PartIndexed;
    forall t | t in after.tables && t !in s.tables
      ensures t.path == p.path && SummaryJustified(registry, contents[p.identity], t, after.tables[t])
    {
      SummaryIsJustified(registry, contents[p.identity], p.path, t, after.tables[t]);
    }
    hide SummaryOk;
    JustifiedStays(registry, contents, s, after, parts, p);
    assert forall q :: q in parts + [p] <==> q in parts || q == p;
    forall t | t in after.tables ensures t.path in PathsOf(parts + [p]) {
      if t in s.tables {
        var q :| q in parts && q.path == t.path;
        assert q in parts + [p];
      } else {
        assert p in parts + [p];
      }
    }
  }

  /** The manifest transaction: the paths' old rows go, the new ones come. */
  function Published(x: Index, id: nat, s: Segment, parts: seq<Part>): Index {
    var paths := PathsOf(parts);
    Index(x.registry, x.files[id := SegmentFile(x.registry, s)],
          map p | p in x.entries.Keys + paths :: if p in paths then Entry(id, IdentityAt(parts, p)) else x.entries[p],
          map t | t in x.tables.Keys + s.tables.Keys && (t in s.tables || t.path !in paths) ::
            if t in s.tables then s.tables[t] else x.tables[t])
  }

  function IdentityAt(parts: seq<Part>, path: string): string
    requires path in PathsOf(parts)
  {
    if parts[|parts| - 1].path == path then parts[|parts| - 1].identity
    else IdentityAt(parts[..|parts| - 1], path)
  }

  lemma {:induction false} IdentityAtMeans(parts: seq<Part>, p: Part)
    requires DistinctPaths(parts) && p in parts
    ensures p.path in PathsOf(parts) && IdentityAt(parts, p.path) == p.identity
  {
    var n := |parts| - 1;
    if p != parts[n] {
      var i :| 0 <= i < |parts| && parts[i] == p;
      assert parts[..n][i] == p;
      IdentityAtMeans(parts[..n], p);
    }
  }

  lemma PublishedEntries(x: Index, contents: Contents, id: nat, s: Segment, parts: seq<Part>)
    requires EntriesOk(x, contents) && id !in x.files && DistinctPaths(parts) && Built(x.registry, contents, s, parts)
    ensures EntriesOk(Published(x, id, s, parts), contents)
    ensures forall p | p in parts :: Current(Published(x, id, s, parts), p)
  {
    hide SegmentOk;
    hide PartIndexed;
    forall p | p in parts ensures p.path in PathsOf(parts) && IdentityAt(parts, p.path) == p.identity {
      IdentityAtMeans(parts, p);
    }
    hide IdentityAt;
    hide DistinctPaths;
    var y := Published(x, id, s, parts);
    forall path | path in y.entries ensures EntryOk(y, contents, path, y.entries[path]) {
      if path in PathsOf(parts) {
        var p :| p in parts && p.path == path;
      } else {
        assert EntryOk(x, contents, path, x.entries[path]);
      }
    }
  }

  /** Entry by entry and row by row, what publishing does. */
  lemma PublishedFields(x: Index, id: nat, s: Segment, parts: seq<Part>)
    requires forall t | t in s.tables :: t.path in PathsOf(parts)
    ensures var y, paths := Published(x, id, s, parts), PathsOf(parts);
            && y.files == x.files[id := SegmentFile(x.registry, s)] && y.entries.Keys == x.entries.Keys + paths
            && (forall p | p in y.entries :: y.entries[p].segment == if p in paths then id else x.entries[p].segment)
            && (forall t: TableId :: t in y.tables <==> if t.path in paths then t in s.tables else t in x.tables)
            && forall t | t in y.tables :: y.tables[t] == if t.path in paths then s.tables[t] else x.tables[t]
  {
    hide IdentityAt;
    hide PathsOf;
  }

  lemma PublishedTables(x: Index, id: nat, s: Segment, parts: seq<Part>)
    requires (forall p | p in x.entries :: x.entries[p].segment in x.files) && TablesOk(x) && id !in x.files
    requires forall t | t in s.tables :: t.path in PathsOf(parts)
    ensures var y := Published(x, id, s, parts); (forall p | p in y.entries :: y.entries[p].segment in y.files) && TablesOk(y)
  {
    hide Published;
    hide PathsOf;
    PublishedFields(x, id, s, parts);
    var y, paths := Published(x, id, s, parts), PathsOf(parts);
    forall p | p in y.entries ensures y.entries[p].segment in y.files {
    }
    forall t: TableId | t.path in y.entries
      ensures var f := y.entries[t.path].segment;
              && (t in y.tables <==> t in y.files[f].segment.tables)
              && (t in y.tables ==> y.tables[t] == y.files[f].segment.tables[t])
    {
      if t.path !in paths {
        assert x.entries[t.path].segment != id;
      }
    }
  }

  /** A published segment leaves a valid index, in which each of its parts is current. */
  lemma PublishedIsValid(x: Index, contents: Contents, id: nat, s: Segment, parts: seq<Part>)
    requires Valid(x, contents) && id !in x.files && DistinctPaths(parts) && Built(x.registry, contents, s, parts)
    ensures Valid(Published(x, id, s, parts), contents)
    ensures forall p | p in parts :: Current(Published(x, id, s, parts), p)
  {
    hide SegmentOk;
    hide PartIndexed;
    forall p | p in x.entries ensures x.entries[p].segment in x.files {
      assert EntryOk(x, contents, p, x.entries[p]);
    }
    PublishedEntries(x, contents, id, s, parts);
    PublishedTables(x, id, s, parts);
    hide EntriesOk;
    hide TablesOk;
    hide Current;
    assert FilesOk(Published(x, id, s, parts), contents);
  }

  /** Tables of earlier parts are not in the way of the next one. */
  lemma NothingTaken(registry: Registry, contents: Contents, s: Segment, parts: seq<Part>, i: nat)
    requires i < |parts| && DistinctPaths(parts) && Built(registry, contents, s, parts[..i])
    ensures forall r :: !Taken(registry, parts[i].path, s.tables, r)
  {
    assert parts[i].path !in PathsOf(parts[..i]);
    hide KeyOf;
    forall k ensures IdOfKey(parts[i].path, k) !in s.tables {
      assert IdOfKey(parts[i].path, k).path == parts[i].path;
    }
  }

  /** `build_segment`: all parts into one new segment, then into the manifest; or nothing at all. */
  method BuildSegment(x: Index, contents: Contents, parts: seq<Part>, id: nat) returns (result: Option<Index>)
    requires Valid(x, contents) && id !in x.files
    requires forall p | p in parts :: p.identity in contents
    ensures result.None? <==>
              !DistinctPaths(parts)
              || exists p | p in parts :: WrongCount(p, contents[p.identity]) || PartClashes(x.registry, contents[p.identity])
    ensures result.Some? ==> Valid(result.value, contents) && forall p | p in parts :: Current(result.value, p)
  {
    if parts == [] {
      return Some(x);
    }
    if !DistinctPaths(parts) {
      return None;
    }
    hide PartClashes;
    hide Taken;
    var s := Segment([], {}, map[]);
    var i := 0;
    assert Built(x.registry, contents, s, []);
    while i < |parts|
      invariant 0 <= i <= |parts| && Built(x.registry, contents, s, parts[..i])
      invariant forall p | p in parts[..i] :: !WrongCount(p, contents[p.identity]) && !PartClashes(x.registry, contents[p.identity])
    {
      assert parts[..i + 1] == parts[..i] + [parts[i]];
      assert SegmentOk(x.registry, contents, s);
      hide SegmentOk;
      hide PartIndexed;
      NothingTaken(x.registry, contents, s, parts, i);
      var more := AddPart(x.registry, contents, s, parts[i]);
      if more.None? {
        assert parts[i] in parts;
        return None;
      }
      BuiltGrows(x.registry, contents, s, more.value, parts[..i], parts[i]);
      s := more.value;
      i := i + 1;
    }
    assert parts[..|parts|] == parts;
    PublishedIsValid(x, contents, id, s, parts);
    result := Some(Published(x, id, s, parts));
  }

  // ---- looking up a key ----

  /** A row found: its part and its place in it. */
  datatype Hit = Hit(identity: string, position: nat)

  datatype Search = Search(name: TableName, value: Value, startUs: int, endUs: int, operations: set<Operation>)

  predicate InScope(q: Search, epoch: int, operation: Operation) {
    q.startUs <= epoch <= q.endUs && (q.operations == {} || operation in q.operations)
  }

  /** What reading a part row by row would accept. */
  predicate Accepted(registry: Registry, q: Search, r: Row) {
    && NameOf(r) == q.name && PrimaryKeyMatch(r, MappingFor(registry, r), q.value) == Some(true)
    && InScope(q, r.epoch, r.operation)
  }

  predicate BruteForce(registry: Registry, contents: Contents, parts: seq<Part>, q: Search, h: Hit) {
    && IsRow(contents, h.identity, h.position)
    && (exists p | p in parts :: p.identity == h.identity)
    && Accepted(registry, q, RowAt(contents, h.identity, h.position))
  }

  datatype Schema = Schema(schema: string, ordinal: int, typeId: int)

  function SchemasOf(s: Segment, name: TableName): set<Schema> {
    set t | t in s.tables && t.table == name && s.tables[t].complete :: Schema(t.schema, t.ordinal, t.typeId)
  }

  /** A posting that one of the schemas asks for. */
  predicate Asked(schemas: set<Schema>, q: Search, p: Posting) {
    && p.table == q.name && Schema(p.schema, p.ordinal, p.typeId) in schemas
    && Canonical(q.value, p.typeId, true) == Some(p.key)
  }

  predicate SegmentHit(s: Segment, q: Search, identities: set<string>, h: Hit) {
    exists p | p in s.postings && p.doc < |s.docs| && Asked(SchemasOf(s, q.name), q, p) ::
      && s.docs[p.doc].identity == h.identity && s.docs[p.doc].position == h.position
      && h.identity in identities && InScope(q, s.docs[p.doc].epoch, s.docs[p.doc].operation)
  }

  /** One segment: the documents of each schema's postings, then the parts asked for, the time and the operations. */
  method SearchSegment(s: Segment, q: Search, identities: set<string>) returns (hits: set<Hit>)
    requires forall p | p in s.postings :: p.doc < |s.docs|
    ensures forall h :: h in hits <==> SegmentHit(s, q, identities, h)
  {
    var schemas := SchemasOf(s, q.name);
    var ids: set<nat>, done := {}, {};
    while schemas - done != {}
      invariant done <= schemas
      invariant forall n :: n in ids <==> exists p | p in s.postings && Asked(done, q, p) :: p.doc == n
      decreases schemas - done
    {
      var schema: Schema :| schema in schemas - done;
      var encoded := Canonical(q.value, schema.typeId, true);
      ghost var before := ids;
      if encoded.Some? {
        ids := ids + set p | p in s.postings && p.table == q.name && Schema(p.schema, p.ordinal, p.typeId) == schema
                             && p.key == encoded.value :: p.doc;
      }
      forall n ensures n in ids <==> exists p | p in s.postings && Asked(done + {schema}, q, p) :: p.doc == n {
        if n in before {
          var p :| p in s.postings && Asked(done, q, p) && p.doc == n;
          assert Asked(done + {schema}, q, p);
        }
      }
      done := done + {schema};
    }
    assert done == schemas by {
      forall x | x in schemas ensures x in done {
        assert x in done || x in schemas - done;
      }
    }
    hits := set n | n in ids && s.docs[n].identity in identities && InScope(q, s.docs[n].epoch, s.docs[n].operation) ::
      Hit(s.docs[n].identity, s.docs[n].position);
  }

  function Identities(parts: seq<Part>): set<string> { set p | p in parts :: p.identity }

  /** Nothing is found that reading the rows would not accept, even in a segment that holds other parts. */
  lemma HitIsAccepted(registry: Registry, contents: Contents, s: Segment, parts: seq<Part>, q: Search, h: Hit)
    requires SegmentOk(registry, contents, s) && SegmentHit(s, q, Identities(parts), h)
    ensures BruteForce(registry, contents, parts, q, h)
  {
    var p :| p in s.postings && p.doc < |s.docs| && Asked(SchemasOf(s, q.name), q, p)
             && s.docs[p.doc].identity == h.identity && s.docs[p.doc].position == h.position
             && h.identity in Identities(parts) && InScope(q, s.docs[p.doc].epoch, s.docs[p.doc].operation);
    assert PostingOf(registry, contents, s.docs[p.doc], p.doc, p) && DocOk(registry, contents, s.docs[p.doc]);
    hide SegmentOk;
    hide SegmentHit;
    hide SchemasOf;
    var r := RowAt(contents, h.identity, h.position);
    assert PrimaryKeyMatch(r, MappingFor(registry, r), q.value) == Some(true);
  }

  /** Nothing that reading the rows would accept is missed in a segment whose summaries of the table are complete. */
  lemma AcceptedIsHit(registry: Registry, contents: Contents, s: Segment, part: Part, parts: seq<Part>, q: Search, h: Hit)
    requires SegmentOk(registry, contents, s) && h.identity in contents && part in parts && part.identity == h.identity
    requires PartIndexed(registry, s, part.path, part.identity, contents[part.identity])
    requires forall t | t in s.tables && t.path == part.path && t.table == q.name && s.tables[t].identity == part.identity ::
               s.tables[t].complete
    requires BruteForce(registry, contents, parts, q, h) && Relevant(registry, RowAt(contents, h.identity, h.position))
    ensures SegmentHit(s, q, Identities(parts), h)
    ensures exists t | t in s.tables :: t.path == part.path && t.table == q.name && s.tables[t].identity == part.identity
  {
    var r := RowAt(contents, h.identity, h.position);
    var c := ContextOf(registry, r);
    assert RowIndexed(registry, s, part.path, part.identity, h.position, r);
    var t := IdOf(part.path, r, c.column);
    assert t in s.tables && s.tables[t].complete && c.Known?;
    var n :| 0 <= n < |s.docs| && s.docs[n].identity == h.identity && s.docs[n].position == h.position;
    var key := Canonical(q.value, c.column.typeId, true).value;
    PostingIsThere(registry, contents, s, n, key);
    var p := PostingFor(registry, contents, s.docs[n], n, key);
    assert Schema(t.schema, t.ordinal, t.typeId) in SchemasOf(s, q.name);
    assert Asked(SchemasOf(s, q.name), q, p);
  }

  lemma PostingIsThere(registry: Registry, contents: Contents, s: Segment, n: nat, key: Encoded)
    requires SegmentOk(registry, contents, s) && n < |s.docs|
    ensures DocOk(registry, contents, s.docs[n])
    ensures key in KeysOf(registry, contents, s.docs[n]) ==> PostingFor(registry, contents, s.docs[n], n, key) in s.postings
  {
  }

  lemma RowIsNotExcluded(contents: Contents, catalogs: Catalogs, p: Part, i: nat)
    requires Truthful(catalogs, contents, p) && IsRow(contents, p.identity, i) && !RowAt(contents, p.identity, i).operation.Unrelated?
    ensures !Excludes(catalogs, p.path, NameOf(RowAt(contents, p.identity, i)))
  {
  }

  /** A part that is covered has its accepted rows in a segment the lookup uses. */
  lemma CoveredRowIsFound(x: Index, contents: Contents, parts: seq<Part>, catalogs: Catalogs, q: Search, h: Hit) returns (p: Part)
    requires Valid(x, contents) && BruteForce(x.registry, contents, parts, q, h)
    requires x.registry == map[] || q.name in Registered(x.registry)
    requires q.name.database != "" && q.name.table != ""
    requires forall p | p in parts :: PartCovered(x, catalogs, p, q.name) && Truthful(catalogs, contents, p)
    ensures p in parts && Uses(x, p, q.name) && x.entries[p.path].segment in x.files
    ensures SegmentHit(x.files[x.entries[p.path].segment].segment, q, Identities(parts), h)
  {
    p :| p in parts && p.identity == h.identity;
    var r := RowAt(contents, h.identity, h.position);
    assert !r.operation.Unrelated? && Relevant(x.registry, r);
    RowIsNotExcluded(contents, catalogs, p, h.position);
    assert Current(x, p);
    var f := x.entries[p.path].segment;
    AcceptedIsHit(x.registry, contents, x.files[f].segment, p, parts, q, h);
    var t :| t in x.files[f].segment.tables && t.path == p.path && t.table == q.name
             && x.files[f].segment.tables[t].identity == p.identity;
    assert OfTable(x, p, q.name, t);
  }

  /** The hits of the segments used are the accepted rows. */
  lemma LookupIsExact(x: Index, contents: Contents, parts: seq<Part>, catalogs: Catalogs, q: Search, segments: set<nat>, h: Hit)
    requires Valid(x, contents)
    requires x.registry == map[] || q.name in Registered(x.registry)
    requires q.name.database != "" && q.name.table != ""
    requires forall p | p in parts :: PartCovered(x, catalogs, p, q.name) && Truthful(catalogs, contents, p)
    requires forall f :: f in segments <==> exists p | p in parts && Uses(x, p, q.name) :: x.entries[p.path].segment == f
    ensures (exists f | f in segments :: f in x.files && SegmentHit(x.files[f].segment, q, Identities(parts), h))
            <==> BruteForce(x.registry, contents, parts, q, h)
  {
    hide SegmentOk;
    hide EntriesOk;
    hide TablesOk;
    hide SegmentHit;
    hide BruteForce;
    hide PartCovered;
    hide Truthful;
    hide Registered;
    if f :| f in segments && f in x.files && SegmentHit(x.files[f].segment, q, Identities(parts), h) {
      var p :| p in parts && Uses(x, p, q.name) && x.entries[p.path].segment == f;
      HitIsAccepted(x.registry, contents, x.files[f].segment, parts, q, h);
    }
    if BruteForce(x.registry, contents, parts, q, h) {
      var p := CoveredRowIsFound(x, contents, parts, catalogs, q, h);
      assert x.entries[p.path].segment in segments;
    }
  }

  // ---- in terms of the rows ----

  ghost predicate IsRegistered(registry: Registry, name: TableName) { registry == map[] || exists signature :: (name, signature) in registry }

  /** A row of the part is of the table. */
  predicate HasRows(contents: Contents, p: Part, name: TableName) {
    p.identity in contents && exists r | r in contents[p.identity] :: !r.operation.Unrelated? && r.database == name.database && r.table == name.table
  }

  /** The index can answer for the part: its segment is current and every row of the table has a key that can be told; or a
      current catalog names no such table. */
  ghost predicate Answers(x: Index, contents: Contents, catalogs: Catalogs, p: Part, name: TableName) {
    if Current(x, p) && p.identity in contents then
      forall r | r in contents[p.identity] && !r.operation.Unrelated? && r.database == name.database && r.table == name.table ::
        Tells(x.registry, r)
    else
      && p.path in catalogs && catalogs[p.path].current
      && !(name.database in catalogs[p.path].databases && name.table in catalogs[p.path].tables)
  }

  /** The row is of the table, in time and of an operation asked for, and an image of it holds the key. */
  ghost predicate Found(registry: Registry, contents: Contents, parts: seq<Part>, q: Search, h: Hit) {
    && (exists p | p in parts :: p.identity == h.identity)
    && h.identity in contents && h.position < |contents[h.identity]|
    && var r := contents[h.identity][h.position];
       && r.database == q.name.database && r.table == q.name.table
       && q.startUs <= r.epoch <= q.endUs && (q.operations == {} || r.operation in q.operations)
       && KeyIs(registry, r, q.value)
  }

  lemma RegisteredMeans(registry: Registry, name: TableName)
    ensures name in Registered(registry) <==> exists signature :: (name, signature) in registry
  {
    if signature :| (name, signature) in registry {
      assert (name, signature).0 in Registered(registry);
    }
  }

  lemma IsOfTable(registry: Registry, r: Row, name: TableName)
    requires IsRegistered(registry, name) && name.database != "" && name.table != ""
    ensures IsOf(registry, r, name) <==> !r.operation.Unrelated? && r.database == name.database && r.table == name.table
    ensures ContextOf(registry, r).Known? <==> Tells(registry, r)
  {
    RegisteredMeans(registry, name);
    KnownMeans(registry, r);
    hide Registered;
  }

  lemma CurrentPart(x: Index, contents: Contents, p: Part)
    requires Valid(x, contents) && Current(x, p)
    ensures p.identity in contents
    ensures var s := x.files[x.entries[p.path].segment].segment;
            && PartIndexed(x.registry, s, p.path, p.identity, contents[p.identity])
            && PartJustified(x.registry, s, p.path, contents[p.identity])
            && forall t: TableId | t.path == p.path :: (t in x.tables <==> t in s.tables) && (t in x.tables ==> x.tables[t] == s.tables[t])
  {
    hide FilesOk;
    hide PartIndexed;
    hide PartJustified;
    assert EntryOk(x, contents, p.path, x.entries[p.path]);
  }

  lemma TableOfRow(x: Index, contents: Contents, p: Part, name: TableName, r: Row) returns (t: TableId)
    requires Valid(x, contents) && Current(x, p) && p.identity in contents && r in contents[p.identity] && IsOf(x.registry, r, name)
    ensures OfTable(x, p, name, t) && (x.tables[t].complete ==> ContextOf(x.registry, r).Known?)
  {
    CurrentPart(x, contents, p);
    hide Valid;
    hide ContextOf;
    hide HasDoc;
    hide PartJustified;
    var i :| 0 <= i < |contents[p.identity]| && contents[p.identity][i] == r;
    assert RowIndexed(x.registry, x.files[x.entries[p.path].segment].segment, p.path, p.identity, i, r);
    t := IdOf(p.path, r, ContextOf(x.registry, r).column);
  }

  lemma RowOfTable(x: Index, contents: Contents, p: Part, name: TableName, t: TableId)
    requires Valid(x, contents) && Current(x, p) && p.identity in contents && OfTable(x, p, name, t)
    ensures exists r :: r in contents[p.identity] && IsOf(x.registry, r, name)
    ensures !x.tables[t].complete ==>
              exists r :: r in contents[p.identity] && IsOf(x.registry, r, name) && !ContextOf(x.registry, r).Known?
  {
    CurrentPart(x, contents, p);
    hide Valid;
    hide ContextOf;
    hide PartIndexed;
    hide IsOf;
    assert SummaryJustified(x.registry, contents[p.identity], t, x.tables[t]);
  }

  /** A current part is covered exactly when every row of the table in it has a key that can be told, and its segment is needed
      exactly when there is such a row. */
  lemma CoveredMeans(x: Index, contents: Contents, catalogs: Catalogs, p: Part, name: TableName)
    requires Valid(x, contents) && Current(x, p) && IsRegistered(x.registry, name) && name.database != "" && name.table != ""
    ensures p.identity in contents
    ensures PartCovered(x, catalogs, p, name) <==> Answers(x, contents, catalogs, p, name)
    ensures Uses(x, p, name) <==> HasRows(contents, p, name)
  {
    hide Valid;
    hide Tells;
    hide ContextOf;
    hide IsOf;
    CurrentPart(x, contents, p);
    var rows := contents[p.identity];
    forall r | r in rows
      ensures IsOf(x.registry, r, name) <==> !r.operation.Unrelated? && r.database == name.database && r.table == name.table
      ensures ContextOf(x.registry, r).Known? <==> Tells(x.registry, r)
      ensures IsOf(x.registry, r, name) ==> Uses(x, p, name)
      ensures IsOf(x.registry, r, name) && PartCovered(x, catalogs, p, name) ==> ContextOf(x.registry, r).Known?
    {
      IsOfTable(x.registry, r, name);
      if IsOf(x.registry, r, name) {
        var t := TableOfRow(x, contents, p, name, r);
      }
    }
    forall t: TableId | OfTable(x, p, name, t)
      ensures HasRows(contents, p, name)
      ensures Answers(x, contents, catalogs, p, name) ==> x.tables[t].complete
    {
      RowOfTable(x, contents, p, name, t);
    }
    hide IsRegistered;
  }

  lemma CoverageMeans(x: Index, contents: Contents, catalogs: Catalogs, p: Part, name: TableName)
    requires Valid(x, contents) && IsRegistered(x.registry, name) && name.database != "" && name.table != ""
    ensures PartCovered(x, catalogs, p, name) <==> Answers(x, contents, catalogs, p, name)
    ensures Uses(x, p, name) <==> Current(x, p) && HasRows(contents, p, name)
  {
    if Current(x, p) {
      hide *;
      CoveredMeans(x, contents, catalogs, p, name);
    }
  }

  /** Where the index can answer for all parts, reading every row accepts exactly the rows whose images hold the key. */
  lemma AcceptedMeans(x: Index, contents: Contents, parts: seq<Part>, catalogs: Catalogs, q: Search, h: Hit)
    requires Valid(x, contents)
    requires forall p | p in parts :: Answers(x, contents, catalogs, p, q.name) && Truthful(catalogs, contents, p)
    ensures BruteForce(x.registry, contents, parts, q, h) <==> Found(x.registry, contents, parts, q, h)
  {
    hide Valid;
    hide KeyIs;
    hide Tells;
    hide PrimaryKeyMatch;
    hide MappingFor;
    if IsRow(contents, h.identity, h.position) && exists p | p in parts :: p.identity == h.identity {
      var r := contents[h.identity][h.position];
      UnrelatedMatchesNothing(x.registry, r, q.value);
      if NameOf(r) == q.name && !r.operation.Unrelated? {
        var p :| p in parts && p.identity == h.identity;
        RowTells(x, contents, catalogs, p, q.name, r);
        MatchMeans(x.registry, r, q.value);
      }
    }
  }

  lemma RowTells(x: Index, contents: Contents, catalogs: Catalogs, p: Part, name: TableName, r: Row)
    requires Answers(x, contents, catalogs, p, name) && Truthful(catalogs, contents, p)
    requires p.identity in contents && r in contents[p.identity] && NameOf(r) == name && !r.operation.Unrelated?
    ensures Tells(x.registry, r)
  {
    hide Tells;
  }

  lemma UnrelatedMatchesNothing(registry: Registry, r: Row, value: Value)
    ensures r.operation.Unrelated? ==> PrimaryKeyMatch(r, MappingFor(registry, r), value) != Some(true) && !KeyIs(registry, r, value)
  {
  }

  predicate AllCovered(x: Index, parts: seq<Part>, catalogs: Catalogs, name: TableName) {
    (x.registry == map[] || name in Registered(x.registry)) && forall p | p in parts :: PartCovered(x, catalogs, p, name)
  }

  /** Every segment the lookup needs has its file. */
  predicate AllOnDisk(x: Index, parts: seq<Part>, name: TableName, onDisk: set<nat>) {
    forall p | p in parts && Uses(x, p, name) :: x.entries[p.path].segment in onDisk
  }

  /** `lookup`: the rows before paging, or incomplete. It is complete exactly when every part is covered and every needed
      segment file is there, and then it is as good as reading every requested part. */
  method Lookup(x: Index, ghost contents: Contents, parts: seq<Part>, catalogs: Catalogs, q: Search, onDisk: set<nat>)
    returns (complete: bool, hits: set<Hit>)
    requires Valid(x, contents)
    ensures complete <==> AllCovered(x, parts, catalogs, q.name) && AllOnDisk(x, parts, q.name, onDisk)
    ensures q.name.database != "" && q.name.table != "" ==>
              (complete <==>
                && IsRegistered(x.registry, q.name) && (forall p | p in parts :: Answers(x, contents, catalogs, p, q.name))
                && forall p | p in parts && Current(x, p) && HasRows(contents, p, q.name) :: x.entries[p.path].segment in onDisk)
    ensures complete && q.name.database != "" && q.name.table != ""
            && (forall p | p in parts :: Truthful(catalogs, contents, p)) ==>
              forall h :: h in hits <==> Found(x.registry, contents, parts, q, h)
    ensures !complete ==> hits == {}
  {
    if q.name.database != "" && q.name.table != "" {
      LookupMeans(x, contents, parts, catalogs, q, onDisk);
    }
    hide Answers;
    hide HasRows;
    hide Found;
    hide Truthful;
    hide IsRegistered;
    complete, hits := LookUp(x, contents, parts, catalogs, q, onDisk);
  }

  /** `AllCovered` and `AllOnDisk`, `BruteForce`: in terms of the rows. */
  lemma LookupMeans(x: Index, contents: Contents, parts: seq<Part>, catalogs: Catalogs, q: Search, onDisk: set<nat>)
    requires Valid(x, contents) && q.name.database != "" && q.name.table != ""
    ensures AllCovered(x, parts, catalogs, q.name) && AllOnDisk(x, parts, q.name, onDisk) <==>
              && IsRegistered(x.registry, q.name) && (forall p | p in parts :: Answers(x, contents, catalogs, p, q.name))
              && forall p | p in parts && Current(x, p) && HasRows(contents, p, q.name) :: x.entries[p.path].segment in onDisk
    ensures AllCovered(x, parts, catalogs, q.name) && (forall p | p in parts :: Truthful(catalogs, contents, p)) ==>
              forall h :: BruteForce(x.registry, contents, parts, q, h) <==> Found(x.registry, contents, parts, q, h)
  {
    hide Valid;
    hide Answers;
    hide HasRows;
    hide PartCovered;
    hide Uses;
    hide Found;
    hide BruteForce;
    hide Truthful;
    RegisteredMeans(x.registry, q.name);
    hide Registered;
    if IsRegistered(x.registry, q.name) {
      forall p
        ensures PartCovered(x, catalogs, p, q.name) <==> Answers(x, contents, catalogs, p, q.name)
        ensures Uses(x, p, q.name) <==> Current(x, p) && HasRows(contents, p, q.name)
      {
        CoverageMeans(x, contents, catalogs, p, q.name);
      }
    }
    if AllCovered(x, parts, catalogs, q.name) && forall p | p in parts :: Truthful(catalogs, contents, p) {
      forall h ensures BruteForce(x.registry, contents, parts, q, h) <==> Found(x.registry, contents, parts, q, h) {
        AcceptedMeans(x, contents, parts, catalogs, q, h);
      }
    }
  }

  /** The same against the summaries and a scan that matches row by row. */
  method LookUp(x: Index, ghost contents: Contents, parts: seq<Part>, catalogs: Catalogs, q: Search, onDisk: set<nat>)
    returns (complete: bool, hits: set<Hit>)
    requires Valid(x, contents)
    ensures complete <==> AllCovered(x, parts, catalogs, q.name) && AllOnDisk(x, parts, q.name, onDisk)
    ensures complete && q.name.database != "" && q.name.table != ""
            && (forall p | p in parts :: Truthful(catalogs, contents, p)) ==>
              forall h :: h in hits <==> BruteForce(x.registry, contents, parts, q, h)
    ensures !complete ==> hits == {}
  {
    hide Valid;
    hide SegmentHit;
    hide Truthful;
    hide BruteForce;
    hide PartCovered;
    hide Uses;
    hide Registered;
    var segments;
    complete, segments := CoverageOf(x, parts, catalogs, q.name);
    hits := {};
    if !complete {
      return;
    }
    NeededSegments(x, contents, parts, q.name, segments, onDisk);
    var done: set<nat> := {};
    assert HitsOf(x, q, parts, done, hits);
    hide *;
    while segments - done != {}
      invariant done <= segments && done <= onDisk
      invariant HitsOf(x, q, parts, done, hits)
      decreases segments - done
    {
      var f: nat :| f in segments - done;
      if f !in onDisk {
        return false, {};
      }
      PostingsInRange(x, contents, f);
      var more := SearchSegment(x.files[f].segment, q, Identities(parts));
      MoreHits(x, q, parts, done, hits, f, more);
      hits := hits + more;
      done := done + {f};
    }
    forall f | f in segments ensures f in done {
      assert f in done || f in segments - done;
    }
    assert done == segments;
    if q.name.database != "" && q.name.table != "" && forall p | p in parts :: Truthful(catalogs, contents, p) {
      HitsAreExact(x, contents, parts, catalogs, q, segments, hits);
    }
  }

  ghost predicate HitsOf(x: Index, q: Search, parts: seq<Part>, done: set<nat>, hits: set<Hit>) {
    forall h :: h in hits <==> exists f | f in done :: f in x.files && SegmentHit(x.files[f].segment, q, Identities(parts), h)
  }

  lemma MoreHits(x: Index, q: Search, parts: seq<Part>, done: set<nat>, hits: set<Hit>, f: nat, more: set<Hit>)
    requires HitsOf(x, q, parts, done, hits) && f in x.files
    requires forall h :: h in more <==> SegmentHit(x.files[f].segment, q, Identities(parts), h)
    ensures HitsOf(x, q, parts, done + {f}, hits + more)
  {
    hide SegmentHit;
    forall h ensures h in hits + more <==>
                       exists g | g in done + {f} :: g in x.files && SegmentHit(x.files[g].segment, q, Identities(parts), h)
    {
      if h in more {
        assert f in done + {f};
      }
    }
  }

  lemma HitsAreExact(x: Index, contents: Contents, parts: seq<Part>, catalogs: Catalogs, q: Search, segments: set<nat>, hits: set<Hit>)
    requires Valid(x, contents) && AllCovered(x, parts, catalogs, q.name) && HitsOf(x, q, parts, segments, hits)
    requires q.name.database != "" && q.name.table != ""
    requires forall p | p in parts :: Truthful(catalogs, contents, p)
    requires forall f :: f in segments <==> exists p | p in parts && Uses(x, p, q.name) :: x.entries[p.path].segment == f
    ensures forall h :: h in hits <==> BruteForce(x.registry, contents, parts, q, h)
  {
    hide Valid;
    hide Truthful;
    hide PartCovered;
    hide SegmentHit;
    hide BruteForce;
    forall h ensures h in hits <==> BruteForce(x.registry, contents, parts, q, h) {
      LookupIsExact(x, contents, parts, catalogs, q, segments, h);
    }
  }

  lemma NeededSegments(x: Index, contents: Contents, parts: seq<Part>, name: TableName, segments: set<nat>, onDisk: set<nat>)
    requires Valid(x, contents)
    requires forall f :: f in segments <==> exists p | p in parts && Uses(x, p, name) :: x.entries[p.path].segment == f
    ensures forall f | f in segments :: f in x.files
    ensures AllOnDisk(x, parts, name, onDisk) <==> segments <= onDisk
  {
    forall p | p in parts && Uses(x, p, name) ensures x.entries[p.path].segment in segments {
    }
    hide Valid;
    forall f | f in segments ensures AllOnDisk(x, parts, name, onDisk) ==> f in onDisk {
      var p :| p in parts && Uses(x, p, name) && x.entries[p.path].segment == f;
    }
  }

  lemma PostingsInRange(x: Index, contents: Contents, f: nat)
    requires Valid(x, contents) && f in x.files
    ensures forall p | p in x.files[f].segment.postings :: p.doc < |x.files[f].segment.docs|
  {
    assert SegmentOk(x.files[f].registry, contents, x.files[f].segment);
  }
}
