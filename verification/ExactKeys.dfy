/** The primary key of a changed row (app/exact_index.py:282-580): which column it is, which of the row's images hold it, and
    when a queried value is one of them. */
module ExactKeys {
  import opened Select

  // ---- rows and primary keys ----

  /** A column value. Of a text it matters what the integer and the binary readers of the query side make of it. */
  datatype Value = Int(n: int) | Bool(b: bool) | Binary(bytes: seq<int>) | Text(asInt: Option<int>, asBinary: Option<seq<int>>) | Other

  datatype Encoded = IntKey(n: int) | BinaryKey(bytes: seq<int>)

  const INTEGER_TYPES: set<int> := {1, 2, 3, 8, 9, 13}
  const BINARY_TYPES: set<int> := {16, 249, 250, 251, 252}

  predicate Supported(typeId: int) { typeId in INTEGER_TYPES || typeId in BINARY_TYPES }

  /** `canonical_value` */
  function Canonical(v: Value, typeId: int, query: bool): Option<Encoded> {
    if typeId in INTEGER_TYPES then
      match v
      case Bool(b) => Some(IntKey(if b then 1 else 0))
      case Int(n) => Some(IntKey(n))
      case Text(asInt, _) => if query && asInt.Some? then Some(IntKey(asInt.value)) else None
      case _ => None
    else if typeId in BINARY_TYPES then
      match v
      case Binary(bytes) => Some(BinaryKey(bytes))
      case Text(_, asBinary) => if query && asBinary.Some? then Some(BinaryKey(asBinary.value)) else None
      case _ => None
    else None
  }

  datatype Operation = Insert | Update | Delete | Unrelated

  datatype Column = Column(primary: bool, index: Option<int>, typeId: Option<int>, imageKey: string)

  /** A row of a part. `schema` is its schema version, `signature` the digest of its columns. */
  datatype Row = Row(event: string, epoch: int, operation: Operation, database: string, table: string, schema: string,
                     signature: string, columns: Option<seq<Column>>, before: Option<map<string, Value>>,
                     after: Option<map<string, Value>>)

  /** One mapping of the schema registry. */
  datatype Mapping = Mapping(ordinal: nat, typeId: int, imageKey: string, columnName: string)

  datatype TableName = TableName(database: string, table: string)

  type Registry = map<(TableName, string), Mapping>

  function NameOf(r: Row): TableName { TableName(r.database, r.table) }

  function Registered(registry: Registry): set<TableName> { set k | k in registry :: k.0 }

  function MappingFor(registry: Registry, r: Row): Option<Mapping> {
    if r.columns.Some? && (NameOf(r), r.signature) in registry then Some(registry[(NameOf(r), r.signature)]) else None
  }

  /** What identifies an indexed key column. */
  datatype KeyColumn = KeyColumn(schema: string, ordinal: int, name: string, typeId: int)

  datatype Context = Irrelevant | Unknown(column: KeyColumn) | Known(column: KeyColumn, values: seq<Encoded>)

  /** The key column: the mapped one if it is as the registry says, else the only primary column. */
  function KeyColumnOf(columns: seq<Column>, mapping: Option<Mapping>): Option<Column> {
    if mapping.Some? then
      var m := mapping.value;
      if m.ordinal >= |columns| then None
      else
        var c := columns[m.ordinal];
        if c.index == Some(m.ordinal) && c.typeId == Some(m.typeId) && c.imageKey == m.imageKey then Some(c) else None
    else
      var primary := Keep(columns, (c: Column) => c.primary);
      if |primary| == 1 then Some(primary[0]) else None
  }

  function ImageValue(image: Option<map<string, Value>>, key: string): Option<Value> {
    if image.Some? && key in image.value then Some(image.value[key]) else None
  }

  /** The canonical values of one image, None if it is missing or not canonical. */
  function ImageKey(image: Option<map<string, Value>>, c: Column, typeId: int): Option<Encoded> {
    var v := ImageValue(image, c.imageKey);
    if v.None? then None else Canonical(v.value, typeId, false)
  }

  /** Values of the images the operation needs; an update also takes its after image when the key is in it. */
  function KeyValues(r: Row, c: Column, typeId: int): Option<seq<Encoded>> {
    match r.operation
    case Insert =>
      var a := ImageKey(r.after, c, typeId);
      if a.None? then None else Some([a.value])
    case Delete =>
      var b := ImageKey(r.before, c, typeId);
      if b.None? then None else Some([b.value])
    case Update =>
      var b := ImageKey(r.before, c, typeId);
      if b.None? then None
      else if ImageValue(r.after, c.imageKey).None? then Some([b.value])
      else
        var a := ImageKey(r.after, c, typeId);
        if a.None? then None else Some([b.value, a.value])
    case Unrelated => None
  }

  /** `_primary_context` */
  function PrimaryContext(r: Row, mapping: Option<Mapping>): Context {
    if r.operation.Unrelated? then Irrelevant
    else if r.columns.None? then Unknown(KeyColumn("unknown", -1, "", -1))
    else
      var column := KeyColumnOf(r.columns.value, mapping);
      if column.None? || column.value.index.None? || column.value.typeId.None? then Unknown(KeyColumn(r.schema, -1, "", -1))
      else
        var c, typeId := column.value, column.value.typeId.value;
        var key := KeyColumn(r.schema, c.index.value, if mapping.Some? then mapping.value.columnName else c.imageKey, typeId);
        if !Supported(typeId) then Unknown(key)
        else
          var values := KeyValues(r, c, typeId);
          if values.None? then Unknown(key) else Known(key, values.value)
  }

  /** `primary_key_match`: None where the row cannot tell. */
  function PrimaryKeyMatch(r: Row, mapping: Option<Mapping>, value: Value): Option<bool> {
    match PrimaryContext(r, mapping)
    case Irrelevant => Some(false)
    case Unknown(_) => None
    case Known(column, values) =>
      var expected := Canonical(value, column.typeId, true);
      if expected.None? then None else Some(expected.value in values)
  }

  // ---- what a match means ----

  /** The integer a stored value stands for. */
  predicate StoredInteger(v: Value, n: int) { v == Int(n) || (v == Bool(true) && n == 1) || (v == Bool(false) && n == 0) }

  predicate StoredBytes(v: Value, bytes: seq<int>) { v == Binary(bytes) }

  /** What a query asks for: the same, or a text by its reader. */
  predicate AskedInteger(v: Value, n: int) { StoredInteger(v, n) || (v.Text? && v.asInt == Some(n)) }

  predicate AskedBytes(v: Value, bytes: seq<int>) { StoredBytes(v, bytes) || (v.Text? && v.asBinary == Some(bytes)) }

  /** Column types of MySQL whose values are indexed as integers: TINYINT, SMALLINT, INT, BIGINT, MEDIUMINT and YEAR. */
  predicate IntegerType(typeId: int) { typeId == 1 || typeId == 2 || typeId == 3 || typeId == 8 || typeId == 9 || typeId == 13 }

  /** As bytes: BIT and the four BLOBs. */
  predicate BytesType(typeId: int) { typeId == 16 || 249 <= typeId <= 252 }

  predicate Stored(v: Value, typeId: int) {
    (IntegerType(typeId) && (v.Int? || v.Bool?)) || (BytesType(typeId) && v.Binary?)
  }

  /** The stored value and the queried one are the same, as values of the column's type. */
  ghost predicate SameKey(v: Value, asked: Value, typeId: int) {
    || (IntegerType(typeId) && exists n :: StoredInteger(v, n) && AskedInteger(asked, n))
    || (BytesType(typeId) && exists bytes :: StoredBytes(v, bytes) && AskedBytes(asked, bytes))
  }

  /** The query has a value of the column's type at all. */
  ghost predicate Askable(asked: Value, typeId: int) {
    || (IntegerType(typeId) && exists n :: AskedInteger(asked, n))
    || (BytesType(typeId) && exists bytes :: AskedBytes(asked, bytes))
  }

  ghost predicate HoldsKey(image: Option<map<string, Value>>, key: string, asked: Value, typeId: int) {
    image.Some? && key in image.value && SameKey(image.value[key], asked, typeId)
  }

  /** Some image the operation looks at holds the value: after an insert, before a delete, before or after an update. */
  ghost predicate ImagesHold(r: Row, c: Column, asked: Value)
    requires c.typeId.Some?
  {
    match r.operation
    case Insert => HoldsKey(r.after, c.imageKey, asked, c.typeId.value)
    case Delete => HoldsKey(r.before, c.imageKey, asked, c.typeId.value)
    case Update => HoldsKey(r.before, c.imageKey, asked, c.typeId.value) || HoldsKey(r.after, c.imageKey, asked, c.typeId.value)
    case Unrelated => false
  }

  /** The column is the row's key: the one the registry names for its table and signature, if it still is as registered; for
      an unregistered signature the only primary column. */
  predicate IsKeyColumn(registry: Registry, r: Row, c: Column) {
    && r.columns.Some?
    && var columns := r.columns.value;
       if (TableName(r.database, r.table), r.signature) in registry then
         var m := registry[(TableName(r.database, r.table), r.signature)];
         && m.ordinal < |columns| && c == columns[m.ordinal]
         && c.index == Some(m.ordinal) && c.typeId == Some(m.typeId) && c.imageKey == m.imageKey
       else
         exists i: nat | i < |columns| :: columns[i] == c && Sole(columns, i)
  }

  /** The value under the key column in every image the operation needs, and in an update's after image if it is there, is a
      value of the column's type. */
  predicate ImagesTell(r: Row, c: Column)
    requires c.typeId.Some?
  {
    var inBefore := r.before.Some? && c.imageKey in r.before.value;
    var inAfter := r.after.Some? && c.imageKey in r.after.value;
    && !r.operation.Unrelated?
    && (r.operation.Insert? ==> inAfter) && (!r.operation.Insert? ==> inBefore)
    && (inBefore && !r.operation.Insert? ==> Stored(r.before.value[c.imageKey], c.typeId.value))
    && (inAfter && !r.operation.Delete? ==> Stored(r.after.value[c.imageKey], c.typeId.value))
  }

  /** The row's key can be told. */
  ghost predicate Tells(registry: Registry, r: Row) {
    exists c | IsKeyColumn(registry, r, c) && c.typeId.Some? && c.index.Some? :: ImagesTell(r, c)
  }

  /** The row's key column holds the value. */
  ghost predicate KeyIs(registry: Registry, r: Row, asked: Value) {
    exists c | IsKeyColumn(registry, r, c) && c.typeId.Some? :: ImagesHold(r, c, asked)
  }

  predicate Sole(columns: seq<Column>, i: nat) {
    i < |columns| && columns[i].primary && forall j | 0 <= j < |columns| && j != i :: !columns[j].primary
  }

  lemma KeptAround(left: seq<Column>, c: Column, right: seq<Column>)
    requires c.primary
    ensures var primary := (c: Column) => c.primary;
            Keep(left + [c] + right, primary) == Keep(left, primary) + [c] + Keep(right, primary)
  {
    hide Keep;
    var primary := (c: Column) => c.primary;
    KeepConcat(left, [c], primary);
    KeepConcat(left + [c], right, primary);
    KeepAll([c], primary);
  }

  lemma SoleIsKept(columns: seq<Column>, i: nat)
    requires Sole(columns, i)
    ensures Keep(columns, (c: Column) => c.primary) == [columns[i]]
  {
    hide Keep;
    var primary, left, c, right := (c: Column) => c.primary, columns[..i], columns[i], columns[i + 1..];
    assert columns == left + [c] + right;
    KeptAround(left, c, right);
    KeepNone(left, primary);
    KeepNone(right, primary);
  }

  lemma KeptIsSole(columns: seq<Column>, i: nat)
    requires i < |columns| && columns[i].primary && |Keep(columns, (c: Column) => c.primary)| == 1
    ensures Sole(columns, i)
  {
    hide Keep;
    var primary, left, c, right := (c: Column) => c.primary, columns[..i], columns[i], columns[i + 1..];
    assert columns == left + [c] + right;
    KeptAround(left, c, right);
    KeepMembers(left, primary);
    KeepMembers(right, primary);
    assert Keep(left, primary) == [] && Keep(right, primary) == [];
    forall j | 0 <= j < |columns| && j != i ensures !columns[j].primary {
      if j < i {
        assert left[j] in left;
      } else {
        assert right[j - i - 1] in right;
      }
    }
  }

  /** The only primary column, found by keeping the primary ones. */
  lemma OnlyPrimary(columns: seq<Column>, c: Column)
    ensures var primary := Keep(columns, (c: Column) => c.primary);
            |primary| == 1 && primary[0] == c <==> exists i: nat | i < |columns| :: columns[i] == c && Sole(columns, i)
  {
    hide Keep;
    hide Sole;
    var isPrimary := (c: Column) => c.primary;
    if i: nat :| i < |columns| && columns[i] == c && Sole(columns, i) {
      SoleIsKept(columns, i);
    }
    if |Keep(columns, isPrimary)| == 1 && Keep(columns, isPrimary)[0] == c {
      KeepMembers(columns, isPrimary);
      assert c in Keep(columns, isPrimary);
      var i :| 0 <= i < |columns| && columns[i] == c;
      KeptIsSole(columns, i);
    }
  }

  lemma KeyColumnMeans(registry: Registry, r: Row, c: Column)
    requires r.columns.Some?
    ensures KeyColumnOf(r.columns.value, MappingFor(registry, r)) == Some(c) <==> IsKeyColumn(registry, r, c)
  {
    OnlyPrimary(r.columns.value, c);
  }

  lemma CanonicalMeans(v: Value, typeId: int, asked: Value)
    ensures Supported(typeId) <==> IntegerType(typeId) || BytesType(typeId)
    ensures Canonical(v, typeId, false).Some? <==> Stored(v, typeId)
    ensures Canonical(asked, typeId, true).Some? <==> Askable(asked, typeId)
    ensures Canonical(v, typeId, false).Some? ==>
              (Canonical(v, typeId, false) == Canonical(asked, typeId, true) <==> SameKey(v, asked, typeId))
  {
    if IntegerType(typeId) {
      if n :| AskedInteger(asked, n) {
        assert Canonical(asked, typeId, true) == Some(IntKey(n));
      }
      if Canonical(asked, typeId, true).Some? {
        assert AskedInteger(asked, Canonical(asked, typeId, true).value.n);
      }
    }
    if BytesType(typeId) && Canonical(asked, typeId, true).Some? {
      assert AskedBytes(asked, Canonical(asked, typeId, true).value.bytes);
    }
  }

  lemma ImageKeyMeans(image: Option<map<string, Value>>, c: Column, typeId: int, asked: Value)
    ensures ImageKey(image, c, typeId).Some? <==> image.Some? && c.imageKey in image.value && Stored(image.value[c.imageKey], typeId)
    ensures ImageKey(image, c, typeId).Some? ==>
              (ImageKey(image, c, typeId) == Canonical(asked, typeId, true) <==> HoldsKey(image, c.imageKey, asked, typeId))
  {
    if image.Some? && c.imageKey in image.value {
      CanonicalMeans(image.value[c.imageKey], typeId, asked);
    }
  }

  lemma ValuesMean(r: Row, c: Column, asked: Value)
    requires c.typeId.Some?
    ensures KeyValues(r, c, c.typeId.value).Some? <==> ImagesTell(r, c)
    ensures KeyValues(r, c, c.typeId.value).Some? ==>
              ((exists key | key in KeyValues(r, c, c.typeId.value).value :: Canonical(asked, c.typeId.value, true) == Some(key))
               <==> ImagesHold(r, c, asked))
  {
    hide Stored;
    hide SameKey;
    hide Canonical;
    ImageKeyMeans(r.before, c, c.typeId.value, asked);
    ImageKeyMeans(r.after, c, c.typeId.value, asked);
  }

  /** Only one column is the key. */
  lemma KeyColumnIsUnique(registry: Registry, r: Row, c: Column, d: Column)
    requires IsKeyColumn(registry, r, c) && IsKeyColumn(registry, r, d)
    ensures c == d
  {
    KeyColumnMeans(registry, r, c);
    KeyColumnMeans(registry, r, d);
  }

  /** A context is known exactly when the row's key can be told: its column is there, of a supported type, and its images hold
      values of that type. */
  lemma KnownMeans(registry: Registry, r: Row)
    ensures PrimaryContext(r, MappingFor(registry, r)).Known? <==> Tells(registry, r)
  {
    if r.columns.Some? {
      var column := KeyColumnOf(r.columns.value, MappingFor(registry, r));
      if column.Some? {
        KeyColumnMeans(registry, r, column.value);
        if column.value.typeId.Some? {
          ValuesMean(r, column.value, Other);
          CanonicalMeans(Other, column.value.typeId.value, Other);
        }
      }
      forall c | IsKeyColumn(registry, r, c) ensures column == Some(c) {
        KeyColumnMeans(registry, r, c);
      }
    }
    hide KeyColumnOf;
    hide IsKeyColumn;
    hide MappingFor;
    hide KeyValues;
  }

  /** For a row whose key can be told, a match means that an image holds the value. */
  lemma MatchMeans(registry: Registry, r: Row, asked: Value)
    requires Tells(registry, r)
    ensures PrimaryKeyMatch(r, MappingFor(registry, r), asked) == Some(true) <==> KeyIs(registry, r, asked)
  {
    KnownMeans(registry, r);
    var c := KeyColumnOf(r.columns.value, MappingFor(registry, r)).value;
    KeyColumnMeans(registry, r, c);
    ValuesMean(r, c, asked);
    if d :| IsKeyColumn(registry, r, d) && d.typeId.Some? && ImagesHold(r, d, asked) {
      KeyColumnIsUnique(registry, r, c, d);
    }
    hide IsKeyColumn;
    hide ImagesHold;
    hide KeyValues;
    hide Canonical;
  }
}
