/** The binlog file format as the server writes it, and that the scan of app/binlog_lite.py:46-174 reads exactly what was
    written: names, statements, times and doubts of every event of a file. */
module BinlogFile {
  import opened Select
  import opened BinlogIndex

  // ---- writing ----

  /** Little-endian. */
  function LeBytes(v: nat, n: nat): (s: Bytes)
    ensures |s| == n
  {
    if n == 0 then [] else [v % 256] + LeBytes(v / 256, n - 1)
  }

  /** What follows the identity of a GTID: nothing with commit times, the time of the commit, or that and the original one. */
  datatype Commit =
    | Untimed(rest: Bytes)
    | Immediate(clock: Bytes, at: nat, rest: Bytes)
    | Original(clock: Bytes, at: nat, original: nat, rest: Bytes)

  datatype Content =
    | Gtid(anonymous: bool, head: Bytes, commit: Commit)
    | Map(id: Bytes, database: Bytes, table: Bytes, columns: Bytes)
    | Query(thread: Bytes, database: Bytes, error: Bytes, status: Bytes, sql: Bytes)
    | Plain(kind: Byte, body: Bytes)

  /** An event in its envelope. `place` are the position of the next event and the flags. */
  datatype Written = Written(stamp: nat, server: Bytes, place: Bytes, content: Content, trailer: Bytes)

  function KindOf(c: Content): Byte {
    match c
    case Gtid(anonymous, _, _) => if anonymous then 34 else 33
    case Map(_, _, _, _) => 19
    case Query(_, _, _, _, _) => 2
    case Plain(kind, _) => kind
  }

  function CommitBytes(c: Commit): Bytes {
    match c
    case Untimed(rest) => rest
    case Immediate(clock, at, rest) => [2] + clock + LeBytes(at, 7) + rest
    case Original(clock, at, original, rest) => [2] + clock + LeBytes(at + 0x80_0000_0000_0000, 7) + LeBytes(original, 7) + rest
  }

  function BodyOf(c: Content): Bytes
    requires Fits(c)
  {
    match c
    case Gtid(_, head, commit) => head + CommitBytes(commit)
    case Map(id, database, table, columns) => id + [|database|] + database + [0, |table|] + table + [0] + columns
    case Query(thread, database, error, status, sql) =>
      thread + [|database|] + error + LeBytes(|status|, 2) + status + database + [0] + sql
    case Plain(_, body) => body
  }

  predicate CommitFits(c: Commit) {
    match c
    case Untimed(rest) => |rest| >= 24 ==> rest[0] != 2
    case Immediate(clock, at, _) => |clock| == 16 && at < 0x80_0000_0000_0000
    case Original(clock, at, original, _) => |clock| == 16 && at < 0x80_0000_0000_0000 && original < 0x100_0000_0000_0000
  }

  /** What the format has room for. */
  predicate Fits(c: Content) {
    match c
    case Gtid(_, head, commit) => |head| == 25 && CommitFits(commit)
    case Map(id, database, table, _) => |id| == 8 && |database| < 256 && |table| < 256 && Utf8(database) && Utf8(table)
    case Query(thread, database, error, status, _) => |thread| == 8 && |database| < 256 && |error| == 2 && |status| < 0x1_0000
    case Plain(kind, _) => kind !in {2, 15, 19, 33, 34}
  }

  function Framed(stamp: nat, kind: Byte, server: Bytes, place: Bytes, body: Bytes, trailer: Bytes): Bytes {
    LeBytes(stamp, 4) + [kind] + server + LeBytes(19 + |body| + |trailer|, 4) + place + body + trailer
  }

  predicate FrameFits(stamp: nat, server: Bytes, place: Bytes, body: Bytes, trailer: Bytes) {
    stamp < 0x1_0000_0000 && |server| == 4 && |place| == 6 && 19 + |body| + |trailer| < 0x1_0000_0000
  }

  predicate EventFits(e: Written, checksum: nat) {
    Fits(e.content) && FrameFits(e.stamp, e.server, e.place, BodyOf(e.content), e.trailer) && |e.trailer| == checksum
  }

  function EventBytes(e: Written): Bytes
    requires Fits(e.content)
  {
    Framed(e.stamp, KindOf(e.content), e.server, e.place, BodyOf(e.content), e.trailer)
  }

  // ---- what an event says ----

  /** Kinds whose bodies are not looked into because they can name no table and pack no event, and those of row images. */
  predicate Understood(kind: int) { 3 <= kind <= 5 || 13 <= kind <= 16 || 19 <= kind <= 25 || 27 <= kind <= 36 || 38 <= kind <= 39 }

  predicate Blanks(s: Bytes) { forall b | b in s :: b == 32 || 9 <= b <= 13 }

  /** The text is the word, in any case and with blanks around it. */
  predicate Says(s: Bytes, word: string) {
    exists i: nat, j: nat | i <= j <= |s| :: Blanks(s[..i]) && Blanks(s[j..]) && Spells(s[i..j], word)
  }

  /** Letter by letter, small or capital. */
  predicate Spells(s: Bytes, word: string) {
    |s| == |word| && forall i | 0 <= i < |s| :: s[i] == word[i] as int || s[i] == word[i] as int + 32
  }

  function Time(us: nat): seq<Times> { if us == 0 then [] else [Times(us, us)] }

  /** Times of an event: the second of its stamp, and its commit times; zero says nothing. */
  function TimesOf(e: Written): seq<Times> {
    (if e.stamp == 0 then [] else [Times(e.stamp * 1_000_000, e.stamp * 1_000_000 + 999_999)])
    + match e.content
      case Gtid(_, _, Immediate(_, at, _)) => Time(at)
      case Gtid(_, _, Original(_, at, original, _)) => Time(at) + Time(original)
      case _ => []
  }

  function Meaning(e: Written, at: nat, checksum: nat): Event
    requires Fits(e.content)
  {
    var opaque_ := e.content.Plain? && !Understood(e.content.kind);
    Event(at, at + |EventBytes(e)|, KindOf(e.content), TimesOf(e),
          if e.content.Map? then Some(Name(e.content.database, e.content.table)) else None,
          opaque_ || (e.content.Query? && !Says(e.content.sql, "BEGIN") && !Says(e.content.sql, "COMMIT") && !Says(e.content.sql, "ROLLBACK")),
          opaque_, checksum)
  }

  // ---- numbers ----

  lemma {:induction false} LeOfBytes(data: Bytes, at: nat, n: nat, v: nat)
    requires at + n <= |data| && data[at..at + n] == LeBytes(v, n) && v < Power(256, n)
    ensures Le(data, at, n) == v
    decreases n
  {
    if n > 0 {
      var part := data[at..at + n];
      assert part[0] == v % 256;
      assert data[at + 1..at + 1 + (n - 1)] == part[1..] == LeBytes(v / 256, n - 1);
      assert v / 256 < Power(256, n - 1);
      LeOfBytes(data, at + 1, n - 1, v / 256);
    }
  }

  /** A piece of the file holds `part` from `at` on. */
  predicate HasAt(data: Bytes, at: nat, part: Bytes) { at + |part| <= |data| && data[at..at + |part|] == part }

  lemma HoldsParts(data: Bytes, at: nat, a: Bytes, b: Bytes)
    requires HasAt(data, at, a + b)
    ensures HasAt(data, at, a) && HasAt(data, at + |a|, b)
  {
    var all := a + b;
    assert data[at..at + |all|] == all;
    assert data[at..at + |a|] == all[..|a|] == a;
    assert data[at + |a|..at + |a| + |b|] == all[|a|..] == b;
  }

  lemma HoldsByte(data: Bytes, at: nat, b: Byte)
    requires HasAt(data, at, [b])
    ensures at < |data| && data[at] == b
  {
    assert data[at..at + 1][0] == b;
  }

  // ---- the envelope ----

  lemma FrameParts(data: Bytes, pos: nat, stamp: nat, kind: Byte, server: Bytes, place: Bytes, body: Bytes, trailer: Bytes)
    requires HasAt(data, pos, Framed(stamp, kind, server, place, body, trailer)) && |server| == 4 && |place| == 6
    ensures HasAt(data, pos, LeBytes(stamp, 4)) && HasAt(data, pos + 4, [kind])
    ensures HasAt(data, pos + 9, LeBytes(19 + |body| + |trailer|, 4)) && HasAt(data, pos + 19, body)
    ensures pos + 19 + |body| + |trailer| <= |data|
  {
    var a := LeBytes(stamp, 4);
    var b := a + [kind];
    var c := b + server;
    var d := c + LeBytes(19 + |body| + |trailer|, 4);
    var e := d + place;
    hide LeBytes;
    hide HasAt;
    HoldsParts(data, pos, e + body, trailer);
    HoldsParts(data, pos, e, body);
    HoldsParts(data, pos, d, place);
    HoldsParts(data, pos, c, LeBytes(19 + |body| + |trailer|, 4));
    HoldsParts(data, pos, b, server);
    HoldsParts(data, pos, a, [kind]);
    HasAtEnds(data, pos, e + body + trailer);
  }

  lemma HasAtEnds(data: Bytes, at: nat, part: Bytes)
    requires HasAt(data, at, part)
    ensures at + |part| <= |data|
  {
  }

  lemma FrameMeans(data: Bytes, pos: nat, stamp: nat, kind: Byte, server: Bytes, place: Bytes, body: Bytes, trailer: Bytes)
    requires HasAt(data, pos, Framed(stamp, kind, server, place, body, trailer)) && FrameFits(stamp, server, place, body, trailer)
    ensures pos + 19 + |body| + |trailer| <= |data|
    ensures Le(data, pos, 4) == stamp && data[pos + 4] == kind && Le(data, pos + 9, 4) == 19 + |body| + |trailer|
    ensures HasAt(data, pos + 19, body)
  {
    PowersOf256();
    FrameParts(data, pos, stamp, kind, server, place, body, trailer);
    HoldsByte(data, pos + 4, kind);
    LeOfBytes(data, pos, 4, stamp);
    LeOfBytes(data, pos + 9, 4, 19 + |body| + |trailer|);
  }

  // ---- the bodies ----

  lemma MapMeans(data: Bytes, at: nat, c: Content)
    requires c.Map? && Fits(c) && HasAt(data, at, BodyOf(c))
    ensures TableMap(data, at, at + |BodyOf(c)|) == Some(Name(c.database, c.table))
  {
    var a := c.id + [|c.database|];
    var b := a + c.database;
    var d := b + [0, |c.table|];
    var e := d + c.table;
    var f := e + [0];
    HoldsParts(data, at, f, c.columns);
    HoldsParts(data, at, e, [0]);
    HoldsParts(data, at, d, c.table);
    HoldsParts(data, at, b, [0, |c.table|]);
    assert [0, |c.table|] == [0] + [|c.table|];
    HoldsParts(data, at + |b|, [0], [|c.table|]);
    HoldsParts(data, at, a, c.database);
    HoldsParts(data, at, c.id, [|c.database|]);
    HoldsByte(data, at + 8, |c.database|);
    HoldsByte(data, at + |b| + 1, |c.table|);
    hide Utf8;
  }

  lemma QueryParts(data: Bytes, at: nat, c: Content)
    requires c.Query? && Fits(c) && HasAt(data, at, BodyOf(c))
    ensures |BodyOf(c)| == 14 + |c.status| + |c.database| + |c.sql| && at + |BodyOf(c)| <= |data|
    ensures data[at + 8] == |c.database| && HasAt(data, at + 11, LeBytes(|c.status|, 2))
    ensures data[at + |BodyOf(c)| - |c.sql|..at + |BodyOf(c)|] == c.sql
  {
    hide LeBytes;
    var a := c.thread + [|c.database|];
    var b := a + c.error;
    var d := b + LeBytes(|c.status|, 2);
    var e := d + c.status;
    var f := e + c.database;
    var g := f + [0];
    HoldsParts(data, at, g, c.sql);
    assert data[at + |g|..at + |g| + |c.sql|] == c.sql;
    HasAtEnds(data, at, g + c.sql);
    hide HasAt;
    HoldsParts(data, at, f, [0]);
    HoldsParts(data, at, e, c.database);
    HoldsParts(data, at, d, c.status);
    HoldsParts(data, at, b, LeBytes(|c.status|, 2));
    HoldsParts(data, at, a, c.error);
    HoldsParts(data, at, c.thread, [|c.database|]);
    HoldsByte(data, at + 8, |c.database|);
  }

  lemma QueryMeans(data: Bytes, at: nat, c: Content)
    requires c.Query? && Fits(c) && HasAt(data, at, BodyOf(c))
    ensures Statement(data, at, at + |BodyOf(c)|) ==
              Some(Upper(Strip(c.sql)) != BEGIN && Upper(Strip(c.sql)) != COMMIT && Upper(Strip(c.sql)) != ROLLBACK)
  {
    hide Le;
    hide LeBytes;
    hide HasAt;
    hide Upper;
    hide Strip;
    assert Power(256, 0) == 1 && Power(256, 1) == 256 && Power(256, 2) == 0x1_0000;
    QueryParts(data, at, c);
    LeAt(data, at + 11, 2, |c.status|);
    hide BodyOf;
  }

  lemma UntimedMeans(data: Bytes, at: nat, rest: Bytes)
    requires HasAt(data, at + 25, rest) && CommitFits(Untimed(rest))
    ensures CommitTimes(data, at, at + 25 + |rest|) == Some([])
  {
    hide Le;
    if rest != [] {
      assert data[at + 25] == data[at + 25..at + 25 + |rest|][0];
    }
  }

  lemma ImmediateMeans(data: Bytes, at: nat, c: Commit)
    requires c.Immediate? && CommitFits(c) && HasAt(data, at + 25, CommitBytes(c))
    ensures CommitTimes(data, at, at + 25 + |CommitBytes(c)|) == Some([c.at as int])
  {
    PowersOf256();
    var from := at + 25;
    hide HasAt;
    hide LeBytes;
    hide Le;
    HasAtEnds(data, from, CommitBytes(c));
    HoldsParts(data, from, [2] + c.clock + LeBytes(c.at, 7), c.rest);
    HoldsParts(data, from, [2] + c.clock, LeBytes(c.at, 7));
    HoldsParts(data, from, [2], c.clock);
    HoldsByte(data, from, 2);
    LeAt(data, from + 17, 7, c.at);
  }

  lemma FlagMeans(t: nat)
    requires t < 0x80_0000_0000_0000
    ensures (t + BIT_55) % BIT_55 == t && ((t + BIT_55) / BIT_55) % 2 == 1 && t + BIT_55 < Power(256, 7)
  {
    PowersOf256();
  }

  lemma OriginalMeans(data: Bytes, at: nat, c: Commit)
    requires c.Original? && CommitFits(c) && HasAt(data, at + 25, CommitBytes(c))
    ensures CommitTimes(data, at, at + 25 + |CommitBytes(c)|) == Some([c.at as int, c.original as int])
  {
    hide HasAt;
    hide LeBytes;
    hide Le;
    HasAtEnds(data, at + 25, CommitBytes(c));
    OriginalParts(data, at + 25, c);
    FlagMeans(c.at);
    hide CommitBytes;
  }

  lemma OriginalParts(data: Bytes, from: nat, c: Commit)
    requires c.Original? && CommitFits(c) && HasAt(data, from, CommitBytes(c))
    ensures |CommitBytes(c)| == 31 + |c.rest| && from + 31 <= |data| && data[from] == 2
    ensures Le(data, from + 17, 7) == c.at + BIT_55 && Le(data, from + 24, 7) == c.original
  {
    hide HasAt;
    hide LeBytes;
    hide Le;
    PowersOf256();
    var flagged := c.at + BIT_55;
    var a := [2] + c.clock;
    var b := a + LeBytes(flagged, 7);
    HasAtEnds(data, from, CommitBytes(c));
    HoldsParts(data, from, b + LeBytes(c.original, 7), c.rest);
    HoldsParts(data, from, b, LeBytes(c.original, 7));
    HoldsParts(data, from, a, LeBytes(flagged, 7));
    HoldsParts(data, from, [2], c.clock);
    HoldsByte(data, from, 2);
    LeAt(data, from + 17, 7, flagged);
    LeAt(data, from + 24, 7, c.original);
  }

  lemma LeAt(data: Bytes, at: nat, n: nat, v: nat)
    requires HasAt(data, at, LeBytes(v, n)) && v < Power(256, n)
    ensures at + n <= |data| && Le(data, at, n) == v
  {
    LeOfBytes(data, at, n, v);
  }

  lemma GtidMeans(data: Bytes, at: nat, c: Content)
    requires c.Gtid? && Fits(c) && HasAt(data, at, BodyOf(c))
    ensures at + |BodyOf(c)| <= |data| && CommitTimes(data, at, at + |BodyOf(c)|).Some?
    ensures ValueTimes(CommitTimes(data, at, at + |BodyOf(c)|).value) ==
              match c.commit
              case Untimed(_) => []
              case Immediate(_, t, _) => Time(t)
              case Original(_, t, original, _) => Time(t) + Time(original)
  {
    HoldsParts(data, at, c.head, CommitBytes(c.commit));
    hide CommitTimes;
    match c.commit {
      case Untimed(rest) => UntimedMeans(data, at, rest);
      case Immediate(_, t, _) =>
        ImmediateMeans(data, at, c.commit);
        OneTime(t);
      case Original(_, t, original, _) =>
        OriginalMeans(data, at, c.commit);
        TwoTimes(t, original);
    }
  }

  lemma OneTime(t: nat)
    ensures ValueTimes([t]) == Time(t)
  {
    assert [t][1..] == [];
  }

  lemma TwoTimes(t: nat, u: nat)
    ensures ValueTimes([t, u]) == Time(t) + Time(u)
  {
    assert [t, u][1..] == [u];
    OneTime(u);
  }

  // ---- statements ----

  lemma BlanksAfter(b: Byte, s: Bytes, i: nat)
    requires Space(b) && i <= |s| && Blanks(s[..i])
    ensures Blanks(([b] + s)[..i + 1])
  {
    assert ([b] + s)[..i + 1] == [b] + s[..i];
  }

  lemma BlanksBefore(s: Bytes, b: Byte, j: nat)
    requires Space(b) && j <= |s| && Blanks(s[j..])
    ensures Blanks((s + [b])[j..])
  {
    assert (s + [b])[j..] == s[j..] + [b];
  }

  lemma {:induction false} StripMeans(s: Bytes) returns (i: nat, j: nat)
    ensures i <= j <= |s| && Strip(s) == s[i..j] && Blanks(s[..i]) && Blanks(s[j..])
    decreases |s|
  {
    i, j := 0, |s|;
    if s != [] && Space(s[0]) {
      var rest := s[1..];
      var k, m := StripMeans(rest);
      BlanksAfter(s[0], rest, k);
      assert s == [s[0]] + rest;
      assert rest[k..m] == s[k + 1..m + 1] && rest[m..] == s[m + 1..];
      hide Blanks;
      i, j := k + 1, m + 1;
    } else if s != [] && Space(s[|s| - 1]) {
      var front := s[..|s| - 1];
      i, j := StripMeans(front);
      BlanksBefore(front, s[|s| - 1], j);
      assert s == front + [s[|s| - 1]];
      assert front[i..j] == s[i..j] && front[..i] == s[..i];
      hide Blanks;
    }
  }

  predicate IsWord(word: string) { word != "" && forall i | 0 <= i < |word| :: 'A' <= word[i] <= 'Z' }

  /** Stripping finds the word a text says. */
  lemma {:induction false} StripFinds(s: Bytes, i: nat, j: nat)
    requires i < j <= |s| && !Space(s[i]) && !Space(s[j - 1])
    requires (forall k | 0 <= k < i :: Space(s[k])) && forall k | j <= k < |s| :: Space(s[k])
    ensures Strip(s) == s[i..j]
    decreases |s|
  {
    if i > 0 {
      var rest := s[1..];
      assert forall k | 0 <= k < |rest| :: rest[k] == s[k + 1];
      StripFinds(rest, i - 1, j - 1);
      assert rest[i - 1..j - 1] == s[i..j];
    } else if j < |s| {
      var front := s[..|s| - 1];
      assert Space(s[|s| - 1]);
      StripFinds(front, i, j);
      assert front[i..j] == s[i..j];
    } else {
      assert s[i..j] == s;
    }
  }

  lemma BlankParts(s: Bytes, i: nat, j: nat)
    requires i <= j <= |s| && Blanks(s[..i]) && Blanks(s[j..])
    ensures (forall k | 0 <= k < i :: Space(s[k])) && forall k | j <= k < |s| :: Space(s[k])
  {
    forall k | 0 <= k < i ensures Space(s[k]) {
      assert s[..i][k] in s[..i];
    }
    forall k | j <= k < |s| ensures Space(s[k]) {
      assert s[j..][k - j] in s[j..];
    }
  }

  predicate Codes(bytes: Bytes, word: string) {
    |bytes| == |word| && forall i | 0 <= i < |word| :: bytes[i] == word[i] as int
  }

  lemma SpellsUpper(s: Bytes, bytes: Bytes, word: string)
    requires IsWord(word) && Codes(bytes, word)
    ensures Upper(s) == bytes <==> Spells(s, word)
  {
    if Upper(s) == bytes {
      forall i | 0 <= i < |s| ensures s[i] == word[i] as int || s[i] == word[i] as int + 32 {
        assert Upper(s)[i] == bytes[i];
      }
    }
    if Spells(s, word) {
      forall i | 0 <= i < |s| ensures Upper(s)[i] == bytes[i] {
      }
    }
  }

  lemma SaysMeans(s: Bytes, bytes: Bytes, word: string)
    requires IsWord(word) && Codes(bytes, word)
    ensures Upper(Strip(s)) == bytes <==> Says(s, word)
  {
    SpellsUpper(Strip(s), bytes, word);
    if Spells(Strip(s), word) {
      var i, j := StripMeans(s);
      assert Spells(s[i..j], word);
    }
    if i: nat, j: nat :| i <= j <= |s| && Blanks(s[..i]) && Blanks(s[j..]) && Spells(s[i..j], word) {
      assert s[i..j][0] == s[i] && s[i..j][j - 1 - i] == s[j - 1];
      BlankParts(s, i, j);
      StripFinds(s, i, j);
    }
  }

  lemma WordsAreSpelled()
    ensures IsWord("BEGIN") && IsWord("COMMIT") && IsWord("ROLLBACK")
    ensures Codes(BEGIN, "BEGIN") && Codes(COMMIT, "COMMIT") && Codes(ROLLBACK, "ROLLBACK")
  {
  }

  // ---- one event ----

  lemma UnderstoodKinds(kind: Byte)
    ensures kind !in {2, 15, 19, 33, 34} ==> (kind !in SAFE && kind !in ROWS <==> !Understood(kind))
  {
  }

  /** `Decode` by kind, once the header is known. */
  lemma DecodeByKind(data: Bytes, pos: nat, checksum: nat, stamp: nat, kind: Byte, size: nat)
    requires pos + 19 + size + checksum <= |data| && kind != 15
    requires Le(data, pos, 4) == stamp && data[pos + 4] == kind && Le(data, pos + 9, 4) == 19 + size + checksum
    ensures var plain := Event(pos, pos + 19 + size + checksum, kind, StampTimes(stamp), None, false, false, checksum);
            var body, end := pos + 19, pos + 19 + size;
            Decode(data, pos, checksum) ==
              if IsGtid(kind) then
                (if CommitTimes(data, body, end).None? then None
                 else Some(plain.(times := StampTimes(stamp) + ValueTimes(CommitTimes(data, body, end).value))))
              else if kind == 19 then
                (if TableMap(data, body, end).None? then None else Some(plain.(name := TableMap(data, body, end))))
              else if kind == 2 then
                (if Statement(data, body, end).None? then None else Some(plain.(hides := Statement(data, body, end).value)))
              else if kind !in SAFE && kind !in ROWS then Some(plain.(hides := true, packed := true))
              else Some(plain)
  {
    hide Le;
    hide TableMap;
    hide Statement;
    hide CommitTimes;
  }

  /** What `Meaning` comes to by kind. */
  lemma MeaningByKind(e: Written, at: nat, checksum: nat)
    requires EventFits(e, checksum)
    ensures var c, m := e.content, Meaning(e, at, checksum);
            && m.offset == at && m.end == at + 19 + |BodyOf(c)| + checksum && m.kind == KindOf(c) && m.checksumAfter == checksum
            && m.times == StampTimes(e.stamp) + (match c
                                                 case Gtid(_, _, Immediate(_, t, _)) => Time(t)
                                                 case Gtid(_, _, Original(_, t, original, _)) => Time(t) + Time(original)
                                                 case _ => [])
            && m.name == (if c.Map? then Some(Name(c.database, c.table)) else None)
            && m.hides == ((c.Plain? && !Understood(c.kind))
                           || (c.Query? && !Says(c.sql, "BEGIN") && !Says(c.sql, "COMMIT") && !Says(c.sql, "ROLLBACK")))
            && m.packed == (c.Plain? && !Understood(c.kind))
  {
    hide Says;
    hide BodyOf;
    hide LeBytes;
    hide Understood;
  }

  lemma HidesMeans(data: Bytes, at: nat, c: Content)
    requires c.Query? && Fits(c) && HasAt(data, at, BodyOf(c))
    ensures at + |BodyOf(c)| <= |data|
    ensures Statement(data, at, at + |BodyOf(c)|) ==
              Some(!Says(c.sql, "BEGIN") && !Says(c.sql, "COMMIT") && !Says(c.sql, "ROLLBACK"))
  {
    HasAtEnds(data, at, BodyOf(c));
    QueryMeans(data, at, c);
    hide *;
    WordsAreSpelled();
    SaysMeans(c.sql, BEGIN, "BEGIN");
    SaysMeans(c.sql, COMMIT, "COMMIT");
    SaysMeans(c.sql, ROLLBACK, "ROLLBACK");
  }

  /** The scan reads what was written. */
  lemma DecodeWritten(data: Bytes, pos: nat, e: Written, checksum: nat)
    requires EventFits(e, checksum) && HasAt(data, pos, EventBytes(e)) && pos < |data|
    ensures Decode(data, pos, checksum) == Some(Meaning(e, pos, checksum))
  {
    hide Le;
    hide TableMap;
    hide Statement;
    hide CommitTimes;
    hide Says;
    hide Decode;
    hide HasAt;
    hide BodyOf;
    hide LeBytes;
    hide StampTimes;
    hide ValueTimes;
    hide Time;
    hide Understood;
    hide Meaning;
    hide Utf8;
    var c := e.content;
    var body := BodyOf(c);
    FrameMeans(data, pos, e.stamp, KindOf(c), e.server, e.place, body, e.trailer);
    DecodeByKind(data, pos, checksum, e.stamp, KindOf(c), |body|);
    MeaningByKind(e, pos, checksum);
    assert StampTimes(e.stamp) + [] == StampTimes(e.stamp);
    match c {
      case Gtid(_, _, _) => GtidMeans(data, pos + 19, c);
      case Map(_, _, _, _) => MapMeans(data, pos + 19, c);
      case Query(_, _, _, _, _) => HidesMeans(data, pos + 19, c);
      case Plain(kind, _) => UnderstoodKinds(kind);
    }
  }

  // ---- a whole file ----

  /** The description of the format that begins a file: version 4, and at its end the checksum algorithm. */
  datatype Format = Format(stamp: nat, server: Bytes, place: Bytes, version: Bytes, lengths: Bytes, algorithm: Byte, crc: Bytes)

  datatype File = File(format: Format, events: seq<Written>)

  function FormatBody(f: Format): Bytes { [4, 0] + f.version + [19] + f.lengths + [f.algorithm] + f.crc }

  predicate FormatFits(f: Format) {
    |f.version| == 54 && |f.crc| == 4 && FrameFits(f.stamp, f.server, f.place, FormatBody(f), [])
  }

  function FormatBytes(f: Format): Bytes { Framed(f.stamp, 15, f.server, f.place, FormatBody(f), []) }

  /** Checksums of four bytes, or none. */
  function ChecksumOf(f: Format): nat { if f.algorithm == 1 then 4 else 0 }

  predicate AllFit(events: seq<Written>, checksum: nat) {
    forall e | e in events :: Fits(e.content) && EventFits(e, checksum)
  }

  predicate FileFits(f: File) { FormatFits(f.format) && AllFit(f.events, ChecksumOf(f.format)) }

  function RestBytes(events: seq<Written>): Bytes
    requires forall e | e in events :: Fits(e.content)
  {
    if events == [] then [] else EventBytes(events[0]) + RestBytes(events[1..])
  }

  function FileBytes(f: File): Bytes
    requires FileFits(f)
  {
    [0xFE, 0x62, 0x69, 0x6E] + FormatBytes(f.format) + RestBytes(f.events)
  }

  function FormatMeaning(f: Format): Event {
    Event(4, 4 + |FormatBytes(f)|, 15,
          if f.stamp == 0 then [] else [Times(f.stamp * 1_000_000, f.stamp * 1_000_000 + 999_999)], None, false, false, ChecksumOf(f))
  }

  function MeaningsFrom(events: seq<Written>, at: nat, checksum: nat): seq<Event>
    requires forall e | e in events :: Fits(e.content)
  {
    if events == [] then [] else [Meaning(events[0], at, checksum)] + MeaningsFrom(events[1..], at + |EventBytes(events[0])|, checksum)
  }

  function Meanings(f: File): seq<Event>
    requires FileFits(f)
  {
    [FormatMeaning(f.format)] + MeaningsFrom(f.events, 4 + |FormatBytes(f.format)|, ChecksumOf(f.format))
  }

  lemma FormatParts(data: Bytes, at: nat, f: Format)
    requires HasAt(data, at, FormatBody(f)) && |f.version| == 54 && |f.crc| == 4
    ensures at + |FormatBody(f)| <= |data| && |FormatBody(f)| == 62 + |f.lengths|
    ensures data[at] == 4 && data[at + 1] == 0 && data[at + 56] == 19 && data[at + |FormatBody(f)| - 5] == f.algorithm
  {
    var a: Bytes := [4, 0];
    var b := a + f.version;
    var c := b + [19];
    var d := c + f.lengths;
    var e := d + [f.algorithm];
    HasAtEnds(data, at, e + f.crc);
    assert a == [4] + [0];
    hide HasAt;
    HoldsParts(data, at, e, f.crc);
    HoldsParts(data, at, d, [f.algorithm]);
    HoldsParts(data, at, c, f.lengths);
    HoldsParts(data, at, b, [19]);
    HoldsParts(data, at, a, f.version);
    HoldsParts(data, at, [4], [0]);
    HoldsByte(data, at, 4);
    HoldsByte(data, at + 1, 0);
    HoldsByte(data, at + 56, 19);
    HoldsByte(data, at + |d|, f.algorithm);
  }

  lemma DecodeFormat(data: Bytes, f: Format)
    requires FormatFits(f) && HasAt(data, 4, FormatBytes(f)) && 4 < |data|
    ensures Decode(data, 4, 0) == Some(FormatMeaning(f))
  {
    FrameMeans(data, 4, f.stamp, 15, f.server, f.place, FormatBody(f), []);
    FormatParts(data, 23, f);
    hide Le;
    hide HasAt;
    hide LeBytes;
  }

  lemma {:induction false} ReadRest(data: Bytes, pos: nat, events: seq<Written>, checksum: nat)
    requires AllFit(events, checksum)
    requires HasAt(data, pos, RestBytes(events)) && pos + |RestBytes(events)| == |data|
    ensures EventsFrom(data, pos, checksum) == Some(MeaningsFrom(events, pos, checksum))
    decreases |events|
  {
    hide Decode;
    hide EventBytes;
    hide HasAt;
    hide EventFits;
    hide Fits;
    hide Meaning;
    if events != [] {
      var e, rest := events[0], events[1..];
      assert e in events && forall x :: x in rest ==> x in events;
      HasAtEnds(data, pos, RestBytes(events));
      HoldsParts(data, pos, EventBytes(e), RestBytes(rest));
      EventIsLong(e);
      DecodeWritten(data, pos, e, checksum);
      MeaningEnds(e, pos, checksum);
      ReadRest(data, pos + |EventBytes(e)|, rest, checksum);
    }
  }

  lemma MeaningEnds(e: Written, at: nat, checksum: nat)
    requires Fits(e.content)
    ensures Meaning(e, at, checksum).end == at + |EventBytes(e)| && Meaning(e, at, checksum).checksumAfter == checksum
  {
  }

  lemma EventIsLong(e: Written)
    requires Fits(e.content)
    ensures |EventBytes(e)| > 0
  {
  }

  /** For every file that fits the format: the events read are those that were written, in order, with their names, times and
      doubts. */
  lemma ReadFile(f: File)
    requires FileFits(f)
    ensures EventsOf(FileBytes(f)) == Some(Meanings(f))
  {
    hide Decode;
    hide FormatBytes;
    hide RestBytes;
    hide EventFits;
    hide Fits;
    hide MeaningsFrom;
    var data, format, rest := FileBytes(f), FormatBytes(f.format), RestBytes(f.events);
    SplitFile(data, format, rest);
    FormatIsLong(f.format);
    hide HasAt;
    DecodeFormat(data, f.format);
    ReadRest(data, 4 + |format|, f.events, ChecksumOf(f.format));
  }

  lemma SplitFile(data: Bytes, format: Bytes, rest: Bytes)
    requires data == MAGIC + format + rest
    ensures data[..4] == MAGIC && HasAt(data, 4, format) && HasAt(data, 4 + |format|, rest) && 4 + |format| + |rest| == |data|
  {
    assert data == MAGIC + (format + rest);
    assert data[4..4 + |format + rest|] == format + rest;
    HoldsParts(data, 4, format, rest);
  }

  lemma FormatIsLong(f: Format)
    requires FormatFits(f)
    ensures |FormatBytes(f)| > 19
  {
  }

  /** Every file that fits the format can be indexed, and its directory keeps to what was written in it. */
  method ScanFile(f: File) returns (d: Directory)
    requires FileFits(f)
    ensures Conservative(d, Meanings(f), |FileBytes(f)|)
    ensures FirstGtid(Meanings(f)).Some? && !Irregular(Meanings(f)) ==> Precise(d, Meanings(f))
  {
    ReadFile(f);
    hide *;
    var scanned := Scan(FileBytes(f));
    d := scanned.value;
  }

  // ---- what a directory finds of what was written ----

  function OffsetOf(f: File, i: nat): nat
    requires FileFits(f) && i <= |f.events|
  {
    4 + |FormatBytes(f.format)| + |RestBytes(f.events[..i])|
  }

  lemma {:induction false} MeaningAt(events: seq<Written>, at: nat, checksum: nat, i: nat)
    requires i < |events| && forall e | e in events :: Fits(e.content)
    ensures |MeaningsFrom(events, at, checksum)| == |events|
    ensures MeaningsFrom(events, at, checksum)[i] == Meaning(events[i], at + |RestBytes(events[..i])|, checksum)
    decreases |events|
  {
    hide Meaning;
    hide EventBytes;
    hide Fits;
    var rest := events[1..];
    assert forall e :: e in rest ==> e in events;
    if i > 0 {
      assert events[..i][0] == events[0] && events[..i][1..] == rest[..i - 1];
      MeaningAt(rest, at + |EventBytes(events[0])|, checksum, i - 1);
    } else if |events| > 1 {
      MeaningAt(rest, at + |EventBytes(events[0])|, checksum, 0);
    }
  }

  /** The event written as number `i` is in the log, at its offset. */
  lemma WrittenIsRead(f: File, i: nat) returns (e: Event)
    requires FileFits(f) && i < |f.events| && Fits(f.events[i].content)
    ensures e in Meanings(f) && e == Meaning(f.events[i], OffsetOf(f, i), ChecksumOf(f.format))
  {
    hide Meaning;
    hide EventFits;
    hide FormatBytes;
    hide Fits;
    hide RestBytes;
    hide EventBytes;
    MeaningAt(f.events, 4 + |FormatBytes(f.format)|, ChecksumOf(f.format), i);
    e := Meanings(f)[i + 1];
  }

  /** A query text asks for a name: it is empty, the whole name where it must be exact, else a piece of it; capitals count as
      small letters. */
  ghost predicate AsksFor(text: Bytes, name: Bytes, exact: bool) {
    text == [] || (if exact then SmallLetters(text, name) else exists i :: PieceAt(text, name, i))
  }

  predicate Covers(r: Region, at: nat) { r.start <= at < r.end }

  predicate Touches(t: Times, start: int, end: int) { start <= t.hi && t.lo <= end }

  /** From the bytes of the file to the pruning: a region with a table map of the table asked for, and an event with a time in the
      window, is read; and the table map does lie in a region. */
  lemma WrittenTableIsFound(f: File, d: Directory, m: nat, w: nat, q: Filter, start: int, end: int)
    requires FileFits(f) && Conservative(d, Meanings(f), |FileBytes(f)|)
    requires m < |f.events| && Fits(f.events[m].content) && f.events[m].content.Map?
    requires w < |f.events| && Fits(f.events[w].content) && exists t | t in TimesOf(f.events[w]) :: Touches(t, start, end)
    requires AsksFor(q.database, f.events[m].content.database, q.exact) && AsksFor(q.table, f.events[m].content.table, q.exact)
    ensures forall r | r in d.regions && Covers(r, OffsetOf(f, m)) && Covers(r, OffsetOf(f, w)) :: Allows(EntryOf(r), q, start, end)
  {
    var c := f.events[m].content;
    var map_ := WrittenIsRead(f, m);
    var timed := WrittenIsRead(f, w);
    MeaningNames(f.events[m], OffsetOf(f, m), ChecksumOf(f.format));
    MeaningNames(f.events[w], OffsetOf(f, w), ChecksumOf(f.format));
    MatchesTextMeans(q.database, c.database, q.exact);
    MatchesTextMeans(q.table, c.table, q.exact);
    hide Meaning;
    hide MatchesText;
    hide AsksFor;
    hide Fits;
    hide FileFits;
    hide OffsetOf;
    hide TimesOf;
    forall r | r in d.regions && Covers(r, OffsetOf(f, m)) && Covers(r, OffsetOf(f, w)) ensures Allows(EntryOf(r), q, start, end) {
      assert Inside(map_, r) && Inside(timed, r);
      assert Reflects(r, map_) && Reflects(r, timed);
      assert Name(c.database, c.table) in r.tables && MatchesName(q, Name(c.database, c.table));
    }
  }

  lemma MeaningNames(e: Written, at: nat, checksum: nat)
    requires Fits(e.content)
    ensures var m := Meaning(e, at, checksum);
            && m.offset == at && m.times == TimesOf(e) && m.kind == KindOf(e.content)
            && (e.content.Map? ==> m.name == Some(Name(e.content.database, e.content.table)))
  {
  }

  lemma {:induction false} RestGrows(events: seq<Written>, i: nat, j: nat)
    requires i <= j <= |events| && forall e | e in events :: Fits(e.content)
    ensures (forall e | e in events[..i] || e in events[..j] :: Fits(e.content)) && |RestBytes(events[..i])| <= |RestBytes(events[..j])|
    ensures i < j ==> |RestBytes(events[..i])| < |RestBytes(events[..j])|
    decreases |events|
  {
    hide Fits;
    hide EventBytes;
    if j > 0 {
      assert events[0] in events;
      EventIsLong(events[0]);
      assert events[..j][0] == events[0] && events[..j][1..] == events[1..][..j - 1];
      if i > 0 {
        assert events[..i][0] == events[0] && events[..i][1..] == events[1..][..i - 1];
        RestGrows(events[1..], i - 1, j - 1);
      } else {
        RestGrows(events[1..], 0, j - 1);
      }
    }
  }

  /** In a precise directory the region of an event takes in its transaction, back to the GTID. */
  lemma TransactionIsTogether(f: File, d: Directory, g: nat, m: nat, r: Region)
    requires FileFits(f) && Precise(d, Meanings(f)) && r in d.regions
    requires g <= m < |f.events| && Covers(r, OffsetOf(f, m))
    requires forall e | e in Meanings(f) && IsGtid(e.kind) :: e.offset <= OffsetOf(f, g) || OffsetOf(f, m) < e.offset
    ensures Covers(r, OffsetOf(f, g))
  {
    RestGrows(f.events, g, m);
    var e :| e in Meanings(f) && IsGtid(e.kind) && e.offset == r.start;
    hide EventFits;
    hide Meanings;
  }

  // ---- names ----

  /** A Unicode scalar value. */
  predicate Scalar(c: int) { 0 <= c < 0xD800 || 0xDFFF < c <= 0x10_FFFF }

  /** Its encoding, section 3 of RFC 3629. */
  function Encoded(c: int): Bytes
    requires Scalar(c)
  {
    if c < 0x80 then [c]
    else if c < 0x800 then [0xC0 + c / 0x40, 0x80 + c % 0x40]
    else if c < 0x1_0000 then [0xE0 + c / 0x1000, 0x80 + c / 0x40 % 0x40, 0x80 + c % 0x40]
    else [0xF0 + c / 0x4_0000, 0x80 + c / 0x1000 % 0x40, 0x80 + c / 0x40 % 0x40, 0x80 + c % 0x40]
  }

  function Text(cs: seq<int>): Bytes
    requires forall c | c in cs :: Scalar(c)
  {
    if cs == [] then [] else Encoded(cs[0]) + Text(cs[1..])
  }

  lemma EncodedIsUtf8(c: int, rest: Bytes)
    requires Scalar(c) && Utf8(rest)
    ensures Utf8(Encoded(c) + rest)
  {
    var s := Encoded(c) + rest;
    assert s[|Encoded(c)|..] == rest;
  }

  /** Every text can be a name. */
  lemma {:induction false} TextIsUtf8(cs: seq<int>)
    requires forall c | c in cs :: Scalar(c)
    ensures Utf8(Text(cs))
  {
    if cs != [] {
      assert cs[0] in cs && forall c :: c in cs[1..] ==> c in cs;
      TextIsUtf8(cs[1..]);
      EncodedIsUtf8(cs[0], Text(cs[1..]));
    }
  }

  lemma By64(q: int, r: int)
    requires 0 <= r < 0x40
    ensures (q * 0x40 + r) / 0x40 == q && (q * 0x40 + r) % 0x40 == r
  {
  }

  lemma TwoBytes(a: Byte, b: Byte) returns (c: int)
    requires 0xC2 <= a < 0xE0 && 0x80 <= b <= 0xBF
    ensures Scalar(c) && Encoded(c) == [a, b]
  {
    var x, y := a as int - 0xC0, b as int - 0x80;
    c := x * 0x40 + y;
    By64(x, y);
  }

  lemma ThreeBytes(a: Byte, b: Byte, d: Byte) returns (c: int)
    requires 0xE0 <= a < 0xF0 && 0x80 <= b <= 0xBF && 0x80 <= d <= 0xBF && (a == 0xE0 ==> b >= 0xA0) && (a == 0xED ==> b < 0xA0)
    ensures Scalar(c) && Encoded(c) == [a, b, d]
  {
    var x, y, z := a as int - 0xE0, b as int - 0x80, d as int - 0x80;
    var top := x * 0x40 + y;
    c := top * 0x40 + z;
    By64(top, z);
    By64(x, y);
    assert c / 0x1000 == c / 0x40 / 0x40;
  }

  lemma FourBytes(a: Byte, b: Byte, d: Byte, e: Byte) returns (c: int)
    requires 0xF0 <= a < 0xF5 && 0x80 <= b <= 0xBF && 0x80 <= d <= 0xBF && 0x80 <= e <= 0xBF
    requires (a == 0xF0 ==> b >= 0x90) && (a == 0xF4 ==> b < 0x90)
    ensures Scalar(c) && Encoded(c) == [a, b, d, e]
  {
    var x, y, z, u := a as int - 0xF0, b as int - 0x80, d as int - 0x80, e as int - 0x80;
    var high := x * 0x40 + y;
    var top := high * 0x40 + z;
    c := top * 0x40 + u;
    By64(top, u);
    By64(high, z);
    By64(x, y);
    assert c / 0x1000 == c / 0x40 / 0x40 && c / 0x4_0000 == c / 0x1000 / 0x40;
  }

  lemma FirstScalar(s: Bytes) returns (c: int, n: nat)
    requires s != [] && Utf8(s)
    ensures Scalar(c) && 0 < n <= |s| && Encoded(c) == s[..n] && Utf8(s[n..])
  {
    if s[0] < 0x80 {
      c, n := s[0], 1;
    } else {
      hide Encoded;
      hide Scalar;
      if s[0] < 0xE0 {
        c := TwoBytes(s[0], s[1]);
        n := 2;
        assert s[..2] == [s[0], s[1]];
      } else if s[0] < 0xF0 {
        c := ThreeBytes(s[0], s[1], s[2]);
        n := 3;
        assert s[..3] == [s[0], s[1], s[2]];
      } else {
        c := FourBytes(s[0], s[1], s[2], s[3]);
        n := 4;
        assert s[..4] == [s[0], s[1], s[2], s[3]];
      }
    }
  }

  /** And only texts can: what passes as UTF-8 encodes some scalar values. */
  lemma {:induction false} Utf8IsText(s: Bytes) returns (cs: seq<int>)
    requires Utf8(s)
    ensures (forall c | c in cs :: Scalar(c)) && s == Text(cs)
    decreases |s|
  {
    cs := [];
    if s != [] {
      var c, n := FirstScalar(s);
      var rest := Utf8IsText(s[n..]);
      cs := [c] + rest;
      assert s == s[..n] + s[n..];
    }
  }
}
