/** The conservative directory of a MySQL binlog (app/binlog_lite.py:46-174, 241-252, 281-292): one pass over the event
    headers, and the predicate that prunes regions. */
module BinlogIndex {
  import opened Select

  type Byte = b: int | 0 <= b < 256

  type Bytes = seq<Byte>

  const MAX_TIME: int := 0x4000_0000_0000_0000
  const HEADER: nat := 19
  const MAGIC: Bytes := [0xFE, 0x62, 0x69, 0x6E]
  const ROWS: set<int> := {20, 21, 22, 23, 24, 25, 30, 31, 32, 39}
  const SAFE: set<int> := {2, 3, 4, 5, 13, 14, 15, 16, 19, 27, 28, 29, 33, 34, 35, 36, 38}
  const BIT_55: int := 0x80_0000_0000_0000

  datatype Name = Name(database: Bytes, table: Bytes)

  /** Microseconds, both ends included. */
  datatype Times = Times(lo: int, hi: int)

  // ---- one event ----

  /** What the scan looks at in one event. `opaque_` events may hide changes to any table, `packed` ones at any time. */
  datatype Event = Event(offset: nat, end: nat, kind: int, times: seq<Times>, name: Option<Name>, hides: bool, packed: bool,
                         checksumAfter: nat)

  function Le(data: Bytes, at: nat, n: nat): (value: nat)
    requires at + n <= |data|
    ensures value < Power(256, n)
    decreases n
  {
    if n == 0 then 0 else data[at] + 256 * Le(data, at + 1, n - 1)
  }

  function Power(base: nat, n: nat): nat { if n == 0 then 1 else base * Power(base, n - 1) }

  /** Commit times of a GTID event: the immediate one, and the original one when bit 55 says it follows. */
  function CommitTimes(data: Bytes, body: nat, payloadEnd: int): Option<seq<int>>
    requires body <= |data| && payloadEnd <= |data|
  {
    if payloadEnd - body < 25 then None
    else if payloadEnd - body < 49 || data[body + 25] != 2 then Some([])
    else
      var immediate := Le(data, body + 42, 7);
      var first := immediate % BIT_55;
      if (immediate / BIT_55) % 2 == 0 then Some([first])
      else if payloadEnd - body < 56 then None
      else Some([first, Le(data, body + 49, 7)])
  }

  predicate Continues(s: Bytes, at: nat, n: nat) { at + n <= |s| && forall i | at <= i < at + n :: 0x80 <= s[i] <= 0xBF }

  /** Well-formed UTF-8, as section 4 of RFC 3629 has it: no overlong form, no surrogate, nothing above U+10FFFF. */
  predicate Utf8(s: Bytes)
    decreases |s|
  {
    if s == [] then true
    else if s[0] < 0x80 then Utf8(s[1..])
    else if s[0] < 0xC2 then false
    else if s[0] < 0xE0 then Continues(s, 1, 1) && Utf8(s[2..])
    else if s[0] < 0xF0 then
      Continues(s, 1, 2) && (s[0] == 0xE0 ==> s[1] >= 0xA0) && (s[0] == 0xED ==> s[1] < 0xA0) && Utf8(s[3..])
    else
      s[0] < 0xF5 && Continues(s, 1, 3) && (s[0] == 0xF0 ==> s[1] >= 0x90) && (s[0] == 0xF4 ==> s[1] < 0x90) && Utf8(s[4..])
  }

  function TableMap(data: Bytes, body: nat, payloadEnd: int): Option<Name>
    requires body <= |data| && payloadEnd <= |data|
  {
    var cursor := body + 8;
    if cursor >= payloadEnd then None
    else
      var dbLen := data[cursor];
      if cursor + 1 + dbLen + 2 > payloadEnd then None
      else
        var tableAt := cursor + 1 + dbLen + 1;
        var tableLen := data[tableAt];
        if tableAt + 1 + tableLen + 1 > payloadEnd then None
        else
          var database, table := data[cursor + 1..cursor + 1 + dbLen], data[tableAt + 1..tableAt + 1 + tableLen];
          if Utf8(database) && Utf8(table) then Some(Name(database, table)) else None
  }

  predicate Space(b: Byte) { b == 32 || 9 <= b <= 13 }

  function Strip(s: Bytes): Bytes
    decreases |s|
  {
    if s == [] then s
    else if Space(s[0]) then Strip(s[1..])
    else if Space(s[|s| - 1]) then Strip(s[..|s| - 1])
    else s
  }

  function Upper(s: Bytes): Bytes { seq(|s|, i requires 0 <= i < |s| => if 97 <= s[i] <= 122 then s[i] - 32 else s[i]) }

  const BEGIN: Bytes := [66, 69, 71, 73, 78]
  const COMMIT: Bytes := [67, 79, 77, 77, 73, 84]
  const ROLLBACK: Bytes := [82, 79, 76, 76, 66, 65, 67, 75]

  /** Whether a query event is anything but BEGIN, COMMIT or ROLLBACK. */
  function Statement(data: Bytes, body: nat, payloadEnd: int): Option<bool>
    requires body <= |data| && payloadEnd <= |data|
  {
    if payloadEnd - body < 13 then None
    else
      var sqlStart := body + 13 + Le(data, body + 11, 2) + data[body + 8] + 1;
      if sqlStart > payloadEnd then None
      else
        var sql := Upper(Strip(data[sqlStart..payloadEnd]));
        Some(sql != BEGIN && sql != COMMIT && sql != ROLLBACK)
  }

  function StampTimes(stamp: int): seq<Times> {
    if stamp == 0 then [] else [Times(stamp * 1_000_000, stamp * 1_000_000 + 999_999)]
  }

  function ValueTimes(values: seq<int>): seq<Times> {
    if values == [] then [] else (if values[0] != 0 then [Times(values[0], values[0])] else []) + ValueTimes(values[1..])
  }

  predicate FormatDescription(data: Bytes, body: nat, length: nat)
    requires body + length <= |data| + HEADER
  {
    length >= HEADER + 57 && data[body] == 4 && data[body + 1] == 0 && data[body + 56] == 19
  }

  predicate IsGtid(kind: int) { kind == 33 || kind == 34 }

  /** The event at `pos`, under the checksum length in force, or None where the scan gives up. */
  function Decode(data: Bytes, pos: nat, checksum: nat): (e: Option<Event>)
    requires pos < |data|
    ensures e.Some? ==> e.value.offset == pos && pos + HEADER <= e.value.end <= |data|
  {
    if |data| - pos < HEADER then None
    else
      var stamp, kind, length := Le(data, pos, 4), data[pos + 4], Le(data, pos + 9, 4);
      if length < HEADER || pos + length > |data| then None
      else
        var body, end := pos + HEADER, pos + length;
        var payloadEnd := end - checksum;
        var plain := Event(pos, end, kind, StampTimes(stamp), None, false, false, checksum);
        if kind == 15 then
          if !FormatDescription(data, body, length) then None
          else Some(plain.(checksumAfter := if data[end - 5] == 1 then 4 else 0))
        else if IsGtid(kind) then
          var commit := CommitTimes(data, body, payloadEnd);
          if commit.None? then None else Some(plain.(times := plain.times + ValueTimes(commit.value)))
        else if kind == 19 then
          var name := TableMap(data, body, payloadEnd);
          if name.None? then None else Some(plain.(name := name))
        else if kind == 2 then
          var statement := Statement(data, body, payloadEnd);
          if statement.None? then None else Some(plain.(hides := statement.value))
        else if kind !in SAFE && kind !in ROWS then Some(plain.(hides := true, packed := true))
        else Some(plain)
  }

  /** The events from `pos` to the end of the file. */
  function EventsFrom(data: Bytes, pos: nat, checksum: nat): Option<seq<Event>>
    requires pos <= |data|
    decreases |data| - pos
  {
    if pos == |data| then Some([])
    else
      var e := Decode(data, pos, checksum);
      if e.None? then None
      else
        var rest := EventsFrom(data, e.value.end, e.value.checksumAfter);
        if rest.None? then None else Some([e.value] + rest.value)
  }

  /** The events of a file the scan accepts: magic number, and a format description first. */
  function EventsOf(data: Bytes): Option<seq<Event>> {
    if |data| < 23 || data[..4] != MAGIC then None
    else
      var events := EventsFrom(data, 4, 0);
      if events.None? || events.value[0].kind != 15 then None else events
  }

  // ---- the directory ----

  datatype Region = Region(start: nat, end: nat, tables: set<Name>, lo: int, hi: int, unknown: bool)

  datatype Directory = Directory(prefixEnd: nat, regions: seq<Region>, tables: set<Name>)

  /** Everything the event says is in the region's entry. */
  predicate Reflects(r: Region, e: Event) {
    && (e.name.Some? ==> e.name.value in r.tables)
    && (e.hides ==> r.unknown)
    && (e.packed ==> r.lo <= 0 && MAX_TIME <= r.hi)
    && forall t | t in e.times :: r.lo <= t.lo && t.hi <= r.hi
  }

  predicate Inside(e: Event, r: Region) { r.start <= e.offset < r.end }

  predicate Timed(log: seq<Event>, r: Region, e: Event, t: Times) { e in log && Inside(e, r) && t in e.times }

  /** The bounds are no wider than the times in the region, unless an event packs others; without any time they are those of
      `none`. */
  ghost predicate Tight(r: Region, log: seq<Event>, none: Times) {
    || (exists e | e in log && Inside(e, r) :: e.packed)
    || ((forall e | e in log && Inside(e, r) :: e.times == []) && r.lo == none.lo && r.hi == none.hi)
    || ((exists e, t :: Timed(log, r, e, t) && t.lo == r.lo) && exists e, t :: Timed(log, r, e, t) && t.hi == r.hi)
  }

  const NONE_YET: Times := Times(MAX_TIME, 0)
  const ANY_TIME: Times := Times(0, MAX_TIME)

  /** The entry reflects each of its events, and says nothing that none of them says. */
  ghost predicate Sound(r: Region, log: seq<Event>) {
    && (forall e | e in log && Inside(e, r) :: Reflects(r, e))
    && (forall n | n in r.tables :: exists e | e in log && Inside(e, r) :: e.name == Some(n))
    && (r.unknown ==> exists e | e in log && Inside(e, r) :: e.hides)
  }

  /** Regions follow one another from `from` to `to`. */
  predicate Tiles(regions: seq<Region>, from: nat, to: nat) {
    if regions == [] then from == to
    else
      var last := regions[|regions| - 1];
      last.end == to && last.start < to && Tiles(regions[..|regions| - 1], from, last.start)
  }

  predicate Blank(e: Event) { e.name.None? && !e.hides }

  function NamesOf(log: seq<Event>): set<Name> { set e | e in log && e.name.Some? :: e.name.value }

  function FirstGtid(log: seq<Event>): Option<nat> {
    if log == [] then None
    else
      var before, e := FirstGtid(log[..|log| - 1]), log[|log| - 1];
      if before.Some? then before else if IsGtid(e.kind) then Some(e.offset) else None
  }

  /** Reasons to keep one region over the whole file: an anonymous GTID, or a table map or statement before the first GTID. */
  predicate Irregular(log: seq<Event>) {
    || (exists e | e in log :: e.kind == 34)
    || (FirstGtid(log).Some? && exists e | e in log && e.offset < FirstGtid(log).value :: !Blank(e))
  }

  /** What a directory owes to the events of its file. */
  ghost predicate Conservative(d: Directory, log: seq<Event>, size: nat) {
    && d.regions != [] && Tiles(d.regions, d.prefixEnd, size)
    && (forall r, e | r in d.regions && e in log && Inside(e, r) :: Reflects(r, e))
    && (forall e | e in log && e.offset < d.prefixEnd :: Blank(e))
    && d.tables == NamesOf(log)
    && (forall r | r in d.regions :: r.tables <= d.tables)
  }

  /** And how closely it keeps to them: regions begin with a GTID, each GTID begins one, and they say only what their own events
      say. */
  ghost predicate Precise(d: Directory, log: seq<Event>) {
    && (forall r | r in d.regions :: Sound(r, log) && Tight(r, log, ANY_TIME) && exists e | e in log && IsGtid(e.kind) :: e.offset == r.start)
    && forall e | e in log && IsGtid(e.kind) :: Opens(d.regions, e.offset)
  }

  predicate Opens(regions: seq<Region>, at: nat) { exists r | r in regions :: r.start == at }

  function Whole(size: nat, tables: set<Name>): Region { Region(4, size, tables, 0, MAX_TIME, true) }

  // ---- the scan ----

  function Low(lo: int, times: seq<Times>): (m: int)
    ensures m <= lo && forall t | t in times :: m <= t.lo
  {
    if times == [] then lo else var m := Low(lo, times[1..]); if times[0].lo < m then times[0].lo else m
  }

  function High(hi: int, times: seq<Times>): (m: int)
    ensures m >= hi && forall t | t in times :: t.hi <= m
  {
    if times == [] then hi else var m := High(hi, times[1..]); if times[0].hi > m then times[0].hi else m
  }

  /** One event recorded in the current region. */
  function Absorbed(r: Region, e: Event): Region {
    r.(tables := if e.name.Some? then r.tables + {e.name.value} else r.tables,
       unknown := r.unknown || e.hides,
       lo := if e.packed then 0 else Low(r.lo, e.times),
       hi := if e.packed then MAX_TIME else High(r.hi, e.times))
  }

  function Widened(r: Region): Region { if r.lo == MAX_TIME || r.hi == 0 then r.(lo := 0, hi := MAX_TIME) else r }

  lemma {:induction false} LowIsThere(lo: int, times: seq<Times>)
    ensures Low(lo, times) == lo || exists t | t in times :: t.lo == Low(lo, times)
    ensures times != [] && (forall t | t in times :: t.lo < lo) ==> exists t | t in times :: t.lo == Low(lo, times)
  {
    if times != [] {
      LowIsThere(lo, times[1..]);
      assert times[0] in times && forall t :: t in times[1..] ==> t in times;
    }
  }

  lemma {:induction false} HighIsThere(hi: int, times: seq<Times>)
    ensures High(hi, times) == hi || exists t | t in times :: t.hi == High(hi, times)
    ensures times != [] && (forall t | t in times :: t.hi > hi) ==> exists t | t in times :: t.hi == High(hi, times)
  {
    if times != [] {
      HighIsThere(hi, times[1..]);
      assert times[0] in times && forall t :: t in times[1..] ==> t in times;
    }
  }

  /** The times of an event lie between zero and the greatest time. */
  predicate InTime(e: Event) { forall t | t in e.times :: 0 <= t.lo < MAX_TIME && 0 < t.hi <= MAX_TIME }

  lemma PowersOf256()
    ensures Power(256, 4) == 0x1_0000_0000 && Power(256, 7) == 0x100_0000_0000_0000
  {
    assert Power(256, 0) == 1 && Power(256, 1) == 256 && Power(256, 2) == 65536;
    assert Power(256, 3) == 16_777_216 && Power(256, 4) == 0x1_0000_0000;
    assert Power(256, 5) == 0x100_0000_0000 && Power(256, 6) == 0x1_0000_0000_0000;
  }

  lemma {:induction false} ValuesInTime(values: seq<int>)
    requires forall v | v in values :: 0 <= v < MAX_TIME
    ensures forall t | t in ValueTimes(values) :: 0 <= t.lo < MAX_TIME && 0 < t.hi <= MAX_TIME
  {
    if values != [] {
      assert values[0] in values && forall v :: v in values[1..] ==> v in values;
      ValuesInTime(values[1..]);
    }
  }

  lemma CommitInTime(data: Bytes, body: nat, payloadEnd: int)
    requires body <= |data| && payloadEnd <= |data| && CommitTimes(data, body, payloadEnd).Some?
    ensures forall v | v in CommitTimes(data, body, payloadEnd).value :: 0 <= v < MAX_TIME
  {
    PowersOf256();
  }

  lemma DecodedInTime(data: Bytes, pos: nat, checksum: nat)
    requires pos < |data| && Decode(data, pos, checksum).Some?
    ensures InTime(Decode(data, pos, checksum).value)
  {
    PowersOf256();
    var stamp, length := Le(data, pos, 4), Le(data, pos + 9, 4);
    var body, payloadEnd := pos + HEADER, pos + length - checksum;
    if IsGtid(data[pos + 4]) {
      CommitInTime(data, body, payloadEnd);
      ValuesInTime(CommitTimes(data, body, payloadEnd).value);
    }
    hide Le;
    hide CommitTimes;
    hide TableMap;
    hide Statement;
    hide ValueTimes;
  }

  // ---- the scan, region by region ----

  /** State of the pass after the events `log`. */
  datatype State = State(regions: seq<Region>, region: Region, tables: set<Name>, firstGtid: Option<nat>, forceWhole: bool)

  function Fresh(start: nat, size: nat): Region { Region(start, size, {}, MAX_TIME, 0, false) }

  predicate Speaks(r: Region) { r.tables != {} || r.unknown }

  /** A GTID closes the region before it; the first one drops a prefix that says nothing. */
  function Cut(s: State, e: Event, size: nat): State {
    if !IsGtid(e.kind) then s
    else if s.firstGtid.None? then
      State(if Speaks(s.region) then s.regions + [s.region.(end := e.offset)] else s.regions, Fresh(e.offset, size), s.tables,
            Some(e.offset), s.forceWhole || Speaks(s.region))
    else s.(regions := s.regions + [s.region.(end := e.offset)], region := Fresh(e.offset, size))
  }

  /** One event of the pass. */
  function Next(s: State, e: Event, size: nat): State {
    var c := Cut(s, e, size);
    c.(region := Absorbed(c.region, e), forceWhole := c.forceWhole || e.kind == 34,
       tables := if e.name.Some? then c.tables + {e.name.value} else c.tables)
  }

  /** `log` is what stands before `pos`. */
  predicate LogTo(log: seq<Event>, pos: nat) {
    && (forall e | e in log :: 4 <= e.offset < e.end <= pos && InTime(e))
    && forall i, j | 0 <= i < j < |log| :: log[i].end <= log[j].offset
  }

  /** A region that is accounted for: sound, and opened by a GTID. */
  ghost predicate Closed(r: Region, log: seq<Event>) {
    Sound(r, log) && Tight(r, log, NONE_YET) && exists e | e in log && IsGtid(e.kind) :: e.offset == r.start
  }

  /** The same of a finished region. */
  ghost predicate Final(r: Region, log: seq<Event>) {
    Sound(r, log) && Tight(r, log, ANY_TIME) && exists e | e in log && IsGtid(e.kind) :: e.offset == r.start
  }

  ghost predicate Holds(s: State, log: seq<Event>, pos: nat, size: nat) {
    && 4 <= s.region.start <= pos && s.region.end == size && pos <= size
    && Sound(s.region, log) && Tight(s.region, log, NONE_YET)
    && s.tables == NamesOf(log)
    && s.firstGtid == FirstGtid(log)
    && (s.forceWhole <==> Irregular(log))
    && (s.firstGtid.None? ==> s.regions == [] && s.region.start == 4)
    && (s.firstGtid.Some? && !s.forceWhole ==>
          && Tiles(s.regions, s.firstGtid.value, s.region.start)
          && Closed(s.region, log)
          && (forall e | e in log && IsGtid(e.kind) :: Opens(s.regions + [s.region], e.offset))
          && forall r | r in s.regions :: Closed(r, log) && r.end <= s.region.start)
  }

  lemma TightGrows(r: Region, log: seq<Event>, more: seq<Event>, now: Region)
    requires Tight(r, log, NONE_YET) && now.lo == r.lo && now.hi == r.hi
    requires forall e :: e in log && Inside(e, r) <==> e in more && Inside(e, now)
    ensures Tight(now, more, NONE_YET)
  {
    if e, t :| Timed(log, r, e, t) && t.lo == r.lo {
      assert Timed(more, now, e, t);
    }
    if e, t :| Timed(log, r, e, t) && t.hi == r.hi {
      assert Timed(more, now, e, t);
    }
  }

  lemma AbsorbTight(r: Region, log: seq<Event>, e: Event)
    requires Tight(r, log, NONE_YET) && Inside(e, r) && InTime(e) && forall d | d in log :: InTime(d)
    ensures Tight(Absorbed(r, e), log + [e], NONE_YET)
  {
    var more, now := log + [e], Absorbed(r, e);
    assert e in more && forall d :: d in more <==> d in log || d == e;
    if e.packed {
      assert Inside(e, now);
    } else if d :| d in log && Inside(d, r) && d.packed {
      assert d in more && Inside(d, now);
    } else {
      LowIsThere(r.lo, e.times);
      HighIsThere(r.hi, e.times);
      hide Low;
      hide High;
      AbsorbAttains(r, log, e, more, now);
    }
  }

  lemma AbsorbAttains(r: Region, log: seq<Event>, e: Event, more: seq<Event>, now: Region)
    requires (forall d :: d in more <==> d in log || d == e) && now.start == r.start && now.end == r.end && Inside(e, r)
    requires (exists t | t in e.times :: t.lo == now.lo) || now.lo == r.lo
    requires (exists t | t in e.times :: t.hi == now.hi) || now.hi == r.hi
    requires e.times == [] ==> now.lo == r.lo && now.hi == r.hi
    requires r.lo == MAX_TIME && r.hi == 0 && e.times != [] ==>
               (exists t | t in e.times :: t.lo == now.lo) && exists t | t in e.times :: t.hi == now.hi
    requires Tight(r, log, NONE_YET) && !exists d | d in log && Inside(d, r) :: d.packed
    ensures Tight(now, more, NONE_YET)
  {
    forall t | t in e.times ensures Timed(more, now, e, t) {
    }
    forall d, t | Timed(log, r, d, t) ensures Timed(more, now, d, t) {
    }
    if t :| t in e.times && t.lo == now.lo {
      assert Timed(more, now, e, t);
    }
    if t :| t in e.times && t.hi == now.hi {
      assert Timed(more, now, e, t);
    }
    if d, t :| Timed(log, r, d, t) && t.lo == r.lo {
      assert Timed(more, now, d, t);
    }
    if d, t :| Timed(log, r, d, t) && t.hi == r.hi {
      assert Timed(more, now, d, t);
    }
  }

  lemma WidenedTight(r: Region, log: seq<Event>)
    requires Tight(r, log, NONE_YET) && forall e | e in log :: InTime(e)
    ensures Tight(Widened(r), log, ANY_TIME)
  {
    var now := Widened(r);
    if e :| e in log && Inside(e, r) && e.packed {
      assert Inside(e, now);
    } else {
      forall d, t | Timed(log, r, d, t) ensures Timed(log, now, d, t) && t.lo < MAX_TIME && t.hi > 0 {
      }
      if d, t :| Timed(log, r, d, t) && t.lo == r.lo {
        assert Timed(log, now, d, t);
      }
      if d, t :| Timed(log, r, d, t) && t.hi == r.hi {
        assert Timed(log, now, d, t);
      }
    }
  }

  lemma SoundGrows(r: Region, log: seq<Event>, e: Event)
    requires Sound(r, log) && e.offset >= r.end
    ensures Sound(r, log + [e])
  {
    assert forall d :: d in log + [e] <==> d in log || d == e;
  }

  lemma AbsorbSound(r: Region, log: seq<Event>, e: Event)
    requires Sound(r, log) && Inside(e, r) && InTime(e) && forall d | d in log :: InTime(d)
    ensures Sound(Absorbed(r, e), log + [e])
  {
    var more, now := log + [e], Absorbed(r, e);
    assert forall d :: d in more <==> d in log || d == e;
    forall d | d in more && Inside(d, now) ensures Reflects(now, d) {
      if d in log {
        assert Reflects(r, d);
      }
    }
    forall n | n in now.tables ensures exists d | d in more && Inside(d, now) :: d.name == Some(n) {
      if n in r.tables {
        var d :| d in log && Inside(d, r) && d.name == Some(n);
        assert d in more;
      } else {
        assert e in more;
      }
    }
    if now.unknown {
      if r.unknown {
        var d :| d in log && Inside(d, r) && d.hides;
        assert d in more;
      } else {
        assert e in more;
      }
    }
  }

  lemma ClosedGrows(r: Region, log: seq<Event>, e: Event)
    requires Closed(r, log) && e.offset >= r.end
    ensures Closed(r, log + [e])
  {
    SoundGrows(r, log, e);
    TightGrows(r, log, log + [e], r);
    var g :| g in log && IsGtid(g.kind) && g.offset == r.start;
    assert g in log + [e];
  }

  /** Ending the current region where the next event starts changes nothing about it. */
  lemma SoundCut(r: Region, log: seq<Event>, at: nat)
    requires Sound(r, log) && Tight(r, log, NONE_YET) && at <= r.end && forall e | e in log :: e.offset < at
    ensures Sound(r.(end := at), log) && Tight(r.(end := at), log, NONE_YET)
  {
    forall e | e in log && Inside(e, r) ensures Inside(e, r.(end := at)) {
    }
    TightGrows(r, log, log, r.(end := at));
    hide Tight;
  }

  lemma LogGrows(log: seq<Event>, e: Event)
    ensures NamesOf(log + [e]) == NamesOf(log) + (if e.name.Some? then {e.name.value} else {})
    ensures FirstGtid(log + [e]) == if FirstGtid(log).Some? then FirstGtid(log) else if IsGtid(e.kind) then Some(e.offset) else None
  {
    assert (log + [e])[..|log|] == log;
    assert forall d :: d in log + [e] <==> d in log || d == e;
    forall n | n in NamesOf(log) ensures n in NamesOf(log + [e]) {
      var d :| d in log && d.name == Some(n);
      assert d in log + [e];
    }
    if e.name.Some? {
      assert e in log + [e];
    }
  }

  lemma {:induction false} NoFirstGtid(log: seq<Event>)
    requires FirstGtid(log).None?
    ensures forall e | e in log :: !IsGtid(e.kind)
  {
    if log != [] {
      NoFirstGtid(log[..|log| - 1]);
      assert forall e :: e in log <==> e in log[..|log| - 1] || e == log[|log| - 1];
    }
  }

  /** Cut or not, every GTID so far begins a region. */
  lemma NextOpens(s: State, log: seq<Event>, pos: nat, size: nat, e: Event)
    requires Holds(s, log, pos, size)
    ensures var n := Next(s, e, size);
            n.firstGtid.Some? && !n.forceWhole ==>
              forall g | g in log + [e] && IsGtid(g.kind) :: Opens(n.regions + [n.region], g.offset)
  {
    var n := Next(s, e, size);
    if n.firstGtid.Some? && !n.forceWhole {
      if s.firstGtid.None? {
        NoFirstGtid(log);
      }
      assert n.region in n.regions + [n.region];
      forall g | g in log + [e] && IsGtid(g.kind) ensures Opens(n.regions + [n.region], g.offset) {
        if g in log {
          var r :| r in s.regions + [s.region] && r.start == g.offset;
          if r in s.regions {
            assert r in n.regions + [n.region];
          } else {
            var ended := if IsGtid(e.kind) then s.region.(end := e.offset) else n.region;
            assert ended in n.regions + [n.region] && ended.start == g.offset;
          }
        }
      }
    }
  }

  lemma {:induction false} FirstGtidIsThere(log: seq<Event>, pos: nat)
    requires LogTo(log, pos) && FirstGtid(log).Some?
    ensures FirstGtid(log).value < pos
    ensures exists e | e in log && IsGtid(e.kind) :: e.offset == FirstGtid(log).value
  {
    var n := |log| - 1;
    assert log[n] in log;
    if FirstGtid(log[..n]).Some? {
      FirstGtidIsThere(log[..n], pos);
      var e :| e in log[..n] && IsGtid(e.kind) && e.offset == FirstGtid(log[..n]).value;
      assert e in log;
    }
  }

  /** Whether the file turns out irregular with one more event. */
  lemma IrregularGrows(log: seq<Event>, pos: nat, e: Event, speaks: bool)
    requires LogTo(log, pos) && e.offset == pos
    requires speaks <==> exists d | d in log :: !Blank(d)
    ensures Irregular(log + [e]) <==>
              Irregular(log) || e.kind == 34 || (IsGtid(e.kind) && FirstGtid(log).None? && speaks)
  {
    LogGrows(log, e);
    assert forall d :: d in log + [e] <==> d in log || d == e;
    if FirstGtid(log).Some? {
      FirstGtidIsThere(log, pos);
    }
  }

  /** The prefix region speaks exactly when one of its events does. */
  lemma PrefixSpeaks(r: Region, log: seq<Event>, pos: nat)
    requires Sound(r, log) && LogTo(log, pos) && r.start == 4 && pos <= r.end
    ensures Speaks(r) <==> exists d | d in log :: !Blank(d)
  {
    if d :| d in log && !Blank(d) {
      assert Inside(d, r) && Reflects(r, d);
    }
    if r.tables != {} {
      var n :| n in r.tables;
      assert exists e | e in log && Inside(e, r) :: e.name == Some(n);
    }
  }

  lemma LogToGrows(log: seq<Event>, pos: nat, e: Event)
    requires LogTo(log, pos) && 4 <= pos == e.offset < e.end && InTime(e)
    ensures LogTo(log + [e], e.end)
  {
    forall i, j | 0 <= i < j < |log + [e]| ensures (log + [e])[i].end <= (log + [e])[j].offset {
      if j == |log| {
        assert log[i] in log;
      }
    }
  }

  /** The region a GTID opens. */
  lemma OpenedIsClosed(log: seq<Event>, pos: nat, size: nat, e: Event)
    requires LogTo(log, pos) && e.offset == pos < size && IsGtid(e.kind) && InTime(e)
    ensures Closed(Absorbed(Fresh(pos, size), e), log + [e])
  {
    SoundFresh(pos, size, log, pos);
    AbsorbSound(Fresh(pos, size), log, e);
    AbsorbTight(Fresh(pos, size), log, e);
    assert e in log + [e];
  }

  lemma NextAtGtid(s: State, log: seq<Event>, pos: nat, size: nat, e: Event)
    requires Holds(s, log, pos, size) && LogTo(log, pos) && e.offset == pos < e.end <= size && InTime(e) && IsGtid(e.kind)
    ensures Holds(Next(s, e, size), log + [e], e.end, size)
  {
    hide Sound;
    hide Irregular;
    hide FirstGtid;
    hide NamesOf;
    hide LogTo;
    hide Speaks;
    hide Blank;
    hide Tiles;
    hide Closed;
    hide Tight;
    LogGrows(log, e);
    IrregularGrows(log, pos, e, exists d | d in log :: !Blank(d));
    if s.firstGtid.None? {
      PrefixSpeaks(s.region, log, pos);
    }
    NextOpens(s, log, pos, size, e);
    hide Opens;
    OpenedIsClosed(log, pos, size, e);
    ClosedIsSound(Absorbed(Fresh(pos, size), e), log + [e]);
    CutHolds(s, log, pos, size, e);
  }

  lemma ClosedIsSound(r: Region, log: seq<Event>)
    requires Closed(r, log)
    ensures Sound(r, log) && Tight(r, log, NONE_YET)
  {
  }

  lemma NextInRegion(s: State, log: seq<Event>, pos: nat, size: nat, e: Event)
    requires Holds(s, log, pos, size) && LogTo(log, pos) && e.offset == pos < e.end <= size && InTime(e) && !IsGtid(e.kind)
    ensures Holds(Next(s, e, size), log + [e], e.end, size)
  {
    hide Sound;
    hide Irregular;
    hide FirstGtid;
    hide NamesOf;
    hide LogTo;
    hide Blank;
    hide Tiles;
    hide Closed;
    hide Tight;
    LogGrows(log, e);
    IrregularGrows(log, pos, e, exists d | d in log :: !Blank(d));
    NextOpens(s, log, pos, size, e);
    hide Opens;
    SameRegionHolds(s, log, pos, size, e);
  }

  lemma NextHolds(s: State, log: seq<Event>, pos: nat, size: nat, e: Event)
    requires Holds(s, log, pos, size) && LogTo(log, pos) && e.offset == pos < e.end <= size && InTime(e)
    ensures LogTo(log + [e], e.end)
    ensures Holds(Next(s, e, size), log + [e], e.end, size)
  {
    assert 4 <= pos;
    hide *;
    LogToGrows(log, pos, e);
    if IsGtid(e.kind) {
      NextAtGtid(s, log, pos, size, e);
    } else {
      NextInRegion(s, log, pos, size, e);
    }
  }

  lemma SoundFresh(start: nat, size: nat, log: seq<Event>, pos: nat)
    requires LogTo(log, pos) && pos <= start
    ensures Sound(Fresh(start, size), log) && Tight(Fresh(start, size), log, NONE_YET)
  {
  }

  lemma CutHolds(s: State, log: seq<Event>, pos: nat, size: nat, e: Event)
    requires Holds(s, log, pos, size) && LogTo(log, pos) && e.offset == pos && IsGtid(e.kind)
    ensures var c := Cut(s, e, size);
            c.firstGtid.Some? && !c.forceWhole ==>
              && Tiles(c.regions, c.firstGtid.value, pos)
              && forall r | r in c.regions :: Closed(r, log + [e]) && r.end <= pos
  {
    if s.firstGtid.Some? && !s.forceWhole {
      var ended := s.region.(end := pos);
      SoundCut(s.region, log, pos);
      var g :| g in log && IsGtid(g.kind) && g.offset == s.region.start;
      assert g.offset == ended.start && Closed(ended, log);
      var regions := s.regions + [ended];
      assert regions[..|regions| - 1] == s.regions;
      forall r | r in regions ensures Closed(r, log + [e]) && r.end <= pos {
        ClosedGrows(r, log, e);
      }
      hide Closed;
    } else {
      hide Closed;
      hide Sound;
    }
  }

  lemma SameRegionHolds(s: State, log: seq<Event>, pos: nat, size: nat, e: Event)
    requires Holds(s, log, pos, size) && LogTo(log, pos) && e.offset == pos < size && !IsGtid(e.kind) && InTime(e)
    ensures Sound(Absorbed(s.region, e), log + [e]) && Tight(Absorbed(s.region, e), log + [e], NONE_YET)
    ensures s.firstGtid.Some? && !s.forceWhole ==>
              Closed(Absorbed(s.region, e), log + [e]) && forall r | r in s.regions :: Closed(r, log + [e])
  {
    AbsorbSound(s.region, log, e);
    AbsorbTight(s.region, log, e);
    hide Tight;
    if s.firstGtid.Some? && !s.forceWhole {
      var g :| g in log && IsGtid(g.kind) && g.offset == s.region.start;
      assert g in log + [e] && Absorbed(s.region, e).start == s.region.start;
      forall r | r in s.regions ensures Closed(r, log + [e]) {
        ClosedGrows(r, log, e);
      }
    }
  }

  // ---- the end of the pass ----

  function WidenedAll(regions: seq<Region>): seq<Region> {
    if regions == [] then [] else WidenedAll(regions[..|regions| - 1]) + [Widened(regions[|regions| - 1])]
  }

  lemma {:induction false} WidenedMeans(regions: seq<Region>, from: nat, to: nat)
    ensures |WidenedAll(regions)| == |regions|
    ensures Tiles(regions, from, to) ==> Tiles(WidenedAll(regions), from, to)
    ensures forall i | 0 <= i < |regions| :: WidenedAll(regions)[i] == Widened(regions[i])
  {
    if regions != [] {
      var n := |regions| - 1;
      var front := WidenedAll(regions[..n]);
      WidenedMeans(regions[..n], from, regions[n].start);
      assert (front + [Widened(regions[n])])[..n] == front;
    }
  }

  /** The last region, and the fall-backs: no GTID at all, or an irregular file. */
  function Finished(s: State, size: nat): Directory {
    var last := if s.firstGtid.None? then s.region.(lo := 0, hi := MAX_TIME, unknown := true) else s.region;
    var regions := if s.forceWhole then [Whole(size, s.tables)] else s.regions + [last];
    Directory(if s.forceWhole || s.firstGtid.None? then 4 else s.firstGtid.value, WidenedAll(regions), s.tables)
  }

  lemma FinishedAs(s: State, size: nat)
    ensures var last := if s.firstGtid.None? then s.region.(lo := 0, hi := MAX_TIME, unknown := true) else s.region;
            Finished(s, size) ==
              if s.forceWhole then Directory(4, WidenedAll([Whole(size, s.tables)]), s.tables)
              else Directory(if s.firstGtid.None? then 4 else s.firstGtid.value, WidenedAll(s.regions + [last]), s.tables)
  {
  }

  lemma WidenedReflects(r: Region, e: Event)
    requires Reflects(r, e) && InTime(e)
    ensures Reflects(Widened(r), e)
  {
  }

  lemma WidenedSound(r: Region, log: seq<Event>, pos: nat)
    requires Sound(r, log) && LogTo(log, pos)
    ensures Sound(Widened(r), log)
  {
    forall e | e in log && Inside(e, r) ensures Reflects(Widened(r), e) && Inside(e, Widened(r)) {
      WidenedReflects(r, e);
    }
    forall n | n in r.tables ensures exists e | e in log && Inside(e, Widened(r)) :: e.name == Some(n) {
      var e :| e in log && Inside(e, r) && e.name == Some(n);
      assert Inside(e, Widened(r));
    }
    if r.unknown {
      var e :| e in log && Inside(e, r) && e.hides;
      assert Inside(e, Widened(r));
    }
  }

  /** An irregular file, or one without GTIDs, becomes a single region that accepts everything. */
  lemma OneRegionIsConservative(r: Region, log: seq<Event>, size: nat)
    requires LogTo(log, size) && r.start == 4 < r.end == size && r.unknown && r.lo == 0 && r.hi == MAX_TIME
    requires NamesOf(log) == r.tables
    ensures Conservative(Directory(4, WidenedAll([r]), NamesOf(log)), log, size)
  {
    assert [r][..0] == [] && [r][|[r]| - 1] == r;
    assert WidenedAll([r]) == [r] && Tiles([r], 4, size);
    hide WidenedAll;
    hide Tiles;
    forall e | e in log ensures Reflects(r, e) {
      if e.name.Some? {
        assert e.name.value in NamesOf(log);
      }
    }
    hide Reflects;
    hide NamesOf;
    assert forall q | q in [r] :: q == r;
  }

  lemma SoundNames(r: Region, log: seq<Event>)
    requires Sound(r, log)
    ensures r.tables <= NamesOf(log)
  {
    forall n | n in r.tables ensures n in NamesOf(log) {
      var e :| e in log && Inside(e, r) && e.name == Some(n);
    }
  }

  lemma WidenedClosed(r: Region, log: seq<Event>, pos: nat)
    requires Closed(r, log) && LogTo(log, pos)
    ensures Final(Widened(r), log) && Widened(r).tables <= NamesOf(log)
  {
    WidenedSound(r, log, pos);
    WidenedTight(r, log);
    hide Tight;
    SoundNames(Widened(r), log);
    var h :| h in log && IsGtid(h.kind) && h.offset == r.start;
    assert h.offset == Widened(r).start;
  }

  lemma AllClosed(regions: seq<Region>, log: seq<Event>, pos: nat)
    requires LogTo(log, pos) && forall r | r in regions :: Closed(r, log)
    ensures forall r | r in WidenedAll(regions) :: Final(r, log) && r.tables <= NamesOf(log)
  {
    var all := WidenedAll(regions);
    WidenedMeans(regions, 0, 0);
    forall r | r in all ensures Final(r, log) && r.tables <= NamesOf(log) {
      var i :| 0 <= i < |all| && all[i] == r;
      assert regions[i] in regions;
      WidenedClosed(regions[i], log, pos);
    }
  }

  lemma ClosedBeforeEnd(r: Region, log: seq<Event>, size: nat)
    requires Closed(r, log) && LogTo(log, size)
    ensures r.start < size
  {
  }

  lemma SilentPrefix(log: seq<Event>)
    requires FirstGtid(log).Some? && !Irregular(log)
    ensures forall e | e in log && e.offset < FirstGtid(log).value :: Blank(e)
  {
  }

  /** Closed regions that tile the file from the first GTID on make a directory. */
  lemma WidenedOpen(regions: seq<Region>, at: nat)
    requires Opens(regions, at)
    ensures Opens(WidenedAll(regions), at)
  {
    WidenedMeans(regions, 0, 0);
    var r :| r in regions && r.start == at;
    var i :| 0 <= i < |regions| && regions[i] == r;
    assert WidenedAll(regions)[i] in WidenedAll(regions);
  }

  lemma ClosedRegionsMakeDirectory(regions: seq<Region>, from: nat, size: nat, log: seq<Event>)
    requires forall e | e in log && IsGtid(e.kind) :: Opens(regions, e.offset)
    requires regions != [] && Tiles(regions, from, size)
    requires forall r | r in regions :: Final(r, log) && r.tables <= NamesOf(log)
    requires forall e | e in log && e.offset < from :: Blank(e)
    ensures Conservative(Directory(from, regions, NamesOf(log)), log, size)
    ensures Precise(Directory(from, regions, NamesOf(log)), log)
  {
    hide Tiles;
    hide NamesOf;
    hide Reflects;
    hide Blank;
  }

  lemma FinishedRegular(s: State, log: seq<Event>, size: nat)
    requires Holds(s, log, size, size) && LogTo(log, size) && s.firstGtid.Some? && !s.forceWhole
    ensures Conservative(Finished(s, size), log, size) && Precise(Finished(s, size), log)
  {
    var regions := s.regions + [s.region];
    assert regions[..|regions| - 1] == s.regions;
    hide LogTo;
    hide Closed;
    hide Final;
    hide Sound;
    hide FirstGtid;
    hide NamesOf;
    hide Irregular;
    hide WidenedAll;
    ClosedBeforeEnd(s.region, log, size);
    assert Tiles(regions, s.firstGtid.value, size);
    assert forall r :: r in regions <==> r in s.regions || r == s.region;
    WidenedMeans(regions, s.firstGtid.value, size);
    AllClosed(regions, log, size);
    forall e | e in log && IsGtid(e.kind) ensures Opens(WidenedAll(regions), e.offset) {
      WidenedOpen(regions, e.offset);
    }
    SilentPrefix(log);
    hide Tiles;
    hide Conservative;
    hide Precise;
    ClosedRegionsMakeDirectory(WidenedAll(regions), s.firstGtid.value, size, log);
  }

  lemma FinishedWithoutGtid(s: State, log: seq<Event>, size: nat)
    requires Holds(s, log, size, size) && LogTo(log, size) && s.firstGtid.None? && !s.forceWhole && size > 4
    ensures Conservative(Finished(s, size), log, size)
  {
    var last := s.region.(lo := 0, hi := MAX_TIME, unknown := true);
    forall n | n in NamesOf(log) ensures n in last.tables {
      var e :| e in log && e.name == Some(n);
      assert Inside(e, s.region) && Reflects(s.region, e);
    }
    SoundNames(s.region, log);
    assert s.regions + [last] == [last];
    OneRegionIsConservative(last, log, size);
  }

  lemma FinishedHolds(s: State, log: seq<Event>, size: nat)
    requires Holds(s, log, size, size) && LogTo(log, size) && size > 4
    ensures Conservative(Finished(s, size), log, size)
    ensures FirstGtid(log).Some? && !Irregular(log) ==> Precise(Finished(s, size), log)
  {
    if s.forceWhole {
      OneRegionIsConservative(Whole(size, s.tables), log, size);
    } else if s.firstGtid.None? {
      FinishedWithoutGtid(s, log, size);
    } else {
      FinishedRegular(s, log, size);
    }
  }

  function Prepended(log: seq<Event>, rest: Option<seq<Event>>): Option<seq<Event>> {
    if rest.None? then None else Some(log + rest.value)
  }

  /** `scan`: accepts exactly the files whose events can be read, and gives a directory that is conservative for all of
      them, and precise for those with ordinary GTIDs. */
  method Scan(data: Bytes) returns (d: Option<Directory>)
    ensures d.None? <==> EventsOf(data).None?
    ensures d.Some? ==> Conservative(d.value, EventsOf(data).value, |data|)
    ensures d.Some? && FirstGtid(EventsOf(data).value).Some? && !Irregular(EventsOf(data).value) ==>
              Precise(d.value, EventsOf(data).value)
  {
    assert HEADER > 0;
    hide *;
    if |data| < 23 || data[..4] != MAGIC {
      NotABinlog(data);
      return None;
    }
    var size := |data|;
    var pos, checksum := 4, 0;
    var regions: seq<Region>, tables: set<Name>, firstGtid: Option<nat>, forceWhole := [], {}, None, false;
    var region := Fresh(4, size);
    ghost var log: seq<Event> := [];
    StartHolds(size);
    StartLog(data);
    while pos < size
      invariant 4 <= pos <= size && (pos == 4 ==> log == [] && checksum == 0)
      invariant (log == [] ==> pos == 4) && (log != [] ==> log[0].kind == 15)
      invariant LogTo(log, pos) && Holds(State(regions, region, tables, firstGtid, forceWhole), log, pos, size)
      invariant EventsFrom(data, 4, 0) == Prepended(log, EventsFrom(data, pos, checksum))
      decreases size - pos
    {
      var read := Decode(data, pos, checksum);
      if read.None? {
        NothingToRead(data, pos, checksum, log);
        return None;
      }
      var e := read.value;
      if pos == 4 && e.kind != 15 {
        WrongStart(data, e);
        return None;
      }
      DecodedInTime(data, pos, checksum);
      NextHolds(State(regions, region, tables, firstGtid, forceWhole), log, pos, size, e);
      LogStep(data, pos, checksum, log, e);
      regions, region, tables, firstGtid, forceWhole := Record(regions, region, tables, firstGtid, forceWhole, e, size);
      log := log + [e];
      pos, checksum := e.end, e.checksumAfter;
    }
    ghost var s := State(regions, region, tables, firstGtid, forceWhole);
    FinishedHolds(s, log, size);
    if firstGtid.None? {
      region := region.(lo := 0, hi := MAX_TIME, unknown := true);
    }
    regions := regions + [region];
    var prefixEnd := if firstGtid.Some? then firstGtid.value else 4;
    if forceWhole {
      prefixEnd, regions := 4, [Whole(size, tables)];
    }
    d := Some(Directory(prefixEnd, WidenedAll(regions), tables));
    FinishedAs(s, size);
    AllRead(data, log, checksum);
  }

  /** One event recorded in place: cut at a GTID, then times, names and doubts. */
  method Record(oldRegions: seq<Region>, oldRegion: Region, oldTables: set<Name>, oldGtid: Option<nat>, oldForce: bool, e: Event,
                size: nat)
    returns (regions: seq<Region>, region: Region, tables: set<Name>, firstGtid: Option<nat>, forceWhole: bool)
    ensures State(regions, region, tables, firstGtid, forceWhole) ==
              Next(State(oldRegions, oldRegion, oldTables, oldGtid, oldForce), e, size)
  {
    regions, region, tables, firstGtid, forceWhole := oldRegions, oldRegion, oldTables, oldGtid, oldForce;
    if IsGtid(e.kind) {
      if firstGtid.None? {
        firstGtid := Some(e.offset);
        if region.tables != {} || region.unknown {
          regions := regions + [region.(end := e.offset)];
          forceWhole := true;
        }
      } else {
        regions := regions + [region.(end := e.offset)];
      }
      region := Fresh(e.offset, size);
      if e.kind == 34 {
        forceWhole := true;
      }
    }
    region := region.(lo := Low(region.lo, e.times), hi := High(region.hi, e.times));
    if e.name.Some? {
      region := region.(tables := region.tables + {e.name.value});
      tables := tables + {e.name.value};
    }
    if e.hides {
      region := region.(unknown := true);
    }
    if e.packed {
      region := region.(lo := 0, hi := MAX_TIME);
    }
  }

  lemma NotABinlog(data: Bytes)
    requires |data| < 23 || data[..4] != MAGIC
    ensures EventsOf(data).None?
  {
  }

  lemma StartLog(data: Bytes)
    requires |data| >= 4
    ensures EventsFrom(data, 4, 0) == Prepended([], EventsFrom(data, 4, 0))
  {
    if EventsFrom(data, 4, 0).Some? {
      assert [] + EventsFrom(data, 4, 0).value == EventsFrom(data, 4, 0).value;
    }
  }

  lemma NothingToRead(data: Bytes, pos: nat, checksum: nat, log: seq<Event>)
    requires |data| >= 23 && pos < |data| && Decode(data, pos, checksum).None?
    requires EventsFrom(data, 4, 0) == Prepended(log, EventsFrom(data, pos, checksum))
    ensures EventsOf(data).None?
  {
  }

  lemma WrongStart(data: Bytes, e: Event)
    requires |data| >= 23 && Decode(data, 4, 0) == Some(e) && e.kind != 15
    ensures EventsOf(data).None?
  {
    hide Decode;
    if EventsFrom(data, 4, 0).Some? {
      assert EventsFrom(data, 4, 0).value[0] == e;
    }
  }

  lemma AllRead(data: Bytes, log: seq<Event>, checksum: nat)
    requires |data| >= 23 && data[..4] == MAGIC && log != [] && log[0].kind == 15
    requires EventsFrom(data, 4, 0) == Prepended(log, EventsFrom(data, |data|, checksum))
    ensures EventsOf(data) == Some(log)
  {
    assert log + [] == log;
    hide Decode;
  }

  lemma StartHolds(size: nat)
    requires size > 4
    ensures LogTo([], 4) && Holds(State([], Fresh(4, size), {}, None, false), [], 4, size)
  {
  }

  lemma LogStep(data: Bytes, pos: nat, checksum: nat, log: seq<Event>, e: Event)
    requires pos < |data| && Decode(data, pos, checksum) == Some(e)
    ensures Prepended(log, EventsFrom(data, pos, checksum)) == Prepended(log + [e], EventsFrom(data, e.end, e.checksumAfter))
  {
    var rest := EventsFrom(data, e.end, e.checksumAfter);
    if rest.Some? {
      assert log + ([e] + rest.value) == log + [e] + rest.value;
    }
  }

  // ---- pruning ----

  /** Text of a query: trimmed and in lower case already. */
  datatype Filter = Filter(database: Bytes, table: Bytes, exact: bool)

  function Lower(s: Bytes): Bytes { seq(|s|, i requires 0 <= i < |s| => if 65 <= s[i] <= 90 then s[i] + 32 else s[i]) }

  predicate FoundAt(needle: Bytes, hay: Bytes, i: nat) { i + |needle| <= |hay| && hay[i..i + |needle|] == needle }

  predicate Contains(needle: Bytes, hay: Bytes) { exists i: nat | i <= |hay| :: FoundAt(needle, hay, i) }

  predicate MatchesText(needle: Bytes, value: Bytes, exact: bool) {
    needle == [] || (if exact then needle == Lower(value) else Contains(needle, Lower(value)))
  }

  predicate MatchesName(f: Filter, n: Name) {
    MatchesText(f.database, n.database, f.exact) && MatchesText(f.table, n.table, f.exact)
  }

  datatype Entry = Entry(lo: int, hi: int, tables: set<Name>, unknown: bool)

  /** `allows` */
  predicate Allows(entry: Entry, f: Filter, start: int, end: int) {
    && entry.hi >= start && entry.lo <= end
    && (entry.unknown || (f.database == [] && f.table == []) || exists n | n in entry.tables :: MatchesName(f, n))
  }

  function EntryOf(r: Region): Entry { Entry(r.lo, r.hi, r.tables, r.unknown) }

  /** A change that a query may be after: at a time of its transaction inside the window (a statement may be stamped long
      before its commit), or, for an event that packs others, at any time; in a table of its transaction or, for an event
      that hides tables, in any. */
  predicate MayMatch(r: Region, log: seq<Event>, e: Event, f: Filter, start: int, end: int) {
    && e in log && Inside(e, r)
    && ((e.packed && start <= MAX_TIME && 0 <= end)
        || exists m | m in log && Inside(m, r) :: exists t | t in m.times :: t.hi >= start && t.lo <= end)
    && (e.hides || (f.database == [] && f.table == [])
        || exists m | m in log && Inside(m, r) && m.name.Some? :: MatchesName(f, m.name.value))
  }

  /** No region of a scanned file that may hold a match is pruned, and none lies outside the regions. */
  lemma PruningNeverDropsAMatch(d: Directory, log: seq<Event>, size: nat, r: Region, e: Event, f: Filter, start: int, end: int)
    requires Conservative(d, log, size) && r in d.regions && MayMatch(r, log, e, f, start, end)
    ensures Allows(EntryOf(r), f, start, end)
  {
    assert Reflects(r, e);
    if m :| m in log && Inside(m, r) && exists t | t in m.times :: t.hi >= start && t.lo <= end {
      assert Reflects(r, m);
    }
    if m :| m in log && Inside(m, r) && m.name.Some? && MatchesName(f, m.name.value) {
      assert Reflects(r, m);
    }
  }

  /** In a precise directory a region is read exactly when its times, as an interval, meet the window, and one of its events hides
      tables or names one that matches, or nothing is asked for. */
  lemma AllowsExactly(d: Directory, log: seq<Event>, size: nat, r: Region, f: Filter, start: int, end: int)
    requires Conservative(d, log, size) && Precise(d, log) && r in d.regions
    ensures Allows(EntryOf(r), f, start, end) <==>
              && start <= r.hi && r.lo <= end
              && ((f.database == [] && f.table == [])
                  || (exists e | e in log && Inside(e, r) :: e.hides)
                  || exists e | e in log && Inside(e, r) && e.name.Some? :: MatchesName(f, e.name.value))
    ensures Tight(r, log, ANY_TIME)
  {
    assert Sound(r, log);
    hide MatchesName;
    hide Tight;
    hide Conservative;
    if e :| e in log && Inside(e, r) && e.hides {
      assert Reflects(r, e);
    }
    if e :| e in log && Inside(e, r) && e.name.Some? && MatchesName(f, e.name.value) {
      assert Reflects(r, e);
    }
  }

  /** Capital letters of ASCII count as small ones. */
  predicate SmallLetters(needle: Bytes, s: Bytes) {
    |needle| == |s| && forall i | 0 <= i < |s| :: needle[i] == if 'A' as int <= s[i] <= 'Z' as int then s[i] + 32 else s[i]
  }

  predicate PieceAt(needle: Bytes, value: Bytes, i: nat) {
    i + |needle| <= |value| && SmallLetters(needle, value[i..i + |needle|])
  }

  /** A needle matches everything when it is empty, a whole name when it must be exact, else any piece of one. */
  lemma MatchesTextMeans(needle: Bytes, value: Bytes, exact: bool)
    ensures MatchesText(needle, value, exact) <==>
              || needle == []
              || (exact && SmallLetters(needle, value))
              || (!exact && exists i :: PieceAt(needle, value, i))
  {
    if needle == Lower(value) {
      assert SmallLetters(needle, value);
    }
    if SmallLetters(needle, value) {
      assert needle == Lower(value);
    }
    forall i: nat | i + |needle| <= |value|
      ensures FoundAt(needle, Lower(value), i) <==> PieceAt(needle, value, i)
    {
      var piece := Lower(value)[i..i + |needle|];
      assert forall k | 0 <= k < |needle| :: piece[k] == Lower(value)[i + k] && value[i..i + |needle|][k] == value[i + k];
      if SmallLetters(needle, value[i..i + |needle|]) {
        assert piece == needle;
      }
    }
    if i: nat :| PieceAt(needle, value, i) {
      assert FoundAt(needle, Lower(value), i);
    }
  }

  lemma {:induction false} TilesCover(regions: seq<Region>, from: nat, to: nat, x: nat)
    requires Tiles(regions, from, to) && from <= x < to
    ensures exists r | r in regions :: r.start <= x < r.end
  {
    var n := |regions| - 1;
    if x < regions[n].start {
      TilesCover(regions[..n], from, regions[n].start, x);
      var r :| r in regions[..n] && r.start <= x < r.end;
      assert r in regions;
    } else {
      assert regions[n] in regions;
    }
  }

  /** Every event that names a table or may hide one lies in a region. */
  lemma NothingThatSpeaksIsOutside(d: Directory, log: seq<Event>, size: nat, e: Event)
    requires Conservative(d, log, size) && e in log && e.offset < size && !Blank(e)
    ensures exists r | r in d.regions :: Inside(e, r)
  {
    TilesCover(d.regions, d.prefixEnd, size, e.offset);
    var r :| r in d.regions && r.start <= e.offset < r.end;
    assert Inside(e, r);
  }

  // ---- the summary of the file ----

  function SummaryLo(regions: seq<Region>): int
    requires regions != []
  {
    if |regions| == 1 then regions[0].lo
    else var m := SummaryLo(regions[1..]); if regions[0].lo < m then regions[0].lo else m
  }

  function SummaryHi(regions: seq<Region>): int
    requires regions != []
  {
    if |regions| == 1 then regions[0].hi
    else var m := SummaryHi(regions[1..]); if regions[0].hi > m then regions[0].hi else m
  }

  function Summary(d: Directory): Entry
    requires d.regions != []
  {
    Entry(SummaryLo(d.regions), SummaryHi(d.regions), d.tables, exists r | r in d.regions :: r.unknown)
  }

  lemma {:induction false} SummaryBounds(regions: seq<Region>)
    requires regions != []
    ensures forall r | r in regions :: SummaryLo(regions) <= r.lo && r.hi <= SummaryHi(regions)
  {
    if |regions| > 1 {
      SummaryBounds(regions[1..]);
      assert forall r :: r in regions <==> r == regions[0] || r in regions[1..];
    }
  }

  /** A file is skipped by its summary only if each of its regions would be. */
  lemma SummaryAllowsWhatRegionsAllow(d: Directory, log: seq<Event>, size: nat, r: Region, f: Filter, start: int, end: int)
    requires Conservative(d, log, size) && r in d.regions && Allows(EntryOf(r), f, start, end)
    ensures Allows(Summary(d), f, start, end)
  {
    SummaryBounds(d.regions);
  }

  /** `opaque_directory`: one region that every query with a sensible window reads. */
  function Opaque(size: nat): Directory { Directory(4, [Whole(size, {})], {}) }

  lemma OpaqueAllowsEverything(size: nat, f: Filter, start: int, end: int)
    requires start <= MAX_TIME && end >= 0
    ensures Allows(EntryOf(Opaque(size).regions[0]), f, start, end) && Allows(Summary(Opaque(size)), f, start, end)
  {
    assert Opaque(size).regions[0] in Opaque(size).regions;
  }
}
