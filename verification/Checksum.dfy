/** CRC-64 of section 6 of the .xz file format specification (ECMA-182 polynomial), as app/checksum.py computes it:
    a 256-entry table, one table look-up per byte, and a file read in chunks. */
module Checksum {

  const MASK: bv64 := 0xFFFF_FFFF_FFFF_FFFF
  const POLY_REVERSED: bv64 := 0xC96C_5795_D787_0F42

  type Bytes = seq<bv8>

  // ---- the definition: a shift register that consumes one message bit at a time ----

  function Xor(a: bv64, b: bv64): bv64 { a ^ b }

  function Half(x: bv64): bv64 { x >> 1 }

  function Low(x: bv64): bv64 { x & 1 }

  function Feedback(carry: bool): bv64 { if carry then POLY_REVERSED else 0 }

  /** One clock of the reflected shift register. */
  function Clock(crc: bv64): bv64 { (crc >> 1) ^ Feedback(crc & 1 == 1) }

  function Iterate<T>(f: T -> T, x: T, n: nat): T
    decreases n
  {
    if n == 0 then x else Iterate(f, f(x), n - 1)
  }

  function Clocks(crc: bv64, n: nat): bv64 { Iterate(Clock, crc, n) }

  /** The register after the low `n` bits of `bits` went in, least significant first, one before each clock. */
  function ShiftIn(state: bv64, bits: bv64, n: nat): bv64
    decreases n
  {
    if n == 0 then state else ShiftIn(Clock(Xor(state, Low(bits))), Half(bits), n - 1)
  }

  function Register(state: bv64, data: Bytes): bv64
    decreases |data|
  {
    if data == [] then state else Register(ShiftIn(state, data[0] as bv64, 8), data[1..])
  }

  /** The checksum: register preset to all ones, result complemented; `crc` continues an earlier checksum. */
  function Crc(data: Bytes, crc: bv64): bv64 {
    Xor(Register(Xor(crc, MASK), data), MASK)
  }

  // ---- one clock is linear and loses nothing ----

  lemma ClockEven(x: bv64)
    requires x & 1 == 0
    ensures Clock(x) == x >> 1
  {
    assert (x >> 1) ^ 0 == x >> 1;
  }

  lemma ClockOdd(x: bv64)
    requires x & 1 == 1
    ensures Clock(x) == (x >> 1) ^ POLY_REVERSED
  {
  }

  lemma LowBits(a: bv64, b: bv64)
    ensures (a ^ b) & 1 == (a & 1) ^ (b & 1)
    ensures a & 1 == 0 || a & 1 == 1
  {
  }

  lemma ShiftXor(a: bv64, b: bv64, p: bv64)
    ensures (a ^ b) >> 1 == (a >> 1) ^ (b >> 1)
    ensures ((a >> 1) ^ p) ^ (b >> 1) == ((a >> 1) ^ (b >> 1)) ^ p
    ensures (a >> 1) ^ ((b >> 1) ^ p) == ((a >> 1) ^ (b >> 1)) ^ p
    ensures ((a >> 1) ^ p) ^ ((b >> 1) ^ p) == (a >> 1) ^ (b >> 1)
  {
  }

  lemma ClockOddOdd(a: bv64, b: bv64)
    requires a & 1 == 1 && b & 1 == 1
    ensures Clock(a ^ b) == Clock(a) ^ Clock(b)
  {
    LowBits(a, b);
    ClockOdd(a);
    ClockOdd(b);
    ClockEven(a ^ b);
    ShiftXor(a, b, POLY_REVERSED);
  }

  lemma ClockOddEven(a: bv64, b: bv64)
    requires a & 1 == 1 && b & 1 == 0
    ensures Clock(a ^ b) == Clock(a) ^ Clock(b)
    ensures Clock(b ^ a) == Clock(b) ^ Clock(a)
  {
    LowBits(a, b);
    ClockOdd(a);
    ClockEven(b);
    ClockOdd(a ^ b);
    ShiftXor(a, b, POLY_REVERSED);
  }

  lemma ClockEvenEven(a: bv64, b: bv64)
    requires a & 1 == 0 && b & 1 == 0
    ensures Clock(a ^ b) == Clock(a) ^ Clock(b)
  {
    LowBits(a, b);
    ClockEven(a);
    ClockEven(b);
    ClockEven(a ^ b);
    ShiftXor(a, b, POLY_REVERSED);
  }

  lemma ClockLinear(a: bv64, b: bv64)
    ensures Clock(Xor(a, b)) == Xor(Clock(a), Clock(b))
  {
    LowBits(a, b);
    LowBits(b, a);
    if a & 1 == 1 {
      if b & 1 == 1 { ClockOddOdd(a, b); } else { ClockOddEven(a, b); }
    } else {
      if b & 1 == 1 { ClockOddEven(b, a); } else { ClockEvenEven(a, b); }
    }
  }

  /** The top bit of the polynomial tells the two preimages of a register apart. */
  lemma ClockInjective(a: bv64, b: bv64)
    requires Clock(a) == Clock(b)
    ensures a == b
  {
  }

  // ---- any number of clocks ----

  lemma {:induction false} IterateLinear<T(!new)>(f: T -> T, plus: (T, T) -> T, a: T, b: T, n: nat)
    requires forall x, y :: f(plus(x, y)) == plus(f(x), f(y))
    ensures Iterate(f, plus(a, b), n) == plus(Iterate(f, a, n), Iterate(f, b, n))
    decreases n
  {
    if n > 0 {
      assert f(plus(a, b)) == plus(f(a), f(b));
      IterateLinear(f, plus, f(a), f(b), n - 1);
    }
  }

  lemma {:induction false} IterateInjective<T(!new)>(f: T -> T, a: T, b: T, n: nat)
    requires forall x, y :: f(x) == f(y) ==> x == y
    requires Iterate(f, a, n) == Iterate(f, b, n)
    ensures a == b
    decreases n
  {
    if n > 0 {
      IterateInjective(f, f(a), f(b), n - 1);
    }
  }

  lemma {:induction false} IterateAdd<T>(f: T -> T, x: T, m: nat, n: nat)
    ensures Iterate(f, Iterate(f, x, m), n) == Iterate(f, x, m + n)
    decreases m
  {
    if m > 0 {
      IterateAdd(f, f(x), m - 1, n);
    }
  }

  lemma ClocksLinear(a: bv64, b: bv64, n: nat)
    ensures Clocks(Xor(a, b), n) == Xor(Clocks(a, n), Clocks(b, n))
  {
    forall x: bv64, y: bv64 ensures Clock(Xor(x, y)) == Xor(Clock(x), Clock(y)) {
      ClockLinear(x, y);
    }
    IterateLinear(Clock, Xor, a, b, n);
  }

  lemma ClocksInjective(a: bv64, b: bv64, n: nat)
    requires Clocks(a, n) == Clocks(b, n)
    ensures a == b
  {
    forall x: bv64, y: bv64 | Clock(x) == Clock(y) ensures x == y {
      ClockInjective(x, y);
    }
    IterateInjective(Clock, a, b, n);
  }

  // ---- all message bits of a word may be added before the first clock ----

  /** `bits` has no one beyond its low `n` bits. */
  predicate Fits(bits: bv64, n: nat)
    decreases n
  {
    if n == 0 then bits == 0 else Fits(Half(bits), n - 1)
  }

  lemma SplitLowBit(x: bv64, b: bv64)
    ensures Xor(x, b) == Xor(Xor(x, b & 1), b & 0xFFFF_FFFF_FFFF_FFFE)
    ensures (b & 0xFFFF_FFFF_FFFF_FFFE) & 1 == 0
    ensures (b & 0xFFFF_FFFF_FFFF_FFFE) >> 1 == b >> 1
  {
  }

  lemma ClockWithBits(x: bv64, b: bv64)
    ensures Clock(Xor(x, b)) == Xor(Clock(Xor(x, Low(b))), Half(b))
  {
    SplitLowBit(x, b);
    ClockLinear(Xor(x, b & 1), b & 0xFFFF_FFFF_FFFF_FFFE);
    ClockEven(b & 0xFFFF_FFFF_FFFF_FFFE);
  }

  lemma XorZero(x: bv64)
    ensures Xor(x, 0) == x
    ensures Xor(0, x) == x
  {
  }

  lemma {:induction false} ShiftInIsClocks(state: bv64, bits: bv64, n: nat)
    requires Fits(bits, n)
    ensures ShiftIn(state, bits, n) == Clocks(Xor(state, bits), n)
    decreases n
  {
    if n > 0 {
      ClockWithBits(state, bits);
      ShiftInIsClocks(Clock(Xor(state, Low(bits))), Half(bits), n - 1);
    } else {
      XorZero(state);
    }
  }

  function Half2(x: bv64): bv64 { Half(Half(x)) }

  function Half4(x: bv64): bv64 { Half2(Half2(x)) }

  lemma Half8(x: bv64)
    ensures Half4(Half4(x)) == x >> 8
  {
  }

  lemma FitsFour(bits: bv64, n: nat)
    requires Fits(Half4(bits), n)
    ensures Fits(bits, n + 4)
  {
    assert Fits(Half2(bits), n + 2);
  }

  lemma ByteFits(byte: bv8)
    ensures Fits(byte as bv64, 8)
  {
    var b := byte as bv64;
    Half8(b);
    FitsFour(Half4(b), 0);
    FitsFour(b, 4);
  }

  // ---- the table-driven form of the source ----

  /** A word whose low `n` bits are zero is only shifted by `n` clocks. */
  predicate Blank(x: bv64, n: nat)
    decreases n
  {
    n == 0 || (Low(x) == 0 && Blank(Half(x), n - 1))
  }

  function ShiftRight(x: bv64, n: nat): bv64
    decreases n
  {
    if n == 0 then x else ShiftRight(Half(x), n - 1)
  }

  lemma {:induction false} ClocksBlank(x: bv64, n: nat)
    requires Blank(x, n)
    ensures Clocks(x, n) == ShiftRight(x, n)
    decreases n
  {
    if n > 0 {
      ClockEven(x);
      ClocksBlank(Half(x), n - 1);
    }
  }

  lemma LowNibble(x: bv64)
    requires x & 0xF == 0
    ensures Low(x) == 0 && Low(Half(x)) == 0 && Low(Half2(x)) == 0 && Low(Half(Half2(x))) == 0
  {
  }

  lemma BlankFour(x: bv64, n: nat)
    requires x & 0xF == 0 && Blank(Half4(x), n)
    ensures Blank(x, n + 4) && ShiftRight(x, n + 4) == ShiftRight(Half4(x), n)
  {
    LowNibble(x);
    assert Blank(Half2(x), n + 2);
    assert ShiftRight(x, n + 4) == ShiftRight(Half(x), n + 3) == ShiftRight(Half2(x), n + 2);
    assert ShiftRight(Half2(x), n + 2) == ShiftRight(Half(Half2(x)), n + 1) == ShiftRight(Half4(x), n);
  }

  lemma SecondNibble(x: bv64)
    requires x & 0xFF == 0
    ensures x & 0xF == 0 && Half4(x) & 0xF == 0
  {
  }

  lemma BlankByte(x: bv64)
    requires x & 0xFF == 0
    ensures Blank(x, 8) && ShiftRight(x, 8) == x >> 8
  {
    SecondNibble(x);
    BlankFour(Half4(x), 0);
    BlankFour(x, 4);
    Half8(x);
  }

  function LowByte(x: bv64): bv64 { x & 0xFF }

  function HighBytes(x: bv64): bv64 { x & 0xFFFF_FFFF_FFFF_FF00 }

  lemma SplitLowByte(x: bv64)
    ensures x == Xor(LowByte(x), HighBytes(x))
    ensures HighBytes(x) & 0xFF == 0 && HighBytes(x) >> 8 == x >> 8
  {
  }

  lemma HighClocks(x: bv64)
    ensures Clocks(HighBytes(x), 8) == x >> 8
  {
    SplitLowByte(x);
    BlankByte(HighBytes(x));
    ClocksBlank(HighBytes(x), 8);
  }

  /** Eight clocks of `x` split into the table entry of its low byte and a plain shift of the rest. */
  lemma EightClocks(x: bv64)
    ensures Clocks(x, 8) == Xor(Clocks(LowByte(x), 8), x >> 8)
  {
    var low, high := LowByte(x), HighBytes(x);
    assert x == Xor(low, high) by { SplitLowByte(x); }
    ClocksLinear(low, high, 8);
    HighClocks(x);
  }

  function Index(v: bv8): nat { v as int }

  ghost predicate IsTable(table: seq<bv64>) {
    && |table| == 256
    && forall v: bv8 :: table[Index(v)] == Clocks(v as bv64, 8)
  }

  lemma IndexInverse(v: bv8, i: nat)
    requires Index(v) == i
    ensures i < 256 && i as bv8 == v
  {
  }

  method TableEntry(value: bv64) returns (entry: bv64)
    ensures entry == Clocks(value, 8)
  {
    hide Clock;
    var crc := value;
    var i := 0;
    while i < 8
      invariant 0 <= i <= 8 && Clocks(crc, 8 - i) == Clocks(value, 8)
    {
      crc := Clock(crc);
      i := i + 1;
    }
    MaskKeeps(crc);
    entry := crc & MASK;
  }

  method BuildTable() returns (table: seq<bv64>)
    ensures IsTable(table)
  {
    hide Clocks;
    table := [];
    var value := 0;
    while value < 256
      invariant 0 <= value <= 256 && |table| == value
      invariant forall v: bv8 :: Index(v) < value ==> table[Index(v)] == Clocks(v as bv64, 8)
    {
      var byte := value as bv8;
      var entry := TableEntry(byte as bv64);
      forall v: bv8 | Index(v) == value ensures v == byte {
        IndexInverse(v, value);
      }
      table := table + [entry];
      value := value + 1;
    }
    forall v: bv8 ensures Index(v) < 256 {
      IndexInverse(v, Index(v));
    }
  }

  lemma MaskKeeps(x: bv64)
    ensures x & MASK == x
    ensures Xor(Xor(x, MASK), MASK) == x
  {
  }

  lemma ByteLeavesHigh(state: bv64, byte: bv8)
    ensures Xor(state, byte as bv64) >> 8 == state >> 8
  {
  }

  function LowByteOf(x: bv64): (byte: bv8)
    ensures byte as bv64 == LowByte(x)
  {
    LowByte(x) as bv8
  }

  /** The source's table look-up shifts in one message byte. */
  function Lookup(table: seq<bv64>, state: bv64, byte: bv8): (next: bv64)
    requires IsTable(table)
    ensures next == ShiftIn(state, byte as bv64, 8)
  {
    var x := Xor(state, byte as bv64);
    ByteLeavesHigh(state, byte);
    ByteFits(byte);
    ShiftInIsClocks(state, byte as bv64, 8);
    EightClocks(x);
    Xor(table[Index(LowByteOf(x))], state >> 8)
  }

  method Crc64XzUpdate(table: seq<bv64>, data: Bytes, crc: bv64) returns (result: bv64)
    requires IsTable(table)
    ensures result == Crc(data, crc)
  {
    var state := Xor(crc, MASK);
    var i := 0;
    while i < |data|
      invariant 0 <= i <= |data|
      invariant Register(state, data[i..]) == Register(Xor(crc, MASK), data)
    {
      assert data[i..][1..] == data[i + 1..];
      state := Lookup(table, state, data[i]);
      i := i + 1;
    }
    result := Xor(state, MASK);
  }

  // ---- chunks ----

  lemma {:induction false} RegisterConcat(state: bv64, a: Bytes, b: Bytes)
    ensures Register(state, a + b) == Register(Register(state, a), b)
    decreases |a|
  {
    if a == [] {
      assert a + b == b;
    } else {
      assert (a + b)[1..] == a[1..] + b;
      RegisterConcat(ShiftIn(state, a[0] as bv64, 8), a[1..], b);
    }
  }

  /** A checksum continued over the next chunk is the checksum of both chunks. */
  lemma CrcConcat(a: Bytes, b: Bytes, crc: bv64)
    ensures Crc(a + b, crc) == Crc(b, Crc(a, crc))
  {
    var start := Xor(crc, MASK);
    MaskKeeps(Register(start, a));
    RegisterConcat(start, a, b);
  }

  /** `handle.read(size)` at offset `pos`: everything left for a negative size. */
  function Read(file: Bytes, pos: nat, size: int): (chunk: Bytes)
    requires pos <= |file|
    ensures pos + |chunk| <= |file| && chunk == file[pos..pos + |chunk|]
    ensures chunk == [] <==> pos == |file| || size == 0
  {
    if size < 0 || pos + size > |file| then file[pos..] else file[pos..pos + size]
  }

  lemma ReadStep(file: Bytes, pos: nat, size: int, crc: bv64)
    requires pos <= |file| && crc == Crc(file[..pos], 0)
    ensures Crc(Read(file, pos, size), crc) == Crc(file[..pos + |Read(file, pos, size)|], 0)
  {
    hide Crc;
    var chunk := Read(file, pos, size);
    CrcConcat(file[..pos], chunk, 0);
    assert file[..pos] + chunk == file[..pos + |chunk|];
  }

  lemma CrcOfNothing()
    ensures Crc([], 0) == 0
  {
    MaskKeeps(0);
  }

  /** Every non-zero chunk size gives the checksum of the whole file; size 0 reads nothing. */
  method Crc64File(table: seq<bv64>, file: Bytes, chunkSize: int) returns (crc: bv64)
    requires IsTable(table)
    ensures chunkSize != 0 ==> crc == Crc(file, 0)
    ensures chunkSize == 0 ==> crc == 0
  {
    hide Crc;
    crc := 0;
    CrcOfNothing();
    var pos := 0;
    var chunk := Read(file, pos, chunkSize);
    while chunk != []
      invariant 0 <= pos <= |file| && chunk == Read(file, pos, chunkSize)
      invariant crc == Crc(file[..pos], 0)
      invariant chunkSize == 0 ==> crc == 0
      decreases |file| - pos
    {
      ReadStep(file, pos, chunkSize, crc);
      crc := Crc64XzUpdate(table, chunk, crc);
      pos := pos + |chunk|;
      chunk := Read(file, pos, chunkSize);
    }
    assert file[..|file|] == file;
  }

  // ---- burst errors ----

  function Up(x: bv64): bv64 { x << 8 }

  function Down(x: bv64): bv64 { x >> 8 }

  /** Up to eight bytes as one word, first byte lowest. */
  function Pack(window: Bytes): bv64
    decreases |window|
  {
    if window == [] then 0 else Xor(window[0] as bv64, Up(Pack(window[1..])))
  }

  /** `word` is zero beyond its `n` lowest bytes. */
  predicate InBytes(word: bv64, n: nat)
    decreases n
  {
    if n == 0 then word == 0 else InBytes(Down(word), n - 1)
  }

  function Down2(x: bv64): bv64 { Down(Down(x)) }

  lemma SevenBytes(p: bv64)
    requires InBytes(p, 7)
    ensures p <= 0x00FF_FFFF_FFFF_FFFF
  {
    assert InBytes(Down2(p), 5);
    assert InBytes(Down2(Down2(p)), 3);
    assert InBytes(Down2(Down2(Down2(p))), 1);
    assert Down(Down2(Down2(Down2(p)))) == 0;
  }

  lemma {:induction false} InBytesMonotone(p: bv64, n: nat, m: nat)
    requires InBytes(p, n) && n <= m
    ensures InBytes(p, m)
    decreases n
  {
    if n > 0 {
      InBytesMonotone(Down(p), n - 1, m - 1);
    } else if m > 0 {
      assert p >> 8 == 0;
      InBytesZero(m);
    }
  }

  lemma {:induction false} InBytesZero(m: nat)
    ensures InBytes(0, m)
    decreases m
  {
    if m > 0 {
      InBytesZero(m - 1);
    }
  }

  lemma ByteOnTop(b: bv8, p: bv64)
    requires p <= 0x00FF_FFFF_FFFF_FFFF
    ensures Down(Xor(b as bv64, Up(p))) == p
    ensures LowByte(Xor(b as bv64, Up(p))) == b as bv64
    ensures Up(p) & 0xFF == 0 && Up(p) >> 8 == p
  {
  }

  lemma BytesBound(p: bv64, n: nat)
    requires InBytes(p, n) && n <= 7
    ensures p <= 0x00FF_FFFF_FFFF_FFFF
  {
    InBytesMonotone(p, n, 7);
    SevenBytes(p);
  }

  lemma {:induction false} PackInBytes(window: Bytes)
    requires |window| <= 8
    ensures InBytes(Pack(window), |window|)
    decreases |window|
  {
    hide Xor;
    hide Up;
    hide Down;
    hide LowByte;
    if window != [] {
      var p := Pack(window[1..]);
      PackInBytes(window[1..]);
      BytesBound(p, |window| - 1);
      ByteOnTop(window[0], p);
    }
  }

  lemma PackBound(window: Bytes)
    requires |window| <= 7
    ensures Pack(window) <= 0x00FF_FFFF_FFFF_FFFF
  {
    PackInBytes(window);
    BytesBound(Pack(window), |window|);
  }

  lemma XorCancel(s: bv64, a: bv64, b: bv64)
    requires Xor(s, a) == Xor(s, b) || Xor(a, s) == Xor(b, s)
    ensures a == b
  {
    assert (s ^ a) ^ s == a && (s ^ b) ^ s == b;
    assert (a ^ s) ^ s == a && (b ^ s) ^ s == b;
  }

  lemma ByteApart(b: bv8, c: bv8)
    requires b as bv64 == c as bv64
    ensures b == c
  {
  }

  lemma ByteOnTopApart(b: bv8, c: bv8, p: bv64, q: bv64)
    requires p <= 0x00FF_FFFF_FFFF_FFFF && q <= 0x00FF_FFFF_FFFF_FFFF
    requires Xor(b as bv64, Up(p)) == Xor(c as bv64, Up(q))
    ensures b == c && p == q
  {
    hide Xor;
    hide Up;
    hide Down;
    hide LowByte;
    ByteOnTop(b, p);
    ByteOnTop(c, q);
    ByteApart(b, c);
  }

  lemma {:induction false} PackInjective(v: Bytes, w: Bytes)
    requires |v| == |w| <= 8 && Pack(v) == Pack(w)
    ensures v == w
    decreases |v|
  {
    hide Xor;
    hide Up;
    if v != [] {
      PackBound(v[1..]);
      PackBound(w[1..]);
      ByteOnTopApart(v[0], w[0], Pack(v[1..]), Pack(w[1..]));
      PackInjective(v[1..], w[1..]);
    }
  }

  lemma XorAssocBits(a: bv64, b: bv64, c: bv64)
    ensures (a ^ b) ^ c == a ^ (b ^ c)
  {
  }

  lemma XorAssoc(a: bv64, b: bv64, c: bv64)
    ensures Xor(Xor(a, b), c) == Xor(a, Xor(b, c))
  {
    XorAssocBits(a, b, c);
    assert Xor(a, b) == a ^ b && Xor(b, c) == b ^ c;
  }

  /** A word added after eight clocks could have been added eight bits higher before them. */
  lemma AddedEarlier(x: bv64, p: bv64)
    requires p <= 0x00FF_FFFF_FFFF_FFFF
    ensures Xor(Clocks(x, 8), p) == Clocks(Xor(x, Up(p)), 8)
  {
    hide Xor;
    hide Up;
    hide Clocks;
    ByteOnTop(0, p);
    BlankByte(Up(p));
    ClocksBlank(Up(p), 8);
    ClocksLinear(x, Up(p), 8);
  }

  lemma ClocksAdd(x: bv64, m: nat, n: nat)
    ensures Clocks(Clocks(x, m), n) == Clocks(x, m + n)
    ensures Clocks(x, 0) == x
  {
    IterateAdd(Clock, x, m, n);
  }

  /** A window of up to eight bytes acts on the register as one word added before all its clocks. */
  lemma {:induction false} RegisterOfWindow(state: bv64, window: Bytes)
    requires |window| <= 8
    ensures Register(state, window) == Clocks(Xor(state, Pack(window)), 8 * |window|)
    decreases |window|
  {
    hide Xor;
    hide Up;
    hide Clocks;
    hide ShiftIn;
    if window == [] {
      XorZero(state);
      ClocksAdd(state, 0, 0);
    } else {
      var b, rest := window[0] as bv64, window[1..];
      PackBound(rest);
      ByteFits(window[0]);
      ShiftInIsClocks(state, b, 8);
      RegisterOfWindow(Clocks(Xor(state, b), 8), rest);
      AddedEarlier(Xor(state, b), Pack(rest));
      XorAssoc(state, b, Up(Pack(rest)));
      ClocksAdd(Xor(state, Pack(window)), 8, 8 * |rest|);
    }
  }

  lemma {:induction false} RegisterInjective(s: bv64, t: bv64, data: Bytes)
    requires Register(s, data) == Register(t, data)
    ensures s == t
    decreases |data|
  {
    hide Xor;
    hide ShiftIn;
    hide Clocks;
    if data != [] {
      var b := data[0] as bv64;
      RegisterInjective(ShiftIn(s, b, 8), ShiftIn(t, b, 8), data[1..]);
      ByteFits(data[0]);
      ShiftInIsClocks(s, b, 8);
      ShiftInIsClocks(t, b, 8);
      ClocksInjective(Xor(s, b), Xor(t, b), 8);
      XorCancel(b, s, t);
    }
  }

  /** Two messages that differ only inside one window of at most eight bytes never share a checksum. */
  lemma BurstIsDetected(before: Bytes, v: Bytes, w: Bytes, after: Bytes, crc: bv64)
    requires |v| == |w| <= 8 && v != w
    ensures Crc(before + v + after, crc) != Crc(before + w + after, crc)
  {
    if Crc(before + v + after, crc) == Crc(before + w + after, crc) {
      hide Xor;
      hide Register;
      var start := Xor(crc, MASK);
      var state := Register(start, before);
      XorCancel(MASK, Register(start, before + v + after), Register(start, before + w + after));
      RegisterConcat(start, before + v, after);
      RegisterConcat(start, before + w, after);
      RegisterConcat(start, before, v);
      RegisterConcat(start, before, w);
      RegisterInjective(Register(state, v), Register(state, w), after);
      RegisterOfWindow(state, v);
      RegisterOfWindow(state, w);
      ClocksInjective(Xor(state, Pack(v)), Xor(state, Pack(w)), 8 * |v|);
      XorCancel(state, Pack(v), Pack(w));
      PackInjective(v, w);
    }
  }

  // ---- the standard's check value ----

  lemma InNibbles(state: bv64, bits: bv64)
    ensures ShiftIn(state, bits, 8) == ShiftIn(ShiftIn(state, bits, 4), Half4(bits), 4)
  {
    FourMore(state, bits, 4);
  }

  lemma FourMore(state: bv64, bits: bv64, n: nat)
    ensures ShiftIn(state, bits, 4 + n) == ShiftIn(ShiftIn(state, bits, 4), Half4(bits), n)
  {
    hide Clock;
    OneMore(state, bits, 3 + n);
    var x := Clock(Xor(state, Low(bits)));
    OneMore(x, Half(bits), 2 + n);
    var y := Clock(Xor(x, Low(Half(bits))));
    OneMore(y, Half2(bits), 1 + n);
    var z := Clock(Xor(y, Low(Half2(bits))));
    OneMore(z, Half(Half2(bits)), n);
    OneMore(state, bits, 3);
    OneMore(x, Half(bits), 2);
    OneMore(y, Half2(bits), 1);
    OneMore(z, Half(Half2(bits)), 0);
    NoMore(Clock(Xor(z, Low(Half(Half2(bits))))), Half4(bits));
  }

  lemma OneMore(state: bv64, bits: bv64, n: nat)
    ensures ShiftIn(state, bits, n + 1) == ShiftIn(Clock(Xor(state, Low(bits))), Half(bits), n)
  {
  }

  lemma NoMore(state: bv64, bits: bv64)
    ensures ShiftIn(state, bits, 0) == state
  {
  }

  /** Bytes one to nine of the text 123456789: the register before and after, nibble by nibble. */
  lemma CheckByte1()
    ensures ShiftIn(0xFFFF_FFFF_FFFF_FFFF, 0x31, 8) == 0xD5D0_F17A_6B6A_3512
  {
    assert ShiftIn(0xFFFF_FFFF_FFFF_FFFF, 0x31, 4) == 0x5912_C1D0_61DD_BB8E;
    assert ShiftIn(0x5912_C1D0_61DD_BB8E, 0x3, 4) == 0xD5D0_F17A_6B6A_3512;
    hide ShiftIn;
    InNibbles(0xFFFF_FFFF_FFFF_FFFF, 0x31);
  }

  lemma CheckByte2()
    ensures ShiftIn(0xD5D0_F17A_6B6A_3512, 0x32, 8) == 0xFBE2_9281_D80D_A6A7
  {
    assert ShiftIn(0xD5D0_F17A_6B6A_3512, 0x32, 4) == 0x0D5D_0F17_A6B6_A351;
    assert ShiftIn(0x0D5D_0F17_A6B6_A351, 0x3, 4) == 0xFBE2_9281_D80D_A6A7;
    hide ShiftIn;
    InNibbles(0xD5D0_F17A_6B6A_3512, 0x32);
  }

  lemma CheckByte3()
    ensures ShiftIn(0xFBE2_9281_D80D_A6A7, 0x33, 8) == 0xCFDC_D7BB_F8E3_3A9E
  {
    assert ShiftIn(0xFBE2_9281_D80D_A6A7, 0x33, 4) == 0x6B08_02E2_F643_5DCB;
    assert ShiftIn(0x6B08_02E2_F643_5DCB, 0x3, 4) == 0xCFDC_D7BB_F8E3_3A9E;
    hide ShiftIn;
    InNibbles(0xFBE2_9281_D80D_A6A7, 0x33);
  }

  lemma CheckByte4()
    ensures ShiftIn(0xCFDC_D7BB_F8E3_3A9E, 0x34, 8) == 0x31B1_786C_9947_3CD7
  {
    assert ShiftIn(0xCFDC_D7BB_F8E3_3A9E, 0x34, 4) == 0x3EA6_D89E_CA6F_F079;
    assert ShiftIn(0x3EA6_D89E_CA6F_F079, 0x3, 4) == 0x31B1_786C_9947_3CD7;
    hide ShiftIn;
    InNibbles(0xCFDC_D7BB_F8E3_3A9E, 0x34);
  }

  lemma CheckByte5()
    ensures ShiftIn(0x31B1_786C_9947_3CD7, 0x35, 8) == 0xA258_B900_5AFB_A316
  {
    assert ShiftIn(0x31B1_786C_9947_3CD7, 0x35, 4) == 0xF82C_55F6_6BF2_BF5F;
    assert ShiftIn(0xF82C_55F6_6BF2_BF5F, 0x3, 4) == 0xA258_B900_5AFB_A316;
    hide ShiftIn;
    InNibbles(0x31B1_786C_9947_3CD7, 0x35);
  }

  lemma CheckByte6()
    ensures ShiftIn(0xA258_B900_5AFB_A316, 0x36, 8) == 0xFB95_1AC9_A23C_3731
  {
    assert ShiftIn(0xA258_B900_5AFB_A316, 0x36, 4) == 0x0A25_8B90_05AF_BA31;
    assert ShiftIn(0x0A25_8B90_05AF_BA31, 0x3, 4) == 0xFB95_1AC9_A23C_3731;
    hide ShiftIn;
    InNibbles(0xA258_B900_5AFB_A316, 0x36);
  }

  lemma CheckByte7()
    ensures ShiftIn(0xFB95_1AC9_A23C_3731, 0x37, 8) == 0x8FAF_60C9_9E6D_C25F
  {
    assert ShiftIn(0xFB95_1AC9_A23C_3731, 0x37, 4) == 0x9038_3816_D386_8840;
    assert ShiftIn(0x9038_3816_D386_8840, 0x3, 4) == 0x8FAF_60C9_9E6D_C25F;
    hide ShiftIn;
    InNibbles(0xFB95_1AC9_A23C_3731, 0x37);
  }

  lemma CheckByte8()
    ensures ShiftIn(0x8FAF_60C9_9E6D_C25F, 0x38, 8) == 0xA374_7FB7_D453_87F6
  {
    assert ShiftIn(0x8FAF_60C9_9E6D_C25F, 0x38, 4) == 0xEAE0_3E8E_8170_F15F;
    assert ShiftIn(0xEAE0_3E8E_8170_F15F, 0x3, 4) == 0xA374_7FB7_D453_87F6;
    hide ShiftIn;
    InNibbles(0x8FAF_60C9_9E6D_C25F, 0x38);
  }

  lemma CheckByte9()
    ensures ShiftIn(0xA374_7FB7_D453_87F6, 0x39, 8) == 0x66A2_3644_20E6_C605
  {
    assert ShiftIn(0xA374_7FB7_D453_87F6, 0x39, 4) == 0x2141_D8EC_B254_1A47;
    assert ShiftIn(0x2141_D8EC_B254_1A47, 0x3, 4) == 0x66A2_3644_20E6_C605;
    hide ShiftIn;
    InNibbles(0xA374_7FB7_D453_87F6, 0x39);
  }

  /** The checksum of the ASCII text 123456789, by which implementations of CRC-64/XZ are told from others. */
  lemma CheckValue()
    ensures Crc([0x31, 0x32, 0x33, 0x34, 0x35, 0x36, 0x37, 0x38, 0x39], 0) == 0x995D_C9BB_DF19_39FA
  {
    hide ShiftIn;
    var text: Bytes := [0x31, 0x32, 0x33, 0x34, 0x35, 0x36, 0x37, 0x38, 0x39];
    hide Register;
    CheckEnds(text);
    CheckByte1();
    NextByte(0xFFFF_FFFF_FFFF_FFFF, text, 0);
    CheckByte2();
    NextByte(0xD5D0_F17A_6B6A_3512, text, 1);
    CheckByte3();
    NextByte(0xFBE2_9281_D80D_A6A7, text, 2);
    CheckByte4();
    NextByte(0xCFDC_D7BB_F8E3_3A9E, text, 3);
    CheckByte5();
    NextByte(0x31B1_786C_9947_3CD7, text, 4);
    CheckByte6();
    NextByte(0xA258_B900_5AFB_A316, text, 5);
    CheckByte7();
    NextByte(0xFB95_1AC9_A23C_3731, text, 6);
    CheckByte8();
    NextByte(0x8FAF_60C9_9E6D_C25F, text, 7);
    CheckByte9();
    NextByte(0xA374_7FB7_D453_87F6, text, 8);
  }

  lemma NextByte(state: bv64, text: Bytes, n: nat)
    requires n < |text|
    ensures Register(state, text[n..]) == Register(ShiftIn(state, text[n] as bv64, 8), text[n + 1..])
  {
    assert text[n..][1..] == text[n + 1..];
  }

  lemma CheckEnds(text: Bytes)
    requires |text| == 9
    ensures text[0..] == text && forall state :: Register(state, text[9..]) == state
    ensures Xor(0, MASK) == 0xFFFF_FFFF_FFFF_FFFF && Xor(0x66A2_3644_20E6_C605, MASK) == 0x995D_C9BB_DF19_39FA
  {
  }
}
