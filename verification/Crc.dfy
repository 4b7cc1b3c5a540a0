/**
  The checksum of a bundle entry: a table-driven loop, against CRC-32 as section 4.4.7 of
  the PKWARE APPNOTE defines it — a shift register fed one message bit at a time, least
  significant bit first, with polynomial 0xEDB88320, preset and final complement of all ones.
*/
module Crc {

  const POLYNOMIAL: bv32 := 0xedb88320
  const ONES: bv32 := 0xffffffff

  type Byte = b: bv32 | b <= 0xff

  function Xor(a: bv32, b: bv32): bv32 {
    a ^ b
  }

  // ---- the definition ----

  function FeedBit(c: bv32, bit: bool): bv32 {
    if (c & 1 == 1) != bit then POLYNOMIAL ^ (c >> 1) else c >> 1
  }

  /** b with its k lowest bits gone. */
  function Down(b: bv32, k: nat): bv32 {
    if k == 0 then b else Down(b, k - 1) >> 1
  }

  /** The register after the k lowest bits of one byte. */
  function FeedByte(c: bv32, b: Byte, k: nat): bv32
    requires k <= 8
  {
    if k == 0 then c else FeedBit(FeedByte(c, b, k - 1), Down(b, k - 1) & 1 == 1)
  }

  /** The register after the whole message, before the final complement. */
  function Register(buf: seq<Byte>): bv32 {
    if buf == [] then ONES else Feed(Register(buf[..|buf| - 1]), buf[|buf| - 1])
  }

  /** The register after one whole byte. */
  function Feed(c: bv32, b: Byte): bv32 {
    FeedByte(c, b, 8)
  }

  function Reference(buf: seq<Byte>): bv32 {
    Xor(Register(buf), ONES)
  }

  // ---- the table ----

  function Shift(c: bv32): bv32 {
    if c & 1 == 1 then POLYNOMIAL ^ (c >> 1) else c >> 1
  }

  function Shifts(c: bv32, k: nat): bv32 {
    if k == 0 then c else Shift(Shifts(c, k - 1))
  }

  /** What the table holds at c. */
  function Shift8(c: bv32): bv32 {
    Shifts(c, 8)
  }

  ghost predicate IsTable(table: array<bv32>)
    reads table
  {
    table.Length == 256 && forall i :: 0 <= i < 256 ==> table[i] == Shift8(i as bv32)
  }

  method MakeTable() returns (table: array<bv32>)
    ensures fresh(table) && IsTable(table)
  {
    table := new bv32[256];
    for i := 0 to 256
      invariant forall j :: 0 <= j < i ==> table[j] == Shift8(j as bv32)
    {
      var c := i as bv32;
      for k := 0 to 8
        invariant c == Shifts(i as bv32, k)
      {
        c := if c & 1 == 1 then POLYNOMIAL ^ (c >> 1) else c >> 1;
      }
      table[i] := c;
    }
  }

  // ---- one byte at a time ----

  lemma XorShift(a: bv32, b: bv32)
    ensures (a ^ b) >> 1 == (a >> 1) ^ (b >> 1)
  {}

  lemma XorLow(a: bv32, b: bv32)
    ensures (a ^ b) & 1 == 1 <==> (a & 1 == 1) != (b & 1 == 1)
  {}

  lemma XorCancel(p: bv32, x: bv32, y: bv32)
    ensures (p ^ x) ^ (p ^ y) == x ^ y
    ensures p ^ (x ^ y) == (p ^ x) ^ y == x ^ (p ^ y)
  {}

  lemma {:induction false} ShiftLinear(a: bv32, b: bv32)
    ensures Shift(Xor(a, b)) == Xor(Shift(a), Shift(b))
  {
    ShiftXor(a, b);
  }

  lemma {:induction false} ShiftXor(a: bv32, b: bv32)
    ensures Shift(a ^ b) == Shift(a) ^ Shift(b)
  {
    XorShift(a, b);
    XorLow(a, b);
    XorCancel(POLYNOMIAL, a >> 1, b >> 1);
  }

  /** Shifting is linear, which is why one table entry can stand for eight steps. */
  lemma {:induction false} ShiftsLinear(a: bv32, b: bv32, k: nat)
    ensures Shifts(Xor(a, b), k) == Xor(Shifts(a, k), Shifts(b, k))
  {
    if k > 0 {
      ShiftsLinear(a, b, k - 1);
      ShiftLinear(Shifts(a, k - 1), Shifts(b, k - 1));
    }
  }

  function Low(c: bv32): bv32 {
    c & 0xff
  }

  function Drop8(c: bv32): bv32 {
    c >> 8
  }

  function High(c: bv32): bv32 {
    c & 0xffffff00
  }

  lemma SplitLow(c: bv32)
    ensures c == Xor(Low(c), High(c))
  {}

  lemma ClearBits(c: bv32)
    ensures var h := High(c);
            && h & 1 == 0 && (h >> 1) & 1 == 0 && (h >> 1 >> 1) & 1 == 0 && (h >> 1 >> 1 >> 1) & 1 == 0
            && (h >> 1 >> 1 >> 1 >> 1) & 1 == 0 && (h >> 1 >> 1 >> 1 >> 1 >> 1) & 1 == 0
            && (h >> 1 >> 1 >> 1 >> 1 >> 1 >> 1) & 1 == 0 && (h >> 1 >> 1 >> 1 >> 1 >> 1 >> 1 >> 1) & 1 == 0
            && h >> 1 >> 1 >> 1 >> 1 >> 1 >> 1 >> 1 >> 1 == c >> 8
  {}

  lemma ClearShift(c: bv32)
    requires c & 1 == 0
    ensures Shift(c) == c >> 1
  {}

  /** The upper three bytes only move down. */
  lemma {:induction false} HighMovesDown(c: bv32)
    ensures Shift8(High(c)) == Drop8(c)
  {
    ClearBits(c);
    var h0 := High(c);
    var h1 := h0 >> 1;
    var h2 := h1 >> 1;
    var h3 := h2 >> 1;
    var h4 := h3 >> 1;
    var h5 := h4 >> 1;
    var h6 := h5 >> 1;
    var h7 := h6 >> 1;
    ClearShift(h0); ClearShift(h1); ClearShift(h2); ClearShift(h3);
    ClearShift(h4); ClearShift(h5); ClearShift(h6); ClearShift(h7);
    Unroll(h0, h1, h2, h3, h4, h5, h6, h7, h7 >> 1);
  }

  lemma {:induction false} Unroll(c0: bv32, c1: bv32, c2: bv32, c3: bv32, c4: bv32, c5: bv32, c6: bv32, c7: bv32, c8: bv32)
    requires c1 == Shift(c0) && c2 == Shift(c1) && c3 == Shift(c2) && c4 == Shift(c3)
    requires c5 == Shift(c4) && c6 == Shift(c5) && c7 == Shift(c6) && c8 == Shift(c7)
    ensures Shifts(c0, 8) == c8
  {
    hide Shift;
    assert Shifts(c0, 1) == c1;
    assert Shifts(c0, 2) == c2;
    assert Shifts(c0, 3) == c3;
    assert Shifts(c0, 4) == c4;
    assert Shifts(c0, 5) == c5;
    assert Shifts(c0, 6) == c6;
    assert Shifts(c0, 7) == c7;
  }

  lemma {:induction false} EightSteps(c: bv32)
    ensures Shift8(c) == Xor(Shift8(Low(c)), Drop8(c))
  {
    SplitLow(c);
    ShiftsLinear(Low(c), High(c), 8);
    HighMovesDown(c);
  }

  lemma {:induction false} FeedOne(s: bv32, y: bv32)
    ensures FeedBit(Xor(s, y), y & 1 == 1) == Xor(Shift(s), y >> 1)
  {
    FeedXor(s, y);
  }

  lemma {:induction false} FeedXor(s: bv32, y: bv32)
    ensures FeedBit(s ^ y, y & 1 == 1) == Shift(s) ^ (y >> 1)
  {
    XorShift(s, y);
    XorLow(s, y);
    XorCancel(POLYNOMIAL, s >> 1, y >> 1);
  }

  lemma XorTwice(c: bv32, b: bv32)
    ensures Xor(Xor(c, b), b) == c
  {}

  /** Feeding bits one by one is the same as mixing the byte in first and shifting. */
  lemma {:induction false} FeedIsShift(c: bv32, b: Byte, k: nat)
    requires k <= 8
    ensures FeedByte(c, b, k) == Xor(Shifts(Xor(c, b), k), Down(b, k))
  {
    if k == 0 {
      XorTwice(c, b);
    } else {
      FeedIsShift(c, b, k - 1);
      FeedStep(FeedByte(c, b, k - 1), Shifts(Xor(c, b), k - 1), Down(b, k - 1));
    }
  }

  lemma {:induction false} FeedStep(r: bv32, s: bv32, y: bv32)
    requires r == Xor(s, y)
    ensures FeedBit(r, y & 1 == 1) == Xor(Shift(s), y >> 1)
  {
    FeedOne(s, y);
  }

  lemma {:induction false} ByteGone(b: Byte)
    ensures Down(b, 8) == 0
  {
    ByteShiftsOut(b);
    assert Down(b, 1) == b >> 1;
    assert Down(b, 2) == b >> 1 >> 1;
    assert Down(b, 3) == b >> 1 >> 1 >> 1;
    assert Down(b, 4) == b >> 1 >> 1 >> 1 >> 1;
    assert Down(b, 5) == b >> 1 >> 1 >> 1 >> 1 >> 1;
    assert Down(b, 6) == b >> 1 >> 1 >> 1 >> 1 >> 1 >> 1;
    assert Down(b, 7) == b >> 1 >> 1 >> 1 >> 1 >> 1 >> 1 >> 1;
  }

  lemma ByteShiftsOut(b: Byte)
    ensures b >> 1 >> 1 >> 1 >> 1 >> 1 >> 1 >> 1 >> 1 == 0
  {}

  lemma HighUnmixed(c: bv32, b: Byte)
    ensures Drop8(Xor(c, b)) == Drop8(c)
  {}

  lemma XorZero(f: bv32, c: bv32, zero: bv32)
    requires f == Xor(c, zero) && zero == 0
    ensures f == c
  {}

  lemma {:induction false} FeedIsShift8(c: bv32, b: Byte)
    ensures Feed(c, b) == Shift8(Xor(c, b))
  {
    FeedIsShift(c, b, 8);
    ByteGone(b);
    XorZero(FeedByte(c, b, 8), Shifts(Xor(c, b), 8), Down(b, 8));
  }

  /** One table lookup does what feeding eight bits does. */
  lemma {:induction false} LookupIsFeed(c: bv32, b: Byte)
    ensures Feed(c, b) == Xor(Shift8(Low(Xor(c, b))), Drop8(c))
  {
    hide Feed, Shift8, Drop8, Low, Xor;
    FeedIsShift8(c, b);
    EightSteps(Xor(c, b));
    HighUnmixed(c, b);
  }

  lemma {:induction false} LowIndex(c: bv32)
    ensures 0 <= Low(c) as int < 256
    ensures (Low(c) as int) as bv32 == Low(c)
  {
    assert Low(c) <= 0xff;
  }

  /** The checksum loop computes exactly the CRC-32 of the bytes it is given. */
  method Crc32(table: array<bv32>, buf: seq<Byte>) returns (crc: bv32)
    requires IsTable(table)
    ensures crc == Reference(buf)
  {
    var c := ONES;
    for i := 0 to |buf|
      invariant c == Register(buf[..i])
    {
      LowIndex(Xor(c, buf[i]));
      LookupIsFeed(c, buf[i]);
      assert buf[..i + 1][..i] == buf[..i];
      c := Xor(table[Low(Xor(c, buf[i])) as int], Drop8(c));
    }
    assert buf[..|buf|] == buf;
    crc := Xor(c, ONES);
  }
}
