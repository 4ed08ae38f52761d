/** CRC-32C: the table-driven form and the bit-by-bit definition of appendix B of RFC 4960. */
module Crc {
  type byte = x: int | 0 <= x < 256

  const POLY: bv32 := 0x82F63B78
  const ONES: bv32 := 0xFFFF_FFFF

  function Shift(c: bv32): bv32 { c >> 1 }

  function ShiftByte(c: bv32): bv32 { c >> 8 }

  function Xor(a: bv32, b: bv32): bv32 { a ^ b }

  function LowBit(c: bv32): bv32 { c & 1 }

  function LowByte(c: bv32): bv32 { c & 0xFF }

  function HighBytes(c: bv32): bv32 { c & 0xFFFF_FF00 }

  function Wide(b: byte): bv32 { b as bv32 }

  /** One division step of the reflected register. */
  function Step(c: bv32): bv32 {
    if LowBit(c) != 0 then Xor(POLY, Shift(c)) else Shift(c)
  }

  function Steps(c: bv32, n: nat): bv32
    decreases n
  {
    if n == 0 then c else Steps(Step(c), n - 1)
  }

  // ---- the definition: message bits enter one at a time, lowest first ----

  function FeedBits(c: bv32, bits: bv32, n: nat): bv32
    decreases n
  {
    if n == 0 then c else FeedBits(Step(Xor(c, LowBit(bits))), Shift(bits), n - 1)
  }

  function Register(data: seq<byte>, c: bv32): bv32 {
    if data == [] then c else Register(data[1..], FeedBits(c, Wide(data[0]), 8))
  }

  /** The checksum; the seed is an earlier checksum to continue from, 0 to begin. */
  function Crc32c(data: seq<byte>, seed: bv32): bv32 {
    Xor(Register(data, Xor(seed, ONES)), ONES)
  }

  // ---- the register is linear over exclusive or ----

  lemma LowBitXor(a: bv32, b: bv32)
    ensures LowBit(Xor(a, b)) == Xor(LowBit(a), LowBit(b))
  {}

  lemma ShiftXor(a: bv32, b: bv32)
    ensures Shift(Xor(a, b)) == Xor(Shift(a), Shift(b))
  {}

  lemma LowBitCases(c: bv32)
    ensures LowBit(c) == 0 || LowBit(c) == 1
  {}

  lemma XorBits()
    ensures Xor(0, 0) == 0 && Xor(0, 1) == 1 && Xor(1, 0) == 1 && Xor(1, 1) == 0
  {}

  lemma PolyLeft(x: bv32, y: bv32)
    ensures Xor(POLY, Xor(x, y)) == Xor(Xor(POLY, x), y)
  {}

  lemma PolyRight(x: bv32, y: bv32)
    ensures Xor(POLY, Xor(x, y)) == Xor(x, Xor(POLY, y))
  {}

  lemma PolyBoth(x: bv32, y: bv32)
    ensures Xor(Xor(POLY, x), Xor(POLY, y)) == Xor(x, y)
  {}

  lemma StepXor(a: bv32, b: bv32)
    ensures Step(Xor(a, b)) == Xor(Step(a), Step(b))
  {
    hide Xor, Shift, LowBit;
    LowBitXor(a, b);
    ShiftXor(a, b);
    LowBitCases(a);
    LowBitCases(b);
    XorBits();
    PolyLeft(Shift(a), Shift(b));
    PolyRight(Shift(a), Shift(b));
    PolyBoth(Shift(a), Shift(b));
  }

  lemma {:induction false} StepsXor(a: bv32, b: bv32, n: nat)
    ensures Steps(Xor(a, b), n) == Xor(Steps(a, n), Steps(b, n))
    decreases n
  {
    hide Xor, Step;
    if n > 0 {
      StepXor(a, b);
      StepsXor(Step(a), Step(b), n - 1);
    }
  }

  lemma StepEven(c: bv32)
    requires LowBit(c) == 0
    ensures Step(c) == Shift(c)
  {}

  // ---- feeding bits one at a time is feeding them all at once ----

  predicate Fits(bits: bv32, n: nat)
    decreases n
  {
    if n == 0 then bits == 0 else Fits(Shift(bits), n - 1)
  }

  /** x ^ bits with its low bit taken out of bits first. */
  lemma StepOfPair(c: bv32, bits: bv32)
    ensures Step(Xor(c, bits)) == Xor(Step(Xor(c, LowBit(bits))), Shift(bits))
  {
    var even := Xor(bits, LowBit(bits));
    Regroup(c, bits);
    StepXor(Xor(c, LowBit(bits)), even);
    EvenPart(bits);
    StepEven(even);
  }

  lemma Regroup(c: bv32, bits: bv32)
    ensures Xor(c, bits) == Xor(Xor(c, LowBit(bits)), Xor(bits, LowBit(bits)))
  {}

  lemma EvenPart(bits: bv32)
    ensures LowBit(Xor(bits, LowBit(bits))) == 0 && Shift(Xor(bits, LowBit(bits))) == Shift(bits)
  {}

  lemma XorZero(c: bv32)
    ensures Xor(c, 0) == c
  {}

  lemma {:induction false} FeedIsSteps(c: bv32, bits: bv32, n: nat)
    requires Fits(bits, n)
    decreases n
    ensures FeedBits(c, bits, n) == Steps(Xor(c, bits), n)
  {
    if n == 0 {
      XorZero(c);
    } else {
      hide Xor, Step, LowBit, Shift;
      FeedIsSteps(Step(Xor(c, LowBit(bits))), Shift(bits), n - 1);
      StepOfPair(c, bits);
    }
  }

  lemma ByteNarrow(b: byte)
    ensures HighBytes(Wide(b)) == 0
  {}

  lemma ByteShifts(w: bv32)
    requires HighBytes(w) == 0
    ensures Shift(Shift(Shift(Shift(Shift(Shift(Shift(Shift(w)))))))) == 0
  {}

  lemma ByteFits(b: byte)
    ensures Fits(Wide(b), 8)
  {
    ByteNarrow(b);
    hide Wide, Shift, HighBytes;
    var w := Wide(b);
    ByteShifts(w);
    assert Fits(w, 8) == Fits(Shift(Shift(w)), 6);
    assert Fits(Shift(Shift(w)), 6) == Fits(Shift(Shift(Shift(Shift(w)))), 4);
    assert Fits(Shift(Shift(Shift(Shift(w)))), 4) == Fits(Shift(Shift(Shift(Shift(Shift(Shift(w)))))), 2);
    var v := Shift(Shift(Shift(Shift(Shift(Shift(w))))));
    assert Fits(v, 2) == Fits(Shift(Shift(v)), 0);
  }

  // ---- the table step ----

  /** Eight steps of a register whose low byte is clear only move it down. */
  lemma HighSteps(c: bv32)
    requires LowByte(c) == 0
    ensures Steps(c, 8) == ShiftByte(c)
  {
    var c1 := Shift(c);
    var c2 := Shift(c1);
    var c3 := Shift(c2);
    var c4 := Shift(c3);
    var c5 := Shift(c4);
    var c6 := Shift(c5);
    var c7 := Shift(c6);
    HighClear(c);
    EightShifts(c);
    hide Shift, ShiftByte, LowBit, LowByte, Step;
    StepEven(c); StepEven(c1); StepEven(c2); StepEven(c3);
    StepEven(c4); StepEven(c5); StepEven(c6); StepEven(c7);
    assert Steps(c, 8) == Steps(c2, 6);
    assert Steps(c2, 6) == Steps(c4, 4);
    assert Steps(c4, 4) == Steps(c6, 2);
    assert Steps(c6, 2) == Steps(Shift(c7), 0);
  }

  lemma HighClear(c: bv32)
    requires LowByte(c) == 0
    ensures LowBit(c) == 0 && LowBit(Shift(c)) == 0
    ensures LowBit(Shift(Shift(c))) == 0 && LowBit(Shift(Shift(Shift(c)))) == 0
    ensures LowBit(Shift(Shift(Shift(Shift(c))))) == 0 && LowBit(Shift(Shift(Shift(Shift(Shift(c)))))) == 0
    ensures LowBit(Shift(Shift(Shift(Shift(Shift(Shift(c))))))) == 0
    ensures LowBit(Shift(Shift(Shift(Shift(Shift(Shift(Shift(c)))))))) == 0
  {}

  lemma EightShifts(c: bv32)
    ensures Shift(Shift(Shift(Shift(Shift(Shift(Shift(Shift(c)))))))) == ShiftByte(c)
  {}

  lemma SplitByte(c: bv32)
    ensures Xor(LowByte(c), HighBytes(c)) == c && LowByte(HighBytes(c)) == 0 && ShiftByte(HighBytes(c)) == ShiftByte(c)
  {}

  lemma ByteLeavesHigh(c: bv32, w: bv32)
    requires HighBytes(w) == 0
    ensures ShiftByte(Xor(c, w)) == ShiftByte(c)
  {}

  /** One table look-up does the work of eight bits. */
  lemma TableStep(c: bv32, b: byte)
    ensures FeedBits(c, Wide(b), 8) == Xor(Steps(LowByte(Xor(c, Wide(b))), 8), ShiftByte(c))
  {
    hide Xor, Wide, LowByte, HighBytes, ShiftByte, Steps, FeedBits, Step;
    var x := Xor(c, Wide(b));
    ByteFits(b);
    FeedIsSteps(c, Wide(b), 8);
    SplitByte(x);
    StepsXor(LowByte(x), HighBytes(x), 8);
    HighSteps(HighBytes(x));
    ByteNarrow(b);
    ByteLeavesHigh(c, Wide(b));
  }

  // ---- continuing a checksum ----

  lemma {:induction false} RegisterAppend(a: seq<byte>, b: seq<byte>, c: bv32)
    ensures Register(a + b, c) == Register(b, Register(a, c))
  {
    hide FeedBits;
    if a == [] {
      assert a + b == b;
    } else {
      assert (a + b)[1..] == a[1..] + b;
      RegisterAppend(a[1..], b, FeedBits(c, Wide(a[0]), 8));
    }
  }

  lemma XorTwice(c: bv32)
    ensures Xor(Xor(c, ONES), ONES) == c
  {}

  /** A checksum used as the seed continues over the concatenation. */
  lemma CrcChains(a: seq<byte>, b: seq<byte>, seed: bv32)
    ensures Crc32c(b, Crc32c(a, seed)) == Crc32c(a + b, seed)
  {
    RegisterAppend(a, b, Xor(seed, ONES));
    XorTwice(Register(a, Xor(seed, ONES)));
    hide Register, Xor;
  }

  // ---- the table and the loop ----

  ghost predicate IsTable(t: seq<bv32>) {
    |t| == 256 && forall i: nat :: i < 256 ==> t[i] == Steps(i as bv32, 8)
  }

  method MakeTable() returns (t: array<bv32>)
    ensures fresh(t) && IsTable(t[..])
  {
    hide Steps, Step;
    t := new bv32[256];
    for index := 0 to 256
      invariant fresh(t) && t.Length == 256
      invariant forall i: nat :: i < index ==> t[i] == Steps(i as bv32, 8)
    {
      var c := TableEntry(index as bv32);
      t[index] := c;
    }
  }

  method TableEntry(index: bv32) returns (c: bv32)
    ensures c == Steps(index, 8)
  {
    hide Step;
    c := index;
    for k := 0 to 8
      invariant Steps(c, 8 - k) == Steps(index, 8)
    {
      c := Step(c);
    }
  }

  method TableCrc(t: seq<bv32>, data: seq<byte>, seed: bv32) returns (crc: bv32)
    requires IsTable(t)
    ensures crc == Crc32c(data, seed)
  {
    crc := Xor(seed, ONES);
    for i := 0 to |data|
      invariant Register(data[i..], crc) == Register(data, Xor(seed, ONES))
    {
      assert data[i..][1..] == data[i + 1..];
      crc := LookUp(t, crc, data[i]);
    }
    crc := Xor(crc, ONES);
  }

  lemma IndexBack(x: bv32)
    ensures (LowByte(x) as nat) < 256 && (LowByte(x) as nat) as bv32 == LowByte(x)
  {}

  method LookUp(t: seq<bv32>, c: bv32, b: byte) returns (r: bv32)
    requires IsTable(t)
    ensures r == FeedBits(c, Wide(b), 8)
  {
    var low := LowByte(Xor(c, Wide(b)));
    IndexBack(Xor(c, Wide(b)));
    TableStep(c, b);
    hide Xor, Wide, LowByte, ShiftByte, Steps, FeedBits;
    r := Xor(t[low as nat], ShiftByte(c));
  }
}
