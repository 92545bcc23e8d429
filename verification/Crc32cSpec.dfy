/**
  The bit-at-a-time CRC-32C of section 12.1 of RFC 3720, and the linear algebra
  over it that every fast implementation in crc32c.c relies on.
 */
module Crc32cSpec {

  /** The CRC-32C polynomial in reversed bit order. */
  const POLY: bv32 := 0x82f63b78

  const ONES: bv32 := 0xffffffff

  /** Exclusive or as a named function, so that proofs can treat it as an abstract group operation. */
  function Xor(x: bv32, y: bv32): bv32 {
    x ^ y
  }

  /** One step of the shift register on a zero message bit. */
  function Step(x: bv32): bv32 {
    if x & 1 == 1 then (x >> 1) ^ POLY else x >> 1
  }

  /** The register after n zero bits. */
  function Zeros(n: nat, x: bv32): bv32 {
    if n == 0 then x else Zeros(n - 1, Step(x))
  }

  /** The next message bit of a word, and the word without it. */
  function LowBit(w: bv64): bv32 {
    if w & 1 == 1 then 1 else 0
  }

  function DropBit(w: bv64): bv64 {
    w >> 1
  }

  function FeedBit(crc: bv32, bit: bv32): bv32 {
    Step(Xor(crc, bit))
  }

  /** The register after the n low bits of w, least significant bit first. */
  function FeedBits(crc: bv32, w: bv64, n: nat): bv32
    decreases n
  {
    if n == 0 then crc else FeedBits(FeedBit(crc, LowBit(w)), DropBit(w), n - 1)
  }

  /** The register after a message, one bit at a time. */
  function Register(crc: bv32, msg: seq<bv8>): bv32 {
    if msg == [] then crc
    else FeedBits(Register(crc, msg[..|msg| - 1]), msg[|msg| - 1] as bv64, 8)
  }

  /** The published CRC-32C of a message continued from an earlier result. */
  function Crc(crci: bv32, msg: seq<bv8>): bv32 {
    Xor(Register(Xor(crci, ONES), msg), ONES)
  }

  // ----- exclusive or is a commutative group of exponent two -----

  lemma XorDef(x: bv32, y: bv32)
    ensures Xor(x, y) == x ^ y
  {}

  lemma XorAssoc(a: bv32, b: bv32, c: bv32)
    ensures Xor(Xor(a, b), c) == Xor(a, Xor(b, c))
  {}

  lemma XorComm(a: bv32, b: bv32)
    ensures Xor(a, b) == Xor(b, a)
  {}

  lemma XorUnit(a: bv32)
    ensures Xor(a, a) == 0 && Xor(a, 0) == a && Xor(0, a) == a
  {}

  lemma XorLaws(a: bv32, b: bv32, c: bv32)
    ensures Xor(Xor(a, b), c) == Xor(a, Xor(b, c))
    ensures Xor(a, b) == Xor(b, a)
    ensures Xor(a, a) == 0 && Xor(a, 0) == a && Xor(0, a) == a
  {
    hide Xor;
    XorAssoc(a, b, c);
    XorComm(a, b);
    XorUnit(a);
  }

  lemma XorSwap(a: bv32, b: bv32, c: bv32, d: bv32)
    ensures Xor(Xor(a, b), Xor(c, d)) == Xor(Xor(a, c), Xor(b, d))
  {
    hide Xor;
    XorAssoc(a, b, Xor(c, d));
    XorAssoc(b, c, d);
    XorComm(b, c);
    XorAssoc(c, b, d);
    XorAssoc(a, c, Xor(b, d));
  }

  // ----- linearity of the register -----

  lemma ShiftXorRaw(x: bv32, y: bv32)
    ensures (x ^ y) >> 1 == (x >> 1) ^ (y >> 1)
  {}

  lemma ShiftXor(x: bv32, y: bv32)
    ensures Xor(x, y) >> 1 == Xor(x >> 1, y >> 1)
  {
    hide Xor;
    ShiftXorRaw(x, y);
    XorDef(x, y);
    XorDef(x >> 1, y >> 1);
  }

  lemma LowBitXor(x: bv32, y: bv32)
    ensures Xor(x, y) & 1 == Xor(x & 1, y & 1)
  {}

  lemma LowBitCases(x: bv32)
    ensures x & 1 == 0 || x & 1 == 1
  {}

  lemma XorPoly(a: bv32, b: bv32)
    ensures Xor(Xor(a, POLY), Xor(b, POLY)) == Xor(a, b)
    ensures Xor(Xor(a, POLY), b) == Xor(Xor(a, b), POLY)
    ensures Xor(a, Xor(b, POLY)) == Xor(Xor(a, b), POLY)
  {
    hide Xor;
    XorSwap(a, POLY, b, POLY);
    XorUnit(POLY);
    XorUnit(Xor(a, b));
    XorAssoc(a, b, POLY);
    XorAssoc(a, POLY, b);
    XorComm(b, POLY);
  }

  lemma StepCases(x: bv32)
    ensures Step(x) == if x & 1 == 1 then Xor(x >> 1, POLY) else x >> 1
  {}

  lemma XorOfBits()
    ensures Xor(0, 0) == 0 && Xor(0, 1) == 1 && Xor(1, 0) == 1 && Xor(1, 1) == 0
  {}

  lemma StepXor(x: bv32, y: bv32)
    ensures Step(Xor(x, y)) == Xor(Step(x), Step(y))
  {
    hide Xor, Step;
    ShiftXor(x, y);
    LowBitXor(x, y);
    LowBitCases(x);
    LowBitCases(y);
    XorOfBits();
    XorPoly(x >> 1, y >> 1);
    StepCases(x);
    StepCases(y);
    StepCases(Xor(x, y));
  }

  /** Running zero bits through the register is linear over exclusive or. */
  lemma {:induction false} ZerosXor(n: nat, x: bv32, y: bv32)
    ensures Zeros(n, Xor(x, y)) == Xor(Zeros(n, x), Zeros(n, y))
  {
    hide Xor, Step;
    if n > 0 {
      StepXor(x, y);
      ZerosXor(n - 1, Step(x), Step(y));
    }
  }

  lemma {:induction false} ZerosAdd(m: nat, n: nat, x: bv32)
    ensures Zeros(m + n, x) == Zeros(n, Zeros(m, x))
  {
    hide Step;
    if m > 0 {
      ZerosAdd(m - 1, n, Step(x));
    }
  }

  lemma {:induction false} ZerosOfZero(n: nat)
    ensures Zeros(n, 0) == 0
  {
    if n > 0 {
      assert Step(0) == 0;
      ZerosOfZero(n - 1);
    }
  }

  // ----- whole bytes -----

  lemma Unroll8(x: bv32)
    ensures Zeros(8, x) == Step(Step(Step(Step(Step(Step(Step(Step(x))))))))
  {
    hide Step;
    var x2 := Step(Step(x));
    var x4 := Step(Step(x2));
    var x6 := Step(Step(x4));
    assert Zeros(8, x) == Zeros(6, x2);
    assert Zeros(6, x2) == Zeros(4, x4);
    assert Zeros(4, x4) == Zeros(2, x6);
    assert Zeros(2, x6) == Zeros(0, Step(Step(x6)));
  }

  lemma StepShifts(x: bv32)
    ensures Step(x & 0xffffff00) == (x >> 1) & 0xffffff80
    ensures Step((x >> 1) & 0xffffff80) == (x >> 2) & 0xffffffc0
    ensures Step((x >> 2) & 0xffffffc0) == (x >> 3) & 0xffffffe0
    ensures Step((x >> 3) & 0xffffffe0) == (x >> 4) & 0xfffffff0
    ensures Step((x >> 4) & 0xfffffff0) == (x >> 5) & 0xfffffff8
    ensures Step((x >> 5) & 0xfffffff8) == (x >> 6) & 0xfffffffc
    ensures Step((x >> 6) & 0xfffffffc) == (x >> 7) & 0xfffffffe
    ensures Step((x >> 7) & 0xfffffffe) == x >> 8
  {}

  /** Bits above the low byte only move down while a zero byte passes. */
  lemma ZerosShiftedByte(x: bv32)
    ensures Zeros(8, x & 0xffffff00) == x >> 8
  {
    hide Step;
    Unroll8(x & 0xffffff00);
    StepShifts(x);
  }

  lemma SplitLowByte(x: bv32)
    ensures x == Xor(x & 0xff, x & 0xffffff00)
  {}

  /** The recurrence of crc32c_init_sw advances a register by one zero byte. */
  lemma ZerosByte(x: bv32)
    ensures Zeros(8, x) == Xor(Zeros(8, x & 0xff), x >> 8)
  {
    hide Xor, Step;
    SplitLowByte(x);
    ZerosXor(8, x & 0xff, x & 0xffffff00);
    ZerosShiftedByte(x);
  }

  // ----- feeding message bits -----

  /** w has at most n significant bits. */
  predicate Fits(w: bv64, n: nat)
    decreases n
  {
    if n == 0 then w == 0 else Fits(DropBit(w), n - 1)
  }

  function Low32(w: bv64): bv32 {
    (w & 0xffff_ffff) as bv32
  }

  predicate Is32(w: bv64) {
    w <= 0xffff_ffff
  }

  lemma LowBitNarrow(w: bv64)
    requires Is32(w)
    ensures Is32(DropBit(w))
    ensures Low32(w) >> 1 == Low32(DropBit(w))
    ensures Low32(w) & 1 == LowBit(w)
  {}

  lemma LowBitSplit(x: bv32)
    ensures x == Xor(x & 1, x & 0xfffffffe)
    ensures Step(x & 0xfffffffe) == x >> 1
  {}

  lemma StepOverBit(crc: bv32, x: bv32)
    ensures Step(Xor(crc, x)) == Xor(Step(Xor(crc, x & 1)), x >> 1)
  {
    hide Xor, Step;
    LowBitSplit(x);
    StepXor(Xor(crc, x & 1), x & 0xfffffffe);
    XorAssoc(crc, x & 1, x & 0xfffffffe);
  }

  /** Feeding message bits one at a time is xoring them in and running zero bits. */
  lemma {:induction false} FeedAsZeros(crc: bv32, w: bv64, n: nat)
    requires Is32(w) && Fits(w, n)
    ensures FeedBits(crc, w, n) == Zeros(n, Xor(crc, Low32(w)))
    decreases n
  {
    hide Xor, Step, Low32, LowBit, DropBit, Is32;
    if n == 0 {
      LowOfZero();
      XorUnit(crc);
    } else {
      LowBitNarrow(w);
      StepOverBit(crc, Low32(w));
      FeedAsZeros(FeedBit(crc, LowBit(w)), DropBit(w), n - 1);
    }
  }

  lemma LowOfZero()
    ensures Low32(0) == 0
  {}

  lemma DropBits(w: bv64)
    requires w < 256
    ensures DropBit(DropBit(DropBit(DropBit(DropBit(DropBit(DropBit(DropBit(w)))))))) == 0
  {}

  lemma ByteFits(b: bv8)
    ensures Fits(b as bv64, 8) && Is32(b as bv64) && Low32(b as bv64) == b as bv32
  {
    hide DropBit;
    DropBits(b as bv64);
    var w2 := DropBit(DropBit(b as bv64));
    var w4 := DropBit(DropBit(w2));
    var w6 := DropBit(DropBit(w4));
    assert Fits(DropBit(DropBit(w6)), 0);
    assert Fits(w6, 2);
    assert Fits(w4, 4);
    assert Fits(w2, 6);
  }

  lemma FeedByte(crc: bv32, b: bv8)
    ensures FeedBits(crc, b as bv64, 8) == Zeros(8, Xor(crc, b as bv32))
  {
    hide Xor, Step, Low32, Fits, Is32;
    ByteFits(b);
    FeedAsZeros(crc, b as bv64, 8);
  }

  lemma RegisterSnoc(crc: bv32, msg: seq<bv8>, b: bv8)
    ensures Register(crc, msg + [b]) == Zeros(8, Xor(Register(crc, msg), b as bv32))
  {
    hide Xor, Step, FeedBits;
    assert (msg + [b])[..|msg + [b]| - 1] == msg;
    FeedByte(Register(crc, msg), b);
  }

  /** A register continued over b from where a left it is the register over a and b together. */
  lemma {:induction false} RegisterAppend(crc: bv32, a: seq<bv8>, b: seq<bv8>)
    ensures Register(crc, a + b) == Register(Register(crc, a), b)
    decreases |b|
  {
    hide Xor, Step, FeedBits;
    if b == [] {
      assert a + b == a;
    } else {
      var b' := b[..|b| - 1];
      RegisterAppend(crc, a, b');
      assert (a + b)[..|a + b| - 1] == a + b';
    }
  }

  /** Starting values and messages superpose. */
  lemma {:induction false} RegisterXor(x: bv32, y: bv32, msg: seq<bv8>)
    ensures Register(Xor(x, y), msg) == Xor(Register(x, msg), Zeros(8 * |msg|, y))
  {
    hide Xor, Step, FeedBits;
    if msg != [] {
      var m, b := msg[..|msg| - 1], msg[|msg| - 1];
      assert msg == m + [b];
      RegisterXor(x, y, m);
      RegisterSnoc(x, m, b);
      RegisterSnoc(Xor(x, y), m, b);
      var r, z := Register(x, m), Zeros(8 * |m|, y);
      XorLaws(r, z, b as bv32);
      XorLaws(z, b as bv32, 0);
      XorLaws(r, b as bv32, z);
      ZerosXor(8, Xor(r, b as bv32), z);
      ZerosAdd(8 * |m|, 8, y);
    }
  }

  /** Two shifts and two xors join three independently computed streams. */
  lemma JoinThree(crc: bv32, a: seq<bv8>, b: seq<bv8>, c: seq<bv8>)
    requires |b| == |c|
    ensures Register(crc, a + b + c)
         == Xor(Zeros(8 * |c|, Xor(Zeros(8 * |b|, Register(crc, a)), Register(0, b))), Register(0, c))
  {
    hide Xor, Step, FeedBits;
    var ra := Register(crc, a);
    RegisterAppend(crc, a + b, c);
    RegisterAppend(crc, a, b);
    XorLaws(ra, 0, 0);
    RegisterXor(0, ra, b);
    var rab := Register(ra, b);
    XorLaws(rab, 0, 0);
    RegisterXor(0, rab, c);
    XorLaws(Register(0, b), Zeros(8 * |b|, ra), 0);
    XorLaws(Register(0, c), Zeros(8 * |c|, rab), 0);
  }

  /** The published CRC of a concatenation is the CRC of the second part continued from the first. */
  lemma CrcAppend(crci: bv32, a: seq<bv8>, b: seq<bv8>)
    ensures Crc(crci, a + b) == Crc(Crc(crci, a), b)
  {
    hide Xor, Step, FeedBits;
    RegisterAppend(Xor(crci, ONES), a, b);
    var r := Register(Xor(crci, ONES), a);
    XorAssoc(r, ONES, ONES);
    XorUnit(ONES);
    XorUnit(r);
  }
}
