/**
  crc32c.c: the slicing-by-8 software CRC, the GF(2) operators for runs of zero
  bytes, and the CRC that drives the crc32 instruction over three interleaved
  streams.
 */
module Gf2 {
  import opened Crc32cSpec

  function Half(x: bv32): bv32 {
    x >> 1
  }

  function Twice(x: bv32): bv32 {
    x << 1
  }

  function Bit0(x: bv32): bv32 {
    x & 1
  }

  function ShiftLeft(x: bv32, i: nat): bv32
    decreases i
  {
    if i == 0 then x else ShiftLeft(Twice(x), i - 1)
  }

  /** vec has at most n significant bits: the size a matrix must have to be multiplied with it. */
  predicate RowsCover(vec: bv32, n: nat)
    decreases n
  {
    if n == 0 then vec == 0 else RowsCover(Half(vec), n - 1)
  }

  /** Exclusive or of the rows from i on that are selected by the bits of vec. */
  function MatMul(mat: seq<bv32>, i: nat, vec: bv32): bv32
    requires i <= |mat|
    decreases |mat| - i
  {
    if i == |mat| then 0
    else Xor(if Bit0(vec) == 1 then mat[i] else 0, MatMul(mat, i + 1, Half(vec)))
  }

  /** The matrix of "run n zero bits through the register": row i is the image of bit i. */
  predicate IsZerosOp(mat: seq<bv32>, n: nat) {
    |mat| == 32 && forall i :: 0 <= i < 32 ==> mat[i] == Zeros(n, ShiftLeft(1, i))
  }

  // ----- every word is covered by 32 rows -----

  lemma HalfMonotone(v: bv32, m: bv32)
    requires v <= m
    ensures Half(v) <= Half(m)
    ensures m == 0 ==> v == 0
  {}

  lemma {:induction false} RowsCoverBelow(v: bv32, m: bv32, n: nat)
    requires v <= m && RowsCover(m, n)
    ensures RowsCover(v, n)
    decreases n
  {
    hide Half;
    HalfMonotone(v, m);
    if n > 0 {
      RowsCoverBelow(Half(v), Half(m), n - 1);
    }
  }

  lemma RowsCoverAll(v: bv32)
    ensures RowsCover(v, 32)
  {
    assert RowsCover(0xff, 8);
    assert RowsCover(0xffff, 16);
    assert RowsCover(0xff_ffff, 24);
    assert RowsCover(0xffff_ffff, 32);
    assert v <= 0xffff_ffff;
    RowsCoverBelow(v, 0xffff_ffff, 32);
  }

  // ----- a zeros operator times a vector runs the zeros -----

  lemma TwiceXor(x: bv32, y: bv32)
    ensures Twice(Xor(x, y)) == Xor(Twice(x), Twice(y))
  {}

  lemma {:induction false} ShiftLeftXor(x: bv32, y: bv32, i: nat)
    ensures ShiftLeft(Xor(x, y), i) == Xor(ShiftLeft(x, i), ShiftLeft(y, i))
    decreases i
  {
    hide Xor, Twice;
    if i > 0 {
      TwiceXor(x, y);
      ShiftLeftXor(Twice(x), Twice(y), i - 1);
    }
  }

  lemma {:induction false} ShiftLeftZero(i: nat)
    ensures ShiftLeft(0, i) == 0
    decreases i
  {
    if i > 0 {
      assert Twice(0) == 0;
      ShiftLeftZero(i - 1);
    }
  }

  lemma SplitBit(v: bv32)
    ensures v == Xor(Bit0(v), Twice(Half(v)))
    ensures Bit0(v) == 0 || Bit0(v) == 1
  {}

  lemma {:induction false} MatMulRuns(mat: seq<bv32>, n: nat, i: nat, v: bv32)
    requires IsZerosOp(mat, n) && i <= 32 && RowsCover(v, 32 - i)
    ensures MatMul(mat, i, v) == Zeros(n, ShiftLeft(v, i))
    decreases 32 - i
  {
    hide Xor, Step, Zeros, Half, Twice, Bit0;
    if i == 32 {
      ShiftLeftZero(i);
      ZerosOfZero(n);
    } else {
      var rest := ShiftLeft(Half(v), i + 1);
      MatMulRuns(mat, n, i + 1, Half(v));
      SplitBit(v);
      ShiftLeftXor(Bit0(v), Twice(Half(v)), i);
      ZerosXor(n, ShiftLeft(Bit0(v), i), rest);
      ShiftLeftZero(i);
      ZerosOfZero(n);
    }
  }

  /** Multiplying by the zeros operator runs that many zero bits through any register value. */
  lemma TimesRunsZeros(mat: seq<bv32>, n: nat, v: bv32)
    requires IsZerosOp(mat, n)
    ensures MatMul(mat, 0, v) == Zeros(n, v)
  {
    RowsCoverAll(v);
    MatMulRuns(mat, n, 0, v);
  }

  lemma {:induction false} MatMulOfZero(mat: seq<bv32>, i: nat)
    requires i <= |mat|
    ensures MatMul(mat, i, 0) == 0
    decreases |mat| - i
  {
    assert Half(0) == 0 && Bit0(0) == 0 && Xor(0, 0) == 0;
    if i < |mat| {
      MatMulOfZero(mat, i + 1);
    }
  }

  // ----- the loops -----

  method MatrixTimes(mat: array<bv32>, vec0: bv32) returns (sum: bv32)
    requires RowsCover(vec0, mat.Length)
    ensures sum == MatMul(mat[..], 0, vec0)
  {
    hide Xor, Half, Bit0;
    sum := 0;
    var vec, i := vec0, 0;
    XorUnit(MatMul(mat[..], 0, vec0));
    while vec != 0
      invariant 0 <= i <= mat.Length
      invariant RowsCover(vec, mat.Length - i)
      invariant Xor(sum, MatMul(mat[..], i, vec)) == MatMul(mat[..], 0, vec0)
      decreases mat.Length - i
    {
      ghost var tail := MatMul(mat[..], i + 1, Half(vec));
      if Bit0(vec) == 1 {
        XorAssoc(sum, mat[i], tail);
        sum := Xor(sum, mat[i]);
      } else {
        XorUnit(tail);
      }
      vec := Half(vec);
      i := i + 1;
    }
    MatMulOfZero(mat[..], i);
    XorUnit(sum);
  }

  /** Squaring the operator for n zero bits gives the operator for 2n. */
  method MatrixSquare(square: array<bv32>, mat: array<bv32>, ghost n: nat)
    requires square != mat && square.Length == 32 && IsZerosOp(mat[..], n)
    modifies square
    ensures IsZerosOp(square[..], 2 * n)
  {
    hide Zeros, ShiftLeft;
    for i := 0 to 32
      invariant mat[..] == old(mat[..])
      invariant forall j :: 0 <= j < i ==> square[j] == Zeros(2 * n, ShiftLeft(1, j))
    {
      RowsCoverAll(mat[i]);
      var row := MatrixTimes(mat, mat[i]);
      TimesRunsZeros(mat[..], n, mat[i]);
      ZerosAdd(n, n, ShiftLeft(1, i));
      square[i] := row;
    }
  }

  predicate IsPowerOfTwo(n: nat) {
    n == 1 || (n > 1 && n % 2 == 0 && IsPowerOfTwo(n / 2))
  }

  /** len halved down to one while p doubles, as the squaring loop does. */
  function Doubled(p: nat, len: nat): nat
    decreases len
  {
    if len < 2 then p else Doubled(2 * p, len / 2)
  }

  /** The largest power of two that is at most len; 1 for len 0. */
  function PowerFloor(len: nat): nat {
    Doubled(1, len)
  }

  lemma {:induction false} DoubledScales(p: nat, len: nat)
    ensures Doubled(2 * p, len) == 2 * Doubled(p, len)
    decreases len
  {
    if len >= 2 {
      DoubledScales(2 * p, len / 2);
    }
  }

  lemma {:induction false} PowerFloorIsLargest(len: nat)
    ensures IsPowerOfTwo(PowerFloor(len))
    ensures len > 0 ==> PowerFloor(len) <= len < 2 * PowerFloor(len)
    ensures IsPowerOfTwo(len) ==> PowerFloor(len) == len
  {
    if len >= 2 {
      DoubledScales(1, len / 2);
      PowerFloorIsLargest(len / 2);
    }
  }

  lemma OneZeroBit()
    ensures Step(1) == POLY
  {}

  lemma StepOfTwice(x: bv32)
    requires x < 0x8000_0000
    ensures Step(Twice(x)) == x && Half(Twice(x)) == x
  {}

  lemma {:induction false} RowsCoverMore(v: bv32, n: nat)
    requires RowsCover(v, n)
    ensures RowsCover(v, n + 1)
    decreases n
  {
    if n == 0 {
      assert Half(0) == 0;
    } else {
      RowsCoverMore(Half(v), n - 1);
    }
  }

  lemma TopBitUncovered()
    ensures !RowsCover(0x8000_0000, 31)
  {
    assert !RowsCover(0x80, 7);
    assert !RowsCover(0x8000, 15);
    assert !RowsCover(0x80_0000, 23);
  }

  lemma {:induction false} CoverBound(v: bv32, n: nat)
    requires n <= 31 && RowsCover(v, n)
    ensures v < 0x8000_0000
    decreases 31 - n
  {
    if n < 31 {
      RowsCoverMore(v, n);
      CoverBound(v, n + 1);
    } else if v >= 0x8000_0000 {
      TopBitUncovered();
      RowsCoverBelow(0x8000_0000, v, 31);
      assert false;
    }
  }

  lemma {:induction false} ShiftLeftSnoc(x: bv32, i: nat)
    ensures ShiftLeft(x, i + 1) == Twice(ShiftLeft(x, i))
    decreases i
  {
    hide Twice;
    if i > 0 {
      ShiftLeftSnoc(Twice(x), i - 1);
    }
  }

  /** Sets a matrix to the operator for a single zero bit. */
  method OneZeroBitOp(odd: array<bv32>)
    requires odd.Length == 32
    modifies odd
    ensures IsZerosOp(odd[..], 1)
  {
    odd[0] := POLY;
    OneZeroBit();
    assert Zeros(1, ShiftLeft(1, 0)) == POLY;
    var row: bv32 := 1;
    for n := 1 to 32
      invariant row == ShiftLeft(1, n - 1)
      invariant RowsCover(row, n)
      invariant forall j :: 0 <= j < n ==> odd[j] == Zeros(1, ShiftLeft(1, j))
    {
      odd[n] := row;
      ShiftLeftSnoc(1, n - 1);
      CoverBound(row, n);
      StepOfTwice(row);
      row := Twice(row);
    }
  }

  /**
    crc32c_zeros_op: by repeated squaring, the operator for 8 * len zero bits.
    When len is not a power of two it is the operator for the largest power of
    two below len, and 0 counts as 1.
   */
  method ZerosOp(even: array<bv32>, len0: nat)
    requires even.Length == 32
    modifies even
    ensures IsZerosOp(even[..], 8 * PowerFloor(len0))
  {
    hide IsZerosOp;
    var odd := new bv32[32];
    OneZeroBitOp(odd);
    MatrixSquare(even, odd, 1);
    MatrixSquare(odd, even, 2);
    var len := len0;
    ghost var p: nat := 1;
    while true
      invariant IsZerosOp(odd[..], 4 * p)
      invariant PowerFloor(len0) == Doubled(p, len)
      decreases len
    {
      MatrixSquare(even, odd, 4 * p);
      len := len / 2;
      if len == 0 {
        return;
      }
      MatrixSquare(odd, even, 8 * p);
      len := len / 2;
      if len == 0 {
        p := 2 * p;
        break;
      }
      p := 4 * p;
    }
    ghost var was := odd[..];
    assert IsZerosOp(was, 8 * p) && p == PowerFloor(len0);
    for n := 0 to 32
      invariant even[..n] == odd[..n]
      invariant odd[..] == was
    {
      even[n] := odd[n];
    }
    assert even[..] == was;
  }
}

module Crc32c {
  import opened Crc32cSpec
  import opened Gf2

  /** Block sizes of the three-way parallel computation. */
  const LONG: nat := 8192
  const SHORT: nat := 256

  function LowByte(x: bv32): bv8 {
    (x & 0xff) as bv8
  }

  function DropByte(x: bv32): bv32 {
    x >> 8
  }

  function LowByte64(x: bv64): bv8 {
    (x & 0xff) as bv8
  }

  function DropByte64(x: bv64): bv64 {
    x >> 8
  }

  /** Byte i of a word, counting from the least significant. */
  function NthByte(x: bv64, i: nat): bv8
    decreases i
  {
    if i == 0 then LowByte64(x) else NthByte(DropByte64(x), i - 1)
  }

  function Wide(x: bv32): bv64 {
    x as bv64
  }

  function Xor64(x: bv64, y: bv64): bv64 {
    x ^ y
  }

  function XorByte(x: bv8, y: bv8): bv8 {
    x ^ y
  }

  /** A little-endian 64-bit load. */
  function Load64(b: seq<bv8>): bv64
    requires |b| == 8
  {
    Word(b[0], b[1], b[2], b[3], b[4], b[5], b[6], b[7])
  }

  function Word(b0: bv8, b1: bv8, b2: bv8, b3: bv8, b4: bv8, b5: bv8, b6: bv8, b7: bv8): bv64 {
    (b0 as bv64) | ((b1 as bv64) << 8) | ((b2 as bv64) << 16) | ((b3 as bv64) << 24)
    | ((b4 as bv64) << 32) | ((b5 as bv64) << 40) | ((b6 as bv64) << 48) | ((b7 as bv64) << 56)
  }

  // ----- slicing: one table lookup per message byte -----

  /** The register over msg as one independent term per byte, each moved past the bytes after it. */
  function Slices(crc: bv32, msg: seq<bv8>): bv32
    decreases |msg|
  {
    if msg == [] then crc
    else Xor(Zeros(8 * |msg|, XorByte(LowByte(crc), msg[0]) as bv32), Slices(DropByte(crc), msg[1..]))
  }

  lemma LowByteXor(crc: bv32, b: bv8)
    ensures Xor(crc, b as bv32) & 0xff == XorByte(LowByte(crc), b) as bv32
    ensures Xor(crc, b as bv32) >> 8 == DropByte(crc)
  {}

  lemma OneByte(crc: bv32, b: bv8)
    ensures Zeros(8, Xor(crc, b as bv32)) == Xor(Zeros(8, XorByte(LowByte(crc), b) as bv32), DropByte(crc))
  {
    hide Xor, Step, Zeros, LowByte, DropByte, XorByte;
    LowByteXor(crc, b);
    ZerosByte(Xor(crc, b as bv32));
  }

  lemma RegisterCons(crc: bv32, b: bv8, rest: seq<bv8>)
    ensures Register(crc, [b] + rest) == Register(Zeros(8, Xor(crc, b as bv32)), rest)
  {
    hide Xor, Step, Zeros, FeedBits;
    RegisterAppend(crc, [b], rest);
    RegisterSnoc(crc, [], b);
    assert [] + [b] == [b];
    assert Register(crc, []) == crc;
  }

  lemma {:induction false} RegisterSlices(crc: bv32, msg: seq<bv8>)
    ensures Register(crc, msg) == Slices(crc, msg)
    decreases |msg|
  {
    hide Xor, Step, Zeros, FeedBits, LowByte, DropByte, XorByte;
    if msg != [] {
      var b, rest := msg[0], msg[1..];
      assert msg == [b] + rest;
      var x := XorByte(LowByte(crc), b) as bv32;
      RegisterCons(crc, b, rest);
      OneByte(crc, b);
      XorComm(Zeros(8, x), DropByte(crc));
      RegisterXor(DropByte(crc), Zeros(8, x), rest);
      ZerosAdd(8, 8 * |rest|, x);
      RegisterSlices(DropByte(crc), rest);
      XorComm(Slices(DropByte(crc), rest), Zeros(8 * |msg|, x));
    }
  }

  /** A table index as a byte. */
  function ByteOf(n: int): bv8
    requires 0 <= n < 256
  {
    n as bv8
  }

  lemma ByteOfByte(b: bv8)
    ensures ByteOf(b as int) == b
  {}

  /** crc32c_table[k][n]: byte n after k + 1 zero bytes. */
  predicate IsSwTable(t: array2<bv32>)
    reads t
  {
    t.Length0 == 8 && t.Length1 == 256
    && forall k, n :: 0 <= k < 8 && 0 <= n < 256 ==> t[k, n] == Zeros(8 * (k + 1), ByteOf(n) as bv32)
  }

  method InitSw(t: array2<bv32>)
    requires t.Length0 == 8 && t.Length1 == 256
    modifies t
    ensures IsSwTable(t)
  {
    hide Xor, Step, Zeros, LowByte, DropByte, ByteOf;
    for n := 0 to 256
      invariant forall m :: 0 <= m < n ==> t[0, m] == Zeros(8, ByteOf(m) as bv32)
    {
      var crc := ByteOf(n) as bv32;
      Unroll8(crc);
      crc := Step(crc);
      crc := Step(crc);
      crc := Step(crc);
      crc := Step(crc);
      crc := Step(crc);
      crc := Step(crc);
      crc := Step(crc);
      crc := Step(crc);
      t[0, n] := crc;
    }
    for n := 0 to 256
      invariant forall m :: 0 <= m < 256 ==> t[0, m] == Zeros(8, ByteOf(m) as bv32)
      invariant forall k, m :: 0 <= k < 8 && 0 <= m < n ==> t[k, m] == Zeros(8 * (k + 1), ByteOf(m) as bv32)
    {
      var crc := t[0, n];
      for k := 1 to 8
        invariant crc == Zeros(8 * k, ByteOf(n) as bv32)
        invariant forall m :: 0 <= m < 256 ==> t[0, m] == Zeros(8, ByteOf(m) as bv32)
        invariant forall j :: 0 <= j < k ==> t[j, n] == Zeros(8 * (j + 1), ByteOf(n) as bv32)
        invariant forall j, m :: 0 <= j < 8 && 0 <= m < n ==> t[j, m] == Zeros(8 * (j + 1), ByteOf(m) as bv32)
      {
        OneZeroByte(crc);
        ZerosAdd(8 * k, 8, ByteOf(n) as bv32);
        crc := Xor(t[0, LowByte(crc) as int], DropByte(crc));
        t[k, n] := crc;
      }
    }
  }

  lemma LowByteOf(x: bv32)
    ensures x & 0xff == LowByte(x) as bv32
    ensures x >> 8 == DropByte(x)
  {}

  lemma OneZeroByte(x: bv32)
    ensures Zeros(8, x) == Xor(Zeros(8, ByteOf(LowByte(x) as int) as bv32), DropByte(x))
  {
    hide Xor, Step, Zeros, LowByte, DropByte, ByteOf;
    LowByteOf(x);
    ZerosByte(x);
    ByteOfByte(LowByte(x));
  }

  // ----- crc32c_sw -----

  lemma SwByte(r: bv32, b: bv8)
    ensures LowByte64(Xor64(Wide(r), b as bv64)) == XorByte(LowByte(r), b)
  {}

  lemma SwDrop(r: bv32, x: bv32)
    ensures Xor64(Wide(x), DropByte64(Wide(r))) == Wide(Xor(x, DropByte(r)))
  {
    hide Xor, Xor64;
    DropWide(r);
    XorWide(x, DropByte(r));
  }

  lemma DropWide(r: bv32)
    ensures DropByte64(Wide(r)) == Wide(DropByte(r))
  {
    hide DropByte64, DropByte, Wide, LowByte;
    DropByte64Def(Wide(r));
    DropByteDef(r);
    WideDef(r);
    WideDef(r >> 8);
    DropWideRaw(r);
  }

  lemma DropByteDef(x: bv32)
    ensures DropByte(x) == x >> 8
  {}

  lemma WideDef(x: bv32)
    ensures Wide(x) == x as bv64
  {}

  lemma DropByte64Def(x: bv64)
    ensures DropByte64(x) == x >> 8
  {}

  lemma DropWideRaw(r: bv32)
    ensures (r as bv64) >> 8 == (r >> 8) as bv64
  {}

  lemma XorWide(x: bv32, y: bv32)
    ensures Xor64(Wide(x), Wide(y)) == Wide(Xor(x, y))
  {}

  lemma SwLow(r: bv32, w: bv64)
    ensures LowByte64(Xor64(Wide(r), w)) == XorByte(LowByte(r), LowByte64(w))
  {}

  lemma SwRest(r: bv32, w: bv64)
    ensures DropByte64(Xor64(Wide(r), w)) == Xor64(Wide(DropByte(r)), DropByte64(w))
  {}

  function Drops(r: bv32, i: nat): bv32
    decreases i
  {
    if i == 0 then r else Drops(DropByte(r), i - 1)
  }

  /** Byte i of the register xored with a loaded word. */
  lemma {:induction false} SwNth(r: bv32, w: bv64, i: nat)
    ensures NthByte(Xor64(Wide(r), w), i) == XorByte(LowByte(Drops(r, i)), NthByte(w, i))
    decreases i
  {
    hide Xor64, Wide, LowByte, DropByte, LowByte64, DropByte64, XorByte;
    if i == 0 {
      SwLow(r, w);
    } else {
      SwRest(r, w);
      SwNth(DropByte(r), DropByte64(w), i - 1);
    }
  }

  lemma WordBytes(b0: bv8, b1: bv8, b2: bv8, b3: bv8, b4: bv8, b5: bv8, b6: bv8, b7: bv8, w: bv64)
    requires w == Word(b0, b1, b2, b3, b4, b5, b6, b7)
    ensures LowByte64(w) == b0 && LowByte64(w >> 8) == b1 && LowByte64(w >> 16) == b2 && LowByte64(w >> 24) == b3
    ensures LowByte64(w >> 32) == b4 && LowByte64(w >> 40) == b5 && LowByte64(w >> 48) == b6 && LowByte64(w >> 56) == b7
  {}

  lemma DropTwice(w: bv64)
    ensures DropByte64(w) == w >> 8 && DropByte64(w >> 8) == w >> 16 && DropByte64(w >> 16) == w >> 24
    ensures DropByte64(w >> 24) == w >> 32 && DropByte64(w >> 32) == w >> 40 && DropByte64(w >> 40) == w >> 48
    ensures DropByte64(w >> 48) == w >> 56
  {}

  lemma NthOfLoad(b: seq<bv8>, i: nat)
    requires |b| == 8 && i < 8
    ensures NthByte(Load64(b), i) == b[i]
  {
    hide LowByte64, DropByte64, Word;
    var w := Load64(b);
    WordBytes(b[0], b[1], b[2], b[3], b[4], b[5], b[6], b[7], w);
    DropTwice(w);
    assert NthByte(w, 0) == b[0];
    assert NthByte(w, 1) == NthByte(w >> 8, 0) == b[1];
    assert NthByte(w, 2) == NthByte(w >> 16, 0) == b[2];
    assert NthByte(w, 3) == NthByte(w >> 8, 2) == NthByte(w >> 24, 0) == b[3];
    assert NthByte(w, 4) == NthByte(w >> 16, 2) == NthByte(w >> 32, 0) == b[4];
    assert NthByte(w, 5) == NthByte(w >> 16, 3) == NthByte(w >> 32, 1) == NthByte(w >> 40, 0) == b[5];
    assert NthByte(w, 6) == NthByte(w >> 16, 4) == NthByte(w >> 32, 2) == NthByte(w >> 48, 0) == b[6];
    assert NthByte(w, 7) == NthByte(w >> 16, 5) == NthByte(w >> 32, 3) == NthByte(w >> 48, 1)
           == NthByte(w >> 56, 0) == b[7];
  }

  lemma DropBytes(r: bv32)
    ensures Drops(r, 4) == 0
  {
    hide DropByte;
    DropFour(r);
    var r2 := DropByte(DropByte(r));
    assert Drops(r, 4) == Drops(r2, 2) == Drops(DropByte(DropByte(r2)), 0);
  }

  lemma DropFour(r: bv32)
    ensures DropByte(DropByte(DropByte(DropByte(r)))) == 0
    ensures DropByte(0) == 0
  {}

  lemma {:induction false} DropsSnoc(r: bv32, i: nat)
    ensures Drops(r, i + 1) == DropByte(Drops(r, i))
    decreases i
  {
    hide DropByte;
    if i > 0 {
      DropsSnoc(DropByte(r), i - 1);
    }
  }

  lemma {:induction false} DropsEnd(r: bv32, i: nat)
    requires i >= 4
    ensures Drops(r, i) == 0
    decreases i
  {
    hide DropByte;
    DropFour(r);
    if i == 4 {
      DropBytes(r);
    } else {
      DropsEnd(r, i - 1);
      DropsSnoc(r, i - 1);
    }
  }

  /** The table entry that byte i of an eight-byte group contributes. */
  function Slice(crc: bv32, b: seq<bv8>, i: nat): bv32
    requires i < |b|
  {
    Zeros(8 * (|b| - i), XorByte(LowByte(Drops(crc, i)), b[i]) as bv32)
  }

  lemma SliceOne(r: bv32, b: seq<bv8>, i: nat)
    requires i < |b|
    ensures Slices(Drops(r, i), b[i..]) == Xor(Slice(r, b, i), Slices(Drops(r, i + 1), b[i + 1..]))
  {
    hide Xor, Zeros, LowByte, DropByte, XorByte, Drops;
    assert b[i..][1..] == b[i + 1..];
    DropsSnoc(r, i);
  }

  lemma XorLeft(a: bv32, b: bv32, c: bv32, d: bv32, e: bv32, f: bv32, g: bv32, h: bv32)
    ensures Xor(a, Xor(b, Xor(c, Xor(d, Xor(e, Xor(f, Xor(g, h)))))))
         == Xor(Xor(Xor(Xor(Xor(Xor(Xor(a, b), c), d), e), f), g), h)
  {
    hide Xor;
    var efgh := Xor(e, Xor(f, Xor(g, h)));
    var abcd := Xor(Xor(Xor(a, b), c), d);
    XorAssoc(a, b, Xor(c, Xor(d, efgh)));
    XorAssoc(Xor(a, b), c, Xor(d, efgh));
    XorAssoc(Xor(Xor(a, b), c), d, efgh);
    XorAssoc(abcd, e, Xor(f, Xor(g, h)));
    XorAssoc(Xor(abcd, e), f, Xor(g, h));
    XorAssoc(Xor(Xor(abcd, e), f), g, h);
  }

  /** Eight message bytes at once: the sum of eight table entries. */
  lemma SliceEight(r: bv32, b: seq<bv8>)
    requires |b| == 8
    ensures Register(r, b)
         == Xor(Xor(Xor(Xor(Xor(Xor(Xor(Slice(r, b, 0), Slice(r, b, 1)), Slice(r, b, 2)), Slice(r, b, 3)),
                Slice(r, b, 4)), Slice(r, b, 5)), Slice(r, b, 6)), Slice(r, b, 7))
  {
    hide Xor, Zeros, Slices, Register, Slice;
    RegisterSlices(r, b);
    assert b[0..] == b && Drops(r, 0) == r;
    SliceOne(r, b, 0);
    SliceOne(r, b, 1);
    SliceOne(r, b, 2);
    SliceOne(r, b, 3);
    SliceOne(r, b, 4);
    SliceOne(r, b, 5);
    SliceOne(r, b, 6);
    SliceOne(r, b, 7);
    SlicesEnd(r, b);
    XorUnit(Slice(r, b, 7));
    XorLeft(Slice(r, b, 0), Slice(r, b, 1), Slice(r, b, 2), Slice(r, b, 3),
            Slice(r, b, 4), Slice(r, b, 5), Slice(r, b, 6), Slice(r, b, 7));
  }

  lemma SlicesEnd(r: bv32, b: seq<bv8>)
    requires |b| == 8
    ensures Slices(Drops(r, 8), b[8..]) == 0
  {
    DropsEnd(r, 8);
  }

  /** One table lookup advances the register over one byte. */
  method SwOne(t: array2<bv32>, crc: bv64, b: bv8, ghost r: bv32) returns (next: bv64)
    requires IsSwTable(t) && crc == Wide(r)
    ensures next == Wide(Zeros(8, Xor(r, b as bv32)))
  {
    hide Xor, Zeros, LowByte, DropByte, XorByte, LowByte64, DropByte64, ByteOf, Wide, Xor64;
    var k := LowByte64(Xor64(crc, b as bv64));
    var x := t[0, k as int];
    next := Xor64(Wide(x), DropByte64(crc));
    SwByte(r, b);
    ByteOfByte(k);
    OneByte(r, b);
    SwDrop(r, x);
  }

  /** Eight table lookups advance the register over eight bytes. */
  method SwEight(t: array2<bv32>, crc0: bv64, b: seq<bv8>, ghost r: bv32) returns (next: bv64)
    requires IsSwTable(t) && crc0 == Wide(r) && |b| == 8
    ensures next == Wide(Register(r, b))
  {
    hide Xor, Wide, Xor64, Register, Slice, NthByte, IsSwTable, Load64;
    var crc := Xor64(crc0, Load64(b));
    var x0 := SwLookup(t, crc, b, 0, r);
    var x1 := SwLookup(t, crc, b, 1, r);
    var x2 := SwLookup(t, crc, b, 2, r);
    var x3 := SwLookup(t, crc, b, 3, r);
    var x4 := SwLookup(t, crc, b, 4, r);
    var x5 := SwLookup(t, crc, b, 5, r);
    var x6 := SwLookup(t, crc, b, 6, r);
    var x7 := SwLookup(t, crc, b, 7, r);
    next := Wide(Xor(Xor(Xor(Xor(Xor(Xor(Xor(x0, x1), x2), x3), x4), x5), x6), x7));
    SliceEight(r, b);
  }

  method SwLookup(t: array2<bv32>, crc: bv64, ghost b: seq<bv8>, i: nat, ghost r: bv32) returns (x: bv32)
    requires IsSwTable(t) && |b| == 8 && i < 8 && crc == Xor64(Wide(r), Load64(b))
    ensures x == Slice(r, b, i)
  {
    hide Zeros, LowByte, XorByte, ByteOf, NthByte, Wide, Xor64, Load64, Drops;
    var k := NthByte(crc, i);
    x := t[7 - i, k as int];
    SwNth(r, Load64(b), i);
    NthOfLoad(b, i);
    ByteOfByte(k);
  }

  lemma TakeOne(buf: seq<bv8>, i: nat, crc: bv32)
    requires i < |buf|
    ensures Register(crc, buf[..i + 1]) == Zeros(8, Xor(Register(crc, buf[..i]), buf[i] as bv32))
  {
    hide Xor, Zeros, Register;
    assert buf[..i + 1] == buf[..i] + [buf[i]];
    RegisterSnoc(crc, buf[..i], buf[i]);
  }

  lemma TakeMore(buf: seq<bv8>, i: nat, j: nat, crc: bv32)
    requires i <= j <= |buf|
    ensures Register(crc, buf[..j]) == Register(Register(crc, buf[..i]), buf[i..j])
  {
    hide Register;
    assert buf[..j] == buf[..i] + buf[i..j];
    RegisterAppend(crc, buf[..i], buf[i..j]);
  }

  /** crc32c_sw on a buffer that starts at address addr. */
  method Sw(t: array2<bv32>, crci: bv32, buf: seq<bv8>, addr: nat) returns (res: bv32)
    requires IsSwTable(t)
    ensures res == Crc(crci, buf)
  {
    hide Xor, Zeros, Register, IsSwTable, Wide, Low32;
    ghost var start := Xor(crci, ONES);
    var crc := Wide(Xor(crci, ONES));
    var i := 0;
    RegisterEmpty(start, buf);
    while i < |buf| && (addr + i) % 8 != 0
      invariant 0 <= i <= |buf|
      invariant crc == Wide(Register(start, buf[..i]))
    {
      crc := SwOne(t, crc, buf[i], Register(start, buf[..i]));
      TakeOne(buf, i, start);
      i := i + 1;
    }
    while |buf| - i >= 8
      invariant 0 <= i <= |buf|
      invariant crc == Wide(Register(start, buf[..i]))
    {
      crc := SwEight(t, crc, buf[i..i + 8], Register(start, buf[..i]));
      TakeMore(buf, i, i + 8, start);
      i := i + 8;
    }
    while i < |buf|
      invariant 0 <= i <= |buf|
      invariant crc == Wide(Register(start, buf[..i]))
    {
      crc := SwOne(t, crc, buf[i], Register(start, buf[..i]));
      TakeOne(buf, i, start);
      i := i + 1;
    }
    assert buf[..i] == buf;
    WidenNarrow(Register(start, buf));
    res := Xor(Low32(crc), ONES);
  }

  lemma RegisterEmpty(crc: bv32, buf: seq<bv8>)
    ensures Register(crc, buf[..0]) == crc
  {}

  lemma WidenNarrow(x: bv32)
    ensures Low32(Wide(x)) == x
  {}

  // ----- operator tables, crc32c_zeros and crc32c_shift -----

  function PlaceByte(b: bv8, k: nat): bv32
    requires k < 4
  {
    if k == 0 then b as bv32
    else if k == 1 then (b as bv32) << 8
    else if k == 2 then (b as bv32) << 16
    else (b as bv32) << 24
  }

  /** zeros[k][n]: byte n in position k, after `bits` zero bits. */
  predicate IsZerosTable(t: array2<bv32>, bits: nat)
    reads t
  {
    t.Length0 == 4 && t.Length1 == 256
    && forall k, n :: 0 <= k < 4 && 0 <= n < 256 ==> t[k, n] == Zeros(bits, PlaceByte(ByteOf(n), k))
  }

  method InitZeros(t: array2<bv32>, len: nat)
    requires t.Length0 == 4 && t.Length1 == 256
    modifies t
    ensures IsZerosTable(t, 8 * PowerFloor(len))
  {
    hide Zeros, ByteOf, PlaceByte, PowerFloor, IsZerosOp, MatMul, RowsCover;
    var op := new bv32[32];
    ZerosOp(op, len);
    ghost var bits := 8 * PowerFloor(len);
    IsZerosOpSize(op[..], bits);
    for n := 0 to 256
      invariant IsZerosOp(op[..], bits)
      invariant forall k, m :: 0 <= k < 4 && 0 <= m < n ==> t[k, m] == Zeros(bits, PlaceByte(ByteOf(m), k))
    {
      var x0 := OpTimes(op, bits, PlaceByte(ByteOf(n), 0));
      var x1 := OpTimes(op, bits, PlaceByte(ByteOf(n), 1));
      var x2 := OpTimes(op, bits, PlaceByte(ByteOf(n), 2));
      var x3 := OpTimes(op, bits, PlaceByte(ByteOf(n), 3));
      t[0, n] := x0;
      t[1, n] := x1;
      t[2, n] := x2;
      t[3, n] := x3;
    }
  }

  lemma IsZerosOpSize(op: seq<bv32>, bits: nat)
    requires IsZerosOp(op, bits)
    ensures |op| == 32
  {}

  method OpTimes(op: array<bv32>, ghost bits: nat, v: bv32) returns (x: bv32)
    requires IsZerosOp(op[..], bits)
    ensures x == Zeros(bits, v)
  {
    RowsCoverAll(v);
    x := MatrixTimes(op, v);
    TimesRunsZeros(op[..], bits, v);
  }

  /** Applies an operator table byte by byte. */
  function Shift(t: array2<bv32>, crc: bv32): bv32
    requires t.Length0 == 4 && t.Length1 == 256
    reads t
  {
    Xor(Xor(Xor(
      t[0, LowByte(crc) as int],
      t[1, LowByte(DropByte(crc)) as int]),
      t[2, LowByte(DropByte(DropByte(crc))) as int]),
      t[3, LowByte(DropByte(DropByte(DropByte(crc)))) as int])
  }

  lemma Assemble(x: bv32, b0: bv8, b1: bv8, b2: bv8, b3: bv8)
    requires b0 == LowByte(x) && b1 == LowByte(DropByte(x))
    requires b2 == LowByte(DropByte(DropByte(x))) && b3 == LowByte(DropByte(DropByte(DropByte(x))))
    ensures x == Xor(Xor(Xor(PlaceByte(b0, 0), PlaceByte(b1, 1)), PlaceByte(b2, 2)), PlaceByte(b3, 3))
  {}

  /** crc32c_shift maps any register value to its value after that many zero bits. */
  lemma ShiftRunsZeros(t: array2<bv32>, bits: nat, crc: bv32)
    requires IsZerosTable(t, bits)
    ensures Shift(t, crc) == Zeros(bits, crc)
  {
    hide Xor, Zeros, LowByte, DropByte, ByteOf, PlaceByte;
    var b0, b1 := LowByte(crc), LowByte(DropByte(crc));
    var b2, b3 := LowByte(DropByte(DropByte(crc))), LowByte(DropByte(DropByte(DropByte(crc))));
    ByteOfByte(b0);
    ByteOfByte(b1);
    ByteOfByte(b2);
    ByteOfByte(b3);
    Assemble(crc, b0, b1, b2, b3);
    var x01 := Xor(PlaceByte(b0, 0), PlaceByte(b1, 1));
    ZerosXor(bits, PlaceByte(b0, 0), PlaceByte(b1, 1));
    ZerosXor(bits, x01, PlaceByte(b2, 2));
    ZerosXor(bits, Xor(x01, PlaceByte(b2, 2)), PlaceByte(b3, 3));
  }

  // ----- the crc32 instruction -----

  /** crc32b: eight bitwise steps; the upper half of the register is ignored and cleared. */
  function Crc32b(crc: bv64, b: bv8): bv64 {
    Wide(FeedBits(Low32(crc), b as bv64, 8))
  }

  /** crc32q: sixty-four bitwise steps. */
  function Crc32q(crc: bv64, w: bv64): bv64 {
    Wide(FeedBits(Low32(crc), w, 64))
  }

  function DropMany(w: bv64, m: nat): bv64
    decreases m
  {
    if m == 0 then w else DropMany(DropBit(w), m - 1)
  }

  predicate Agree(w: bv64, v: bv64, n: nat)
    decreases n
  {
    n == 0 || (LowBit(w) == LowBit(v) && Agree(DropBit(w), DropBit(v), n - 1))
  }

  lemma {:induction false} FeedAgree(crc: bv32, w: bv64, v: bv64, n: nat)
    requires Agree(w, v, n)
    ensures FeedBits(crc, w, n) == FeedBits(crc, v, n)
    decreases n
  {
    hide LowBit, DropBit, FeedBit;
    if n > 0 {
      FeedAgree(FeedBit(crc, LowBit(w)), DropBit(w), DropBit(v), n - 1);
    }
  }

  lemma {:induction false} FeedDrop(crc: bv32, w: bv64, m: nat, n: nat)
    ensures FeedBits(crc, w, m + n) == FeedBits(FeedBits(crc, w, m), DropMany(w, m), n)
    decreases m
  {
    hide LowBit, DropBit, FeedBit;
    if m > 0 {
      FeedDrop(FeedBit(crc, LowBit(w)), DropBit(w), m - 1, n);
    }
  }

  lemma DropEight(w: bv64)
    ensures DropMany(w, 8) == DropByte64(w)
  {
    hide DropBit, DropByte64;
    DropEightRaw(w);
    var w2 := DropBit(DropBit(w));
    var w4 := DropBit(DropBit(w2));
    var w6 := DropBit(DropBit(w4));
    assert DropMany(w, 8) == DropMany(w2, 6) == DropMany(w4, 4) == DropMany(w6, 2) == DropMany(DropBit(DropBit(w6)), 0);
  }

  lemma DropEightRaw(w: bv64)
    ensures DropBit(DropBit(DropBit(DropBit(DropBit(DropBit(DropBit(DropBit(w)))))))) == DropByte64(w)
  {}

  lemma KeepBit(w: bv64, m: bv64)
    requires m & 1 == 1
    ensures LowBit(w & m) == LowBit(w)
    ensures DropBit(w & m) == DropBit(w) & DropBit(m)
  {}

  lemma Masks()
    ensures DropBit(0xff) == 0x7f && DropBit(0x7f) == 0x3f && DropBit(0x3f) == 0x1f && DropBit(0x1f) == 0xf
    ensures DropBit(0xf) == 7 && DropBit(7) == 3 && DropBit(3) == 1
  {}

  lemma AgreeMask(w: bv64, m: bv64, n: nat)
    requires n > 0 && m & 1 == 1
    requires Agree(DropBit(w), DropBit(w) & DropBit(m), n - 1)
    ensures Agree(w, w & m, n)
  {
    hide LowBit, DropBit;
    KeepBit(w, m);
  }

  lemma AgreeByte(w: bv64)
    ensures Agree(w, w & 0xff, 8)
  {
    hide LowBit, DropBit, Agree;
    Masks();
    var w1 := DropBit(w);
    var w2 := DropBit(w1);
    var w3 := DropBit(w2);
    var w4 := DropBit(w3);
    var w5 := DropBit(w4);
    var w6 := DropBit(w5);
    var w7 := DropBit(w6);
    AgreeNone(DropBit(w7), DropBit(w7) & DropBit(1));
    AgreeMask(w7, 1, 1);
    AgreeMask(w6, 3, 2);
    AgreeMask(w5, 7, 3);
    AgreeMask(w4, 0xf, 4);
    AgreeMask(w3, 0x1f, 5);
    AgreeMask(w2, 0x3f, 6);
    AgreeMask(w1, 0x7f, 7);
    AgreeMask(w, 0xff, 8);
  }

  lemma AgreeNone(w: bv64, v: bv64)
    ensures Agree(w, v, 0)
  {}

  lemma LowByteWide(w: bv64)
    ensures LowByte64(w) as bv64 == w & 0xff
  {}

  lemma FeedSplit(crc: bv32, w: bv64, n: nat)
    ensures FeedBits(crc, w, 8 + n) == FeedBits(FeedBits(crc, LowByte64(w) as bv64, 8), DropByte64(w), n)
  {
    hide FeedBits, DropMany, DropByte64, LowByte64;
    FeedDrop(crc, w, 8, n);
    DropEight(w);
    AgreeByte(w);
    LowByteWide(w);
    FeedAgree(crc, w, w & 0xff, 8);
  }

  function BytesOf(w: bv64, k: nat): seq<bv8> {
    seq(k, i requires 0 <= i => NthByte(w, i))
  }

  lemma {:induction false} FeedBytes(crc: bv32, w: bv64, k: nat)
    ensures FeedBits(crc, w, 8 * k) == Register(crc, BytesOf(w, k))
    decreases k
  {
    hide FeedBits, LowByte64, DropByte64, Register;
    if k == 0 {
      FeedNone(crc, w);
      assert BytesOf(w, 0) == [];
      RegisterNone(crc);
    } else {
      var b := LowByte64(w);
      FeedSplit(crc, w, 8 * (k - 1));
      FeedBytes(FeedBits(crc, b as bv64, 8), DropByte64(w), k - 1);
      FeedByte(crc, b);
      RegisterCons(crc, b, BytesOf(DropByte64(w), k - 1));
      assert BytesOf(w, k) == [b] + BytesOf(DropByte64(w), k - 1);
    }
  }

  lemma RegisterNone(crc: bv32)
    ensures Register(crc, []) == crc
  {}

  lemma FeedNone(crc: bv32, w: bv64)
    ensures FeedBits(crc, w, 0) == crc
  {}

  lemma Crc32qIsRegister(r: bv32, b: seq<bv8>)
    requires |b| == 8
    ensures Crc32q(Wide(r), Load64(b)) == Wide(Register(r, b))
  {
    hide FeedBits, Register, Wide, Low32, NthByte, Load64;
    WidenNarrow(r);
    FeedBytes(r, Load64(b), 8);
    forall i | 0 <= i < 8
      ensures BytesOf(Load64(b), 8)[i] == b[i]
    {
      NthOfLoad(b, i);
    }
    assert BytesOf(Load64(b), 8) == b;
  }

  lemma Crc32bIsRegister(r: bv32, b: bv8)
    ensures Crc32b(Wide(r), b) == Wide(Zeros(8, Xor(r, b as bv32)))
  {
    hide FeedBits, Wide, Low32, Zeros, Xor;
    WidenNarrow(r);
    FeedByte(r, b);
  }

  // ----- crc32c_hw -----

  lemma RangeMore(buf: seq<bv8>, s: nat, i: nat, j: nat, crc: bv32)
    requires s <= i <= j <= |buf|
    ensures Register(crc, buf[s..j]) == Register(Register(crc, buf[s..i]), buf[i..j])
  {
    hide Register;
    assert buf[s..j] == buf[s..i] + buf[i..j];
    RegisterAppend(crc, buf[s..i], buf[i..j]);
  }

  lemma RangeEmpty(buf: seq<bv8>, s: nat, crc: bv32)
    requires s <= |buf|
    ensures Register(crc, buf[s..s]) == crc
  {}

  /** One crc32q on the word at i, extending the part of buf from s on. */
  method HwWord(buf: seq<bv8>, ghost s: nat, i: nat, crc: bv64, ghost r: bv32) returns (next: bv64)
    requires s <= i && i + 8 <= |buf|
    requires crc == Wide(Register(r, buf[s..i]))
    ensures next == Wide(Register(r, buf[s..i + 8]))
  {
    hide Register, Wide, Load64;
    next := Crc32q(crc, Load64(buf[i..i + 8]));
    Crc32qIsRegister(Register(r, buf[s..i]), buf[i..i + 8]);
    RangeMore(buf, s, i, i + 8, r);
  }

  /** A block of three interleaved streams of len bytes each, joined by two table shifts. */
  method HwBlock(t: array2<bv32>, buf: seq<bv8>, start: nat, len: nat, crc: bv64, ghost r: bv32) returns (next: bv64)
    requires start + 3 * len <= |buf| && len > 0 && len % 8 == 0
    requires IsZerosTable(t, 8 * len) && crc == Wide(r)
    ensures next == Wide(Register(r, buf[start..start + 3 * len]))
  {
    hide Register, Wide, Xor, Low32, Zeros, IsZerosTable;
    var crc0, crc1, crc2 := crc, Wide(0), Wide(0);
    var i := 0;
    RangeEmpty(buf, start, r);
    RangeEmpty(buf, start + len, 0);
    RangeEmpty(buf, start + 2 * len, 0);
    while i < len
      invariant 0 <= i <= len && i % 8 == 0
      invariant crc0 == Wide(Register(r, buf[start..start + i]))
      invariant crc1 == Wide(Register(0, buf[start + len..start + len + i]))
      invariant crc2 == Wide(Register(0, buf[start + 2 * len..start + 2 * len + i]))
    {
      crc0 := HwWord(buf, start, start + i, crc0, r);
      crc1 := HwWord(buf, start + len, start + len + i, crc1, 0);
      crc2 := HwWord(buf, start + 2 * len, start + 2 * len + i, crc2, 0);
      i := i + 8;
    }
    ghost var a, b, c := buf[start..start + len], buf[start + len..start + 2 * len],
      buf[start + 2 * len..start + 3 * len];
    crc0 := HwJoin(t, crc0, crc1, len, Register(r, a), Register(0, b));
    crc0 := HwJoin(t, crc0, crc2, len, Xor(Zeros(8 * len, Register(r, a)), Register(0, b)), Register(0, c));
    next := crc0;
    JoinThree(r, a, b, c);
    assert buf[start..start + 3 * len] == a + b + c;
  }

  method HwJoin(t: array2<bv32>, x: bv64, y: bv64, ghost len: nat, ghost rx: bv32, ghost ry: bv32) returns (z: bv64)
    requires IsZerosTable(t, 8 * len) && x == Wide(rx) && y == Wide(ry)
    ensures z == Wide(Xor(Zeros(8 * len, rx), ry))
  {
    hide Wide, Xor, Xor64, Low32, Zeros, Shift;
    z := Xor64(Wide(Shift(t, Low32(x))), y);
    WidenNarrow(rx);
    ShiftRunsZeros(t, 8 * len, rx);
    XorWide(Zeros(8 * len, rx), ry);
  }

  /** crc32c_hw on a buffer that starts at address addr. */
  method Hw(long: array2<bv32>, short: array2<bv32>, crci: bv32, buf: seq<bv8>, addr: nat) returns (res: bv32)
    requires IsZerosTable(long, 8 * LONG) && IsZerosTable(short, 8 * SHORT)
    ensures res == Crc(crci, buf)
  {
    hide Xor, Zeros, Register, IsZerosTable, Wide, Low32, Crc32b;
    ghost var start := Xor(crci, ONES);
    var crc0 := Wide(Xor(crci, ONES));
    var i := 0;
    RegisterEmpty(start, buf);
    while i < |buf| && (addr + i) % 8 != 0
      invariant 0 <= i <= |buf|
      invariant crc0 == Wide(Register(start, buf[..i]))
    {
      crc0 := HwByte(buf, i, crc0, start);
      i := i + 1;
    }
    while |buf| - i >= LONG * 3
      invariant 0 <= i <= |buf|
      invariant crc0 == Wide(Register(start, buf[..i]))
    {
      crc0 := HwBlock(long, buf, i, LONG, crc0, Register(start, buf[..i]));
      TakeMore(buf, i, i + LONG * 3, start);
      i := i + LONG * 3;
    }
    while |buf| - i >= SHORT * 3
      invariant 0 <= i <= |buf|
      invariant crc0 == Wide(Register(start, buf[..i]))
    {
      crc0 := HwBlock(short, buf, i, SHORT, crc0, Register(start, buf[..i]));
      TakeMore(buf, i, i + SHORT * 3, start);
      i := i + SHORT * 3;
    }
    var end := i + (|buf| - i) / 8 * 8;
    while i < end
      invariant 0 <= i <= end <= |buf| && (end - i) % 8 == 0
      invariant crc0 == Wide(Register(start, buf[..i]))
    {
      assert buf[0..i] == buf[..i] && buf[0..i + 8] == buf[..i + 8];
      crc0 := HwWord(buf, 0, i, crc0, start);
      i := i + 8;
    }
    while i < |buf|
      invariant 0 <= i <= |buf|
      invariant crc0 == Wide(Register(start, buf[..i]))
    {
      crc0 := HwByte(buf, i, crc0, start);
      i := i + 1;
    }
    assert buf[..i] == buf;
    WidenNarrow(Register(start, buf));
    res := Xor(Low32(crc0), ONES);
  }

  method HwByte(buf: seq<bv8>, i: nat, crc: bv64, ghost start: bv32) returns (next: bv64)
    requires i < |buf| && crc == Wide(Register(start, buf[..i]))
    ensures next == Wide(Register(start, buf[..i + 1]))
  {
    hide Xor, Zeros, Register, Wide, Crc32b;
    next := Crc32b(crc, buf[i]);
    Crc32bIsRegister(Register(start, buf[..i]), buf[i]);
    TakeOne(buf, i, start);
  }

  /** crc32c_init_hw: LONG and SHORT are powers of two, so their tables shift by exactly that many bytes. */
  method InitHw(long: array2<bv32>, short: array2<bv32>)
    requires long != short
    requires long.Length0 == 4 && long.Length1 == 256 && short.Length0 == 4 && short.Length1 == 256
    modifies long, short
    ensures IsZerosTable(long, 8 * LONG) && IsZerosTable(short, 8 * SHORT)
  {
    hide IsZerosTable, PowerFloor;
    assert IsPowerOfTwo(SHORT) && IsPowerOfTwo(LONG);
    PowerFloorIsLargest(LONG);
    PowerFloorIsLargest(SHORT);
    InitZeros(long, LONG);
    InitZeros(short, SHORT);
  }
}
