/**
  What the register computes: the remainder of the message, as a polynomial over the
  field of two elements, modulo the polynomial of section 12.1 of RFC 3720.
 */
module Crc32cPoly {
  import opened Crc32cSpec
  import opened Gf2

  /** A polynomial is the set of the exponents whose coefficient is one. */
  type Poly = set<nat>

  /**
    x^32 + x^28 + x^27 + x^26 + x^25 + x^23 + x^22 + x^20 + x^19 + x^18 + x^14 + x^13
    + x^11 + x^10 + x^9 + x^8 + x^6 + 1
   */
  const CASTAGNOLI: Poly := {32, 28, 27, 26, 25, 23, 22, 20, 19, 18, 14, 13, 11, 10, 9, 8, 6, 0}

  function Add(p: Poly, q: Poly): Poly {
    (p - q) + (q - p)
  }

  /** p times x^k. */
  function Shift(p: Poly, k: nat): Poly {
    set e | e in p :: e + k
  }

  lemma InAdd(p: Poly, q: Poly, e: nat)
    ensures e in Add(p, q) <==> (e in p) != (e in q)
  {}

  lemma InShift(p: Poly, k: nat, e: nat)
    ensures e in Shift(p, k) <==> e >= k && e - k in p
  {
    if e >= k && e - k in p {
      assert (e - k) + k == e;
    }
  }

  lemma AddAssoc(p: Poly, q: Poly, r: Poly)
    ensures Add(Add(p, q), r) == Add(p, Add(q, r))
  {}

  lemma AddComm(p: Poly, q: Poly)
    ensures Add(p, q) == Add(q, p)
  {}

  lemma AddSelf(p: Poly)
    ensures Add(p, p) == {} && Add(p, {}) == p && Add({}, p) == p
  {}

  lemma ShiftAdd(p: Poly, q: Poly, k: nat)
    ensures Shift(Add(p, q), k) == Add(Shift(p, k), Shift(q, k))
  {
    hide Add, Shift;
    forall e: nat
      ensures e in Shift(Add(p, q), k) <==> e in Add(Shift(p, k), Shift(q, k))
    {
      InShift(p, k, e);
      InShift(q, k, e);
      InShift(Add(p, q), k, e);
      InAdd(Shift(p, k), Shift(q, k), e);
      if e >= k {
        InAdd(p, q, e - k);
      }
    }
  }

  lemma ShiftShift(p: Poly, j: nat, k: nat)
    ensures Shift(Shift(p, j), k) == Shift(p, j + k)
  {
    hide Shift;
    forall e: nat
      ensures e in Shift(Shift(p, j), k) <==> e in Shift(p, j + k)
    {
      InShift(p, j + k, e);
      InShift(Shift(p, j), k, e);
      if e >= k {
        InShift(p, j, e - k);
      }
    }
  }

  // ----- multiples -----

  /** The sum of the polynomial times x^q for every q of the list: any multiple of it is such a sum. */
  function Sum(qs: seq<nat>): Poly {
    if qs == [] then {} else Add(Shift(CASTAGNOLI, qs[0]), Sum(qs[1..]))
  }

  /** p and q leave the same remainder. */
  ghost predicate Congruent(p: Poly, q: Poly) {
    exists qs :: Add(p, q) == Sum(qs)
  }

  lemma {:induction false} SumAppend(cs: seq<nat>, bs: seq<nat>)
    ensures Sum(cs + bs) == Add(Sum(cs), Sum(bs))
  {
    hide Add, Shift;
    if cs == [] {
      assert cs + bs == bs;
      AddSelf(Sum(bs));
    } else {
      assert (cs + bs)[1..] == cs[1..] + bs;
      SumAppend(cs[1..], bs);
      AddAssoc(Shift(CASTAGNOLI, cs[0]), Sum(cs[1..]), Sum(bs));
    }
  }

  function Raised(qs: seq<nat>, k: nat): (rs: seq<nat>)
    ensures |rs| == |qs|
  {
    if qs == [] then [] else [qs[0] + k] + Raised(qs[1..], k)
  }

  lemma {:induction false} SumShift(qs: seq<nat>, k: nat)
    ensures Shift(Sum(qs), k) == Sum(Raised(qs, k))
  {
    if qs != [] {
      hide Add, Shift;
      SumShift(qs[1..], k);
      ShiftAdd(Shift(CASTAGNOLI, qs[0]), Sum(qs[1..]), k);
      ShiftShift(CASTAGNOLI, qs[0], k);
      assert Raised(qs, k)[1..] == Raised(qs[1..], k);
    }
  }

  lemma CongruentShift(p: Poly, q: Poly, k: nat)
    requires Congruent(p, q)
    ensures Congruent(Shift(p, k), Shift(q, k))
  {
    hide Add, Shift;
    var qs :| Add(p, q) == Sum(qs);
    ShiftAdd(p, q, k);
    SumShift(qs, k);
  }

  lemma CongruentAdd(p: Poly, q: Poly, r: Poly)
    requires Congruent(p, q)
    ensures Congruent(Add(p, r), Add(q, r))
  {
    var qs :| Add(p, q) == Sum(qs);
    assert Add(Add(p, r), Add(q, r)) == Add(p, q);
  }

  lemma CongruentTrans(p: Poly, q: Poly, r: Poly)
    requires Congruent(p, q) && Congruent(q, r)
    ensures Congruent(p, r)
  {
    var cs :| Add(p, q) == Sum(cs);
    var bs :| Add(q, r) == Sum(bs);
    SumAppend(cs, bs);
    assert Add(p, r) == Add(Add(p, q), Add(q, r));
  }

  // ----- the register as a polynomial -----

  predicate Bit(x: bv32, i: nat) {
    if i == 0 then Bit0(x) == 1 else Bit(Half(x), i - 1)
  }

  /** The register holds the coefficient of x^31 in its lowest bit. */
  function Of(x: bv32): Poly {
    set i: nat | i < 32 && Bit(x, i) :: 31 - i
  }

  lemma InOf(x: bv32, e: nat)
    ensures e in Of(x) <==> e < 32 && Bit(x, 31 - e)
  {
    if e < 32 && Bit(x, 31 - e) {
      assert 31 - (31 - e) == e;
    }
  }

  lemma HalfXor(x: bv32, y: bv32)
    ensures Half(Xor(x, y)) == Xor(Half(x), Half(y)) && Bit0(Xor(x, y)) == Xor(Bit0(x), Bit0(y))
    ensures Bit0(x) == 0 || Bit0(x) == 1
  {}

  lemma {:induction false} BitOfXor(x: bv32, y: bv32, i: nat)
    ensures Bit(Xor(x, y), i) <==> Bit(x, i) != Bit(y, i)
    decreases i
  {
    hide Xor, Half, Bit0;
    HalfXor(x, y);
    HalfXor(y, x);
    XorOfBits();
    if i > 0 {
      BitOfXor(Half(x), Half(y), i - 1);
    }
  }

  lemma {:induction false} CoveredBits(x: bv32, i: nat)
    requires RowsCover(x, i)
    ensures !Bit(x, i)
    decreases i
  {
    hide Half, Bit0;
    if i == 0 {
      ZeroBit();
    } else {
      CoveredBits(Half(x), i - 1);
    }
  }

  lemma ZeroBit()
    ensures Bit0(0) == 0
  {}

  /** The constant of the source is the polynomial without its leading term. */
  lemma PolyIs(e: nat)
    ensures e in CASTAGNOLI <==> e in Of(POLY) || e == 32
  {
    hide Of;
    InOf(POLY, e);
    if e < 32 {
      PolyBits(31 - e);
    }
  }

  lemma BitByte(x: bv32, i: nat)
    ensures Bit(x, i + 8) == Bit(x >> 8, i)
  {
    hide Half, Bit0;
    HalvesByte(x);
    var x2 := Half(Half(x));
    var x4 := Half(Half(x2));
    var x6 := Half(Half(x4));
    assert Bit(x, i + 8) == Bit(x2, i + 6);
    assert Bit(x2, i + 6) == Bit(x4, i + 4);
    assert Bit(x4, i + 4) == Bit(x6, i + 2);
    assert Bit(x6, i + 2) == Bit(Half(Half(x6)), i);
  }

  lemma HalvesByte(x: bv32)
    ensures Half(Half(Half(Half(Half(Half(Half(Half(x)))))))) == x >> 8
  {}

  /** The bits of a byte of the constant. */
  lemma ByteBits()
    ensures !Bit(0x82f63b78, 0) && !Bit(0x82f63b78, 1) && !Bit(0x82f63b78, 2) && Bit(0x82f63b78, 3)
    ensures Bit(0x82f63b78, 4) && Bit(0x82f63b78, 5) && Bit(0x82f63b78, 6) && !Bit(0x82f63b78, 7)
    ensures Bit(0x82f63b, 0) && Bit(0x82f63b, 1) && !Bit(0x82f63b, 2) && Bit(0x82f63b, 3)
    ensures Bit(0x82f63b, 4) && Bit(0x82f63b, 5) && !Bit(0x82f63b, 6) && !Bit(0x82f63b, 7)
    ensures !Bit(0x82f6, 0) && Bit(0x82f6, 1) && Bit(0x82f6, 2) && !Bit(0x82f6, 3)
    ensures Bit(0x82f6, 4) && Bit(0x82f6, 5) && Bit(0x82f6, 6) && Bit(0x82f6, 7)
    ensures !Bit(0x82, 0) && Bit(0x82, 1) && !Bit(0x82, 2) && !Bit(0x82, 3)
    ensures !Bit(0x82, 4) && !Bit(0x82, 5) && !Bit(0x82, 6) && Bit(0x82, 7)
  {}

  lemma PolyShifts()
    ensures POLY >> 8 == 0x82f63b && (0x82f63b as bv32) >> 8 == 0x82f6 && (0x82f6 as bv32) >> 8 == 0x82
  {}

  lemma PolyBits(i: nat)
    requires i < 32
    ensures Bit(POLY, i) <==> 31 - i in CASTAGNOLI
  {
    hide Bit;
    ByteBits();
    PolyShifts();
    if i >= 8 {
      BitByte(POLY, i - 8);
    }
    if i >= 16 {
      BitByte(0x82f63b, i - 16);
    }
    if i >= 24 {
      BitByte(0x82f6, i - 24);
    }
  }

  lemma StepBits(x: bv32)
    ensures Step(x) == if Bit0(x) == 1 then Xor(Half(x), POLY) else Half(x)
  {}

  /** One zero bit multiplies by x and takes the polynomial away if the result has degree 32. */
  lemma StepIs(x: bv32)
    ensures Add(Of(Step(x)), Shift(Of(x), 1)) == if Bit(x, 0) then CASTAGNOLI else {}
  {
    hide Xor, Step, Half, Of, Shift, Add;
    StepBits(x);
    RowsCoverAll(x);
    CoveredBits(x, 32);
    forall e: nat
      ensures e in Add(Of(Step(x)), Shift(Of(x), 1)) <==> Bit(x, 0) && e in CASTAGNOLI
    {
      StepIn(x, e);
    }
  }

  lemma StepIn(x: bv32, e: nat)
    requires !Bit(x, 32)
    ensures e in Add(Of(Step(x)), Shift(Of(x), 1)) <==> Bit(x, 0) && e in CASTAGNOLI
  {
    hide Xor, Step, Half, Of, Shift, Add, Bit;
    StepBits(x);
    BitFirst(x);
    PolyIs(e);
    InAdd(Of(Step(x)), Shift(Of(x), 1), e);
    InShift(Of(x), 1, e);
    InOf(Step(x), e);
    InOf(POLY, e);
    if e >= 1 {
      InOf(x, e - 1);
    }
    if e < 32 {
      BitOfXor(Half(x), POLY, 31 - e);
      BitNext(x, 31 - e);
    }
  }

  lemma BitFirst(x: bv32)
    ensures Bit(x, 0) <==> Bit0(x) == 1
  {}

  lemma BitNext(x: bv32, i: nat)
    ensures Bit(x, i + 1) == Bit(Half(x), i)
  {}

  // ----- messages -----

  /** The coefficient of a bit that is sent when k more bits follow. */
  function Term(bit: bv32, k: nat): Poly {
    if bit == 1 then {k} else {}
  }

  /** The n low bits of w, of which the lowest is sent first and has the highest exponent. */
  function Word(w: bv64, n: nat): Poly
    decreases n
  {
    if n == 0 then {} else Add(Term(LowBit(w), n - 1), Word(DropBit(w), n - 1))
  }

  /** The bytes in the order in which they are sent. */
  function Message(msg: seq<bv8>): Poly {
    if msg == [] then {} else Add(Shift(Message(msg[..|msg| - 1]), 8), Word(msg[|msg| - 1] as bv64, 8))
  }

  lemma {:induction false} ZeroBits(i: nat)
    ensures !Bit(0, i)
  {
    if i > 0 {
      assert Half(0) == 0;
      ZeroBits(i - 1);
    }
  }

  lemma OneBits(i: nat)
    ensures Bit(1, i) <==> i == 0
  {
    if i > 0 {
      assert Half(1) == 0;
      ZeroBits(i - 1);
    }
  }

  /** A message bit is added at x^31. */
  lemma BitAdded(crc: bv32, bit: bv32)
    requires bit == 0 || bit == 1
    ensures Of(Xor(crc, bit)) == Add(Of(crc), Term(bit, 31))
  {
    hide Xor, Of, Add, Bit;
    forall e: nat
      ensures e in Of(Xor(crc, bit)) <==> e in Add(Of(crc), Term(bit, 31))
    {
      InOf(Xor(crc, bit), e);
      InOf(crc, e);
      InAdd(Of(crc), Term(bit, 31), e);
      if e < 32 {
        BitOfXor(crc, bit, 31 - e);
        OneBits(31 - e);
        ZeroBits(31 - e);
      }
    }
  }

  lemma TermShift(bit: bv32, j: nat, k: nat)
    ensures Shift(Term(bit, j), k) == Term(bit, j + k)
  {}

  lemma SumOne()
    ensures Sum([0]) == CASTAGNOLI && Sum([]) == {}
  {
    assert Shift(CASTAGNOLI, 0) == CASTAGNOLI;
    AddSelf(CASTAGNOLI);
  }

  lemma FeedBitIs(crc: bv32, bit: bv32)
    requires bit == 0 || bit == 1
    ensures Congruent(Of(FeedBit(crc, bit)), Add(Shift(Of(crc), 1), Term(bit, 32)))
  {
    hide Xor, Step, Of, Add, Shift, Bit, Sum, Term;
    var x := Xor(crc, bit);
    StepIs(x);
    BitAdded(crc, bit);
    ShiftAdd(Of(crc), Term(bit, 31), 1);
    TermShift(bit, 31, 1);
    SumOne();
    assert Add(Of(Step(x)), Shift(Of(x), 1)) == Sum(if Bit(x, 0) then [0] else []);
  }

  lemma LowBitIs(w: bv64)
    ensures LowBit(w) == 0 || LowBit(w) == 1
  {}

  lemma {:induction false} FeedBitsIs(crc: bv32, w: bv64, n: nat)
    ensures Congruent(Of(FeedBits(crc, w, n)), Add(Shift(Of(crc), n), Shift(Word(w, n), 32)))
    decreases n
  {
    hide FeedBit, LowBit, DropBit, Of, Add, Shift, Congruent, Term;
    if n == 0 {
      NothingFed(Of(crc));
    } else {
      var bit, rest := LowBit(w), DropBit(w);
      var c := FeedBit(crc, bit);
      LowBitIs(w);
      FeedBitIs(crc, bit);
      FeedBitsIs(c, rest, n - 1);
      FeedOne(Of(crc), Of(c), bit, Word(rest, n - 1), n);
      CongruentTrans(Of(FeedBits(c, rest, n - 1)), Add(Shift(Of(c), n - 1), Shift(Word(rest, n - 1), 32)),
                     Add(Shift(Of(crc), n), Shift(Word(w, n), 32)));
    }
  }

  lemma NothingFed(p: Poly)
    ensures Congruent(p, Add(Shift(p, 0), Shift({}, 32)))
  {
    assert Shift(p, 0) == p && Shift({}, 32) == {};
    assert Add(p, Add(p, {})) == Sum([]);
  }

  lemma FeedOne(p: Poly, q: Poly, bit: bv32, rest: Poly, n: nat)
    requires n > 0 && Congruent(q, Add(Shift(p, 1), Term(bit, 32)))
    ensures Congruent(Add(Shift(q, n - 1), Shift(rest, 32)), Add(Shift(p, n), Shift(Add(Term(bit, n - 1), rest), 32)))
  {
    hide Add, Shift, Congruent, Term;
    CongruentShift(q, Add(Shift(p, 1), Term(bit, 32)), n - 1);
    ShiftAdd(Shift(p, 1), Term(bit, 32), n - 1);
    ShiftShift(p, 1, n - 1);
    TermShift(bit, 32, n - 1);
    TermShift(bit, n - 1, 32);
    CongruentAdd(Shift(q, n - 1), Add(Shift(p, n), Term(bit, n + 31)), Shift(rest, 32));
    AddAssoc(Shift(p, n), Term(bit, n + 31), Shift(rest, 32));
    ShiftAdd(Term(bit, n - 1), rest, 32);
  }

  /** What stands in front of a message of n bits, shifted out of its way, and the message shifted by 32. */
  function Dividend(start: bv32, msg: seq<bv8>): Poly {
    Add(Shift(Of(start), 8 * |msg|), Shift(Message(msg), 32))
  }

  lemma {:induction false} RegisterIs(crc: bv32, msg: seq<bv8>)
    ensures Congruent(Of(Register(crc, msg)), Dividend(crc, msg))
  {
    hide FeedBits, Of, Add, Shift, Congruent, Word;
    if msg == [] {
      NothingFed(Of(crc));
    } else {
      var front, b := msg[..|msg| - 1], msg[|msg| - 1];
      var r := Register(crc, front);
      RegisterIs(crc, front);
      FeedBitsIs(r, b as bv64, 8);
      CongruentShift(Of(r), Dividend(crc, front), 8);
      CongruentAdd(Shift(Of(r), 8), Shift(Dividend(crc, front), 8), Shift(Word(b as bv64, 8), 32));
      OneByteMore(Of(crc), 8 * |front|, Message(front), Word(b as bv64, 8));
      CongruentTrans(Of(FeedBits(r, b as bv64, 8)), Add(Shift(Of(r), 8), Shift(Word(b as bv64, 8), 32)),
                     Dividend(crc, msg));
    }
  }

  lemma OneByteMore(p: Poly, k: nat, m: Poly, b: Poly)
    ensures Add(Shift(Add(Shift(p, k), Shift(m, 32)), 8), Shift(b, 32))
         == Add(Shift(p, k + 8), Shift(Add(Shift(m, 8), b), 32))
  {
    hide Add, Shift;
    ShiftAdd(Shift(p, k), Shift(m, 32), 8);
    ShiftShift(p, k, 8);
    ShiftShift(m, 32, 8);
    ShiftShift(m, 8, 32);
    ShiftAdd(Shift(m, 8), b, 32);
    AddAssoc(Shift(p, k + 8), Shift(m, 40), Shift(b, 32));
  }

  // ----- the remainder is unique -----

  /** The polynomial times the terms of q below x^n. */
  function Product(q: Poly, n: nat): Poly {
    if n == 0 then {}
    else Add(if n - 1 in q then Shift(CASTAGNOLI, n - 1) else {}, Product(q, n - 1))
  }

  /** One more term, or one term less. */
  lemma {:induction false} ProductToggle(q: Poly, e: nat, n: nat)
    ensures Product(Add(q, {e}), n) == if e < n then Add(Shift(CASTAGNOLI, e), Product(q, n)) else Product(q, n)
  {
    hide Shift, Add;
    if n > 0 {
      var p, r := Shift(CASTAGNOLI, e), Product(q, n - 1);
      InAdd(q, {e}, n - 1);
      ProductToggle(q, e, n - 1);
      AddSelf(r);
      AddSelf(p);
      AddAssoc(p, p, r);
      AddSelf(Add(p, r));
      if e < n - 1 && n - 1 in q {
        AddAssoc(Shift(CASTAGNOLI, n - 1), p, r);
        AddAssoc(p, Shift(CASTAGNOLI, n - 1), r);
        AddComm(p, Shift(CASTAGNOLI, n - 1));
      }
    }
  }

  /** A sum is a product. */
  lemma {:induction false} SumIsProduct(qs: seq<nat>) returns (q: Poly, n: nat)
    ensures Sum(qs) == Product(q, n)
  {
    hide Shift, Add;
    if qs == [] {
      q, n := {}, 0;
    } else {
      var p, m := SumIsProduct(qs[1..]);
      q, n := ProductLonger(p, m, if qs[0] < m then m else qs[0] + 1);
      ProductToggle(q, qs[0], n);
      q := Add(q, {qs[0]});
    }
  }

  lemma {:induction false} ProductLonger(q: Poly, m: nat, n: nat) returns (p: Poly, k: nat)
    requires m <= n
    ensures k == n && Product(p, k) == Product(q, m)
  {
    hide Shift, Add;
    k := n;
    if m == n {
      p := q;
    } else {
      var o, l := ProductLonger(q, m, n - 1);
      p := o - {n - 1};
      ProductSame(o, p, n - 1);
      AddSelf(Product(p, n - 1));
    }
  }

  lemma {:induction false} ProductSame(q: Poly, p: Poly, n: nat)
    requires forall e: nat :: e < n ==> (e in q <==> e in p)
    ensures Product(q, n) == Product(p, n)
  {
    hide Shift, Add;
    if n > 0 {
      ProductSame(q, p, n - 1);
    }
  }

  lemma {:induction false} ProductBelow(q: Poly, n: nat)
    ensures forall e :: e in Product(q, n) ==> e < n + 32
  {
    if n > 0 {
      ProductBelow(q, n - 1);
    }
  }

  /** A product that is not zero has a term of degree 32 or more. */
  lemma {:induction false} ProductHigh(q: Poly, n: nat)
    ensures Product(q, n) == {} || exists e :: e >= 32 && e in Product(q, n)
  {
    hide Shift, Add;
    if n > 0 {
      ProductHigh(q, n - 1);
      AddSelf(Product(q, n - 1));
      if n - 1 in q {
        ProductBelow(q, n - 1);
        InShift(CASTAGNOLI, n - 1, n + 31);
        InAdd(Shift(CASTAGNOLI, n - 1), Product(q, n - 1), n + 31);
        assert n + 31 >= 32 && n + 31 in Product(q, n);
      }
    }
  }

  /** Of degree below 32. */
  predicate Short(p: Poly) {
    forall e :: e in p ==> e < 32
  }

  /** Two polynomials of degree below 32 with the same remainder are the same. */
  lemma Unique(p: Poly, q: Poly)
    requires Congruent(p, q) && Short(p) && Short(q)
    ensures p == q
  {
    var qs :| Add(p, q) == Sum(qs);
    var r, n := SumIsProduct(qs);
    ProductHigh(r, n);
    forall e: nat
      ensures e in p <==> e in q
    {
      InAdd(p, q, e);
    }
  }

  lemma CongruentSym(p: Poly, q: Poly)
    requires Congruent(p, q)
    ensures Congruent(q, p)
  {
    AddComm(p, q);
  }

  /**
    The CRC of a message, with its bits inverted, is the remainder of the message,
    preceded by the inverted earlier result: it has degree below 32, leaves the same
    remainder, and is the only polynomial that does.
   */
  lemma CrcIsRemainder(crci: bv32, msg: seq<bv8>, r: Poly)
    ensures Short(Of(Crc(crci, msg) ^ 0xffffffff))
    ensures Short(r) ==>
      (Congruent(r, Dividend(crci ^ 0xffffffff, msg)) <==> r == Of(Crc(crci, msg) ^ 0xffffffff))
  {
    hide Register, Congruent, Dividend;
    var start := crci ^ 0xffffffff;
    Inverted(crci, msg);
    RegisterIs(start, msg);
    if Congruent(r, Dividend(start, msg)) && Short(r) {
      CongruentSym(Of(Register(start, msg)), Dividend(start, msg));
      CongruentTrans(r, Dividend(start, msg), Of(Register(start, msg)));
      Unique(r, Of(Register(start, msg)));
    }
  }

  lemma Inverted(crci: bv32, msg: seq<bv8>)
    ensures Crc(crci, msg) ^ 0xffffffff == Register(crci ^ 0xffffffff, msg)
  {
    hide Register;
  }

  /** The n low bits of x are set. */
  predicate LowOnes(x: bv32, n: nat) {
    n == 0 || (Bit0(x) == 1 && LowOnes(Half(x), n - 1))
  }

  lemma {:induction false} LowOnesBits(x: bv32, n: nat, i: nat)
    requires i < n && LowOnes(x, n)
    ensures Bit(x, i)
    decreases i
  {
    hide Half, Bit0;
    if i > 0 {
      LowOnesBits(Half(x), n - 1, i - 1);
    }
  }

  lemma OnesBits(i: nat)
    requires i < 32
    ensures Bit(0xffffffff, i)
  {
    assert LowOnes(0xff, 8);
    assert LowOnes(0xffff, 16);
    assert LowOnes(0xff_ffff, 24);
    assert LowOnes(0xffff_ffff, 32);
    LowOnesBits(0xffff_ffff, 32, i);
  }

  /** The first result is continued from zero: then every coefficient below x^32 is added in front of the message. */
  lemma StartIs(e: nat)
    ensures e in Of(0xffffffff) <==> e < 32
  {
    hide Of, Bit;
    InOf(0xffffffff, e);
    if e < 32 {
      OnesBits(31 - e);
    }
  }
}
