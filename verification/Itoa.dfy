/**
  itoa_ljust.c: decimal conversion two digits at a time through an advancing
  pointer, and the response suffix that memcached.c builds with it.
 */
module Decimals {

  const U32: nat := 0x1_0000_0000
  const U64: nat := 0x1_0000_0000_0000_0000

  function Digit(d: nat): char
    requires d < 10
  {
    '0' + d as char
  }

  function DigitValue(c: char): int {
    c as int - '0' as int
  }

  /** The canonical decimal string. */
  function Decimal(u: nat): string {
    if u < 10 then [Digit(u)] else Decimal(u / 10) + [Digit(u % 10)]
  }

  /** Exactly n digits, padded with zeros on the left. */
  function Fixed(u: nat, n: nat): (s: string)
    ensures |s| == n
    decreases n
  {
    if n == 0 then [] else Fixed(u / 10, n - 1) + [Digit(u % 10)]
  }

  function Pow10(n: nat): (p: nat)
    ensures p > 0
  {
    if n == 0 then 1 else 10 * Pow10(n - 1)
  }

  function Parse(s: string): int {
    if s == [] then 0 else 10 * Parse(s[..|s| - 1]) + DigitValue(s[|s| - 1])
  }

  predicate IsDigit(c: char) {
    '0' <= c <= '9'
  }

  // ----- the canonical string is the only right answer -----

  /** Parsing gives the value back, every character is a digit, and there is no leading zero. */
  lemma {:induction false} DecimalParses(u: nat)
    ensures Parse(Decimal(u)) == u
    ensures |Decimal(u)| >= 1 && (forall i :: 0 <= i < |Decimal(u)| ==> IsDigit(Decimal(u)[i]))
    ensures u >= 10 ==> |Decimal(u)| > 1
    ensures u > 0 ==> Decimal(u)[0] != '0'
  {
    var s := Decimal(u);
    if u < 10 {
      assert s[..|s| - 1] == [];
    } else {
      DecimalParses(u / 10);
      assert s[..|s| - 1] == Decimal(u / 10);
    }
  }

  lemma {:induction false} DecimalLength(u: nat, n: nat)
    requires n > 0 && u < Pow10(n)
    ensures |Decimal(u)| <= n
    decreases n
  {
    if u >= 10 {
      DecimalLength(u / 10, n - 1);
    }
  }

  /** A number with exactly n digits. */
  lemma {:induction false} DecimalIsFixed(u: nat, n: nat)
    requires n > 0 && u < Pow10(n) && (n > 1 ==> Pow10(n - 1) <= u)
    ensures Decimal(u) == Fixed(u, n)
    decreases n
  {
    if n == 1 {
      assert Fixed(u / 10, 0) == [];
    } else {
      DecimalIsFixed(u / 10, n - 1);
    }
  }

  lemma DivTen(q: nat, p: nat, r: nat)
    requires p > 0
    ensures (q * (10 * p) + r) / 10 == q * p + r / 10
    ensures (q * (10 * p) + r) % 10 == r % 10
  {
    assert q * (10 * p) == 10 * (q * p);
  }

  /** The last b digits are those of the remainder, the digits before them those of the quotient. */
  lemma {:induction false} FixedSplit(q: nat, r: nat, a: nat, b: nat)
    requires r < Pow10(b)
    ensures Fixed(q * Pow10(b) + r, a + b) == Fixed(q, a) + Fixed(r, b)
    decreases b
  {
    if b == 0 {
      assert q * Pow10(0) + r == q;
      assert Fixed(q, a) + [] == Fixed(q, a);
    } else {
      DivTen(q, Pow10(b - 1), r);
      FixedSplit(q, r / 10, a, b - 1);
    }
  }

  lemma {:induction false} DecimalSplit(q: nat, r: nat, b: nat)
    requires q > 0 && r < Pow10(b)
    ensures Decimal(q * Pow10(b) + r) == Decimal(q) + Fixed(r, b)
    decreases b
  {
    if b == 0 {
      assert q * Pow10(0) + r == q;
      assert Decimal(q) + [] == Decimal(q);
    } else {
      assert q * Pow10(b) >= Pow10(b) by { MulPositive(q, Pow10(b)); }
      assert Pow10(b) >= 10;
      DivTen(q, Pow10(b - 1), r);
      DecimalSplit(q, r / 10, b - 1);
    }
  }

  lemma MulPositive(q: nat, p: nat)
    requires q > 0
    ensures q * p >= p
  {}

  lemma Powers()
    ensures Pow10(1) == 10 && Pow10(2) == 100 && Pow10(3) == 1000 && Pow10(4) == 10000 && Pow10(5) == 100000
    ensures Pow10(6) == 1000000 && Pow10(7) == 10000000 && Pow10(8) == 100000000 && Pow10(9) == 1000000000
    ensures Pow10(10) == 10000000000
  {
    assert Pow10(4) == 10000;
    assert Pow10(8) == 100000000;
  }
}

module Itoa {
  import opened Decimals

  /** The two-digit lookup table: entry d holds the two digits of d. */
  const LUT: string := seq(200, i requires 0 <= i < 200 => if i % 2 == 0 then Digit(i / 2 / 10) else Digit(i / 2 % 10))

  method Out2(d: nat, buf: array<char>, p: nat) returns (q: nat)
    requires d < 100 && p + 2 <= buf.Length
    modifies buf
    ensures q == p + 2 && buf[..q] == old(buf[..p]) + Fixed(d, 2)
  {
    TwoDigits(d);
    buf[p], buf[p + 1] := LUT[2 * d], LUT[2 * d + 1];
    q := p + 2;
  }

  lemma TwoDigits(d: nat)
    requires d < 100
    ensures Fixed(d, 2) == [LUT[2 * d], LUT[2 * d + 1]]
  {
    assert Fixed(d, 2) == Fixed(d / 10, 1) + [Digit(d % 10)];
    assert Fixed(d / 10, 1) == [Digit(d / 10)];
  }

  method Out1(c: char, buf: array<char>, p: nat) returns (q: nat)
    requires p < buf.Length
    modifies buf
    ensures q == p + 1 && buf[..q] == old(buf[..p]) + [c]
  {
    buf[p] := c;
    q := p + 1;
  }

  function Quot(u: nat, k: nat): nat
    requires k > 0
  {
    u / k
  }

  function Rem(u: nat, k: nat): nat
    requires k > 0
  {
    u % k
  }

  lemma QuotRem(u: nat, k: nat)
    requires k > 0
    ensures u == Quot(u, k) * k + Rem(u, k) && Rem(u, k) < k
  {}

  lemma MulMono(a: nat, b: nat, k: nat)
    requires a <= b
    ensures a * k <= b * k
  {}

  lemma QuotBound(u: nat, k: nat)
    requires k > 0 && u < 100 * k
    ensures Quot(u, k) < 100
  {
    hide Quot, Rem;
    QuotRem(u, k);
    if Quot(u, k) >= 100 {
      MulMono(100, Quot(u, k), k);
      assert false;
    }
  }

  /**
    Two adjacent labels of the fall-through switch: an even label that writes two
    digits, then the odd one that drops them.
   */
  method Pair(n: nat, e: nat, k: nat, u0: nat, d0: nat, buf: array<char>, p0: nat) returns (u: nat, d: nat, p: nat)
    requires e >= 2 && k == Pow10(e - 2) && p0 <= buf.Length
    requires n >= e ==> p0 + 2 <= buf.Length && u0 < 100 * k
    requires n == e - 1 ==> d0 == Quot(u0, k)
    modifies buf
    ensures p == p0 + (if n >= e then 2 else 0) && p <= buf.Length
    ensures buf[..p] == old(buf[..p0]) + if n >= e then Fixed(Quot(u0, k), 2) else []
    ensures u == if n >= e - 1 then Rem(u0, k) else u0
    ensures n < e - 1 ==> d == d0
  {
    hide Quot, Rem, Fixed, Pow10;
    u, d, p := u0, d0, p0;
    QuotRem(u0, k);
    if n >= e {
      QuotBound(u0, k);
      d := Quot(u, k);
      p := Out2(d, buf, p);
    }
    if n >= e - 1 {
      u := u - d * k;
    }
  }

  /** What the switch has to write for n digits: all of them, or all but the first when n is odd. */
  function Todo(u: nat, n: nat): string
    requires n > 0
  {
    if n % 2 == 0 then Fixed(u, n) else Fixed(Rem(u, Pow10(n - 1)), n - 1)
  }

  /** Where the switch stands at even label e: done is already written, u still to be written. */
  predicate AtLabel(u0: nat, n: nat, e: nat, done: string, u: nat)
    requires n > 0
  {
    if n >= e then u < Pow10(e) && done + Fixed(u, e) == Todo(u0, n)
    else u == u0 && done == []
  }

  lemma NextLabel(u0: nat, n: nat, e: nat, k: nat, done: string, u: nat, done': string, u': nat)
    requires 2 <= e && 1 <= n && e % 2 == 0 && k == Pow10(e - 2) && u0 < Pow10(n) && AtLabel(u0, n, e, done, u)
    requires done' == if n >= e then done + Fixed(Quot(u, k), 2) else done
    requires u' == if n >= e - 1 then Rem(u, k) else u
    ensures AtLabel(u0, n, e - 2, done', u')
  {
    hide Quot, Rem, Fixed, Pow10;
    QuotRem(u, k);
    if n >= e {
      FixedSplit(Quot(u, k), Rem(u, k), 2, e - 2);
      assert done + (Fixed(Quot(u, k), 2) + Fixed(Rem(u, k), e - 2)) == done' + Fixed(u', e - 2);
    } else {
      assert [] + Fixed(u', e - 2) == Fixed(u', e - 2);
    }
  }

  /** One pair of labels, with the text written so far after what was there before. */
  method Advance(n: nat, e: nat, k: nat, u: nat, d: nat, buf: array<char>, p: nat, ghost u0: nat,
                 ghost before: string, ghost done: string)
    returns (u': nat, d': nat, p': nat, ghost done': string)
    requires 2 <= e && 1 <= n && e % 2 == 0 && k == Pow10(e - 2) && u0 < Pow10(n) && AtLabel(u0, n, e, done, u)
    requires p == |before| + |done| && |before| + |Todo(u0, n)| < buf.Length && p <= buf.Length
    requires buf[..p] == before + done
    requires n == e - 1 ==> d == Quot(u0, k)
    modifies buf
    ensures AtLabel(u0, n, e - 2, done', u')
    ensures p' == |before| + |done'| && p' <= buf.Length && buf[..p'] == before + done'
    ensures n < e - 1 ==> d' == d
  {
    hide Quot, Rem, Todo, Fixed;
    assert Pow10(e) == 100 * k by { assert Pow10(e) == 10 * Pow10(e - 1); }
    u', d', p' := Pair(n, e, k, u, d, buf, p);
    ghost var more := if n >= e then Fixed(Quot(u, k), 2) else [];
    done' := done + more;
    assert done + [] == done;
    assert (before + done) + more == before + done';
    NextLabel(u0, n, e, k, done, u, done', u');
  }

  /** itoa: the digits of u that are still to be written, then the terminator. */
  method Tail(u0: nat, buf: array<char>, p0: nat, d0: nat, n: nat) returns (r: nat)
    requires 1 <= n <= 10 && u0 < Pow10(n)
    requires n % 2 == 1 ==> d0 == Quot(u0, Pow10(n - 1))
    requires p0 + |Todo(u0, n)| < buf.Length
    modifies buf
    ensures r == p0 + |Todo(u0, n)| && buf[..r] == old(buf[..p0]) + Todo(u0, n) && buf[r] == '\0'
  {
    Powers();
    PowZero();
    hide Quot, Rem, Pow10, Fixed;
    ghost var before, done: string := buf[..p0], [];
    assert AtLabel(u0, n, 10, done, u0) by {
      assert n >= 10 ==> done + Fixed(u0, 10) == Fixed(u0, 10);
    }
    hide AtLabel, Todo;
    var u, d, p := u0, d0, p0;
    assert before + done == before;
    u, d, p, done := Advance(n, 10, 100000000, u, d, buf, p, u0, before, done);
    u, d, p, done := Advance(n, 8, 1000000, u, d, buf, p, u0, before, done);
    u, d, p, done := Advance(n, 6, 10000, u, d, buf, p, u0, before, done);
    u, d, p, done := Advance(n, 4, 100, u, d, buf, p, u0, before, done);
    u, d, p, done := Advance(n, 2, 1, u, d, buf, p, u0, before, done);
    AllWritten(u0, n, done, u);
    buf[p] := '\0';
    r := p;
  }

  lemma AllWritten(u0: nat, n: nat, done: string, u: nat)
    requires n > 0 && AtLabel(u0, n, 0, done, u)
    ensures done == Todo(u0, n)
  {
    assert done + Fixed(u, 0) == done;
  }

  lemma PowZero()
    ensures Pow10(0) == 1
  {}

  /** digits: writes the first digit alone when the number of digits is odd. */
  method Digits(u: nat, k: nat, buf: array<char>, p: nat, n: nat) returns (d: nat, q: nat, m: nat)
    requires 2 <= n <= 10 && n % 2 == 0 && k == Pow10(n - 2) && u < Pow10(n) && (n > 2 ==> k <= u)
    requires p + |Decimal(u)| < buf.Length
    modifies buf
    ensures 1 <= m <= 10 && u < Pow10(m) && (m % 2 == 1 ==> d == Quot(u, Pow10(m - 1)))
    ensures q == p + |Decimal(u)| - |Todo(u, m)| && p <= q <= buf.Length
    ensures buf[..q] + Todo(u, m) == old(buf[..p]) + Decimal(u)
  {
    hide Quot, Rem, Fixed, Decimal, Pow10;
    ghost var before := buf[..p];
    d, q, m := 0, p, n;
    PowStep(n);
    if u < k * 10 {
      OddDigits(u, k, n);
      d := Quot(u, k);
      q := Out1(Digit(d), buf, p);
      m := n - 1;
      assert (before + [Digit(d)]) + Todo(u, m) == before + ([Digit(d)] + Todo(u, m));
    } else {
      DecimalIsFixed(u, n);
    }
  }

  lemma PowStep(n: nat)
    requires n >= 2
    ensures Pow10(n) == 10 * Pow10(n - 1) && Pow10(n - 1) == 10 * Pow10(n - 2)
  {}

  lemma OddDigits(u: nat, k: nat, n: nat)
    requires 2 <= n && n % 2 == 0 && k == Pow10(n - 2) && u < k * 10 && (n > 2 ==> k <= u)
    ensures Quot(u, k) < 10
    ensures Decimal(u) == [Digit(Quot(u, k))] + Todo(u, n - 1)
  {
    hide Quot, Rem;
    PowStep(n);
    DecimalIsFixed(u, n - 1);
    QuotRem(u, k);
    if Quot(u, k) >= 10 {
      MulMono(10, Quot(u, k), k);
      assert false;
    }
    FixedSplit(Quot(u, k), Rem(u, k), 1, n - 2);
    FixedOne(Quot(u, k));
  }

  lemma FixedOne(d: nat)
    requires d < 10
    ensures Fixed(d, 1) == [Digit(d)]
  {
    assert Fixed(d, 1) == Fixed(d / 10, 0) + [Digit(d % 10)];
  }

  /** itoa_u32: the canonical decimal string and a terminator at the returned position. */
  method U32ToString(u: nat, buf: array<char>, p: nat) returns (r: nat)
    requires u < U32 && p + |Decimal(u)| < buf.Length
    modifies buf
    ensures r == p + |Decimal(u)| && buf[..r] == old(buf[..p]) + Decimal(u) && buf[r] == '\0'
  {
    Powers();
    PowZero();
    hide Quot, Rem, Fixed, Decimal, Pow10, Todo;
    var d, q, n;
    if u >= 100000000 {
      d, q, n := Digits(u, 100000000, buf, p, 10);
    } else if u < 100 {
      d, q, n := Digits(u, 1, buf, p, 2);
    } else if u < 10000 {
      d, q, n := Digits(u, 100, buf, p, 4);
    } else if u < 1000000 {
      d, q, n := Digits(u, 10000, buf, p, 6);
    } else {
      d, q, n := Digits(u, 1000000, buf, p, 8);
    }
    r := Tail(u, buf, q, d, n);
  }

  /** The 32-bit two's complement pattern of i. */
  function AsUnsigned(i: int, width: nat): nat
    requires width > 0
  {
    i % width
  }

  function Signed(i: int): string {
    if i < 0 then ['-'] + Decimal(-i) else Decimal(i)
  }

  lemma Negate32(i: int)
    requires -(U32 / 2) <= i < U32 / 2
    ensures if i < 0 then AsUnsigned(U32 - AsUnsigned(i, U32), U32) == -i else AsUnsigned(i, U32) == i
  {}

  lemma Negate64(i: int)
    requires -(U64 / 2) <= i < U64 / 2
    ensures if i < 0 then AsUnsigned(U64 - AsUnsigned(i, U64), U64) == -i else AsUnsigned(i, U64) == i
  {}

  /** itoa_32: negation is done on the unsigned pattern, so the smallest value is right too. */
  method I32ToString(i: int, buf: array<char>, p0: nat) returns (r: nat)
    requires -(U32 / 2) <= i < U32 / 2 && p0 + |Signed(i)| < buf.Length
    modifies buf
    ensures r == p0 + |Signed(i)| && buf[..r] == old(buf[..p0]) + Signed(i) && buf[r] == '\0'
  {
    Negate32(i);
    hide Decimal, AsUnsigned;
    ghost var before := buf[..p0];
    var u: int, p := AsUnsigned(i, U32), p0;
    if i < 0 {
      buf[p] := '-';
      p := p + 1;
      u := AsUnsigned(U32 - u, U32);
      assert buf[..p] == before + ['-'];
    }
    r := U32ToString(u, buf, p);
    assert i < 0 ==> (before + ['-']) + Decimal(-i) == before + (['-'] + Decimal(-i));
  }

  /** itoa_u64: the part above nine digits first, then nine digits over its terminator. */
  method U64ToString(u: nat, buf: array<char>, p: nat) returns (r: nat)
    requires u < U64 && p + |Decimal(u)| < buf.Length
    modifies buf
    ensures r == p + |Decimal(u)| && buf[..r] == old(buf[..p]) + Decimal(u) && buf[r] == '\0'
    decreases u
  {
    hide Decimal, Fixed, Pow10;
    if u < U32 {
      r := U32ToString(u, buf, p);
      return;
    }
    var upper, lower := u / 1000000000, u % 1000000000;
    HighAndLow(u, upper, lower);
    hide Decimal, Fixed, Pow10;
    var q := U64ToString(upper, buf, p);
    r := NineToString(lower, buf, q);
  }

  lemma HighAndLow(u: nat, upper: nat, lower: nat)
    requires U32 <= u && upper == u / 1000000000 && lower == u % 1000000000
    ensures 0 < upper < u && Decimal(u) == Decimal(upper) + Fixed(lower, 9)
  {
    Powers();
    hide Decimal, Fixed;
    DecimalSplit(upper, lower, 9);
    assert u == upper * 1000000000 + lower;
  }

  /** The last nine digits, leading zeros included. */
  method NineToString(lower: nat, buf: array<char>, q: nat) returns (r: nat)
    requires lower < 1000000000 && q + 9 < buf.Length
    modifies buf
    ensures r == q + 9 && buf[..r] == old(buf[..q]) + Fixed(lower, 9) && buf[r] == '\0'
  {
    hide Fixed, Pow10, Quot, Rem, Todo, Digit;
    NineDigits(lower);
    var d := Quot(lower, 100000000);
    ghost var before := buf[..q];
    var q1 := Out1(Digit(d), buf, q);
    r := Tail(lower, buf, q1, d, 9);
    assert (before + [Digit(d)]) + Todo(lower, 9) == before + ([Digit(d)] + Todo(lower, 9));
  }

  lemma NineDigits(lower: nat)
    requires lower < 1000000000
    ensures Quot(lower, 100000000) < 10 && Pow10(8) == 100000000 && Pow10(9) == 1000000000
    ensures Fixed(lower, 9) == [Digit(Quot(lower, 100000000))] + Todo(lower, 9)
  {
    Powers();
    FixedSplit(lower / 100000000, lower % 100000000, 1, 8);
    FixedOne(lower / 100000000);
  }

  /** itoa_64. */
  method I64ToString(i: int, buf: array<char>, p0: nat) returns (r: nat)
    requires -(U64 / 2) <= i < U64 / 2 && p0 + |Signed(i)| < buf.Length
    modifies buf
    ensures r == p0 + |Signed(i)| && buf[..r] == old(buf[..p0]) + Signed(i) && buf[r] == '\0'
  {
    Negate64(i);
    hide Decimal, AsUnsigned;
    ghost var before := buf[..p0];
    var u: int, p := AsUnsigned(i, U64), p0;
    if i < 0 {
      buf[p] := '-';
      p := p + 1;
      u := AsUnsigned(U64 - u, U64);
      assert buf[..p] == before + ['-'];
    }
    r := U64ToString(u, buf, p);
    assert i < 0 ==> (before + ['-']) + Decimal(-i) == before + (['-'] + Decimal(-i));
  }

  // ----- the suffix of a get response -----

  /** SUFFIX_SIZE in memcached.h. */
  const SUFFIX_SIZE: nat := 50

  /** The text of the suffix; flags is absent when the item stores none. */
  function Suffix(inline: bool, flags: nat, hasFlags: bool, nbytes: int, cas: nat, returnCas: bool): string {
    (if inline then []
     else " " + (if hasFlags then Decimal(flags) else "0") + " " + Decimal(AsUnsigned(nbytes - 2, U32)))
    + (if returnCas then " " + Decimal(cas) else [])
    + "\r\n"
  }

  lemma NumberLengths(u: nat)
    ensures u < U32 ==> |Decimal(u)| <= 10
    ensures u < U64 ==> |Decimal(u)| <= 20
  {
    Powers();
    assert Pow10(15) == 1000000000000000;
    assert Pow10(20) == 100000000000000000000;
    if u < U64 {
      DecimalLength(u, 20);
    }
    if u < U32 {
      DecimalLength(u, 10);
    }
  }

  /** Whatever the flags, length and CAS id, the suffix and its terminator fit the buffer. */
  lemma SuffixFits(inline: bool, flags: nat, hasFlags: bool, nbytes: int, cas: nat, returnCas: bool)
    requires flags < U32 && cas < U64
    ensures |Suffix(inline, flags, hasFlags, nbytes, cas, returnCas)| + 1 <= 46 < SUFFIX_SIZE
  {
    NumberLengths(flags);
    NumberLengths(AsUnsigned(nbytes - 2, U32));
    NumberLengths(cas);
  }

  // ----- the suffix as a client reads it -----

  /** The text up to the next space or carriage return. */
  function Word(s: string): (w: string)
    ensures |w| <= |s|
  {
    if s == [] || s[0] == ' ' || s[0] == '\r' then [] else [s[0]] + Word(s[1..])
  }

  /** The words of a line, each behind a space. */
  function Fields(line: string): seq<string> {
    if line == [] || line[0] != ' ' then [] else [Word(line[1..])] + Fields(line[1 + |Word(line[1..])|..])
  }

  lemma {:induction false} WordOf(w: string, rest: string)
    requires forall i :: 0 <= i < |w| ==> IsDigit(w[i])
    requires rest != [] && (rest[0] == ' ' || rest[0] == '\r')
    ensures Word(w + rest) == w
  {
    if w == [] {
      assert w + rest == rest;
    } else {
      assert (w + rest)[1..] == w[1..] + rest;
      WordOf(w[1..], rest);
    }
  }

  /** A number behind a space is the next field. */
  lemma NextField(n: nat, rest: string)
    requires rest != [] && (rest[0] == ' ' || rest[0] == '\r')
    ensures Fields(" " + (Decimal(n) + rest)) == [Decimal(n)] + Fields(rest)
  {
    hide Decimal;
    var w, line := Decimal(n), " " + (Decimal(n) + rest);
    DecimalParses(n);
    WordOf(w, rest);
    assert line[1..] == w + rest;
    assert line[1 + |w|..] == rest;
  }

  /** What a client reads from the suffix: flags and length of the value, then the id if it asked for it. */
  lemma SuffixReads(inline: bool, flags: nat, hasFlags: bool, nbytes: int, cas: nat, returnCas: bool)
    ensures var s := Suffix(inline, flags, hasFlags, nbytes, cas, returnCas); var f := Fields(s);
      && |s| >= 2 && s[|s| - 2..] == "\r\n"
      && |f| == (if inline then 0 else 2) + (if returnCas then 1 else 0)
      && (!inline ==> Parse(f[0]) == if hasFlags then flags else 0)
      && (!inline && 2 <= nbytes < U32 ==> Parse(f[1]) == nbytes - 2)
      && (returnCas ==> Parse(f[|f| - 1]) == cas)
  {
    hide Decimal, Fields;
    var s, len := Suffix(inline, flags, hasFlags, nbytes, cas, returnCas), AsUnsigned(nbytes - 2, U32);
    var tail := if returnCas then " " + (Decimal(cas) + "\r\n") else "\r\n";
    var shown := if hasFlags then flags else 0;
    EndOfLine();
    ZeroIs();
    DecimalParses(cas);
    DecimalParses(shown);
    DecimalParses(len);
    if returnCas {
      NextField(cas, "\r\n");
    }
    if inline {
      assert s == tail;
    } else {
      NextField(len, tail);
      NextField(shown, " " + (Decimal(len) + tail));
      assert s == " " + (Decimal(shown) + (" " + (Decimal(len) + tail)));
    }
  }

  lemma EndOfLine()
    ensures Fields("\r\n") == []
  {}

  lemma ZeroIs()
    ensures Decimal(0) == "0"
  {}

  /** make_ascii_get_suffix. */
  method MakeSuffix(buf: array<char>, inline: bool, flags: nat, hasFlags: bool, nbytes: int, cas: nat, returnCas: bool)
    returns (len: nat)
    requires buf.Length == SUFFIX_SIZE && flags < U32 && cas < U64
    modifies buf
    ensures len == |Suffix(inline, flags, hasFlags, nbytes, cas, returnCas)| < buf.Length
    ensures buf[..len] == Suffix(inline, flags, hasFlags, nbytes, cas, returnCas) && buf[len] == '\0'
  {
    NumberLengths(flags);
    NumberLengths(AsUnsigned(nbytes - 2, U32));
    NumberLengths(cas);
    hide Decimal, Suffix;
    var p := 0;
    ghost var text: string := [];
    if !inline {
      p := AppendChar(buf, p, ' ', text);
      text := text + " ";
      if !hasFlags {
        p := AppendChar(buf, p, '0', text);
        text := text + "0";
      } else {
        p := AppendU32(buf, p, flags, text);
        text := text + Decimal(flags);
      }
      p := AppendChar(buf, p, ' ', text);
      text := text + " ";
      p := AppendU32(buf, p, AsUnsigned(nbytes - 2, U32), text);
      text := text + Decimal(AsUnsigned(nbytes - 2, U32));
    }
    assert |text| <= 22;
    if returnCas {
      p := AppendChar(buf, p, ' ', text);
      text := text + " ";
      p := AppendU64(buf, p, cas, text);
      text := text + Decimal(cas);
    }
    p := AppendChar(buf, p, '\r', text);
    text := text + "\r";
    p := AppendChar(buf, p, '\n', text);
    text := text + "\n";
    buf[p] := '\0';
    len := p;
    SuffixIs(text, inline, flags, hasFlags, nbytes, cas, returnCas);
  }

  lemma SuffixIs(text: string, inline: bool, flags: nat, hasFlags: bool, nbytes: int, cas: nat, returnCas: bool)
    requires var head :=
      if inline then []
      else [] + " " + (if hasFlags then Decimal(flags) else "0") + " " + Decimal(AsUnsigned(nbytes - 2, U32));
      text == (if returnCas then head + " " + Decimal(cas) else head) + "\r" + "\n"
    ensures text == Suffix(inline, flags, hasFlags, nbytes, cas, returnCas)
  {
    hide Decimal;
  }

  method AppendChar(buf: array<char>, p: nat, c: char, ghost text: string) returns (r: nat)
    requires p < buf.Length && buf[..p] == text
    modifies buf
    ensures r == p + 1 && buf[..r] == text + [c]
  {
    buf[p] := c;
    r := p + 1;
  }

  method AppendU32(buf: array<char>, p: nat, u: nat, ghost text: string) returns (r: nat)
    requires u < U32 && p + |Decimal(u)| < buf.Length && buf[..p] == text
    modifies buf
    ensures r == p + |Decimal(u)| && buf[..r] == text + Decimal(u)
  {
    hide Decimal;
    r := U32ToString(u, buf, p);
  }

  method AppendU64(buf: array<char>, p: nat, u: nat, ghost text: string) returns (r: nat)
    requires u < U64 && p + |Decimal(u)| < buf.Length && buf[..p] == text
    modifies buf
    ensures r == p + |Decimal(u)| && buf[..r] == text + Decimal(u)
  {
    hide Decimal;
    r := U64ToString(u, buf, p);
  }
}
