/** util.c: safe_strtoull, which reads a number from memory that nothing terminates. */
module Strtoull {
  import opened Decimals

  datatype Option = None | Some(value: nat)

  /** isspace in the C locale. */
  predicate IsSpace(c: char) {
    c == ' ' || '\t' <= c <= '\r'
  }

  function SkipSpaces(s: string): string {
    if s != [] && IsSpace(s[0]) then SkipSpaces(s[1..]) else s
  }

  /** The number of digits at the front. */
  function Digits(s: string): (n: nat)
    ensures n <= |s|
  {
    if s != [] && IsDigit(s[0]) then 1 + Digits(s[1..]) else 0
  }

  /** strchr for a minus sign, up to the terminating zero. */
  predicate HasMinus(s: string) {
    s != [] && s[0] != '\0' && (s[0] == '-' || HasMinus(s[1..]))
  }

  lemma {:induction false} ParseOfDigits(s: string)
    requires forall i :: 0 <= i < |s| ==> IsDigit(s[i])
    ensures Parse(s) >= 0
  {
    if s != [] {
      ParseOfDigits(s[..|s| - 1]);
    }
  }

  lemma {:induction false} DigitsAreDigits(s: string)
    ensures forall i :: 0 <= i < Digits(s) ==> IsDigit(s[i])
  {
    if s != [] && IsDigit(s[0]) {
      DigitsAreDigits(s[1..]);
    }
  }

  /**
    strtoull in base 10 after the spaces and the sign: no number, or the digits in
    unsigned 64-bit arithmetic unless they overflow.
   */
  function Magnitude(s: string): (u: Option)
    ensures u.Some? ==> u.value < U64
  {
    DigitsAreDigits(s);
    ParseOfDigits(s[..Digits(s)]);
    var u := Parse(s[..Digits(s)]);
    if Digits(s) == 0 || u >= U64 then None else Some(u)
  }

  /** safe_strtoull on the memory s; the end of s stands for a terminating zero. */
  function Number(s: string): (u: Option)
    ensures u.Some? ==> u.value < U64
  {
    var signed := SkipSpaces(s);
    var minus := signed != [] && signed[0] == '-';
    var body := if signed != [] && (signed[0] == '-' || signed[0] == '+') then signed[1..] else signed;
    var end := body[Digits(body)..];
    if Magnitude(body).None? then None
    else
      var m := Magnitude(body).value;
      var u := if minus && m > 0 then U64 - m else m;
      if end != [] && end[0] != '\0' && !IsSpace(end[0]) then None
      else if u >= U64 / 2 && HasMinus(s) then None
      else Some(u)
  }

  // ----- what is a number -----

  predicate IsSign(sign: string) {
    sign == "" || sign == "+" || sign == "-"
  }

  predicate AllSpaces(s: string) {
    forall i :: 0 <= i < |s| ==> IsSpace(s[i])
  }

  predicate AllDigits(s: string) {
    forall i :: 0 <= i < |s| ==> IsDigit(s[i])
  }

  /** Spaces, perhaps a sign, digits, and something that does not go on with a digit. */
  predicate Split(blank: string, sign: string, digits: string, rest: string) {
    AllSpaces(blank) && IsSign(sign) && digits != "" && AllDigits(digits) && (rest == "" || !IsDigit(rest[0]))
  }

  lemma {:induction false} SkipBlank(blank: string, s: string)
    requires AllSpaces(blank) && (s == "" || !IsSpace(s[0]))
    ensures SkipSpaces(blank + s) == s
  {
    if blank == "" {
      assert blank + s == s;
    } else {
      assert (blank + s)[1..] == blank[1..] + s;
      SkipBlank(blank[1..], s);
    }
  }

  lemma {:induction false} SkipSplits(s: string) returns (blank: string)
    ensures AllSpaces(blank) && s == blank + SkipSpaces(s)
  {
    blank := "";
    if s != "" && IsSpace(s[0]) {
      var more := SkipSplits(s[1..]);
      blank := [s[0]] + more;
      assert s == [s[0]] + s[1..];
    }
  }

  lemma {:induction false} DigitsStop(s: string)
    ensures Digits(s) < |s| ==> !IsDigit(s[Digits(s)])
  {
    if s != "" && IsDigit(s[0]) {
      DigitsStop(s[1..]);
    }
  }

  lemma {:induction false} DigitsOf(digits: string, rest: string)
    requires AllDigits(digits) && (rest == "" || !IsDigit(rest[0]))
    ensures Digits(digits + rest) == |digits|
  {
    if digits == "" {
      assert digits + rest == rest;
    } else {
      assert (digits + rest)[1..] == digits[1..] + rest;
      DigitsOf(digits[1..], rest);
    }
  }

  /**
    What a text of that form is read as: the digits, negated modulo 2^64 behind a
    minus sign. It is refused when the digits overflow, when they are followed by
    anything but a space or the end, and when the result looks negative and there is
    a minus sign anywhere.
   */
  lemma NumberOf(blank: string, sign: string, digits: string, rest: string)
    requires Split(blank, sign, digits, rest)
    ensures Parse(digits) >= 0
    ensures var m := Parse(digits); var u := if sign == "-" && m > 0 then U64 - m else m;
      Number(blank + (sign + (digits + rest))) ==
        if m >= U64 || (rest != "" && rest[0] != '\0' && !IsSpace(rest[0])) then None
        else if u >= U64 / 2 && HasMinus(blank + (sign + (digits + rest))) then None
        else Some(u)
  {
    hide HasMinus, Parse, Split, SkipSpaces, Digits;
    SplitFacts(blank, sign, digits, rest);
    var body := digits + rest;
    assert body[..|digits|] == digits && body[|digits|..] == rest;
    assert sign == "" ==> sign + body == body;
    assert sign != "" ==> (sign + body)[1..] == body;
  }

  lemma SplitFacts(blank: string, sign: string, digits: string, rest: string)
    requires Split(blank, sign, digits, rest)
    ensures SkipSpaces(blank + (sign + (digits + rest))) == sign + (digits + rest)
    ensures Digits(digits + rest) == |digits| > 0 && IsDigit(digits[0]) && IsSign(sign)
    ensures Parse(digits) >= 0
  {
    assert (digits + rest)[0] == digits[0];
    SkipBlank(blank, sign + (digits + rest));
    DigitsOf(digits, rest);
    ParseOfDigits(digits);
  }

  /** The text behind the spaces and the sign. */
  lemma SignSplits(signed: string) returns (sign: string, body: string)
    ensures IsSign(sign) && signed == sign + body
    ensures body == if signed != "" && (signed[0] == '-' || signed[0] == '+') then signed[1..] else signed
  {
    sign, body := "", signed;
    if signed != "" && (signed[0] == '-' || signed[0] == '+') {
      sign, body := [signed[0]], signed[1..];
    }
  }

  lemma BodySplits(body: string) returns (digits: string, rest: string)
    requires Magnitude(body).Some?
    ensures digits != "" && AllDigits(digits) && (rest == "" || !IsDigit(rest[0])) && body == digits + rest
  {
    hide Parse;
    digits, rest := body[..Digits(body)], body[Digits(body)..];
    DigitsAreDigits(body);
    DigitsStop(body);
  }

  /** Nothing else is a number. */
  lemma NumberSplits(s: string) returns (blank: string, sign: string, digits: string, rest: string)
    requires Number(s).Some?
    ensures Split(blank, sign, digits, rest) && s == blank + (sign + (digits + rest))
  {
    hide HasMinus, Magnitude, IsSign, AllSpaces, AllDigits;
    var body;
    blank := SkipSplits(s);
    sign, body := SignSplits(SkipSpaces(s));
    digits, rest := BodySplits(body);
  }

  // ----- the values that incr and decr leave behind -----

  /** The value is n in decimal, padded with spaces on the right. */
  predicate Shows(value: string, n: nat) {
    && n < U64
    && Decimal(n) <= value
    && forall i :: |Decimal(n)| <= i < |value| ==> value[i] == ' '
  }

  lemma {:induction false} MinusBehind(front: string, rest: string)
    requires forall i :: 0 <= i < |front| ==> front[i] != '-' && front[i] != '\0'
    ensures HasMinus(front + rest) <==> HasMinus(rest)
  {
    if front == [] {
      assert front + rest == rest;
    } else {
      assert (front + rest)[1..] == front[1..] + rest;
      MinusBehind(front[1..], rest);
    }
  }

  /**
    A number left by incr or decr reads back as itself, with one exception: from
    2^63 on it is refused when a minus sign follows somewhere in memory.
   */
  lemma ShownNumber(value: string, n: nat, after: string)
    requires Shows(value, n)
    ensures Number(value + "\r\n" + after) == if n >= U64 / 2 && HasMinus(after) then None else Some(n)
  {
    hide Decimal;
    var d, s := Decimal(n), value + "\r\n" + after;
    DecimalParses(n);
    var rest := s[|d|..];
    assert s == d + rest && (rest[0] == ' ' || rest[0] == '\r');
    DigitsOf(d, rest);
    assert s[..|d|] == d;
    assert SkipSpaces(s) == s && s[0] == d[0];
    assert forall i :: 0 <= i < |value| ==> value[i] != '-' && value[i] != '\0' by {
      assert forall i :: 0 <= i < |d| ==> value[i] == d[i];
    }
    MinusBehind(value + "\r\n", after);
  }

  /** 2^63, followed in memory by a minus sign, is not a number. */
  lemma BigNumberRefused()
    ensures Shows(Decimal(U64 / 2), U64 / 2) && Number(Decimal(U64 / 2) + "\r\n" + "-") == None
  {
    ShownNumber(Decimal(U64 / 2), U64 / 2, "-");
  }

  /**
    A minus sign is not always refused: the negation is taken modulo 2^64, and only
    a result from 2^63 on gives it away.
   */
  lemma MinusNumber(n: nat, after: string)
    requires n < U64
    ensures Number("-" + Decimal(n) + "\r\n" + after) ==
      if n == 0 then Some(0) else if n <= U64 / 2 then None else Some(U64 - n)
  {
    hide Decimal;
    var d, s := Decimal(n), "-" + Decimal(n) + "\r\n" + after;
    DecimalParses(n);
    assert SkipSpaces(s) == s && HasMinus(s);
    var rest := "\r\n" + after;
    assert s[1..] == d + rest;
    DigitsOf(d, rest);
    assert (d + rest)[..|d|] == d;
  }
}
