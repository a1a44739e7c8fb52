/** The parts of Go's `strconv` package the bundle code relies on: `ParseInt(s, 10, 64)`
    (and `Atoi`, which on a 64-bit `int` accepts exactly the same strings) and `Itoa`. */
module Strconv {
  import opened Results

  const MaxUint64: nat := 0xFFFF_FFFF_FFFF_FFFF
  const MinInt64: int := -0x8000_0000_0000_0000
  const MaxInt64: int := 0x7FFF_FFFF_FFFF_FFFF

  /** Go's `int` is taken to be 64 bits wide. */
  predicate InInt64(n: int) { MinInt64 <= n <= MaxInt64 }

  /** The `Err` field of a `*strconv.NumError`. */
  datatype NumError = ErrSyntax | ErrRange

  predicate IsDigit(c: char) { '0' <= c <= '9' }

  predicate AllDigits(s: string) { forall i :: 0 <= i < |s| ==> IsDigit(s[i]) }

  function DigitValue(c: char): nat
    requires IsDigit(c)
  {
    c as int - '0' as int
  }

  function DigitChar(d: nat): (c: char)
    requires d < 10
    ensures IsDigit(c) && DigitValue(c) == d
  {
    ('0' as int + d) as char
  }

  /** The number a digit string denotes when read after the digits of `acc`. */
  function Horner(acc: nat, s: string): nat
    requires AllDigits(s)
    decreases |s|
  {
    if s == [] then acc else Horner(acc * 10 + DigitValue(s[0]), s[1..])
  }

  /** The digit loop of `strconv.ParseUint(s, 10, 64)`: left to right, failing with a
      syntax error at the first non-digit and with a range error at the first digit
      that takes the running value past the largest `uint64`, whichever comes first. */
  function AccumulateDigits(acc: nat, s: string): (r: Result<nat, NumError>)
    requires acc <= MaxUint64
    ensures r.Ok? ==> r.value <= MaxUint64
    decreases |s|
  {
    if s == [] then Ok(acc)
    else if !IsDigit(s[0]) then Err(ErrSyntax)
    else
      var next := acc * 10 + DigitValue(s[0]);
      if next > MaxUint64 then Err(ErrRange) else AccumulateDigits(next, s[1..])
  }

  /** `strconv.ParseUint(s, 10, 64)`; the empty string is a syntax error. */
  function ParseUint64(s: string): Result<nat, NumError>
  {
    if s == [] then Err(ErrSyntax) else AccumulateDigits(0, s)
  }

  /** `strconv.ParseInt(s, 10, 64)`: an optional '+' or '-', then `ParseUint`, then the
      signed 64-bit range check. */
  function ParseInt64(s: string): (r: Result<int, NumError>)
    ensures r.Ok? ==> InInt64(r.value)
  {
    if s == [] then Err(ErrSyntax)
    else
      var neg := s[0] == '-';
      var digits := if s[0] == '+' || s[0] == '-' then s[1..] else s;
      match ParseUint64(digits)
      case Err(e) => Err(e)
      case Ok(u) =>
        if !neg && u > MaxInt64 then Err(ErrRange)
        else if neg && u > -MinInt64 then Err(ErrRange)
        else Ok(if neg then -(u as int) else u as int)
  }

  /** A base-10 integer literal as `ParseInt` reads it: an optional sign, then one or more digits. */
  predicate IsDecimal(s: string)
  {
    |s| > 0 &&
    var digits := if s[0] == '+' || s[0] == '-' then s[1..] else s;
    |digits| > 0 && AllDigits(digits)
  }

  /** The integer an `IsDecimal` string denotes, whatever its size. */
  function DecimalValue(s: string): int
    requires IsDecimal(s)
  {
    var digits := if s[0] == '+' || s[0] == '-' then s[1..] else s;
    var magnitude: int := Horner(0, digits);
    if s[0] == '-' then -magnitude else magnitude
  }

  lemma {:induction false} HornerGrows(acc: nat, s: string)
    requires AllDigits(s)
    ensures Horner(acc, s) >= acc
    decreases |s|
  {
    if s != [] {
      HornerGrows(acc * 10 + DigitValue(s[0]), s[1..]);
    }
  }

  /** On a digit string the loop fails exactly when the final value does not fit in 64 bits. */
  lemma {:induction false} AccumulateAllDigits(acc: nat, s: string)
    requires acc <= MaxUint64 && AllDigits(s)
    ensures AccumulateDigits(acc, s) ==
      if Horner(acc, s) <= MaxUint64 then Ok(Horner(acc, s)) else Err(ErrRange)
    decreases |s|
  {
    if s != [] {
      var next := acc * 10 + DigitValue(s[0]);
      HornerGrows(next, s[1..]);
      if next <= MaxUint64 {
        AccumulateAllDigits(next, s[1..]);
      }
    }
  }

  /** A literal parses to its value when that value is a 64-bit integer and fails with a
      range error otherwise; it is never a syntax error. */
  lemma ParseDecimal(s: string)
    requires IsDecimal(s)
    ensures ParseInt64(s) == if InInt64(DecimalValue(s)) then Ok(DecimalValue(s)) else Err(ErrRange)
  {
    var digits := if s[0] == '+' || s[0] == '-' then s[1..] else s;
    AccumulateAllDigits(0, digits);
  }

  lemma {:induction false} AccumulateOnlyDigits(acc: nat, s: string)
    requires acc <= MaxUint64
    requires AccumulateDigits(acc, s).Ok?
    ensures AllDigits(s)
    decreases |s|
  {
    if s != [] {
      AccumulateOnlyDigits(acc * 10 + DigitValue(s[0]), s[1..]);
    }
  }

  /** Only literals parse: anything `ParseInt64` accepts is an optional sign and digits. */
  lemma ParseOnlyDecimal(s: string)
    requires ParseInt64(s).Ok?
    ensures IsDecimal(s) && DecimalValue(s) == ParseInt64(s).value
  {
    var digits := if s[0] == '+' || s[0] == '-' then s[1..] else s;
    AccumulateOnlyDigits(0, digits);
    AccumulateAllDigits(0, digits);
  }

  /** The decimal digits of `n`, most significant first, without leading zeros. */
  function Digits(n: nat): (s: string)
    ensures |s| > 0 && AllDigits(s)
  {
    if n < 10 then [DigitChar(n)] else Digits(n / 10) + [DigitChar(n % 10)]
  }

  /** `strconv.Itoa`: a '-' for negative numbers, then the digits of the magnitude. */
  function Itoa(n: int): (s: string)
    ensures IsDecimal(s) && s[0] != '+'
  {
    if n < 0 then "-" + Digits(-n) else Digits(n)
  }

  lemma {:induction false} HornerSnoc(acc: nat, s: string, c: char)
    requires AllDigits(s) && IsDigit(c)
    ensures AllDigits(s + [c])
    ensures Horner(acc, s + [c]) == Horner(acc, s) * 10 + DigitValue(c)
    decreases |s|
  {
    if s != [] {
      assert (s + [c])[1..] == s[1..] + [c];
      HornerSnoc(acc * 10 + DigitValue(s[0]), s[1..], c);
    }
  }

  lemma {:induction false} HornerDigits(n: nat)
    ensures Horner(0, Digits(n)) == n
  {
    if n >= 10 {
      HornerDigits(n / 10);
      HornerSnoc(0, Digits(n / 10), DigitChar(n % 10));
    }
  }

  /** `Itoa` is a right inverse of `ParseInt`: every 64-bit integer survives the trip. */
  lemma ItoaParseRoundTrip(n: int)
    requires InInt64(n)
    ensures ParseInt64(Itoa(n)) == Ok(n)
  {
    var s := Itoa(n);
    if n < 0 {
      assert s[1..] == Digits(-n);
      HornerDigits(-n);
    } else {
      HornerDigits(n);
    }
    ParseDecimal(s);
  }
}
