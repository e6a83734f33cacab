/** Unsigned 32-bit task ids: how Rust prints them with `{}` and how
    `str::parse::<u32>` reads them back. */
module Decimal {
  import opened Results

  const U32Max: int := 0xFFFF_FFFF

  /** Rust's `u32`. */
  type u32 = x: int | 0 <= x <= U32Max

  // The `Display` texts of Rust's `ParseIntError` for the three ways an
  // unsigned parse can fail.
  const EmptyMessage := "cannot parse integer from empty string"
  const InvalidDigitMessage := "invalid digit found in string"
  const OverflowMessage := "number too large to fit in target type"

  predicate IsDigit(c: char) { '0' <= c <= '9' }

  predicate AllDigits(s: string) { forall i :: 0 <= i < |s| ==> IsDigit(s[i]) }

  function DigitValue(c: char): (d: nat)
    requires IsDigit(c)
    ensures d < 10
  {
    (c as int - '0' as int) as nat
  }

  function DigitChar(d: nat): (c: char)
    requires d < 10
    ensures IsDigit(c) && DigitValue(c) == d
  {
    ('0' as int + d) as char
  }

  /** The decimal text of `n` as `format!("{}", n)` writes an unsigned
      integer: digits only, and a leading zero only for zero itself. */
  function DecimalString(n: nat): (s: string)
    ensures |s| >= 1 && AllDigits(s)
    ensures s[0] == '0' <==> n == 0
    decreases n
  {
    if n < 10 then [DigitChar(n)] else DecimalString(n / 10) + [DigitChar(n % 10)]
  }

  /** The unbounded value of the digits `s`, read left to right and
      appended to the value `acc` already read. */
  function Eval(s: string, acc: nat): nat
    requires AllDigits(s)
    decreases |s|
  {
    if s == [] then acc else Eval(s[1..], acc * 10 + DigitValue(s[0]))
  }

  /** The digit loop of Rust's integer parser: each character must be a
      digit, and the value must stay within `u32` after every step. */
  function Accumulate(s: string, acc: u32): (r: Result<u32>)
    ensures r.Failure? ==> r.error in {InvalidDigitMessage, OverflowMessage}
    ensures r.Success? ==> r.value >= acc
    decreases |s|
  {
    if s == [] then Success(acc)
    else if !IsDigit(s[0]) then Failure(InvalidDigitMessage)
    else
      var v := acc * 10 + DigitValue(s[0]);
      if v > U32Max then Failure(OverflowMessage) else Accumulate(s[1..], v)
  }

  /** The text after an optional leading `+`, the part whose digits are read. */
  function Magnitude(s: string): string
  {
    if |s| > 0 && s[0] == '+' then s[1..] else s
  }

  /** Only one leading `+` is dropped: the magnitude is the whole text or
      the text without its first character, and it is shorter exactly when
      the text starts with `+`. */
  lemma MagnitudeDropsSign(s: string)
    ensures var m := Magnitude(s);
            |s| - 1 <= |m| <= |s| && m == s[|s| - |m|..]
    ensures |Magnitude(s)| < |s| <==> |s| > 0 && s[0] == '+'
  {
  }

  /** `s.parse::<u32>()`: the empty string, a lone sign, any character that
      is not a decimal digit (after one optional leading `+`), and any value
      above 2^32 - 1 are errors. */
  function ParseU32(s: string): (r: Result<u32>)
    ensures r.Failure? ==> r.error in {EmptyMessage, InvalidDigitMessage, OverflowMessage}
  {
    if s == [] then Failure(EmptyMessage)
    else if s == "+" || s == "-" then Failure(InvalidDigitMessage)
    else Accumulate(Magnitude(s), 0)
  }

  lemma {:induction false} EvalAtLeast(s: string, acc: nat)
    requires AllDigits(s)
    ensures Eval(s, acc) >= acc
    decreases |s|
  {
    if s != [] { EvalAtLeast(s[1..], acc * 10 + DigitValue(s[0])); }
  }

  /** On a string of digits the bounded loop fails exactly when the
      unbounded value leaves `u32`, and otherwise yields that value. */
  lemma {:induction false} AccumulateDigits(s: string, acc: u32)
    requires AllDigits(s)
    ensures Eval(s, acc) <= U32Max ==> Accumulate(s, acc) == Success(Eval(s, acc))
    ensures Eval(s, acc) > U32Max ==> Accumulate(s, acc) == Failure(OverflowMessage)
    decreases |s|
  {
    if s != [] {
      var v := acc * 10 + DigitValue(s[0]);
      if v > U32Max {
        EvalAtLeast(s[1..], v);
      } else {
        AccumulateDigits(s[1..], v);
      }
    }
  }

  /** A string with a character that is not a digit is always rejected. */
  lemma {:induction false} AccumulateNonDigit(s: string, acc: u32)
    requires !AllDigits(s)
    ensures Accumulate(s, acc).Failure?
    decreases |s|
  {
    if IsDigit(s[0]) {
      var v := acc * 10 + DigitValue(s[0]);
      if v <= U32Max { AccumulateNonDigit(s[1..], v); }
    }
  }

  /** What `parse::<u32>` accepts: an optional `+` and then one or more
      decimal digits (leading zeros allowed) whose value fits in `u32`. */
  lemma ParseU32Accepts(s: string)
    ensures ParseU32(s).Success? <==>
              Magnitude(s) != [] && AllDigits(Magnitude(s)) && Eval(Magnitude(s), 0) <= U32Max
    ensures ParseU32(s).Success? ==> ParseU32(s).value == Eval(Magnitude(s), 0)
  {
    var m := Magnitude(s);
    if s != [] && s != "+" && s != "-" {
      if AllDigits(m) {
        AccumulateDigits(m, 0);
      } else {
        AccumulateNonDigit(m, 0);
      }
    }
  }

  lemma {:induction false} EvalAppend(a: string, c: char, acc: nat)
    requires AllDigits(a) && IsDigit(c)
    ensures AllDigits(a + [c])
    ensures Eval(a + [c], acc) == Eval(a, acc) * 10 + DigitValue(c)
    decreases |a|
  {
    if a != [] {
      assert (a + [c])[1..] == a[1..] + [c];
      EvalAppend(a[1..], c, acc * 10 + DigitValue(a[0]));
    }
  }

  lemma {:induction false} EvalDecimal(n: nat)
    ensures Eval(DecimalString(n), 0) == n
    decreases n
  {
    if n >= 10 {
      EvalDecimal(n / 10);
      EvalAppend(DecimalString(n / 10), DigitChar(n % 10), 0);
    }
  }

  /** Reading back the printed form of an id gives the id. */
  lemma ParseDecimalRoundTrip(n: u32)
    ensures ParseU32(DecimalString(n)) == Success(n)
  {
    var s := DecimalString(n);
    EvalDecimal(n);
    assert Magnitude(s) == s;
    ParseU32Accepts(s);
  }

  /** Sample inputs of `parse::<u32>`: leading zeros and a leading `+`
      are accepted; a sign alone and letters are not. */
  lemma ParseU32Examples()
    ensures ParseU32("5") == Success(5)
    ensures ParseU32("007") == Success(7)
    ensures ParseU32("+10") == Success(10)
    ensures ParseU32("") == Failure(EmptyMessage)
    ensures ParseU32("-") == Failure(InvalidDigitMessage)
    ensures ParseU32("-1") == Failure(InvalidDigitMessage)
    ensures ParseU32("abc") == Failure(InvalidDigitMessage)
  {
    assert Magnitude("+10") == "10";
  }

  /** The bound: 2^32 - 1 is the largest id that parses. */
  lemma ParseU32Max()
    ensures ParseU32("4294967295") == Success(U32Max)
  {
    DecimalOfMax();
    ParseDecimalRoundTrip(U32Max);
  }

  lemma ParseU32PastMax()
    ensures ParseU32("4294967296") == Failure(OverflowMessage)
  {
    var s := DecimalString(U32Max + 1);
    DecimalPastMax();
    EvalDecimal(U32Max + 1);
    assert Magnitude(s) == s;
    AccumulateDigits(s, 0);
  }

  lemma DecimalOfMax()
    ensures DecimalString(U32Max) == "4294967295"
  {
    assert DecimalString(4) == "4";
    assert DecimalString(42) == "42";
    assert DecimalString(429) == "429";
    assert DecimalString(4294) == "4294";
    assert DecimalString(42949) == "42949";
    assert DecimalString(429496) == "429496";
    assert DecimalString(4294967) == "4294967";
    assert DecimalString(42949672) == "42949672";
    assert DecimalString(429496729) == "429496729";
  }

  lemma DecimalPastMax()
    ensures DecimalString(U32Max + 1) == "4294967296"
  {
    assert DecimalString(4) == "4";
    assert DecimalString(42) == "42";
    assert DecimalString(429) == "429";
    assert DecimalString(4294) == "4294";
    assert DecimalString(42949) == "42949";
    assert DecimalString(429496) == "429496";
    assert DecimalString(4294967) == "4294967";
    assert DecimalString(42949672) == "42949672";
    assert DecimalString(429496729) == "429496729";
  }
}
