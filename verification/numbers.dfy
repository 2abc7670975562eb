/**
 The integer conversion the recall command uses: `std::stoi` with base 10,
 which is `strtol` followed by a range check against a 32-bit `int`.

 `strtol` skips leading whitespace, accepts one optional `+` or `-`, then
 reads the longest run of decimal digits and ignores whatever follows. No
 digit at all is reported as `std::invalid_argument`; a value that does not
 fit in `int` (or in `long`, which only happens to values that do not fit in
 `int` either) as `std::out_of_range`. Integers here are unbounded, so the
 digits' value is computed exactly and compared with the `int` range.
 */
module Numbers {
  import opened Text

  const IntMin: int := -0x8000_0000
  const IntMax: int := 0x7fff_ffff

  /** The outcomes of `stoi`: a value, or one of the two exceptions it throws. */
  datatype StoiResult = Parsed(value: int) | InvalidArgument | OutOfRange

  predicate IsSign(c: char) {
    c == '+' || c == '-'
  }

  /** A mathematical integer as `stoi` reports it: itself when it fits in a
      32-bit `int`, otherwise an out-of-range error. */
  function Checked(v: int): (r: StoiResult)
    ensures r.Parsed? <==> IntMin <= v <= IntMax
    ensures r.Parsed? ==> r.value == v
    ensures !r.Parsed? ==> r == OutOfRange
  {
    if IntMin <= v <= IntMax then Parsed(v) else OutOfRange
  }

  /** `std::stoi(s)` in base 10: skip whitespace, then read a signed number. */
  function Stoi(s: string): (r: StoiResult)
    ensures r.Parsed? ==> IntMin <= r.value <= IntMax
  {
    ParseSigned(SkipSpace(s))
  }

  /** An optional sign, then the digits. */
  function ParseSigned(t: string): StoiResult {
    if t != [] && IsSign(t[0]) then ParseDigits(t[0] == '-', t[1..])
    else ParseDigits(false, t)
  }

  /** The longest run of digits `u` starts with, negated if `negative`; at
      least one digit is needed. */
  function ParseDigits(negative: bool, u: string): StoiResult {
    var n := DigitSpan(u);
    if n == 0 then InvalidArgument
    else
      var v := DecimalValue(u[..n]);
      Checked(if negative then 0 - v else v)
  }

  /** The value a sign and a digit string stand for. */
  function Signed(sign: string, ds: string): int
    requires AllDigits(ds)
  {
    if sign == "-" then 0 - DecimalValue(ds) else DecimalValue(ds)
  }

  lemma ParseDigitsOf(negative: bool, ds: string, rest: string)
    requires |ds| > 0 && AllDigits(ds)
    requires rest == [] || !IsDigit(rest[0])
    ensures ParseDigits(negative, ds + rest)
         == Checked(if negative then 0 - DecimalValue(ds) else DecimalValue(ds))
  {
    var u := ds + rest;
    DigitSpanAppend(ds, rest);
    TakeConcat(ds, rest, |ds|);
    var v := DecimalValue(u[..DigitSpan(u)]);
    assert v == DecimalValue(ds);
  }

  lemma ParseUnsignedOf(ds: string, rest: string)
    requires |ds| > 0 && AllDigits(ds)
    requires rest == [] || !IsDigit(rest[0])
    ensures ParseSigned(ds + rest) == Checked(DecimalValue(ds))
  {
    assert (ds + rest)[0] == ds[0];
    ParseDigitsOf(false, ds, rest);
  }

  lemma ParseSignOf(c: char, ds: string, rest: string)
    requires IsSign(c)
    requires |ds| > 0 && AllDigits(ds)
    requires rest == [] || !IsDigit(rest[0])
    ensures ParseSigned([c] + ds + rest)
         == Checked(if c == '-' then 0 - DecimalValue(ds) else DecimalValue(ds))
  {
    var u := [c] + ds + rest;
    assert u[0] == c;
    assert u[1..] == ds + rest;
    ParseDigitsOf(c == '-', ds, rest);
  }

  lemma ParseSignedOf(sign: string, ds: string, rest: string)
    requires sign == "" || sign == "+" || sign == "-"
    requires |ds| > 0 && AllDigits(ds)
    requires rest == [] || !IsDigit(rest[0])
    ensures ParseSigned(sign + ds + rest) == Checked(Signed(sign, ds))
  {
    if sign == "" {
      assert sign + ds + rest == ds + rest;
      ParseUnsignedOf(ds, rest);
    } else {
      assert sign == [sign[0]];
      ParseSignOf(sign[0], ds, rest);
    }
  }

  /** Every text of the shape "blanks, optional sign, digits, anything not
      starting with a digit" converts to the value of its sign and digits,
      or to an out-of-range error when that value does not fit in `int`. */
  lemma StoiAccepts(ws: string, sign: string, ds: string, rest: string)
    requires IsBlank(ws)
    requires sign == "" || sign == "+" || sign == "-"
    requires |ds| > 0 && AllDigits(ds)
    requires rest == [] || !IsDigit(rest[0])
    ensures Stoi(ws + sign + ds + rest) == Checked(Signed(sign, ds))
  {
    var u := sign + ds + rest;
    assert ws + sign + ds + rest == ws + u;
    SkipSpaceOfBlankPrefix(ws, u);
    assert u[0] == if sign == "" then ds[0] else sign[0];
    assert SpaceSpan(u) == 0;
    assert SkipSpace(u) == u;
    ParseSignedOf(sign, ds, rest);
  }

  /** Every text of the shape "blanks, optional sign, then no digit" is an
      invalid argument. Without a sign the next character must also not be
      whitespace or a sign, since those would belong to the blanks or be the
      sign. */
  lemma StoiRejects(ws: string, sign: string, rest: string)
    requires IsBlank(ws)
    requires sign == "" || sign == "+" || sign == "-"
    requires rest == [] || !IsDigit(rest[0])
    requires sign == "" && rest != [] ==> !IsSpace(rest[0]) && !IsSign(rest[0])
    ensures Stoi(ws + sign + rest) == InvalidArgument
  {
    var u := sign + rest;
    assert ws + sign + rest == ws + u;
    SkipSpaceOfBlankPrefix(ws, u);
    assert SpaceSpan(u) == 0;
    if sign == "" {
      assert u == rest;
    } else {
      assert u[0] == sign[0];
      assert u[1..] == rest;
    }
  }

  /** Digits at the very start of the text, with nothing that continues
      them after. */
  lemma StoiOfDigits(ds: string, rest: string)
    requires |ds| > 0 && AllDigits(ds)
    requires rest == [] || !IsDigit(rest[0])
    ensures Stoi(ds + rest) == Checked(DecimalValue(ds))
  {
    var u := ds + rest;
    assert u[0] == ds[0];
    assert SpaceSpan(u) == 0;
    assert SkipSpace(u) == u;
    ParseDigitsOf(false, ds, rest);
  }

  /** A minus sign directly followed by digits. */
  lemma StoiOfMinusDigits(ds: string)
    requires |ds| > 0 && AllDigits(ds)
    ensures Stoi("-" + ds) == Checked(0 - DecimalValue(ds))
  {
    var u := "-" + ds;
    assert u[0] == '-';
    assert SpaceSpan(u) == 0;
    assert SkipSpace(u) == u;
    assert u[1..] == ds + [];
    ParseDigitsOf(true, ds, []);
  }

  /** The decimal numeral of a non-negative `int` converts back to it. */
  lemma StoiOfDecimal(n: nat)
    requires n <= IntMax
    ensures Stoi(Decimal(n)) == Parsed(n)
  {
    StoiOfDigits(Decimal(n), []);
    assert Decimal(n) + [] == Decimal(n);
  }

  /** Text after a numeral that does not continue it is ignored. */
  lemma StoiIgnoresTrailingText(n: nat, rest: string)
    requires n <= IntMax
    requires rest == [] || !IsDigit(rest[0])
    ensures Stoi(Decimal(n) + rest) == Parsed(n)
  {
    StoiOfDigits(Decimal(n), rest);
  }

  /** A minus sign negates; values below the 32-bit minimum are out of range. */
  lemma StoiOfNegative(n: nat)
    ensures Stoi("-" + Decimal(n)) == if n <= -IntMin then Parsed(0 - n) else OutOfRange
  {
    StoiOfMinusDigits(Decimal(n));
  }

  /** Numerals above the 32-bit maximum are out of range. */
  lemma StoiOverflow(n: nat)
    requires n > IntMax
    ensures Stoi(Decimal(n)) == OutOfRange
  {
    StoiOfDigits(Decimal(n), []);
    assert Decimal(n) + [] == Decimal(n);
  }

  /** Trailing text is ignored: "3x" is 3. */
  lemma StoiExampleTrailing()
    ensures Stoi("3x") == Parsed(3)
  {
    StoiOfDigits("3", "x");
    assert "3" + "x" == "3x";
  }

  /** Leading whitespace and a plus sign: " \t+4" is 4. */
  lemma StoiExampleBlanksAndSign()
    ensures Stoi(" \t+4") == Parsed(4)
  {
    StoiAccepts(" \t", "+", "4", "");
    assert " \t" + "+" + "4" + "" == " \t+4";
  }

  /** No digit after the blanks and the sign: an invalid argument. */
  lemma StoiRejectsExamples()
    ensures Stoi("") == InvalidArgument
    ensures Stoi("x3") == InvalidArgument
    ensures Stoi("- 3") == InvalidArgument
    ensures Stoi(" ") == InvalidArgument
  {
    StoiRejects("", "", "");
    assert "" + "" + "" == "";
    StoiRejects("", "", "x3");
    assert "" + "" + "x3" == "x3";
    StoiRejects("", "-", " 3");
    assert "" + "-" + " 3" == "- 3";
    StoiRejects(" ", "", "");
    assert " " + "" + "" == " ";
  }
}
