/**
 Character classes and small scanning functions shared by the tokenizer and
 the integer parser of the shell.

 Whitespace is the set C's `isspace` accepts in the "C" locale: space,
 horizontal tab, newline, vertical tab, form feed and carriage return. It is
 the set `stringstream >> token`, `strtol` and the blank-line filter of the
 shell's main loop all use.
 */
module Text {

  /** Tab, newline, vertical tab, form feed and carriage return are the
      consecutive code points 9 to 13. */
  predicate IsSpace(c: char) {
    c == ' ' || '\t' <= c <= '\r'
  }

  predicate IsDigit(c: char) {
    '0' <= c <= '9'
  }

  /** Every character is whitespace (the empty string included). */
  predicate IsBlank(s: string) {
    forall i :: 0 <= i < |s| ==> IsSpace(s[i])
  }

  /** A non-empty run of non-whitespace characters: what a token looks like. */
  predicate IsWord(s: string) {
    |s| > 0 && forall i :: 0 <= i < |s| ==> !IsSpace(s[i])
  }

  predicate AllDigits(s: string) {
    forall i :: 0 <= i < |s| ==> IsDigit(s[i])
  }

  /** The length of the whitespace run `s` starts with. */
  function SpaceSpan(s: string): (k: nat)
    ensures k <= |s|
    ensures forall i :: 0 <= i < k ==> IsSpace(s[i])
    ensures k == |s| || !IsSpace(s[k])
  {
    if s != [] && IsSpace(s[0]) then 1 + SpaceSpan(s[1..]) else 0
  }

  /** The length of the run of non-whitespace characters `s` starts with. */
  function WordSpan(s: string): (k: nat)
    ensures k <= |s|
    ensures forall i :: 0 <= i < k ==> !IsSpace(s[i])
    ensures k == |s| || IsSpace(s[k])
  {
    if s != [] && !IsSpace(s[0]) then 1 + WordSpan(s[1..]) else 0
  }

  /** The length of the run of decimal digits `s` starts with. */
  function DigitSpan(s: string): (k: nat)
    ensures k <= |s|
    ensures forall i :: 0 <= i < k ==> IsDigit(s[i])
    ensures k == |s| || !IsDigit(s[k])
  {
    if s != [] && IsDigit(s[0]) then 1 + DigitSpan(s[1..]) else 0
  }

  /** What is left of `s` after its leading whitespace. */
  function SkipSpace(s: string): string {
    s[SpaceSpan(s)..]
  }

  lemma {:induction false} SpaceSpanOfBlankPrefix(p: string, s: string)
    requires IsBlank(p)
    ensures SpaceSpan(p + s) == |p| + SpaceSpan(s)
    decreases |p|
  {
    if p == [] {
      assert p + s == s;
    } else {
      assert (p + s)[0] == p[0];
      assert (p + s)[1..] == p[1..] + s;
      SpaceSpanOfBlankPrefix(p[1..], s);
    }
  }

  lemma SkipSpaceOfBlankPrefix(p: string, s: string)
    requires IsBlank(p)
    ensures SkipSpace(p + s) == SkipSpace(s)
  {
    SpaceSpanOfBlankPrefix(p, s);
    assert (p + s)[|p| + SpaceSpan(s)..] == s[SpaceSpan(s)..];
  }

  lemma {:induction false} SpaceSpanAppend(s: string, x: string)
    requires SpaceSpan(s) < |s|
    ensures SpaceSpan(s + x) == SpaceSpan(s)
    decreases |s|
  {
    assert (s + x)[0] == s[0];
    if IsSpace(s[0]) {
      assert (s + x)[1..] == s[1..] + x;
      SpaceSpanAppend(s[1..], x);
    }
  }

  lemma {:induction false} WordSpanAppend(s: string, x: string)
    requires WordSpan(s) < |s| || x == [] || IsSpace(x[0])
    ensures WordSpan(s + x) == WordSpan(s)
    decreases |s|
  {
    if s == [] {
      assert s + x == x;
    } else {
      assert (s + x)[0] == s[0];
      if !IsSpace(s[0]) {
        assert (s + x)[1..] == s[1..] + x;
        WordSpanAppend(s[1..], x);
      }
    }
  }

  lemma {:induction false} WordSpanOfWord(w: string)
    requires forall i :: 0 <= i < |w| ==> !IsSpace(w[i])
    ensures WordSpan(w) == |w|
    decreases |w|
  {
    if w != [] {
      WordSpanOfWord(w[1..]);
    }
  }

  lemma {:induction false} DigitSpanAppend(ds: string, x: string)
    requires AllDigits(ds)
    requires x == [] || !IsDigit(x[0])
    ensures DigitSpan(ds + x) == |ds|
    decreases |ds|
  {
    if ds == [] {
      assert ds + x == x;
    } else {
      assert (ds + x)[0] == ds[0];
      assert (ds + x)[1..] == ds[1..] + x;
      DigitSpanAppend(ds[1..], x);
    }
  }

  lemma DropConcat<T>(p: seq<T>, q: seq<T>, n: nat)
    requires n <= |p|
    ensures (p + q)[n..] == p[n..] + q
  {
  }

  lemma TakeConcat<T>(p: seq<T>, q: seq<T>, n: nat)
    requires n <= |p|
    ensures (p + q)[..n] == p[..n]
  {
  }

  lemma ConsAssoc<T>(x: T, p: seq<T>, q: seq<T>)
    ensures [x] + (p + q) == ([x] + p) + q
  {
  }

  lemma ConsTail<T>(s: seq<T>)
    requires |s| > 0
    ensures [s[0]] + s[1..] == s
  {
  }

  lemma Assoc<T>(p: seq<T>, q: seq<T>, r: seq<T>)
    ensures p + q + r == p + (q + r)
  {
  }

  function DigitValue(c: char): (d: nat)
    requires IsDigit(c)
    ensures d <= 9
  {
    c as int - '0' as int
  }

  function DigitChar(d: nat): (c: char)
    requires d <= 9
    ensures IsDigit(c) && DigitValue(c) == d
  {
    ('0' as int + d) as char
  }

  /** The number the first `n` digits of `ds` denote (most significant
      first). */
  function DecimalPrefix(ds: string, n: nat): nat
    requires n <= |ds| && AllDigits(ds)
  {
    if n == 0 then 0 else DecimalPrefix(ds, n - 1) * 10 + DigitValue(ds[n - 1])
  }

  /** The number a string of decimal digits denotes. */
  function DecimalValue(ds: string): nat
    requires AllDigits(ds)
  {
    DecimalPrefix(ds, |ds|)
  }

  lemma {:induction false} DecimalPrefixAppend(ds: string, x: string, n: nat)
    requires AllDigits(ds) && AllDigits(ds + x) && n <= |ds|
    ensures DecimalPrefix(ds + x, n) == DecimalPrefix(ds, n)
  {
    if n > 0 {
      DecimalPrefixAppend(ds, x, n - 1);
      assert (ds + x)[n - 1] == ds[n - 1];
    }
  }

  /** The decimal numeral of `n`, as `operator<<` on an integer prints it. */
  function Decimal(n: nat): (s: string)
    ensures |s| > 0 && AllDigits(s)
    ensures DecimalValue(s) == n
    decreases n
  {
    if n < 10 then
      var s := [DigitChar(n)];
      assert DecimalPrefix(s, 1) == DecimalPrefix(s, 0) * 10 + DigitValue(s[0]);
      s
    else
      var p := Decimal(n / 10);
      var s := p + [DigitChar(n % 10)];
      DecimalPrefixAppend(p, [DigitChar(n % 10)], |p|);
      s
  }
}
