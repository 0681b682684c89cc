/**
 * The number a VU or ITER filter text stands for. The inputs are
 * `type="number"` fields, whose value is either empty or an HTML valid
 * floating-point number; the record's number is compared with that text by
 * JavaScript's `==`, which converts the text to a number first.
 */
module Numbers {
  import opened Options

  predicate IsDigit(c: char) {
    '0' <= c <= '9'
  }

  predicate AllDigits(s: string) {
    forall k :: 0 <= k < |s| ==> IsDigit(s[k])
  }

  function DigitValue(c: char): nat
    requires IsDigit(c)
  {
    c as int - '0' as int
  }

  function DigitChar(d: nat): char
    requires d < 10
  {
    ('0' as int + d) as char
  }

  /** The value of a string of decimal digits, most significant first. */
  function DigitsValue(s: string): nat
    requires AllDigits(s)
  {
    if s == [] then 0 else 10 * DigitsValue(s[..|s| - 1]) + DigitValue(s[|s| - 1])
  }

  /** The length of the longest prefix of `s` made of digits. */
  function DigitPrefixLength(s: string): (n: nat)
    ensures n <= |s| && AllDigits(s[..n])
    ensures n < |s| ==> !IsDigit(s[n])
  {
    if s != [] && IsDigit(s[0]) then
      var n := 1 + DigitPrefixLength(s[1..]);
      assert s[..n] == [s[0]] + s[1..][..n - 1];
      n
    else 0
  }

  /**
   * The integer an unsigned decimal numeral stands for: digits, optionally
   * followed by `.` and more digits. A fractional part that is not all
   * zeros stands for a non-integer, which no VU or ITER equals: `None`.
   */
  function UnsignedValue(t: string): Option<int> {
    var n := DigitPrefixLength(t);
    var rest := t[n..];
    if rest == [] then
      if n > 0 then Some(DigitsValue(t[..n])) else None
    else if rest[0] == '.' && |rest| > 1 && AllDigits(rest[1..]) then
      if AllZeros(rest[1..]) then Some(DigitsValue(t[..n])) else None
    else None
  }

  /** The integer the filter text stands for, `None` when it stands for none. */
  function IntegerValue(text: string): Option<int> {
    if text != [] && text[0] == '-' then
      match UnsignedValue(text[1..])
      case Some(v) => Some(-v)
      case None => None
    else UnsignedValue(text)
  }

  /** The decimal numeral of a natural number, without leading zeros. */
  function ShowNat(n: nat): (s: string)
    ensures s != [] && AllDigits(s)
  {
    if n < 10 then [DigitChar(n)] else ShowNat(n / 10) + [DigitChar(n % 10)]
  }

  /** The decimal numeral of an integer, as a number input shows it. */
  function ShowInt(n: int): (s: string)
    ensures s != []
  {
    if n < 0 then "-" + ShowNat(-n) else ShowNat(n)
  }

  lemma {:induction false} ShowNatValue(n: nat)
    ensures DigitsValue(ShowNat(n)) == n
    decreases n
  {
    if n >= 10 {
      var s := ShowNat(n);
      assert s[..|s| - 1] == ShowNat(n / 10);
      ShowNatValue(n / 10);
    }
  }

  /** Reading back the numeral of any integer gives that integer. */
  lemma ShowIntValue(n: int)
    ensures IntegerValue(ShowInt(n)) == Some(n)
  {
    var m := if n < 0 then -n else n;
    var s := ShowNat(m);
    ShowNatValue(m);
    assert DigitPrefixLength(s) == |s|;
    assert s[..|s|] == s;
    assert UnsignedValue(s) == Some(m);
    if n < 0 {
      assert ShowInt(n)[1..] == s;
    } else {
      assert IsDigit(s[0]);
    }
  }

  /** A numeral followed by a fractional part of zeros ("2.0", "2.00") stands for the same integer. */
  lemma ZeroFractionValue(n: nat, zeros: nat)
    requires zeros > 0
    ensures IntegerValue(ShowNat(n) + "." + seq(zeros, _ => '0')) == Some(n)
  {
    var s := ShowNat(n);
    var z := seq(zeros, _ => '0');
    assert AllDigits(z) && AllZeros(z);
    FractionRead(s, z);
    ShowNatValue(n);
  }

  /** Every digit of `s` is `0`. */
  predicate AllZeros(s: string) {
    forall k :: 0 <= k < |s| ==> s[k] == '0'
  }

  /** The digit prefix of digits followed by a non-digit is exactly those digits. */
  lemma DigitPrefixOf(d: string, rest: string)
    requires AllDigits(d) && (rest == [] || !IsDigit(rest[0]))
    ensures DigitPrefixLength(d + rest) == |d|
  {
    var t := d + rest;
    assert forall k :: 0 <= k < |d| ==> t[k] == d[k];
    assert rest != [] ==> t[|d|] == rest[0];
  }

  /** Without a leading `-`, a text stands for what it stands for unsigned. */
  lemma NotNegated(t: string)
    requires t == [] || t[0] != '-'
    ensures IntegerValue(t) == UnsignedValue(t)
  {
  }

  /** A leading `-` negates what the rest stands for. */
  lemma Negated(t: string)
    ensures UnsignedValue(t).None? ==> IntegerValue("-" + t).None?
    ensures UnsignedValue(t).Some? ==> IntegerValue("-" + t) == Some(-UnsignedValue(t).value)
  {
    assert ("-" + t)[1..] == t;
  }

  /** The digits of a numeral without a fraction, read as the integer they spell. */
  lemma DigitsUnsigned(d: string)
    requires d != [] && AllDigits(d)
    ensures UnsignedValue(d) == Some(DigitsValue(d))
  {
    DigitPrefixOf(d, []);
    assert d + [] == d && d[..|d|] == d;
  }

  /**
   * Any non-empty string of digits, leading zeros included (`"007"`), stands
   * for the integer its digits spell, with or without a leading `-`.
   */
  lemma DigitsRead(d: string)
    requires d != [] && AllDigits(d)
    ensures IntegerValue(d) == Some(DigitsValue(d))
    ensures IntegerValue("-" + d) == Some(-(DigitsValue(d) as int))
  {
    DigitsUnsigned(d);
    assert IsDigit(d[0]);
    NotNegated(d);
    Negated(d);
  }

  /** `UnsignedValue` on digits, a `.` and more digits. */
  lemma FractionUnsigned(d: string, frac: string)
    requires AllDigits(d) && frac != [] && AllDigits(frac)
    ensures UnsignedValue(d + "." + frac) ==
      if AllZeros(frac) then Some(DigitsValue(d)) else None
  {
    var t := d + "." + frac;
    assert t == d + ("." + frac);
    DigitPrefixOf(d, "." + frac);
    assert t[..|d|] == d;
    var rest := t[|d|..];
    assert rest == "." + frac;
    assert rest[1..] == frac;
  }

  /**
   * A numeral with a fractional part stands for the integer of its whole
   * part when the fraction is all zeros (`"2.00"`, `".0"`), and for no
   * integer otherwise (`"1.5"`).
   */
  lemma FractionRead(d: string, frac: string)
    requires AllDigits(d) && frac != [] && AllDigits(frac)
    ensures IntegerValue(d + "." + frac) ==
      if AllZeros(frac) then Some(DigitsValue(d)) else None
  {
    var t := d + "." + frac;
    FractionUnsigned(d, frac);
    if d == [] {
      assert t[0] == '.';
    } else {
      assert t[0] == d[0];
    }
    NotNegated(t);
  }

  /** The same with a leading `-` (`"-2.0"`, `"-1.5"`). */
  lemma NegativeFractionRead(text: string, d: string, frac: string)
    requires AllDigits(d) && frac != [] && AllDigits(frac)
    requires text == "-" + d + "." + frac
    ensures IntegerValue(text) ==
      if AllZeros(frac) then Some(-(DigitsValue(d) as int)) else None
  {
    var t := d + "." + frac;
    FractionUnsigned(d, frac);
    assert text == "-" + t;
    Negated(t);
  }
}
