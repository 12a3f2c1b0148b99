/**
 * The CLDR plural operands (Unicode Technical Standard #35, Part 3, section
 * 5.1.1, "Operands"), as `intl_pluralrules::operands::PluralOperands` carries
 * them, and the decomposition of a decimal fraction into them.
 */
module Operands {
  import opened Float
  import opened Text

  /**
   * `n` absolute value, `i` integer digits, `v` visible fraction digits
   * counted with trailing zeros, `w` counted without, `f` the fraction digits
   * as an integer with trailing zeros, `t` without.
   */
  datatype PluralOperands = PluralOperands(n: F64, i: nat, v: nat, w: nat, f: nat, t: nat)

  function Pow10(k: nat): (r: nat)
    ensures r >= 1
  {
    if k == 0 then 1 else 10 * Pow10(k - 1)
  }

  lemma {:induction false} Pow10Add(a: nat, b: nat)
    ensures Pow10(a + b) == Pow10(a) * Pow10(b)
    decreases b
  {
    if b > 0 {
      Pow10Add(a, b - 1);
      assert Pow10(a + b) == 10 * Pow10(a + b - 1);
    }
  }

  lemma MulAssoc(a: nat, b: nat, c: nat)
    ensures (a * b) * c == a * (b * c)
  {
  }

  lemma MulLess(a: nat, b: nat, c: nat)
    requires a < b && c >= 1
    ensures a * c < b * c
  {
  }

  predicate IsDigits(s: string) {
    forall k :: 0 <= k < |s| ==> '0' <= s[k] <= '9'
  }

  /** The integer that a string of decimal digits spells, most significant digit first. */
  function DigitsValue(s: string): (r: nat)
    requires IsDigits(s)
    ensures r < Pow10(|s|)
    decreases |s|
  {
    if s == [] then 0
    else
      var d := (s[|s| - 1] as int) - ('0' as int);
      DigitsValue(s[..|s| - 1]) * 10 + d
  }

  /** The digit string with its trailing '0's removed. */
  function StripTrailingZeros(s: string): (r: string)
    ensures |r| <= |s| && s == r + Zeros(|s| - |r|)
    ensures r == [] || r[|r| - 1] != '0'
    decreases |s|
  {
    if s != [] && s[|s| - 1] == '0' then
      var r := StripTrailingZeros(s[..|s| - 1]);
      assert s == s[..|s| - 1] + ['0'];
      assert Zeros(|s| - 1 - |r|) + ['0'] == Zeros(|s| - |r|);
      r
    else
      assert Zeros(0) == [];
      s
  }

  /**
   * The operands of a number whose decimal rendering has the integer part `i`
   * and the fraction digits `digits` (the text after the '.', empty when there
   * is none).
   */
  function FromFraction(n: F64, i: nat, digits: string): PluralOperands
    requires IsDigits(digits)
  {
    var trimmed := StripTrailingZeros(digits);
    StrippedIsDigits(digits);
    PluralOperands(n, i, |digits|, |trimmed|, DigitsValue(digits), DigitsValue(trimmed))
  }

  /**
   * The relations among `v`, `w`, `f` and `t` that hold for operands taken from
   * a decimal rendering: `t` has no trailing zero, and `f` is `t` padded with
   * `v - w` of them.
   */
  predicate WellFormed(o: PluralOperands) {
    && o.w <= o.v
    && o.f < Pow10(o.v)
    && o.t < Pow10(o.w)
    && o.f == o.t * Pow10(o.v - o.w)
    && (o.w > 0 ==> o.t % 10 != 0)
  }

  /** Zero digits appended to digits leave a string of digits. */
  lemma DigitsWithZeros(s: string, k: nat)
    requires IsDigits(s)
    ensures IsDigits(s + Zeros(k))
  {
    var padded := s + Zeros(k);
    forall j | 0 <= j < |padded| ensures '0' <= padded[j] <= '9' {
      if j >= |s| { assert padded[j] == Zeros(k)[j - |s|]; }
    }
  }

  lemma ZerosSnoc(s: string, k: nat)
    ensures s + Zeros(k + 1) == (s + Zeros(k)) + ['0']
  {
    assert Zeros(k + 1) == Zeros(k) + ['0'];
  }

  /** The value of digits with one more digit appended. */
  lemma DigitsValueSnoc(s: string, c: char)
    requires IsDigits(s) && '0' <= c <= '9'
    ensures IsDigits(s + [c])
    ensures DigitsValue(s + [c]) == DigitsValue(s) * 10 + ((c as int) - ('0' as int))
  {
    assert (s + [c])[..|s|] == s;
  }

  /** Appending `k` zero digits multiplies the value by `10^k`. */
  lemma {:induction false} DigitsValueZeros(s: string, k: nat)
    requires IsDigits(s)
    ensures IsDigits(s + Zeros(k))
    ensures DigitsValue(s + Zeros(k)) == DigitsValue(s) * Pow10(k)
    decreases k
  {
    DigitsWithZeros(s, k);
    if k == 0 {
      assert s + Zeros(k) == s;
    } else {
      var shorter := s + Zeros(k - 1);
      ZerosSnoc(s, k - 1);
      DigitsValueZeros(s, k - 1);
      DigitsWithZeros(s, k - 1);
      DigitsValueSnoc(shorter, '0');
      var v, p := DigitsValue(s), Pow10(k - 1);
      assert DigitsValue(s + Zeros(k)) == (v * p) * 10;
      MulAssoc(v, p, 10);
    }
  }

  /** Appending zero digits does not change the digits that remain after stripping. */
  lemma {:induction false} StripZerosAppend(s: string, k: nat)
    ensures StripTrailingZeros(s + Zeros(k)) == StripTrailingZeros(s)
    decreases k
  {
    if k == 0 {
      assert s + Zeros(k) == s;
    } else {
      var padded := s + Zeros(k);
      assert padded[|padded| - 1] == '0';
      assert padded[..|padded| - 1] == s + Zeros(k - 1);
      StripZerosAppend(s, k - 1);
    }
  }

  /** Digits whose last digit is not '0' spell a number that is not a multiple of ten. */
  lemma LastDigitNonZero(s: string)
    requires IsDigits(s) && s != [] && s[|s| - 1] != '0'
    ensures DigitsValue(s) % 10 != 0
  {
    var last := (s[|s| - 1] as int) - ('0' as int);
    assert 1 <= last <= 9;
    var q := DigitsValue(s[..|s| - 1]);
    assert DigitsValue(s) == q * 10 + last;
  }

  /** Stripping trailing zeros from digits leaves digits. */
  lemma StrippedIsDigits(s: string)
    requires IsDigits(s)
    ensures IsDigits(StripTrailingZeros(s))
  {
    var trimmed := StripTrailingZeros(s);
    forall k | 0 <= k < |trimmed| ensures '0' <= trimmed[k] <= '9' {
      assert trimmed[k] == s[k];
    }
  }

  /** Operands decomposed from any fraction digit string satisfy the CLDR relations. */
  lemma FromFractionWellFormed(n: F64, i: nat, digits: string)
    requires IsDigits(digits)
    ensures WellFormed(FromFraction(n, i, digits))
  {
    var trimmed := StripTrailingZeros(digits);
    StrippedIsDigits(digits);
    DigitsValueZeros(trimmed, |digits| - |trimmed|);
    if trimmed != [] {
      LastDigitNonZero(trimmed);
    }
  }

  /**
   * Padding the fraction digits with `k` zeros adds `k` to `v` and multiplies
   * `f` by `10^k`; `w` and `t` do not see trailing zeros.
   */
  lemma FromFractionPadded(n: F64, i: nat, digits: string, k: nat)
    requires IsDigits(digits)
    ensures IsDigits(digits + Zeros(k))
    ensures FromFraction(n, i, digits + Zeros(k))
              == FromFraction(n, i, digits).(v := |digits| + k, f := DigitsValue(digits) * Pow10(k))
  {
    DigitsValueZeros(digits, k);
    StripZerosAppend(digits, k);
  }
}
