/**
 * `FluentNumber`: a float paired with its options, its text rendering
 * (`as_string`), its construction from a numeric literal (`from_str`) and its
 * plural operands (`Into<PluralOperands>`).
 */
module Number {
  import opened Wrappers
  import opened Float
  import opened Text
  import opened Options
  import opened Operands

  /** `FluentNumber::new(value, options)` is this datatype's constructor. */
  datatype FluentNumber = FluentNumber(value: F64, options: NumberOptions)

  /** `s.find('.').map(|pos| s.len() - pos - 1)`: how many characters follow the first '.'. */
  function FractionLength(s: string): (r: Option<nat>)
    ensures r.None? <==> '.' !in s
    ensures r.Some? ==> r.value < |s| && s[|s| - r.value - 1] == '.' && '.' !in s[..|s| - r.value - 1]
  {
    match Find(s, '.')
    case None => None
    case Some(pos) => Some(|s| - pos - 1)
  }

  /** The characters after the first '.', empty when there is no '.'. */
  function FractionDigits(s: string): (r: string)
    ensures FractionLength(s).Some? ==> |r| == FractionLength(s).value
    ensures FractionLength(s).None? ==> r == []
  {
    match Find(s, '.')
    case None => []
    case Some(pos) => s[pos + 1..]
  }

  // ---------------------------------------------------------------------------
  // as_string
  // ---------------------------------------------------------------------------

  /**
   * `FluentNumber::as_string`. `rendered` is `self.value.to_string()`, which
   * the model takes as given. With a minimum fraction digit count, zeros (or a
   * '.' and zeros) are appended until that many characters follow the first
   * '.'; nothing is ever removed.
   */
  function AsString(number: FluentNumber, rendered: string): (r: string)
    ensures number.options.minimumFractionDigits.None? ==> r == rendered
    ensures |rendered| <= |r| && r[..|rendered|] == rendered
    ensures '.' in rendered ==> AllZeros(r[|rendered|..])
    ensures '.' !in rendered && number.options.minimumFractionDigits.Some? ==>
              r[|rendered|..] == "." + Zeros(number.options.minimumFractionDigits.value)
    ensures number.options.minimumFractionDigits.Some? ==>
              FractionLength(r).Some? && FractionLength(r).value >= number.options.minimumFractionDigits.value
    ensures number.options.minimumFractionDigits.Some? && FractionLength(r).value > number.options.minimumFractionDigits.value ==>
              r == rendered
    ensures number.options.minimumFractionDigits.Some? && FractionLength(rendered).Some? &&
            FractionLength(rendered).value >= number.options.minimumFractionDigits.value ==>
              r == rendered
  {
    match number.options.minimumFractionDigits
    case None => rendered
    case Some(minfd) =>
      match FractionLength(rendered)
      case Some(fracNum) =>
        var missing := if fracNum > minfd then 0 else minfd - fracNum;
        FindAppend(rendered, Zeros(missing), '.');
        assert (rendered + Zeros(missing))[..|rendered|] == rendered;
        rendered + Zeros(missing)
      case None =>
        FindAfter(rendered, "." + Zeros(minfd), '.');
        assert (rendered + ("." + Zeros(minfd)))[..|rendered|] == rendered;
        rendered + ("." + Zeros(minfd))
  }

  /** Rendering is idempotent: a rendering that already meets the minimum is left as it is. */
  lemma AsStringIdempotent(number: FluentNumber, rendered: string)
    ensures AsString(number, AsString(number, rendered)) == AsString(number, rendered)
  {
  }

  // ---------------------------------------------------------------------------
  // from_str
  // ---------------------------------------------------------------------------

  /** `std::num::ParseFloatError`; its payload is not modelled. */
  datatype ParseFloatError = ParseFloatError

  /**
   * `FluentNumber::from_str`. `parsed` is the outcome of `f64::from_str(input)`,
   * which the model takes as given. On success the number keeps, as its
   * minimum fraction digit count, how many characters the literal shows after
   * its '.'; every other option is the default.
   */
  function FromStr(input: string, parsed: Option<F64>): (r: Result<FluentNumber, ParseFloatError>)
    ensures r.Err? <==> parsed.None?
    ensures r.Ok? ==> r.value.value == parsed.value
    ensures r.Ok? ==> r.value.options.(minimumFractionDigits := None) == DefaultOptions
    ensures r.Ok? ==> (r.value.options.minimumFractionDigits.None? <==> '.' !in input)
    ensures r.Ok? && r.value.options.minimumFractionDigits.Some? ==>
              var k := r.value.options.minimumFractionDigits.value;
              k < |input| && input[|input| - k - 1] == '.' && '.' !in input[..|input| - k - 1]
  {
    match parsed
    case None => Err(ParseFloatError)
    case Some(n) =>
      var mfd := FractionLength(input);
      Ok(FluentNumber(n, DefaultOptions.(minimumFractionDigits := mfd)))
  }

  /**
   * Trailing zeros written in a literal survive a parse and a render: when the
   * float renders as the literal minus some trailing zeros (as "1.50" renders
   * as "1.5", or "2.0" as "2"), `as_string` gives back the literal.
   */
  lemma ParsedTrailingZerosSurvive(input: string, x: F64, rendered: string, k: nat)
    requires ('.' in rendered && input == rendered + Zeros(k)) || ('.' !in rendered && input == rendered + "." + Zeros(k))
    ensures FromStr(input, Some(x)).Ok?
    ensures AsString(FromStr(input, Some(x)).value, rendered) == input
  {
    if '.' in rendered {
      FindAppend(rendered, Zeros(k), '.');
    } else {
      assert input == rendered + ("." + Zeros(k));
      FindAfter(rendered, "." + Zeros(k), '.');
    }
  }

  // ---------------------------------------------------------------------------
  // Into<PluralOperands>
  // ---------------------------------------------------------------------------

  /**
   * `Into<PluralOperands> for &FluentNumber`. `baseline` is what
   * `self.value.try_into()` yields (the operands of the float's own
   * rendering). A minimum fraction digit count larger than `v` widens `v` and
   * pads `f` with the zeros it implies; `t` and `w`, which ignore trailing
   * zeros, and `n` and `i` stay as they are.
   */
  function IntoPluralOperands(number: FluentNumber, baseline: PluralOperands): (r: PluralOperands)
    ensures r.n == baseline.n && r.i == baseline.i && r.w == baseline.w && r.t == baseline.t
    ensures number.options.minimumFractionDigits.Some? && number.options.minimumFractionDigits.value > baseline.v ==>
              r.v == number.options.minimumFractionDigits.value &&
              r.f == baseline.f * Pow10(number.options.minimumFractionDigits.value - baseline.v)
    ensures number.options.minimumFractionDigits.None? || number.options.minimumFractionDigits.value <= baseline.v ==>
              r == baseline
    ensures number.options.minimumFractionDigits.Some? ==> r.v >= number.options.minimumFractionDigits.value
    ensures r.v >= baseline.v
  {
    var operands := baseline;
    match number.options.minimumFractionDigits
    case None => operands
    case Some(mfd) =>
      if mfd > operands.v then
        operands.(f := operands.f * Pow10(mfd - operands.v), v := mfd)
      else operands
  }

  /** Widening keeps the CLDR relations among `v`, `w`, `f` and `t`. */
  lemma IntoPluralOperandsWellFormed(number: FluentNumber, baseline: PluralOperands)
    requires WellFormed(baseline)
    ensures WellFormed(IntoPluralOperands(number, baseline))
  {
    var r := IntoPluralOperands(number, baseline);
    if r != baseline {
      var m := number.options.minimumFractionDigits.value;
      var pad := m - baseline.v;
      var scale := Pow10(pad);
      var trail := Pow10(baseline.v - baseline.w);
      Pow10Add(baseline.v, pad);
      Pow10Add(baseline.v - baseline.w, pad);
      assert m - baseline.w == (baseline.v - baseline.w) + pad;
      assert r.f == baseline.t * Pow10(r.v - r.w) by {
        assert r.f == (baseline.t * trail) * scale;
        MulAssoc(baseline.t, trail, scale);
      }
      assert r.f < Pow10(m) by {
        MulLess(baseline.f, Pow10(baseline.v), scale);
      }
    }
  }

  /** Widening twice with the same options is widening once. */
  lemma IntoPluralOperandsIdempotent(number: FluentNumber, baseline: PluralOperands)
    ensures IntoPluralOperands(number, IntoPluralOperands(number, baseline)) == IntoPluralOperands(number, baseline)
  {
  }

  /**
   * The fraction digits of what `as_string` displays are those of the float's
   * rendering followed by the zeros the minimum asks for.
   */
  lemma AsStringFractionDigits(number: FluentNumber, rendered: string, m: nat)
    requires number.options.minimumFractionDigits == Some(m)
    ensures FractionDigits(AsString(number, rendered))
              == FractionDigits(rendered) + Zeros(if |FractionDigits(rendered)| > m then 0 else m - |FractionDigits(rendered)|)
  {
    var digits := FractionDigits(rendered);
    var missing := if |digits| > m then 0 else m - |digits|;
    if '.' in rendered {
      var pos := Find(rendered, '.').value;
      FindAppend(rendered, Zeros(missing), '.');
      assert (rendered + Zeros(missing))[pos + 1..] == rendered[pos + 1..] + Zeros(missing);
    } else {
      FindAfter(rendered, "." + Zeros(m), '.');
      assert (rendered + ("." + Zeros(m)))[|rendered| + 1..] == Zeros(m);
      assert digits + Zeros(missing) == Zeros(m);
    }
  }

  /**
   * The operands agree with the text: widening the operands of the float's own
   * rendering gives exactly the operands of what `as_string` displays.
   */
  lemma OperandsFollowRendering(number: FluentNumber, rendered: string, n: F64, i: nat)
    requires IsDigits(FractionDigits(rendered))
    ensures IsDigits(FractionDigits(AsString(number, rendered)))
    ensures IntoPluralOperands(number, FromFraction(n, i, FractionDigits(rendered)))
              == FromFraction(n, i, FractionDigits(AsString(number, rendered)))
  {
    var digits := FractionDigits(rendered);
    var shown := FractionDigits(AsString(number, rendered));
    match number.options.minimumFractionDigits
    case None =>
      assert shown == digits;
    case Some(m) =>
      var missing := if |digits| > m then 0 else m - |digits|;
      AsStringFractionDigits(number, rendered, m);
      assert shown == digits + Zeros(missing);
      FromFractionPadded(n, i, digits, missing);
      if missing == 0 {
        assert digits + Zeros(missing) == digits;
      }
  }

  /**
   * The literal "1.50": its number keeps two fraction digits, renders back as
   * "1.50" from the float's "1.5", and its operands widen from those of "1.5"
   * (v=1, w=1, f=5, t=5) to v=2, w=1, f=50, t=5.
   */
  lemma OnePointFiftyExample(x: F64)
    ensures FromStr("1.50", Some(x)).Ok?
    ensures FromStr("1.50", Some(x)).value.options.minimumFractionDigits == Some(2)
    ensures AsString(FromStr("1.50", Some(x)).value, "1.5") == "1.50"
    ensures IntoPluralOperands(FromStr("1.50", Some(x)).value, PluralOperands(x, 1, 1, 1, 5, 5))
              == PluralOperands(x, 1, 2, 1, 50, 5)
  {
    assert "1.50" == "1.5" + Zeros(1);
    ParsedTrailingZerosSurvive("1.50", x, "1.5", 1);
  }

  /**
   * A minimum of zero fraction digits still appends the '.' to a rendering
   * that has none: "5" is shown as "5.".
   */
  lemma ZeroMinimumAppendsBareDot(x: F64)
    ensures AsString(FluentNumber(x, DefaultOptions.(minimumFractionDigits := Some(0))), "5") == "5."
  {
    FindAfter("5", "." + Zeros(0), '.');
  }

  /**
   * The fraction count of a literal is every character after its '.', so an
   * exponent is counted too: "1.5e3" keeps three fraction digits.
   */
  lemma ExponentCountsAsFractionDigits(x: F64)
    ensures FromStr("1.5e3", Some(x)).Ok?
    ensures FromStr("1.5e3", Some(x)).value.options.minimumFractionDigits == Some(3)
  {
    assert Find("1.5e3", '.') == Some(1);
  }
}
