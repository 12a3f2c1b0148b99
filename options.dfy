/**
 * The option set of a Fluent number (`FluentNumberOptions`), the two keyword
 * enums it carries, and `merge`, which overwrites options from the named
 * arguments of a function call such as `NUMBER($n, minimumFractionDigits: 2)`.
 */
module Options {
  import opened Wrappers

  // ---------------------------------------------------------------------------
  // Keyword enums
  // ---------------------------------------------------------------------------

  datatype NumberStyle = Decimal | Currency | Percent

  /** `FluentNumberStyle::default()` */
  const DefaultStyle: NumberStyle := Decimal

  /** `FluentNumberStyle::from(&str)`: a total keyword lookup that falls back to the default. */
  function StyleFrom(input: string): (style: NumberStyle)
    ensures style == Currency <==> input == "currency"
    ensures style == Percent <==> input == "percent"
    ensures style == DefaultStyle <==> input != "currency" && input != "percent"
    ensures input == "decimal" ==> style == Decimal
  {
    match input
    case "decimal" => Decimal
    case "currency" => Currency
    case "percent" => Percent
    case _ => DefaultStyle
  }

  datatype CurrencyDisplayStyle = Symbol | Code | Name

  /** `FluentNumberCurrencyDisplayStyle::default()` */
  const DefaultCurrencyDisplay: CurrencyDisplayStyle := Symbol

  /** `FluentNumberCurrencyDisplayStyle::from(&str)`, with the same fallback policy. */
  function CurrencyDisplayFrom(input: string): (display: CurrencyDisplayStyle)
    ensures display == Code <==> input == "code"
    ensures display == Name <==> input == "name"
    ensures display == DefaultCurrencyDisplay <==> input != "code" && input != "name"
    ensures input == "symbol" ==> display == Symbol
  {
    match input
    case "symbol" => Symbol
    case "code" => Code
    case "name" => Name
    case _ => DefaultCurrencyDisplay
  }

  // ---------------------------------------------------------------------------
  // The option record
  // ---------------------------------------------------------------------------

  /**
   * `FluentNumberOptions` as a value. The digit counts are `usize` in the
   * source; `None` means "no constraint", which is not the same as a zero count.
   */
  datatype NumberOptions = NumberOptions(
    style: NumberStyle,
    currency: Option<string>,
    currencyDisplay: CurrencyDisplayStyle,
    useGrouping: bool,
    minimumIntegerDigits: Option<nat>,
    minimumFractionDigits: Option<nat>,
    maximumFractionDigits: Option<nat>,
    minimumSignificantDigits: Option<nat>,
    maximumSignificantDigits: Option<nat>)

  /** The derived `FluentNumberOptions::default()`. */
  const DefaultOptions: NumberOptions :=
    NumberOptions(DefaultStyle, None, DefaultCurrencyDisplay, false, None, None, None, None, None)

  // ---------------------------------------------------------------------------
  // Arguments
  // ---------------------------------------------------------------------------

  /**
   * The value of one named argument, as far as `merge` distinguishes it: a
   * `FluentValue::String`, a `FluentValue::Number` whose payload is already
   * cast to `usize` (the `n.into()` of the source), or any other variant.
   */
  datatype ArgValue = Str(text: string) | Num(count: nat) | Other

  /** One entry of a `FluentArgs` bag. */
  type Arg = (string, ArgValue)

  /** The nine fields of the option record, to say which field an argument writes. */
  datatype OptionField =
    | StyleField | CurrencyField | CurrencyDisplayField | UseGroupingField
    | MinimumIntegerDigitsField | MinimumFractionDigitsField | MaximumFractionDigitsField
    | MinimumSignificantDigitsField | MaximumSignificantDigitsField

  // The key-to-field table of the source appears in `Target`, `ApplyArg` and
  // the body of `MutableOptions.Merge`, which must stay in step; the contracts
  // of `ApplyArg` and `Merge` check that they do.

  /**
   * The field an argument is meant for, or `None` when `merge` ignores it: an
   * unknown key, a known key with the wrong kind of value, or a `useGrouping`
   * text other than "true" and "false".
   */
  function Target(arg: Arg): Option<OptionField> {
    var (key, value) := arg;
    match value
    case Str(text) =>
      if key == "style" then Some(StyleField)
      else if key == "currency" then Some(CurrencyField)
      else if key == "currencyDisplay" then Some(CurrencyDisplayField)
      else if key == "useGrouping" && (text == "true" || text == "false") then Some(UseGroupingField)
      else None
    case Num(_) =>
      if key == "minimumIntegerDigits" then Some(MinimumIntegerDigitsField)
      else if key == "minimumFractionDigits" then Some(MinimumFractionDigitsField)
      else if key == "maximumFractionDigits" then Some(MaximumFractionDigitsField)
      else if key == "minimumSignificantDigits" then Some(MinimumSignificantDigitsField)
      else if key == "maximumSignificantDigits" then Some(MaximumSignificantDigitsField)
      else None
    case Other => None
  }

  /** The two records hold the same value in `field`. */
  predicate AgreeOn(a: NumberOptions, b: NumberOptions, field: OptionField) {
    match field
    case StyleField => a.style == b.style
    case CurrencyField => a.currency == b.currency
    case CurrencyDisplayField => a.currencyDisplay == b.currencyDisplay
    case UseGroupingField => a.useGrouping == b.useGrouping
    case MinimumIntegerDigitsField => a.minimumIntegerDigits == b.minimumIntegerDigits
    case MinimumFractionDigitsField => a.minimumFractionDigits == b.minimumFractionDigits
    case MaximumFractionDigitsField => a.maximumFractionDigits == b.maximumFractionDigits
    case MinimumSignificantDigitsField => a.minimumSignificantDigits == b.minimumSignificantDigits
    case MaximumSignificantDigitsField => a.maximumSignificantDigits == b.maximumSignificantDigits
  }

  /** `field` of `o` holds what an argument with `value` stores there. */
  predicate Holds(o: NumberOptions, field: OptionField, value: ArgValue) {
    match field
    case StyleField => value.Str? && o.style == StyleFrom(value.text)
    case CurrencyField => value.Str? && o.currency == Some(value.text)
    case CurrencyDisplayField => value.Str? && o.currencyDisplay == CurrencyDisplayFrom(value.text)
    case UseGroupingField => value.Str? && o.useGrouping == (value.text == "true")
    case MinimumIntegerDigitsField => value.Num? && o.minimumIntegerDigits == Some(value.count)
    case MinimumFractionDigitsField => value.Num? && o.minimumFractionDigits == Some(value.count)
    case MaximumFractionDigitsField => value.Num? && o.maximumFractionDigits == Some(value.count)
    case MinimumSignificantDigitsField => value.Num? && o.minimumSignificantDigits == Some(value.count)
    case MaximumSignificantDigitsField => value.Num? && o.maximumSignificantDigits == Some(value.count)
  }

  /**
   * One iteration of the loop in `merge`: the effect of one argument. It
   * stores the argument in the field it targets and leaves every other field
   * alone; an ignored argument changes nothing.
   */
  function ApplyArg(o: NumberOptions, arg: Arg): (r: NumberOptions)
    ensures Target(arg).None? ==> r == o
    ensures Target(arg).Some? ==> Holds(r, Target(arg).value, arg.1)
    ensures forall field :: Target(arg) != Some(field) ==> AgreeOn(r, o, field)
  {
    var (key, value) := arg;
    match value
    case Str(n) =>
      if key == "style" then o.(style := StyleFrom(n))
      else if key == "currency" then o.(currency := Some(n))
      else if key == "currencyDisplay" then o.(currencyDisplay := CurrencyDisplayFrom(n))
      else if key == "useGrouping" then
        (if n == "true" then o.(useGrouping := true)
         else if n == "false" then o.(useGrouping := false)
         else o)
      else o
    case Num(n) =>
      if key == "minimumIntegerDigits" then o.(minimumIntegerDigits := Some(n))
      else if key == "minimumFractionDigits" then o.(minimumFractionDigits := Some(n))
      else if key == "maximumFractionDigits" then o.(maximumFractionDigits := Some(n))
      else if key == "minimumSignificantDigits" then o.(minimumSignificantDigits := Some(n))
      else if key == "maximumSignificantDigits" then o.(maximumSignificantDigits := Some(n))
      else o
    case Other => o
  }

  /** What `merge` leaves in the options: the arguments applied one after another, in order. */
  function Merged(o: NumberOptions, args: seq<Arg>): NumberOptions
    decreases |args|
  {
    if args == [] then o
    else ApplyArg(Merged(o, args[..|args| - 1]), args[|args| - 1])
  }

  // ---------------------------------------------------------------------------
  // Properties of merging
  // ---------------------------------------------------------------------------

  /** Merging a bag in two parts is merging the first part and then the second. */
  lemma {:induction false} MergedAppend(o: NumberOptions, front: seq<Arg>, back: seq<Arg>)
    ensures Merged(o, front + back) == Merged(Merged(o, front), back)
    decreases |back|
  {
    if back == [] {
      assert front + back == front;
    } else {
      var last := |back| - 1;
      assert (front + back)[..|front + back| - 1] == front + back[..last];
      MergedAppend(o, front, back[..last]);
    }
  }

  /** A bag in which every argument is ignored (unknown key or wrong kind of value) changes nothing. */
  lemma {:induction false} MergeIgnoredIsNoOp(o: NumberOptions, args: seq<Arg>)
    requires forall k :: 0 <= k < |args| ==> Target(args[k]).None?
    ensures Merged(o, args) == o
    decreases |args|
  {
    if args != [] {
      MergeIgnoredIsNoOp(o, args[..|args| - 1]);
    }
  }

  /** A field that no argument of the bag targets keeps its value. */
  lemma {:induction false} MergeFrame(o: NumberOptions, args: seq<Arg>, field: OptionField)
    requires forall k :: 0 <= k < |args| ==> Target(args[k]) != Some(field)
    ensures AgreeOn(Merged(o, args), o, field)
    decreases |args|
  {
    if args != [] {
      MergeFrame(o, args[..|args| - 1], field);
    }
  }

  /**
   * For a repeated key the last matching argument wins: after an argument
   * aimed at `field`, later arguments not aimed at it leave its value in place.
   */
  lemma MergeLastWins(o: NumberOptions, front: seq<Arg>, arg: Arg, back: seq<Arg>, field: OptionField)
    requires Target(arg) == Some(field)
    requires forall k :: 0 <= k < |back| ==> Target(back[k]) != Some(field)
    ensures Holds(Merged(o, front + [arg] + back), field, arg.1)
  {
    var mid := Merged(o, front + [arg]);
    assert (front + [arg])[..|front + [arg]| - 1] == front;
    MergedAppend(o, front + [arg], back);
    MergeFrame(mid, back, field);
  }

  /**
   * Two arguments with different keys may be applied in either order: each
   * field has exactly one key, so they never write the same field.
   */
  lemma ApplyArgCommutes(o: NumberOptions, a: Arg, b: Arg)
    requires a.0 != b.0
    ensures ApplyArg(ApplyArg(o, a), b) == ApplyArg(ApplyArg(o, b), a)
  {
    var ab, ba := ApplyArg(ApplyArg(o, a), b), ApplyArg(ApplyArg(o, b), a);
    if Target(a).Some? && Target(b).Some? {
      TargetKey(a);
      TargetKey(b);
      forall field ensures AgreeOn(ab, ba, field) {
        if Target(a) == Some(field) {
          HoldsDetermines(ab, ba, field, a.1);
        } else if Target(b) == Some(field) {
          HoldsDetermines(ab, ba, field, b.1);
        }
      }
      AgreeEverywhere(ab, ba);
    }
  }

  /** The key of the argument that targets a field. */
  function KeyOf(field: OptionField): string {
    match field
    case StyleField => "style"
    case CurrencyField => "currency"
    case CurrencyDisplayField => "currencyDisplay"
    case UseGroupingField => "useGrouping"
    case MinimumIntegerDigitsField => "minimumIntegerDigits"
    case MinimumFractionDigitsField => "minimumFractionDigits"
    case MaximumFractionDigitsField => "maximumFractionDigits"
    case MinimumSignificantDigitsField => "minimumSignificantDigits"
    case MaximumSignificantDigitsField => "maximumSignificantDigits"
  }

  /** Each field has exactly one key. */
  lemma TargetKey(arg: Arg)
    requires Target(arg).Some?
    ensures arg.0 == KeyOf(Target(arg).value)
  {
  }

  lemma HoldsDetermines(a: NumberOptions, b: NumberOptions, field: OptionField, value: ArgValue)
    requires Holds(a, field, value) && Holds(b, field, value)
    ensures AgreeOn(a, b, field)
  {
  }

  lemma AgreeEverywhere(a: NumberOptions, b: NumberOptions)
    requires forall field :: AgreeOn(a, b, field)
    ensures a == b
  {
    assert AgreeOn(a, b, StyleField) && AgreeOn(a, b, CurrencyField) && AgreeOn(a, b, CurrencyDisplayField);
    assert AgreeOn(a, b, UseGroupingField) && AgreeOn(a, b, MinimumIntegerDigitsField);
    assert AgreeOn(a, b, MinimumFractionDigitsField) && AgreeOn(a, b, MaximumFractionDigitsField);
    assert AgreeOn(a, b, MinimumSignificantDigitsField) && AgreeOn(a, b, MaximumSignificantDigitsField);
  }

  /**
   * Swapping two neighbouring arguments with different keys does not change
   * what the bag merges to; so with unique keys, as `FluentArgs` has, the
   * order in which `merge` visits the bag does not matter.
   */
  lemma MergeSwapDistinctKeys(o: NumberOptions, front: seq<Arg>, a: Arg, b: Arg, back: seq<Arg>)
    requires a.0 != b.0
    ensures Merged(o, front + [a, b] + back) == Merged(o, front + [b, a] + back)
  {
    var base := Merged(o, front);
    assert (front + [a, b])[..|front| + 1] == front + [a];
    assert (front + [a])[..|front|] == front;
    assert (front + [b, a])[..|front| + 1] == front + [b];
    assert (front + [b])[..|front|] == front;
    assert Merged(o, front + [a, b]) == ApplyArg(ApplyArg(base, a), b);
    assert Merged(o, front + [b, a]) == ApplyArg(ApplyArg(base, b), a);
    ApplyArgCommutes(base, a, b);
    MergedAppend(o, front + [a, b], back);
    MergedAppend(o, front + [b, a], back);
  }

  /** `useGrouping` set to "false" after "true" turns grouping off again, whatever came before. */
  lemma UseGroupingFlipsBack(o: NumberOptions, args: seq<Arg>)
    ensures Merged(o, args + [("useGrouping", Str("true")), ("useGrouping", Str("false"))]).useGrouping == false
    ensures Merged(o, args + [("useGrouping", Str("true"))]).useGrouping == true
  {
    var both := args + [("useGrouping", Str("true")), ("useGrouping", Str("false"))];
    assert both[..|both| - 1] == args + [("useGrouping", Str("true"))];
  }

  /** A `useGrouping` text other than "true" or "false" leaves the flag as it was. */
  lemma UseGroupingOtherTextIgnored(o: NumberOptions, args: seq<Arg>, text: string)
    requires text != "true" && text != "false"
    ensures Merged(o, args + [("useGrouping", Str(text))]) == Merged(o, args)
  {
    var all := args + [("useGrouping", Str(text))];
    assert all[..|all| - 1] == args;
  }

  // ---------------------------------------------------------------------------
  // merge, in place
  // ---------------------------------------------------------------------------

  /**
   * `FluentNumberOptions` as `merge(&mut self, ...)` sees it: a record whose
   * fields are overwritten in place. `Value` reads it back as a `NumberOptions`.
   */
  class MutableOptions {
    var style: NumberStyle
    var currency: Option<string>
    var currencyDisplay: CurrencyDisplayStyle
    var useGrouping: bool
    var minimumIntegerDigits: Option<nat>
    var minimumFractionDigits: Option<nat>
    var maximumFractionDigits: Option<nat>
    var minimumSignificantDigits: Option<nat>
    var maximumSignificantDigits: Option<nat>

    function Value(): NumberOptions
      reads this
    {
      NumberOptions(style, currency, currencyDisplay, useGrouping, minimumIntegerDigits,
                    minimumFractionDigits, maximumFractionDigits,
                    minimumSignificantDigits, maximumSignificantDigits)
    }

    constructor (init: NumberOptions)
      ensures Value() == init
    {
      style := init.style;
      currency := init.currency;
      currencyDisplay := init.currencyDisplay;
      useGrouping := init.useGrouping;
      minimumIntegerDigits := init.minimumIntegerDigits;
      minimumFractionDigits := init.minimumFractionDigits;
      maximumFractionDigits := init.maximumFractionDigits;
      minimumSignificantDigits := init.minimumSignificantDigits;
      maximumSignificantDigits := init.maximumSignificantDigits;
    }

    /** `FluentNumberOptions::merge`: walk the bag in order and overwrite the field each argument targets. */
    method Merge(args: seq<Arg>)
      modifies this
      ensures Value() == Merged(old(Value()), args)
    {
      for i := 0 to |args|
        invariant Value() == Merged(old(Value()), args[..i])
      {
        assert args[..i + 1][..i] == args[..i];
        var (key, value) := args[i];
        match value {
          case Str(n) =>
            if key == "style" {
              style := StyleFrom(n);
            } else if key == "currency" {
              currency := Some(n);
            } else if key == "currencyDisplay" {
              currencyDisplay := CurrencyDisplayFrom(n);
            } else if key == "useGrouping" {
              if n == "true" {
                useGrouping := true;
              } else if n == "false" {
                useGrouping := false;
              }
            }
          case Num(n) =>
            if key == "minimumIntegerDigits" {
              minimumIntegerDigits := Some(n);
            } else if key == "minimumFractionDigits" {
              minimumFractionDigits := Some(n);
            } else if key == "maximumFractionDigits" {
              maximumFractionDigits := Some(n);
            } else if key == "minimumSignificantDigits" {
              minimumSignificantDigits := Some(n);
            } else if key == "maximumSignificantDigits" {
              maximumSignificantDigits := Some(n);
            }
          case Other =>
        }
      }
      assert args[..|args|] == args;
    }
  }
}
