# Fluent numbers: options, rendering and plural operands

This project models the numeric value layer of the Fluent localization
library for Rust (`fluent-bundle`, file `src/types/number.rs`).

A `FluentNumber` is a 64-bit float paired with a set of formatting options
(`FluentNumberOptions`). The model covers what that file does with the pair:

- **Keyword enums.** `FluentNumberStyle` and `FluentNumberCurrencyDisplayStyle`
  are parsed from keywords. Any unknown keyword falls back silently to the
  default variant.
- **`merge`.** Named call arguments (`FluentArgs`) overwrite options in place.
  Each recognised key that carries the right kind of value writes exactly one
  field. Every other argument is ignored.
- **`as_string`.** Renders the number. When a minimum fraction digit count is
  set, zeros are appended (or a `.` and zeros) until that many characters
  follow the first `.`. Nothing is ever removed.
- **`from_str`.** Builds a number from a numeric literal. The number remembers
  how many characters the literal shows after its `.`, so "1.50" keeps both of
  its digits.
- **`Into<PluralOperands>`.** Produces the CLDR plural operands `(n, i, v, w, f, t)`
  (Unicode Technical Standard #35, Part 3, section 5.1.1). When the minimum
  fraction digit count exceeds `v`, `v` is raised to it and `f` is padded with
  the implied zeros.

Modules:

- `Wrappers` holds `Option` and `Result`.
- `Float` holds `F64`, a float kept as its bit pattern. The model never computes
  with it.
- `Text` holds `str::find` and `"0".repeat`.
- `Options` holds the enums, the option record, `merge` as a function over
  values (`ApplyArg`, `Merged`) and `merge` in place (`MutableOptions.Merge`).
- `Operands` holds the operand record and the CLDR decomposition of fraction
  digits (`FromFraction`, below). It also holds the invariant `WellFormed`, which
  that decomposition satisfies: `t` has no trailing zero, and `f` is `t`
  followed by `v - w` zeros.
- `Number` holds `FluentNumber`, `AsString`, `FromStr` and `IntoPluralOperands`.
  It also holds the lemmas that tie them together.

The parts of the Rust standard library and of `intl_pluralrules` that the file
calls are parameters of the model:

- `rendered` stands for `f64::to_string`.
- `parsed` stands for the result of `f64::from_str`.
- `baseline` stands for the operands that `f64::try_into` yields.

`OperandsFollowRendering` relates the last two steps. Assume the baseline
operands are the CLDR decomposition (`FromFraction`) of the float's own
rendering, as section 5.1.1 of UTS #35 defines them. Then widening them gives exactly the
decomposition of the text that `as_string` displays.

Two behaviours of the source are kept as written. A minimum of zero fraction
digits still appends a bare '.' to a rendering that has none ("5" becomes
"5."). And `from_str` counts every character after the literal's '.',
so "1.5e3" asks for three fraction digits.

A failed operand conversion is not returned to the caller as an error: the
code panics at `number.rs:211` (`.expect`). The model follows the code.
`IntoPluralOperands` takes the converted operands, and the panic path is
outside it.

## Model

| member | source | states |
|---|---|---|
| `Options.StyleFrom` | fluent-bundle/src/types/number.rs:18-33 | the result is `Currency` exactly for "currency" and `Percent` exactly for "percent"; "decimal" and every other string give the default `Decimal`; it never fails |
| `Options.CurrencyDisplayFrom` | fluent-bundle/src/types/number.rs:42-57 | the result is `Code` exactly for "code" and `Name` exactly for "name"; "symbol" and every other string give the default `Symbol` |
| `Options.ApplyArg` | fluent-bundle/src/types/number.rs:75-106 | one argument stores its value in the one field its key names; every other field keeps its value; an unknown key, the wrong kind of value, or a `useGrouping` text other than "true"/"false" changes nothing |
| `Options.MergedAppend` | fluent-bundle/src/types/number.rs:74-107 | arguments are applied in order: merging a bag in two parts equals merging the first part and then the second |
| `Options.MergeIgnoredIsNoOp` | fluent-bundle/src/types/number.rs:75-105 | a bag whose arguments are all unrecognised or of the wrong kind leaves every option unchanged |
| `Options.MergeFrame` | fluent-bundle/src/types/number.rs:74-107 | a field that no argument of the bag targets keeps its old value after the merge |
| `Options.MergeLastWins` | fluent-bundle/src/types/number.rs:74-107 | for a repeated key the last matching argument decides the field's final value |
| `Options.UseGroupingFlipsBack` | fluent-bundle/src/types/number.rs:85-89 | `useGrouping` "true" sets grouping on; a later "false" sets it off again, whatever the prior value |
| `Options.UseGroupingOtherTextIgnored` | fluent-bundle/src/types/number.rs:85-89 | a `useGrouping` text other than "true" or "false" leaves all options as they were |
| `Options.ApplyArgCommutes` | fluent-bundle/src/types/number.rs:75-105 | two arguments with different keys give the same options in either order, because no two keys write the same field |
| `Options.MergeSwapDistinctKeys` | fluent-bundle/src/types/number.rs:74-107 | swapping neighbouring arguments with different keys in the bag does not change the merged options |
| `Options.MutableOptions.Merge` | fluent-bundle/src/types/number.rs:73-108 | the in-place loop over the bag leaves the fields equal to the bag's arguments applied in order to the old fields |
| `Number.FractionLength` | fluent-bundle/src/types/number.rs:146 | `None` exactly when the text has no '.'; otherwise the count of characters after the first '.' |
| `Number.AsString` | fluent-bundle/src/types/number.rs:122-138 | without a minimum the rendering is returned unchanged; with a minimum `k`, the rendering is a prefix of the result, only '0's (or '.' then '0's when the rendering had no '.') are appended, at least `k` characters follow the first '.', more than `k` only if nothing was appended, and a rendering that already has `k` fraction characters is returned unchanged |
| `Number.AsStringIdempotent` | fluent-bundle/src/types/number.rs:122-138 | rendering an already padded text again changes nothing |
| `Number.AsStringFractionDigits` | fluent-bundle/src/types/number.rs:124-136 | the fraction digits of the result are the rendering's own fraction digits followed by exactly the missing zeros |
| `Number.FromStr` | fluent-bundle/src/types/number.rs:144-153 | parse failure gives the error; on success the value is the parsed float, every option is default except the minimum fraction digit count, and that count is `None` exactly when the literal has no '.' and otherwise the number of characters after its first '.' |
| `Number.ParsedTrailingZerosSurvive` | fluent-bundle/src/types/number.rs:146 | a literal whose float renders without some of its trailing zeros (or without its ".0…") renders back as the literal itself |
| `Number.IntoPluralOperands` | fluent-bundle/src/types/number.rs:206-220 | with a minimum `m` above `v`, `v` becomes `m` and `f` is multiplied by `10^(m - v)`; otherwise the operands are returned unchanged; `n`, `i`, `w`, `t` never change, and afterwards `v >= m` |
| `Number.IntoPluralOperandsWellFormed` | fluent-bundle/src/types/number.rs:212-217 | widening preserves the CLDR relations among `v`, `w`, `f` and `t` |
| `Number.IntoPluralOperandsIdempotent` | fluent-bundle/src/types/number.rs:212-217 | widening a second time with the same options changes nothing |
| `Number.OperandsFollowRendering` | fluent-bundle/src/types/number.rs:206-220 | widening the operands of the float's rendering yields the operands of the text `as_string` displays |
| `Number.OnePointFiftyExample` | fluent-bundle/src/types/number.rs:144-153 | "1.50" parses with minimum fraction digits 2, renders back as "1.50" from "1.5", and its operands widen from v=1, f=5 to v=2, f=50 with w=1, t=5 kept |
| `Number.ZeroMinimumAppendsBareDot` | fluent-bundle/src/types/number.rs:133-135 | with a minimum of zero fraction digits, a rendering without '.' still gets one: "5" is shown as "5." |
| `Number.ExponentCountsAsFractionDigits` | fluent-bundle/src/types/number.rs:146 | every character after the literal's '.' is counted, exponent included: "1.5e3" keeps a minimum of 3 fraction digits |
| `Operands.FromFractionWellFormed` | fluent-bundle/src/types/number.rs:208-211 | operands decomposed from any fraction digit string satisfy the CLDR relations (`w <= v`, `f < 10^v`, `t < 10^w`, `f = t * 10^(v-w)`, and `t` has no trailing zero) |
| `Operands.FromFractionPadded` | fluent-bundle/src/types/number.rs:213-215 | appending `k` zeros to the fraction digits adds `k` to `v`, multiplies `f` by `10^k`, and leaves `w` and `t` alone |

## Left out

- Float rendering (`f64::to_string`) and parsing (`f64::from_str`) are not modelled. They enter as the parameters `rendered` and `parsed`.
- The float-to-operands conversion of `intl_pluralrules` (`try_into` at number.rs:208-211) is not modelled. It enters as the parameter `baseline`.
- The `.expect` panic at number.rs:211 is outside the model, because that conversion is not modelled either.
- The `from_num!` conversions between `FluentNumber` and the primitive numeric types (number.rs:162-204, 223-225) are left out. They are host casts (`as f64`, `as $num`) with float rounding and saturation, and contain no logic of their own.
- The `Into<FluentValue>` wrapper (number.rs:156-160) and the `value_from_copy_ref` test (number.rs:227-238) are left out. The first only wraps a value; the second depends on `FluentValue::try_number`, which is not part of this model.
- `FluentNumber::new` (number.rs:118-120) is the `FluentNumber` datatype constructor.
- The `Default` implementations are the constants `DefaultStyle`, `DefaultCurrencyDisplay` and `DefaultOptions`.
- The `n.into()` cast of a `FluentValue::Number` argument to `usize` is not modelled. `ArgValue.Num` carries the count it yields.
- The variants of `FluentValue` other than `String` and `Number` are all `ArgValue.Other`.
- `FluentArgs` is taken as any sequence of (key, value) pairs. The library's bag has unique keys, but the order in which `merge` visits them is unspecified; the model fixes one order. Each field has exactly one key, so with unique keys each field is written at most once, and `MergeSwapDistinctKeys` shows that the order does not change the outcome.
- Lengths and positions are counted in characters, while Rust counts bytes. The two agree on ASCII text. A float rendering is always ASCII, and so is any text that `f64::from_str` accepts.
- The Rust `usize`/`u64` widths of the digit counts and operands are not modelled; counts are unbounded `nat`.
- Number.IntoPluralOperands: does not model overflow of `10_usize.pow` or of `f *= …` for large minimum counts, nor the `mfd as u32` truncation; the model computes with unbounded integers.
- The test file `fluent-bundle/tests/types_test.rs` is not modelled. It exercises `FluentValue::matches`, `Scope`, `FluentBundle` and locale plural rules, none of which are part of this model.
