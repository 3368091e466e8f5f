/**
 * The custom start-pose editor of the wizard's start-position step
 * (`Step4StartPosition`): the keystroke filter for the three number fields,
 * the clamp-and-snap decision made when a field loses focus, with the
 * message it shows, and which text a field displays. Lengths are stored in
 * metres; with `useInches` the x and y fields are typed in inches.
 * `parseFloat`'s result is a parameter (`None` for `NaN`).
 */
module StartPositionStep {
  import opened Wrappers
  import opened Strings
  import opened PoseEncoder
  import opened WizardActions

  // The keystroke filter

  /** The text after an optional leading minus. */
  function Unsigned(raw: string): (s: string)
    ensures raw == (if |raw| > 0 && raw[0] == '-' then "-" else "") + s
  {
    if |raw| > 0 && raw[0] == '-' then raw[1..] else raw
  }

  /** What follows the leading digits of the unsigned text. */
  function AfterWhole(raw: string): (rest: string)
    ensures Unsigned(raw) == DigitPrefix(Unsigned(raw)) + rest
  {
    var u := Unsigned(raw);
    var p := DigitPrefix(u);
    assert u == u[..|p|] + u[|p|..];
    u[|p|..]
  }

  /** `/^-?\d*\.?\d*$/`: an optional minus, digits, an optional point, digits. */
  predicate IsEditPattern(raw: string) {
    var rest := AfterWhole(raw);
    rest == [] || (rest[0] == '.' && AllDigits(rest[1..]))
  }

  /** The text of the pattern's pieces put together. */
  function EditShape(neg: bool, whole: string, point: bool, fraction: string): string {
    (if neg then "-" else "") + whole + (if point then "." else "") + fraction
  }

  /** Every text the filter accepts is made of the pattern's pieces. */
  lemma EditPatternSound(raw: string)
    requires IsEditPattern(raw)
    ensures exists neg, whole, point, fraction :: AllDigits(whole) && AllDigits(fraction) && raw == EditShape(neg, whole, point, fraction)
  {
    var neg := |raw| > 0 && raw[0] == '-';
    var a := DigitPrefix(Unsigned(raw));
    var rest := AfterWhole(raw);
    var point := rest != [];
    var f := if point then rest[1..] else [];
    assert rest == (if point then "." else "") + f;
    ShapeJoin(if neg then "-" else "", a, if point then "." else "", f);
    assert raw == EditShape(neg, a, point, f);
  }

  /** Concatenating four pieces does not depend on the grouping. */
  lemma ShapeJoin(sign: string, a: string, p: string, f: string)
    ensures sign + (a + (p + f)) == sign + a + p + f
  {
  }

  /** Every text made of the pattern's pieces is accepted: `''`, `'-'`, `'-.'`, `'12.'` and `'.5'` among them. */
  lemma EditPatternComplete(neg: bool, whole: string, point: bool, fraction: string)
    requires AllDigits(whole) && AllDigits(fraction)
    ensures IsEditPattern(EditShape(neg, whole, point, fraction))
  {
    var raw := EditShape(neg, whole, point, fraction);
    var tail := (if point then "." else "") + fraction;
    var s := whole + tail;
    if neg {
      assert raw == "-" + s && raw[1..] == s;
    } else {
      assert raw == s;
      assert |raw| > 0 ==> raw[0] != '-' by {
        if |raw| > 0 && whole == [] && !point { assert raw[0] == fraction[0]; }
      }
    }
    if point {
      DigitPrefixOfDigitsThen(whole, tail);
      assert s[|whole|..] == tail;
    } else {
      assert AllDigits(s);
      DigitPrefixOfDigitsThen(s, []);
      assert s + [] == s;
    }
  }

  /** A second point is refused. */
  lemma SecondPointRejected()
    ensures !IsEditPattern("1.2.3")
  {
    assert Unsigned("1.2.3") == "1" + ".2.3";
    DigitPrefixOfDigitsThen("1", ".2.3");
    assert AfterWhole("1.2.3")[1..][1] == '.';
  }

  /** A second minus is refused. */
  lemma SecondMinusRejected()
    ensures !IsEditPattern("--1")
  {
    assert Unsigned("--1")[0] == '-';
  }

  /** A minus after digits is refused. */
  lemma TrailingMinusRejected()
    ensures !IsEditPattern("1-")
  {
    assert Unsigned("1-") == "1" + "-";
    DigitPrefixOfDigitsThen("1", "-");
  }

  /** A letter is refused. */
  lemma LetterRejected()
    ensures !IsEditPattern("e5")
  {
    assert Unsigned("e5")[0] == 'e';
  }

  /** `handleFieldChange`: the typed text replaces the field's editing value only when the filter accepts it. */
  function FieldChange(editing: map<PoseField, string>, field: PoseField, raw: string): (r: map<PoseField, string>)
    ensures IsEditPattern(raw) ==> r.Keys == editing.Keys + {field} && r[field] == raw
    ensures !IsEditPattern(raw) ==> r == editing
    ensures forall f :: f in editing && f != field ==> f in r && r[f] == editing[f]
  {
    if IsEditPattern(raw) then editing[field := raw] else editing
  }

  // The blur decision

  /** How a field is limited: a symmetric bound, the quantisation range, the tolerance for a message and the decimals kept. */
  datatype AxisRule = AxisRule(bound: real, range: real, threshold: real, places: nat)

  function RuleOf(field: PoseField): (r: AxisRule)
    ensures r.bound > 0.0 && r.range == 2.0 * r.bound
  {
    if field == Theta then AxisRule(AngleOffset, AngleRange, 0.001, 1)
    else AxisRule(PositionOffset, PositionRange, 0.0001, 6)
  }

  /** The value in stored units: x and y typed in inches are converted to metres; the heading never is. */
  function StoredUnits(field: PoseField, typed: real, useInches: bool): real {
    if useInches && field != Theta then InchesToMeters(typed) else typed
  }

  /** `Math.max(-bound, Math.min(bound, v))`. */
  function ClampToBound(v: real, bound: real): (c: real)
    requires bound >= 0.0
    ensures -bound <= c <= bound
    ensures -bound <= v <= bound ==> c == v
    ensures Abs(v - c) == if Abs(v) > bound then Abs(v) - bound else 0.0
  {
    if v < -bound then -bound else if v > bound then bound else v
  }

  /** The clamped value snapped to the pose grid. */
  function Snap(v: real, rule: AxisRule): real
    requires rule.bound > 0.0 && rule.range == 2.0 * rule.bound
  {
    RoundToResolution(ClampToBound(v, rule.bound), rule.range, rule.bound)
  }

  /** A snapped value stays within the field's bound. */
  lemma SnapWithinBound(v: real, rule: AxisRule)
    requires rule.bound > 0.0 && rule.range == 2.0 * rule.bound
    ensures -rule.bound <= Snap(v, rule) <= rule.bound
  {
    var k := Quantise(ClampToBound(v, rule.bound), rule.range, rule.bound);
    assert 0 <= k < MaxValue;
    assert k as real * rule.range / MaxValue as real <= rule.range by {
      assert k as real <= MaxValue as real;
      assert k as real * rule.range <= MaxValue as real * rule.range;
    }
    assert 0.0 <= k as real * rule.range / MaxValue as real;
  }

  /** `10^n`. */
  function Pow10(n: nat): (p: real)
    ensures p >= 1.0
  {
    if n == 0 then 1.0 else 10.0 * Pow10(n - 1)
  }

  /** The nearest multiple of `1 / scale` to a non-negative `a`, halves rounded up. */
  function RoundScaled(a: real, scale: real): (r: real)
    requires scale >= 1.0
    ensures -0.5 / scale <= r - a <= 0.5 / scale
  {
    var m := JsRound(a * scale);
    ScaledBack(m as real, a, scale);
    m as real / scale
  }

  /** A number within 1/2 of `a * scale`, divided by `scale`, is within `0.5 / scale` of `a`. */
  lemma ScaledBack(m: real, a: real, scale: real)
    requires scale >= 1.0 && a * scale - 0.5 < m <= a * scale + 0.5
    ensures -0.5 / scale <= m / scale - a <= 0.5 / scale
  {
    var d := m - a * scale;
    assert m / scale - a == d / scale;
    assert -0.5 < d <= 0.5;
    assert -0.5 / scale <= d / scale <= 0.5 / scale;
  }

  /** `parseFloat(v.toFixed(places))`: the nearest multiple of `10^-places`, halves away from zero. */
  function DecimalRound(v: real, places: nat): (r: real)
    ensures Abs(r - v) <= 0.5 / Pow10(places)
  {
    if v < 0.0 then -RoundScaled(-v, Pow10(places)) else RoundScaled(v, Pow10(places))
  }

  const HeadingClampMessage: string := "Heading clamped to ±180° range"
  const HeadingRoundMessage: string := "Heading rounded to ~0.09° resolution"

  /** `field.toUpperCase()`. */
  function FieldName(field: PoseField): string {
    match field
    case X => "X"
    case Y => "Y"
    case Theta => "THETA"
  }

  function ClampMessage(field: PoseField, useInches: bool): string {
    if field == Theta then HeadingClampMessage
    else if useInches then FieldName(field) + " clamped to ±72\" range"
    else FieldName(field) + " clamped to ±1.83m range"
  }

  function RoundMessage(field: PoseField, useInches: bool): string {
    if field == Theta then HeadingRoundMessage
    else if useInches then FieldName(field) + " rounded to ~0.035\" resolution"
    else FieldName(field) + " rounded to ~0.9mm resolution"
  }

  /** What a blur hands to `onUpdateField`, and the message it shows (`None` for none). */
  datatype BlurResult = BlurResult(value: real, message: Option<string>)

  /**
   * `handleFieldBlur`'s decision: `NaN` stores 0 silently; otherwise the
   * value in stored units is clamped to the bound and snapped to the pose
   * grid, a clamp by more than the tolerance is reported as such, and only
   * otherwise a snap by more than the tolerance is reported as rounding.
   */
  function BlurDecision(field: PoseField, parsed: Option<real>, useInches: bool): (r: BlurResult)
    ensures parsed.None? ==> r == BlurResult(0.0, None)
    ensures parsed.Some? ==>
      var v := StoredUnits(field, parsed.value, useInches);
      var rule := RuleOf(field);
      && r.value == DecimalRound(Snap(v, rule), rule.places)
      && (Abs(v) > rule.bound + rule.threshold ==> r.message == Some(ClampMessage(field, useInches)))
      && (Abs(v) <= rule.bound + rule.threshold && Abs(v - Snap(v, rule)) > rule.threshold ==> r.message == Some(RoundMessage(field, useInches)))
      && (Abs(v) <= rule.bound + rule.threshold && Abs(v - Snap(v, rule)) <= rule.threshold ==> r.message.None?)
  {
    if parsed.None? then BlurResult(0.0, None)
    else
      var v := StoredUnits(field, parsed.value, useInches);
      var rule := RuleOf(field);
      var clamped := ClampToBound(v, rule.bound);
      var adjusted := RoundToResolution(clamped, rule.range, rule.bound);
      var message :=
        if Abs(v - clamped) > rule.threshold then Some(ClampMessage(field, useInches))
        else if Abs(v - adjusted) > rule.threshold then Some(RoundMessage(field, useInches))
        else None;
      BlurResult(DecimalRound(adjusted, rule.places), message)
  }

  /** The stored value is within the bound, up to the decimals kept. */
  lemma BlurValueNearBound(field: PoseField, parsed: Option<real>, useInches: bool)
    ensures var rule := RuleOf(field);
      Abs(BlurDecision(field, parsed, useInches).value) <= rule.bound + 0.5 / Pow10(rule.places)
  {
    if parsed.Some? {
      var rule := RuleOf(field);
      SnapWithinBound(StoredUnits(field, parsed.value, useInches), rule);
    }
  }

  /** The heading is taken as typed whatever the length unit; only the message texts of x and y depend on it. */
  lemma HeadingIgnoresUnits(parsed: Option<real>)
    ensures BlurDecision(Theta, parsed, true) == BlurDecision(Theta, parsed, false)
  {
  }

  /** An x or y typed in inches is decided as the same length typed in metres. */
  lemma InchesDecidedAsMetres(field: PoseField, inches: real)
    requires field != Theta
    ensures BlurDecision(field, Some(inches), true).value == BlurDecision(field, Some(InchesToMeters(inches)), false).value
    ensures BlurDecision(field, Some(inches), true).message.Some? == BlurDecision(field, Some(InchesToMeters(inches)), false).message.Some?
  {
  }

  /** A value already on the grid and within the bound is stored without a message. */
  lemma GridValueIsSilent(field: PoseField, v: real)
    requires var rule := RuleOf(field); -rule.bound <= v <= rule.bound && Snap(v, rule) == v
    ensures BlurDecision(field, Some(v), false) == BlurResult(DecimalRound(v, RuleOf(field).places), None)
  {
  }

  /** 72 inches is the edge of the field: not clamped, but snapped to the top grid point 1.827907 m with the rounding message. */
  lemma FieldEdgeIsRounded()
    ensures BlurDecision(X, Some(72.0), true) == BlurResult(1.827907, Some("X rounded to ~0.035\" resolution"))
  {
    var rule := RuleOf(X);
    var v := StoredUnits(X, 72.0, true);
    assert v == PositionOffset;
    assert ClampToBound(v, rule.bound) == v;
    assert RawUnits(v, PositionRange, PositionOffset) == 4096 by {
      assert (v + PositionOffset) * (MaxValue as real / PositionRange) == 4096.0;
      assert JsRound(4096.0) == 4096;
    }
    assert Quantise(v, PositionRange, PositionOffset) == 4095;
    var top := RoundToResolution(v, PositionRange, PositionOffset);
    assert top == 1.82790703125;
    assert Snap(v, rule) == top;
    assert Abs(v - top) > rule.threshold;
    assert Pow10(6) == 1000000.0;
    assert JsRound(top * 1000000.0) == 1827907;
    assert DecimalRound(top, 6) == 1.827907;
    assert RoundMessage(X, true) == "X rounded to ~0.035\" resolution";
  }

  // What a field shows

  /** A field's text: what is being typed, or a stored number to be shown with a number of decimals. */
  datatype Shown = Typed(text: string) | Fixed(value: real, places: nat)

  /**
   * `getDisplayValue`: the editing value while there is one; else `'0'` for
   * a missing, `NaN` or zero stored value (`None` stands for the first two);
   * else the stored value in the display unit.
   */
  function DisplayValue(field: PoseField, editing: map<PoseField, string>, stored: Option<real>, useInches: bool): (r: Shown)
    ensures field in editing ==> r == Typed(editing[field])
    ensures field !in editing && (stored.None? || stored == Some(0.0)) ==> r == Typed("0")
    ensures field !in editing && stored.Some? && stored.value != 0.0 ==>
      r == match field
           case Theta => Fixed(stored.value, 1)
           case _ => if useInches then Fixed(MetersToInches(stored.value), 2) else Fixed(stored.value, 3)
  {
    if field in editing then Typed(editing[field])
    else if stored.None? || stored.value == 0.0 then Typed("0")
    else if field == Theta then Fixed(stored.value, 1)
    else if useInches then Fixed(MetersToInches(stored.value), 2)
    else Fixed(stored.value, 3)
  }

  /** The step's own state: the editing values and the adjustment message. */
  class PoseEditor {
    var editing: map<PoseField, string>
    var adjustmentMessage: string

    constructor ()
      ensures editing == map[] && adjustmentMessage == ""
    {
      editing := map[];
      adjustmentMessage := "";
    }

    /** What a field shows now, given its stored value. */
    function Display(field: PoseField, stored: Option<real>, useInches: bool): (r: Shown)
      reads this
      ensures field in editing ==> r == Typed(editing[field])
      ensures field !in editing ==> r == DisplayValue(field, map[], stored, useInches)
    {
      DisplayValue(field, editing, stored, useInches)
    }

    /** `handleFieldChange`. */
    method Change(field: PoseField, raw: string)
      modifies this`editing
      ensures editing == FieldChange(old(editing), field, raw)
    {
      editing := FieldChange(editing, field, raw);
    }

    /**
     * `handleFieldBlur`: the field stops being edited, the decided value is
     * handed on, and a message, when there is one, replaces the shown one.
     */
    method Blur(field: PoseField, parsed: Option<real>, useInches: bool) returns (value: real)
      modifies this
      ensures editing == old(editing) - {field} && field !in editing
      ensures value == BlurDecision(field, parsed, useInches).value
      ensures BlurDecision(field, parsed, useInches).message.Some? ==> adjustmentMessage == BlurDecision(field, parsed, useInches).message.value
      ensures BlurDecision(field, parsed, useInches).message.None? ==> adjustmentMessage == old(adjustmentMessage)
    {
      editing := editing - {field};
      var d := BlurDecision(field, parsed, useInches);
      if d.message.Some? {
        adjustmentMessage := d.message.value;
      }
      value := d.value;
    }

    /** The timer that clears the message three seconds after it was shown. */
    method MessageTimeout()
      modifies this`adjustmentMessage
      ensures adjustmentMessage == ""
    {
      adjustmentMessage := "";
    }
  }
}
