/**
 * `CollectorNumber`: a trimmed token accepted when it is a short run of
 * digits or a dash-bearing code such as `lea-001`; the key is its lower-case
 * form, so equality ignores case.
 */
module CollectorNumbers {
  import opened Wrappers
  import opened Text

  datatype CollectorNumber = CollectorNumber(rawValue: string, cleanedValue: string)

  datatype NumberError = InvalidCollectorNumber

  /** `is_only_digits`: 2 to 8 ASCII digits. */
  predicate IsOnlyDigits(s: string)
  {
    2 <= |s| <= 8 && AllDigits(s)
  }

  /** `is_dash_separated_string`. */
  predicate IsDashSeparated(s: string)
  {
    4 <= |s| <= 12 && '-' in s && forall c :: c in s ==> IsAlnum(c) || c == '-'
  }

  /** `is_underscore_and_dash_separated_string`. */
  predicate IsUnderscoreAndDashSeparated(s: string)
  {
    4 <= |s| <= 12 && '-' in s && forall c :: c in s ==> IsAlnum(c) || c == '-' || c == '_'
  }

  /** `CollectorNumber::new`. */
  function New(input: string): (r: Result<CollectorNumber, NumberError>)
    ensures r.Ok? <==> IsOnlyDigits(Trim(input)) || IsUnderscoreAndDashSeparated(Trim(input))
    ensures r.Ok? ==> r.value.rawValue == Trim(input) && r.value.cleanedValue == ToLower(Trim(input))
  {
    var t := Trim(input);
    if IsOnlyDigits(t) || IsDashSeparated(t) || IsUnderscoreAndDashSeparated(t) then
      Ok(CollectorNumber(t, ToLower(t)))
    else
      Err(InvalidCollectorNumber)
  }

  /** `PartialEq::eq`. */
  predicate Eq(a: CollectorNumber, b: CollectorNumber)
  {
    a.cleanedValue == b.cleanedValue
  }

  /** The dash-only shape is a special case of the underscore-and-dash one. */
  lemma DashShapeSubsumed(s: string)
    requires IsDashSeparated(s)
    ensures IsUnderscoreAndDashSeparated(s)
  {
  }

  /** A single digit, or nine or more digits without a dash, is rejected. */
  lemma DigitRunsOutsideTwoToEight(s: string)
    requires AllDigits(s) && (|s| == 1 || |s| >= 9)
    ensures New(s).Err?
  {
    assert IsDigit(s[0]) && IsDigit(s[|s| - 1]);
    TrimOfTrimmed(s);
    assert '-' !in s;
  }

  /** Equality is case-insensitive on the trimmed token. */
  lemma EqIgnoresCase(x: string, y: string)
    requires New(x).Ok? && New(y).Ok?
    ensures Eq(New(x).value, New(y).value) <==> ToLower(Trim(x)) == ToLower(Trim(y))
  {
  }

  /** An accepted token contains no whitespace, so building from `raw_value` again gives the same value. */
  lemma RebuildFromRaw(x: string)
    requires New(x).Ok?
    ensures New(New(x).value.rawValue) == New(x)
  {
    var t := Trim(x);
    assert IsTrimmed(t);
    TrimOfTrimmed(t);
  }
}
