/**
 * The value classifiers and the date formatter of the library's utils:
 * `isValidObject`, `isNumberLike` (with the `Number(v)` conversion that
 * follows it at every call site) and `formatDate`.
 */
module Utils {
  import opened JsValues
  import opened HttpDate

  /**
   * `isValidObject`: not an array, of type "object" and not empty. `null`
   * has type "object" but is empty, so only a plain object with at least
   * one key passes.
   */
  predicate IsValidObject(v: Value)
  {
    !v.Arr? && (v.Null? || v.Obj?) && !(v.Null? || (v.Obj? && |v.fields| == 0))
  }

  /** `isNumberLike`: the number pattern tested against `String(v)`. */
  predicate IsNumberLike(v: Value)
  {
    IsNumeric(JsString(v))
  }

  /** `Number(v)` for a number-like value. */
  function ToNumber(v: Value): int
    requires IsNumberLike(v)
  {
    ParseNumeric(JsString(v))
  }

  /**
   * The `date` option of `formatDate`: absent, `null`, a Date whose time
   * value is NaN ("Invalid Date"), or a Date holding a time value in
   * milliseconds.
   */
  datatype DateArg = NoDate | NullDate | InvalidDate | ValidDate(time: int)

  /**
   * `formatDate({date})`, with the wall clock passed in as `now`: the GMT
   * string of the given date, or of `now` when the date is absent, null or
   * invalid.
   */
  function FormatDate(date: DateArg, now: int): (r: string)
    ensures date.ValidDate? ==> r == UtcString(date.time)
    ensures !date.ValidDate? ==> r == UtcString(now)
  {
    var d := if date.NoDate? then ValidDate(now) else date;
    if d.NullDate? || d.InvalidDate? then UtcString(now) else UtcString(d.time)
  }

  /** Arrays, empty objects and every non-object are rejected; non-empty objects pass. */
  lemma IsValidObjectCases(v: Value)
    ensures v.Arr? ==> !IsValidObject(v)
    ensures v.Obj? ==> (IsValidObject(v) <==> |v.fields| > 0)
    ensures !v.Obj? ==> !IsValidObject(v)
  {
  }

  /** Every integer number is number-like and converts back to itself. */
  lemma NumbersAreNumberLike(n: int)
    ensures IsNumberLike(Num(n)) && ToNumber(Num(n)) == n
  {
  }

  /** A numeric string is number-like and converts to the number it spells. */
  lemma NumericStringsAreNumberLike(n: int)
    ensures IsNumberLike(Str(IntToString(n))) && ToNumber(Str(IntToString(n))) == n
  {
  }

  /** `undefined`, `null`, booleans and plain objects are never number-like. */
  lemma NonNumbersAreNotNumberLike(v: Value)
    requires v.Undef? || v.Null? || v.Bool? || v.Obj?
    ensures !IsNumberLike(v)
  {
    if v.Bool? {
      assert JsString(v) == "true" || JsString(v) == "false";
    }
  }

  /** The cases of the library's own tests: 51 and "51" are number-like, false and "derp" are not. */
  lemma NumberLikeExamples()
    ensures IsNumberLike(Num(51)) && ToNumber(Num(51)) == 51
    ensures IsNumberLike(Str("51")) && ToNumber(Str("51")) == 51
    ensures !IsNumberLike(Bool(false)) && !IsNumberLike(Str("derp"))
  {
    NumbersAreNumberLike(51);
    assert AllDigits("5") && AllDigits("51");
    NonNumbersAreNotNumberLike(Bool(false));
  }

  /** The date 2001-01-01 formats as in the library's own test. */
  lemma FormatDateOfNewYear2001(now: int)
    ensures FormatDate(ValidDate(978307200000), now) == "Mon, 01 Jan 2001 00:00:00 GMT"
  {
    UtcStringOfNewYear2001(978307200000);
  }
}
