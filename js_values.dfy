/**
 * The JavaScript values that the cache-headers library inspects, and the
 * few language operations it relies on: truthiness, property reads,
 * `String(v)`, the decimal number grammar behind `isNumberLike` and
 * `Number(v)`, and `toUpperCase` on strings.
 */
module JsValues {

  /** A JavaScript value. Numbers are integers (fractions, NaN and infinities are not modelled). */
  datatype Value =
    | Undef
    | Null
    | Bool(b: bool)
    | Num(n: int)
    | Str(s: string)
    | Obj(fields: map<string, Value>)
    | Arr(elems: seq<Value>)

  /** ToBoolean: what `if (v)` and `v ? a : b` test. */
  predicate Truthy(v: Value)
  {
    match v
    case Undef => false
    case Null => false
    case Bool(b) => b
    case Num(n) => n != 0
    case Str(s) => s != ""
    case Obj(_) => true
    case Arr(_) => true
  }

  /**
   * The property read `v.key` (and destructuring) for the option names the
   * library reads: an own key of a plain object; `undefined` on anything else,
   * since no primitive wrapper or array carries such a property.
   */
  function Get(v: Value, key: string): Value
  {
    if v.Obj? && key in v.fields then v.fields[key] else Undef
  }

  // ---------------------------------------------------------------------
  // Decimal strings

  predicate IsDigit(c: char)
  {
    '0' <= c <= '9'
  }

  /** Every character is a decimal digit (the empty string included). */
  predicate AllDigits(s: string)
  {
    |s| == 0 || (AllDigits(s[..|s| - 1]) && IsDigit(s[|s| - 1]))
  }

  /** The value of a string of decimal digits; leading zeros are allowed. */
  function DigitsValue(s: string): nat
    requires AllDigits(s)
  {
    if |s| == 0 then 0 else 10 * DigitsValue(s[..|s| - 1]) + (s[|s| - 1] as int - '0' as int)
  }

  function DigitChar(d: nat): (c: char)
    requires d < 10
    ensures IsDigit(c) && c as int - '0' as int == d
  {
    ('0' as int + d) as char
  }

  /** The shortest decimal representation of `n`; parsing it gives `n` back. */
  function NatToString(n: nat): (r: string)
    ensures |r| > 0 && AllDigits(r)
    ensures DigitsValue(r) == n
    ensures IsDigit(r[0]) && (n >= 10 ==> r[0] != '0')
    ensures |r| == 1 <==> n < 10
  {
    if n < 10 then [DigitChar(n)]
    else
      var prefix := NatToString(n / 10);
      var r := prefix + [DigitChar(n % 10)];
      assert r[..|r| - 1] == prefix;
      r
  }

  /**
   * The number grammar of `isNumberLike`: an optional sign followed by one
   * or more decimal digits.
   */
  predicate IsNumeric(s: string)
  {
    if |s| > 0 && (s[0] == '-' || s[0] == '+') then |s| > 1 && AllDigits(s[1..])
    else |s| > 0 && AllDigits(s)
  }

  /** `Number(s)` for a string of the number grammar. */
  function ParseNumeric(s: string): int
    requires IsNumeric(s)
  {
    if s[0] == '-' then -(DigitsValue(s[1..]) as int)
    else if s[0] == '+' then DigitsValue(s[1..])
    else DigitsValue(s)
  }

  /** `String(n)` for an integer number; it is in the number grammar and parses back to `n`. */
  function IntToString(n: int): (r: string)
    ensures IsNumeric(r) && ParseNumeric(r) == n
    ensures r[0] == '-' <==> n < 0
    ensures var digits := if n < 0 then r[1..] else r;
            |digits| > 0 && AllDigits(digits) && (|digits| > 1 ==> digits[0] != '0')
  {
    if n < 0 then
      var r := "-" + NatToString(-n);
      assert r[1..] == NatToString(-n);
      r
    else NatToString(n)
  }

  /** Different integers print differently: the printed text determines the integer. */
  lemma IntToStringInjective(a: int, b: int)
    requires IntToString(a) == IntToString(b)
    ensures a == b
  {
    assert ParseNumeric(IntToString(a)) == a;
  }

  // ---------------------------------------------------------------------
  // String(v)

  /** `String(v)`, the conversion a regular expression's `test` applies to its argument. */
  function JsString(v: Value): string
  {
    match v
    case Undef => "undefined"
    case Null => "null"
    case Bool(b) => if b then "true" else "false"
    case Num(n) => IntToString(n)
    case Str(s) => s
    case Obj(_) => "[object Object]"
    case Arr(xs) => JoinElements(xs)
  }

  /** `Array.prototype.join` with the default separator: holes, `undefined` and `null` print as "". */
  function JoinElements(xs: seq<Value>): string
  {
    if |xs| == 0 then ""
    else
      var last := xs[|xs| - 1];
      var shown := if last.Undef? || last.Null? then "" else JsString(last);
      if |xs| == 1 then shown else JoinElements(xs[..|xs| - 1]) + "," + shown
  }

  // ---------------------------------------------------------------------
  // toUpperCase

  function UpperChar(c: char): char
  {
    if 'a' <= c <= 'z' then (c as int - 32) as char else c
  }

  /** `s.toUpperCase()` on ASCII letters; every other character is kept. */
  function Upper(s: string): string
  {
    if |s| == 0 then [] else [UpperChar(s[0])] + Upper(s[1..])
  }

  /** Upper-casing keeps the length and maps each character on its own. */
  lemma {:induction false} UpperAt(s: string)
    ensures |Upper(s)| == |s|
    ensures forall i :: 0 <= i < |s| ==> Upper(s)[i] == UpperChar(s[i])
  {
    if |s| > 0 {
      UpperAt(s[1..]);
    }
  }

  /** No character of `s` is a lower-case ASCII letter. */
  predicate NoLowerCase(s: string)
  {
    forall i :: 0 <= i < |s| ==> !('a' <= s[i] <= 'z')
  }

  /** Upper-casing leaves a string without lower-case letters unchanged. */
  lemma UpperKeepsNoLowerCase(s: string)
    requires NoLowerCase(s)
    ensures Upper(s) == s
  {
    UpperAt(s);
  }

  /** Upper-casing twice is upper-casing once. */
  lemma UpperIdempotent(s: string)
    ensures Upper(Upper(s)) == Upper(s)
  {
    UpperAt(s);
    UpperAt(Upper(s));
  }

  lemma {:induction false} AllDigitsAt(s: string)
    ensures AllDigits(s) <==> forall i :: 0 <= i < |s| ==> IsDigit(s[i])
  {
    if |s| > 0 {
      AllDigitsAt(s[..|s| - 1]);
    }
  }

  /**
   * A string is in the number grammar exactly when its upper-cased form is,
   * and upper-casing leaves such a string unchanged (digits and signs have
   * no case).
   */
  lemma UpperNumeric(s: string)
    ensures IsNumeric(Upper(s)) <==> IsNumeric(s)
    ensures IsNumeric(s) ==> Upper(s) == s
  {
    UpperAt(s);
    var u := Upper(s);
    if |s| > 0 {
      AllDigitsAt(s);
      AllDigitsAt(u);
      AllDigitsAt(s[1..]);
      AllDigitsAt(u[1..]);
      assert u[0] == '-' <==> s[0] == '-';
      assert u[0] == '+' <==> s[0] == '+';
      if IsNumeric(s) {
        forall i | 0 <= i < |s| ensures u[i] == s[i] {
          if i > 0 {
            assert s[i] == s[1..][i - 1];
          }
        }
      }
      if IsNumeric(u) {
        forall i | 1 <= i < |s| ensures IsDigit(s[i]) {
          assert u[i] == u[1..][i - 1];
        }
        if s[0] != '-' && s[0] != '+' {
          assert IsDigit(s[0]);
        }
      }
    }
  }
}
