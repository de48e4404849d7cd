/**
 * The header generator: from an options record to the caching headers
 * Cache-Control (section 5.2 of RFC 7234, with the stale-while-revalidate
 * and stale-if-error extensions of sections 3 and 4 of RFC 5861),
 * Surrogate-Control, Pragma (section 5.4 of RFC 7234), Expires (section 5.3
 * of RFC 7234) and Last-Modified.
 */
module CacheControl {
  import opened JsValues
  import opened TimeValues
  import opened Utils
  import opened HttpDate

  const PRIVATE_VALUE := "private"
  const NO_CACHE_NO_STORE := "no-cache, no-store, must-revalidate"

  // The option keys.
  const KEY_LAST_MODIFIED := "lastModified"
  const KEY_STALE_IF_ERROR := "staleError"
  const KEY_STALE_WHILE_REVALIDATE := "staleRevalidate"
  const KEY_SURROGATE_CONTROL := "maxAge"
  const KEY_SET_PRIVATE := "setPrivate"
  const OPTION_KEYS: set<string> :=
    {KEY_LAST_MODIFIED, KEY_STALE_IF_ERROR, KEY_STALE_WHILE_REVALIDATE, KEY_SURROGATE_CONTROL, KEY_SET_PRIVATE}

  // The header names.
  const CACHE_CONTROL := "Cache-Control"
  const SURROGATE_CONTROL := "Surrogate-Control"
  const PRAGMA := "Pragma"
  const EXPIRES := "Expires"
  const LAST_MODIFIED := "Last-Modified"
  const HEADER_NAMES: set<string> := {CACHE_CONTROL, SURROGATE_CONTROL, PRAGMA, EXPIRES, LAST_MODIFIED}

  /** The four headers of a public response whose Surrogate-Control value is `surrogate`. */
  function PublicHeaders(surrogate: string): (h: map<string, Value>)
    ensures h.Keys == {CACHE_CONTROL, SURROGATE_CONTROL, PRAGMA, EXPIRES}
    ensures h[CACHE_CONTROL] == Str(NO_CACHE_NO_STORE) && h[SURROGATE_CONTROL] == Str(surrogate)
    ensures h[PRAGMA] == Str("no-cache") && h[EXPIRES] == Num(0)
  {
    map[
      CACHE_CONTROL := Str(NO_CACHE_NO_STORE),
      SURROGATE_CONTROL := Str(surrogate),
      PRAGMA := Str("no-cache"),
      EXPIRES := Num(0)
    ]
  }

  /** The headers sent when no options are given. */
  const DEFAULT_HEADERS: map<string, Value> := PublicHeaders("max-age=600")

  /** A destructuring default: `d` when the property is `undefined`. */
  function WithDefault(v: Value, d: Value): Value
  {
    if v.Undef? then d else v
  }

  /** The five options the generators destructure, before their defaults apply. */
  datatype Options = Options(
    maxAge: Value,
    staleRevalidate: Value,
    staleError: Value,
    setPrivate: Value,
    lastModified: Value)

  /**
   * Destructuring an options value: each option key's own property, or
   * `undefined`. No other key is read.
   */
  function ReadOptions(options: Value): Options
  {
    Options(
      Get(options, KEY_SURROGATE_CONTROL),
      Get(options, KEY_STALE_WHILE_REVALIDATE),
      Get(options, KEY_STALE_IF_ERROR),
      Get(options, KEY_SET_PRIVATE),
      Get(options, KEY_LAST_MODIFIED))
  }

  /** The options read from `undefined` or from an empty object: every one undefined. */
  const NO_OPTIONS := Options(Undef, Undef, Undef, Undef, Undef)

  // ---------------------------------------------------------------------
  // getTimeValue

  /**
   * `getTimeValue`: a number-like value as its number; otherwise a string
   * whose upper-case form names a table entry as that entry's seconds;
   * otherwise 0.
   */
  function GetTimeValue(value: Value): (r: int)
    ensures IsNumberLike(value) ==> r == ToNumber(value)
    ensures r < 0 ==> IsNumberLike(value)
    ensures !IsNumberLike(value) ==> r >= 0
    ensures r != 0 ==> IsNumberLike(value) || (value.Str? && Upper(value.s) in Names)
  {
    if IsNumberLike(value) then ToNumber(value)
    else if value.Str? && Lookup(Upper(value.s)).Some? then Lookup(Upper(value.s)).value
    else 0
  }

  /** No table name is in the number grammar: each starts with a letter. */
  lemma NamesAreNotNumeric(i: int)
    requires 0 <= i < |Names|
    ensures !IsNumeric(Names[i])
  {
    assert 'A' <= Names[i][0] <= 'Z';
    AllDigitsAt(Names[i]);
  }

  /** A number resolves to itself, negative numbers included. */
  lemma GetTimeValueOfNumber(n: int)
    ensures GetTimeValue(Num(n)) == n
    ensures GetTimeValue(Str(IntToString(n))) == n
  {
    NumbersAreNumberLike(n);
    NumericStringsAreNumberLike(n);
  }

  /** A string naming a table entry, in any letter case, resolves to that entry's seconds. */
  lemma GetTimeValueOfName(s: string, i: int)
    requires 0 <= i < |Names| && Upper(s) == Names[i]
    ensures GetTimeValue(Str(s)) == Durations[i]
  {
    NamesAreNotNumeric(i);
    UpperNumeric(s);
  }

  /** A string in neither the number grammar nor the table, in any case, resolves to 0. */
  lemma GetTimeValueOfUnknownName(s: string)
    requires !IsNumeric(s) && Upper(s) !in Names
    ensures GetTimeValue(Str(s)) == 0
  {
  }

  /** A value that is neither number-like nor a string resolves to 0. */
  lemma GetTimeValueOfNonString(v: Value)
    requires !IsNumberLike(v) && !v.Str?
    ensures GetTimeValue(v) == 0
  {
  }

  /** Resolution ignores letter case. */
  lemma GetTimeValueCaseInsensitive(s: string)
    ensures GetTimeValue(Str(s)) == GetTimeValue(Str(Upper(s)))
  {
    UpperNumeric(s);
    UpperIdempotent(s);
  }

  /**
   * The names and invalid values of the library's own tests. Here and below,
   * a fixed input is a parameter pinned by `requires` rather than a literal
   * argument, which keeps the verifier from unfolding the definitions on it.
   */
  lemma GetTimeValueExamples(minute: string, week: string, invalid: string, never: string)
    requires minute == "one_minute" && week == "one_week" && invalid == "10minute" && never == "never"
    ensures GetTimeValue(Str(minute)) == ONE_MINUTE && GetTimeValue(Str(week)) == ONE_WEEK
    ensures GetTimeValue(Str(invalid)) == 0 && GetTimeValue(Str(never)) == 0
    ensures GetTimeValue(Bool(false)) == 0 && GetTimeValue(Num(0)) == 0
  {
    UpperAt(minute);
    assert Upper(minute) == Names[0];
    GetTimeValueOfName(minute, 0);
    UpperAt(week);
    assert Upper(week) == Names[5];
    GetTimeValueOfName(week, 5);
    UpperAt(invalid);
    assert Upper(invalid)[0] == '1';
    assert !IsDigit('m');
    assert !IsNumeric(invalid);
    GetTimeValueOfUnknownName(invalid);
    UpperAt(never);
    assert !IsDigit('n');
    GetTimeValueOfUnknownName(never);
    NonNumbersAreNotNumberLike(Bool(false));
    GetTimeValueOfNumber(0);
  }

  // ---------------------------------------------------------------------
  // Cache-Control

  /** `generateBrowserCacheHeader`. */
  function BrowserCacheHeader(setPrivate: Value): string
  {
    if Truthy(setPrivate) then PRIVATE_VALUE + ", " + NO_CACHE_NO_STORE else NO_CACHE_NO_STORE
  }

  /** The browser directive begins with "private, " exactly when `setPrivate` is truthy. */
  lemma BrowserCacheHeaderPrefix(setPrivate: Value)
    ensures var b := BrowserCacheHeader(setPrivate);
            |b| >= |NO_CACHE_NO_STORE| && (Truthy(setPrivate) <==> b[..9] == "private, ")
    ensures !Truthy(setPrivate) ==> BrowserCacheHeader(setPrivate) == NO_CACHE_NO_STORE
  {
    var b := BrowserCacheHeader(setPrivate);
    if !Truthy(setPrivate) {
      assert NO_CACHE_NO_STORE[0] == 'n';
      assert b[..9][0] == b[0];
    }
  }

  /** `generateStaleRevalidateCacheHeader`. */
  function StaleRevalidateDirective(value: Value): string
  {
    "stale-while-revalidate=" + IntToString(GetTimeValue(value))
  }

  /** `generateStaleError`. */
  function StaleErrorDirective(value: Value): string
  {
    "stale-if-error=" + IntToString(GetTimeValue(value))
  }

  /** `xs.push(x)` when `present`, otherwise `xs` unchanged. */
  function PushIf(xs: seq<string>, present: bool, x: string): seq<string>
  {
    if present then xs + [x] else xs
  }

  /**
   * The directive list `generateCacheControl` builds: the browser
   * directive, then each stale directive whose option (defaulting to
   * `false`) is not a boolean.
   */
  function CacheControlDirectives(o: Options): (ds: seq<string>)
    ensures 1 <= |ds| <= 3
  {
    var staleRevalidate := WithDefault(o.staleRevalidate, Bool(false));
    var staleError := WithDefault(o.staleError, Bool(false));
    var setPrivate := WithDefault(o.setPrivate, Bool(false));
    var browser := [BrowserCacheHeader(setPrivate)];
    var withRevalidate := PushIf(browser, !staleRevalidate.Bool?, StaleRevalidateDirective(staleRevalidate));
    PushIf(withRevalidate, !staleError.Bool?, StaleErrorDirective(staleError))
  }

  /** `Array.prototype.join(sep)` on strings. */
  function Join(parts: seq<string>, sep: string): string
  {
    if |parts| == 0 then ""
    else if |parts| == 1 then parts[0]
    else Join(parts[..|parts| - 1], sep) + sep + parts[|parts| - 1]
  }

  /** Joining one more part appends the separator and the part. */
  lemma JoinSnoc(parts: seq<string>, p: string, sep: string)
    requires |parts| > 0
    ensures Join(parts + [p], sep) == Join(parts, sep) + sep + p
  {
    assert (parts + [p])[..|parts|] == parts;
  }

  /** A joined string begins with the first part. */
  lemma {:induction false} JoinStartsWithFirst(parts: seq<string>, sep: string)
    requires |parts| > 0
    ensures |Join(parts, sep)| >= |parts[0]| && Join(parts, sep)[..|parts[0]|] == parts[0]
  {
    if |parts| > 1 {
      var init := parts[..|parts| - 1];
      JoinStartsWithFirst(init, sep);
      assert init[0] == parts[0];
      var j := Join(init, sep);
      assert Join(parts, sep) == j + (sep + parts[|parts| - 1]);
      assert (j + (sep + parts[|parts| - 1]))[..|parts[0]|] == j[..|parts[0]|];
    }
  }

  /** Joining after a conditional push appends the separator and the part when it was pushed. */
  lemma JoinPushIf(parts: seq<string>, present: bool, p: string, sep: string)
    requires |parts| > 0
    ensures Join(PushIf(parts, present, p), sep) == Join(parts, sep) + (if present then sep + p else "")
  {
    if present {
      JoinSnoc(parts, p, sep);
    }
  }

  /** The value of the Cache-Control header. */
  function CacheControlValue(o: Options): string
  {
    Join(CacheControlDirectives(o), ", ")
  }

  /** `generateCacheControl`. */
  function GenerateCacheControl(o: Options): (h: map<string, Value>)
    ensures h.Keys == {CACHE_CONTROL}
  {
    map[CACHE_CONTROL := Str(CacheControlValue(o))]
  }

  /**
   * The Cache-Control value is the browser directive, then
   * `stale-while-revalidate=N` when that option is neither undefined nor a
   * boolean, then `stale-if-error=N` under the same rule, separated by ", ".
   */
  lemma CacheControlLayout(o: Options)
    ensures CacheControlValue(o)
         == BrowserCacheHeader(o.setPrivate)
            + (if o.staleRevalidate.Undef? || o.staleRevalidate.Bool? then ""
               else ", " + StaleRevalidateDirective(o.staleRevalidate))
            + (if o.staleError.Undef? || o.staleError.Bool? then ""
               else ", " + StaleErrorDirective(o.staleError))
  {
    var swr := WithDefault(o.staleRevalidate, Bool(false));
    var sie := WithDefault(o.staleError, Bool(false));
    var browser := [BrowserCacheHeader(WithDefault(o.setPrivate, Bool(false)))];
    assert browser == [BrowserCacheHeader(o.setPrivate)];
    var withRevalidate := PushIf(browser, !swr.Bool?, StaleRevalidateDirective(swr));
    JoinPushIf(browser, !swr.Bool?, StaleRevalidateDirective(swr), ", ");
    JoinPushIf(withRevalidate, !sie.Bool?, StaleErrorDirective(sie), ", ");
  }

  /** Boolean or absent stale options leave only the browser directive. */
  lemma StaleOmittedForBooleans(o: Options)
    requires o.staleRevalidate.Undef? || o.staleRevalidate.Bool?
    requires o.staleError.Undef? || o.staleError.Bool?
    ensures CacheControlValue(o) == BrowserCacheHeader(o.setPrivate)
  {
    CacheControlLayout(o);
  }

  /**
   * Cache-Control begins with "private, " exactly when `setPrivate` is
   * truthy, and otherwise begins with the no-cache directives.
   */
  lemma CacheControlPrivate(o: Options)
    ensures var v := CacheControlValue(o);
            |v| >= |NO_CACHE_NO_STORE| && (Truthy(o.setPrivate) <==> v[..9] == "private, ")
    ensures var v := CacheControlValue(o);
            !Truthy(o.setPrivate) ==> |v| >= |NO_CACHE_NO_STORE| && v[..|NO_CACHE_NO_STORE|] == NO_CACHE_NO_STORE
  {
    BrowserCacheHeaderPrefix(o.setPrivate);
    CacheControlStartsWithBrowser(o);
    var v := CacheControlValue(o);
    var b := BrowserCacheHeader(o.setPrivate);
    assert v[..9] == b[..9];
  }

  /** The Cache-Control value begins with the browser directive. */
  lemma CacheControlStartsWithBrowser(o: Options)
    ensures var b := BrowserCacheHeader(o.setPrivate);
            |CacheControlValue(o)| >= |b| && CacheControlValue(o)[..|b|] == b
  {
    var ds := CacheControlDirectives(o);
    assert ds[0] == BrowserCacheHeader(o.setPrivate);
    JoinStartsWithFirst(ds, ", ");
  }

  // ---------------------------------------------------------------------
  // Surrogate-Control

  /** `generateMaxAgeHeader`. */
  function MaxAgeDirective(value: Value): string
  {
    "max-age=" + IntToString(GetTimeValue(value))
  }

  /**
   * The value `generateSurrogateControl` passes on: 0 when `setPrivate` is
   * truthy, otherwise `maxAge`, which defaults to ten minutes only when it
   * is undefined.
   */
  function SurrogateTime(o: Options): Value
  {
    var setPrivate := WithDefault(o.setPrivate, Bool(false));
    var maxAge := WithDefault(o.maxAge, Num(TEN_MINUTES));
    if Truthy(setPrivate) then Num(0) else maxAge
  }

  /** The value of the Surrogate-Control header. */
  function SurrogateControlValue(o: Options): string
  {
    MaxAgeDirective(SurrogateTime(o))
  }

  /** `generateSurrogateControl`. */
  function GenerateSurrogateControl(o: Options): (h: map<string, Value>)
    ensures h.Keys == {SURROGATE_CONTROL}
  {
    map[SURROGATE_CONTROL := Str(SurrogateControlValue(o))]
  }

  /**
   * The seconds a Surrogate-Control header is meant to state: 0 when
   * private, ten minutes when `maxAge` is undefined, otherwise `maxAge`
   * resolved by `getTimeValue`.
   */
  function SurrogateSeconds(o: Options): int
  {
    if Truthy(o.setPrivate) then 0
    else if o.maxAge.Undef? then TEN_MINUTES
    else GetTimeValue(o.maxAge)
  }

  /** Surrogate-Control is "max-age=" followed by a number that parses back to the stated seconds. */
  lemma SurrogateControlParses(o: Options)
    ensures var v := SurrogateControlValue(o);
            |v| > 8 && v[..8] == "max-age=" && IsNumeric(v[8..]) && ParseNumeric(v[8..]) == SurrogateSeconds(o)
  {
    var t := SurrogateTime(o);
    var digits := IntToString(GetTimeValue(t));
    var v := SurrogateControlValue(o);
    assert v == "max-age=" + digits;
    assert v[8..] == digits;
    if Truthy(o.setPrivate) {
      GetTimeValueOfNumber(0);
    } else if o.maxAge.Undef? {
      GetTimeValueOfNumber(TEN_MINUTES);
    }
  }

  /** Surrogate-Control spells exactly the seconds `n` it states. */
  lemma SurrogateControlOf(o: Options, n: int)
    requires SurrogateSeconds(o) == n
    ensures SurrogateControlValue(o) == "max-age=" + IntToString(n)
  {
    SurrogateControlParses(o);
    var v := SurrogateControlValue(o);
    var digits := IntToString(GetTimeValue(SurrogateTime(o)));
    assert v == "max-age=" + digits;
  }

  /**
   * `maxAge` defaults to ten minutes only when undefined; an explicit 0 or
   * `false` gives 0, a number gives itself, a table name its seconds; a
   * truthy `setPrivate` gives 0 whatever `maxAge` is.
   */
  lemma MaxAgeRules(o: Options)
    ensures Truthy(o.setPrivate) ==> SurrogateSeconds(o) == 0
    ensures !Truthy(o.setPrivate) && o.maxAge.Undef? ==> SurrogateSeconds(o) == TEN_MINUTES
    ensures !Truthy(o.setPrivate) && (o.maxAge == Num(0) || o.maxAge == Bool(false)) ==> SurrogateSeconds(o) == 0
    ensures !Truthy(o.setPrivate) && o.maxAge.Num? ==> SurrogateSeconds(o) == o.maxAge.n
    ensures forall i :: 0 <= i < |Names| && !Truthy(o.setPrivate) && o.maxAge == Str(Names[i]) ==>
              SurrogateSeconds(o) == Durations[i]
  {
    if o.maxAge.Num? {
      GetTimeValueOfNumber(o.maxAge.n);
    }
    if o.maxAge == Bool(false) {
      NonNumbersAreNotNumberLike(o.maxAge);
    }
    forall i | 0 <= i < |Names| && o.maxAge == Str(Names[i])
      ensures GetTimeValue(o.maxAge) == Durations[i]
    {
      NamesAreUpperCase();
      GetTimeValueOfName(Names[i], i);
    }
  }

  // ---------------------------------------------------------------------
  // Pragma, Expires, Last-Modified

  /** `generatePragmaHeader`. */
  function GeneratePragmaHeader(): (h: map<string, Value>)
    ensures h.Keys == {PRAGMA}
  {
    map[PRAGMA := Str("no-cache")]
  }

  /** `generateExpiresHeader`. */
  function GenerateExpiresHeader(): (h: map<string, Value>)
    ensures h.Keys == {EXPIRES}
  {
    map[EXPIRES := Num(0)]
  }

  /**
   * `generateLastModifiedHeader`, with the wall clock as `now`: when
   * `setPrivate` is truthy the value is the current date, otherwise the
   * `lastModified` option (default `false`); the header is present only when
   * that value is truthy.
   */
  function GenerateLastModifiedHeader(o: Options, now: int): (h: map<string, Value>)
    ensures h.Keys <= {LAST_MODIFIED}
  {
    var setPrivate := WithDefault(o.setPrivate, Bool(false));
    var lastModified :=
      if Truthy(setPrivate) then Str(FormatDate(NoDate, now))
      else WithDefault(o.lastModified, Bool(false));
    if Truthy(lastModified) then map[LAST_MODIFIED := lastModified] else map[]
  }

  /** A formatted date is never the empty string, so it is truthy. */
  lemma UtcStringNonEmpty(t: int)
    ensures |UtcString(t)| > 0
  {
    NamesHaveThreeLetters();
    assert |WeekDayNames[(t / MS_PER_DAY + 4) % 7]| == 3;
  }

  /**
   * Last-Modified is present exactly when `setPrivate` or `lastModified` is
   * truthy; when private it is the current date even if `lastModified` was
   * given, otherwise it is `lastModified` verbatim.
   */
  lemma LastModifiedRule(o: Options, now: int)
    ensures var h := GenerateLastModifiedHeader(o, now);
            LAST_MODIFIED in h <==> Truthy(o.setPrivate) || Truthy(o.lastModified)
    ensures var h := GenerateLastModifiedHeader(o, now);
            Truthy(o.setPrivate) ==> LAST_MODIFIED in h && h[LAST_MODIFIED] == Str(UtcString(now))
    ensures var h := GenerateLastModifiedHeader(o, now);
            !Truthy(o.setPrivate) && Truthy(o.lastModified) ==> h[LAST_MODIFIED] == o.lastModified
  {
    UtcStringNonEmpty(now);
  }

  // ---------------------------------------------------------------------
  // generateAllCacheHeaders

  /** A successful header set, or the TypeError destructuring `null` raises. */
  datatype Outcome = Headers(headers: map<string, Value>) | TypeError

  /**
   * The lengths and first letters of the header names, which tell any two of
   * them apart.
   */
  lemma HeaderNameShapes()
    ensures |CACHE_CONTROL| == 13 && |SURROGATE_CONTROL| == 17 && |PRAGMA| == 6
    ensures |EXPIRES| == 7 && |LAST_MODIFIED| == 13
    ensures CACHE_CONTROL[0] == 'C' && LAST_MODIFIED[0] == 'L'
  {
  }

  /**
   * Merging four one-key maps and a map with at most a fifth key, for five
   * different keys: every key keeps the value of the part that set it.
   */
  lemma MergeOfParts(a: map<string, Value>, b: map<string, Value>, c: map<string, Value>,
                     d: map<string, Value>, e: map<string, Value>,
                     ka: string, kb: string, kc: string, kd: string, ke: string)
    requires a.Keys == {ka} && b.Keys == {kb} && c.Keys == {kc} && d.Keys == {kd} && e.Keys <= {ke}
    requires ka != kb && ka != kc && ka != kd && ka != ke && kb != kc && kb != kd && kb != ke
    requires kc != kd && kc != ke && kd != ke
    ensures var m := a + b + c + d + e;
            m.Keys == {ka, kb, kc, kd} + e.Keys
            && m[ka] == a[ka] && m[kb] == b[kb] && m[kc] == c[kc] && m[kd] == d[kd]
            && (ke in m ==> m[ke] == e[ke])
  {
  }

  /** `Object.assign({}, ...)`: the parts merged in order, a later key winning. */
  function MergeHeaders(o: Options, now: int): (h: map<string, Value>)
    ensures h.Keys == {CACHE_CONTROL, SURROGATE_CONTROL, PRAGMA, EXPIRES} + GenerateLastModifiedHeader(o, now).Keys
    ensures h[CACHE_CONTROL] == Str(CacheControlValue(o))
    ensures h[SURROGATE_CONTROL] == Str(SurrogateControlValue(o))
    ensures h[PRAGMA] == Str("no-cache") && h[EXPIRES] == Num(0)
    ensures var lm := GenerateLastModifiedHeader(o, now);
            LAST_MODIFIED in lm ==> h[LAST_MODIFIED] == lm[LAST_MODIFIED]
  {
    HeaderNameShapes();
    var cc, sc, pragma, expires, lm := GenerateCacheControl(o), GenerateSurrogateControl(o),
      GeneratePragmaHeader(), GenerateExpiresHeader(), GenerateLastModifiedHeader(o, now);
    MergeOfParts(cc, sc, pragma, expires, lm, CACHE_CONTROL, SURROGATE_CONTROL, PRAGMA, EXPIRES, LAST_MODIFIED);
    cc + sc + pragma + expires + lm
  }

  /**
   * `generateAllCacheHeaders(options = {})`, with the wall clock as `now`:
   * `undefined` stands for an empty object, `null` cannot be destructured.
   */
  function GenerateAllCacheHeaders(options: Value, now: int): (r: Outcome)
    ensures r.TypeError? <==> options.Null?
    ensures r.Headers? ==> r.headers == MergeHeaders(ReadOptions(options), now)
  {
    if options.Null? then TypeError
    else
      var o := ReadOptions(WithDefault(options, Obj(map[])));
      assert o == ReadOptions(options);
      Headers(MergeHeaders(o, now))
  }

  /** The options read from `undefined` or an empty object are all undefined. */
  lemma NoOptionsRead(options: Value)
    requires options == Undef || options == Obj(map[])
    ensures ReadOptions(options) == NO_OPTIONS
  {
  }

  /** Two maps over the same four keys that agree on each of them are equal. */
  lemma SameFourKeys(h: map<string, Value>, g: map<string, Value>, ka: string, kb: string, kc: string, kd: string)
    requires h.Keys == {ka, kb, kc, kd} && g.Keys == h.Keys
    requires h[ka] == g[ka] && h[kb] == g[kb] && h[kc] == g[kc] && h[kd] == g[kd]
    ensures h == g
  {
  }

  /** "max-age=" followed by the printed seconds, for the two constants the library uses. */
  lemma MaxAgeTexts()
    ensures "max-age=" + IntToString(0) == "max-age=0"
    ensures "max-age=" + IntToString(TEN_MINUTES) == "max-age=600"
  {
    assert IntToString(0) == "0";
    assert IntToString(600) == "600" by {
      assert NatToString(6) == "6";
      assert NatToString(60) == "60";
    }
  }

  /**
   * Options that are not private, set no Last-Modified and no stale
   * directive give the four public headers, with the max-age they state.
   */
  lemma PublicPolicy(o: Options, now: int)
    requires !Truthy(o.setPrivate) && !Truthy(o.lastModified)
    requires o.staleRevalidate.Undef? || o.staleRevalidate.Bool?
    requires o.staleError.Undef? || o.staleError.Bool?
    ensures MergeHeaders(o, now) == PublicHeaders(SurrogateControlValue(o))
  {
    StaleOmittedForBooleans(o);
    BrowserCacheHeaderPrefix(o.setPrivate);
    HeaderNameShapes();
    LastModifiedRule(o, now);
    var h, p := MergeHeaders(o, now), PublicHeaders(SurrogateControlValue(o));
    SameFourKeys(h, p, CACHE_CONTROL, SURROGATE_CONTROL, PRAGMA, EXPIRES);
  }

  /** Without options every header takes its default. */
  lemma NoOptionsHeaders(o: Options, now: int)
    requires o == NO_OPTIONS
    ensures MergeHeaders(o, now) == DEFAULT_HEADERS
  {
    PublicPolicy(o, now);
    SurrogateControlOf(o, TEN_MINUTES);
    MaxAgeTexts();
  }

  /** With no options, or an empty object, exactly the four default headers are produced. */
  lemma DefaultPolicy(options: Value, now: int)
    requires options == Undef || options == Obj(map[])
    ensures GenerateAllCacheHeaders(options, now) == Headers(DEFAULT_HEADERS)
  {
    NoOptionsRead(options);
    NoOptionsHeaders(ReadOptions(options), now);
  }

  /** Only the five option keys are read: any other key of the options object is ignored. */
  lemma UnknownKeysIgnored(fields: map<string, Value>, now: int)
    ensures GenerateAllCacheHeaders(Obj(fields), now)
         == GenerateAllCacheHeaders(Obj(map k | k in fields && k in OPTION_KEYS :: fields[k]), now)
  {
    var known := map k | k in fields && k in OPTION_KEYS :: fields[k];
    assert ReadOptions(Obj(fields)) == ReadOptions(Obj(known));
  }

  /** An options object with none of the option keys (say, raw header names) gives the defaults. */
  lemma OnlyUnknownKeysGiveDefaults(fields: map<string, Value>, now: int)
    requires forall k | k in fields :: k !in OPTION_KEYS
    ensures GenerateAllCacheHeaders(Obj(fields), now) == Headers(DEFAULT_HEADERS)
  {
    assert ReadOptions(Obj(fields)) == NO_OPTIONS;
    NoOptionsHeaders(ReadOptions(Obj(fields)), now);
  }

  /** Options holding only a number `maxAge` give the public headers with that max-age. */
  lemma MaxAgeOnly(n: int, now: int)
    ensures GenerateAllCacheHeaders(Obj(map[KEY_SURROGATE_CONTROL := Num(n)]), now)
         == Headers(PublicHeaders("max-age=" + IntToString(n)))
  {
    var o := ReadOptions(Obj(map[KEY_SURROGATE_CONTROL := Num(n)]));
    assert o == NO_OPTIONS.(maxAge := Num(n));
    PublicPolicy(o, now);
    MaxAgeRules(o);
    SurrogateControlOf(o, n);
  }

  /**
   * The headers of a private response: Cache-Control begins with
   * "private, ", Surrogate-Control is "max-age=0" and Last-Modified is the
   * current date.
   */
  predicate PrivateHeaders(h: map<string, Value>, now: int)
  {
    && CACHE_CONTROL in h && h[CACHE_CONTROL].Str? && |h[CACHE_CONTROL].s| >= 9
    && h[CACHE_CONTROL].s[..9] == "private, "
    && SURROGATE_CONTROL in h && h[SURROGATE_CONTROL] == Str("max-age=0")
    && LAST_MODIFIED in h && h[LAST_MODIFIED] == Str(UtcString(now))
  }

  /** With `setPrivate` truthy the headers are private, max-age is 0 and Last-Modified is now. */
  lemma PrivateForcesNoCaching(options: Value, now: int)
    requires Truthy(Get(options, KEY_SET_PRIVATE))
    ensures var r := GenerateAllCacheHeaders(options, now);
            r.Headers? && PrivateHeaders(r.headers, now)
  {
    var o := ReadOptions(options);
    CacheControlPrivate(o);
    SurrogateControlOf(o, 0);
    MaxAgeTexts();
    LastModifiedRule(o, now);
  }

  /**
   * The five headers of a private response at time `now`: the private
   * no-cache directive, max-age 0, Pragma, Expires and the current date.
   */
  function PrivateHeadersAt(now: int): (h: map<string, Value>)
    ensures h.Keys == HEADER_NAMES
    ensures h[CACHE_CONTROL] == Str(PRIVATE_VALUE + ", " + NO_CACHE_NO_STORE)
    ensures h[SURROGATE_CONTROL] == Str("max-age=0")
    ensures h[PRAGMA] == Str("no-cache") && h[EXPIRES] == Num(0)
    ensures h[LAST_MODIFIED] == Str(UtcString(now))
  {
    HeaderNameShapes();
    MapOfFive(CACHE_CONTROL, Str(PRIVATE_VALUE + ", " + NO_CACHE_NO_STORE),
      SURROGATE_CONTROL, Str("max-age=0"), PRAGMA, Str("no-cache"), EXPIRES, Num(0),
      LAST_MODIFIED, Str(UtcString(now)))
  }

  /** The display of five entries with different keys: each key holds its own value. */
  function MapOfFive(ka: string, va: Value, kb: string, vb: Value, kc: string, vc: Value,
                     kd: string, vd: Value, ke: string, ve: Value): (m: map<string, Value>)
    requires ka != kb && ka != kc && ka != kd && ka != ke && kb != kc && kb != kd && kb != ke
    requires kc != kd && kc != ke && kd != ke
    ensures m.Keys == {ka, kb, kc, kd, ke}
    ensures m[ka] == va && m[kb] == vb && m[kc] == vc && m[kd] == vd && m[ke] == ve
  {
    map[ka := va, kb := vb, kc := vc, kd := vd, ke := ve]
  }

  /** Two maps over the same five keys that agree on each of them are equal. */
  lemma SameFiveKeys(h: map<string, Value>, g: map<string, Value>, ka: string, kb: string, kc: string, kd: string, ke: string)
    requires h.Keys == {ka, kb, kc, kd, ke} && g.Keys == h.Keys
    requires h[ka] == g[ka] && h[kb] == g[kb] && h[kc] == g[kc] && h[kd] == g[kd] && h[ke] == g[ke]
    ensures h == g
  {
  }

  /**
   * Private options without a stale directive give exactly the five private
   * headers, whatever `maxAge` and `lastModified` say.
   */
  lemma PrivatePolicy(o: Options, now: int)
    requires Truthy(o.setPrivate)
    requires o.staleRevalidate.Undef? || o.staleRevalidate.Bool?
    requires o.staleError.Undef? || o.staleError.Bool?
    ensures MergeHeaders(o, now) == PrivateHeadersAt(now)
  {
    StaleOmittedForBooleans(o);
    SurrogateControlOf(o, 0);
    MaxAgeTexts();
    LastModifiedRule(o, now);
    var h, p := MergeHeaders(o, now), PrivateHeadersAt(now);
    SameFiveKeys(h, p, CACHE_CONTROL, SURROGATE_CONTROL, PRAGMA, EXPIRES, LAST_MODIFIED);
  }
}
