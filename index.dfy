/**
 * The two Express middleware factories. `setupInitialCacheHeaders` maps the
 * config value that the request path matches to an options record, writes
 * the generated headers on the response and calls `next`;
 * `overrideCacheHeaders` does the same for one route, and only for `false`
 * or a non-empty object.
 */
module CacheHeaders {
  import opened Wrappers
  import opened JsValues
  import opened Utils
  import opened CacheControl

  /** The options a config value of `false` stands for: no shared caching, private. */
  const PRIVATE_OPTIONS := Obj(map[KEY_SURROGATE_CONTROL := Num(0), KEY_SET_PRIVATE := Bool(true)])

  /**
   * The glob lookup over a paths config: the value of the first glob key
   * that matches the path, or nothing. Path normalisation happens before.
   */
  type Matcher = (Value, string) -> Option<Value>

  /** A lookup that only ever finds values stored under some key of an object config. */
  ghost predicate FindsConfigValues(matcher: Matcher)
  {
    forall config, pathname :: matcher(config, pathname).Some? ==>
      config.Obj? && matcher(config, pathname).value in config.fields.Values
  }

  /** `pathsConfig || {}`. */
  function ConfigOrEmpty(pathsConfig: Value): Value
  {
    if Truthy(pathsConfig) then pathsConfig else Obj(map[])
  }

  /**
   * The options dispatch of `setupInitialCacheHeaders` on the looked-up
   * value (`undefined` when nothing matched): `false` becomes the private
   * options, a number-like value becomes `{maxAge: Number(value)}`, anything
   * else is passed on as it is.
   */
  function InitialOptions(matched: Option<Value>): (r: Value)
    ensures r.Null? <==> matched == Some(Null)
  {
    NonNumbersAreNotNumberLike(Null);
    var options := if matched.Some? then matched.value else Undef;
    if options == Bool(false) then PRIVATE_OPTIONS
    else if IsNumberLike(options) then Obj(map[KEY_SURROGATE_CONTROL := Num(ToNumber(options))])
    else options
  }

  /** The headers `setupInitialCacheHeaders` generates for one request. */
  function InitialHeaders(pathsConfig: Value, matcher: Matcher, pathname: string, now: int): (r: Outcome)
    ensures r.TypeError? <==> matcher(ConfigOrEmpty(pathsConfig), pathname) == Some(Null)
  {
    GenerateAllCacheHeaders(InitialOptions(matcher(ConfigOrEmpty(pathsConfig), pathname)), now)
  }

  /** `overrideConfig`, with `false` standing for the private options. */
  function OverrideOptions(overrideConfig: Value): Value
  {
    if overrideConfig == Bool(false) then PRIVATE_OPTIONS else overrideConfig
  }

  /**
   * The headers `overrideCacheHeaders` writes: those generated from its
   * options when they form a non-empty object, otherwise none.
   */
  function OverrideHeaders(overrideConfig: Value, now: int): (r: Option<map<string, Value>>)
    ensures r.Some? <==> overrideConfig == Bool(false) || IsValidObject(overrideConfig)
    ensures r.Some? ==> GenerateAllCacheHeaders(OverrideOptions(overrideConfig), now) == Headers(r.value)
  {
    var options := OverrideOptions(overrideConfig);
    if IsValidObject(options) then Some(GenerateAllCacheHeaders(options, now).headers) else None
  }

  /** The part of an Express response the middlewares touch: its headers and the `next` calls made. */
  class Response {
    var headers: map<string, Value>
    var nextCalls: nat

    constructor (headers: map<string, Value>)
      ensures this.headers == headers && nextCalls == 0
    {
      this.headers := headers;
      nextCalls := 0;
    }

    /** `setHeader(res, data)`, i.e. `res.set(data)`: each key of `data` is written, the others kept. */
    method SetHeader(data: map<string, Value>)
      modifies this
      ensures headers == old(headers) + data
      ensures nextCalls == old(nextCalls)
    {
      headers := headers + data;
    }

    /** Calling `next()`. */
    method Next()
      modifies this
      ensures headers == old(headers)
      ensures nextCalls == old(nextCalls) + 1
    {
      nextCalls := nextCalls + 1;
    }
  }

  /**
   * The middleware `setupInitialCacheHeaders(pathsConfig)` returns, run on
   * one request for `pathname`: it writes the generated headers and calls
   * `next` once, or throws (a matched `null` cannot be destructured) before
   * doing either.
   */
  method SetupInitialCacheHeaders(res: Response, pathsConfig: Value, matcher: Matcher, pathname: string, now: int)
    returns (thrown: bool)
    modifies res
    ensures thrown <==> InitialHeaders(pathsConfig, matcher, pathname, now).TypeError?
    ensures !thrown ==> res.headers == old(res.headers) + InitialHeaders(pathsConfig, matcher, pathname, now).headers
    ensures !thrown ==> res.nextCalls == old(res.nextCalls) + 1
    ensures thrown ==> res.headers == old(res.headers) && res.nextCalls == old(res.nextCalls)
  {
    var pathsConfig := ConfigOrEmpty(pathsConfig);
    var options := InitialOptions(matcher(pathsConfig, pathname));
    var generated := GenerateAllCacheHeaders(options, now);
    if generated.TypeError? {
      return true;
    }
    res.SetHeader(generated.headers);
    res.Next();
    return false;
  }

  /**
   * The middleware `overrideCacheHeaders(overrideConfig)` returns, run on
   * one request: it rewrites the generated headers when its options form a
   * non-empty object, and always calls `next` once.
   */
  method OverrideCacheHeaders(res: Response, overrideConfig: Value, now: int)
    modifies res
    ensures OverrideHeaders(overrideConfig, now).Some? ==>
              res.headers == old(res.headers) + OverrideHeaders(overrideConfig, now).value
    ensures OverrideHeaders(overrideConfig, now).None? ==> res.headers == old(res.headers)
    ensures res.nextCalls == old(res.nextCalls) + 1
  {
    var options := OverrideOptions(overrideConfig);
    if IsValidObject(options) {
      res.SetHeader(GenerateAllCacheHeaders(options, now).headers);
    }
    res.Next();
  }

  // ---------------------------------------------------------------------
  // Properties of the dispatch

  /**
   * The private options set `setPrivate` to `true` and no stale directive,
   * so they give exactly the five private headers. The options are a
   * parameter pinned by `requires`, which keeps the verifier from unfolding
   * the generators on a constant.
   */
  lemma PrivateOptionsHeaders(options: Value, now: int)
    requires options == PRIVATE_OPTIONS
    ensures Get(options, KEY_SET_PRIVATE) == Bool(true)
    ensures GenerateAllCacheHeaders(options, now) == Headers(PrivateHeadersAt(now))
  {
    var o := ReadOptions(options);
    assert o.setPrivate == Bool(true) && o.staleRevalidate == Undef && o.staleError == Undef;
    PrivatePolicy(o, now);
  }

  /** A matched `false` stands for the private options. */
  lemma InitialFalseOptions(matched: Option<Value>)
    requires matched == Some(Bool(false))
    ensures InitialOptions(matched) == PRIVATE_OPTIONS
  {
  }

  /** A matched `false` gives exactly the five private headers, max-age 0 and a fresh Last-Modified among them. */
  lemma InitialFalseIsPrivate(pathsConfig: Value, matcher: Matcher, pathname: string, now: int)
    requires matcher(ConfigOrEmpty(pathsConfig), pathname) == Some(Bool(false))
    ensures InitialHeaders(pathsConfig, matcher, pathname, now) == Headers(PrivateHeadersAt(now))
  {
    var matched := matcher(ConfigOrEmpty(pathsConfig), pathname);
    var options := InitialOptions(matched);
    assert InitialHeaders(pathsConfig, matcher, pathname, now) == GenerateAllCacheHeaders(options, now);
    InitialFalseOptions(matched);
    PrivateOptionsHeaders(options, now);
  }

  /**
   * A matched number-like value `v` gives the non-private defaults with
   * max-age set to `Number(v)`, and no Last-Modified.
   */
  lemma InitialNumberLike(pathsConfig: Value, matcher: Matcher, pathname: string, now: int, v: Value)
    requires matcher(ConfigOrEmpty(pathsConfig), pathname) == Some(v) && IsNumberLike(v)
    ensures var r := InitialHeaders(pathsConfig, matcher, pathname, now);
            r == Headers(PublicHeaders("max-age=" + IntToString(ToNumber(v))))
  {
    assert v != Bool(false) by {
      NonNumbersAreNotNumberLike(Bool(false));
    }
    var options := Obj(map[KEY_SURROGATE_CONTROL := Num(ToNumber(v))]);
    assert InitialOptions(Some(v)) == options;
    assert InitialHeaders(pathsConfig, matcher, pathname, now) == GenerateAllCacheHeaders(options, now);
    MaxAgeOnly(ToNumber(v), now);
  }

  /** Any other matched value is handed to the generator unchanged. */
  lemma InitialPassesOtherValues(pathsConfig: Value, matcher: Matcher, pathname: string, now: int, v: Value)
    requires matcher(ConfigOrEmpty(pathsConfig), pathname) == Some(v) && v != Bool(false) && !IsNumberLike(v)
    ensures InitialHeaders(pathsConfig, matcher, pathname, now) == GenerateAllCacheHeaders(v, now)
  {
  }

  /** When no glob key matches, the default policy applies (not the private one). */
  lemma InitialNoMatch(pathsConfig: Value, matcher: Matcher, pathname: string, now: int)
    requires matcher(ConfigOrEmpty(pathsConfig), pathname) == None
    ensures InitialHeaders(pathsConfig, matcher, pathname, now) == Headers(DEFAULT_HEADERS)
  {
    NonNumbersAreNotNumberLike(Undef);
    DefaultPolicy(Undef, now);
  }

  /**
   * A missing (falsy) config is an empty one, in which a lookup finds
   * nothing, so every request gets the default policy.
   */
  lemma InitialMissingConfig(pathsConfig: Value, matcher: Matcher, pathname: string, now: int)
    requires !Truthy(pathsConfig) && FindsConfigValues(matcher)
    ensures InitialHeaders(pathsConfig, matcher, pathname, now) == Headers(DEFAULT_HEADERS)
  {
    var empty: map<string, Value> := map[];
    assert ConfigOrEmpty(pathsConfig) == Obj(empty);
    assert empty.Values == {};
    InitialNoMatch(pathsConfig, matcher, pathname, now);
  }

  /**
   * `overrideCacheHeaders(false)` writes exactly the five private headers,
   * max-age 0 and a fresh Last-Modified among them.
   */
  lemma OverrideFalseIsPrivate(overrideConfig: Value, now: int)
    requires overrideConfig == Bool(false)
    ensures OverrideHeaders(overrideConfig, now) == Some(PrivateHeadersAt(now))
  {
    PrivateOptionsHeaders(OverrideOptions(overrideConfig), now);
  }

  /** `undefined`, an empty object, an array or a primitive other than `false` writes nothing. */
  lemma OverrideIgnoresInvalid(overrideConfig: Value, now: int)
    requires overrideConfig != Bool(false)
    requires !overrideConfig.Obj? || overrideConfig.fields == map[]
    ensures OverrideHeaders(overrideConfig, now) == None
  {
  }

  /** An override object holding only unknown keys still rewrites the headers, to the defaults. */
  lemma OverrideUnknownKeys(fields: map<string, Value>, now: int)
    requires |fields| > 0 && forall k | k in fields :: k !in OPTION_KEYS
    ensures OverrideHeaders(Obj(fields), now) == Some(DEFAULT_HEADERS)
  {
    OnlyUnknownKeysGiveDefaults(fields, now);
  }
}
