# cache-headers, modelled in Dafny

A model of the `cache-headers` library, which is Express middleware for setting HTTP caching headers. The model covers four parts:

- the duration table (`timeValues`);
- the value helpers (`isValidObject`, `isNumberLike`, `formatDate`, the last with `Date.prototype.toUTCString` written out on integer time values);
- the header generator (`getTimeValue`, the Cache-Control, Surrogate-Control, Pragma, Expires and Last-Modified generators, and `generateAllCacheHeaders`);
- the two middleware factories (`setupInitialCacheHeaders` and `overrideCacheHeaders`), which write the generated headers on a response.

Files and modules:

| file | module | contents |
|---|---|---|
| `wrappers.dfy` | `Wrappers` | `Option` |
| `js_values.dfy` | `JsValues` | JavaScript values: truthiness, property reads, `String(v)`, the signed-integer number grammar with its parser and printer, ASCII `toUpperCase` |
| `time_values.dfy` | `TimeValues` | the eight durations and the name table |
| `http_date.dfy` | `HttpDate` | `toUTCString`: the civil-calendar conversion and the IMF-fixdate layout |
| `utils.dfy` | `Utils` | `isValidObject`, `isNumberLike` with `Number(v)`, `formatDate` |
| `cache_control.dfy` | `CacheControl` | the generators and `generateAllCacheHeaders` |
| `index.dfy` | `CacheHeaders` | the option dispatch of both middlewares; the middlewares themselves as methods on a `Response` class whose `headers` map and count of `next()` calls they update |

Modelling choices:

- **Options.** An options value is read into an `Options` record, one field per option key the generators destructure.
- **Null options.** Destructuring `null` raises a TypeError. This is the `TypeError` case of `Outcome`.
- **Clock.** The wall clock is a parameter `now`, in milliseconds since the epoch.
- **Path lookup.** The glob lookup of `setupInitialCacheHeaders` is a parameter `matcher`. It is a function from the config and the pathname to the value of the matching key, or none. Where a property needs it, the lookup is required to find only values stored under some key of the config (`FindsConfigValues`).
- **Code over comments.** Where a code comment, a JSDoc note or one of the library's own tests disagrees with the code, the model follows the code:
  - **No match.** A path that matches no glob key gives `undefined` options, and so the default public headers (`max-age=600`). It does not get the private options; the comment at `index.js:57` suggests otherwise, but the `false` branch there only handles a matched value of `false`. The library's own tests (`index_spec.js:294-313`) expect the defaults.
  - **Stale directives.** A stale directive is omitted for any boolean, `true` included, and kept for `null`, which prints `0`. The JSDoc at `cacheControl.js:73-74` names only `false` as the default that turns a directive off.
  - **Negative durations.** `getTimeValue` of a negative number-like value is that negative number, so `"max-age=-5"` can be produced.
  - **Private Last-Modified.** With `setPrivate` truthy, Last-Modified is the current date even when `lastModified` is given (`cacheControl.js:141-143`). The library's own test at `cacheControl_spec.js:84-95` passes a `lastModified` together with `setPrivate: true` and expects the given date back.
  - **`next` and null.** `setupInitialCacheHeaders` calls `next` exactly once except in one case: when the matched config value is `null`, the generator throws, and neither the header write nor `next` happens. `overrideCacheHeaders` always calls `next` exactly once.

## Model

| member | source | states |
|---|---|---|
| JsValues.IntToString | node_modules/cache-headers/src/cacheControl.js:47-49 | the decimal text of an integer, as a template literal prints it, is in the number grammar and parses back to the same integer; it begins with "-" exactly for a negative number, and its digits have no leading zero |
| JsValues.IntToStringInjective | node_modules/cache-headers/src/cacheControl.js:47-49 | two integers that print the same text are the same integer |
| TimeValues.Lookup | node_modules/cache-headers/src/cacheControl.js:21-24 | a name is found exactly when it is one of the eight exported names, its seconds are positive and are the declared duration at that name's position |
| TimeValues.UnitDerivations | node_modules/cache-headers/src/timeValues.js:12-19 | each constant is the stated multiple of the smaller unit (ten minutes, half an hour, an hour, a day, a week, a 30-day month, a 365-day year) |
| TimeValues.DurationsIncreasing | node_modules/cache-headers/src/timeValues.js:12-19 | the eight durations are positive and strictly increasing in declaration order |
| TimeValues.TableIsDeclarations | node_modules/cache-headers/src/timeValues.js:25-34 | the table's keys are exactly the eight exported names and each maps to its declared seconds |
| TimeValues.NamesAreUpperCase | node_modules/cache-headers/src/cacheControl.js:21-23 | every exported name is its own upper-case form, so the upper-casing lookup finds it |
| HttpDate.CivilFromDays | node_modules/cache-headers/src/utils.js:45 | the calendar date of a day number has a month from 1 to 12 and a day within that month's length (leap years included) |
| HttpDate.YearDayRoundTrip | node_modules/cache-headers/src/utils.js:45 | the year and day-of-year found for a day number count back to that day number: the days before that year (Gregorian leap rules) plus the day of the year |
| HttpDate.CivilRoundTrip | node_modules/cache-headers/src/utils.js:45 | the calendar date found for any day number counts back, through the independent day count of a year, month and day, to that same day number |
| HttpDate.UtcStringShape | node_modules/cache-headers/src/utils.js:45 | for the years 0 to 9999 the GMT string is 29 characters, has ", " after the weekday and ends in " GMT" |
| HttpDate.UtcStringOfNewYear2001 | node_modules/cache-headers/__tests__/utils_spec.js:39-44 | the time value of 2001-01-01T00:00:00Z prints as "Mon, 01 Jan 2001 00:00:00 GMT" |
| Utils.FormatDate | node_modules/cache-headers/src/utils.js:37-46 | a valid date prints its own GMT string; an absent, null or invalid date prints the current time's |
| Utils.IsValidObjectCases | node_modules/cache-headers/src/utils.js:18-20 | arrays and every non-object (null included) are rejected; a plain object passes exactly when it has a key |
| Utils.NumbersAreNumberLike | node_modules/cache-headers/src/utils.js:27-29 | every integer number is number-like and `Number` gives it back |
| Utils.NumericStringsAreNumberLike | node_modules/cache-headers/src/utils.js:27-29 | the decimal text of any integer is number-like and `Number` gives the integer back |
| Utils.NonNumbersAreNotNumberLike | node_modules/cache-headers/src/utils.js:27-29 | undefined, null, booleans and plain objects are never number-like |
| Utils.NumberLikeExamples | node_modules/cache-headers/__tests__/utils_spec.js:24-35 | 51 and "51" are number-like with value 51; false and "derp" are not number-like |
| Utils.FormatDateOfNewYear2001 | node_modules/cache-headers/__tests__/utils_spec.js:39-44 | formatting the date 2001-01-01 gives "Mon, 01 Jan 2001 00:00:00 GMT" whatever the clock says |
| CacheControl.GetTimeValue | node_modules/cache-headers/src/cacheControl.js:16-29 | a number-like value resolves to `Number(value)`, negative ones included; a negative result only comes from a number-like value; a non-number-like value gives a result of at least 0; a non-zero result comes from a number-like value or a string whose upper-case form is a table name |
| CacheControl.GetTimeValueOfNumber | node_modules/cache-headers/src/cacheControl.js:17-18 | a number, or the decimal text of one, resolves to that number, negative ones included |
| CacheControl.GetTimeValueOfName | node_modules/cache-headers/src/cacheControl.js:19-24 | a string whose upper-case form is a table name resolves to that name's seconds |
| CacheControl.GetTimeValueOfUnknownName | node_modules/cache-headers/src/cacheControl.js:19-28 | a string that is neither numeric nor a table name in upper case resolves to 0 |
| CacheControl.GetTimeValueOfNonString | node_modules/cache-headers/src/cacheControl.js:26-28 | a value that is neither number-like nor a string resolves to 0 |
| CacheControl.GetTimeValueCaseInsensitive | node_modules/cache-headers/src/cacheControl.js:21 | a string and its upper-case form resolve to the same seconds |
| CacheControl.GetTimeValueExamples | node_modules/cache-headers/__tests__/cacheControl_spec.js:96-138 | "one_minute" and "one_week" resolve to a minute's and a week's seconds; "10minute", "never", false and 0 resolve to 0 |
| CacheControl.BrowserCacheHeaderPrefix | node_modules/cache-headers/src/cacheControl.js:36-41 | the browser directive begins with "private, " exactly when `setPrivate` is truthy, and is the bare no-cache directive otherwise |
| CacheControl.GenerateCacheControl | node_modules/cache-headers/src/cacheControl.js:78-97 | it produces the Cache-Control header and no other; CacheControlLayout states its value |
| CacheControl.CacheControlLayout | node_modules/cache-headers/src/cacheControl.js:78-97 | the Cache-Control value is the browser directive, then ", stale-while-revalidate=N" unless that option is undefined or boolean, then ", stale-if-error=N" under the same rule |
| CacheControl.StaleOmittedForBooleans | node_modules/cache-headers/src/cacheControl.js:86-92 | with both stale options absent or boolean the value is the browser directive alone |
| CacheControl.CacheControlPrivate | node_modules/cache-headers/src/cacheControl.js:84-95 | the Cache-Control value begins with "private, " exactly when `setPrivate` is truthy, and otherwise begins with the no-cache directive |
| CacheControl.GenerateSurrogateControl | node_modules/cache-headers/src/cacheControl.js:106-123 | it produces the Surrogate-Control header and no other; SurrogateControlParses and SurrogateControlOf state its value |
| CacheControl.SurrogateControlParses | node_modules/cache-headers/src/cacheControl.js:106-123 | Surrogate-Control is "max-age=" followed by a numeral that parses back to the intended seconds: 0 when private, 600 when `maxAge` is undefined, else `getTimeValue(maxAge)` |
| CacheControl.SurrogateControlOf | node_modules/cache-headers/src/cacheControl.js:106-123 | when the intended seconds are `n`, Surrogate-Control is exactly "max-age=" followed by the decimal text of `n` |
| CacheControl.MaxAgeRules | node_modules/cache-headers/src/cacheControl.js:111-118 | private gives 0 whatever `maxAge` is; undefined gives 600; an explicit 0 or false gives 0, not 600; a number gives itself; a table name gives its seconds |
| CacheControl.GeneratePragmaHeader | node_modules/cache-headers/src/cacheControl.js:125-129 | it produces the Pragma header and no other; MergeHeaders states its value "no-cache" |
| CacheControl.GenerateExpiresHeader | node_modules/cache-headers/src/cacheControl.js:131-135 | it produces the Expires header and no other; MergeHeaders states its value 0 |
| CacheControl.GenerateLastModifiedHeader | node_modules/cache-headers/src/cacheControl.js:137-146 | the only header it can produce is Last-Modified |
| CacheControl.LastModifiedRule | node_modules/cache-headers/src/cacheControl.js:137-146 | Last-Modified is present exactly when `setPrivate` or `lastModified` is truthy; when private it is the current date even if `lastModified` is given; otherwise it is `lastModified` verbatim |
| CacheControl.MergeHeaders | node_modules/cache-headers/src/cacheControl.js:154-161 | the merge has the four fixed headers plus Last-Modified when generated, each with the value of the generator that set it |
| CacheControl.GenerateAllCacheHeaders | node_modules/cache-headers/src/cacheControl.js:153-162 | the result is a TypeError exactly for null options; otherwise it is the merge for the options read, with undefined read as an empty object |
| CacheControl.PublicPolicy | node_modules/cache-headers/src/cacheControl.js:153-162 | options that are not private, set no Last-Modified and no stale directive give exactly the four public headers carrying their max-age |
| CacheControl.NoOptionsHeaders | node_modules/cache-headers/__tests__/cacheControl_spec.js:42-50 | with every option undefined the headers are exactly the defaults: no-cache Cache-Control, "max-age=600", Pragma no-cache, Expires 0 |
| CacheControl.DefaultPolicy | node_modules/cache-headers/src/cacheControl.js:153 | `undefined` options and an empty object both give exactly the default headers |
| CacheControl.UnknownKeysIgnored | node_modules/cache-headers/src/cacheControl.js:79-83 | the headers depend only on the five option keys: dropping every other key leaves them unchanged |
| CacheControl.OnlyUnknownKeysGiveDefaults | node_modules/cache-headers/src/cacheControl.js:153-162 | an options object with none of the option keys gives exactly the default headers |
| CacheControl.MaxAgeOnly | node_modules/cache-headers/src/cacheControl.js:106-123 | options holding only a numeric `maxAge` give the four public headers with "max-age=" and that number |
| CacheControl.PrivatePolicy | node_modules/cache-headers/src/cacheControl.js:117-146 | private options without a stale directive give exactly the five private headers, whatever `maxAge` and `lastModified` say |
| CacheControl.PrivateForcesNoCaching | node_modules/cache-headers/src/cacheControl.js:117-146 | a truthy `setPrivate` gives a "private, " Cache-Control, "max-age=0" whatever `maxAge` says, and Last-Modified set to the current date |
| CacheHeaders.InitialOptions | node_modules/cache-headers/src/index.js:54-68 | the options handed to the generator are null exactly when the matched value is null |
| CacheHeaders.InitialHeaders | node_modules/cache-headers/src/index.js:51-70 | generation for a request fails with a TypeError exactly when the matched config value is null |
| CacheHeaders.OverrideHeaders | node_modules/cache-headers/src/index.js:85-95 | headers are written exactly when the override is false or a non-empty object, and they are the ones generated from its options |
| CacheHeaders.Response.constructor | node_modules/cache-headers/src/index.js:41 | a response starts with the given headers and no `next` call |
| CacheHeaders.Response.SetHeader | node_modules/cache-headers/src/index.js:29-31 | each written key takes its new value, every other header is kept, `next` is not called |
| CacheHeaders.Response.Next | node_modules/cache-headers/src/index.js:72 | one more `next` call, headers unchanged |
| CacheHeaders.SetupInitialCacheHeaders | node_modules/cache-headers/src/index.js:41-73 | unless the generator throws, the response gains the generated headers and `next` is called once; if it throws, nothing changes |
| CacheHeaders.OverrideCacheHeaders | node_modules/cache-headers/src/index.js:83-98 | the response gains the override's headers when it has any, keeps its headers otherwise, and `next` is called exactly once |
| CacheHeaders.PrivateOptionsHeaders | node_modules/cache-headers/src/index.js:58-61 | the options `false` stands for set `setPrivate` and give exactly the five private headers |
| CacheHeaders.InitialFalseOptions | node_modules/cache-headers/src/index.js:56-61 | a matched false becomes the private options |
| CacheHeaders.InitialFalseIsPrivate | node_modules/cache-headers/src/index.js:56-61 | a path whose config value is false gets exactly the five private headers: "private, no-cache, no-store, must-revalidate", "max-age=0", Pragma, Expires and the current date |
| CacheHeaders.InitialNumberLike | node_modules/cache-headers/src/index.js:62-67 | a number-like config value `v` gives the public headers with "max-age=" followed by `Number(v)` |
| CacheHeaders.InitialPassesOtherValues | node_modules/cache-headers/src/index.js:54 | any other matched value is handed to the generator unchanged |
| CacheHeaders.InitialNoMatch | node_modules/cache-headers/src/index.js:54-70 | a path that matches no glob key gets exactly the default headers |
| CacheHeaders.InitialMissingConfig | node_modules/cache-headers/src/index.js:39 | a falsy config is replaced by an empty one; a lookup that only finds values stored in the config finds nothing there, so every path gets the defaults |
| CacheHeaders.OverrideFalseIsPrivate | node_modules/cache-headers/src/index.js:86-91 | `overrideCacheHeaders(false)` writes exactly the five private headers, "max-age=0" and the current date among them |
| CacheHeaders.OverrideIgnoresInvalid | node_modules/cache-headers/src/index.js:93 | undefined, an empty object, an array or any primitive other than false writes no header |
| CacheHeaders.OverrideUnknownKeys | node_modules/cache-headers/src/index.js:93-94 | a non-empty override object with none of the option keys still writes headers, and they are the defaults |

## Left out

- Glob matching, `glob-slasher` path normalisation and URL parsing are not part of this model. They are the `matcher` parameter: a function from the config and the pathname to the value of the first matching key.
- Number-like values cover integers only: an optional sign and decimal digits. Fractions, exponents, NaN and the infinities of JavaScript numbers are not modelled, and number precision limits are ignored.
- `toUpperCase` is modelled on ASCII letters only. Non-ASCII case mapping is left out.
- The `console.warn` in `getTimeValue` is output only and is left out.
- The clock read by `new Date()` is the parameter `now`. Time values beyond the range of a JavaScript Date are not excluded.
- The `Response` keeps headers as a map from name to value. Express's case-insensitive header names, the string coercion done by `res.set`, and header insertion order are not modelled.
- When the generator throws inside `setupInitialCacheHeaders`, the method reports `thrown`. What Express then does with the error is not modelled.
- The Express request object and the middleware signature `(req, res, next)` are reduced to the pathname, the response and a count of `next` calls.
- Property reads on primitives, arrays and inherited properties always give `undefined`. None of the five option names exists on those.
