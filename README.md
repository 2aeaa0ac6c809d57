# Risk-based authentication action, modelled in Dafny

This project models the decision core of the Shibboleth risk-based
authentication plugin. It covers:

- the profile action `RiskBasedAuthAction`: its allow-list of telemetry
  fields, its map of recently denied users, and `doExecute`;
- the helpers `doExecute` relies on:
  - `NumberHelper`: the clamps;
  - `StringHelper`: sanitising, client address, payload preview;
  - `JsonHelper.sanitizeAndValidateMetrics`: the telemetry filter.

A login request either carries browser telemetry (a full login) or does not
(a single sign-on attempt).

- A full login filters the telemetry, posts it with the user name, the
  client address and the user agent to a scoring service, and compares the
  returned `threatScore` with a configured threshold. Below the threshold
  the user is admitted and forgotten. Otherwise the user is denied and
  recorded with the current time.
- A single sign-on attempt consults only that record. A denial less than
  one hour old blocks the user; an older one is removed.

Modules: one per helper class; `AllowedFields` holds the allow-list of
`RiskBasedAuthAction` and `AuthAction` the rest of that class; `JavaLang`
and `Json` model the JDK and Gson behaviour the code relies on:

| file | module | models |
|---|---|---|
| `java_lang.dfy` | `JavaLang` | null, exceptions, doubles, `Math.round`, `String.trim`, `isBlank`, `split`, UTF-8 length, decimal rendering |
| `number_helper.dfy` | `NumberHelper` | `NumberHelper` |
| `string_helper.dfy` | `StringHelper` | `StringHelper` |
| `json.dfy` | `Json` | Gson's parsed JSON elements and built JSON objects |
| `allowed_fields.dfy` | `AllowedFields` | `RiskBasedAuthAction.ALLOWED_FIELDS` |
| `json_helper.dfy` | `JsonHelper` | `JsonHelper` |
| `auth_action.dfy` | `AuthAction` | `RiskBasedAuthAction` |

The pure helpers are functions, each with lemmas about it.

The filter loop of `sanitizeAndValidateMetrics` is a method with a `for`
loop. It is proved equal to the function `SanitizeFields`, and the
properties of the built object are proved about that function.

The action is a class with the denial map, the endpoint and the threshold
as fields:

- `DoExecute` updates the map as the Java code does.
- Its postcondition says the outcome and the new map are those of the
  function `Decide`, applied to the map before the call.
- The lemmas about `Decide` state the protocol properties. These include:
  which entries can change; that a denial blocks single sign-on for exactly
  one hour; and that a NaN threshold denies every scored full login. Single
  sign-on never reads the threshold, so it still admits users without a
  recent denial.

Inputs the core cannot see are parameters:

- the clock reading `now`;
- Gson's parser, its `fromJson`, `Double.parseDouble`, and the serialised
  sizes of the metrics and the payload (the `Gson` record of functions);
- the outcome of the HTTP exchange (`ScoreReply`: a failure, or a status
  and a body).

Behaviour of the code that is easy to misread, all modelled as the code
does it:

- Control characters are removed with Java's `\p{Cntrl}`. That class is
  ASCII only: U+0000–U+001F and U+007F. Unicode format characters such as
  U+200B survive.
- `String.trim` removes only characters at or below U+0020. Wider Unicode
  spaces survive.
- Integer clamps round with `Math.round`, which rounds ties toward positive
  infinity (−2.5 becomes −2), not away from zero.
- The client address is taken from the first `X-Forwarded-For` element
  only. A header made only of commas makes `split(",")` return an empty
  array. Reading its element 0 then throws out of `doExecute`.
- A user without a `UsernamePrincipal` is a null name:
  - On the single sign-on path and on rejected telemetry, the lookup or put
    of null in the map happens outside the `try` block. It throws out of
    `doExecute`: `Escaped(NullPointer)`.
  - After scoring, the same error is caught, and the event is
    `RUNTIME_EXCEPTION`.
- `sanitizeString` is not idempotent: cutting to 256 characters can leave a
  trailing space that a second pass trims (`SanitizeNotIdempotent`). The
  user agent goes through it twice. The twice-sanitised text has no blank
  at either end (`SanitizeTwiceHasNoOuterBlank`).

## Model

| member | source | states |
|---|---|---|
| JavaLang.Round | src/main/java/com/sampacker/shibboleth/rba/utils/NumberHelper.java:9 | Math.round: NaN gives 0, the infinities give the long extremes |
| JavaLang.RoundIsNearest | src/main/java/com/sampacker/shibboleth/rba/utils/NumberHelper.java:9 | inside the long range the rounded value is the integer in (x − ½, x + ½], so ties go up |
| NumberHelper.ClampLong | src/main/java/com/sampacker/shibboleth/rba/utils/NumberHelper.java:13-19 | NaN gives lo; the result is never below lo and never above hi unless the bounds are inverted (then it is lo); +∞ gives hi and −∞ gives lo |
| NumberHelper.Clamp | src/main/java/com/sampacker/shibboleth/rba/utils/NumberHelper.java:5-11 | the int overload agrees with the long one (the narrowing cast never changes the value) and lands in [lo, hi] |
| NumberHelper.ClampDouble | src/main/java/com/sampacker/shibboleth/rba/utils/NumberHelper.java:21-26 | NaN gives lo; the result lies in [lo, hi]; a finite value already inside is returned unchanged, without rounding |
| NumberHelper.ClampFinite | src/main/java/com/sampacker/shibboleth/rba/utils/NumberHelper.java:17-18 | for a finite value the clamp is floor(x + ½) forced into [lo, hi]: the long saturation of Math.round never shows |
| NumberHelper.ClampSaturates | src/main/java/com/sampacker/shibboleth/rba/utils/NumberHelper.java:17-18 | values at or below lo give lo, values at or above hi give hi |
| NumberHelper.ClampKeepsIntegralInRange | src/main/java/com/sampacker/shibboleth/rba/utils/NumberHelper.java:17-18 | an integral value inside the bounds comes back unchanged |
| NumberHelper.ClampRoundsHalfUp | src/main/java/com/sampacker/shibboleth/rba/utils/NumberHelper.java:9-10 | 2.5 → 3, −2.5 → −2, 0.5 → 1, −0.5 → 0 |
| NumberHelper.ClampIdempotent | src/main/java/com/sampacker/shibboleth/rba/utils/NumberHelper.java:13-19 | clamping a clamped value again changes nothing, for any bounds |
| NumberHelper.ClampDoubleIdempotent | src/main/java/com/sampacker/shibboleth/rba/utils/NumberHelper.java:21-26 | the double clamp is idempotent |
| NumberHelper.ClampMonotone | src/main/java/com/sampacker/shibboleth/rba/utils/NumberHelper.java:13-19 | x ≤ y implies clamp(x) ≤ clamp(y) |
| NumberHelper.ClampDoubleMonotone | src/main/java/com/sampacker/shibboleth/rba/utils/NumberHelper.java:21-26 | the double clamp is monotone |
| JavaLang.LessIsStrictOrderBesideNaN | src/main/java/com/sampacker/shibboleth/rba/RiskBasedAuthAction.java:239 | Java's double `<` (the predicate Less) is irreflexive, asymmetric and transitive, total on non-NaN values, and false whenever either side is NaN |
| JavaLang.BlankAndTrimDiffer | src/main/java/com/sampacker/shibboleth/rba/utils/StringHelper.java:60-62 | isBlank (IsBlank over Character.isWhitespace, the predicate IsWhitespace) and trimming to nothing are different tests: "" and " \t\r\n" are both; U+3000 is blank but survives trim; U+0000 is not blank but is trimmed; U+00A0 is not blank |
| JavaLang.Trim | src/main/java/com/sampacker/shibboleth/rba/utils/StringHelper.java:22 | String.trim is the slice s[i..j] with only characters ≤ U+0020 before i and from j on, and none at either end of the slice |
| JavaLang.TrimOfPadded | src/main/java/com/sampacker/shibboleth/rba/utils/StringHelper.java:22 | trimmable padding around a text with untrimmable ends is removed, and the text is kept whole |
| JavaLang.TrimOfUntrimmedEnds | src/main/java/com/sampacker/shibboleth/rba/utils/StringHelper.java:22 | a string with no trimmable character at either end is its own trim |
| StringHelper.RemoveControls | src/main/java/com/sampacker/shibboleth/rba/utils/StringHelper.java:22 | replaceAll("\\p{Cntrl}", "") leaves no control character and never lengthens |
| StringHelper.RemoveControlsKeepsText | src/main/java/com/sampacker/shibboleth/rba/utils/StringHelper.java:22 | every non-control character is kept as often as it occurs in the input |
| StringHelper.RemoveControlsAppend | src/main/java/com/sampacker/shibboleth/rba/utils/StringHelper.java:22 | removal works piece by piece, RemoveControls(a + b) == RemoveControls(a) + RemoveControls(b), so the kept characters stay in their order |
| StringHelper.RemoveControlsKeepsClean | src/main/java/com/sampacker/shibboleth/rba/utils/StringHelper.java:22 | text without control characters is unchanged |
| StringHelper.Cleaned | src/main/java/com/sampacker/shibboleth/rba/utils/StringHelper.java:22 | the stripped and trimmed text is a slice of the stripped text with only trimmable characters cut on either side; it has no control character and no space at either end |
| StringHelper.CleanedOfPaddedText | src/main/java/com/sampacker/shibboleth/rba/utils/StringHelper.java:22 | spaces and control characters around a text whose ends are neither are removed, and the text loses only its control characters |
| StringHelper.TrimKeepsNoControls | src/main/java/com/sampacker/shibboleth/rba/utils/StringHelper.java:22 | trimming text without control characters keeps it so and leaves no space at either end |
| StringHelper.SanitizeString | src/main/java/com/sampacker/shibboleth/rba/utils/StringHelper.java:15-28 | null gives ""; the result has at most 256 characters, no control character and no leading space; it is the first min(\|cleaned\|, 256) characters of the cleaned text; when no cut happens it has no trailing space either |
| StringHelper.SafeString | src/main/java/com/sampacker/shibboleth/rba/utils/StringHelper.java:30-37 | safeString and sanitizeString agree on every input, null included |
| StringHelper.CleanedOfCleanText | src/main/java/com/sampacker/shibboleth/rba/utils/StringHelper.java:22 | clean text with no space at either end is its own cleaned form |
| StringHelper.CleanedDropsTrailingSpace | src/main/java/com/sampacker/shibboleth/rba/utils/StringHelper.java:22 | cleaning clean text followed by one space removes just that space |
| StringHelper.SanitizeNotIdempotent | src/main/java/com/sampacker/shibboleth/rba/utils/StringHelper.java:22-25 | for a 255-character clean text a, a + " b" sanitises to a + " ", and that sanitises to a |
| StringHelper.SanitizeTwiceHasNoOuterBlank | src/main/java/com/sampacker/shibboleth/rba/RiskBasedAuthAction.java:140-185 | the user agent, sanitised twice, has no space at either end |
| JavaLang.SegmentsAllEmpty | src/main/java/com/sampacker/shibboleth/rba/utils/StringHelper.java:62 | every piece between separators is empty exactly when every character is the separator |
| JavaLang.SplitEmptyIff | src/main/java/com/sampacker/shibboleth/rba/utils/StringHelper.java:62 | split(",") returns an empty array exactly when the text is a non-empty run of commas |
| JavaLang.Split | src/main/java/com/sampacker/shibboleth/rba/utils/StringHelper.java:62 | split(",") with no comma gives the text itself; no element holds a comma; when a comma occurs, trailing empty elements are removed |
| JavaLang.SplitFirst | src/main/java/com/sampacker/shibboleth/rba/utils/StringHelper.java:62 | otherwise its element 0 is the text before the first comma |
| JavaLang.BeforeFirst | src/main/java/com/sampacker/shibboleth/rba/utils/StringHelper.java:62 | the text before the first comma is a prefix without a comma, followed by a comma or the end |
| StringHelper.ExtractClientIp | src/main/java/com/sampacker/shibboleth/rba/utils/StringHelper.java:57-69 | a null or blank header gives the peer address; the only exception is ArrayIndexOutOfBounds, on a header of commas alone; an address other than the peer's is the trimmed text before the header's first comma, non-empty, without a comma and without a character ≤ U+0020 at either end |
| StringHelper.ExtractClientIpChoice | src/main/java/com/sampacker/shibboleth/rba/utils/StringHelper.java:57-69 | null or blank header → peer address; a header of commas alone → ArrayIndexOutOfBounds; otherwise the trimmed text before the first comma if non-empty, else the peer address |
| StringHelper.MaskPayloadForLogs | src/main/java/com/sampacker/shibboleth/rba/utils/StringHelper.java:71-82 | null gives ""; up to 512 characters are logged unchanged; a longer payload keeps its first 256 characters followed by "...[truncated:", the length and " bytes]" |
| StringHelper.MaskedPreviewIsBounded | src/main/java/com/sampacker/shibboleth/rba/utils/StringHelper.java:77-81 | a truncated preview is shorter than the payload and at most 512 characters for any Java string length; its marker's digits read back as the payload length |
| JavaLang.DecimalString | src/main/java/com/sampacker/shibboleth/rba/utils/StringHelper.java:81 | `"" + n` is a non-empty run of digits without a leading zero unless n is 0 |
| JavaLang.ParseDecimalString | src/main/java/com/sampacker/shibboleth/rba/utils/StringHelper.java:81 | the decimal text of n parses back to n |
| JavaLang.DecimalStringLength | src/main/java/com/sampacker/shibboleth/rba/utils/StringHelper.java:81 | a number below 10^k has at most k digits |
| JavaLang.Utf8Length | src/main/java/com/sampacker/shibboleth/rba/utils/JsonHelper.java:47-48 | the UTF-8 byte count lies between the character count and four times it |
| AllowedFields.AllowedFieldsDistinct | src/main/java/com/sampacker/shibboleth/rba/RiskBasedAuthAction.java:62-94 | the allow-list has 30 entries and no name twice, so the map holds every put |
| AllowedFields.DistinctAppend | src/main/java/com/sampacker/shibboleth/rba/RiskBasedAuthAction.java:62-94 | two runs without repeated names and with no name in common concatenate to a run without repeated names |
| AllowedFields.TypeOf | src/main/java/com/sampacker/shibboleth/rba/utils/JsonHelper.java:74-77 | a field has a declared type exactly when the allow-list has an entry with its name |
| AllowedFields.EntryFound | src/main/java/com/sampacker/shibboleth/rba/utils/JsonHelper.java:74-77 | in a table without repeated names each entry is found at its own index with its own type |
| JsonHelper.ClampNumber | src/main/java/com/sampacker/shibboleth/rba/utils/JsonHelper.java:106-149 | a number field's stored value lies in its bound, as an int or a double as the bound says; a finite value under an int bound is stored as floor(x + ½) forced into [lo, hi], and under a double bound as x forced into [lo, hi] without rounding |
| JsonHelper.ClampNumberIdempotent | src/main/java/com/sampacker/shibboleth/rba/utils/JsonHelper.java:106-149 | clamping a field's stored number again, read back as a double, stores the same value |
| JsonHelper.StoredNumberFieldIsFixed | src/main/java/com/sampacker/shibboleth/rba/utils/JsonHelper.java:79-149 | a kept number field, written back into the object as a JSON number, is kept unchanged by the filter |
| JsonHelper.NumberBound | src/main/java/com/sampacker/shibboleth/rba/utils/JsonHelper.java:106-149 | the switch (table NUMBER_BOUNDS plus the default): every bound is a non-empty interval; integer bounds lie within [−1440, 10^9], so stored ints fit an int; only tz_offset_min may go below 0; pixel_ratio is the one explicit double clamp; any other key gets [−10^9, 10^9] as a double |
| JsonHelper.NumberFieldsHaveExplicitBound | src/main/java/com/sampacker/shibboleth/rba/utils/JsonHelper.java:106-149 | every number field of the allow-list has its own case in the switch, so the default clamp is never used |
| JsonHelper.SanitizeText | src/main/java/com/sampacker/shibboleth/rba/utils/JsonHelper.java:168-174 | a string field is sanitised; collection_timestamp is further cut to 64 characters; the result is a clean prefix of the sanitised text |
| JsonHelper.ValidateField | src/main/java/com/sampacker/shibboleth/rba/utils/JsonHelper.java:79-182 | an absent or JSON-null field is skipped; a kept value has the declared type; a number is kept exactly when it is readable and finite, and is then stored as its clamped value (ClampNumber), in its bound; a boolean is kept as it is; a string is kept sanitised |
| JsonHelper.SanitizeFields | src/main/java/com/sampacker/shibboleth/rba/utils/JsonHelper.java:74-183 | the built object has at most one member per allow-list entry |
| JsonHelper.ValidateMetrics | src/main/java/com/sampacker/shibboleth/rba/utils/JsonHelper.java:40-192 | null, more than 8 KiB of UTF-8, unparsable or non-object input is rejected; an accepted result is the filtered object, and its serialisation is at most 8 KiB; input passing every check is accepted with the filtered object |
| JsonHelper.SanitizeAndValidateMetrics | src/main/java/com/sampacker/shibboleth/rba/utils/JsonHelper.java:40-192 | the method with its early returns computes exactly ValidateMetrics |
| JsonHelper.SanitizeObject | src/main/java/com/sampacker/shibboleth/rba/utils/JsonHelper.java:72-183 | the loop over the allow-list, with its continue branches, builds exactly SanitizeFields |
| JsonHelper.LookupSanitized | src/main/java/com/sampacker/shibboleth/rba/utils/JsonHelper.java:74-183 | read as a map, the built object holds for each name the value its own allow-list entry validates to, and nothing for names outside the allow-list |
| JsonHelper.SanitizedInTableOrder | src/main/java/com/sampacker/shibboleth/rba/utils/JsonHelper.java:74-183 | the built object's keys are allow-list names in strict allow-list order, so none occurs twice |
| JsonHelper.FieldIndependence | src/main/java/com/sampacker/shibboleth/rba/utils/JsonHelper.java:84-182 | what a field becomes depends only on that field: a bad field elsewhere does not affect it |
| JsonHelper.AcceptedValuesInBounds | src/main/java/com/sampacker/shibboleth/rba/utils/JsonHelper.java:40-192 | every value in an accepted object belongs to an allowed field, has its declared type, lies in its bound and, for strings, has at most 256 characters |
| JsonHelper.OnlyPresentFieldsAppear | src/main/java/com/sampacker/shibboleth/rba/utils/JsonHelper.java:79-90 | only fields present and not JSON null in the input appear in the output |
| JsonHelper.ClampsKeyCountDropsWrongType | src/main/java/com/sampacker/shibboleth/rba/utils/JsonHelper.java:108-109 | {"key_count": ≥ 10000, "touch_support": a string} keeps only key_count = 10000 |
| AuthAction.SsoDecision | src/main/java/com/sampacker/shibboleth/rba/RiskBasedAuthAction.java:149-170 | single sign-on: a null name throws out; a named user is denied exactly when their entry is under an hour old, with the map unchanged, and admitted otherwise, with the entry removed |
| AuthAction.DenyRejected | src/main/java/com/sampacker/shibboleth/rba/RiskBasedAuthAction.java:173-179 | rejected telemetry denies a named user and records now; a null name throws out |
| AuthAction.AsDouble | src/main/java/com/sampacker/shibboleth/rba/RiskBasedAuthAction.java:230 | getAsDouble: a number gives its value; null, objects and arrays of other than one element throw |
| AuthAction.ThreatScore | src/main/java/com/sampacker/shibboleth/rba/RiskBasedAuthAction.java:212-235 | a score exists exactly for a completed call with a 2xx status, a JSON object body holding threatScore, and a finite getAsDouble value, which it is |
| AuthAction.ScoredDecision | src/main/java/com/sampacker/shibboleth/rba/RiskBasedAuthAction.java:239-257 | score < threshold admits and removes the entry; otherwise deny and record now; a null name gives RuntimeException with the map unchanged |
| AuthAction.BuildPayload | src/main/java/com/sampacker/shibboleth/rba/RiskBasedAuthAction.java:182-186 | the name, address and user agent are their sanitised forms, so each has at most 256 characters and no control character, and a null name or address becomes ""; the metrics are the sanitised ones |
| AuthAction.FullLogin | src/main/java/com/sampacker/shibboleth/rba/RiskBasedAuthAction.java:173-257 | rejected telemetry denies a named user and records now, and escapes with NullPointer for a null name; with accepted telemetry, a null name, a payload over 64 KiB, or no finite score (failed call, non-2xx status, no readable threatScore) gives RUNTIME_EXCEPTION with the map unchanged; a user is admitted only with a score below the threshold |
| AuthAction.HandleRequest | src/main/java/com/sampacker/shibboleth/rba/RiskBasedAuthAction.java:139-257 | a header of only commas makes the ArrayIndexOutOfBounds escape with the map unchanged; a request is admitted only for a named user, and then: on single sign-on, only without a denial under an hour old; otherwise, only with accepted telemetry and a score below the threshold |
| AuthAction.Decide | src/main/java/com/sampacker/shibboleth/rba/RiskBasedAuthAction.java:114-133 | a missing context or result, a null or blank endpoint, or a missing request gives RuntimeException with the map unchanged |
| AuthAction.RiskBasedAuthAction.constructor | src/main/java/com/sampacker/shibboleth/rba/RiskBasedAuthAction.java:50-56 | a fresh action denies nobody, has no endpoint, and has threshold 0.0 |
| AuthAction.RiskBasedAuthAction.SetRbaEndpoint | src/main/java/com/sampacker/shibboleth/rba/RiskBasedAuthAction.java:101-103 | sets the endpoint and nothing else |
| AuthAction.RiskBasedAuthAction.SetFailureThreshold | src/main/java/com/sampacker/shibboleth/rba/RiskBasedAuthAction.java:109-111 | sets the threshold and nothing else |
| AuthAction.RiskBasedAuthAction.DoExecute | src/main/java/com/sampacker/shibboleth/rba/RiskBasedAuthAction.java:114-263 | the event and the new denial map are those Decide gives for the map before the call |
| AuthAction.RiskBasedAuthAction.SendForScore | src/main/java/com/sampacker/shibboleth/rba/RiskBasedAuthAction.java:173-257 | the full-login part of doExecute, from the sanitised telemetry on, updates the map as the staged decision FullLogin says |
| AuthAction.SsoIsTransition | src/main/java/com/sampacker/shibboleth/rba/RiskBasedAuthAction.java:149-170 | the single sign-on branch makes only an allowed change to the map |
| AuthAction.ScoredIsTransition | src/main/java/com/sampacker/shibboleth/rba/RiskBasedAuthAction.java:239-257 | so does the scored branch |
| AuthAction.FullLoginIsTransition | src/main/java/com/sampacker/shibboleth/rba/RiskBasedAuthAction.java:173-257 | so does the whole full-login path |
| AuthAction.HandleRequestIsTransition | src/main/java/com/sampacker/shibboleth/rba/RiskBasedAuthAction.java:139-257 | so does every request after the availability checks |
| AuthAction.DecideIsTransition | src/main/java/com/sampacker/shibboleth/rba/RiskBasedAuthAction.java:114-263 | every call makes one of the allowed changes: Proceed removes the user's entry; AccessDenied keeps a recent entry or sets it to now; any other outcome changes nothing |
| AuthAction.OnlyOwnEntryChanges | src/main/java/com/sampacker/shibboleth/rba/RiskBasedAuthAction.java:151-250 | a call changes at most its own user's entry; a call without a user name, or one ending in RuntimeException or an escaping exception, changes nothing |
| AuthAction.OutcomeMatchesEntry | src/main/java/com/sampacker/shibboleth/rba/RiskBasedAuthAction.java:151-250 | after Proceed the user has no entry; after AccessDenied the user has one less than an hour old |
| AuthAction.RecordedBeforeIsKept | src/main/java/com/sampacker/shibboleth/rba/RiskBasedAuthAction.java:176-246 | with a clock that does not go back, no recorded denial time lies in the future |
| AuthAction.DecideSso | src/main/java/com/sampacker/shibboleth/rba/RiskBasedAuthAction.java:148-170 | a configured request without telemetry is decided by the denial map alone |
| AuthAction.DecideFullLogin | src/main/java/com/sampacker/shibboleth/rba/RiskBasedAuthAction.java:172-186 | a configured request with telemetry is a full login over the sanitised telemetry and the once-sanitised user agent |
| AuthAction.FullLoginDenialRecordsNow | src/main/java/com/sampacker/shibboleth/rba/RiskBasedAuthAction.java:176-246 | a full login ending in AccessDenied records the named user with now |
| AuthAction.SsoDecidedByDenialAge | src/main/java/com/sampacker/shibboleth/rba/RiskBasedAuthAction.java:149-170 | a named single sign-on user is denied, with the map unchanged, exactly when denied under an hour ago; otherwise admitted, with the entry gone |
| AuthAction.RejectedMetricsDeny | src/main/java/com/sampacker/shibboleth/rba/RiskBasedAuthAction.java:173-179 | telemetry that fails validation denies a named user and records now |
| AuthAction.ScoreDecides | src/main/java/com/sampacker/shibboleth/rba/RiskBasedAuthAction.java:239-250 | a scored login admits exactly when score < threshold, removing the entry, and otherwise denies, recording now; a NaN threshold denies every scored login |
| AuthAction.ScoringFailureIsRuntimeException | src/main/java/com/sampacker/shibboleth/rba/RiskBasedAuthAction.java:189-257 | a full login with accepted telemetry ends in RUNTIME_EXCEPTION exactly when the name is null, the payload exceeds 64 KiB or no finite score comes back, and then leaves the map unchanged; a failed call or non-2xx status always does |
| AuthAction.CommasOnlyHeaderEscapes | src/main/java/com/sampacker/shibboleth/rba/RiskBasedAuthAction.java:139 | a configured request whose X-Forwarded-For is only commas throws ArrayIndexOutOfBounds out of doExecute and changes nothing |
| AuthAction.DenialBlocksSsoForAnHour | src/main/java/com/sampacker/shibboleth/rba/RiskBasedAuthAction.java:151-158 | a user denied on a full login at t is refused single sign-on at any t2 < t + 1 h and admitted from then on |

## Left out

- `RbaPlugin` (plugin registration) is not part of this model.
- The getters `getRbaEndpoint` and `getFailureThreshold` are not modelled.
- `StringHelper.readAll` is not modelled: it is stream I/O. The reply body
  comes in as a string in `ScoreReply`.
- The HTTP exchange is not modelled: the URL, connection, timeouts, request
  properties, the write and `disconnect`. A failure anywhere in it,
  including a malformed endpoint URL, is folded into `ScoreReply.CallFailed`.
  It leads to `RUNTIME_EXCEPTION` either way.
- Gson's parser, serialiser and `Double.parseDouble` are not modelled. Their
  results come in as the functions of the `Gson` record. So the byte sizes
  of `out.toString()` and `GSON.toJson(payload)` are inputs, not computed.
- `System.currentTimeMillis()` is the parameter `now`, one reading per call.
  The Java code reads the clock separately at lines 153, 176 and 246.
- `emit` and its `EventContext` bookkeeping, and all logging, are not
  modelled. The outcome carries the event id instead. The payload preview
  `maskPayloadForLogs` is modelled, but only as a function of its own.
- `DENIED_USERS` is a static `ConcurrentHashMap` shared by all instances and
  threads. The model makes it a field of one instance, with one call at a
  time. Interleavings of concurrent calls are not captured.
- The subtraction `now - denialTime` is done on unbounded integers. Java's
  `long` wrap-around is not modelled; it needs clock readings 2^63 ms
  apart.
- `result.getSubject()` returning null is not modelled. The authentication
  result carries the user name directly.
- Doubles are IEEE values reduced to NaN, the two infinities and exact
  finite reals. Rounding of double arithmetic and `-0.0` are not modelled;
  the core only compares, rounds and clamps.
- Strings are sequences of Unicode scalar values. Java counts UTF-16 code
  units, so lengths and the 256 cut differ for characters outside the
  Basic Multilingual Plane.
- `JsonHelper.SanitizeObject` is the loop written inline in
  `sanitizeAndValidateMetrics` (lines 74–183). It is extracted as a method
  of its own.
- An exception inside the loop body is caught per field. Only a
  `getAsDouble` that throws can raise one there (`JNumber(None)`), and it
  drops the field.
- JavaLang.Utf8Length: counts four bytes for every code point above U+FFFF,
  as Java does for a surrogate pair. Unpaired surrogates, which Java
  replaces by `?`, are not modelled.
- JsonHelper.SanitizeFields: its own contract bounds only the size of the
  result. What it holds is stated by LookupSanitized and
  SanitizedInTableOrder.
- AuthAction.AsDouble: for strings and booleans it states nothing beyond
  what `Double.parseDouble`, an input, returns.
