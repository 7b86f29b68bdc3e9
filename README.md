# HTTP front of the ticket bot, in Dafny

This project models the request-facing core of `src/http.js`, the module
that sets up the bot's Fastify web server, and proves properties of that
model. It covers four parts:

- **Authentication** (`auth.dfy`, module `Auth`). The `authenticate`
  decorator verifies the request's token. It refuses the token when it
  has expired, or when it was issued before the `INVALIDATE_TOKENS`
  watermark. A refusal is a 401 body whose message tells an expiry from
  any other failure. Timestamps follow JavaScript's `<`: a comparison
  with NaN is false. So a missing claim never triggers a refusal, and
  neither does an unset or unparsable watermark.
- **Body trimming** (`body_hook.dfy`, module `BodyHook`). The
  `preHandler` hook is a `Request` class whose `PreHandler` method
  replaces, in place, every top-level string property of an object body
  by its `trim()`. A JSON array is an object too, and `for...in` visits
  its indices, so its string elements are trimmed as well. The
  JavaScript string operations involved are modelled in `js_string.dfy`
  (module `JsString`). For `trim`, this includes the exact whitespace
  set. It also covers `substring` (clamps and swaps its indices),
  `replace` with a global one-character pattern, `replace` with a string
  pattern (first occurrence only), and `toUpperCase`.
- **Route table** (`route_path.dfy`, module `RoutePath`; `registrar.dfy`,
  module `Registrar`). The path of each route file is derived in these
  steps:
  1. Drop the last three characters.
  2. Drop the routes directory, by its length.
  3. Turn every `\` into `/`.
  4. Turn every `[name]` into `:name`.
  5. Remove the first `/index`.
  6. Use `/` if the result is empty.

  The `Server` class then appends one route per exported method name,
  upper-cased, in walk order and then export order. It appends the
  catch-all route after them, and `GET /status` last.
- **Response logging** (`response_log.dfy`, module `ResponseLog`). This
  is the `onResponse` hook's classification. The status code gets a
  colour band (500 and above, 400, 300, 200, below 200) and is written
  in decimal after its colour. The log level comes from the matched
  route: `/status` logs at debug, the catch-all at verbose, everything
  else at info.

`wrappers.dfy` holds the `Option` type.

Two behaviours of the code are easy to misread, and the model follows the
code in both:

- **Duplicates are not skipped.** One might expect a discovered
  `GET /status` to be skipped in favour of the built-in one. The code skips
  nothing: both registrations are made (`Registrar.StatusNotDeduplicated`).
- **`/index` is removed textually, not as a trailing path segment.** The
  code calls `replace('/index', '')`, which removes the first occurrence
  anywhere. So `index/index.js` is served at `/index`, and a root file
  `indexes.js` is served at `es`, which does not even start with `/`
  (`RoutePath.RelativeRouteFirstIndexOnly`, `RoutePath.RelativeRouteIndexIsText`).

Inputs that the code reads from its surroundings are parameters of the
model:

- the outcome of `req.jwtVerify()`;
- `Date.now()`;
- the parsed `INVALIDATE_TOKENS` watermark;
- the directory walk's list of files;
- each module's export names.

## Model

| member | source | states |
|---|---|---|
| Auth.Before | src/http.js:32-33 | JavaScript's `<` on timestamps: true only when both sides are numbers and the first is smaller, so NaN on either side gives false |
| Auth.TryVerify | src/http.js:30-33 | verification failure, expiry and revocation each throw; with `Refusal`, `Auth.AcceptedExactly` and the three refusal lemmas state exactly when |
| Auth.Refusal | src/http.js:34-40 | a refusal is always 401 "Unauthorised", and its message is the expiry message exactly when the thrown value was `'expired'` |
| Auth.Authenticate | src/http.js:29-41 | every reply the decorator sends is a 401 "Unauthorised" carrying one of the two fixed messages |
| Auth.ExpiredTokenRefused | src/http.js:32 | a verified token whose `expiresAt` is before now gets the expiry reply |
| Auth.RevokedTokenRefused | src/http.js:33 | a verified token issued before the watermark gets the same expiry reply |
| Auth.RejectedTokenRefused | src/http.js:31-39 | a token failing verification gets the "not authenticated" reply |
| Auth.AcceptedExactly | src/http.js:29-41 | the request goes on if and only if verification succeeds, the token has not expired and it was not issued before the watermark |
| Auth.BoundariesAccepted | src/http.js:32-33 | both comparisons are strict: expiring exactly now, or issued exactly at the watermark, is accepted |
| Auth.NoWatermarkNoRevocation | src/http.js:33 | with a NaN watermark (variable unset or unparsable) no token is refused for its issue time |
| Auth.MessagesDistinct | src/http.js:37 | the two refusal messages differ, so the client can tell them apart |
| Auth.AcceptanceMonotoneInTime | src/http.js:32 | a token accepted at some time is accepted at every earlier time |
| JsString.IsTrimmable | src/http.js:58 | the exact set `trim` removes: the ECMAScript WhiteSpace and LineTerminator code points |
| JsString.LeadingSpace | src/http.js:58 | length of the longest whitespace prefix: every character before it is trimmable and the next one is not |
| JsString.TrailingSpace | src/http.js:58 | length of the longest whitespace suffix: every character after it is trimmable and the one before it is not |
| JsString.Trim | src/http.js:58 | characterised by `JsString.TrimShape` and the independent definition in `JsString.TrimOfPadded` |
| JsString.Substring | src/http.js:107 | clamps and swaps its indices (`JsString.ClampIndex`); on a name with a three-character extension it drops the extension (`JsString.SubstringDropsSuffix`) |
| JsString.SubstringFrom | src/http.js:108 | `substring(start)`; of `dir + rest` at `dir.length` it gives `rest` (`JsString.SubstringFromSkipsPrefix`) |
| JsString.ReplaceFirst | src/http.js:111 | replaces the first occurrence only (`JsString.ReplaceFirstAt`) and nothing when there is none (`JsString.ReplaceFirstAbsent`) |
| JsString.ToUpperCase | src/http.js:116 | keeps the length and maps each character by `JsString.UpperChar` (`JsString.ToUpperCaseAt`) |
| JsString.TrimIsTrimmed | src/http.js:58 | the result of `trim` neither starts nor ends with whitespace |
| JsString.TrimShape | src/http.js:58 | `trim` removes exactly a whitespace prefix and a whitespace suffix and keeps the rest in place |
| JsString.TrimOfPadded | src/http.js:58 | reference definition: whitespace + trimmed middle + whitespace trims to the middle |
| JsString.TrimExample | src/http.js:58 | `"  Alice  "` trims to `"Alice"` |
| JsString.TrimFixpoint | src/http.js:58 | a string is its own trim if and only if it is already trimmed |
| JsString.TrimIdempotent | src/http.js:58 | trimming twice is trimming once |
| JsString.ClampIndex | src/http.js:107-108 | a `substring` index is clamped into the string and kept when already inside it |
| JsString.SubstringDropsSuffix | src/http.js:107 | `substring(0, length - 3)` of a name with a three-character suffix gives the name without it |
| JsString.SubstringFromSkipsPrefix | src/http.js:108 | `substring(dir.length)` of `dir + rest` gives `rest` |
| JsString.ReplaceChar | src/http.js:109 | the global one-character replace keeps the length and swaps exactly the matching characters |
| JsString.ReplaceCharAbsent | src/http.js:109 | a string without backslashes is left as it is |
| JsString.ReplaceCharRemoves | src/http.js:109 | after the replace no backslash is left |
| JsString.IndexFrom | src/http.js:111 | the search finds the first occurrence at or after the start, or reports that there is none |
| JsString.IndexOf | src/http.js:111 | `indexOf` finds the first occurrence, or reports that there is none |
| JsString.ReplaceFirstAt | src/http.js:111 | replacing a string pattern swaps its first occurrence only and keeps everything after it |
| JsString.ReplaceFirstMarked | src/http.js:111 | replacing the first occurrence swaps it and keeps what follows, when some character of the pattern occurs neither in what precedes the match nor earlier in the pattern |
| JsString.ReplaceFirstAbsent | src/http.js:111 | a string without the pattern is left as it is |
| JsString.ReplaceFirstChars | src/http.js:111 | the replace introduces no character that is in neither the string nor the replacement |
| JsString.UpperChar | src/http.js:116 | an ASCII lower-case letter becomes its upper-case partner; every other character is unchanged |
| JsString.ToUpperCaseAt | src/http.js:116 | `toUpperCase` works character by character |
| JsString.ToUpperCaseNoLower | src/http.js:116 | the upper-cased method name holds no ASCII lower-case letter |
| JsString.ToUpperCaseFixpoint | src/http.js:116 | a name is unchanged by `toUpperCase` if and only if it holds no lower-case letter |
| JsString.ToUpperCaseIdempotent | src/http.js:116 | upper-casing twice is upper-casing once |
| JsString.ToUpperCaseIgnoresCase | src/http.js:116 | names that differ only in case upper-case to the same name |
| RoutePath.IsWordChar | src/http.js:110 | the characters `\w` matches without the `u` flag, the `i` flag included: ASCII letters, digits and `_` |
| RoutePath.WordRun | src/http.js:110 | the greedy `\w+` run: never longer than the string, and exact by `RoutePath.WordRunSpec` |
| RoutePath.ParamTokenAt | src/http.js:110 | the match of `\[(\w+)\]` at a position, exact by `RoutePath.ParamTokenAtSound` and `RoutePath.ParamTokenAtFinds` |
| RoutePath.RewriteParams | src/http.js:110 | the global rewrite to `:$1`, characterised by `RoutePath.RewriteParamsAtToken`, `RoutePath.RewriteParamsSegment` and `RoutePath.RewriteParamsNoBracket` |
| RoutePath.WordRunSpec | src/http.js:110 | the run of `\w` characters stops exactly at the first non-word character |
| RoutePath.ParamTokenAtSound | src/http.js:110 | what the matcher finds at a position is a whole `\[(\w+)\]` match |
| RoutePath.ParamTokenAtFinds | src/http.js:110 | whenever a match starts at a position, the matcher finds exactly that match |
| RoutePath.RewriteParamsNoBracket | src/http.js:110 | a path without `[` is left as it is |
| RoutePath.ParamTokenAtAppend | src/http.js:110 | a match is unaffected by what follows it, when what follows cannot extend or close a name |
| RoutePath.RewriteParamsAppend | src/http.js:110 | the rewrite works piecewise across such a boundary |
| RoutePath.RewriteParamsAtToken | src/http.js:110 | a `[name]` at the start becomes `:name`, and the scan continues after it |
| RoutePath.RewriteParamsToken | src/http.js:110 | `[name]` becomes `:name`, whatever follows it |
| RoutePath.RewriteParamsSegment | src/http.js:110 | `[name]` becomes `:name` wherever it stands in the path |
| RoutePath.RewriteParamsKeepsOut | src/http.js:110 | the rewrite introduces no character other than `:` |
| RoutePath.RelativeRoute | src/http.js:109-111 | the path after the rewrites is never empty |
| RoutePath.DerivePath | src/http.js:106-111 | every derived route path is non-empty |
| RoutePath.DerivePathRelative | src/http.js:106-108 | only the part between the routes directory and the extension matters |
| RoutePath.DerivePathNoBackslash | src/http.js:106-111 | no derived path contains a backslash |
| RoutePath.RelativeRouteSeparators | src/http.js:109 | Windows and POSIX separators give the same route |
| RoutePath.ReplaceFirstTrailingIndex | src/http.js:111 | a trailing `/index` is removed, and only it, whenever no earlier `/index` occurs (`NoEarlierIndex`) |
| RoutePath.RelativeRouteParamIndex | src/http.js:109-111 | `pre/[name]post/index` is served at `pre/:name post`: the parameter is named and the index file serves its directory, whenever nothing before the final `/index` spells another one; paths containing an `x`, such as `.../export/index.js`, are covered too |
| RoutePath.DerivePathParamIndex | src/http.js:106-111 | the same from the whole file name (e.g. `guilds/[guild]/members/index.js` at `/guilds/:guild/members`), under the same condition |
| RoutePath.DerivePathGuildsExample | src/http.js:106-111 | `guilds/[guild]/members/index.js` below the routes directory is served at `/guilds/:guild/members` |
| RoutePath.RelativeRouteIndexPrefix | src/http.js:111 | a leading `/index` is removed, only that one, and an empty rest gives `/` |
| RoutePath.RelativeRouteFirstIndexOnly | src/http.js:111 | `index/index` is served at `/index`: only the first `/index` goes |
| RoutePath.RelativeRouteIndexIsText | src/http.js:111 | the removal is textual: a root module whose name only starts with `index` (`indexes`) is served at a path not starting with `/` (`es`) |
| RoutePath.DerivePathRootExample | src/http.js:106-111 | the root `index.js` is served at `/` |
| Registrar.MountOf | src/http.js:105-111 | pairs a walked file with the path derived from its name and with its export names |
| Registrar.Mounts | src/http.js:105-111 | every walked file mounted, one per file and in walk order |
| Registrar.Entry | src/http.js:114-119 | the route of one export: its name upper-cased (`JsString.ToUpperCaseNoLower`) and the file's path |
| Registrar.MountRoutes | src/http.js:114-119 | one route per export of a file, in `Object.keys` order (`Registrar.TableAt`) |
| Registrar.Table | src/http.js:105-120 | the routes of all files in walk order, characterised by `Registrar.TableAt`, `Registrar.TableIndex` and `Registrar.TableMembers` |
| Registrar.Discovered | src/http.js:105-120 | the table of the walked files with their derived paths (`Registrar.DiscoveredWellFormed`) |
| Registrar.RouteTable | src/http.js:105-128 | the discovered routes, then the catch-all, then `GET /status` (`Registrar.RouteTableShape`) |
| Registrar.TableLength | src/http.js:114-119 | one route is registered per exported method name |
| Registrar.TableAt | src/http.js:105-120 | export `mi` of file `fi` is registered at position `ExportCount(first fi files) + mi` with its upper-cased name and its file's path |
| Registrar.TableIndex | src/http.js:105-120 | every registered route comes from some export of some file, at that position |
| Registrar.PositionOrder | src/http.js:105-120 | routes appear in walk order, then in export order |
| Registrar.TableMembers | src/http.js:114-119 | a route is registered if and only if some export of some file gives it |
| Registrar.DiscoveredWellFormed | src/http.js:105-120 | every discovered route has an upper-case method and a non-empty path without backslashes |
| Registrar.RouteTableShape | src/http.js:105-128 | the table is the discovered routes, then the catch-all, then `GET /status` |
| Registrar.StatusNotDeduplicated | src/http.js:105-128 | a discovered `GET /status` is not skipped: the table then holds it twice |
| Registrar.CaseCollision | src/http.js:114-116 | exports differing only in case (`get`, `GET`) give the same route twice |
| Registrar.GetPostExample | src/http.js:114-119 | a module exporting `get` and `post` registers `GET` then `POST` at its path |
| Registrar.Server.AddRoute | src/http.js:114-119 | registering appends exactly one route |
| Registrar.Server.LoadRoutes | src/http.js:105-120 | the nested loops append exactly the discovered routes, in order |
| Registrar.Server.Boot | src/http.js:105-128 | start-up appends the whole route table |
| BodyHook.Normalised | src/http.js:55-61 | the body after the hook, characterised by `BodyHook.NormalisedObject` and `BodyHook.NormalisedNonObject` |
| BodyHook.TrimProperty | src/http.js:57-59 | a string property becomes its trim; any other value stays as it is |
| BodyHook.NormalisedObject | src/http.js:55-61 | on an object body the keys are kept, strings are trimmed, and other values (nested ones included) are unchanged |
| BodyHook.NormalisedNonObject | src/http.js:55 | an absent, null, boolean, number or string body is untouched |
| BodyHook.NormalisedIdempotent | src/http.js:54-63 | running the hook twice is running it once |
| BodyHook.NormalisedUpdate | src/http.js:56-60 | each property is handled independently of the others |
| BodyHook.NormalisedExample | src/http.js:54-63 | `{"name": "  Alice  ", "age": 30, "meta": {"x": " y "}}` becomes `{"name": "Alice", ...}` with `meta` untouched |
| BodyHook.Request.PreHandler | src/http.js:54-63 | the in-place loop leaves the body equal to its normalised form |
| ResponseLog.StatusBand | src/http.js:70-78 | the `>=` chain, equal to the hundreds-digit table by `ResponseLog.StatusBandByClass` |
| ResponseLog.BandColour | src/http.js:70-78 | distinct two-character colours (`ResponseLog.BandColourInjective`) |
| ResponseLog.Digits | src/http.js:78 | decimal digits without a leading zero that read back as the number (`ResponseLog.DigitsRoundTrip`) |
| ResponseLog.NumberText | src/http.js:78 | injective (`ResponseLog.NumberTextInjective`) |
| ResponseLog.StatusText | src/http.js:70-78 | colour, then code, decodable (`ResponseLog.StatusTextDecodes`, `ResponseLog.StatusTextInjective`) |
| ResponseLog.LogLevel | src/http.js:85-89 | characterised exactly by `ResponseLog.LogLevelExactly` |
| ResponseLog.LevelName | src/http.js:90 | distinct logger methods (`ResponseLog.LevelNameInjective`) |
| ResponseLog.StatusBandByClass | src/http.js:70-78 | for a non-negative code the `>=` chain picks the band of its hundreds digit (5 and above: server error) |
| ResponseLog.StatusBandMonotone | src/http.js:70-78 | a larger code never lands in a less severe band |
| ResponseLog.BandColourInjective | src/http.js:70-78 | every colour is two characters and distinct bands have distinct colours |
| ResponseLog.DigitsWellFormed | src/http.js:78 | a code is written in digits, with no leading zero except for 0 |
| ResponseLog.DigitsRoundTrip | src/http.js:78 | reading the written digits back gives the code |
| ResponseLog.NumberTextInjective | src/http.js:78 | distinct codes are written differently, negative ones included |
| ResponseLog.StatusTextDecodes | src/http.js:70-78 | the status text is the colour followed by the code, and the code can be read back from it |
| ResponseLog.StatusTextInjective | src/http.js:70-78 | two responses share a status text only when they share the code |
| ResponseLog.LevelNameInjective | src/http.js:85-90 | distinct levels call distinct logger methods |
| ResponseLog.LogLevelExactly | src/http.js:85-89 | the level is debug exactly when the matched URL is `/status`, verbose exactly when it is `/*`, and info in every other case, an unmatched request included |
| ResponseLog.RouteTableLevels | src/http.js:85-89 | over the route table: `/status` logs at debug, the catch-all at verbose, any other path at info |
| ResponseLog.UnroutedIsInfo | src/http.js:85-89 | a request without route options logs at info |

## Left out

- Plugin registration (multipart size limit, cookies, the JWT secret, Sentry) at src/http.js:14-24: framework configuration with no logic of its own.
- The token's signature check inside `req.jwtVerify()`: the model takes its outcome as an input.
- The clock and the environment are inputs as well: `Date.now()` is a parameter, and the parsed `INVALIDATE_TOKENS` watermark is a `Stamp` parameter. Parsing a date string is not modelled.
- `isMember` and `isAdmin` (src/http.js:43-49) have empty bodies in this file, and `getPrivilegeLevel` is imported but never called here. `./lib/users` is not part of this model.
- The directory walk and `require` of the route modules (src/http.js:105, 112) are left out: file listing and module loading are I/O. The walk's file filter (`/.js$/`, hidden files excluded) is not re-checked, and the model assumes the listed files are what it returns.
- What each route factory `route[method](fastify)` returns is not modelled. The model assumes its spread does not override the `method` or `path` keys.
- Fastify's own rejection of a duplicate method and path at registration is framework behaviour outside this file, and is not modelled.
- The SvelteKit handler behind the catch-all (src/http.js:122-123) and the `sveltekit:error` listener (src/http.js:141-143) are outside this file.
- The response time band (src/http.js:79-84) is left out, because `toFixed(2)` and its comparison operate on floating-point numbers.
- Formatting and sending the log line (src/http.js:90-95), the `onError` hook (src/http.js:98) and `listen` (src/http.js:133-139) are I/O.
- JsString.ToUpperCase: upper-cases ASCII letters only, because full Unicode case mapping is out of scope; method names are ASCII.
- String lengths count characters, not UTF-16 code units, which matches for paths made of Basic Multilingual Plane characters.
