# honeycomb-console `common/utils.js` in Dafny

This project models the data-shaping and request-signing helpers of the
honeycomb-console, the admin console of a honeycomb server cluster. The console
talks to every node of a cluster, signs each request with the cluster token, and
merges the nodes' answers into one view. Five helpers do that work:

- `parseAppId` splits an application identifier `<name>[_<version>][_<buildNum>]`
  into its parts.
- `genWeight` packs a version and build number into one sortable number.
- `mergeAppInfo` merges the per-node app reports into one list. The list is
  grouped by app, version and node, padded with `none` entries, and sorted at
  every level.
- `sign` builds the six-line string-to-sign and sets the `Content-Type`,
  `Authorization` and `Date` headers.
- `callremote` builds the path, endpoint and options of a request to a cluster
  node, up to the HTTP call.

Modules:

| file | module | contents |
|---|---|---|
| `wrappers.dfy` | `Wrappers` | `Option` (JavaScript's `undefined`) and `Result` |
| `strings.dfy` | `Strings` | `split`/`join` on one character, the `^\d+$` and `^\d+\.\d+\.\d+$` tests, decimal values, `indexOf`, string `<` |
| `sorting.dfy` | `Sorting` | a reference sort (`SortBy`) under a total preorder, with permutation lemmas |
| `js_object.dfy` | `JsObject` | a string-keyed object with the key order `Object.keys` reports |
| `app_id.dfy` | `AppId` | `parseAppId` and `genWeight` |
| `signing.dfy` | `Signing` | `sign` |
| `remote.dfy` | `Remote` | `callremote` without the network call |
| `merge.dfy` | `Merge` | `mergeAppInfo` |

Representation choices:

- **Weight.** The weight is an integer scaled by 1000, `Σ part_i·1000^(i+1) + buildNum`,
  with `None` for NaN.
- **`Number(s)`.** It is `Option<nat>`: the empty string is 0, a digit run is its
  decimal value, anything else is NaN.
- **Crypto and libraries.** MD5-base64, HMAC-SHA1-base64, `JSON.stringify`,
  `url.parse` and `qs.stringify` are function-valued fields of the `Crypto` and
  `Codec` datatypes. Every property holds for any choice of them.
- **Clock.** The clock read `new Date().toGMTString()` is a `date` parameter.
- **Sorting.** `Array.prototype.sort` with the console's comparators
  (`a > b ? 1 : -1`) is modelled as one particular sort (`Sorting.SortBy`,
  insertion from the back, which reverses ties) by the corresponding order. The
  properties are stated as "sorted and a permutation", so they hold for any sort
  that does this.

Both quirks of `parseAppId` are kept as written:

- a two-segment identifier has an *array* name (`Name.NameArray`);
- a digit-tail build number stays a *string* (`BuildNum.BuildText`).

Three behaviours of the code that are easy to misread:

- the two-segment name is the array `[name]`, not a string;
- a build number such as `45` is the string `"45"`, not the number 45;
- a version's cluster has one entry per IP in the known IPs *or* among the
  reporting nodes, not one per known IP only.

## Model

| member | source | states |
|---|---|---|
| AppId.ParseAppId | common/utils.js:102-149 | `parseAppId` is total on strings; the result keeps the identifier as `id` and `md5` is empty |
| AppId.ParseSegments | common/utils.js:108-139 | deciding on the `_`-segments: the version is `0.0.0` or passes the version test, the build is 0 or a digit string, and the name is an array only for exactly two segments, holding the first one |
| AppId.ParseFields | common/utils.js:102-148 | every parse yields version `0.0.0` or a semver string, build 0 or a digit string, and an array name only for exactly two segments |
| AppId.ParseFallsBackIff | common/utils.js:108-128 | the result is the fallback (name = identifier, `0.0.0`, build 0) exactly when there is one segment, or two whose second is not a version, or three or more whose last is neither digits nor a version |
| AppId.RecognisedNotFallback | common/utils.js:110-138 | each recognised shape differs from the fallback: array name, string build, or a name shorter than the identifier |
| AppId.ParseReassembles | common/utils.js:108-138 | the extracted name, version and build always recombine with `_` into the identifier, in one of the four shapes the parser recognises |
| AppId.LongIdReassembles | common/utils.js:118-138 | for three or more segments, `name_version_build`, `name_version` or `name_build` equals the identifier |
| AppId.ParseFullId | common/utils.js:129-137 | `name_x.y.z_digits` parses back into that name, version and digit-string build, for every name |
| AppId.ParseVersionOnly | common/utils.js:110-123 | `name_x.y.z` parses back into the version with build 0; the name is `[name]` when `name` has no `_`, otherwise the name string |
| AppId.ParseBuildOnly | common/utils.js:129-134 | `name_digits`, with a `_` in `name` and no version before the digits, gives version `0.0.0` and keeps the build as the digit string |
| AppId.ParseShortBuildFallsBack | common/utils.js:110-114 | `name_digits` with no `_` in the name is not recognised, because a digit run is not a version |
| AppId.GenWeight | common/utils.js:229-238 | the weight is NaN exactly when some dot-part or the build number is not a number |
| AppId.PartsWeight | common/utils.js:230-235 | the sum over the dot-parts is defined iff every part is a number |
| AppId.WeightFor | common/utils.js:271 | the weight `genWeight` gives a version defaulted to `0.0.0.0` (as at line 146 too) is defined iff the build is a number and the version is empty or has only numeric dot-parts |
| AppId.SemverWeight | common/utils.js:229-238 | on `x.y.z` the scaled weight is `x·10^9 + y·10^6 + z·10^3 + build` |
| AppId.WeightOrder | common/utils.js:227-238 | with minor, patch and build below 1000, one weight is below another iff (major, minor, patch, build) is lexicographically smaller, and equal iff all four are equal |
| AppId.PackedOrder | common/utils.js:229-238 | packing four base-1000 digits is an order embedding of the lexicographic order |
| AppId.WeightIncreasesWithBuild | common/utils.js:236 | for one version the weight grows strictly with the build number, whatever the size of the build |
| AppId.WeightCollidesPastBuild999 | common/utils.js:236 | build 1000 of `x.y.z` weighs the same as build 0 of `x.y.(z+1)`: the order promise needs builds below 1000 |
| AppId.ParseWeight | common/utils.js:141-148 | the weight of every parsed identifier is defined, and it is the packed value of the extracted version and build |
| Strings.IndexOf | common/utils.js:202 | `indexOf` is -1 iff the character is absent; otherwise it is the first position of the character |
| Strings.Split | common/utils.js:103 | `split` (here and at line 230) yields at least one piece and no piece contains the separator |
| Strings.SplitJoin | common/utils.js:103 | joining separator-free pieces and splitting again returns the pieces |
| Strings.JoinSplit | common/utils.js:103 | joining the pieces of a split returns the string |
| Strings.SemverShape | common/utils.js:112 | the version test accepts `a.b.c` for all digit runs `a`, `b`, `c` |
| Strings.SemverParts | common/utils.js:112 | every string the version test accepts is `a.b.c` with digit runs |
| Strings.LessOrEqualFacts | common/utils.js:314-340 | the order the comparators sort by is total and transitive, and strict on distinct strings |
| Signing.ContentType | common/utils.js:155 | the content type is never empty; it is the lower-case header if truthy, else the capitalised one if truthy, else `application/json` |
| Signing.MergeQuery | common/utils.js:164 | the merged query has the keys of both; data values win, and other query values are kept |
| Signing.StringToSignFields | common/utils.js:169 | splitting the string-to-sign on line breaks gives back the six fields in order |
| Signing.StringToSignInjective | common/utils.js:169 | two different single-line field tuples never share a string-to-sign |
| Signing.Sign | common/utils.js:151-180 | the verb and other headers are kept; `Content-Type`, `Authorization = system admin:<signature>` and `Date = date` are set; the signature is the HMAC of the six fields at the returned path; body methods keep path and data; other methods digest nothing, fold the data into the query and clear the data |
| Signing.SignedRequestAccepted | common/utils.js:151-180 | a node holding the same token recomputes the same signature from the signed request and its path |
| Remote.AppendIpsAsWritten | common/utils.js:202-206 | the `ips=` parameter is appended with `&` only when `?` is the first character, and with `?` otherwise |
| Remote.AsWrittenAddsSecondQuery | common/utils.js:202-206 | a path whose first `?` is not its first character ends up with at least two `?` |
| Remote.AsWrittenExample | common/utils.js:202-206 | `/a?x` with node `n` becomes `/a?x?ips=n` |
| Remote.AppendIpsIntended | common/utils.js:202-206 | the corrected rule keeps the path, adds one separator (`&` or `?`) and then `ips=` with the list; it adds a `?` only when the path has none, so the result holds exactly as many `?` as the path and the list together, plus one for a path without a query |
| Remote.IntendedSingleQuery | common/utils.js:202-206 | under the corrected rule, a path with at most one `?` ends with exactly one `?` |
| Remote.AsWrittenAgreesUnlessQueryInside | common/utils.js:202-206 | the two rules agree iff the path has no `?` or its first `?` is its first character |
| Remote.StripTrailingSlash | common/utils.js:207-209 | one trailing `/` is removed and nothing else changes |
| Remote.RequestIgnoresConnection | common/utils.js:200-214 | changing `endpoint`, `token`, `ips` or `timeout` in the options leaves the request handed to `sign` unchanged: the deleted keys and the timeout take no part in the signature |
| Remote.Missing | common/utils.js:188-215 | a call fails iff `ips`, `endpoint` or `token` is missing, and the first missing one in that order names the error |
| Remote.Send | common/utils.js:192-215 | the endpoint loses one trailing `/`; the defaults (`GET`, 15000, `json`, no certificate check) apply; the `Date` header is the given date; a node holding the token accepts the signature at the path sent; a body method keeps path and data; other methods send no data, and send the path unchanged without data or as `pathname?stringify(query merged with data)` with data |
| Remote.CallRemote | common/utils.js:188-215 | fails exactly on missing options; otherwise goes to the stripped endpoint with the given date, the signature is accepted at the path sent, and that path is the as-written `ips=` path, or, for a body-less request with data, that path with the data folded into its query |
| Remote.CallRemoteIntended | common/utils.js:188-215 | the same call with the corrected `ips=` rule: the same errors, endpoint, date and accepted signature, and the corrected `ips=` path, folded with the data for a body-less request with data |
| Remote.CallRemoteAgrees | common/utils.js:202-206 | the call as written and the corrected call send the same request unless the path's first `?` is not its first character; in that case the call as written, for a body method or a request without data, sends a path with at least two `?` |
| Remote.PlainGetUrl | common/utils.js:202-214 | a GET without data, on a path that does not start with `?`, goes to the endpoint less one trailing slash, then the path and `?ips=` with the comma-joined list |
| Merge.AddMember | common/utils.js:277-287 | a node already in the cluster keeps its entry; a new node gets the entry built from its report |
| Merge.AddVersion | common/utils.js:265-287 | the version key is present afterwards; an existing version keeps its first report; a new one starts with this report; no other version changes |
| Merge.Step | common/utils.js:242-288 | one report touches only its app's entry; that entry keeps its name and gains the report's version and member |
| Merge.Group | common/utils.js:242-288 | the grouping after all reports is well formed: in every object each key is listed once and exactly the keys present are listed; its contents are stated by `Merge.GroupFaithful` |
| Merge.FirstVersionExactly | common/utils.js:265-275 | the first report of a version is found iff one exists, and it is the one at the lowest position |
| Merge.FirstMemberExactly | common/utils.js:278-287 | the first report of a node for a version is found iff one exists, and it is the one at the lowest position |
| Merge.MentionsExactly | common/utils.js:255-260 | an app is mentioned iff some report carries its name |
| Merge.GroupFaithful | common/utils.js:242-288 | after all reports: one app per reported name, one version per reported key holding its first report, and one member per reporting IP built from its first report |
| Merge.StepGrouped | common/utils.js:242-288 | processing one more report preserves that grouping invariant |
| Merge.DuplicateIgnored | common/utils.js:278-287 | a later report by the same node of the same app version leaves the whole output unchanged |
| Merge.FindIndexFrom | common/utils.js:305 | `_.findIndex` by IP from a position is -1 iff no later member has that IP; otherwise it is the first position with that IP |
| Merge.FindIndexByIp | common/utils.js:305 | `_.findIndex` by IP is -1 iff no member has that IP; otherwise it is the first position with that IP |
| Merge.FillOne | common/utils.js:304-312 | the list is left unchanged iff the IP already has an entry; otherwise one `none` entry for it is appended; distinct IPs stay distinct |
| Merge.GapFill | common/utils.js:303-312 | gap-filling keeps the reported entries first and in order, only appending after them |
| Merge.GapFillCovers | common/utils.js:303-312 | after gap-filling, an IP is present iff it was reported or is a known IP |
| Merge.GapFillDistinct | common/utils.js:303-312 | gap-filling keeps the IPs distinct |
| Merge.GapFillAppendsFillers | common/utils.js:303-312 | gap-filling only appends `none` entries after the reported members |
| Merge.IpOrder | common/utils.js:314-320 | the member comparator's order is a total preorder |
| Merge.BuildCluster | common/utils.js:298-321 | the built cluster is a permutation of the gap-filled members, sorted by IP |
| Merge.BuildClusterFaithful | common/utils.js:298-321 | the built cluster has strictly ascending IPs and holds an IP iff it was reported or known; each entry is a recorded member or a `none` filler for an unrecorded IP |
| Merge.BuildVersion | common/utils.js:295-322 | a built version keeps its first report's key, and its cluster is sorted by IP |
| Merge.BuildApp | common/utils.js:292-332 | a built app keeps its name, and its versions are sorted by weight |
| Merge.BuildAppFaithful | common/utils.js:295-331 | a built app's versions are sorted by weight, have distinct keys, one per reported key, and each is faithful to its first report |
| Merge.MergeAppInfo | common/utils.js:240-343 | the output is a permutation of the built apps, sorted by name |
| Merge.MergeNames | common/utils.js:240-343 | the output names are strictly ascending and are exactly the reported names |
| Merge.MergeFaithful | common/utils.js:240-343 | every output app is faithful: versions sorted by weight, each carrying its first report's `version`, `buildNum`, `publishAt`, `appId` and `isCurrWorking`; each cluster strictly ascending by IP, one entry per reported or known IP, and a `none` entry exactly for the IPs that did not report |
| Sorting.SortBy | common/utils.js:314-340 | the sorted sequence is a permutation of its input and is ordered |
| Sorting.PermutationKeepsDistinct | common/utils.js:314-340 | a permutation of a sequence with distinct keys has distinct keys |
| JsObject.Put | common/utils.js:255-287 | assignment updates one key; a new key goes to the end of the key order and an old key keeps its place |
| JsObject.Values | common/utils.js:291-301 | `Object.keys(o).map(k => o[k])` has one value per key, in key order |

## Left out

- The crypto helpers `md5base64` and `sha1` (common/utils.js:48-54) are calls into Node's `crypto` and are uninterpreted functions here. `JSON.stringify`, `url.parse`, `qs.stringify` and `_.merge` of the query are treated the same way; the query merge is a flat string map update.
- The `urllib.request` call in `callremote` and its callback are network I/O. `CallRemote` returns what would be sent.
- The clock read in `sign` is an input.
- The `log.debug` calls are not modelled.
- `urlencode`, `urldecode`, `md5`, `sha256`, `getUidAndGid` and `exec` are outside the modelled helpers.
- Options other than `endpoint`, `token`, `ips`, `method`, `headers`, `data` and `timeout` are not modelled. `_.merge` would pass them through unchanged.
- Request data is a flat string map, in the body as well as in the query. Callers also send nested objects as a JSON body; that body reaches the signature only through `JSON.stringify`, which is uninterpreted, so the flat map loses nothing the model states.
- The deep-merge of nested header objects by `_.merge` is not modelled: headers are a flat string map taken whole.
- Report fields that are `undefined` or of unexpected types are not modelled. Every report field has the type the nodes send.
- AppId.NumberOf: accepts only the strings `parseAppId` and the version keys produce. `Number` also accepts whitespace, signs, decimals, exponents and hex, which are not modelled.
- AppId.GenWeight: is exact integer arithmetic on the weight scaled by 1000. The floating-point rounding of `Number(buildNum) / 1000` and of very large versions is not modelled.
- Strings.Less: compares characters by code point, which matches JavaScript's UTF-16 code-unit order for strings without surrogate pairs only.
- JsObject.Put: keeps keys in insertion order. JavaScript lists integer-like keys (an app named `12`, say) first, in ascending numeric order; that is not modelled. Nor are keys such as `__proto__` or inherited properties.
- Merge.WeightLe: sorts versions whose weight is NaN first. The comparator `a.weight > b.weight ? 1 : -1` is inconsistent when NaN is involved, and then JavaScript leaves the order implementation-defined.
- Merge.MergeAppInfo: ties under the comparators are resolved by one particular sort. The comparators return -1 on ties, so the engine's tie order is not fixed; only sortedness and permutation are claimed.
- Remote.CallRemoteAgrees: promises the second `?` only for a body method or a request without data. A body-less request with data folds the path through `url.parse` and `qs.stringify`, which are uninterpreted here; with Node's real functions the inner `?` ends up inside a query key and `ips` is swallowed rather than doubled. That outcome is not modelled.
- Remote.CallRemote: uses the `?`/`&` rule as written. `Remote.CallRemoteIntended` is the same call with the corrected rule (see Findings).

## Findings

| source | as written | input that shows it | evidently intended | confidence | as-written member | corrected member |
|---|---|---|---|---|---|---|
| common/utils.js:202-206 | `if (queryPath.indexOf('?'))` appends `?ips=` whenever `indexOf` is non-zero, and that includes -1 and every position after the first | `callremote('/a?x', {ips: ['n'], ...})` without `data` requests `/a?x?ips=n`, a second `?` | append `&ips=` when the path already holds a `?`, `?ips=` otherwise | high, not executed | Remote.AppendIpsAsWritten and Remote.CallRemote (with Remote.AsWrittenAddsSecondQuery, Remote.AsWrittenExample) | Remote.AppendIpsIntended and Remote.CallRemoteIntended (with Remote.IntendedSingleQuery, Remote.CallRemoteAgrees) |
