# eatingisactivism.com — a Dafny model of the location store, auth and routing core

The site lists food locations (farms, vendors) on a map, filterable by quality
standard, badge and tag, behind a single shared password, and serves seasonal
food data per state. This project models, in Dafny, the parts of the Go server
that decide things:

- **Locations** (`app/locations/locations.go`): the whitelists of standards,
  badges and tags and `map_values`; turning the rows of the spreadsheet's
  `values` matrix into locations, including the normalisation loops whose
  result is thrown away and the row of exactly nine cells that passes the
  length guard and then indexes a tenth cell; the current snapshot (a class
  with the `allLocations` field), `PollLocations`' replace-if-non-empty step,
  `GetLocationBySlug`, `FilterLocations`, `string_in_array`, `array_contains`.
- **Util** (`util/util.go`): the older sheet reader that copies cells
  verbatim, and its slug lookup over a given list.
- **Auth** (`app/auth/auth.go`): the salted hash computed at start-up (an empty
  password or salt is fatal), token comparison, cookie-before-query token
  selection, the three exact exempt paths of the HTML middleware, the cookie it
  re-sets, its redirect, and the JSON middleware's 401.
- **Contentful** (`app/contentful/contentful.go`): the entries URL and query
  string, the status handling of `GetEntries`, `NodeToString` (which always
  returns an empty string), and the five webhook topic names.
- **Router** (`app/router/router.go`): the static cache header, the not-found
  page (JSON below `/api`), the login form, the location page, the `/foods`
  fragment with its next-season wrap-around, the season and state validation of
  the JSON routes, and the choice between listing and filtering locations.

`go_strings.dfy` models the parts of Go's `strings`, `strconv` and `fmt` the
core uses (`Split`, `TrimSpace`, `ToLower`, `ToUpper`, `HasPrefix`, `Atoi`, and
fmt's `%d` as `FormatInt`), with the properties the core relies on (split/join
round trips, `Atoi` of a number formatted with `%d` gives the number back).

The repository holds two iterations of the location store: a spreadsheet-backed
one and a CMS-backed one. The model follows `app/locations/locations.go`, the
spreadsheet-backed store; the router calls a two-argument
`FilterLocations(standards, tags)` returning a `LocationMap` from a
CMS-backed iteration of that package which is not part of this model, so the
router's choice is modelled as a query (`Router.LocationsQuery`) and related
to the three-argument filter with no badge criterion.

## Model

| member | source | states |
|---|---|---|
| GoStrings.JoinSplit | app/locations/locations.go:213 | joining the pieces of `strings.Split` with the same separator gives the cell back |
| GoStrings.TrimSpaceBounds | app/locations/locations.go:216 | trimming keeps a contiguous middle part of the input, removes only white space, and leaves no white space at either end |
| GoStrings.UpperOfLower | app/router/router.go:298 | for an ASCII string, upper-casing ignores a prior lower-casing |
| GoStrings.AtoiFormatInt | app/router/router.go:255 | every 64-bit integer written in decimal parses back to itself |
| Locations.MapValues | app/locations/locations.go:320-332 | the loop returns the values for key "Value", the labels for "Label", nothing for any other key, in order |
| Locations.ValuesOfValueKey | app/locations/locations.go:320-332 | for "Value" the list has one entry per item, each the item's value |
| Locations.ValuesOfLabelKey | app/locations/locations.go:320-332 | for "Label" the list has one entry per item, each the item's label |
| Locations.ValuesOfOtherKey | app/locations/locations.go:320-332 | any key other than "Value" and "Label" selects nothing |
| Locations.Whitelists | app/locations/locations.go:45-130 | the valid standards, badges and tags are exactly the lower-case values of the three lists |
| Locations.StringInArray | app/locations/locations.go:298-306 | true exactly when the string occurs in the list |
| Locations.ArrayContains | app/locations/locations.go:308-318 | true exactly when the two lists share an element |
| Locations.CleanedWhitelisted | app/locations/locations.go:213-235 | the normalised list is no longer than the split cell and holds only whitelisted values, each the trimmed lower-case form of a piece |
| Locations.CleanedOrder | app/locations/locations.go:213-235 | the normalised list holds, in order, the normalised forms of exactly the pieces whose normalised form is whitelisted |
| Locations.CleanValues | app/locations/locations.go:213-235 | the normalisation loop keeps the whitelisted trimmed lower-case pieces, in order |
| Locations.ConvertRow | app/locations/locations.go:206-260 | a row under nine cells is skipped, a nine-cell row reads past its end, and a longer row is converted, with name, slug and image taken from its cells |
| Locations.SheetLocations | app/locations/locations.go:169-263 | no response or a status other than 200 gives no locations; otherwise the rows are converted in order, rows under nine cells skipped, and a nine-cell row ends the call with an index-out-of-range |
| Locations.OutOfRangePersists | app/locations/locations.go:244 | once a row's missing tenth cell is read, the conversion of all rows fails at that row |
| Locations.ConvertedRowFields | app/locations/locations.go:206-260 | a converted row keeps cells 0-5 verbatim, keeps the standard only if its normalised form is whitelisted, stores the badge and tag cells split at every comma (comma-free pieces that join back to the cell), and has an image exactly when cell 9 is "TRUE" |
| Locations.SplitExample | app/locations/locations.go:213 | the cell "ROC, usda_o" splits into "ROC" and " usda_o" |
| Locations.CleanedExample | app/locations/locations.go:213-223 | normalising ["ROC", " usda_o"] against the badge whitelist gives ["roc", "usda_o"] |
| Locations.StoredBadgesAreRaw | app/locations/locations.go:213-257 | a badge cell "ROC, usda_o" is stored as ["ROC", " usda_o"], neither of which is a valid badge, although normalisation would give ["roc", "usda_o"] |
| Locations.ConvertRowsOutOfRange | app/locations/locations.go:206-248 | the conversion fails exactly when some row has nine cells, and then at the first such row |
| Locations.ConvertRowsOrder | app/locations/locations.go:206-260 | a completed conversion yields one location per row of ten or more cells, each that row converted, in row order; no row of a completed conversion has exactly nine cells |
| Locations.FilteredSubsequence | app/locations/locations.go:276-296 | the filter keeps exactly the locations meeting every non-empty criterion, in snapshot order |
| Locations.FilteredMembership | app/locations/locations.go:276-296 | a location is in the result exactly when it is in the snapshot and meets every non-empty criterion |
| Locations.FilterWithoutCriteria | app/locations/locations.go:276-296 | with three empty criteria the whole snapshot is returned |
| Locations.FilterByOneStandard | app/locations/locations.go:280-282 | filtering by one standard keeps exactly the locations with that standard |
| Locations.BySlugNoMatch | app/locations/locations.go:265-273 | when no location has the slug the lookup returns the zero location |
| Locations.BySlugFirstMatch | app/locations/locations.go:265-273 | the lookup returns the first location with the slug |
| Locations.BySlugFound | app/locations/locations.go:265-273 | the returned slug equals the one asked for exactly when it is empty or some location has it |
| Locations.AfterPollsIsLatestNonEmpty | app/locations/locations.go:156-166 | after a series of polls the snapshot is the last non-empty fetch, or the initial one if every fetch was empty |
| Locations.AfterPollsNeverEmpties | app/locations/locations.go:156-166 | a non-empty snapshot is never emptied by polling |
| Locations.LocationStore.constructor | app/locations/locations.go:145 | the snapshot starts as the first conversion's result |
| Locations.LocationStore.GetLocations | app/locations/locations.go:151-153 | returns the current snapshot |
| Locations.LocationStore.Poll | app/locations/locations.go:156-166 | one poll replaces the snapshot with a non-empty fetch and keeps it otherwise |
| Locations.LocationStore.GetLocationBySlug | app/locations/locations.go:265-273 | the scan returns the first location of the snapshot with the slug, else the zero location |
| Locations.LocationStore.FilterLocations | app/locations/locations.go:276-296 | the scan returns the filter of the snapshot by the three criteria |
| Util.GetLocations | util/util.go:32-94 | an empty URL or key, or a status other than 200, gives no locations; otherwise the rows of nine or more cells converted in order |
| Util.RowLocationFields | util/util.go:80-90 | cells 0-6 are copied verbatim and the badge and tag lists are cells 7 and 8 split at every comma: comma-free pieces that join back to the cell |
| Util.ConvertRowsOrder | util/util.go:74-91 | one location per row of nine or more cells, each that row's cells, in row order, and none for shorter rows |
| Util.GetLocationBySlug | util/util.go:97-105 | the first location with the slug, else the zero location |
| Auth.Init | app/auth/auth.go:19-30 | start-up fails exactly when the password or salt is empty; otherwise the hash of the password is accepted |
| Auth.HashValue | app/auth/auth.go:32-34 | the digest of the value with the salt appended |
| Auth.IsPasswordValid | app/auth/auth.go:36-38 | a token is valid exactly when it is the stored password hash |
| Auth.SelectToken | app/auth/auth.go:55-62 | the cookie when it is non-empty, else the query token; empty only when both are |
| Auth.IsAuthed | app/auth/auth.go:55-68 | authenticated exactly when a non-empty cookie is the stored hash, or there is no cookie and the query token is |
| Auth.CollidingPasswordAccepted | app/auth/auth.go:32-38 | only digests are compared: any password whose salted digest equals the stored one is accepted |
| Auth.TokenSourceOrder | app/auth/auth.go:55-68 | a non-empty cookie decides alone, even against a valid query token; without a cookie the query token decides |
| Auth.AuthHTML | app/auth/auth.go:70-102 | exempt exactly on the three exact paths; otherwise the cookie is re-set to the stored hash for one day when authenticated, else a 302 to /login |
| Auth.AuthJSON | app/auth/auth.go:104-113 | continues exactly when authenticated, else 401 "Unauthorized" |
| Auth.HtmlAndJsonAgree | app/auth/auth.go:70-113 | outside the exempt paths the two middlewares let through the same requests |
| Auth.PublicAssetIsChecked | app/auth/auth.go:82-85 | of the middleware function alone: the exemption is an exact match, so "/public" is exempt but "/public/app.css" would be checked |
| Auth.RefreshedCookieStaysValid | app/auth/auth.go:87-97 | the re-set cookie authenticates the next request on every path and on the JSON API |
| Contentful.New | app/contentful/contentful.go:102-110 | the client holds the token, base URL, space and environment passed in, whatever the argument order |
| Contentful.StatusResult | app/contentful/contentful.go:146-166 | a transport error is passed on; the body exactly on 200; 429 is "error: rate limited"; any other status is "error: " and the status in decimal |
| Contentful.ParseRenderQuery | app/contentful/contentful.go:119 | a query string of parameters free of '&' and '=' decodes back to exactly those parameters |
| Contentful.GetEntriesURL | app/contentful/contentful.go:112-122 | never an error; the entries path, with the entry id when given, then the access token and content type |
| Contentful.GetEntries | app/contentful/contentful.go:124-167 | the requested URL is the entries path with the query of token, content type, limit and offset parameters; the result is the status handling of the response |
| Contentful.StatusResultCases | app/contentful/contentful.go:147-165 | the body is returned exactly on 200; 429 is "error: rate limited"; any other status reads back from "error: <status>" |
| Contentful.EntriesQueryDecodes | app/contentful/contentful.go:112-137 | the requested query string decodes to its parameters, token and content type first |
| Contentful.EntriesLimitParam | app/contentful/contentful.go:131-133 | a limit parameter is sent exactly when the limit is positive, and its value parses to the limit |
| Contentful.EntriesOffsetParams | app/contentful/contentful.go:135-138 | skip and order parameters are sent exactly when the offset is positive; skip parses to the offset and order is "sys.createdAt" |
| Contentful.NodeToString | app/contentful/contentful.go:223-274 | always returns an empty string and no error |
| Contentful.WebhookTopicsDistinct | app/contentful/contentful.go:94-100 | the five webhook topics are pairwise distinct |
| Router.CacheControl | app/router/router.go:46-53 | the one-year public cache header is set exactly in release mode on paths starting with "/public" |
| Router.NotFound | app/router/router.go:93-101 | a 404 "Page not found", as JSON exactly when the path starts with "/api" |
| Router.Login | app/router/router.go:114-124 | always a 302; the session cookie with the stored hash and a redirect to "/" exactly when the posted password's hash is valid, else a redirect to "/login" |
| Router.LoginWithPassword | app/router/router.go:114-124 | logging in with the configured password succeeds and its cookie then passes both middlewares |
| Router.LocationRoute | app/router/router.go:149-161 | a 404 HTML page exactly when the slug or the found location's slug is empty, else the found location |
| Router.LocationRouteOverSnapshot | app/router/router.go:149-161 | the page is shown exactly when the slug is non-empty and some location has it, and then shows a location with that slug |
| Router.NextSeason | app/router/router.go:181-186 | 24 steps to 1, any other season to the next one, the largest Go int wraps to the smallest, and a valid season stays valid |
| Router.NextSeasonInverse | app/router/router.go:181-186 | the next season of a valid season is valid, is `s % 24 + 1`, and the previous season undoes it |
| Router.NextSeasonOutsideRange | app/router/router.go:175-186 | an unparsable season (0) is followed by 1, 25 by the invalid 26, and the largest Go int wraps to the smallest |
| Router.NextSeasonsBelow | app/router/router.go:181-186 | stepping n times from a valid season s with s + n <= 24 reaches season s + n |
| Router.NextSeasonsWrap | app/router/router.go:181-186 | stepping n times from a valid season s with 24 < s + n <= 48 wraps round to season s + n - 24 |
| Router.SeasonCycle | app/router/router.go:181-186 | a valid season recurs after 24 steps and not before |
| Router.FoodMapLookup | app/router/router.go:191-197 | the map holds exactly the foods' slugs, each with the name of the last food carrying it |
| Router.FillFoodMap | app/router/router.go:191-197 | the range loop builds that slug-to-name map |
| Router.SeasonOrZero | app/router/router.go:175-179 | the parsed season, or 0 when the parameter does not parse (so an empty one is 0) |
| Router.SeasonOrZeroCases | app/router/router.go:175-179 | a decimal number reads as itself, a parameter starting with a non-numeric character as 0 |
| Router.Foods | app/router/router.go:163-206 | without both a state and a season both maps are empty; otherwise they hold the foods of the season and of the next season |
| Router.SeasonRoute | app/router/router.go:247-265 | accepted exactly when the parameter parses to 1..24; empty is 400 "Season not provided", any other failure 400 "Invalid state" |
| Router.SeasonRouteAcceptsSeasons | app/router/router.go:255-260 | every season 1..24 written in decimal is accepted as itself |
| Router.StateRoute | app/router/router.go:267-278 | any non-empty state is passed on; an empty one is 400 "Season not provided" |
| Router.StateSeasonRoute | app/router/router.go:280-311 | accepted exactly when the state is non-empty, the season is valid and the upper-cased state is a valid state; the 400 messages as written |
| Router.StateSeasonRouteIgnoresCase | app/router/router.go:296-301 | for an ASCII state, lower-casing it first never changes the answer |
| Router.ListParam | app/router/router.go:224-230 | the list is empty exactly when the parameter is |
| Router.ListParamPieces | app/router/router.go:224-230 | the pieces of a non-empty parameter are comma-free and join back to it |
| Router.PlanLocations | app/router/router.go:217-238 | all locations exactly when neither tags nor standards is given, else the filter by the split lists |
| Router.LocationsAnswerIsFilter | app/router/router.go:232-238 | skipping the filter changes nothing: a location is returned exactly when its standard is listed (or none is) and it has a listed tag (or none is) |

## Left out

- Network I/O, JSON decoding and `io.ReadAll`: the HTTP responses (whether there was one, its status, the decoded rows or body) are parameters.
- `PollLocations`' endless loop, its goroutine and `time.Sleep`: one iteration is modelled (`Poll`, `AfterPolls`); the unsynchronised sharing of `allLocations` between the goroutine and handlers is not.
- SHA-256 and hex formatting: the digest is a function parameter; nothing is taken for granted about it.
- Reading `.env` and the environment, `fmt.Println` logging, and the router's `MAPBOX_TOKEN` start-up check.
- Gin plumbing: route registration, rendering, templates, compression, health check, statistics, and the `/stats`, `/api/v1/foods` and webhook routes' bodies.
- The seasons package is not part of this model: its food lookup and valid-state list are parameters of `Router.Foods` and `Router.StateSeasonRoute`.
- The CMS-backed `LocationMap`, `GetStandards` and `GetTags` the router calls are not part of this model.
- main.go, src/main.js, app/contentful/renderer.go, tailwind.config.js and cmd/uploadFoods are not part of this model.
- Latitude and longitude stay strings, as in the sheet; no floating point.
- GoStrings.TrimSpace: white space is the Latin-1 subset of Unicode white space.
- GoStrings.ToLower: only ASCII letters change case; Go maps all of Unicode.
- Locations.StandardOf: normalises with the ASCII-only lower-casing, so a standard cell Go lower-cases onto a whitelisted value through a non-ASCII letter (such as "SİLVER", which Go stores as "silver") is stored as "" here; the discarded badge and tag normalisation (`Locations.CleanValues`) differs from Go the same way.
- GoStrings.ToUpper: only ASCII letters change case; Go maps all of Unicode (it upper-cases "ı" to "I", for one).
- GoStrings.UpperOfLower: stated for ASCII strings only, because Go's Unicode mapping breaks it ("İ" lower-cases to "i" and upper-cases back to "I").
- Router.StateSeasonRoute: upper-cases the state with the ASCII-only mapping, so a state Go's Unicode `strings.ToUpper` maps onto a valid state (such as "ıl" to "IL") is rejected here and accepted by Go.
- Router.StateSeasonRouteIgnoresCase: stated for ASCII states only, for the same reason.
- Auth.AuthHTML: in this router the middleware guards only the four routes of the "/" group (`/`, `/locations`, `/locations/:location`, `/foods`); `/public` is served by `r.Static`, `/login` is registered outside the group and an unmatched `/favicon.ico` goes to the not-found handler, so its three exemptions never fire there. The Auth lemmas are about the middleware function alone.
- Locations.LocationStore: the constructor and `Poll` take plain location lists; a nine-cell row read at start-up (the call in `Init`) or in the poll goroutine is a panic that ends the process, and the store does not model that.
- Util.GetLocations: a transport error leaves `resp` nil and Go panics on `resp.StatusCode`; the model only takes a status.
- Contentful.GetEntries: the `resp == nil` check after the status checks cannot be reached, and a body read error is not modelled.
