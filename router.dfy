/**
 * The request handlers of app/router/router.go, as the decisions they take on
 * their inputs: the static cache header, the not-found page, the login form,
 * the location page, the foods fragment with its next season, and the JSON
 * routes' parameter validation.
 *
 * The seasons package is not part of this model: its food lookup and its list
 * of valid states are parameters here, and nothing is taken for granted about them.
 */
module Router {
  import opened Wrappers
  import opened GoStrings
  import Locations
  import Auth

  // ---------------------------------------------------------------------------
  // Middleware and the fallback route
  // ---------------------------------------------------------------------------

  const StaticCacheControl: string := "public, max-age=31536000"

  /** The Cache-Control header a response gets: only in release mode, where the
      static cache middleware is installed, and only below /public. */
  function CacheControl(releaseMode: bool, path: string): (r: Option<string>)
    ensures r.Some? <==> releaseMode && |path| >= 7 && path[..7] == "/public"
    ensures r.Some? ==> r.value == StaticCacheControl
  {
    if releaseMode && HasPrefix(path, "/public") then Some(StaticCacheControl) else None
  }

  /** An error page: rendered as JSON or as the HTML error template. */
  datatype ErrorPage = JsonError(status: int, message: string) | HtmlError(status: int, message: string)

  const StatusNotFound: int := 404
  const StatusBadRequest: int := 400

  /** NoRoute: a 404 "Page not found", as JSON exactly below /api. */
  function NotFound(path: string): (r: ErrorPage)
    ensures r.JsonError? <==> |path| >= 4 && path[..4] == "/api"
    ensures r.status == 404 && r.message == "Page not found"
  {
    if HasPrefix(path, "/api") then JsonError(StatusNotFound, "Page not found")
    else HtmlError(StatusNotFound, "Page not found")
  }

  // ---------------------------------------------------------------------------
  // POST /login
  // ---------------------------------------------------------------------------

  /** What the login form answers: always a 302, with the session cookie and a
      redirect home when the hash matches, else back to the login page. */
  datatype LoginReply = LoginReply(cookie: Option<Auth.Cookie>, status: int, location: string)

  function Login(sha: Auth.Digest, cfg: Auth.Config, pass: string): (r: LoginReply)
    ensures r.status == 302
    ensures r.cookie.Some? <==> Auth.IsPasswordValid(cfg, Auth.HashValue(sha, cfg.salt, pass))
    ensures r.cookie.Some? ==> r.cookie.value == Auth.SessionCookie(cfg.passwordHash) && r.location == "/"
    ensures r.cookie.None? ==> r.location == "/login"
  {
    var passHash := Auth.HashValue(sha, cfg.salt, pass);
    if Auth.IsPasswordValid(cfg, passHash) then
      LoginReply(Some(Auth.SessionCookie(passHash)), Auth.StatusFound, "/")
    else LoginReply(None, Auth.StatusFound, "/login")
  }

  /** Logging in with the configured password succeeds, and the cookie it sets
      passes both middlewares afterwards, on every path and with any query. */
  lemma LoginWithPassword(sha: Auth.Digest, password: string, salt: string, path: string, query: string)
    requires Auth.Init(sha, password, salt).Ok?
    requires sha(password + salt) != ""
    ensures var cfg := Auth.Init(sha, password, salt).value;
      var reply := Login(sha, cfg, password);
      && reply.cookie.Some? && reply.location == "/"
      && Auth.AuthJSON(cfg, reply.cookie.value.value, query) == Auth.Continue
      && Auth.AuthHTML(cfg, path, reply.cookie.value.value, query) != Auth.Redirect(302, "/login")
  {
  }

  // ---------------------------------------------------------------------------
  // GET /locations/:location
  // ---------------------------------------------------------------------------

  /** The location page: a 404 HTML page, or the page of the location found. */
  datatype LocationPage = LocationNotFound(page: ErrorPage) | LocationFound(location: Locations.Location)

  /** The handler's check on the slug and on what the lookup returned. */
  function LocationRoute(slug: string, found: Locations.Location): (r: LocationPage)
    ensures r.LocationNotFound? <==> slug == "" || found.slug == ""
    ensures r.LocationNotFound? ==> r.page == HtmlError(404, "Page not found")
    ensures r.LocationFound? ==> r.location == found
  {
    if slug == "" || found.slug == "" then LocationNotFound(HtmlError(StatusNotFound, "Page not found"))
    else LocationFound(found)
  }

  /** Over a snapshot, the page is found exactly when the slug is not empty and
      some location has it, and it then shows a location with that slug (the
      first, by Locations.BySlugFirstMatch). */
  lemma LocationRouteOverSnapshot(all: seq<Locations.Location>, slug: string)
    ensures var r := LocationRoute(slug, Locations.BySlug(all, slug));
      && (r.LocationFound? <==> slug != "" && exists i :: 0 <= i < |all| && all[i].slug == slug)
      && (r.LocationFound? ==> r.location.slug == slug)
  {
    Locations.BySlugFound(all, slug);
    if forall i :: 0 <= i < |all| ==> all[i].slug != slug {
      Locations.BySlugNoMatch(all, slug);
    }
  }

  // ---------------------------------------------------------------------------
  // Seasons
  // ---------------------------------------------------------------------------

  /** The seasons are the 24 half-months of the year, numbered from 1. */
  predicate IsSeason(n: int)
  {
    1 <= n <= 24
  }

  /** The /foods handler's next season: 24 wraps to 1, anything else is
      incremented as a Go int, which wraps around past the largest value. */
  function NextSeason(s: Int64): (r: Int64)
    ensures s == 24 ==> r == 1
    ensures s != 24 && s < MaxInt64 ==> r == s + 1
    ensures s == MaxInt64 ==> r == MinInt64
    ensures IsSeason(s) ==> IsSeason(r)
  {
    if s == 24 then 1
    else if s == MaxInt64 then MinInt64
    else s + 1
  }

  /** The season before a valid one. */
  function PrevSeason(s: int): int
  {
    if s == 1 then 24 else s - 1
  }

  /** NextSeason keeps a valid season valid, and PrevSeason undoes it. */
  lemma NextSeasonInverse(s: Int64)
    requires IsSeason(s)
    ensures IsSeason(NextSeason(s)) && PrevSeason(NextSeason(s)) == s
    ensures NextSeason(s) == (s % 24) + 1
  {
  }

  /** Outside the valid range NextSeason does not wrap to 1: an unparsable
      season (read as 0) gives 1, the largest Go int gives the smallest. */
  lemma NextSeasonOutsideRange()
    ensures NextSeason(0) == 1
    ensures NextSeason(25) == 26 && !IsSeason(NextSeason(25))
    ensures NextSeason(MaxInt64) == MinInt64
  {
  }

  function NextSeasons(s: Int64, n: nat): Int64
    decreases n
  {
    if n == 0 then s else NextSeason(NextSeasons(s, n - 1))
  }

  /** Stepping n times from a valid season without passing 24 counts up. */
  lemma {:induction false} NextSeasonsBelow(s: Int64, n: nat)
    requires IsSeason(s) && s + n <= 24
    ensures NextSeasons(s, n) == s + n
    decreases n
  {
    if n > 0 {
      NextSeasonsBelow(s, n - 1);
    }
  }

  /** Stepping past 24 (but less than two full rounds) starts again from 1. */
  lemma {:induction false} NextSeasonsWrap(s: Int64, n: nat)
    requires IsSeason(s) && 24 < s + n <= 48
    ensures NextSeasons(s, n) == s + n - 24
    decreases n
  {
    if s + n - 1 == 24 {
      NextSeasonsBelow(s, n - 1);
    } else {
      NextSeasonsWrap(s, n - 1);
    }
  }

  /** The seasons form one cycle of length 24: a valid season comes back after
      24 steps and not before. */
  lemma SeasonCycle(s: Int64, n: nat)
    requires IsSeason(s)
    ensures NextSeasons(s, 24) == s
    ensures 0 < n < 24 ==> NextSeasons(s, n) != s
  {
    NextSeasonsWrap(s, 24);
    if 0 < n < 24 {
      if s + n <= 24 {
        NextSeasonsBelow(s, n);
      } else {
        NextSeasonsWrap(s, n);
      }
    }
  }

  // ---------------------------------------------------------------------------
  // GET /foods
  // ---------------------------------------------------------------------------

  /** A food as the seasons package returns it; only slug and name are used here. */
  datatype Food = Food(slug: string, name: string)

  /** GetFoodsByStateAndSeason: the seasons package's lookup. */
  type FoodLookup = (string, Int64) -> seq<Food>

  /** The map the loop builds: slug to name, a later food overwriting an earlier one. */
  function FoodMap(foods: seq<Food>): map<string, string>
    decreases |foods|
  {
    if foods == [] then map[]
    else
      var last := foods[|foods| - 1];
      FoodMap(foods[..|foods| - 1])[last.slug := last.name]
  }

  /** The map's keys are exactly the foods' slugs. */
  lemma {:induction false} FoodMapKeys(foods: seq<Food>)
    ensures forall slug :: slug in FoodMap(foods) <==> exists i :: 0 <= i < |foods| && foods[i].slug == slug
    decreases |foods|
  {
    if foods != [] {
      var n := |foods| - 1;
      var init := foods[..n];
      FoodMapKeys(init);
      assert forall i :: 0 <= i < n ==> init[i] == foods[i];
      assert FoodMap(foods) == FoodMap(init)[foods[n].slug := foods[n].name];
      forall slug | slug in FoodMap(foods)
        ensures exists i :: 0 <= i < |foods| && foods[i].slug == slug
      {
        if slug != foods[n].slug {
          var i :| 0 <= i < n && init[i].slug == slug;
          assert foods[i].slug == slug;
        }
      }
    }
  }

  /** A food that no later food shares its slug with names that slug. */
  lemma {:induction false} FoodMapLastName(foods: seq<Food>, i: nat)
    requires i < |foods| && forall j :: i < j < |foods| ==> foods[j].slug != foods[i].slug
    ensures foods[i].slug in FoodMap(foods) && FoodMap(foods)[foods[i].slug] == foods[i].name
    decreases |foods|
  {
    var n := |foods| - 1;
    var init := foods[..n];
    assert FoodMap(foods) == FoodMap(init)[foods[n].slug := foods[n].name];
    if i < n {
      assert forall j :: i < j < n ==> init[j] == foods[j];
      FoodMapLastName(init, i);
    }
  }

  /** The map holds exactly the slugs of the foods, each with the name of the
      last food carrying it. */
  lemma FoodMapLookup(foods: seq<Food>)
    ensures forall slug :: slug in FoodMap(foods) <==> exists i :: 0 <= i < |foods| && foods[i].slug == slug
    ensures forall i :: 0 <= i < |foods| && (forall j :: i < j < |foods| ==> foods[j].slug != foods[i].slug)
              ==> FoodMap(foods)[foods[i].slug] == foods[i].name
  {
    FoodMapKeys(foods);
    forall i | 0 <= i < |foods| && (forall j :: i < j < |foods| ==> foods[j].slug != foods[i].slug)
      ensures FoodMap(foods)[foods[i].slug] == foods[i].name
    {
      FoodMapLastName(foods, i);
    }
  }

  /** The range loop filling a map from slug to name. */
  method FillFoodMap(foods: seq<Food>) returns (m: map<string, string>)
    ensures m == FoodMap(foods)
  {
    m := map[];
    var i := 0;
    while i < |foods|
      invariant 0 <= i <= |foods|
      invariant m == FoodMap(foods[..i])
    {
      assert foods[..i + 1][..i] == foods[..i];
      m := m[foods[i].slug := foods[i].name];
      i := i + 1;
    }
    assert foods[..i] == foods;
  }

  /** The season query parameter as the handler reads it: unparsable is 0. */
  function SeasonOrZero(season: string): (r: Int64)
    ensures Atoi(season).Some? ==> r == Atoi(season).value
    ensures Atoi(season).None? ==> r == 0
    ensures season == "" ==> r == 0
  {
    match Atoi(season)
    case None => 0
    case Some(n) => n
  }

  /** A formatted number reads back as itself; a parameter with a non-numeric
      first character reads as 0. */
  lemma SeasonOrZeroCases(n: Int64, season: string)
    ensures SeasonOrZero(FormatInt(n)) == n
    ensures season != "" && !IsDigit(season[0]) && season[0] != '-' && season[0] != '+' ==> SeasonOrZero(season) == 0
  {
    AtoiFormatInt(n);
  }

  /** GET /foods: without both a state and a season both maps stay empty;
      otherwise they hold the foods of the season and of the next one. */
  method Foods(state: string, season: string, foodsFor: FoodLookup)
    returns (inSeason: map<string, string>, nextSeason: map<string, string>)
    ensures state == "" || season == "" ==> inSeason == map[] && nextSeason == map[]
    ensures state != "" && season != "" ==>
      var s := SeasonOrZero(season);
      inSeason == FoodMap(foodsFor(state, s)) && nextSeason == FoodMap(foodsFor(state, NextSeason(s)))
  {
    inSeason := map[];
    nextSeason := map[];
    if state != "" && season != "" {
      var seasonInt: Int64;
      var parsed := Atoi(season);
      if parsed.None? {
        seasonInt := 0;
      } else {
        seasonInt := parsed.value;
      }
      var nextSeasonInt: Int64;
      if seasonInt == 24 {
        nextSeasonInt := 1;
      } else if seasonInt == MaxInt64 {
        nextSeasonInt := MinInt64;
      } else {
        nextSeasonInt := seasonInt + 1;
      }
      inSeason := FillFoodMap(foodsFor(state, seasonInt));
      nextSeason := FillFoodMap(foodsFor(state, nextSeasonInt));
    }
  }

  // ---------------------------------------------------------------------------
  // JSON routes under /api/v1
  // ---------------------------------------------------------------------------

  /** GET /seasons/:season: the season number, or a 400. The message for a bad
      season reads "Invalid state", as the handler writes it. */
  function SeasonRoute(season: string): (r: Result<Int64, ErrorPage>)
    ensures r.Ok? <==> season != "" && Atoi(season).Some? && IsSeason(Atoi(season).value)
    ensures r.Ok? ==> Atoi(season) == Some(r.value) && IsSeason(r.value)
    ensures season == "" ==> r == Err(JsonError(400, "Season not provided"))
    ensures season != "" && r.Err? ==> r == Err(JsonError(400, "Invalid state"))
  {
    if season == "" then Err(JsonError(StatusBadRequest, "Season not provided"))
    else
      match Atoi(season)
      case None => Err(JsonError(StatusBadRequest, "Invalid state"))
      case Some(n) =>
        if n < 1 || n > 24 then Err(JsonError(StatusBadRequest, "Invalid state")) else Ok(n)
  }

  /** Every valid season, written in decimal, is accepted as itself. */
  lemma SeasonRouteAcceptsSeasons(n: Int64)
    requires IsSeason(n)
    ensures SeasonRoute(FormatInt(n)) == Ok(n)
  {
    AtoiFormatInt(n);
  }

  /** GET /states/:state: any non-empty state is passed on; an empty one is a
      400 whose message, as written, names the season. */
  function StateRoute(state: string): (r: Result<string, ErrorPage>)
    ensures r.Ok? <==> state != ""
    ensures r.Ok? ==> r.value == state
    ensures r.Err? ==> r.error == JsonError(400, "Season not provided")
  {
    if state == "" then Err(JsonError(StatusBadRequest, "Season not provided")) else Ok(state)
  }

  /** GET /states/:state/seasons/:season: the upper-cased state and the season,
      or a 400. */
  function StateSeasonRoute(state: string, season: string, validStates: seq<string>)
    : (r: Result<(string, Int64), ErrorPage>)
    ensures r.Ok? <==> state != "" && SeasonRoute(season).Ok? && ToUpper(state) in validStates
    ensures r.Ok? ==> r.value == (ToUpper(state), SeasonRoute(season).value)
    ensures state == "" || season == "" ==> r == Err(JsonError(400, "Invalid state or season"))
    ensures state != "" && season != "" && r.Err? ==> r == Err(JsonError(400, "Invalid state"))
  {
    if state == "" || season == "" then Err(JsonError(StatusBadRequest, "Invalid state or season"))
    else
      match Atoi(season)
      case None => Err(JsonError(StatusBadRequest, "Invalid state"))
      case Some(n) =>
        if n < 1 || n > 24 then Err(JsonError(StatusBadRequest, "Invalid state"))
        else
          var upper := ToUpper(state);
          if upper !in validStates then Err(JsonError(StatusBadRequest, "Invalid state"))
          else Ok((upper, n))
  }

  /** An ASCII state is matched without regard to case: lower-casing it first
      changes nothing. */
  lemma StateSeasonRouteIgnoresCase(state: string, season: string, validStates: seq<string>)
    requires IsAscii(state)
    ensures StateSeasonRoute(ToLower(state), season, validStates) == StateSeasonRoute(state, season, validStates)
  {
    UpperOfLower(state);
  }

  /** A comma-separated query parameter: an empty one is the empty list. */
  function ListParam(p: string): (r: seq<string>)
    ensures r == [] <==> p == ""
  {
    if p == "" then [] else Split(p, ',')
  }

  /** A non-empty parameter's pieces are comma-free and join back to it. */
  lemma ListParamPieces(p: string)
    requires p != ""
    ensures Join(ListParam(p), ',') == p
    ensures forall k :: 0 <= k < |ListParam(p)| ==> ',' !in ListParam(p)[k]
  {
    JoinSplit(p, ',');
    SplitPiecesLackSeparator(p, ',');
  }

  /** What GET /api/v1/locations asks of the locations package. */
  datatype LocationsQuery = AllLocations | FilterBy(standards: seq<string>, tags: seq<string>)

  /** The handler's choice: the filter only when a tags or standards parameter is given. */
  function PlanLocations(tagsParam: string, standardsParam: string): (q: LocationsQuery)
    ensures q.AllLocations? <==> tagsParam == "" && standardsParam == ""
    ensures q.FilterBy? ==> q.standards == ListParam(standardsParam) && q.tags == ListParam(tagsParam)
  {
    var tags := ListParam(tagsParam);
    var standards := ListParam(standardsParam);
    if |tags| != 0 || |standards| != 0 then FilterBy(standards, tags) else AllLocations
  }

  /** The answer to a query over a snapshot, with the conjunctive filter of
      app/locations/locations.go and no badge criterion. */
  function AnswerLocations(all: seq<Locations.Location>, q: LocationsQuery): seq<Locations.Location>
  {
    match q
    case AllLocations => all
    case FilterBy(standards, tags) => Locations.Filtered(all, standards, [], tags)
  }

  /** Skipping the filter when no parameter is given changes nothing: the
      answer is always the filter applied to both lists, so a location is
      returned exactly when its standard is listed (or none is) and it carries
      a listed tag (or none is listed). */
  lemma LocationsAnswerIsFilter(all: seq<Locations.Location>, tagsParam: string, standardsParam: string,
                                x: Locations.Location)
    ensures var answer := AnswerLocations(all, PlanLocations(tagsParam, standardsParam));
      && answer == Locations.Filtered(all, ListParam(standardsParam), [], ListParam(tagsParam))
      && (x in answer <==>
            (&& x in all
             && (standardsParam == "" || x.standard in ListParam(standardsParam))
             && (tagsParam == "" || Locations.Intersects(x.tags, ListParam(tagsParam)))))
  {
    if tagsParam == "" && standardsParam == "" {
      Locations.FilterWithoutCriteria(all);
    }
    Locations.FilteredMembership(all, ListParam(standardsParam), [], ListParam(tagsParam), x);
  }
}
