/**
 * Shared-password authentication (app/auth/auth.go): the salted password hash
 * computed once at start-up, token comparison, where the token is read from,
 * and what the HTML and JSON middlewares do with a request.
 *
 * SHA-256 with hex formatting is a foreign library call; it is a parameter
 * `sha` of type `Digest` here, and nothing is taken for granted about it (not even that it
 * is injective).
 */
module Auth {
  import opened Wrappers

  /** The hex-encoded SHA-256 digest of a string. */
  type Digest = string -> string

  /** The package globals `password`, `salt` and `passwordHash`, assigned once by init. */
  datatype Config = Config(password: string, salt: string, passwordHash: string)

  /** HashValue: the digest of the value followed by the salt. */
  function HashValue(sha: Digest, salt: string, value: string): (r: string)
    ensures r == sha(value + salt)
  {
    sha(value + salt)
  }

  /** init: an empty PASSWORD or SALT is fatal; otherwise the password's hash is kept. */
  function Init(sha: Digest, password: string, salt: string): (r: Result<Config, string>)
    ensures r.Err? <==> password == "" || salt == ""
    ensures r.Ok? ==> r.value.password == password && r.value.salt == salt
    ensures r.Ok? ==> IsPasswordValid(r.value, HashValue(sha, salt, password))
  {
    if password == "" || salt == "" then Err("PASSWORD or SALT not found in .env")
    else Ok(Config(password, salt, HashValue(sha, salt, password)))
  }

  /** IsPasswordValid: the token is the stored hash. */
  function IsPasswordValid(cfg: Config, token: string): (b: bool)
    ensures b <==> token == cfg.passwordHash
  {
    token == cfg.passwordHash
  }

  /** Whatever digest is used, only the hash is compared: a different password
      whose digest collides with the stored one is accepted too. */
  lemma CollidingPasswordAccepted(sha: Digest, password: string, salt: string, other: string)
    requires password != "" && salt != ""
    requires sha(other + salt) == sha(password + salt)
    ensures Init(sha, password, salt).Ok?
    ensures IsPasswordValid(Init(sha, password, salt).value, HashValue(sha, salt, other))
  {
  }

  /** The token isAuthed checks: the `_token` cookie, or the `_token` query
      parameter when the cookie is missing or empty (a missing one reads as ""). */
  function SelectToken(cookie: string, query: string): (r: string)
    ensures cookie != "" ==> r == cookie
    ensures cookie == "" ==> r == query
    ensures r == "" <==> cookie == "" && query == ""
  {
    if cookie == "" then query else cookie
  }

  /** isAuthed: the cookie, when there is one, else the query token, is the stored hash. */
  function IsAuthed(cfg: Config, cookie: string, query: string): (b: bool)
    ensures b <==> (cookie != "" && cookie == cfg.passwordHash) || (cookie == "" && query == cfg.passwordHash)
  {
    IsPasswordValid(cfg, SelectToken(cookie, query))
  }

  /** The query parameter only counts when there is no cookie: a non-empty
      invalid cookie shuts out a valid query token, and without a cookie the
      query token decides. */
  lemma TokenSourceOrder(cfg: Config, cookie: string, query: string)
    ensures cookie != "" ==> (IsAuthed(cfg, cookie, query) <==> IsPasswordValid(cfg, cookie))
    ensures cookie == "" ==> (IsAuthed(cfg, cookie, query) <==> IsPasswordValid(cfg, query))
    ensures (cookie != "" && !IsPasswordValid(cfg, cookie) && IsPasswordValid(cfg, query))
              ==> !IsAuthed(cfg, cookie, query)
  {
  }

  /** c.SetCookie(name, value, maxAge, path, domain, secure, httpOnly). */
  datatype Cookie = Cookie(name: string, value: string, maxAge: int, path: string, domain: string,
                           secure: bool, httpOnly: bool)

  const StatusFound: int := 302
  const StatusUnauthorized: int := 401

  /** One day, in seconds. */
  const SessionMaxAge: int := 60 * 60 * 24

  /** The session cookie set after a successful check or login. */
  function SessionCookie(token: string): Cookie
  {
    Cookie("_token", token, SessionMaxAge, "/", "", false, true)
  }

  /** The paths AuthHTML lets through unchecked, compared exactly. */
  predicate IsExemptPath(path: string)
  {
    path == "/login" || path == "/favicon.ico" || path == "/public"
  }

  /** What AuthHTML does: let the request through unchecked, let it through
      after re-setting the cookie, or redirect to the login page and abort. */
  datatype HtmlVerdict = Exempt | Refresh(cookie: Cookie) | Redirect(status: int, location: string)

  /** AuthHTML. */
  function AuthHTML(cfg: Config, path: string, cookie: string, query: string): (r: HtmlVerdict)
    ensures r.Exempt? <==> IsExemptPath(path)
    ensures r.Refresh? <==> !IsExemptPath(path) && IsAuthed(cfg, cookie, query)
    ensures r.Refresh? ==> r.cookie == SessionCookie(cfg.passwordHash) && r.cookie.maxAge == 86400
    ensures r.Redirect? ==> r.status == 302 && r.location == "/login"
  {
    if path == "/login" then Exempt
    else if path == "/favicon.ico" then Exempt
    else if path == "/public" then Exempt
    else if IsAuthed(cfg, cookie, query) then
      var token := SelectToken(cookie, query);
      Refresh(SessionCookie(token))
    else Redirect(StatusFound, "/login")
  }

  /** What AuthJSON does: let the request through, or answer 401 and abort. */
  datatype JsonVerdict = Continue | Unauthorized(status: int, message: string)

  /** AuthJSON. */
  function AuthJSON(cfg: Config, cookie: string, query: string): (r: JsonVerdict)
    ensures r.Continue? <==> IsAuthed(cfg, cookie, query)
    ensures r.Unauthorized? ==> r.status == 401 && r.message == "Unauthorized"
  {
    if IsAuthed(cfg, cookie, query) then Continue
    else Unauthorized(StatusUnauthorized, "Unauthorized")
  }

  /** Outside the three exempt paths both middlewares take the same decision. */
  lemma HtmlAndJsonAgree(cfg: Config, path: string, cookie: string, query: string)
    requires !IsExemptPath(path)
    ensures AuthHTML(cfg, path, cookie, query).Refresh? <==> AuthJSON(cfg, cookie, query).Continue?
    ensures AuthHTML(cfg, path, cookie, query).Redirect? <==> AuthJSON(cfg, cookie, query).Unauthorized?
  {
  }

  /** Of the middleware function alone: the exemption is an exact match, so a
      path below "/public" that reached AuthHTML would be checked like any other
      page. */
  lemma PublicAssetIsChecked(cfg: Config)
    requires cfg.passwordHash != ""
    ensures AuthHTML(cfg, "/public/app.css", "", "") == Redirect(302, "/login")
    ensures AuthHTML(cfg, "/public", "", "") == Exempt
  {
  }

  /** A re-set cookie passes the next check on every path and on the JSON API
      (a hex digest is never empty, so the cookie is never mistaken for a missing one). */
  lemma RefreshedCookieStaysValid(cfg: Config, path: string, cookie: string, query: string,
                                  nextPath: string, nextQuery: string)
    requires cfg.passwordHash != ""
    requires AuthHTML(cfg, path, cookie, query).Refresh?
    ensures var c := AuthHTML(cfg, path, cookie, query).cookie;
      && AuthHTML(cfg, nextPath, c.value, nextQuery) != Redirect(302, "/login")
      && AuthJSON(cfg, c.value, nextQuery) == Continue
  {
  }
}
