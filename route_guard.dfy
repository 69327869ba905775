/**
 * The edge middleware that runs before a page is rendered: it looks only at the request
 * path and at the `access_token` cookie, and either redirects or lets the request through.
 */
module RouteGuard {
  import opened Wrappers
  import opened Strings

  datatype Decision =
    | RedirectHome                  // redirect to `/`
    | RedirectLogin(from: string)   // redirect to `/auth/login?from=<from>`
    | PassThrough                   // `NextResponse.next()`

  /** Pages that need a signed-in user. */
  const ProtectedPaths: seq<string> := ["/profile", "/create-post"]

  /** Pages a signed-in user is sent away from. */
  const AuthPaths: seq<string> := ["/auth/login", "/auth/register"]

  /** `!!request.cookies.get('access_token')?.value`: a missing cookie and an empty value both mean "no token". */
  predicate HasToken(cookie: Option<string>) {
    cookie.Some? && cookie.value != ""
  }

  /** `prefixes.some(p => path.startsWith(p))` */
  predicate StartsWithAny(prefixes: seq<string>, path: string)
    decreases |prefixes|
  {
    |prefixes| > 0 && (IsPrefix(prefixes[0], path) || StartsWithAny(prefixes[1..], path))
  }

  /** The middleware's decision for one request. */
  function Middleware(path: string, cookie: Option<string>): (d: Decision)
    ensures d == RedirectHome <==>
              HasToken(cookie) && (IsPrefix("/auth/login", path) || IsPrefix("/auth/register", path))
    ensures d.RedirectLogin? <==>
              !HasToken(cookie) && (IsPrefix("/profile", path) || IsPrefix("/create-post", path))
    ensures d.RedirectLogin? ==> d.from == path
  {
    if HasToken(cookie) && StartsWithAny(AuthPaths, path) then RedirectHome
    else if !HasToken(cookie) && StartsWithAny(ProtectedPaths, path) then RedirectLogin(path)
    else PassThrough
  }

  /** The URL the response points the browser to, when it redirects. */
  function Location(d: Decision): (url: Option<string>)
    ensures d.PassThrough? <==> url.None?
    ensures d.RedirectLogin? ==> url == Some("/auth/login?from=" + d.from)
  {
    match d
    case RedirectHome => Some("/")
    case RedirectLogin(from) => Some("/auth/login?from=" + from)
    case PassThrough => None
  }

  /** A redirect to `/` needs a token and a redirect to login needs its absence: the rules never both apply. */
  lemma RedirectsNeedOppositeCookies(path: string, cookie: Option<string>)
    ensures Middleware(path, cookie) == RedirectHome ==> HasToken(cookie)
    ensures Middleware(path, cookie).RedirectLogin? ==> !HasToken(cookie)
    ensures !(StartsWithAny(AuthPaths, path) && StartsWithAny(ProtectedPaths, path))
  {
    // the second character tells the two families apart
    if IsPrefix("/auth/login", path) { assert path[1] == path[..11][1] == 'a'; }
    if IsPrefix("/auth/register", path) { assert path[1] == path[..14][1] == 'a'; }
    if IsPrefix("/profile", path) { assert path[1] == path[..8][1] == 'p'; }
    if IsPrefix("/create-post", path) { assert path[1] == path[..12][1] == 'c'; }
  }

  /** Everything that is neither an auth page with a token nor a protected page without one goes through. */
  lemma OtherRequestsPassThrough(path: string, cookie: Option<string>)
    requires !(HasToken(cookie) && StartsWithAny(AuthPaths, path))
    requires !(!HasToken(cookie) && StartsWithAny(ProtectedPaths, path))
    ensures Middleware(path, cookie) == PassThrough
  {
  }

  /** An empty cookie value is treated exactly like no cookie. */
  lemma EmptyCookieIsNoCookie(path: string)
    ensures Middleware(path, Some("")) == Middleware(path, None)
  {
  }

  /** Matching is by prefix: everything below a protected page is guarded like the page itself. */
  lemma {:induction false} SubpathsOfProtectedAreGuarded(page: string, rest: string, cookie: Option<string>)
    requires page in ProtectedPaths
    requires !HasToken(cookie)
    ensures Middleware(page + rest, cookie) == RedirectLogin(page + rest)
    ensures Location(Middleware(page + rest, cookie)) == Some("/auth/login?from=" + page + rest)
  {
    PrefixOfExtension(page, page, rest);
    assert IsPrefix(page, page);
    assert "/auth/login?from=" + page + rest == "/auth/login?from=" + (page + rest);
  }

  /** Everything below an auth page is sent home once a token cookie is present. */
  lemma {:induction false} SubpathsOfAuthPagesGoHome(page: string, rest: string, cookie: Option<string>)
    requires page in AuthPaths
    requires HasToken(cookie)
    ensures Middleware(page + rest, cookie) == RedirectHome
    ensures Location(Middleware(page + rest, cookie)) == Some("/")
  {
    PrefixOfExtension(page, page, rest);
    assert IsPrefix(page, page);
  }

  /** `/profile` without a cookie goes to `/auth/login?from=/profile`; `/auth/login` with one goes to `/`. */
  lemma ProfileAndLoginExamples(token: string)
    requires token != ""
    ensures Location(Middleware("/profile", None)) == Some("/auth/login?from=/profile")
    ensures Location(Middleware("/auth/login", Some(token))) == Some("/")
  {
    assert IsPrefix("/profile", "/profile");
    assert "/auth/login?from=" + "/profile" == "/auth/login?from=/profile";
    assert IsPrefix("/auth/login", "/auth/login");
  }
}
