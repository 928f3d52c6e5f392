/** src/middleware.ts: keeps signed-in users away from the login and signup pages. */
module Middleware {

  /** The two cookie names NextAuth may store its session token under. */
  const SESSION_COOKIE := "next-auth.session-token"
  const SECURE_SESSION_COOKIE := "__Secure-next-auth.session-token"

  /** The paths the middleware runs on (config.matcher). */
  const MATCHER: seq<string> := ["/login", "/signup"]

  datatype Response = RedirectTo(location: string) | Next

  /** A request is authenticated when either session cookie is present, whatever its value. */
  predicate IsAuthenticated(cookies: map<string, string>) {
    SESSION_COOKIE in cookies || SECURE_SESSION_COOKIE in cookies
  }

  /** middleware(request): an authenticated request to "/login" or "/signup" is sent to "/". */
  function Decide(cookies: map<string, string>, pathname: string): Response {
    if IsAuthenticated(cookies) && (pathname == "/login" || pathname == "/signup") then RedirectTo("/")
    else Next
  }

  /** What a request meets: the middleware on matched paths, nothing elsewhere. */
  function Handle(cookies: map<string, string>, pathname: string): (r: Response)
    ensures pathname !in MATCHER ==> r == Next
  {
    if pathname in MATCHER then Decide(cookies, pathname) else Next
  }

  /** The matcher covers every path the middleware can redirect, so it changes nothing. */
  lemma MatcherCoversRedirects(cookies: map<string, string>, pathname: string)
    ensures Handle(cookies, pathname) == Decide(cookies, pathname)
  {
  }

  /** A request without either session cookie is never redirected. */
  lemma AnonymousNeverRedirected(cookies: map<string, string>, pathname: string)
    requires SESSION_COOKIE !in cookies && SECURE_SESSION_COOKIE !in cookies
    ensures Handle(cookies, pathname) == Next
  {
  }

  /** A request carrying either session cookie, to the login or the signup page, is sent to "/". */
  lemma SignedInAuthPageRedirected(cookies: map<string, string>, pathname: string)
    requires SESSION_COOKIE in cookies || SECURE_SESSION_COOKIE in cookies
    requires pathname in MATCHER
    ensures Handle(cookies, pathname) == RedirectTo("/")
  {
  }

  /** Any other path passes through, signed in or not. */
  lemma OtherPathPasses(cookies: map<string, string>, pathname: string)
    requires pathname != "/login" && pathname != "/signup"
    ensures Handle(cookies, pathname) == Next
  {
  }
}
