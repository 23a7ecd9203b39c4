/**
 * The session middleware (lib/supabase/middleware.ts): the public-path test and the redirect
 * decision made for every request.
 */
module Middleware {

  /** `publicPaths` */
  const PublicPaths: seq<string> := ["/", "/auth/callback", "/auth/login"]

  /** The path is one of the public paths, compared for equality (no prefix match). */
  predicate IsPublicPath(pathname: string) {
    exists i :: 0 <= i < |PublicPaths| && PublicPaths[i] == pathname
  }

  datatype Decision = Redirect(pathname: string) | PassThrough

  /** The decision of `updateSession` for a request to `pathname`. */
  function UpdateSession(signedIn: bool, pathname: string): (r: Decision)
    ensures !signedIn && !IsPublicPath(pathname) ==> r == Redirect("/")
    ensures signedIn && pathname == "/" ==> r == Redirect("/dashboard")
    ensures r == PassThrough <==> (signedIn && pathname != "/") || (!signedIn && IsPublicPath(pathname))
  {
    if !signedIn && !IsPublicPath(pathname) then Redirect("/")
    else if signedIn && pathname == "/" then Redirect("/dashboard")
    else PassThrough
  }

  /** The public paths are exactly the three listed, compared by equality (no prefixes). */
  lemma PublicPathsExactly(pathname: string)
    ensures IsPublicPath(pathname) <==> pathname == "/" || pathname == "/auth/callback" || pathname == "/auth/login"
  {
    if pathname == "/" {
      assert PublicPaths[0] == pathname;
    } else if pathname == "/auth/callback" {
      assert PublicPaths[1] == pathname;
    } else if pathname == "/auth/login" {
      assert PublicPaths[2] == pathname;
    }
  }

  /** A redirect never leads to another redirect for the same visitor. */
  lemma RedirectSettles(signedIn: bool, pathname: string)
    requires UpdateSession(signedIn, pathname).Redirect?
    ensures UpdateSession(signedIn, UpdateSession(signedIn, pathname).pathname) == PassThrough
  {
    if !signedIn {
      PublicPathsExactly("/");
    }
  }

  /** A signed-in user may still open the login page. */
  lemma SignedInSeesLogin()
    ensures UpdateSession(true, "/auth/login") == PassThrough
  {
  }
}
