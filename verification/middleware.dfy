/** The route gate that runs before every matched request. It reads only the
    `accessToken` cookie of the request, never client storage, and performs
    no validity or expiry check on the token. */
module Middleware {
  import opened Wrappers
  import Strings

  datatype Decision = Pass | Redirect(target: string)

  /** The decision of `middleware(request)` for a request to `path` carrying
      the cookie value `token`. */
  function Gate(path: string, token: Option<string>): (d: Decision)
    ensures d == Redirect("/") <==> path == "/login" && Strings.Truthy(token)
    ensures d == Redirect("/login") <==> path != "/login" && !("/api/" <= path) && !Strings.Truthy(token)
    ensures d.Redirect? ==> d.target in {"/", "/login"}
  {
    if path == "/login" || "/api/" <= path then
      if Strings.Truthy(token) && path == "/login" then Redirect("/") else Pass
    else if !Strings.Truthy(token) then Redirect("/login")
    else Pass
  }

  /** The image extensions the matcher leaves to the static file server. */
  const ImageExtensions: seq<string> := ["svg", "png", "jpg", "jpeg", "gif", "webp"]

  /** The negative lookahead of the matcher, applied to the path after its
      leading `/`. The `.` in `favicon.ico` is a regular-expression wildcard,
      so any one character may stand between `favicon` and `ico`. */
  predicate Excluded(rest: string) {
    || "_next/static" <= rest
    || "_next/image" <= rest
    || (|rest| >= 11 && rest[..7] == "favicon" && rest[8..11] == "ico")
    || exists k :: 0 <= k < |ImageExtensions| && Strings.EndsWith(rest, "." + ImageExtensions[k])
  }

  /** A path the matcher's `favicon.ico` alternative excludes: `/favicon`,
      any one character, then `ico`, followed by anything. This takes in
      `/favicon.ico` and also `/favicon.ico/x` or `/faviconXico`. */
  predicate FaviconLike(path: string) {
    |path| >= 12 && path[..8] == "/favicon" && path[9..12] == "ico"
  }

  /** The favicon test on a path is the lookahead's test on the rest of it. */
  lemma FaviconRest(path: string)
    requires FaviconLike(path)
    ensures path[1..][..7] == "favicon" && path[1..][8..11] == "ico"
  {
    var rest := path[1..];
    forall i | 0 <= i < 7
      ensures rest[..7][i] == "favicon"[i]
    {
      assert rest[i] == path[..8][i + 1];
    }
    forall i | 0 <= i < 3
      ensures rest[8..11][i] == "ico"[i]
    {
      assert rest[8 + i] == path[9..12][i];
    }
  }

  /** `config.matcher`: every path that starts with `/` and is not excluded. */
  predicate Matched(path: string)
    ensures Matched(path) ==> |path| >= 1 && path[0] == '/'
    ensures Matched(path) ==> !("/_next/static" <= path) && !("/_next/image" <= path)
    ensures Matched(path) ==> !FaviconLike(path)
  {
    if |path| >= 1 && path[0] == '/' then
      var rest := path[1..];
      assert "/_next/static" <= path ==> "_next/static" <= rest;
      assert "/_next/image" <= path ==> "_next/image" <= rest;
      assert FaviconLike(path) ==> rest[..7] == "favicon" && rest[8..11] == "ico" by {
        if FaviconLike(path) {
          FaviconRest(path);
        }
      }
      !Excluded(rest)
    else false
  }

  /** What the application does with a request: unmatched paths are served
      without consulting the gate. */
  function Route(path: string, token: Option<string>): (d: Decision)
    ensures !Matched(path) ==> d == Pass
    ensures Matched(path) ==> d == Gate(path, token)
    ensures d.Redirect? ==> Matched(path) && d.target in {"/", "/login"}
  {
    if Matched(path) then Gate(path, token) else Pass
  }

  /** A path remainder without a dot is never an image file. */
  lemma NoDotNoImage(rest: string)
    requires '.' !in rest
    ensures forall k :: 0 <= k < |ImageExtensions| ==> !Strings.EndsWith(rest, "." + ImageExtensions[k])
  {
    forall k | 0 <= k < |ImageExtensions|
      ensures !Strings.EndsWith(rest, "." + ImageExtensions[k])
    {
      var ext := "." + ImageExtensions[k];
      if |ext| <= |rest| {
        assert rest[|rest| - |ext|] in rest;
        assert rest[|rest| - |ext|..][0] == rest[|rest| - |ext|];
      }
    }
  }

  /** Requests for the login page with a token are sent home. */
  lemma LoginWithTokenGoesHome(token: Option<string>)
    requires Strings.Truthy(token)
    ensures Route("/login", token) == Redirect("/")
  {
    NoDotNoImage("login");
  }

  /** The login page without a token, and every `/api/` path, are let through. */
  lemma OpenPaths(path: string, token: Option<string>)
    requires (path == "/login" && !Strings.Truthy(token)) || "/api/" <= path
    ensures Gate(path, token) == Pass
  {
    if "/api/" <= path {
      assert path[1] == 'a';
    }
  }

  /** The gate decides on the cookie alone: any other path redirects to the
      login page exactly when there is no token, and passes otherwise,
      whatever the token's contents. */
  lemma ProtectedPaths(path: string, token: Option<string>)
    requires path != "/login" && !("/api/" <= path)
    ensures Gate(path, token) == (if Strings.Truthy(token) then Pass else Redirect("/login"))
  {
  }

  /** An empty cookie value, as left behind by clearing, counts as no token. */
  lemma EmptyCookieIsNoToken(path: string)
    ensures Route(path, Some("")) == Route(path, None)
  {
  }

  /** The gate only ever redirects to `/` or `/login`. */
  lemma RedirectTargets(path: string, token: Option<string>)
    ensures Route(path, token).Redirect? ==> Route(path, token).target in {"/", "/login"}
  {
  }

  /** No redirect loop: with the same cookie, the target of a redirect is
      always let through. */
  lemma NoRedirectLoop(path: string, token: Option<string>)
    ensures Route(path, token).Redirect? ==> Route(Route(path, token).target, token) == Pass
  {
    NoDotNoImage("");
    NoDotNoImage("login");
  }

  /** Paths under `/_next/static` or `/_next/image`, every path the favicon
      alternative takes in (`/favicon.ico` and lookalikes such as
      `/favicon.ico/x` or `/faviconXico`), and image files are never gated,
      whatever the cookie. */
  lemma StaticAssetsBypass(path: string, token: Option<string>)
    requires |path| >= 1 && path[0] == '/'
    requires || "/_next/static" <= path || "/_next/image" <= path || FaviconLike(path)
             || exists k :: 0 <= k < |ImageExtensions| && Strings.EndsWith(path, "." + ImageExtensions[k])
    ensures Route(path, token) == Pass
  {
    var rest := path[1..];
    assert Excluded(rest) by {
      if "/_next/static" <= path {
        assert "_next/static" <= rest;
      } else if "/_next/image" <= path {
        assert "_next/image" <= rest;
      } else if FaviconLike(path) {
        FaviconRest(path);
      } else {
        var k :| 0 <= k < |ImageExtensions| && Strings.EndsWith(path, "." + ImageExtensions[k]);
        ImageRest(path, "." + ImageExtensions[k]);
      }
    }
  }

  /** The favicon alternative lets lookalike paths through ungated too. */
  lemma FaviconLookalikesBypass(token: Option<string>)
    ensures Route("/favicon.ico/x", token) == Pass
    ensures Route("/faviconXico", token) == Pass
  {
    StaticAssetsBypass("/favicon.ico/x", token);
    StaticAssetsBypass("/faviconXico", token);
  }

  /** An extension (which starts with `.`) ending the path also ends the path
      after its leading `/`. */
  lemma ImageRest(path: string, ext: string)
    requires |path| >= 1 && path[0] == '/' && |ext| >= 1 && ext[0] == '.'
    requires Strings.EndsWith(path, ext)
    ensures Strings.EndsWith(path[1..], ext)
  {
    assert path[|path| - |ext|] == '.';
    assert path[1..][|path| - 1 - |ext|..] == path[|path| - |ext|..];
  }

  /** The application's pages are gated: without a token they redirect to
      the login page, with one they are served. */
  lemma PagesAreGated(path: string, token: Option<string>)
    requires path in {"/", "/users", "/products"}
    ensures Route(path, token) == (if Strings.Truthy(token) then Pass else Redirect("/login"))
  {
    NoDotNoImage(path[1..]);
    assert path == "/" || path[1] != "/api/"[1];
    assert path == "/" || path[1] != "/login"[1];
  }

  /** A request for `/users` without a cookie goes to the login page; the
      login page with a cookie goes home; `/users/5` with a cookie is served. */
  lemma GateScenario()
    ensures Route("/users", None) == Redirect("/login")
    ensures Route("/login", Some("tok-123")) == Redirect("/")
    ensures Route("/users/5", Some("tok-123")) == Pass
  {
    PagesAreGated("/users", None);
    LoginWithTokenGoesHome(Some("tok-123"));
    NoDotNoImage("users/5");
    assert "/users/5"[1] != "/login"[1];
  }
}
