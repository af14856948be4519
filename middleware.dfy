/**
 * The edge middleware that routes every matched request by the `user-app`
 * cookie: the administration area, the user dashboard and the redirects
 * that send each kind of visitor to their home.
 */
module Middleware {
  import opened Wrappers
  import opened Text
  import opened JsValues

  const CookieName := "user-app"
  const AdminHome := "/admin1208"
  const AdminArea := "/admin1208/"
  const SignIn := "/auth/sign-in"
  const DashboardHome := "/dashboard"

  /**
   * What the middleware answers: pass the request on, redirect it, or fail
   * because the cookie parsed to `null` and reading `user.id` throws.
   */
  datatype Decision = Next | Redirect(location: string) | TypeError

  /** The text handed to `JSON.parse`: the cookie's value, `"{}"` when the cookie is missing or empty. */
  function CookieText(value: Option<string>): (text: string)
    ensures text != ""
    ensures value.None? || value.value == "" ==> text == "{}"
    ensures value.Some? && value.value != "" ==> text == value.value
  {
    match value
    case None => "{}"
    case Some(v) => if v == "" then "{}" else v
  }

  /** A value `JSON.parse` can produce at the top of the cookie or as one of its fields. */
  predicate JsonScalarOrComposite(v: JsValue)
  {
    !v.Undefined? && !v.NumberOf? && !v.DateObj?
  }

  /** The shape of `JSON.parse`'s result, as far as the middleware looks into it. */
  ghost predicate ParsedCookie(user: JsValue)
  {
    && JsonScalarOrComposite(user)
    && (user.Object? ==>
          DistinctKeys(user.entries) && forall i :: 0 <= i < |user.entries| ==> JsonScalarOrComposite(user.entries[i].1))
  }

  /** JavaScript truthiness (`!!v`) of a value read from the cookie. */
  predicate Truthy(v: JsValue)
    requires !v.NumberOf?
  {
    match v
    case Undefined => false
    case Null => false
    case Bool(b) => b
    case Num(n) => n != 0
    case Str(s) => s != ""
    case DateObj(_) => true
    case Object(_) => true
    case Array(_) => true
  }

  /** `user.key`: `None` when the access throws (on `null` or `undefined`). */
  function Prop(user: JsValue, key: string): (r: Option<JsValue>)
    requires ParsedCookie(user)
    ensures r.None? <==> user.Null? || user.Undefined?
    ensures r.Some? ==> !r.value.NumberOf?
    ensures user.Object? && key !in Keys(user.entries) ==> r == Some(Undefined)
  {
    match user
    case Null => None
    case Undefined => None
    case Object(es) =>
      FieldFromJson(es, key);
      Some(Get(es, key))
    case _ => Some(Undefined)
  }

  /** A field read from parsed JSON is a JSON value, or `undefined` when absent. */
  lemma {:induction false} FieldFromJson(es: Entries, key: string)
    requires forall i :: 0 <= i < |es| ==> JsonScalarOrComposite(es[i].1)
    ensures !Get(es, key).NumberOf?
  {
    if es != [] && es[0].0 != key {
      FieldFromJson(es[1..], key);
    }
  }

  /** The cookie identifies a user: `user.id` is truthy. */
  predicate SignedIn(user: JsValue)
    requires ParsedCookie(user)
  {
    var id := Prop(user, "id");
    id.Some? && Truthy(id.value)
  }

  predicate HasRole(user: JsValue, role: string)
    requires ParsedCookie(user)
  {
    Prop(user, "role") == Some(Str(role))
  }

  /** The guard of one of the four rules holds: the admin area, the dashboard, a stray ADMIN, a stray USER. */
  predicate SomeRuleFires(pathname: string, user: JsValue)
    requires ParsedCookie(user)
  {
    || (StartsWith(pathname, AdminArea) && !(SignedIn(user) && HasRole(user, "ADMIN")))
    || (StartsWith(pathname, DashboardHome) && !SignedIn(user))
    || (!StartsWith(pathname, AdminHome) && SignedIn(user) && HasRole(user, "ADMIN"))
    || (!StartsWith(pathname, DashboardHome) && SignedIn(user) && HasRole(user, "USER"))
  }

  /**
   * `middleware(request)` once the cookie is parsed: the four rules in order,
   * the first that fires redirects. Every path reads `user.id` before
   * deciding, so a cookie parsing to `null` throws whatever the path.
   */
  function Decide(pathname: string, user: JsValue): (d: Decision)
    requires ParsedCookie(user)
    ensures d.TypeError? <==> user.Null?
    ensures d.Redirect? ==> d.location in {AdminHome, SignIn, DashboardHome}
    ensures d == Next && StartsWith(pathname, AdminArea) ==> SignedIn(user) && HasRole(user, "ADMIN")
    ensures d == Next && StartsWith(pathname, DashboardHome) ==> SignedIn(user)
    ensures d == Next && SignedIn(user) && HasRole(user, "ADMIN") ==> StartsWith(pathname, AdminHome)
    ensures d == Next && SignedIn(user) && HasRole(user, "USER") ==> StartsWith(pathname, DashboardHome)
    ensures StartsWith(pathname, AdminArea) && !user.Null? && !(SignedIn(user) && HasRole(user, "ADMIN")) ==>
      d == Redirect(AdminHome)
    ensures StartsWith(pathname, DashboardHome) && !StartsWith(pathname, AdminArea) && !user.Null? && !SignedIn(user) ==>
      d == Redirect(SignIn)
    ensures !StartsWith(pathname, AdminHome) && SignedIn(user) && HasRole(user, "ADMIN") ==> d == Redirect(AdminHome)
    ensures !StartsWith(pathname, AdminArea) && !StartsWith(pathname, DashboardHome) && SignedIn(user) && HasRole(user, "USER") ==>
      d == Redirect(DashboardHome)
    ensures d == Next <==> !user.Null? && !SomeRuleFires(pathname, user)
  {
    if user.Null? then TypeError
    else if StartsWith(pathname, AdminArea) && !(SignedIn(user) && HasRole(user, "ADMIN")) then Redirect(AdminHome)
    else if StartsWith(pathname, DashboardHome) && !SignedIn(user) then Redirect(SignIn)
    else if !StartsWith(pathname, AdminHome) && SignedIn(user) && HasRole(user, "ADMIN") then Redirect(AdminHome)
    else if !StartsWith(pathname, DashboardHome) && SignedIn(user) && HasRole(user, "USER") then Redirect(DashboardHome)
    else Next
  }

  /**
   * Nothing authenticates the cookie: any request carrying a hand-written
   * `{"id": <truthy>, "role": "ADMIN"}` is let into the administration area.
   */
  lemma ForgedAdminCookieAdmitted(pathname: string, id: JsValue)
    requires JsonScalarOrComposite(id) && Truthy(id)
    requires StartsWith(pathname, AdminArea)
    ensures Decide(pathname, Object([("id", id), ("role", Str("ADMIN"))])) == Next
  {
    var user := Object([("id", id), ("role", Str("ADMIN"))]);
    assert Keys(user.entries) == ["id", "role"];
    assert Prop(user, "id") == Some(id);
    GetEntry(user.entries, "role", 1);
    assert Prop(user, "role") == Some(Str("ADMIN"));
    assert StartsWith(pathname, AdminHome) by {
      assert pathname[..|AdminHome|] == AdminArea[..|AdminHome|];
    }
  }

  /** A signed-in "USER" browses the whole dashboard, `/dashboard/settings` included, without a redirect. */
  lemma SignedInUserKeepsDashboard(pathname: string, user: JsValue)
    requires ParsedCookie(user) && SignedIn(user) && HasRole(user, "USER")
    requires StartsWith(pathname, DashboardHome)
    ensures Decide(pathname, user) == Next
  {
    assert pathname[1] == DashboardHome[1] != AdminArea[1];
    assert !HasRole(user, "ADMIN");
  }

  /**
   * A visitor without a cookie, or with an empty one: `JSON.parse` reads
   * `"{}"`, and then the administration area sends them to its login page,
   * the dashboard to the sign-in page, and anything else passes.
   */
  lemma AnonymousVisitor(cookie: Option<string>, pathname: string)
    requires cookie.None? || cookie.value == ""
    ensures CookieText(cookie) == "{}"
    ensures var d := Decide(pathname, Object([]));
      && (StartsWith(pathname, AdminArea) ==> d == Redirect(AdminHome))
      && (StartsWith(pathname, DashboardHome) ==> d == Redirect(SignIn))
      && (!StartsWith(pathname, AdminArea) && !StartsWith(pathname, DashboardHome) ==> d == Next)
  {
    assert !SignedIn(Object([]));
    if StartsWith(pathname, DashboardHome) {
      assert pathname[1] == 'd' != AdminArea[1];
    }
  }

  /**
   * Following a redirect never loops: the page it points to is passed on,
   * or, for a signed-in "USER" sent to the administration login, redirects
   * once more to a page that is passed on.
   */
  lemma RedirectsSettle(pathname: string, user: JsValue)
    requires ParsedCookie(user)
    requires Decide(pathname, user).Redirect?
    ensures var first := Decide(Decide(pathname, user).location, user);
      || first == Next
      || (SignedIn(user) && HasRole(user, "USER") && first == Redirect(DashboardHome)
          && Decide(DashboardHome, user) == Next)
    ensures !(SignedIn(user) && HasRole(user, "USER")) ==> Decide(Decide(pathname, user).location, user) == Next
  {
    AtAdminHome(user);
    AtSignIn(user);
    AtDashboardHome(user);
  }

  /** The administration login page: only a signed-in "USER" is sent away, to the dashboard. */
  lemma AtAdminHome(user: JsValue)
    requires ParsedCookie(user) && !user.Null?
    ensures Decide(AdminHome, user) == if SignedIn(user) && HasRole(user, "USER") then Redirect(DashboardHome) else Next
  {
    assert StartsWith(AdminHome, AdminHome) && !StartsWith(AdminHome, AdminArea);
    assert AdminHome[1] != DashboardHome[1];
  }

  /** The sign-in page: signed-in users are sent to their home. */
  lemma AtSignIn(user: JsValue)
    requires ParsedCookie(user) && !user.Null?
    ensures Decide(SignIn, user) ==
      if SignedIn(user) && HasRole(user, "ADMIN") then Redirect(AdminHome)
      else if SignedIn(user) && HasRole(user, "USER") then Redirect(DashboardHome)
      else Next
  {
    assert SignIn[2] != AdminArea[2] && SignIn[1] != DashboardHome[1];
  }

  /** The dashboard: visitors go to sign in, an "ADMIN" to the administration area. */
  lemma AtDashboardHome(user: JsValue)
    requires ParsedCookie(user) && !user.Null?
    ensures Decide(DashboardHome, user) ==
      if !SignedIn(user) then Redirect(SignIn)
      else if HasRole(user, "ADMIN") then Redirect(AdminHome)
      else Next
  {
    assert StartsWith(DashboardHome, DashboardHome);
    assert DashboardHome[1] != AdminArea[1];
  }

  /** The sources the matcher's negative lookahead excludes; `.` is the regular-expression wildcard. */
  const Excluded: seq<string> := ["api", "_next/static", "_next/image", "favicon.ico", "sitemap.xml", "robots.txt"]

  predicate LineTerminator(c: char)
  {
    c == '\n' || c == '\r' || c == '\U{2028}' || c == '\U{2029}'
  }

  /** Pattern character `p` matches `c`: `.` matches anything but a line terminator. */
  predicate CharMatches(p: char, c: char)
  {
    if p == '.' then !LineTerminator(c) else p == c
  }

  /** The regular expression `pattern` (literal characters and `.`) matches a prefix of `s`. */
  predicate MatchesPrefix(pattern: string, s: string)
  {
    |pattern| <= |s| && forall i :: 0 <= i < |pattern| ==> CharMatches(pattern[i], s[i])
  }

  /**
   * The route matcher `/((?!api|_next/static|...).*)`: a slash, then text
   * that does not begin with an excluded source, up to the end of the path.
   */
  predicate MatcherApplies(pathname: string)
  {
    && |pathname| >= 1 && pathname[0] == '/'
    && (forall a :: 0 <= a < |Excluded| ==> !MatchesPrefix(Excluded[a], pathname[1..]))
    && SingleLine(pathname)
  }

  /** No line terminator follows the leading slash, so the matcher's `.*` reaches the end of the path. */
  predicate SingleLine(pathname: string)
  {
    forall i :: 1 <= i < |pathname| ==> !LineTerminator(pathname[i])
  }

  /**
   * A request as the framework hands it over: the middleware runs only where
   * the matcher applies. The administration and dashboard pages always reach
   * it; a path that begins with an excluded source never does.
   */
  function Handle(pathname: string, user: JsValue): (d: Decision)
    requires ParsedCookie(user)
    ensures d == Next || d == Decide(pathname, user)
    ensures (StartsWith(pathname, AdminHome) || StartsWith(pathname, DashboardHome)) && SingleLine(pathname) ==>
      d == Decide(pathname, user)
    ensures forall a :: 0 <= a < |Excluded| && StartsWith(pathname, "/" + Excluded[a]) ==> d == Next
  {
    MatcherScope(pathname);
    if MatcherApplies(pathname) then Decide(pathname, user) else Next
  }

  /** A single mismatching character rules a pattern out. */
  lemma MismatchAt(pattern: string, s: string, i: nat)
    requires i < |pattern| && i < |s| && !CharMatches(pattern[i], s[i])
    ensures !MatchesPrefix(pattern, s)
  {
  }

  /**
   * The excluded sources are plain prefixes: a page route such as "/apiary"
   * bypasses the middleware, whatever the cookie says.
   */
  lemma MatcherSkipsApiLookalike(user: JsValue)
    requires ParsedCookie(user)
    ensures !MatcherApplies("/apiary") && Handle("/apiary", user) == Next
  {
    assert "/apiary"[1..] == "apiary";
    assert MatchesPrefix(Excluded[0], "apiary");
  }

  /** The dot in "favicon.ico" is a wildcard: "/favicon-ico" bypasses the middleware too. */
  lemma MatcherDotIsWildcard(user: JsValue)
    requires ParsedCookie(user)
    ensures !MatcherApplies("/favicon-ico") && Handle("/favicon-ico", user) == Next
  {
    assert "/favicon-ico"[1..] == "favicon-ico";
    assert MatchesPrefix(Excluded[3], "favicon-ico");
  }

  /** The administration pages are matched, so the middleware guards them. */
  lemma MatcherGuardsAdminArea()
    ensures MatcherApplies("/admin1208/users")
  {
    var path := "/admin1208/users";
    assert path[..|AdminHome|] == AdminHome;
    forall i | 1 <= i < |path|
      ensures !LineTerminator(path[i])
    {
      assert path[i] in "admin1208/users";
    }
    MatcherCoversProtectedAreas(path);
  }

  /**
   * Every page of the administration area and of the dashboard is matched:
   * no excluded source begins with "a" followed by "d", or with "d".
   */
  lemma MatcherCoversProtectedAreas(pathname: string)
    requires StartsWith(pathname, AdminHome) || StartsWith(pathname, DashboardHome)
    requires SingleLine(pathname)
    ensures MatcherApplies(pathname)
  {
    var rest := pathname[1..];
    if StartsWith(pathname, AdminHome) {
      assert pathname[..|AdminHome|] == AdminHome;
      assert rest[0] == pathname[1] == AdminHome[1] == 'a';
      assert rest[1] == pathname[2] == AdminHome[2] == 'd';
    } else {
      assert pathname[..|DashboardHome|] == DashboardHome;
      assert rest[0] == pathname[1] == DashboardHome[1] == 'd';
    }
    forall a | 0 <= a < |Excluded|
      ensures !MatchesPrefix(Excluded[a], rest)
    {
      if a == 0 && rest[0] == 'a' {
        MismatchAt(Excluded[0], rest, 1);
      } else {
        MismatchAt(Excluded[a], rest, 0);
      }
    }
  }

  /** A path that begins with "/" and an excluded source, followed by anything, is skipped. */
  lemma MatcherSkipsExcluded(pathname: string, a: nat)
    requires a < |Excluded| && StartsWith(pathname, "/" + Excluded[a])
    ensures !MatcherApplies(pathname)
  {
    var e := Excluded[a];
    assert pathname[..|e| + 1] == "/" + e;
    forall i | 0 <= i < |e|
      ensures CharMatches(e[i], pathname[1..][i])
    {
      assert pathname[1..][i] == ("/" + e)[i + 1] == e[i];
      assert !LineTerminator(e[i]) by {
        assert e[i] in e;
      }
    }
    assert MatchesPrefix(e, pathname[1..]);
  }

  /** Where the matcher applies, for every path: the two facts above together. */
  lemma MatcherScope(pathname: string)
    ensures (StartsWith(pathname, AdminHome) || StartsWith(pathname, DashboardHome)) && SingleLine(pathname) ==>
      MatcherApplies(pathname)
    ensures forall a :: 0 <= a < |Excluded| && StartsWith(pathname, "/" + Excluded[a]) ==> !MatcherApplies(pathname)
  {
    if (StartsWith(pathname, AdminHome) || StartsWith(pathname, DashboardHome)) && SingleLine(pathname) {
      MatcherCoversProtectedAreas(pathname);
    }
    forall a | 0 <= a < |Excluded| && StartsWith(pathname, "/" + Excluded[a])
      ensures !MatcherApplies(pathname)
    {
      MatcherSkipsExcluded(pathname, a);
    }
  }
}
