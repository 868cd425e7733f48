/** The root layout around every page: the signed-in user and the header
    navigation (app/routes/Layout.tsx). */
module RootLayout {
  import opened Common
  import opened JsString
  import opened JsNumber
  import opened Forms
  import opened Store
  import opened Links

  /** `loader`: the session user's `{id, name}`, looked up only when the
      session's `user` is truthy; a missing row gives no user. */
  function Loader(users: seq<User>, sessionUser: Option<int>): (r: Option<Viewer>)
    ensures !Truthy(sessionUser) ==> r.None?
    ensures Truthy(sessionUser) ==> (r.Some? <==> exists u :: u in users && u.id == sessionUser.value)
    ensures r.Some? ==> exists u :: u in users && u.id == sessionUser.value && r.value == Viewer(u.id, u.name)
  {
    if !Truthy(sessionUser) then None
    else
      match FindUser(users, sessionUser.value)
      case None => None
      case Some(u) => Some(Viewer(u.id, u.name))
  }

  /** The Home link's rule: the global feed, the personal feed, or the feed
      of the tag in the route parameters. */
  predicate HomeActive(pathname: string, tag: Option<string>) {
    pathname == "/" || pathname == "/your-feed" || (tag.Some? && pathname == "/" + tag.value)
  }

  /** `/profile/${user?.id}`. */
  function ProfilePath(user: Option<Viewer>): string {
    "/profile/" + IdText(user)
  }

  /** The profile link's rule as written: the pathname starts with the
      profile path, so `/profile/12` also counts as user 1's profile. */
  predicate ProfileActiveAsWritten(pathname: string, user: Option<Viewer>) {
    StartsWith(pathname, ProfilePath(user))
  }

  /** The profile link's rule as intended: the profile page itself or one of
      its sub-pages. */
  predicate ProfileActive(pathname: string, user: Option<Viewer>) {
    pathname == ProfilePath(user) || StartsWith(pathname, ProfilePath(user) + "/")
  }

  /** The `links` array, in its order, with the profile link's rule as
      written (ProfileActive is the rule as intended). */
  function NavLinks(user: Option<Viewer>, pathname: string, tag: Option<string>): seq<NavLink> {
    [ NavLink("/", "Home", HomeActive(pathname, tag), false),
      NavLink("/login", "Sign In", pathname == "/login", user.Some?),
      NavLink("/register", "Sign Up", pathname == "/register", user.Some?),
      NavLink("/editor", "New Post", pathname == "/editor", user.None?),
      NavLink("/settings", "Settings", pathname == "/settings", user.None?),
      NavLink(ProfilePath(user), if user.Some? then user.value.name else "", ProfileActiveAsWritten(pathname, user), user.None?) ]
  }

  /** Signed out, the header shows Home, Sign In and Sign Up, in that order. */
  lemma SignedOutLinks(pathname: string, tag: Option<string>)
    ensures Visible(NavLinks(None, pathname, tag)) ==
      [ NavLink("/", "Home", HomeActive(pathname, tag), false),
        NavLink("/login", "Sign In", pathname == "/login", false),
        NavLink("/register", "Sign Up", pathname == "/register", false) ]
  {
    var links := NavLinks(None, pathname, tag);
    ShownOfSix(links);
    VisibleOne(links[0]); VisibleOne(links[1]); VisibleOne(links[2]);
    VisibleOne(links[3]); VisibleOne(links[4]); VisibleOne(links[5]);
  }

  /** Signed in, the header shows Home, New Post, Settings and the user's
      own profile link captioned with their name, in that order. */
  lemma SignedInLinks(v: Viewer, pathname: string, tag: Option<string>)
    ensures Visible(NavLinks(Some(v), pathname, tag)) ==
      [ NavLink("/", "Home", HomeActive(pathname, tag), false),
        NavLink("/editor", "New Post", pathname == "/editor", false),
        NavLink("/settings", "Settings", pathname == "/settings", false),
        NavLink("/profile/" + IntToString(v.id), v.name, ProfileActiveAsWritten(pathname, Some(v)), false) ]
  {
    var links := NavLinks(Some(v), pathname, tag);
    var profile := NavLink("/profile/" + IntToString(v.id), v.name, ProfileActiveAsWritten(pathname, Some(v)), false);
    assert links[5] == profile;
    ShownOfSix(links);
    VisibleOne(links[0]); VisibleOne(links[1]); VisibleOne(links[2]);
    VisibleOne(links[3]); VisibleOne(links[4]); VisibleOne(profile);
  }

  /** The shown links of a six-element list, link by link. */
  lemma ShownOfSix(links: seq<NavLink>)
    requires |links| == 6
    ensures Visible(links) == Visible([links[0]]) + (Visible([links[1]]) + (Visible([links[2]]) +
                              (Visible([links[3]]) + (Visible([links[4]]) + Visible([links[5]])))))
  {
    ShownOfThree(links[3..]);
    ShownOfThree(links[..3]);
    assert links == links[..3] + links[3..];
    VisibleConcat(links[..3], links[3..]);
  }

  lemma ShownOfThree(links: seq<NavLink>)
    requires |links| == 3
    ensures Visible(links) == Visible([links[0]]) + (Visible([links[1]]) + Visible([links[2]]))
  {
    VisibleCons(links[2], []);
    assert [links[2]] + [] == links[2..];
    VisibleCons(links[1], links[2..]);
    assert [links[1]] + links[2..] == links[1..];
    VisibleCons(links[0], links[1..]);
    assert [links[0]] + links[1..] == links;
    assert Visible([]) == [];
  }

  /** The rule as written activates user 1's profile link in the header on
      user 12's profile page; the intended rule does not. */
  lemma ProfileActiveAsWrittenOvermatches(name: string)
    ensures ProfileActiveAsWritten("/profile/12", Some(Viewer(1, name)))
    ensures NavLinks(Some(Viewer(1, name)), "/profile/12", None)[5].active
    ensures !ProfileActive("/profile/12", Some(Viewer(1, name)))
  {
    assert IntToString(1) == "1";
    assert IntToString(12) == "12" by {
      assert NatToString(12) == NatToString(1) + [DigitChar(2)];
    }
    assert ("/profile/12")[..|"/profile/1"|] == "/profile/1";
    assert ("/profile/12")[10] != ("/profile/1" + "/")[10];
  }

  /** On the profile page of user `b`, or any of its sub-pages, the intended
      rule activates the link of user `a` exactly when `a` is `b`. */
  lemma ProfileActiveExact(a: int, name: string, b: int, suffix: string)
    requires suffix == "" || suffix[0] == '/'
    ensures ProfileActive("/profile/" + IntToString(b) + suffix, Some(Viewer(a, name))) <==> a == b
  {
    var p, sa, sb := "/profile/", IntToString(a), IntToString(b);
    var path := p + sb + suffix;
    assert path == p + (sb + suffix);
    if a == b && suffix != "" {
      assert path[..|p + sa + "/"|] == p + sa + "/";
    }
    if ProfileActive(path, Some(Viewer(a, name))) {
      if path == p + sa {
        assert (p + (sb + suffix))[|p|..] == sb + suffix;
        DigitsThenPath(sa, sb, suffix);
      } else {
        DefinedPrefix(p, sb + suffix, sa + "/");
        SlashAfterDigits(sa, sb, suffix);
      }
      IntToStringInjective(a, b);
    }
  }

  /** A common prefix can be dropped from both sides of `startsWith`. */
  lemma DefinedPrefix(p: string, x: string, y: string)
    requires StartsWith(p + x, p + y)
    ensures StartsWith(x, y)
  {
    assert (p + x)[..|p + y|][|p|..] == x[..|y|];
  }

  /** A decimal number followed by a path that is empty or begins with `/`
      equals another decimal number only if the path is empty and the
      numbers are written the same. */
  lemma DigitsThenPath(sa: string, sb: string, suffix: string)
    requires forall i :: 0 <= i < |sa| ==> sa[i] != '/'
    requires suffix == "" || suffix[0] == '/'
    requires sb + suffix == sa
    ensures sa == sb
  {
    ConcatAt(sb, suffix, 0);
    assert suffix == "";
    assert sb + suffix == sb;
  }

  /** Two decimal numbers, the second followed by a path that is empty or
      begins with `/`: if the path starts with the first number and a `/`,
      the numbers are written the same. */
  lemma SlashAfterDigits(sa: string, sb: string, suffix: string)
    requires forall i :: 0 <= i < |sa| ==> sa[i] != '/'
    requires forall i :: 0 <= i < |sb| ==> sb[i] != '/'
    requires suffix == "" || suffix[0] == '/'
    requires StartsWith(sb + suffix, sa + "/")
    ensures sa == sb
  {
    var x := sb + suffix;
    PrefixAt(x, sa + "/", |sa|);
    LeftAt(sb, suffix, |sa|);
    PrefixAt(x, sa + "/", |sb|);
    LeftAt(sa, "/", |sb|);
    ConcatAt(sb, suffix, 0);
    assert |sa| == |sb|;
    assert sa == (sa + "/")[..|sa|] == x[..|sa|] == sb;
  }

  lemma ConcatAt(a: string, b: string, k: int)
    ensures 0 <= k < |b| ==> (a + b)[|a| + k] == b[k]
  {
  }

  lemma LeftAt(a: string, b: string, k: int)
    ensures 0 <= k < |a| ==> (a + b)[k] == a[k]
  {
  }

  lemma PrefixAt(x: string, p: string, k: int)
    ensures StartsWith(x, p) && 0 <= k < |p| ==> x[k] == p[k]
  {
    if StartsWith(x, p) && 0 <= k < |p| {
      assert x[..|p|][k] == x[k];
    }
  }
}
