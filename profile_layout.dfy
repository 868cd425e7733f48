/** The layout of a user's profile page: its `loader` and the flags and
    tabs the page derives from it (app/routes/Profile/Layout.tsx). */
module ProfileLayout {
  import opened Common
  import opened JsNumber
  import opened Forms
  import opened Store
  import opened Links
  import opened Seqs
  import FollowingRoute

  /** The `followers` relation of user `id`, `select: {followerId}`: the
      follower of every Follow row that points at `id`, in table order. */
  function FollowersOf(follows: seq<Follow>, id: int): (r: seq<int>)
    ensures forall u :: u in r <==> Follow(u, id) in follows
  {
    if follows == [] then []
    else
      assert follows == [follows[0]] + follows[1..];
      (if follows[0].followingId == id then [follows[0].followerId] else []) + FollowersOf(follows[1..], id)
  }

  /** The signed-in user as this loader selects them: `{id, name, followers}`. */
  datatype ProfileViewer = ProfileViewer(id: int, name: string, followers: seq<int>)

  /** The profile shown: `{id, name, email, image, followers}`. */
  datatype Profile = Profile(id: int, name: string, email: string, image: Option<string>, followers: seq<int>)

  datatype ProfilePage = ProfilePage(user: Option<ProfileViewer>, profile: Profile)

  function ViewerOf(u: User, follows: seq<Follow>): ProfileViewer {
    ProfileViewer(u.id, u.name, FollowersOf(follows, u.id))
  }

  function ProfileOf(u: User, follows: seq<Follow>): Profile {
    Profile(u.id, u.name, u.email, u.image, FollowersOf(follows, u.id))
  }

  /** `loader`: the `id` route parameter through parseInt, 404 when that is
      NaN (before the store is read); then the viewer, only for a truthy
      session user, and the profile, 404 when no user has the id. */
  function Loader(users: seq<User>, follows: seq<Follow>, sessionUser: Option<int>, idParam: string)
    : (r: LoaderResult<ProfilePage>)
    ensures ParseInt(idParam).None? ==> r == Throws(NotFoundPage)
    ensures ParseInt(idParam).Some? ==>
      (r.Throws? <==> forall u :: u in users ==> u.id != ParseInt(idParam).value)
    ensures r.Throws? ==> r.reply == NotFoundPage
    ensures r.Data? ==>
      && r.value.profile.id == ParseInt(idParam).value
      && (exists u :: u in users && r.value.profile == ProfileOf(u, follows))
      && (forall x :: x in r.value.profile.followers <==> Follow(x, r.value.profile.id) in follows)
      && (!Truthy(sessionUser) ==> r.value.user.None?)
      && (Truthy(sessionUser) ==> (r.value.user.Some? <==> exists u :: u in users && u.id == sessionUser.value))
      && (r.value.user.Some? ==> r.value.user.value.id == sessionUser.value)
      && (r.value.user.Some? ==>
            forall x :: x in r.value.user.value.followers <==> Follow(x, sessionUser.value) in follows)
  {
    match ParseInt(idParam)
    case None => Throws(NotFoundPage)
    case Some(id) =>
      var viewer := if Truthy(sessionUser) then FindUser(users, sessionUser.value) else None;
      match FindUser(users, id)
      case None => Throws(NotFoundPage)
      case Some(p) =>
        Data(ProfilePage(if viewer.Some? then Some(ViewerOf(viewer.value, follows)) else None,
                         ProfileOf(p, follows)))
  }

  /** `following` as written: whether the viewer's OWN followers include
      the viewer, that is whether the viewer follows themselves. */
  predicate FollowingAsWritten(page: ProfilePage) {
    page.user.Some? && page.user.value.id in page.user.value.followers
  }

  /** `following` as intended: whether the profile's followers include the
      viewer. */
  predicate Following(page: ProfilePage) {
    page.user.Some? && page.user.value.id in page.profile.followers
  }

  /** `ownProfile`: `user?.id === profile.id`, false without a viewer. */
  predicate OwnProfile(page: ProfilePage) {
    page.user.Some? && page.user.value.id == page.profile.id
  }

  /** What the header offers: the settings link on one's own profile,
      otherwise the follow form, its button label chosen by the `following`
      flag as written. */
  datatype Control = SettingsLink | FollowForm(targetId: int, caption: string)

  function ProfileControl(page: ProfilePage): (c: Control)
    ensures c.SettingsLink? <==> page.user.Some? && page.user.value.id == page.profile.id
    ensures c.FollowForm? ==> c.targetId == page.profile.id
    ensures c.FollowForm? ==> (c.caption == "Unfollow" <==> FollowingAsWritten(page))
    ensures c.FollowForm? ==> (c.caption == "Follow" <==> !FollowingAsWritten(page))
  {
    if OwnProfile(page) then SettingsLink
    else FollowForm(page.profile.id, if FollowingAsWritten(page) then "Unfollow" else "Follow")
  }

  /** The control as intended: the label chosen by the intended flag. */
  function ProfileControlIntended(page: ProfilePage): (c: Control)
    ensures c.SettingsLink? <==> page.user.Some? && page.user.value.id == page.profile.id
    ensures c.FollowForm? ==> c.targetId == page.profile.id
    ensures c.FollowForm? ==> (c.caption == "Unfollow" <==> Following(page))
    ensures c.FollowForm? ==> (c.caption == "Follow" <==> !Following(page))
  {
    if OwnProfile(page) then SettingsLink
    else FollowForm(page.profile.id, if Following(page) then "Unfollow" else "Follow")
  }

  /** Signed out, every profile offers a Follow button. */
  lemma SignedOutSeesFollow(users: seq<User>, follows: seq<Follow>, idParam: string)
    requires Loader(users, follows, None, idParam).Data?
    ensures ProfileControl(Loader(users, follows, None, idParam).value) ==
            FollowForm(ParseInt(idParam).value, "Follow")
  {
  }

  /** With a viewer, the intended flag says whether the Follow table holds
      the row (viewer, profile). */
  lemma FollowingIff(users: seq<User>, follows: seq<Follow>, sessionUser: Option<int>, idParam: string)
    requires Loader(users, follows, sessionUser, idParam).Data?
    ensures var page := Loader(users, follows, sessionUser, idParam).value;
      Following(page) <==> page.user.Some? && Follow(sessionUser.value, page.profile.id) in follows
  {
  }

  /** The flag as written does not depend on whose profile is shown: two
      profiles seen by the same viewer get the same flag. */
  lemma FollowingAsWrittenIgnoresProfile(users: seq<User>, follows: seq<Follow>, sessionUser: Option<int>,
                                         idParam1: string, idParam2: string)
    requires Loader(users, follows, sessionUser, idParam1).Data?
    requires Loader(users, follows, sessionUser, idParam2).Data?
    ensures FollowingAsWritten(Loader(users, follows, sessionUser, idParam1).value) <==>
            FollowingAsWritten(Loader(users, follows, sessionUser, idParam2).value)
  {
  }

  /** User 1 follows user 2 and looks at user 2's profile: the flag as
      written says "not following" and the button reads Follow, while the
      Follow table holds the row (1, 2) and the intended button reads
      Unfollow. */
  lemma FollowingAsWrittenMissesFollow()
    ensures var users := [User(1, "a", "a@x", "h", None, None), User(2, "b", "b@x", "h", None, None)];
      var page := Loader(users, [Follow(1, 2)], Some(1), "2");
      && page.Data?
      && !FollowingAsWritten(page.value)
      && Following(page.value)
      && ProfileControl(page.value) == FollowForm(2, "Follow")
      && ProfileControlIntended(page.value) == FollowForm(2, "Unfollow")
  {
    assert IntToString(2) == "2";
    ParseIntOfIntToString(2, []);
    assert "2" + [] == "2";
    var f := [Follow(1, 2)];
    assert FollowersOf(f, 1) == [] by {
      assert f[1..] == [];
    }
  }

  /** The follow form posts the profile's id, which the follow action
      reads back as the target of the row (viewer, profile). */
  lemma FollowFormTargetsProfile(v: int, profileId: int)
    ensures FollowingRoute.Check(Some(v), "POST", Some(IntToString(profileId)))
            == FollowingRoute.Proceed(Follow(v, profileId))
  {
    assert JsString.IsMethod("POST", "POST") by {
      var u := JsString.ToUpperAscii("POST");
      assert u[0] == 'P' && u[1] == 'O' && u[2] == 'S' && u[3] == 'T';
      assert u == "POST";
    }
    ParseIdFieldOfId(profileId);
  }

  /** Toggling the row (viewer, profile) flips the intended flag the page
      shows afterwards. */
  lemma ToggleFlipsFollowing(users: seq<User>, follows: seq<Follow>, v: int, idParam: string)
    requires Loader(users, follows, Some(v), idParam).Data?
    requires Loader(users, follows, Some(v), idParam).value.user.Some?
    ensures var before := Loader(users, follows, Some(v), idParam).value;
      var after := Loader(users, Toggled(follows, Follow(v, before.profile.id)), Some(v), idParam);
      after.Data? && (Following(after.value) <==> !Following(before))
  {
    var before := Loader(users, follows, Some(v), idParam).value;
    var row := Follow(v, before.profile.id);
    var toggled := Toggled(follows, row);
    var after := Loader(users, toggled, Some(v), idParam);
    assert after.Data? && after.value.profile.id == before.profile.id && after.value.user.Some?;
    assert Following(before) <==> row in follows;
    assert row in toggled <==> row !in follows by {
      if row !in follows { assert row in multiset(toggled); }
    }
    assert Following(after.value) <==> row in toggled;
  }

  /** The two tabs, `/profile/{id}` and `/profile/{id}/favourites`, each
      active when the pathname is exactly its path. */
  function Tabs(page: ProfilePage, pathname: string): seq<NavLink> {
    var base := "/profile/" + IntToString(page.profile.id);
    [ NavLink(base, "Articles", pathname == base, false),
      NavLink(base + "/favourites", "Favourites", pathname == base + "/favourites", false) ]
  }

  /** Both tabs are always shown, and at most one of them is active. */
  lemma TabsActive(page: ProfilePage, pathname: string)
    ensures Visible(Tabs(page, pathname)) == Tabs(page, pathname)
    ensures !(Tabs(page, pathname)[0].active && Tabs(page, pathname)[1].active)
    ensures Tabs(page, pathname)[1].active ==> pathname == Tabs(page, pathname)[0].path + "/favourites"
  {
    var tabs := Tabs(page, pathname);
    FilterAll(tabs, Shown);
    var base := tabs[0].path;
    assert |base + "/favourites"| > |base|;
  }
}
