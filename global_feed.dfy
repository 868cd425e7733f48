/** The global feed at `/`: query normalisation, the page of posts and the
    per-viewer favourite flag (app/routes/Articles/GlobalFeed.tsx). */
module GlobalFeed {
  import opened Common
  import opened JsNumber
  import opened Seqs
  import opened Store

  /** The `page`/`pageSize` transform: `fallback` for a missing or empty
      parameter, for NaN and for anything below 1; parseInt's value
      otherwise. There is no upper bound. */
  function QueryNumber(v: Option<string>, fallback: int): (n: int)
    requires fallback >= 1
    ensures n >= 1
    ensures v.None? || v.value == "" ==> n == fallback
    ensures v.Some? && ParseInt(v.value).None? ==> n == fallback
    ensures v.Some? && ParseInt(v.value).Some? && ParseInt(v.value).value < 1 ==> n == fallback
    ensures v.Some? && v.value != "" && ParseInt(v.value).Some? && ParseInt(v.value).value >= 1 ==>
      n == ParseInt(v.value).value
  {
    if v.None? || v.value == "" then fallback
    else
      match ParseInt(v.value)
      case None => fallback
      case Some(k) => if k < 1 then fallback else k
  }

  function Page(v: Option<string>): (n: int)
    ensures n >= 1
  {
    QueryNumber(v, 1)
  }

  function PageSize(v: Option<string>): (n: int)
    ensures n >= 1
  {
    QueryNumber(v, 5)
  }

  /** Any page number written in decimal is taken as is. */
  lemma PageOfNumber(n: int)
    requires n >= 1
    ensures Page(Some(IntToString(n))) == n && PageSize(Some(IntToString(n))) == n
  {
    ParseIntOfNumber(n);
  }

  lemma ParseIntOfNumber(n: int)
    ensures ParseInt(IntToString(n)) == Some(n)
  {
    ParseIntOfIntToString(n, []);
    assert IntToString(n) + [] == IntToString(n);
  }

  /** Zero and negative numbers fall back to the defaults. */
  lemma NonPositiveFallsBack(n: int)
    requires n < 1
    ensures Page(Some(IntToString(n))) == 1 && PageSize(Some(IntToString(n))) == 5
  {
    ParseIntOfNumber(n);
  }

  /** The feed's order key: newest first. */
  function PostAge(p: Post): int {
    -p.createdAt
  }

  /** `orderBy: {createdAt: 'desc'}` over all posts. */
  function Newest(posts: seq<Post>): (r: seq<Post>)
    ensures multiset(r) == multiset(posts) && |r| == |posts|
    ensures forall i, j :: 0 <= i < j < |r| ==> r[i].createdAt >= r[j].createdAt
  {
    var r := SortBy(posts, PostAge);
    assert forall i, j :: 0 <= i < j < |r| ==> PostAge(r[i]) <= PostAge(r[j]);
    r
  }

  /** The `userId`s of a post's Favourite rows, in table order. */
  function FavouritersOf(favourites: seq<Favourite>, postId: int): (r: seq<int>)
    ensures forall u :: u in r <==> Favourite(postId, u) in favourites
    ensures |r| <= |favourites|
  {
    if favourites == [] then []
    else
      assert favourites == [favourites[0]] + favourites[1..];
      (if favourites[0].postId == postId then [favourites[0].userId] else []) + FavouritersOf(favourites[1..], postId)
  }

  lemma {:induction false} FavouritersOfConcat(a: seq<Favourite>, b: seq<Favourite>, postId: int)
    ensures FavouritersOf(a + b, postId) == FavouritersOf(a, postId) + FavouritersOf(b, postId)
  {
    if a != [] {
      assert (a + b)[1..] == a[1..] + b;
      FavouritersOfConcat(a[1..], b, postId);
    } else {
      assert a + b == b;
    }
  }

  /** A post of the feed with the user ids of its favourites; the count
      shown is the number of those rows. */
  datatype FeedItem = FeedItem(post: Post, favouritedBy: seq<int>)

  function Count(item: FeedItem): nat {
    |item.favouritedBy|
  }

  datatype FeedPage = FeedPage(items: seq<FeedItem>, page: int, pageSize: int, total: int, user: Option<User>)

  function ItemOf(p: Post, favourites: seq<Favourite>): FeedItem {
    FeedItem(p, FavouritersOf(favourites, p.id))
  }

  /** The page of the feed for normalised `page` and `pageSize`: the posts
      newest first, `pageSize` of them after skipping `pageSize * (page - 1)`. */
  function Paginate(posts: seq<Post>, favourites: seq<Favourite>, page: int, pageSize: int)
    : (items: seq<FeedItem>)
    requires page >= 1 && pageSize >= 1
    ensures |items| == Min(pageSize, Max(0, |posts| - SkipOf(page, pageSize)))
    ensures forall i :: 0 <= i < |items| ==>
      SkipOf(page, pageSize) + i < |posts| &&
      items[i] == ItemOf(Newest(posts)[SkipOf(page, pageSize) + i], favourites)
    ensures forall i, j :: 0 <= i < j < |items| ==> items[i].post.createdAt >= items[j].post.createdAt
    ensures forall i :: 0 <= i < |items| ==> items[i].post in posts
  {
    PageOf(posts, Newest(posts), favourites, SkipOf(page, pageSize), pageSize)
  }

  /** The items for the posts of `sorted`, a newest-first ordering of
      `posts`, from index `skip` on, at most `take` of them. */
  function PageOf(posts: seq<Post>, sorted: seq<Post>, favourites: seq<Favourite>, skip: nat, take: nat)
    : (items: seq<FeedItem>)
    requires multiset(sorted) == multiset(posts) && |sorted| == |posts|
    requires forall i, j :: 0 <= i < j < |sorted| ==> sorted[i].createdAt >= sorted[j].createdAt
    ensures |items| == Min(take, Max(0, |posts| - skip))
    ensures forall i :: 0 <= i < |items| ==> skip + i < |posts| && items[i] == ItemOf(sorted[skip + i], favourites)
    ensures forall i, j :: 0 <= i < j < |items| ==> items[i].post.createdAt >= items[j].post.createdAt
    ensures forall i :: 0 <= i < |items| ==> items[i].post in posts
  {
    var shown := Window(sorted, skip, take);
    WindowFacts(posts, sorted, shown, skip);
    ItemsOf(shown, favourites)
  }

  /** One feed item per post, in the same order. */
  function ItemsOf(shown: seq<Post>, favourites: seq<Favourite>): (items: seq<FeedItem>)
    ensures |items| == |shown|
    ensures forall i :: 0 <= i < |items| ==> items[i] == ItemOf(shown[i], favourites)
    ensures forall i :: 0 <= i < |items| ==> items[i].post == shown[i]
  {
    seq(|shown|, i requires 0 <= i < |shown| => ItemOf(shown[i], favourites))
  }

  /** A window of the newest-first list is newest first and holds posts of the table. */
  lemma WindowFacts(posts: seq<Post>, sorted: seq<Post>, shown: seq<Post>, skip: nat)
    requires multiset(sorted) == multiset(posts)
    requires forall i, j :: 0 <= i < j < |sorted| ==> sorted[i].createdAt >= sorted[j].createdAt
    requires forall i :: 0 <= i < |shown| ==> skip + i < |sorted| && shown[i] == sorted[skip + i]
    ensures forall i, j :: 0 <= i < j < |shown| ==> shown[i].createdAt >= shown[j].createdAt
    ensures forall i :: 0 <= i < |shown| ==> shown[i] in posts
  {
    forall i | 0 <= i < |shown| ensures shown[i] in posts {
      var x := shown[i];
      assert sorted[skip + i] in multiset(sorted);
    }
    forall i, j | 0 <= i < j < |shown| ensures shown[i].createdAt >= shown[j].createdAt {
      var x, y := shown[i], shown[j];
      assert x == sorted[skip + i] && y == sorted[skip + j];
    }
  }

  /** `skip: pageSize * (page - 1)`, never negative for normalised inputs. */
  function SkipOf(page: int, pageSize: int): (skip: nat)
    requires page >= 1 && pageSize >= 1
    ensures skip == pageSize * (page - 1)
    ensures page == 1 ==> skip == 0
  {
    var k: nat := page - 1;
    pageSize * k
  }

  /** `loader`: the normalised page applied to all posts; the total counts
      every post whatever the page; the viewer is looked up whenever the
      session holds a user. */
  function Loader(users: seq<User>, posts: seq<Post>, favourites: seq<Favourite>,
                  sessionUser: Option<int>, pageParam: Option<string>, pageSizeParam: Option<string>)
    : (r: FeedPage)
    ensures r.page == Page(pageParam) && r.pageSize == PageSize(pageSizeParam)
    ensures r.page >= 1 && r.pageSize >= 1
    ensures r.total == |posts|
    ensures r.items == Paginate(posts, favourites, r.page, r.pageSize)
    ensures r.user == if sessionUser.None? then None else FindUser(users, sessionUser.value)
  {
    var page := Page(pageParam);
    var pageSize := PageSize(pageSizeParam);
    FeedPage(
      Paginate(posts, favourites, page, pageSize), page, pageSize, |posts|,
      if sessionUser.None? then None else FindUser(users, sessionUser.value))
  }

  /** Without query parameters the first five posts, newest first, are shown. */
  lemma DefaultPage(posts: seq<Post>, favourites: seq<Favourite>)
    ensures var r := Loader([], posts, favourites, None, None, None);
      r.page == 1 && r.pageSize == 5 && |r.items| == Min(5, |posts|)
      && forall i :: 0 <= i < |r.items| ==> r.items[i].post == Newest(posts)[i]
  {
  }

  /** The heart is filled iff there is a viewer and one of the post's
      favourite rows is theirs. */
  predicate Favourited(user: Option<User>, item: FeedItem) {
    user.Some? && user.value.id in item.favouritedBy
  }

  /** The favourite button is disabled iff nobody is signed in. */
  predicate FavouriteDisabled(user: Option<User>) {
    user.None?
  }

  /** On the loaded page the button is disabled iff the session holds no
      user or no row has the session's user id. */
  lemma DisabledIffNoViewer(users: seq<User>, posts: seq<Post>, favourites: seq<Favourite>,
                            sessionUser: Option<int>, pageParam: Option<string>, pageSizeParam: Option<string>)
    ensures FavouriteDisabled(Loader(users, posts, favourites, sessionUser, pageParam, pageSizeParam).user)
      <==> sessionUser.None? || forall u :: u in users ==> u.id != sessionUser.value
  {
  }

  lemma FavouritedIff(user: Option<User>, p: Post, favourites: seq<Favourite>)
    ensures Favourited(user, ItemOf(p, favourites)) <==> user.Some? && Favourite(p.id, user.value.id) in favourites
  {
  }

  /** The favourite action flips the viewer's heart on that post and no
      other viewer's heart on any post. */
  lemma ToggleFlipsHeart(u: User, p: Post, favourites: seq<Favourite>, other: User, q: Post)
    requires (other.id, q.id) != (u.id, p.id)
    ensures var after := Toggled(favourites, Favourite(p.id, u.id));
      && (Favourited(Some(u), ItemOf(p, after)) <==> !Favourited(Some(u), ItemOf(p, favourites)))
      && (Favourited(Some(other), ItemOf(q, after)) <==> Favourited(Some(other), ItemOf(q, favourites)))
  {
    var row := Favourite(p.id, u.id);
    var after := Toggled(favourites, row);
    assert Favourite(q.id, other.id) != row;
    assert multiset(after)[Favourite(q.id, other.id)] == multiset(favourites)[Favourite(q.id, other.id)];
    assert Favourite(q.id, other.id) in after <==> Favourite(q.id, other.id) in favourites;
  }

  /** Favouriting a post nobody had made the viewer's favourite raises its
      count by one. */
  lemma FavouriteAddsOne(u: User, p: Post, favourites: seq<Favourite>)
    requires Favourite(p.id, u.id) !in favourites
    ensures Count(ItemOf(p, Toggled(favourites, Favourite(p.id, u.id)))) == Count(ItemOf(p, favourites)) + 1
  {
    FavouritersOfConcat(favourites, [Favourite(p.id, u.id)], p.id);
    assert [Favourite(p.id, u.id)][1..] == [];
  }
}
