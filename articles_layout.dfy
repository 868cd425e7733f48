/** The layout around the feeds: the popular-tags side bar and the feed
    tabs (app/routes/Articles/Layout.tsx). */
module ArticlesLayout {
  import opened Common
  import opened Seqs
  import opened Store
  import opened Links
  import RootLayout

  /** A row of the tag query: a tag and how often it occurs. */
  datatype TagCount = TagCount(tag: string, count: int)

  /** `SELECT UNNEST(tags) FROM "Post"`: every tag of every post, post by
      post, repeats within a post kept. */
  function AllTags(posts: seq<Post>): seq<string> {
    if posts == [] then [] else AllTags(posts[..|posts| - 1]) + posts[|posts| - 1].tags
  }

  /** `COUNT(*)` of the group of `tag`. */
  function Occurrences(posts: seq<Post>, tag: string): nat {
    multiset(AllTags(posts))[tag]
  }

  /** The count of a tag over two lists of posts is the sum of its counts
      over each: every post adds as many as its own list holds, with no
      de-duplication within a post. */
  lemma {:induction false} OccurrencesConcat(a: seq<Post>, b: seq<Post>, tag: string)
    ensures Occurrences(a + b, tag) == Occurrences(a, tag) + Occurrences(b, tag)
  {
    if b == [] {
      assert a + b == a;
    } else {
      var init := b[..|b| - 1];
      OccurrencesConcat(a, init, tag);
      assert (a + b)[..|a + b| - 1] == a + init;
      assert (a + b)[|a + b| - 1] == b[|b| - 1];
    }
  }

  /** The posts `[a, b]`, `[a]` and `[c, c]` give `a` and `c` a count of 2 and
      `b` a count of 1: a tag repeated in one post counts twice. */
  lemma UnnestKeepsRepeats(p1: Post, p2: Post, p3: Post)
    requires p1.tags == ["a", "b"] && p2.tags == ["a"] && p3.tags == ["c", "c"]
    ensures Occurrences([p1, p2, p3], "a") == 2
    ensures Occurrences([p1, p2, p3], "b") == 1
    ensures Occurrences([p1, p2, p3], "c") == 2
  {
    assert [p1][..0] == [];
    assert AllTags([p1]) == ["a", "b"];
    assert [p1, p2][..1] == [p1];
    assert AllTags([p1, p2]) == ["a", "b"] + ["a"];
    assert [p1, p2, p3][..2] == [p1, p2];
    assert AllTags([p1, p2, p3]) == ["a", "b"] + ["a"] + ["c", "c"];
    assert multiset(AllTags([p1, p2, p3])) == multiset{"a", "b", "a", "c", "c"};
  }

  /** The tag is the tag of one of the rows. */
  predicate Listed(r: seq<TagCount>, tag: string) {
    exists i :: 0 <= i < |r| && r[i].tag == tag
  }

  /** What `GROUP BY tag ORDER BY count DESC LIMIT 10` may answer: at most
      ten distinct tags with their true counts, by count from high to low,
      and no tag left out that is counted more often than one listed (with
      fewer than ten rows, no tag left out at all). Rows with equal counts
      may come in any order. */
  ghost predicate IsTopTags(posts: seq<Post>, r: seq<TagCount>) {
    && |r| <= 10
    && (forall i :: 0 <= i < |r| ==> r[i].count == Occurrences(posts, r[i].tag) && r[i].count >= 1)
    && (forall i, j :: 0 <= i < j < |r| ==> r[i].tag != r[j].tag)
    && (forall i, j :: 0 <= i < j < |r| ==> r[i].count >= r[j].count)
    && (forall t :: t in AllTags(posts) && !Listed(r, t) ==>
          |r| == 10 && forall i :: 0 <= i < |r| ==> Occurrences(posts, t) <= r[i].count)
  }

  /** One row per distinct tag, in order of first occurrence. */
  function Groups(all: seq<string>): (r: seq<TagCount>)
    ensures |r| == |Distinct(all)|
    ensures forall i :: 0 <= i < |r| ==> r[i] == TagCount(Distinct(all)[i], multiset(all)[Distinct(all)[i]])
  {
    var d := Distinct(all);
    seq(|d|, i requires 0 <= i < |d| => TagCount(d[i], multiset(all)[d[i]]))
  }

  /** The order key of `ORDER BY count DESC`. */
  function ByCount(e: TagCount): int {
    -e.count
  }

  /** The rows of any reordering of the groups: true counts, distinct tags,
      and a row for every tag that occurs. */
  lemma GroupsPermutation(all: seq<string>, sorted: seq<TagCount>)
    requires multiset(sorted) == multiset(Groups(all))
    ensures forall i :: 0 <= i < |sorted| ==>
      sorted[i].count == multiset(all)[sorted[i].tag] && sorted[i].tag in all
    ensures forall i, j :: 0 <= i < j < |sorted| ==> sorted[i].tag != sorted[j].tag
    ensures forall t :: t in all ==> Listed(sorted, t)
  {
    var g := Groups(all);
    var d := Distinct(all);
    forall i | 0 <= i < |sorted|
      ensures sorted[i].count == multiset(all)[sorted[i].tag] && sorted[i].tag in all
    {
      assert sorted[i] in multiset(g);
      var k :| 0 <= k < |g| && g[k] == sorted[i];
      assert d[k] in d;
    }
    assert NoDups(g) by {
      forall i, j | 0 <= i < j < |g| ensures g[i] != g[j] {
        assert g[i].tag == d[i] && g[j].tag == d[j];
      }
    }
    NoDupsPermutation(sorted, g);
    forall i, j | 0 <= i < j < |sorted| ensures sorted[i].tag != sorted[j].tag {
      assert sorted[i] != sorted[j];
    }
    forall t | t in all ensures Listed(sorted, t) {
      var k :| 0 <= k < |d| && d[k] == t;
      assert g[k] in multiset(sorted);
      var m :| 0 <= m < |sorted| && sorted[m] == g[k];
    }
  }

  /** A tag the first ten rows leave out sits at index ten or later of the
      list sorted by count, so the prefix is full and no listed count is
      lower than the omitted one. */
  lemma OmittedRanksLow(posts: seq<Post>, sorted: seq<TagCount>, t: string)
    requires forall i :: 0 <= i < |sorted| ==> sorted[i].count == Occurrences(posts, sorted[i].tag)
    requires forall i, j :: 0 <= i < j < |sorted| ==> sorted[i].count >= sorted[j].count
    requires Listed(sorted, t)
    requires !Listed(sorted[..Min(10, |sorted|)], t)
    ensures Min(10, |sorted|) == 10
    ensures forall i :: 0 <= i < 10 ==> Occurrences(posts, t) <= sorted[i].count
  {
    var r := sorted[..Min(10, |sorted|)];
    var k :| 0 <= k < |sorted| && sorted[k].tag == t;
    forall j | 0 <= j < |r| ensures sorted[j].tag != t {
      assert r[j] == sorted[j];
    }
  }

  /** The first ten rows of a list with the properties GroupsPermutation
      gives, sorted by count from high to low, are a valid answer. */
  lemma PrefixIsTopTags(posts: seq<Post>, sorted: seq<TagCount>)
    requires forall i :: 0 <= i < |sorted| ==>
      sorted[i].count == Occurrences(posts, sorted[i].tag) && sorted[i].tag in AllTags(posts)
    requires forall i, j :: 0 <= i < j < |sorted| ==> sorted[i].tag != sorted[j].tag
    requires forall i, j :: 0 <= i < j < |sorted| ==> sorted[i].count >= sorted[j].count
    requires forall t :: t in AllTags(posts) ==> Listed(sorted, t)
    ensures IsTopTags(posts, sorted[..Min(10, |sorted|)])
  {
    var r := sorted[..Min(10, |sorted|)];
    forall i | 0 <= i < |r| ensures r[i].count == Occurrences(posts, r[i].tag) && r[i].count >= 1 {
      assert r[i] == sorted[i];
      assert r[i].tag in multiset(AllTags(posts));
    }
    forall t | t in AllTags(posts) && !Listed(r, t)
      ensures |r| == 10 && forall i :: 0 <= i < |r| ==> Occurrences(posts, t) <= r[i].count
    {
      OmittedRanksLow(posts, sorted, t);
    }
  }

  /** The tag query: the groups sorted by count from high to low (equal
      counts in order of first occurrence, one order the query allows),
      cut after ten rows. */
  function TopTags(posts: seq<Post>): (r: seq<TagCount>)
    ensures IsTopTags(posts, r)
  {
    var all := AllTags(posts);
    var sorted := SortBy(Groups(all), ByCount);
    GroupsPermutation(all, sorted);
    assert forall i, j :: 0 <= i < j < |sorted| ==> ByCount(sorted[i]) <= ByCount(sorted[j]);
    PrefixIsTopTags(posts, sorted);
    sorted[..Min(10, |sorted|)]
  }

  /** Every tag listed by a valid answer occurs in some post, and a valid
      answer with a tag missing is full. */
  lemma TopTagsListOnlyUsedTags(posts: seq<Post>, r: seq<TagCount>, i: int)
    requires IsTopTags(posts, r) && 0 <= i < |r|
    ensures r[i].tag in AllTags(posts)
  {
    assert r[i].tag in multiset(AllTags(posts));
  }

  datatype LayoutData = LayoutData(user: Option<Viewer>, tags: seq<TagCount>)

  /** `loader`: the tag query, and the viewer `{id, name}` looked up as the
      root layout does (only for a truthy session user). */
  function Loader(users: seq<User>, posts: seq<Post>, sessionUser: Option<int>): (r: LayoutData)
    ensures IsTopTags(posts, r.tags)
    ensures r.user == RootLayout.Loader(users, sessionUser)
  {
    LayoutData(RootLayout.Loader(users, sessionUser), TopTags(posts))
  }

  /** `/${params.tag}`: `/undefined` outside a tag route. */
  function TagPath(tag: Option<string>): string {
    "/" + (if tag.Some? then tag.value else "undefined")
  }

  /** `!!params.tag`. */
  predicate HasTag(tag: Option<string>) {
    tag.Some? && tag.value != ""
  }

  /** The `links` array of the feed tabs, in its order. */
  function FeedTabs(user: Option<Viewer>, pathname: string, tag: Option<string>): seq<NavLink> {
    [ NavLink("/", "Global Feed", pathname == "/", false),
      NavLink("/your-feed", "Your Feed", pathname == "/your-feed", user.None?),
      NavLink("/login", "Sign in to see Your Feed", false, user.Some?),
      NavLink(TagPath(tag), if tag.Some? then tag.value else "", pathname == TagPath(tag), !HasTag(tag)) ]
  }

  /** The tabs shown: Global Feed; then Your Feed for a viewer, or the
      sign-in invitation for nobody; then the tag's tab on a tag route. */
  lemma ShownTabs(user: Option<Viewer>, pathname: string, tag: Option<string>)
    ensures Visible(FeedTabs(user, pathname, tag)) ==
      [NavLink("/", "Global Feed", pathname == "/", false)]
      + (if user.Some? then [NavLink("/your-feed", "Your Feed", pathname == "/your-feed", false)]
         else [NavLink("/login", "Sign in to see Your Feed", false, false)])
      + (if HasTag(tag) then [NavLink("/" + tag.value, tag.value, pathname == "/" + tag.value, false)] else [])
  {
    var tabs := FeedTabs(user, pathname, tag);
    VisibleFour(tabs[0], tabs[1], tabs[2], tabs[3]);
    assert tabs == [tabs[0], tabs[1], tabs[2], tabs[3]];
    VisibleOne(tabs[0]); VisibleOne(tabs[1]); VisibleOne(tabs[2]); VisibleOne(tabs[3]);
  }

  /** 'Your Feed' is shown iff somebody is signed in, the sign-in
      invitation iff nobody is, and a third tab iff the route has a tag. */
  lemma TabVisibility(user: Option<Viewer>, pathname: string, tag: Option<string>)
    ensures var shown := Visible(FeedTabs(user, pathname, tag));
      && (NavLink("/your-feed", "Your Feed", pathname == "/your-feed", false) in shown <==> user.Some?)
      && (NavLink("/login", "Sign in to see Your Feed", false, false) in shown <==> user.None?)
      && (|shown| == 3 <==> HasTag(tag))
  {
    ShownTabs(user, pathname, tag);
    if HasTag(tag) {
      var v := tag.value;
      assert ("/" + v)[0] == '/';
      if v == "Your Feed" {
        assert ("/" + v)[1] == 'Y';
      }
      if v == "Sign in to see Your Feed" {
        assert ("/" + v)[1] == 'S';
      }
    }
  }
}
