/** The article page: its `loader` and the `meta` tags it derives
    (app/routes/Article/Layout.tsx). */
module ArticleLayout {
  import opened Common
  import opened JsString
  import opened Seqs
  import opened Store
  import ArticleComments

  /** The comments' order on the article page: oldest first. */
  function CommentTime(c: Comment): int {
    c.createdAt
  }

  /** `orderBy: {createdAt: 'asc'}`. */
  function OldestFirst(comments: seq<Comment>): (r: seq<Comment>)
    ensures multiset(r) == multiset(comments)
    ensures forall i, j :: 0 <= i < j < |r| ==> r[i].createdAt <= r[j].createdAt
  {
    var r := SortBy(comments, CommentTime);
    assert forall i, j :: 0 <= i < j < |r| ==> CommentTime(r[i]) <= CommentTime(r[j]);
    r
  }

  /** A list ordered newest first, reversed, is ordered oldest first. */
  lemma ReversedNewestIsOldest(newest: seq<Comment>)
    requires forall i, j :: 0 <= i < j < |newest| ==> newest[i].createdAt >= newest[j].createdAt
    ensures SortedBy(Reverse(newest), CommentTime)
  {
    var rev := Reverse(newest);
    forall i, j | 0 <= i < j < |rev| ensures CommentTime(rev[i]) <= CommentTime(rev[j]) {
      assert rev[i] == newest[|newest| - 1 - i] && rev[j] == newest[|newest| - 1 - j];
    }
  }

  /** Distinct timestamps stay distinct in any reordering. */
  lemma InjectiveOfPermutation(comments: seq<Comment>, r: seq<Comment>)
    requires multiset(r) == multiset(comments)
    requires KeyInjective(comments, CommentTime)
    ensures KeyInjective(r, CommentTime)
  {
    forall x, y | x in r && y in r && CommentTime(x) == CommentTime(y) ensures x == y {
      assert x in multiset(comments) && y in multiset(comments);
    }
  }

  /** The article page shows the same comments as the thread loader, and
      when no two share a timestamp, in exactly the reverse order. */
  lemma OppositeOrders(comments: seq<Comment>)
    ensures multiset(OldestFirst(comments)) == multiset(ArticleComments.NewestFirst(comments))
    ensures KeyInjective(comments, CommentTime) ==>
      OldestFirst(comments) == Reverse(ArticleComments.NewestFirst(comments))
  {
    var newest := ArticleComments.NewestFirst(comments);
    var oldest := OldestFirst(comments);
    if KeyInjective(comments, CommentTime) {
      ReverseMultiset(newest);
      ReversedNewestIsOldest(newest);
      InjectiveOfPermutation(comments, oldest);
      SortedUnique(oldest, Reverse(newest), CommentTime);
    }
  }

  datatype ArticlePage = ArticlePage(post: Post, author: Option<User>, comments: seq<Comment>)

  /** `loader`: the post with slug `slug`, its author, and its comments
      oldest first; 404 when no post has the slug. */
  function Loader(posts: seq<Post>, comments: seq<Comment>, users: seq<User>, slug: string)
    : (r: LoaderResult<ArticlePage>)
    ensures r.Throws? <==> !SlugTaken(posts, slug)
    ensures r.Throws? ==> r.reply == NotFoundPage
    ensures r.Data? ==>
      && r.value.post in posts && r.value.post.slug == slug
      && r.value.author == FindUser(users, r.value.post.userId)
      && multiset(r.value.comments) == multiset(OfPost(comments, r.value.post.id))
      && (forall i, j :: 0 <= i < j < |r.value.comments| ==>
            r.value.comments[i].createdAt <= r.value.comments[j].createdAt)
  {
    match FindPostBySlug(posts, slug)
    case None => Throws(NotFoundPage)
    case Some(post) =>
      Data(ArticlePage(post, FindUser(users, post.userId), OldestFirst(OfPost(comments, post.id))))
  }

  const Ellipsis := "..."

  /** `meta`'s description as written: the trimmed description cut to 157
      characters, followed by `...` when the description as stored is
      longer than 160. */
  function MetaDescription(description: string): (r: string)
    ensures |r| <= 160
    ensures |description| <= 157 ==> r == Trim(description)
    ensures |description| <= 160 ==> r == Trim(description)[..Min(157, |Trim(description)|)]
    ensures |description| > 160 ==> r == Trim(description)[..Min(157, |Trim(description)|)] + Ellipsis
  {
    var t := Trim(description);
    t[..Min(157, |t|)] + (if |description| > 160 then Ellipsis else "")
  }

  /** Every description of at most 160 characters whose trimmed text is
      longer than 157 loses its tail and gets no ellipsis. */
  lemma MetaDescriptionDropsSilently(description: string)
    requires 158 <= |Trim(description)| && |description| <= 160
    ensures MetaDescription(description) == Trim(description)[..157]
    ensures |MetaDescription(description)| < |Trim(description)|
  {
  }

  /** For instance, 159 letters lose their last two. */
  lemma DropsSilentlyOn159()
    ensures var d := seq(159, i => 'a');
      MetaDescription(d) == d[..157] && |MetaDescription(d)| < |d|
  {
    var d := seq(159, i => 'a');
    TrimOfPadded([], d, []);
    assert [] + d + [] == d;
    MetaDescriptionDropsSilently(d);
  }

  /** The description evidently intended: the trimmed text whole when it
      fits in 160 characters, otherwise its first 157 characters and `...`. */
  function MetaDescriptionIntended(description: string): (r: string)
    ensures |r| <= 160
    ensures r == Trim(description) || (|Trim(description)| > 160 && r == Trim(description)[..157] + Ellipsis)
    ensures r == Trim(description) <==> |Trim(description)| <= 160
  {
    var t := Trim(description);
    if |t| <= 160 then t else t[..157] + Ellipsis
  }

  /** Whatever the padding, what the intended description shows is the
      text itself or a cut marked with `...`. */
  lemma IntendedNeverCutsSilently(description: string)
    ensures var r := MetaDescriptionIntended(description);
      r != Trim(description) ==> |r| == 160 && r[157..] == Ellipsis && r[..157] == Trim(description)[..157]
  {
  }

  /** `${title} | Blog`. */
  function Title(post: Post): (r: string)
    ensures |r| == |post.title| + 7 && r[..|post.title|] == post.title && r[|post.title|..] == " | Blog"
  {
    post.title + " | Blog"
  }

  predicate NonEmpty(s: string) {
    s != []
  }

  /** `tags.filter(Boolean).join(', ')`: the non-empty tags in order; with
      no empty tag, simply all the tags. */
  function Keywords(tags: seq<string>): (r: string)
    ensures (forall t :: t in tags ==> NonEmpty(t)) ==> r == Join(tags, ", ")
  {
    var r := Join(Filter(tags, NonEmpty), ", ");
    assert (forall t :: t in tags ==> NonEmpty(t)) ==> r == Join(tags, ", ") by {
      if forall t :: t in tags ==> NonEmpty(t) { FilterAll(tags, NonEmpty); }
    }
    r
  }

  /** An empty tag anywhere leaves no trace in the keywords. */
  lemma KeywordsSkipEmpty(before: seq<string>, after: seq<string>)
    ensures Keywords(before + [""] + after) == Keywords(before + after)
  {
    FilterConcat(before + [""], after, NonEmpty);
    FilterConcat(before, [""], NonEmpty);
    FilterSingleton("", NonEmpty);
    FilterConcat(before, after, NonEmpty);
    assert Filter(before, NonEmpty) + [] == Filter(before, NonEmpty);
  }
}
