/** The comment thread under an article: its `action` (create and delete)
    and its `loader` (app/routes/Article/Comments.tsx). */
module ArticleComments {
  import opened Common
  import opened JsString
  import opened JsNumber
  import opened Forms
  import opened Seqs
  import opened Store
  import opened Sessions

  /** The submitted fields: `postId` and `content` for POST (the form
      decoder hands `postId` over as a number when it is one), `id` for
      DELETE. */
  datatype CommentForm = CommentForm(postId: Option<int>, content: Option<string>, id: Option<string>)

  /** The resolver: a numeric post id and a comment of 2..250 characters
      once trimmed. */
  predicate ValidComment(form: CommentForm) {
    form.postId.Some? && form.content.Some? && TrimmedWithin(form.content.value, 2, 250)
  }

  /** `action`. Without a session user: 401. POST: 400 for invalid input,
      else one comment row by the session user with the trimmed content.
      DELETE: zod's `.parse` throws on a missing id, a non-numeric id gives
      `{error: 'Invalid input'}`, and otherwise the row with that id is
      deleted whoever wrote it (the ORM throws when there is none). Any
      other method: 404. `now` is the clock reading of the insert. */
  method Action(db: Db, session: Session, requestMethod: string, form: CommentForm, now: int)
    returns (reply: Reply)
    modifies db`comments, db`nextCommentId
    ensures session.Get(UserKey).None? ==>
      reply == Unauthorized && db.comments == old(db.comments) && db.nextCommentId == old(db.nextCommentId)
    ensures session.Get(UserKey).Some? && IsMethod(requestMethod, "POST") ==>
      if !ValidComment(form) then
        reply == BadRequest && db.comments == old(db.comments) && db.nextCommentId == old(db.nextCommentId)
      else
        && reply == NoData
        && db.comments == old(db.comments) +
             [Comment(old(db.nextCommentId), form.postId.value, session.Get(UserKey).value,
                      Trim(form.content.value), now)]
        && db.nextCommentId == old(db.nextCommentId) + 1
    ensures session.Get(UserKey).Some? && IsMethod(requestMethod, "DELETE") ==>
      db.nextCommentId == old(db.nextCommentId) &&
      if form.id.None? then
        reply == Thrown && db.comments == old(db.comments)
      else if ParseInt(form.id.value).None? then
        reply == ErrorData("Invalid input") && db.comments == old(db.comments)
      else if !HasComment(old(db.comments), ParseInt(form.id.value).value) then
        reply == Thrown && db.comments == old(db.comments)
      else
        reply == NoData && db.comments == DropComment(old(db.comments), ParseInt(form.id.value).value)
    ensures session.Get(UserKey).Some? && !IsMethod(requestMethod, "POST") && !IsMethod(requestMethod, "DELETE") ==>
      reply == NotFound && db.comments == old(db.comments) && db.nextCommentId == old(db.nextCommentId)
    ensures old(db.Valid()) ==> db.Valid()
  {
    var userId := session.Get(UserKey);
    if userId.None? { return Unauthorized; }
    if IsMethod(requestMethod, "POST") {
      if !ValidComment(form) { return BadRequest; }
      var _ := db.CreateComment(form.postId.value, userId.value, Trim(form.content.value), now);
      return NoData;
    }
    if IsMethod(requestMethod, "DELETE") {
      if form.id.None? { return Thrown; }
      var id := ParseInt(form.id.value);
      if id.None? { return ErrorData("Invalid input"); }
      var deleted := db.DeleteComment(id.value);
      if !deleted { return Thrown; }
      return NoData;
    }
    return NotFound;
  }

  /** The server never compares the author with the requester: a comment
      someone else wrote goes, and every comment with another id stays. */
  lemma DeleteIgnoresAuthor(comments: seq<Comment>, c: Comment, requester: int)
    requires c in comments && c.userId != requester
    ensures c !in DropComment(comments, c.id)
    ensures forall d :: d in comments && d.id != c.id ==> d in DropComment(comments, c.id)
  {
  }

  /** The deletion the delete control evidently stands for: the comment
      goes only when the requester wrote it. */
  function DeleteOwn(comments: seq<Comment>, requester: int, id: int): (r: Option<seq<Comment>>)
    ensures r.Some? <==> exists c :: c in comments && c.id == id && c.userId == requester
    ensures r.Some? ==> r.value == DropComment(comments, id)
  {
    if exists c :: c in comments && c.id == id && c.userId == requester then Some(DropComment(comments, id))
    else None
  }

  /** Under DeleteOwn nobody can remove a comment written by someone else. */
  lemma DeleteOwnSparesOthers(comments: seq<Comment>, requester: int, id: int, c: Comment)
    requires UniqueCommentIds(comments)
    requires c in comments && c.userId != requester
    requires DeleteOwn(comments, requester, id).Some?
    ensures c in DeleteOwn(comments, requester, id).value
  {
  }

  /** The comments' order in this loader: newest first. */
  function CommentAge(c: Comment): int {
    -c.createdAt
  }

  /** `orderBy: {createdAt: 'desc'}`. */
  function NewestFirst(comments: seq<Comment>): (r: seq<Comment>)
    ensures multiset(r) == multiset(comments)
    ensures forall i, j :: 0 <= i < j < |r| ==> r[i].createdAt >= r[j].createdAt
  {
    var r := SortBy(comments, CommentAge);
    assert forall i, j :: 0 <= i < j < |r| ==> CommentAge(r[i]) <= CommentAge(r[j]);
    r
  }

  datatype ThreadPage = ThreadPage(postId: int, comments: seq<Comment>, viewer: Option<User>)

  /** `loader`: the post with slug `slug` and its comments newest first,
      and the viewer when the session's user is truthy; 404 when no post
      has the slug. */
  function Loader(posts: seq<Post>, comments: seq<Comment>, users: seq<User>,
                  sessionUser: Option<int>, slug: string): (r: LoaderResult<ThreadPage>)
    ensures r.Throws? <==> !SlugTaken(posts, slug)
    ensures r.Throws? ==> r.reply == NotFoundPage
    ensures r.Data? ==>
      && (exists p :: p in posts && p.slug == slug && p.id == r.value.postId)
      && multiset(r.value.comments) == multiset(OfPost(comments, r.value.postId))
      && (forall i, j :: 0 <= i < j < |r.value.comments| ==>
            r.value.comments[i].createdAt >= r.value.comments[j].createdAt)
      && (!Truthy(sessionUser) ==> r.value.viewer.None?)
      && (Truthy(sessionUser) ==> r.value.viewer == FindUser(users, sessionUser.value))
  {
    match FindPostBySlug(posts, slug)
    case None => Throws(NotFoundPage)
    case Some(post) =>
      var viewer := if Truthy(sessionUser) then FindUser(users, sessionUser.value) else None;
      Data(ThreadPage(post.id, NewestFirst(OfPost(comments, post.id)), viewer))
  }

  /** The delete control shows on exactly the viewer's own comments. */
  predicate ShowDeleteControl(c: Comment, viewer: Option<User>) {
    viewer.Some? && c.userId == viewer.value.id
  }

  /** On the loaded thread the delete control shows on a comment iff the
      session's user is truthy, has a row, and wrote the comment. */
  lemma DeleteControlOwnOnly(posts: seq<Post>, comments: seq<Comment>, users: seq<User>,
                             sessionUser: Option<int>, slug: string, c: Comment)
    requires Loader(posts, comments, users, sessionUser, slug).Data?
    ensures ShowDeleteControl(c, Loader(posts, comments, users, sessionUser, slug).value.viewer) <==>
      Truthy(sessionUser) && c.userId == sessionUser.value && exists u :: u in users && u.id == sessionUser.value
  {
  }
}
