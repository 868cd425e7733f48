/** The `/editor` action: a signed-in user publishes a post
    (app/routes/Editor.tsx). */
module EditorRoute {
  import opened Common
  import opened JsString
  import opened Forms
  import opened Store
  import opened Sessions

  datatype EditorForm = EditorForm(
    title: Option<string>, description: Option<string>, content: Option<string>,
    tags: Option<seq<string>>)

  /** `z.array(z.string().min(2).max(25)).min(1)`: at least one tag, each of
      2..25 characters as typed (tags are not trimmed). */
  predicate ValidTags(tags: Option<seq<string>>) {
    tags.Some? && |tags.value| >= 1 && forall i :: 0 <= i < |tags.value| ==> 2 <= |tags.value[i]| <= 25
  }

  /** The resolver: title of 4..150, description of 10..500 and a non-empty
      content once trimmed, and valid tags. */
  predicate ValidInput(form: EditorForm) {
    && form.title.Some? && TrimmedWithin(form.title.value, 4, 150)
    && form.description.Some? && TrimmedWithin(form.description.value, 10, 500)
    && form.content.Some? && |Trim(form.content.value)| >= 1
    && ValidTags(form.tags)
  }

  /** The slug `slugify(title, {trim: true, lower: true})` gives for the
      trimmed title. */
  function Slug(form: EditorForm, f: Foreign): string
    requires form.title.Some?
  {
    f.slugify(Trim(form.title.value))
  }

  /** The row `post.create` inserts: the trimmed fields, the tags as given,
      the session user as author, the insertion time. */
  function NewPost(id: int, form: EditorForm, userId: int, now: int, f: Foreign): (p: Post)
    requires ValidInput(form)
    ensures p.id == id && p.userId == userId && p.createdAt == now
    ensures p.slug == Slug(form, f) && p.tags == form.tags.value
    ensures p.title == Trim(form.title.value) && p.description == Trim(form.description.value)
    ensures p.content == Trim(form.content.value)
    ensures 4 <= |p.title| <= 150 && 10 <= |p.description| <= 500 && |p.content| >= 1
  {
    Post(id, Slug(form, f), Trim(form.title.value), Trim(form.description.value),
         Trim(form.content.value), form.tags.value, userId, now)
  }

  /** `action`: 404 for anything but POST, then an error object without a
      (truthy) session user, then 400 for invalid input, and then exactly
      one post row is inserted and the response redirects to it. A slug
      already in use makes the insert throw. `now` is the clock reading the
      store stamps the row with. */
  method Action(db: Db, session: Session, f: Foreign, requestMethod: string, form: EditorForm, now: int)
    returns (reply: Reply)
    modifies db`posts, db`nextPostId
    ensures !IsMethod(requestMethod, "POST") ==> reply == NotFound
    ensures IsMethod(requestMethod, "POST") && !Truthy(session.Get(UserKey)) ==>
      reply == ErrorData("Not authenticated")
    ensures IsMethod(requestMethod, "POST") && Truthy(session.Get(UserKey)) && !ValidInput(form) ==>
      reply == BadRequest
    ensures !IsMethod(requestMethod, "POST") || !Truthy(session.Get(UserKey)) || !ValidInput(form) ==>
      db.posts == old(db.posts) && db.nextPostId == old(db.nextPostId)
    ensures IsMethod(requestMethod, "POST") && Truthy(session.Get(UserKey)) && ValidInput(form) ==>
      if SlugTaken(old(db.posts), Slug(form, f)) then
        reply == Thrown && db.posts == old(db.posts) && db.nextPostId == old(db.nextPostId)
      else
        && reply == Redirect("/article/" + Slug(form, f))
        && db.posts == old(db.posts) + [NewPost(old(db.nextPostId), form, session.Get(UserKey).value, now, f)]
        && db.nextPostId == old(db.nextPostId) + 1
    ensures old(db.Valid()) ==> db.Valid()
  {
    if !IsMethod(requestMethod, "POST") { return NotFound; }
    var userId := session.Get(UserKey);
    if !Truthy(userId) { return ErrorData("Not authenticated"); }
    if !ValidInput(form) { return BadRequest; }
    var slug := Slug(form, f);
    var created := db.CreatePost(slug, Trim(form.title.value), Trim(form.description.value),
                                 Trim(form.content.value), form.tags.value, userId.value, now);
    if created.None? { return Thrown; }
    return Redirect("/article/" + slug);
  }
}
