/** The `/favourites` action: a signed-in user flips their favourite on a
    post (app/routes/Favourites.tsx). */
module FavouritesRoute {
  import opened Common
  import opened JsString
  import opened Forms
  import opened Store
  import opened Sessions

  /** Where the guard sequence of the action leads. */
  datatype Decision = Reject(reply: Reply) | Proceed(row: Favourite)

  /** The guards, in the source's order: the post id field, then the session
      user, then the request method. */
  function Check(sessionUser: Option<int>, requestMethod: string, id: Option<string>): (d: Decision)
    ensures ParseIdField(id).None? ==> d == Reject(BadRequest)
    ensures sessionUser.None? ==> d == Reject(BadRequest)
    ensures ParseIdField(id).Some? && sessionUser.Some? && !IsMethod(requestMethod, "POST")
            ==> d == Reject(NotFound)
    ensures d.Proceed? <==> ParseIdField(id).Some? && sessionUser.Some? && IsMethod(requestMethod, "POST")
    ensures d.Proceed? ==> d.row == Favourite(ParseIdField(id).value, sessionUser.value)
  {
    var postId := ParseIdField(id);
    if postId.None? then Reject(BadRequest)
    else if sessionUser.None? then Reject(BadRequest)
    else if !IsMethod(requestMethod, "POST") then Reject(NotFound)
    else Proceed(Favourite(postId.value, sessionUser.value))
  }

  /** `action`: after the guards, `exists` then `deleteMany` or `create`.
      Only the Favourite table may change. */
  method Action(db: Db, session: Session, requestMethod: string, id: Option<string>)
    returns (reply: Reply)
    modifies db`favourites
    ensures Check(session.Get(UserKey), requestMethod, id).Reject? ==>
      reply == Check(session.Get(UserKey), requestMethod, id).reply && db.favourites == old(db.favourites)
    ensures Check(session.Get(UserKey), requestMethod, id).Proceed? ==>
      reply == NoData && db.favourites == Toggled(old(db.favourites), Check(session.Get(UserKey), requestMethod, id).row)
  {
    var userId := session.Get(UserKey);
    var postId := ParseIdField(id);
    if postId.None? { return BadRequest; }
    if userId.None? { return BadRequest; }
    if !IsMethod(requestMethod, "POST") { return NotFound; }
    var row := Favourite(postId.value, userId.value);
    var present := row in db.favourites;
    if present {
      db.favourites := RemoveAll(db.favourites, row);
    } else {
      db.favourites := db.favourites + [row];
    }
    reply := NoData;
  }

  /** After a toggle the pair is favourited iff it was not before, and every
      other (post, user) pair keeps its rows. */
  lemma ToggleFlips(rows: seq<Favourite>, postId: int, userId: int)
    ensures Favourite(postId, userId) in Toggled(rows, Favourite(postId, userId))
            <==> Favourite(postId, userId) !in rows
    ensures forall p, u :: (p, u) != (postId, userId) ==>
      multiset(Toggled(rows, Favourite(postId, userId)))[Favourite(p, u)] == multiset(rows)[Favourite(p, u)]
  {
  }
}
