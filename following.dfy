/** The `/following` action: the signed-in user follows or unfollows another
    user (app/routes/Following.tsx). */
module FollowingRoute {
  import opened Common
  import opened JsString
  import opened JsNumber
  import opened Forms
  import opened Store
  import opened Sessions

  datatype Decision = Reject(reply: Reply) | Proceed(row: Follow)

  /** The guards, in the source's order: the session user (the follower),
      then the target id field, then the request method. */
  function Check(follower: Option<int>, requestMethod: string, id: Option<string>): (d: Decision)
    ensures follower.None? ==> d == Reject(BadRequest)
    ensures ParseIdField(id).None? ==> d == Reject(BadRequest)
    ensures follower.Some? && ParseIdField(id).Some? && !IsMethod(requestMethod, "POST")
            ==> d == Reject(NotFound)
    ensures d.Proceed? <==> follower.Some? && ParseIdField(id).Some? && IsMethod(requestMethod, "POST")
    ensures d.Proceed? ==> d.row == Follow(follower.value, ParseIdField(id).value)
  {
    var following := ParseIdField(id);
    if follower.None? then Reject(BadRequest)
    else if following.None? then Reject(BadRequest)
    else if !IsMethod(requestMethod, "POST") then Reject(NotFound)
    else Proceed(Follow(follower.value, following.value))
  }

  /** `action`: after the guards, `exists` then `deleteMany` or `create`.
      Only the Follow table may change. */
  method Action(db: Db, session: Session, requestMethod: string, id: Option<string>)
    returns (reply: Reply)
    modifies db`follows
    ensures Check(session.Get(UserKey), requestMethod, id).Reject? ==>
      reply == Check(session.Get(UserKey), requestMethod, id).reply && db.follows == old(db.follows)
    ensures Check(session.Get(UserKey), requestMethod, id).Proceed? ==>
      reply == NoData && db.follows == Toggled(old(db.follows), Check(session.Get(UserKey), requestMethod, id).row)
  {
    var followerId := session.Get(UserKey);
    var followingId := ParseIdField(id);
    if followerId.None? { return BadRequest; }
    if followingId.None? { return BadRequest; }
    if !IsMethod(requestMethod, "POST") { return NotFound; }
    var row := Follow(followerId.value, followingId.value);
    var present := row in db.follows;
    if present {
      db.follows := RemoveAll(db.follows, row);
    } else {
      db.follows := db.follows + [row];
    }
    reply := NoData;
  }

  /** Nothing rejects following oneself: a POST naming the session user's
      own id goes through to the toggle of the row (u, u). */
  lemma SelfFollowAccepted(u: int, requestMethod: string)
    requires IsMethod(requestMethod, "POST")
    ensures Check(Some(u), requestMethod, Some(IntToString(u))) == Proceed(Follow(u, u))
  {
    ParseIdFieldOfId(u);
  }

  /** The method check ignores letter case: `post` is accepted like `POST`. */
  lemma LowerCasePostAccepted(u: int, id: Option<string>)
    requires ParseIdField(id).Some?
    ensures Check(Some(u), "post", id).Proceed?
  {
    LowerCasePost();
  }

  lemma LowerCasePost()
    ensures IsMethod("post", "POST")
  {
    var u := ToUpperAscii("post");
    assert u[0] == 'P' && u[1] == 'O' && u[2] == 'S' && u[3] == 'T';
    assert u == "POST";
  }
}
