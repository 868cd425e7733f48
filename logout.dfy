/** The `/logout` action: a DELETE request signs the user out
    (app/routes/Logout.tsx). */
module LogoutRoute {
  import opened Common
  import opened JsString
  import opened Sessions

  /** `action`: on DELETE (in any letter case) remove the session's `user`
      key, whether or not it was set, and redirect home; otherwise 404 with
      the session untouched. */
  method Action(session: Session, requestMethod: string) returns (reply: Reply)
    modifies session
    ensures IsMethod(requestMethod, "DELETE") ==>
      reply == Redirect("/") && session.data == old(session.data) - {UserKey}
    ensures !IsMethod(requestMethod, "DELETE") ==>
      reply == NotFound && session.data == old(session.data)
  {
    if IsMethod(requestMethod, "DELETE") {
      session.Unset(UserKey);
      return Redirect("/");
    }
    return NotFound;
  }
}
