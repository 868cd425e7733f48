/** The `/login` action: check the credentials and sign the user in
    (app/routes/Login.tsx). */
module LoginRoute {
  import opened Common
  import opened JsString
  import opened Forms
  import opened Store
  import opened Sessions

  /** The submitted form fields; a field may be missing. */
  datatype LoginForm = LoginForm(email: Option<string>, password: Option<string>)

  /** The resolver: an email in the format zod accepts, and a password that
      is not empty once trimmed. */
  predicate ValidInput(form: LoginForm, f: Foreign) {
    && form.email.Some? && f.isEmail(form.email.value)
    && form.password.Some? && |Trim(form.password.value)| >= 1
  }

  /** `findUnique({where: {email}})` followed by bcrypt's `compare`: the id
      of the account, when the email is known and the password matches its
      hash. */
  function Authenticate(users: seq<User>, email: string, password: string, f: Foreign): (r: Option<int>)
    ensures r.Some? ==> exists u :: u in users && u.email == email && u.id == r.value && f.compare(password, u.password)
  {
    match FindUserByEmail(users, email)
    case None => None
    case Some(u) => if f.compare(password, u.password) then Some(u.id) else None
  }

  /** With a unique email column, sign-in succeeds as `id` exactly when some
      account has that email, that id, and a hash the password matches. An
      unknown email and a wrong password both fail, alike. */
  lemma AuthenticateIff(users: seq<User>, email: string, password: string, f: Foreign, id: int)
    requires UniqueEmails(users)
    ensures Authenticate(users, email, password, f) == Some(id) <==>
      exists u :: u in users && u.email == email && u.id == id && f.compare(password, u.password)
  {
    if u :| u in users && u.email == email && u.id == id && f.compare(password, u.password) {
      var found := FindUserByEmail(users, email);
      SameEmailSameUser(users, u, found.value);
    }
  }

  /** `action`: 404 for anything but POST, 400 for invalid input; then the
      session user becomes the account's id on a match (and the response
      redirects home), and a single error covers every failure. The store
      is only read. */
  method Action(db: Db, session: Session, f: Foreign, requestMethod: string, form: LoginForm)
    returns (reply: Reply)
    modifies session
    ensures !IsMethod(requestMethod, "POST") ==> reply == NotFound && session.data == old(session.data)
    ensures IsMethod(requestMethod, "POST") && !ValidInput(form, f) ==>
      reply == BadRequest && session.data == old(session.data)
    ensures IsMethod(requestMethod, "POST") && ValidInput(form, f) ==>
      match Authenticate(db.users, form.email.value, Trim(form.password.value), f)
      case Some(id) => reply == Redirect("/") && session.data == old(session.data)[UserKey := id]
      case None => reply == ErrorData("Account not found") && session.data == old(session.data)
  {
    if !IsMethod(requestMethod, "POST") { return NotFound; }
    if !ValidInput(form, f) { return BadRequest; }
    var email := form.email.value;
    var password := Trim(form.password.value);
    var user := FindUserByEmail(db.users, email);
    var matches := user.Some? && f.compare(password, user.value.password);
    if matches {
      session.Set(UserKey, user.value.id);
      return Redirect("/");
    }
    return ErrorData("Account not found");
  }
}
