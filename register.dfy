/** The `/register` action: create an account and sign it in
    (app/routes/Register.tsx). */
module RegisterRoute {
  import opened Common
  import opened JsString
  import opened Forms
  import opened Store
  import opened Sessions

  datatype RegisterForm = RegisterForm(name: Option<string>, email: Option<string>, password: Option<string>)

  /** The resolver: name of 2..50 and password of 8..150 characters once
      trimmed, an email in the format zod accepts of at most 200 characters. */
  predicate ValidInput(form: RegisterForm, f: Foreign) {
    && form.name.Some? && TrimmedWithin(form.name.value, 2, 50)
    && form.email.Some? && f.isEmail(form.email.value) && |form.email.value| <= 200
    && form.password.Some? && TrimmedWithin(form.password.value, 8, 150)
  }

  /** The row `user.create` inserts: zod hands over the trimmed name and
      password, and only the password's bcrypt hash is stored. */
  function NewUser(id: int, form: RegisterForm, f: Foreign): (u: User)
    requires ValidInput(form, f)
    ensures u.id == id && u.email == form.email.value
    ensures 2 <= |u.name| <= 50 && u.name == Trim(form.name.value)
    ensures u.password == f.hash(Trim(form.password.value))
  {
    User(id, Trim(form.name.value), form.email.value, f.hash(Trim(form.password.value)), None, None)
  }

  /** `action`: 404 for anything but POST, 400 for invalid input, an error
      when the email is taken; otherwise one user row is inserted under the
      next id and the session user becomes that id. The table keeps its
      unique ids and emails. */
  method Action(db: Db, session: Session, f: Foreign, requestMethod: string, form: RegisterForm)
    returns (reply: Reply)
    modifies db`users, db`nextUserId, session
    ensures !IsMethod(requestMethod, "POST") || !ValidInput(form, f) || EmailTaken(old(db.users), form.email.value) ==>
      db.users == old(db.users) && db.nextUserId == old(db.nextUserId) && session.data == old(session.data)
    ensures !IsMethod(requestMethod, "POST") ==> reply == NotFound
    ensures IsMethod(requestMethod, "POST") && !ValidInput(form, f) ==> reply == BadRequest
    ensures IsMethod(requestMethod, "POST") && ValidInput(form, f) && EmailTaken(old(db.users), form.email.value) ==>
      reply == ErrorData("Email is already taken")
    ensures IsMethod(requestMethod, "POST") && ValidInput(form, f) && !EmailTaken(old(db.users), form.email.value) ==>
      && reply == Redirect("/")
      && db.users == old(db.users) + [NewUser(old(db.nextUserId), form, f)]
      && db.nextUserId == old(db.nextUserId) + 1
      && session.data == old(session.data)[UserKey := old(db.nextUserId)]
    ensures old(db.Valid()) ==> db.Valid()
  {
    if !IsMethod(requestMethod, "POST") { return NotFound; }
    if !ValidInput(form, f) { return BadRequest; }
    var email := form.email.value;
    var taken := FindUserByEmail(db.users, email).Some?;
    if taken {
      return ErrorData("Email is already taken");
    }
    var created := db.CreateUser(Trim(form.name.value), email, f.hash(Trim(form.password.value)));
    session.Set(UserKey, created.value);
    return Redirect("/");
  }
}
