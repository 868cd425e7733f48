/** The `/settings` action: a partial update of the signed-in user's
    profile (app/routes/Settings.tsx). */
module SettingsRoute {
  import opened Common
  import opened JsString
  import opened Forms
  import opened Store
  import opened Sessions

  datatype SettingsForm = SettingsForm(
    bio: Option<string>, name: Option<string>, email: Option<string>,
    image: Option<string>, password: Option<string>)

  /** The decoded form: the empty string stands for "leave as it is". */
  datatype Changes = Changes(bio: string, name: string, email: string, image: string, password: string)

  /** `z.string().trim().min(lo).max(hi).or(z.literal(''))`: the field is
      present and either empty or within the bounds once trimmed (white
      space alone satisfies neither branch). */
  predicate TrimmedOrEmpty(v: Option<string>, lo: nat, hi: nat) {
    v.Some? && (v.value == "" || TrimmedWithin(v.value, lo, hi))
  }

  /** `z.email().max(hi).or(z.literal(''))` and its `url` counterpart. */
  predicate FormatOrEmpty(v: Option<string>, format: string -> bool, hi: nat) {
    v.Some? && (v.value == "" || (format(v.value) && |v.value| <= hi))
  }

  /** The resolver. */
  predicate ValidInput(form: SettingsForm, f: Foreign) {
    && TrimmedOrEmpty(form.bio, 4, 100)
    && TrimmedOrEmpty(form.name, 2, 50)
    && FormatOrEmpty(form.email, f.isEmail, 200)
    && FormatOrEmpty(form.image, f.isUrl, 500)
    && TrimmedOrEmpty(form.password, 8, 150)
  }

  /** What zod hands over: the trimmed strings, and the email and image as
      given. Each field is empty or satisfies its bound. */
  function Decode(form: SettingsForm, f: Foreign): (c: Changes)
    requires ValidInput(form, f)
    ensures c.bio == "" || 4 <= |c.bio| <= 100
    ensures c.name == "" || 2 <= |c.name| <= 50
    ensures c.email == "" || (f.isEmail(c.email) && |c.email| <= 200)
    ensures c.image == "" || (f.isUrl(c.image) && |c.image| <= 500)
    ensures c.password == "" || 8 <= |c.password| <= 150
    ensures c.bio == Trim(form.bio.value) && c.name == Trim(form.name.value)
    ensures c.email == form.email.value && c.image == form.image.value
    ensures c.password == Trim(form.password.value)
  {
    TrimmedOrEmptyBounds(form.bio, 4, 100);
    TrimmedOrEmptyBounds(form.name, 2, 50);
    TrimmedOrEmptyBounds(form.password, 8, 150);
    Changes(Trim(form.bio.value), Trim(form.name.value), form.email.value,
            form.image.value, Trim(form.password.value))
  }

  /** An accepted field, trimmed, is empty or within its bounds. */
  lemma TrimmedOrEmptyBounds(v: Option<string>, lo: nat, hi: nat)
    requires TrimmedOrEmpty(v, lo, hi)
    ensures Trim(v.value) == "" || lo <= |Trim(v.value)| <= hi
  {
    if v.value == "" {
      assert |Trim(v.value)| == 0;
    }
  }

  /** `omitBy(data, v => isNil(v) || v === '')` spread into the update, with
      the password replaced by its hash when one was given (ApplyFields
      says what each field becomes). */
  function Apply(u: User, c: Changes, f: Foreign): (r: User)
    ensures r.id == u.id
  {
    User(
      u.id,
      if c.name == "" then u.name else c.name,
      if c.email == "" then u.email else c.email,
      if c.password == "" then u.password else f.hash(c.password),
      if c.bio == "" then u.bio else Some(c.bio),
      if c.image == "" then u.image else Some(c.image))
  }

  /** Empty fields are omitted and keep the stored value; every other field
      overwrites it, the password as its hash. */
  lemma ApplyFields(u: User, c: Changes, f: Foreign)
    ensures var r := Apply(u, c, f);
      && (c.bio == "" ==> r.bio == u.bio) && (c.bio != "" ==> r.bio == Some(c.bio))
      && (c.name == "" ==> r.name == u.name) && (c.name != "" ==> r.name == c.name)
      && (c.email == "" ==> r.email == u.email) && (c.email != "" ==> r.email == c.email)
      && (c.image == "" ==> r.image == u.image) && (c.image != "" ==> r.image == Some(c.image))
      && (c.password == "" ==> r.password == u.password) && (c.password != "" ==> r.password == f.hash(c.password))
  {
  }

  /** A form left entirely empty changes nothing. */
  lemma ApplyNothing(u: User, f: Foreign)
    ensures Apply(u, Changes("", "", "", "", ""), f) == u
  {
  }

  /** Submitting the same form again changes nothing more, unless it sets a
      password: that is hashed anew each time. */
  lemma ApplyTwice(u: User, c: Changes, f: Foreign)
    requires c.password == ""
    ensures Apply(Apply(u, c, f), c, f) == Apply(u, c, f)
  {
  }

  /** Some account other than `id` has this email. */
  predicate HeldByOther(users: seq<User>, id: int, email: string) {
    users != [] && ((users[0].id != id && users[0].email == email) || HeldByOther(users[1..], id, email))
  }

  lemma {:induction false} HeldByOtherIff(users: seq<User>, id: int, email: string)
    ensures HeldByOther(users, id, email) <==> exists u :: u in users && u.id != id && u.email == email
  {
    if users != [] {
      assert users == [users[0]] + users[1..];
      HeldByOtherIff(users[1..], id, email);
    }
  }

  /** The new email is another account's, which the unique constraint
      refuses. */
  predicate EmailClash(users: seq<User>, id: int, email: string) {
    email != "" && HeldByOther(users, id, email)
  }

  /** `findUnique`/`update` find a row with this id. */
  predicate HasUser(users: seq<User>, id: int) {
    users != [] && (users[0].id == id || HasUser(users[1..], id))
  }

  /** The search succeeds exactly when some row has the id. */
  lemma {:induction false} HasUserIff(users: seq<User>, id: int)
    ensures HasUser(users, id) <==> exists u :: u in users && u.id == id
  {
    if users != [] {
      HasUserIff(users[1..], id);
      assert users == [users[0]] + users[1..];
    }
  }

  /** `UPDATE … WHERE id = id`: the rows with that id get the changes, the
      others stay as they are. */
  function UpdateWhereId(users: seq<User>, id: int, c: Changes, f: Foreign): (r: seq<User>)
    ensures |r| == |users|
    ensures forall i :: 0 <= i < |users| && users[i].id != id ==> r[i] == users[i]
    ensures forall i :: 0 <= i < |users| && users[i].id == id ==> r[i] == Apply(users[i], c, f)
  {
    if users == [] then []
    else
      var rest := UpdateWhereId(users[1..], id, c, f);
      assert forall i :: 1 <= i < |users| ==> users[i] == users[1..][i - 1];
      [if users[0].id == id then Apply(users[0], c, f) else users[0]] + rest
  }

  /** The update keeps ids and emails unique when the new email is not
      another account's. */
  lemma UpdateKeepsUsersValid(users: seq<User>, next: int, id: int, c: Changes, f: Foreign)
    requires UsersValid(users, next)
    requires !EmailClash(users, id, c.email)
    ensures UsersValid(UpdateWhereId(users, id, c, f), next)
  {
    var r := UpdateWhereId(users, id, c, f);
    HeldByOtherIff(users, id, c.email);
    forall v | v in r ensures v.id < next {
      var k :| 0 <= k < |r| && r[k] == v;
      assert users[k] in users;
    }
    forall i, j | 0 <= i < j < |r| ensures r[i].id != r[j].id && r[i].email != r[j].email {
      assert users[i] in users && users[j] in users;
    }
  }

  /** `user.update({where: {id: session.data.user}, data})`: it throws
      (`None`) when there is no session user, when no row has the id, and
      when the new email is another account's; otherwise it rewrites the
      row. */
  function Update(users: seq<User>, sessionUser: Option<int>, c: Changes, f: Foreign): (r: Option<seq<User>>)
    ensures r.None? <==> sessionUser.None? ||
                         !(exists u :: u in users && u.id == sessionUser.value) ||
                         EmailClash(users, sessionUser.value, c.email)
    ensures r.Some? ==> r.value == UpdateWhereId(users, sessionUser.value, c, f)
  {
    if sessionUser.None? then None
    else
      HasUserIff(users, sessionUser.value);
      if !HasUser(users, sessionUser.value) || EmailClash(users, sessionUser.value, c.email) then None
      else Some(UpdateWhereId(users, sessionUser.value, c, f))
  }

  /** `action`, with no method or sign-in guard: 400 for invalid input;
      then the update, which either throws and changes nothing or rewrites
      the user's row and answers `{ok: true}`. */
  method Action(db: Db, session: Session, f: Foreign, form: SettingsForm) returns (reply: Reply)
    modifies db`users
    ensures !ValidInput(form, f) ==> reply == BadRequest && db.users == old(db.users)
    ensures ValidInput(form, f) ==>
      match Update(old(db.users), session.Get(UserKey), Decode(form, f), f)
      case None => reply == Thrown && db.users == old(db.users)
      case Some(rows) => reply == OkData && db.users == rows
    ensures old(db.Valid()) ==> db.Valid()
  {
    if !ValidInput(form, f) { return BadRequest; }
    var uid := session.Get(UserKey);
    var c := Decode(form, f);
    var rows := Update(db.users, uid, c, f);
    if rows.None? { return Thrown; }
    if db.Valid() {
      UpdateKeepsUsersValid(db.users, db.nextUserId, uid.value, c, f);
    }
    db.SetUsers(rows.value);
    assert session.Get(UserKey) == uid;
    assert Update(old(db.users), session.Get(UserKey), Decode(form, f), f) == rows;
    return OkData;
  }
}
