/** The user table and the user endpoints: the `User` record
    (apps/users/models/user.py), its two serializers
    (apps/users/serializers/user_serializer.py) and the view actions of
    `UserViewSet` (apps/users/views/user_view.py), each written as a
    function from the table and the request to the answer and the new
    table. */
module Users {
  import opened Common

  const FirstNameMax: nat := 30
  const LastNameMax: nat := 30
  const EmailMax: nat := 255

  /** The length limit of the `password` column that `User` inherits from
      Django's `AbstractUser`; the create schema applies it to the plain
      text it receives. */
  const PasswordMax: nat := 128

  /** A stored user. `password` holds the hash, never the plain text; there
      is no username: the e-mail is the login identifier. */
  datatype User = User(
    email: string,
    firstName: string,
    lastName: string,
    password: string,
    isActive: bool)

  type Table = map<UserId, User>

  /** The public projection `UserSerializer` renders: exactly id,
      first_name, last_name and email. */
  datatype Profile = Profile(id: UserId, firstName: string, lastName: string, email: string)

  function ProfileOf(id: UserId, u: User): Profile {
    Profile(id, u.firstName, u.lastName, u.email)
  }

  /** The model's field limits: names and e-mail are required and bounded. */
  predicate WellFormed(u: User) {
    && u.firstName != [] && |u.firstName| <= FirstNameMax
    && u.lastName != [] && |u.lastName| <= LastNameMax
    && u.email != [] && |u.email| <= EmailMax
  }

  /** The unique constraint on `email`. */
  predicate EmailsUnique(t: Table) {
    forall a, b :: a in t && b in t && t[a].email == t[b].email ==> a == b
  }

  /** What the database guarantees of the table: unique e-mails, rows
      within their field limits, and ids below the auto-increment counter. */
  predicate TableOk(t: Table, next: UserId) {
    && EmailsUnique(t)
    && forall id :: id in t ==> id < next && WellFormed(t[id])
  }

  /** Adding a fresh, well-formed user with an e-mail nobody has keeps the
      table's guarantees. */
  lemma InsertKeepsTableOk(t: Table, next: UserId, u: User)
    requires TableOk(t, next) && WellFormed(u) && !EmailTaken(t, u.email, None)
    ensures next !in t
    ensures t[next := u].Keys == t.Keys + {next}
    ensures forall id :: id in t ==> t[next := u][id] == t[id]
    ensures TableOk(t[next := u], next + 1)
  {
  }

  /** Replacing a user by a well-formed record whose e-mail no other user
      has keeps the table's guarantees. */
  lemma ReplaceKeepsTableOk(t: Table, next: UserId, pk: UserId, u: User)
    requires TableOk(t, next) && pk in t && WellFormed(u) && !EmailTaken(t, u.email, Some(pk))
    ensures t[pk := u].Keys == t.Keys
    ensures forall id :: id in t && id != pk ==> t[pk := u][id] == t[id]
    ensures TableOk(t[pk := u], next)
  {
  }

  /** The two serializers of the view. */
  datatype Schema = ProfileSchema | CreateSchema

  /** Fields a schema reads from a request body. */
  function InputFields(s: Schema): set<string> {
    match s
    case ProfileSchema => {"first_name", "last_name", "email"}
    case CreateSchema => {"first_name", "last_name", "email", "password"}
  }

  /** Fields a schema renders: `id` is read-only, `password` write-only. */
  function OutputFields(s: Schema): set<string> {
    match s
    case ProfileSchema => {"id", "first_name", "last_name", "email"}
    case CreateSchema => {"first_name", "last_name", "email"}
  }

  /** `get_serializer_class`: the create schema for `create_user`, the
      profile schema for every other action; only the create schema takes
      a password and no schema ever renders one. */
  function SerializerFor(action: string): (s: Schema)
    ensures s == CreateSchema <==> action == "create_user"
    ensures "password" in InputFields(s) <==> action == "create_user"
    ensures "password" !in OutputFields(s)
    ensures "email" in InputFields(s) && "email" in OutputFields(s)
  {
    if action == "create_user" then CreateSchema else ProfileSchema
  }

  /** Whether some user other than `self` already has this e-mail (the
      UniqueValidator that `unique=True` puts on the field). */
  predicate EmailTaken(t: Table, email: string, self: Option<UserId>) {
    exists id :: id in t && t[id].email == email && self != Some(id)
  }

  /** Cleans one field of a user schema (`password` being the only key
      left after the three profile fields); None when it breaks the field's
      rules (text, not blank, length, e-mail format, uniqueness). */
  function CleanField(t: Table, self: Option<UserId>, key: string, v: Value, env: Collaborators): (r: Option<string>)
    ensures r.Some? ==> v.Str? && r.value == Strip(v.s) && r.value != []
    ensures r.Some? && key == "first_name" ==> |r.value| <= FirstNameMax
    ensures r.Some? && key == "last_name" ==> |r.value| <= LastNameMax
    ensures r.Some? && key == "email" ==> |r.value| <= EmailMax && !EmailTaken(t, r.value, self) && env.isEmail(r.value)
    ensures r.Some? && key == "password" ==> |r.value| <= PasswordMax
    ensures key == "first_name" ==> (r.Some? <==> CleanText(v, Some(FirstNameMax)).Some?)
    ensures key == "last_name" ==> (r.Some? <==> CleanText(v, Some(LastNameMax)).Some?)
    ensures key == "email" ==>
      (r.Some? <==> CleanText(v, Some(EmailMax)).Some? && env.isEmail(Strip(v.s)) && !EmailTaken(t, Strip(v.s), self))
    ensures key == "password" ==> (r.Some? <==> CleanText(v, Some(PasswordMax)).Some?)
  {
    if key == "first_name" then CleanText(v, Some(FirstNameMax))
    else if key == "last_name" then CleanText(v, Some(LastNameMax))
    else if key == "email" then
      match CleanText(v, Some(EmailMax))
      case None => None
      case Some(e) => if env.isEmail(e) && !EmailTaken(t, e, self) then Some(e) else None
    else CleanText(v, Some(PasswordMax))
  }

  /** The keys of `fields` that fail validation: present but invalid, or
      missing when the update is not partial. */
  function BadFields(t: Table, self: Option<UserId>, fields: set<string>, body: Body, partial: bool, env: Collaborators): set<string> {
    set k | k in fields && (if k in body then CleanField(t, self, k, body[k], env).None? else !partial)
  }

  /** `serializer.is_valid(raise_exception=True)`: the cleaned values of
      the schema's fields present in the body, or a ValidationError naming
      every failing field. Keys outside the schema are ignored. */
  function Validate(t: Table, self: Option<UserId>, fields: set<string>, body: Body, partial: bool, env: Collaborators): (r: Result<map<string, string>>)
    ensures r.Ok? <==> BadFields(t, self, fields, body, partial, env) == {}
    ensures r.Err? ==> r.error == ValidationError(BadFields(t, self, fields, body, partial, env))
    ensures r.Ok? ==> r.value.Keys == fields * body.Keys
    ensures r.Ok? && !partial ==> fields <= body.Keys
    ensures r.Ok? ==> forall k :: k in r.value ==> CleanField(t, self, k, body[k], env) == Some(r.value[k])
  {
    var bad := BadFields(t, self, fields, body, partial, env);
    if bad != {} then Err(ValidationError(bad))
    else
      assert forall k :: k in fields && k in body ==> k !in bad;
      assert !partial ==> forall k :: k in fields ==> k !in bad;
      var m := map k | k in fields && k in body :: CleanField(t, self, k, body[k], env).value;
      assert m.Keys == fields * body.Keys;
      assert forall k :: k in m ==> CleanField(t, self, k, body[k], env) == Some(m[k]);
      Ok(m)
  }

  /** `get_object`: only active users are visible. */
  function GetObject(t: Table, pk: UserId): (r: Result<User>)
    ensures r.Ok? <==> pk in t && t[pk].isActive
    ensures r.Ok? ==> r.value == t[pk]
    ensures r.Err? ==> r.error == NotFound("Object not found")
  {
    if pk in t && t[pk].isActive then Ok(t[pk]) else Err(NotFound("Object not found"))
  }

  /** `list`: the profile of every active user, keyed by id. */
  function List(t: Table): (r: map<UserId, Profile>)
    ensures forall id :: id in r <==> id in t && t[id].isActive
    ensures forall id :: id in r ==> r[id].id == id && r[id].email == t[id].email
    ensures forall id :: id in r ==> r[id] == ProfileOf(id, t[id])
  {
    map id | id in t && t[id].isActive :: ProfileOf(id, t[id])
  }

  /** `UserCreateSerializer.create`: the user built from a body that
      passed the create schema, holding the trimmed names and e-mail and
      `make_password` of the password in place of the plain text. It is
      well-formed and its e-mail is still free. */
  function NewUser(t: Table, body: Body, env: Collaborators): (u: User)
    requires Validate(t, None, InputFields(CreateSchema), body, false, env).Ok?
    ensures WellFormed(u) && !EmailTaken(t, u.email, None) && u.isActive
    ensures u.email == Supplied(body, "email") && env.isEmail(u.email)
    ensures u.firstName == Supplied(body, "first_name") && u.lastName == Supplied(body, "last_name")
    ensures u.password == env.makePassword(Supplied(body, "password"))
  {
    var data := Validate(t, None, InputFields(CreateSchema), body, false, env).value;
    assert "email" in data && "first_name" in data && "last_name" in data && "password" in data by {
      assert InputFields(CreateSchema) <= body.Keys;
    }
    assert CleanField(t, None, "email", body["email"], env) == Some(data["email"]);
    assert CleanField(t, None, "first_name", body["first_name"], env) == Some(data["first_name"]);
    assert CleanField(t, None, "last_name", body["last_name"], env) == Some(data["last_name"]);
    assert CleanField(t, None, "password", body["password"], env) == Some(data["password"]);
    User(data["email"], data["first_name"], data["last_name"], env.makePassword(data["password"]), true)
  }

  /** `create_user`: validates the four create fields, stores the user with
      `make_password` of the password in place of the plain text, and
      answers 201 with id and names and e-mail only. */
  function Create(t: Table, next: UserId, body: Body, env: Collaborators): (r: (Outcome<Profile>, Table))
    requires TableOk(t, next)
    ensures r.0.Failed? ==> r.1 == t && r.0.error.ValidationError?
    ensures r.0.Done? <==> Validate(t, None, InputFields(CreateSchema), body, false, env).Ok?
    ensures Validate(t, None, InputFields(CreateSchema), body, false, env).Err? ==>
      r.0 == Failed(Validate(t, None, InputFields(CreateSchema), body, false, env).error)
    ensures r.0.Done? ==>
      && r.0.status == 201
      && r.1.Keys == t.Keys + {next}
      && (forall id :: id in t ==> r.1[id] == t[id])
      && r.1[next].email == Supplied(body, "email")
      && r.1[next].firstName == Supplied(body, "first_name")
      && r.1[next].lastName == Supplied(body, "last_name")
      && r.1[next].password == env.makePassword(Supplied(body, "password"))
      && r.1[next].isActive
      && r.0.body == ProfileOf(next, r.1[next])
    ensures TableOk(r.1, if r.0.Done? then next + 1 else next)
  {
    var v := Validate(t, None, InputFields(CreateSchema), body, false, env);
    if v.Err? then (Failed(v.error), t)
    else
      var u := NewUser(t, body, env);
      InsertKeepsTableOk(t, next, u);
      (Done(201, ProfileOf(next, u)), t[next := u])
  }

  /** `ModelSerializer.update`: sets each validated attribute on the user;
      the password and the active flag are not profile fields and keep
      their values. */
  function Save(u: User, data: map<string, string>): User {
    u.(firstName := if "first_name" in data then data["first_name"] else u.firstName,
       lastName := if "last_name" in data then data["last_name"] else u.lastName,
       email := if "email" in data then data["email"] else u.email)
  }

  /** Saving data that passed the partial profile validation keeps the
      user well-formed, its e-mail free of other users, and the table's
      guarantees; each supplied field is stored trimmed. */
  lemma SaveKeepsTableOk(t: Table, next: UserId, pk: UserId, body: Body, env: Collaborators)
    requires TableOk(t, next) && pk in t
    requires Validate(t, Some(pk), InputFields(ProfileSchema), body, true, env).Ok?
    ensures var u := Save(t[pk], Validate(t, Some(pk), InputFields(ProfileSchema), body, true, env).value);
      && WellFormed(u) && !EmailTaken(t, u.email, Some(pk))
      && TableOk(t[pk := u], next)
      && u.firstName == (if "first_name" in body then Supplied(body, "first_name") else t[pk].firstName)
      && u.lastName == (if "last_name" in body then Supplied(body, "last_name") else t[pk].lastName)
      && u.email == (if "email" in body then Supplied(body, "email") else t[pk].email)
  {
    var data := Validate(t, Some(pk), InputFields(ProfileSchema), body, true, env).value;
    var u := Save(t[pk], data);
    assert forall k :: k in InputFields(ProfileSchema) ==> (k in data <==> k in body);
    assert "first_name" in data ==> CleanField(t, Some(pk), "first_name", body["first_name"], env) == Some(u.firstName);
    assert "last_name" in data ==> CleanField(t, Some(pk), "last_name", body["last_name"], env) == Some(u.lastName);
    assert "email" in data ==> CleanField(t, Some(pk), "email", body["email"], env) == Some(u.email);
    assert WellFormed(u);
    assert !EmailTaken(t, u.email, Some(pk));
    ReplaceKeepsTableOk(t, next, pk, u);
  }

  /** `partial_update`: only an active user can be updated; the supplied
      first_name, last_name and email are validated and stored, the other
      fields and the other users are left as they were. */
  function PartialUpdate(t: Table, next: UserId, pk: UserId, body: Body, env: Collaborators): (r: (Outcome<Profile>, Table))
    requires TableOk(t, next)
    ensures r.0.Failed? ==> r.1 == t
    ensures r.0 == Failed(NotFound("Object not found")) <==> !(pk in t && t[pk].isActive)
    ensures r.0.Done? <==>
      pk in t && t[pk].isActive && Validate(t, Some(pk), InputFields(ProfileSchema), body, true, env).Ok?
    ensures pk in t && t[pk].isActive && Validate(t, Some(pk), InputFields(ProfileSchema), body, true, env).Err? ==>
      r.0 == Failed(Validate(t, Some(pk), InputFields(ProfileSchema), body, true, env).error)
    ensures r.0.Done? ==>
      && r.0.status == 200
      && r.1.Keys == t.Keys
      && (forall id :: id in t && id != pk ==> r.1[id] == t[id])
      && r.1[pk].password == t[pk].password
      && r.1[pk].isActive == t[pk].isActive
      && r.1[pk].firstName == (if "first_name" in body then Supplied(body, "first_name") else t[pk].firstName)
      && r.1[pk].lastName == (if "last_name" in body then Supplied(body, "last_name") else t[pk].lastName)
      && r.1[pk].email == (if "email" in body then Supplied(body, "email") else t[pk].email)
      && r.0.body == ProfileOf(pk, r.1[pk])
    ensures TableOk(r.1, next)
  {
    match GetObject(t, pk)
    case Err(e) => (Failed(e), t)
    case Ok(u) =>
      match Validate(t, Some(pk), InputFields(ProfileSchema), body, true, env)
      case Err(e) => (Failed(e), t)
      case Ok(data) =>
        var u' := Save(u, data);
        SaveKeepsTableOk(t, next, pk, body, env);
        (Done(200, ProfileOf(pk, u')), t[pk := u'])
  }

  /** `delete`: a hard removal of an active user, answered with 204. */
  function Delete(t: Table, pk: UserId): (r: (Outcome<string>, Table))
    ensures r.0.Failed? <==> !(pk in t && t[pk].isActive)
    ensures r.0.Failed? ==> r.1 == t && r.0.error == NotFound("Object not found")
    ensures r.0.Done? ==> r.0.status == 204 && r.1 == t - {pk} && pk !in r.1
    ensures r.0.Done? ==> GetObject(r.1, pk).Err?
  {
    match GetObject(t, pk)
    case Err(e) => (Failed(e), t)
    case Ok(_) => (Done(204, "User deleted successfully"), t - {pk})
  }
}
