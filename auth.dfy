/** The authentication endpoints of `AuthenticationViewSet`
    (apps/authentication/views/auth_view.py) and their two input schemas
    (apps/authentication/serializers/authentication_serializer.py): login
    by e-mail and password against the user table, and logout by
    blacklisting a refresh token. */
module Auth {
  import opened Common
  import Users

  /** The two serializers of the view set. */
  datatype Schema = LoginSchema | LogoutSchema

  /** Fields a schema reads from a request body. */
  function InputFields(s: Schema): set<string> {
    match s
    case LoginSchema => {"email", "password"}
    case LogoutSchema => {"refresh_token"}
  }

  /** Fields a schema renders: the password is write-only. */
  function OutputFields(s: Schema): set<string> {
    match s
    case LoginSchema => {"email"}
    case LogoutSchema => {"refresh_token"}
  }

  /** `get_serializer_class`: the login schema for `login`, the logout
      schema for every other action; only the login schema takes a
      password and neither renders one. */
  function SerializerFor(action: string): (s: Schema)
    ensures s == LoginSchema <==> action == "login"
    ensures "password" in InputFields(s) <==> action == "login"
    ensures "refresh_token" in InputFields(s) <==> action != "login"
    ensures "password" !in OutputFields(s)
  {
    if action == "login" then LoginSchema else LogoutSchema
  }

  // ---------------------------------------------------------------------
  // Login

  /** `AuthenticationSerializer`: an e-mail field (trimmed, not blank, in
      e-mail format) and a password field (trimmed, not blank). */
  function CleanLoginField(key: string, v: Value, env: Collaborators): (r: Option<string>)
    ensures r.Some? ==> v.Str? && r.value == Strip(v.s) && r.value != []
    ensures r.Some? && key == "email" ==> env.isEmail(r.value)
    ensures r.Some? <==> CleanText(v, None).Some? && (key == "email" ==> env.isEmail(Strip(v.s)))
  {
    match CleanText(v, None)
    case None => None
    case Some(text) => if key == "email" && !env.isEmail(text) then None else Some(text)
  }

  /** The login fields that are missing or fail their field's rules. */
  function LoginBadFields(body: Body, env: Collaborators): set<string> {
    set k | k in InputFields(LoginSchema) && (k !in body || CleanLoginField(k, body[k], env).None?)
  }

  /** The e-mail and password a login request carries once validated. */
  datatype Credentials = Credentials(email: string, password: string)

  /** `serializer.is_valid(raise_exception=True)` with the login schema:
      the trimmed e-mail and password, or a ValidationError naming each
      field that is missing or invalid. */
  function ValidateLogin(body: Body, env: Collaborators): (r: Result<Credentials>)
    ensures r.Ok? <==> LoginBadFields(body, env) == {}
    ensures r.Err? ==> r.error == ValidationError(LoginBadFields(body, env))
    ensures r.Ok? ==> r.value == Credentials(Supplied(body, "email"), Supplied(body, "password"))
    ensures r.Ok? ==> r.value.email != [] && r.value.password != [] && env.isEmail(r.value.email)
  {
    var bad := LoginBadFields(body, env);
    if bad != {} then Err(ValidationError(bad))
    else
      assert "email" !in bad && "password" !in bad;
      var e := CleanLoginField("email", body["email"], env);
      var p := CleanLoginField("password", body["password"], env);
      Ok(Credentials(e.value, p.value))
  }

  /** Whether some user, active or not, has exactly this e-mail. */
  predicate Registered(users: Users.Table, email: string) {
    exists id :: id in users && users[id].email == email
  }

  /** `User.objects.get(email=...)`: the one user with exactly this
      e-mail, or None when there is none. The e-mail is unique, so the
      lookup never finds two. */
  function FindByEmail(users: Users.Table, email: string): (r: Option<UserId>)
    requires Users.EmailsUnique(users)
    ensures r.None? <==> !Registered(users, email)
    ensures r.Some? ==> r.value in users && users[r.value].email == email
    ensures r.Some? ==> forall id :: id in users && users[id].email == email ==> id == r.value
  {
    if Registered(users, email) then
      var id :| id in users && users[id].email == email;
      Some(id)
    else None
  }

  /** What a successful login answers: both tokens and the public profile
      of the user, which has no password in it. */
  datatype LoginReply = LoginReply(refresh: string, access: string, user: Users.Profile)

  /** `login`: validate the body, find the user by e-mail (failing when
      there is none), check the password against the stored hash (failing
      when it does not match), and only then issue a token pair and answer
      200 with it and the user's profile. */
  function Login(users: Users.Table, body: Body, env: Collaborators): (r: Outcome<LoginReply>)
    requires Users.EmailsUnique(users)
    ensures ValidateLogin(body, env).Err? ==> r == Failed(ValidateLogin(body, env).error)
    ensures r == Failed(AuthenticationFailed("User with the provided email does not exist")) <==>
      ValidateLogin(body, env).Ok? && !Registered(users, Supplied(body, "email"))
    ensures r == Failed(AuthenticationFailed("Incorrect password")) <==>
      && ValidateLogin(body, env).Ok?
      && var found := FindByEmail(users, Supplied(body, "email"));
         found.Some? && !env.checkPassword(Supplied(body, "password"), users[found.value].password)
    ensures r.Done? ==>
      && r.status == 200
      && var found := FindByEmail(users, Supplied(body, "email"));
         && found.Some?
         && env.checkPassword(Supplied(body, "password"), users[found.value].password)
         && r.body == LoginReply(env.issueTokens(found.value).refresh, env.issueTokens(found.value).access,
                                 Users.ProfileOf(found.value, users[found.value]))
    ensures r.Done? <==>
      && ValidateLogin(body, env).Ok?
      && Registered(users, Supplied(body, "email"))
      && env.checkPassword(Supplied(body, "password"), users[FindByEmail(users, Supplied(body, "email")).value].password)
    ensures r.Failed? ==> r.error.ValidationError? || r.error.AuthenticationFailed?
    ensures r.Failed? ==> ErrorStatus(r.error) == 400 || ErrorStatus(r.error) == 401
  {
    match ValidateLogin(body, env)
    case Err(e) => Failed(e)
    case Ok(c) =>
      match FindByEmail(users, c.email)
      case None => Failed(AuthenticationFailed("User with the provided email does not exist"))
      case Some(id) =>
        var u := users[id];
        if !env.checkPassword(c.password, u.password) then Failed(AuthenticationFailed("Incorrect password"))
        else
          var tokens := env.issueTokens(id);
          Done(200, LoginReply(tokens.refresh, tokens.access, Users.ProfileOf(id, u)))
  }

  // ---------------------------------------------------------------------
  // Logout

  /** `LogoutSerializer`: a `refresh_token` that is text and not blank. */
  predicate LogoutValid(body: Body) {
    "refresh_token" in body && CleanText(body["refresh_token"], None).Some?
  }

  /** Whether `RefreshToken(t)` accepts `t`: the library parses and
      verifies it, and refuses a token that is already blacklisted. */
  predicate Accepted(blacklist: set<string>, token: Value, env: Collaborators) {
    token.Str? && env.tokenValid(token.s) && token.s !in blacklist
  }

  /** `logout`: the schema demands `refresh_token`, but the token acted on
      is the body's `refresh` value. No or a falsy `refresh` leaves the
      blacklist alone and answers 200; an accepted token is added to the
      blacklist, also with 200; a refused one (malformed, expired or
      already blacklisted) is answered 400 "Refresh token is invalid" and
      blacklists nothing. */
  function Logout(blacklist: set<string>, body: Body, env: Collaborators): (r: (Outcome<string>, set<string>))
    ensures !LogoutValid(body) ==> r == (Failed(ValidationError({"refresh_token"})), blacklist)
    ensures r.1 != blacklist <==>
      LogoutValid(body) && "refresh" in body && Truthy(body["refresh"]) && Accepted(blacklist, body["refresh"], env)
    ensures r.1 == blacklist || ("refresh" in body && body["refresh"].Str? && r.1 == blacklist + {body["refresh"].s})
    ensures r.0 == Done(200, "Successfully logged out") <==>
      && LogoutValid(body)
      && ("refresh" in body && Truthy(body["refresh"]) ==> Accepted(blacklist, body["refresh"], env))
    ensures r.0 == Failed(BadRequest("Refresh token is invalid")) <==>
      && LogoutValid(body) && "refresh" in body && Truthy(body["refresh"])
      && !Accepted(blacklist, body["refresh"], env)
  {
    if !LogoutValid(body) then (Failed(ValidationError({"refresh_token"})), blacklist)
    else if "refresh" !in body || !Truthy(body["refresh"]) then (Done(200, "Successfully logged out"), blacklist)
    else if Accepted(blacklist, body["refresh"], env) then
      (Done(200, "Successfully logged out"), blacklist + {body["refresh"].s})
    else (Failed(BadRequest("Refresh token is invalid")), blacklist)
  }

  /** `logout` as written: the clause meant to catch a refused token names
      `RefreshToken.InvalidToken`, which the token class does not define,
      so evaluating it while the library's TokenError propagates raises
      again and the request ends in a server error. Every other path is
      the one `Logout` takes. */
  function LogoutAsWritten(blacklist: set<string>, body: Body, env: Collaborators): (r: (Outcome<string>, set<string>))
    ensures r.0 == Failed(ServerError) <==>
      LogoutValid(body) && "refresh" in body && Truthy(body["refresh"]) && !Accepted(blacklist, body["refresh"], env)
    ensures r.0 != Failed(ServerError) ==> r == Logout(blacklist, body, env)
    ensures r.1 == Logout(blacklist, body, env).1
  {
    var (o, b) := Logout(blacklist, body, env);
    if o == Failed(BadRequest("Refresh token is invalid")) then (Failed(ServerError), b) else (o, b)
  }

  /** The discrepancy on a concrete request: a logout whose `refresh` is
      already blacklisted ends in a server error as written, where the
      handler evidently meant to answer 400 "Refresh token is invalid". */
  lemma BlacklistedLogout(env: Collaborators)
    ensures var body := map["refresh_token" := Str("r"), "refresh" := Str("r")];
      && LogoutAsWritten({"r"}, body, env) == (Failed(ServerError), {"r"})
      && Logout({"r"}, body, env) == (Failed(BadRequest("Refresh token is invalid")), {"r"})
  {
    assert Strip("r") == "r";
  }
}
