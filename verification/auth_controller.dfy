/** Account creation and sign-in (backend/src/controllers/auth.controller.js).
    Accounts are keyed by email, the key both handlers look them up by. */
module AuthController {
  import opened Common
  import opened Response

  /** A stored account: `name` is the optional username, `password` the bcrypt hash. */
  datatype User = User(id: UserId, name: Option<string>, email: string, password: string)

  /** The `User` collection, keyed by email. */
  type Users = map<string, User>

  /** Every account is stored under its own email. */
  ghost predicate KeyedByEmail(users: Users) {
    forall e :: e in users ==> users[e].email == e
  }

  /** The JSON bodies of `POST /api/auth/signup` and `POST /api/auth/login`. */
  datatype SignupBody = SignupBody(email: Option<string>, password: Option<string>, username: Option<string>)
  datatype LoginBody = LoginBody(email: Option<string>, password: Option<string>)

  /** The `data` of a successful reply: `{token, user: {id, email}}`. */
  datatype Session = Session(token: string, user: Claims)

  /** A reply together with the collection after the request. */
  datatype AuthStep = AuthStep(reply: Envelope<Session>, users: Users)

  const PasswordMinLength := 6
  const ExistsMessage := "User already exists"
  const CredentialsRequiredMessage := "Email and password required"
  const InvalidCredentialsMessage := "Invalid credentials"

  /** `signupSchema.validate(body)`: the first failing key in schema order, or
      `None`. Joi strings refuse "", so an empty username fails too; the email
      rule is the uninterpreted `isEmail`. */
  function SignupSchema(body: SignupBody, isEmail: string -> bool): (invalid: Option<string>)
    ensures invalid.None? <==>
      && body.email.Some? && body.email.value != "" && isEmail(body.email.value)
      && body.password.Some? && Utf16Length(body.password.value) >= PasswordMinLength
      && body.username != Some("")
    ensures invalid.Some? ==> invalid.value in {"email", "password", "username"}
  {
    if body.email.None? || body.email.value == "" || !isEmail(body.email.value) then Some("email")
    else if body.password.None? || Utf16Length(body.password.value) < PasswordMinLength then Some("password")
    else if body.username == Some("") then Some("username")
    else None
  }

  /** The token and the `user` of a session for `u`. */
  function SessionFor(u: User, jwt: Jwt): (s: Session)
    ensures s.user == Claims(u.id, u.email) && s.token == jwt.sign(s.user)
  {
    var c := Claims(u.id, u.email);
    Session(jwt.sign(c), c)
  }

  /** `signup`; `newId` is the `_id` the database assigns and `salt` bcrypt's salt. */
  function Signup(users: Users, body: SignupBody, isEmail: string -> bool, newId: UserId, salt: nat,
                  bcrypt: Bcrypt, jwt: Jwt): (r: AuthStep)
    ensures r.reply.status == 400 <==> SignupSchema(body, isEmail).Some?
    ensures r.reply.status == 409 <==> SignupSchema(body, isEmail).None? && body.email.value in users
    ensures r.reply.status == 409 ==> r.reply.message == ExistsMessage
    ensures r.reply.status != 200 ==> r.users == users && !r.reply.success && r.reply.data.None?
    ensures r.reply.status == 200 <==> SignupSchema(body, isEmail).None? && body.email.value !in users
    ensures r.reply.status == 200 ==>
      var e := body.email.value;
      && r.users.Keys == users.Keys + {e}
      && (forall k :: k in users ==> r.users[k] == users[k])
      && r.users[e] == User(newId, body.username, e, bcrypt.hash(body.password.value, salt))
      && r.reply.data == Some(Session(jwt.sign(Claims(newId, e)), Claims(newId, e)))
    ensures KeyedByEmail(users) ==> KeyedByEmail(r.users)
  {
    var invalid := SignupSchema(body, isEmail);
    if invalid.Some? then AuthStep(Fail("\"" + invalid.value + "\" is invalid", 400), users)
    else
      var e := body.email.value;
      if e in users then AuthStep(Fail(ExistsMessage, 409), users)
      else
        var u := User(newId, body.username, e, bcrypt.hash(body.password.value, salt));
        AuthStep(Success(SessionFor(u, jwt), Some("Signup successful")), users[e := u])
  }

  /** `login`: read-only, so it returns the reply alone. */
  function Login(users: Users, body: LoginBody, bcrypt: Bcrypt, jwt: Jwt): (r: Envelope<Session>)
    ensures r.status == 400 <==> !Present(body.email) || !Present(body.password)
    ensures r.status == 401 <==>
      Present(body.email) && Present(body.password)
      && (body.email.value !in users || !bcrypt.compare(body.password.value, users[body.email.value].password))
    ensures r.status == 401 ==> r == Fail(InvalidCredentialsMessage, 401)
    ensures r.status == 200 <==>
      Present(body.email) && Present(body.password) && body.email.value in users
      && bcrypt.compare(body.password.value, users[body.email.value].password)
    ensures r.status == 200 ==>
      var u := users[body.email.value];
      r.data == Some(Session(jwt.sign(Claims(u.id, u.email)), Claims(u.id, u.email)))
  {
    if !Present(body.email) || !Present(body.password) then Fail(CredentialsRequiredMessage, 400)
    else if body.email.value !in users then Fail(InvalidCredentialsMessage, 401)
    else
      var u := users[body.email.value];
      if !bcrypt.compare(body.password.value, u.password) then Fail(InvalidCredentialsMessage, 401)
      else Success(SessionFor(u, jwt), Some("Login successful"))
  }

  /** An unknown email and a wrong password get the identical reply, so the
      reply does not reveal whether an account exists. */
  lemma NoAccountProbe(users: Users, email: string, password: string, wrong: string, bcrypt: Bcrypt, jwt: Jwt)
    requires email != "" && password != "" && wrong != ""
    requires email in users && !bcrypt.compare(wrong, users[email].password)
    ensures Login(users - {email}, LoginBody(Some(email), Some(password)), bcrypt, jwt)
         == Login(users, LoginBody(Some(email), Some(wrong)), bcrypt, jwt)
  {
  }

  /** With a sound bcrypt, signing up and then logging in with the same
      credentials succeeds and issues a token for the new account. */
  lemma {:induction false} SignupThenLogin(users: Users, body: SignupBody, isEmail: string -> bool, newId: UserId,
                                           salt: nat, bcrypt: Bcrypt, jwt: Jwt)
    requires Sound(bcrypt)
    requires Signup(users, body, isEmail, newId, salt, bcrypt, jwt).reply.status == 200
    ensures var users' := Signup(users, body, isEmail, newId, salt, bcrypt, jwt).users;
      Login(users', LoginBody(body.email, body.password), bcrypt, jwt)
      == Success(Session(jwt.sign(Claims(newId, body.email.value)), Claims(newId, body.email.value)), Some("Login successful"))
  {
    assert bcrypt.compare(body.password.value, bcrypt.hash(body.password.value, salt));
  }

  /** A second signup with the same email is refused and changes nothing. */
  lemma {:induction false} SignupTwiceConflicts(users: Users, body: SignupBody, isEmail: string -> bool,
                                                id1: UserId, id2: UserId, salt1: nat, salt2: nat, bcrypt: Bcrypt, jwt: Jwt)
    requires Signup(users, body, isEmail, id1, salt1, bcrypt, jwt).reply.status == 200
    ensures var once := Signup(users, body, isEmail, id1, salt1, bcrypt, jwt).users;
      Signup(once, body, isEmail, id2, salt2, bcrypt, jwt) == AuthStep(Fail(ExistsMessage, 409), once)
  {
    var once := Signup(users, body, isEmail, id1, salt1, bcrypt, jwt).users;
    assert body.email.value in once;
  }

  /** The form's blank username (`""`) fails validation: only an absent one is optional. */
  lemma EmptyUsernameRejected(users: Users, email: string, password: string, isEmail: string -> bool,
                              newId: UserId, salt: nat, bcrypt: Bcrypt, jwt: Jwt)
    requires email != "" && isEmail(email) && Utf16Length(password) >= PasswordMinLength
    ensures Signup(users, SignupBody(Some(email), Some(password), Some("")), isEmail, newId, salt, bcrypt, jwt).reply
         == Fail("\"username\" is invalid", 400)
    ensures Signup(users, SignupBody(Some(email), Some(password), None), isEmail, newId, salt, bcrypt, jwt).reply.status != 400
  {
    var blank := SignupBody(Some(email), Some(password), Some(""));
    assert SignupSchema(blank, isEmail) == Some("username");
    assert "\"" + "username" + "\" is invalid" == "\"username\" is invalid";
    var absent := SignupBody(Some(email), Some(password), None);
    assert SignupSchema(absent, isEmail).None?;
  }
}
