/** The login and token-check routes of the Express server. Password hashing
    and token signing are oracles: `compare(password, hash)` is bcrypt's
    check and `sign(claims, secret, seconds)` issues a token. */
module Auth {
  import opened Base
  import opened Schema

  /** A row of `users`. */
  datatype User = User(id: nat, email: string, passwordHash: string, role: string)

  /** The payload signed into a session token. */
  datatype Claims = Claims(id: nat, email: string, role: string)

  /** The body of a successful login. */
  datatype Session = Session(token: string, user: Claims)

  datatype LoginBody = LoginBody(email: Field, password: Field)

  /** `expiresIn: '7d'`, in seconds. */
  const SessionSeconds: nat := 7 * 24 * 60 * 60

  /** `process.env.JWT_SECRET || 'secret'` */
  function Secret(env: Option<string>): string {
    OrDefault(env, "secret")
  }

  /** `SELECT * FROM users WHERE email = ?`, first row. */
  function FindByEmail(users: seq<User>, email: string): (r: Option<User>)
    ensures r.Some? ==> r.value in users && r.value.email == email
    ensures r.None? <==> forall u :: u in users ==> u.email != email
  {
    if users == [] then None
    else if users[0].email == email then Some(users[0])
    else FindByEmail(users[1..], email)
  }

  const InvalidCredentials := "Invalid credentials"

  /** `POST /auth/login`. `dbFails` makes the user query raise. */
  function Login(users: seq<User>, body: LoginBody, dbFails: bool, env: Option<string>,
                 compare: (string, string) -> bool, sign: (Claims, string, nat) -> string): (r: Reply<Session>)
    ensures !(body.email.Truthy() && body.password.Truthy()) ==> r == Fail(400, "Email and password are required")
    ensures body.email.Truthy() && body.password.Truthy() && dbFails ==> r == Fail(500, ServerError)
    ensures r.Ok? <==>
      && body.email.Truthy() && body.password.Truthy() && !dbFails
      && FindByEmail(users, body.email.text).Some?
      && compare(body.password.text, FindByEmail(users, body.email.text).value.passwordHash)
    ensures r.Fail? && r.status == 401 ==> r.message == InvalidCredentials
    ensures r.Ok? ==>
      var u := FindByEmail(users, body.email.text).value;
      && u in users && u.email == body.email.text
      && r.status == 200
      && r.body.user == Claims(u.id, u.email, u.role)
      && r.body.token == sign(r.body.user, Secret(env), SessionSeconds)
  {
    if !(body.email.Truthy() && body.password.Truthy()) then Fail(400, "Email and password are required")
    else if dbFails then Fail(500, ServerError)
    else match FindByEmail(users, body.email.text)
      case None => Fail(401, InvalidCredentials)
      case Some(u) =>
        if !compare(body.password.text, u.passwordHash) then Fail(401, InvalidCredentials)
        else
          var claims := Claims(u.id, u.email, u.role);
          Ok(200, Session(sign(claims, Secret(env), SessionSeconds), claims))
  }

  /** An unknown email and a wrong password give the very same reply, so a
      caller cannot tell which one it was. */
  lemma SameRefusal(users: seq<User>, body: LoginBody, env: Option<string>,
                    compare: (string, string) -> bool, sign: (Claims, string, nat) -> string)
    requires body.email.Truthy() && body.password.Truthy()
    requires match FindByEmail(users, body.email.text)
      case None => true
      case Some(u) => !compare(body.password.text, u.passwordHash)
    ensures Login(users, body, false, env, compare, sign) == Fail(401, InvalidCredentials)
  {
  }

  /** `authHeader && authHeader.split(' ')[1]`: the second space-separated
      piece, when there is one. */
  function TokenOf(header: Option<string>): (r: Option<string>)
    ensures r.Some? ==> header.Some? && |Split(header.value, ' ')| >= 2 && r.value == Split(header.value, ' ')[1]
    ensures r.Some? ==> ' ' !in r.value
    ensures r.None? <==> header.None? || |Split(header.value, ' ')| < 2
  {
    if header.None? then None
    else
      var parts := Split(header.value, ' ');
      SplitPiecesFree(header.value, ' ');
      assert |parts| >= 2 ==> parts[1] in parts;
      if |parts| >= 2 then Some(parts[1]) else None
  }

  /** `GET /auth/verify`. `verify` is the token check with the secret; it
      yields the decoded payload or nothing. */
  function Verify<P>(header: Option<string>, verify: string -> Option<P>): (r: Reply<P>)
    ensures r.Fail? && r.status == 401 <==> TokenOf(header).None? || TokenOf(header).value == ""
    ensures r.Fail? ==> r.status == 401 || r == Fail(403, "Invalid token")
    ensures r.Fail? && r.status == 401 ==> r.message == "Token required"
    ensures r.Ok? ==> r.status == 200 && TokenOf(header).Some? && verify(TokenOf(header).value) == Some(r.body)
  {
    match TokenOf(header)
    case None => Fail(401, "Token required")
    case Some(t) =>
      if t == "" then Fail(401, "Token required")
      else match verify(t)
        case None => Fail(403, "Invalid token")
        case Some(p) => Ok(200, p)
  }

  /** For a header of the form `Bearer <token>` with a non-empty token free of
      spaces, the token handed to `verify` is exactly that token. */
  lemma BearerToken(token: string)
    requires token != "" && ' ' !in token
    ensures TokenOf(Some("Bearer " + token)) == Some(token)
  {
    SplitJoin(["Bearer", token], ' ');
    assert Join(["Bearer", token], ' ') == "Bearer " + token by {
      assert Join([token], ' ') == token;
    }
  }
}
