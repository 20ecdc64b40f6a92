/** The administrator login of the Next.js API, checked against credentials
    from the environment instead of a table. `compare` is bcrypt's check and
    `sign(claims, secret, seconds)` issues a token. */
module NextLogin {
  import opened Base
  import opened Schema

  /** The environment the route reads once at start-up. */
  datatype Env = Env(jwtSecret: Option<string>, adminEmail: Option<string>, adminPassword: Option<string>)

  datatype AdminClaims = AdminClaims(email: string, role: string)

  datatype AdminSession = AdminSession(token: string, user: AdminClaims)

  datatype LoginBody = LoginBody(email: Field, password: Field)

  /** `expiresIn: '24h'`, in seconds. */
  const SessionSeconds: nat := 24 * 60 * 60

  const DefaultAdminEmail := "admin@1000coupole.com"
  const DefaultSecret := "your-secret-key-change-in-production"
  const FallbackPassword := "admin123"

  function AdminEmail(env: Env): string {
    OrDefault(env.adminEmail, DefaultAdminEmail)
  }

  /** Is `ADMIN_PASSWORD` set to a hash? */
  predicate HashConfigured(env: Env) {
    env.adminPassword.Some? && env.adminPassword.value != ""
  }

  /** The password check: bcrypt against `ADMIN_PASSWORD` when it is set;
      otherwise equality with the fallback, which is then always the
      literal `admin123`. */
  function PasswordAccepted(env: Env, password: string, compare: (string, string) -> bool): (ok: bool)
    ensures HashConfigured(env) ==> (ok <==> compare(password, env.adminPassword.value))
    ensures !HashConfigured(env) ==> (ok <==> password == FallbackPassword)
  {
    if HashConfigured(env) then compare(password, env.adminPassword.value)
    else password == OrDefault(env.adminPassword, FallbackPassword)
  }

  const InvalidCredentials := "Invalid credentials"

  /** `POST /api/admin/auth/login` */
  function Login(env: Env, body: LoginBody, compare: (string, string) -> bool,
                 sign: (AdminClaims, string, nat) -> string): (r: Reply<AdminSession>)
    ensures !(body.email.Truthy() && body.password.Truthy()) ==> r == Fail(400, "Email and password are required")
    ensures r.Ok? <==>
      && body.email.Truthy() && body.password.Truthy()
      && body.email.text == AdminEmail(env)
      && PasswordAccepted(env, body.password.text, compare)
    ensures r.Fail? && r.status != 400 ==> r == Fail(401, InvalidCredentials)
    ensures r.Ok? ==>
      && r.status == 200
      && r.body.user == AdminClaims(AdminEmail(env), "admin")
      && r.body.token == sign(r.body.user, OrDefault(env.jwtSecret, DefaultSecret), SessionSeconds)
  {
    if !(body.email.Truthy() && body.password.Truthy()) then Fail(400, "Email and password are required")
    else if body.email.text != AdminEmail(env) then Fail(401, InvalidCredentials)
    else if !PasswordAccepted(env, body.password.text, compare) then Fail(401, InvalidCredentials)
    else
      var claims := AdminClaims(AdminEmail(env), "admin");
      Ok(200, AdminSession(sign(claims, OrDefault(env.jwtSecret, DefaultSecret), SessionSeconds), claims))
  }

  /** A wrong email and a wrong password are refused alike. */
  lemma SameRefusal(env: Env, body: LoginBody, compare: (string, string) -> bool,
                    sign: (AdminClaims, string, nat) -> string)
    requires body.email.Truthy() && body.password.Truthy()
    requires body.email.text != AdminEmail(env) || !PasswordAccepted(env, body.password.text, compare)
    ensures Login(env, body, compare, sign) == Fail(401, InvalidCredentials)
  {
  }

  /** With no `ADMIN_PASSWORD`, the default administrator gets in with
      `admin123` and with no other password, whatever the hash oracle says. */
  lemma DevelopmentFallback(body: LoginBody, compare: (string, string) -> bool,
                            sign: (AdminClaims, string, nat) -> string)
    requires body.email == Text(DefaultAdminEmail) && body.password.Truthy()
    ensures Login(Env(None, None, None), body, compare, sign).Ok? <==> body.password.text == "admin123"
  {
  }
}
