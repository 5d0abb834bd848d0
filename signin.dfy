/** `POST /api/auth/signin`: check the credentials, then issue the session cookie. */
module SignIn {
  import opened Wrappers
  import opened Users
  import opened Http
  import opened Cookies
  import opened Auth

  /** The parsed request body `{ email, password }`. */
  datatype Credentials = Credentials(email: Option<string>, password: Option<string>)

  const InvalidCredentials: Reply := Reply(401, Message("Invalid credentials"), map[])

  /** The row whose credentials the request presents, if the password verifies against its hash. */
  predicate Authenticates(req: Credentials, auth: AuthLib, u: User)
  {
    && !Missing(req.email) && !Missing(req.password)
    && u.email == req.email.value
    && auth.verifyPassword(req.password.value, u.password)
  }

  /** The response the handler produces for a request against the user table `rows`. */
  function SignInReply(req: Credentials, rows: seq<User>, auth: AuthLib, production: bool): (r: Reply)
    ensures r == MissingFields <==> Missing(req.email) || Missing(req.password)
    ensures r.status == 401 ==> r == InvalidCredentials
    ensures r.status == 200 || r == MissingFields || r == InvalidCredentials
    ensures r.status == 200 <==>
              && !Missing(req.email) && !Missing(req.password)
              && var found := FindUnique(rows, ByEmail(req.email.value));
                 found.Some? && Authenticates(req, auth, found.value)
    ensures r.status == 200 ==>
              exists i :: 0 <= i < |rows| && Authenticates(req, auth, rows[i])
                       && r.body == UserResult(Some(Public(rows[i])))
                       && r.cookies == WithToken(map[], auth.signToken(Claim(rows[i].id)), production)
    ensures r.status != 200 ==> r.cookies == map[]
  {
    if Missing(req.email) || Missing(req.password) then
      MissingFields
    else
      var found := FindUnique(rows, ByEmail(req.email.value));
      if found.None? || !auth.verifyPassword(req.password.value, found.value.password) then
        InvalidCredentials
      else
        var u := found.value;
        Reply(200, UserResult(Some(Public(u))), WithToken(map[], auth.signToken(Claim(u.id)), production))
  }

  /**
   * With unique emails, a request that presents the email and the password
   * of a stored user signs in as exactly that user.
   */
  lemma SignInAsStoredUser(req: Credentials, rows: seq<User>, auth: AuthLib, production: bool, i: nat)
    requires EmailsUnique(rows) && IdsUnique(rows)
    requires i < |rows| && Authenticates(req, auth, rows[i])
    ensures SignInReply(req, rows, auth, production)
            == Reply(200, UserResult(Some(Public(rows[i]))), WithToken(map[], auth.signToken(Claim(rows[i].id)), production))
  {
  }

  /**
   * An unknown email and a known email with a wrong password get the same
   * status and body, so a response never tells whether the account exists.
   */
  lemma NoAccountEnumeration(unknown: Credentials, wrong: Credentials, rows: seq<User>, auth: AuthLib, production: bool)
    requires !Missing(unknown.email) && !Missing(unknown.password)
    requires forall i :: 0 <= i < |rows| ==> rows[i].email != unknown.email.value
    requires !Missing(wrong.email) && !Missing(wrong.password)
    requires forall i :: 0 <= i < |rows| && rows[i].email == wrong.email.value ==>
               !auth.verifyPassword(wrong.password.value, rows[i].password)
    ensures SignInReply(unknown, rows, auth, production) == InvalidCredentials
    ensures SignInReply(wrong, rows, auth, production) == InvalidCredentials
  {
  }

  /** The handler: it reads the store, builds the response and, on success, sets the cookie on it. */
  method Post(req: Credentials, db: UserStore, auth: AuthLib, production: bool) returns (res: Response)
    ensures res.Snapshot() == SignInReply(req, db.rows, auth, production)
  {
    if Missing(req.email) || Missing(req.password) {
      res := new Response.Json(Message("Missing fields"), 400);
      return;
    }
    var user := FindUnique(db.rows, ByEmail(req.email.value));
    if user.None? || !auth.verifyPassword(req.password.value, user.value.password) {
      res := new Response.Json(Message("Invalid credentials"), 401);
      return;
    }
    var token := auth.signToken(Claim(user.value.id));
    res := new Response.Json(UserResult(Some(Public(user.value))), 200);
    SetTokenCookie(res, token, production);
  }
}
