/** `POST /api/auth/signup`: register a new user with a hashed password. */
module SignUp {
  import opened Wrappers
  import opened Users
  import opened Http
  import opened Cookies
  import opened Auth
  import SignIn

  /** The parsed request body `{ name, email, password }`. */
  datatype Registration = Registration(name: Option<string>, email: Option<string>, password: Option<string>)

  /** The response together with the user table the request leaves behind. */
  datatype Outcome = Outcome(reply: Reply, rows: seq<User>, nextId: UserId)

  const EmailInUse: Reply := Reply(409, Message("Email already in use"), map[])

  predicate AnyMissing(req: Registration)
  {
    Missing(req.name) || Missing(req.email) || Missing(req.password)
  }

  function SignUpOutcome(req: Registration, rows: seq<User>, nextId: UserId, auth: AuthLib): (o: Outcome)
    ensures o.reply.cookies == map[]
    ensures o.reply == MissingFields <==> AnyMissing(req)
    ensures o.reply == EmailInUse <==>
              !AnyMissing(req) && exists i :: 0 <= i < |rows| && rows[i].email == req.email.value
    ensures o.reply.status == 201 || o.reply == MissingFields || o.reply == EmailInUse
    ensures o.reply.status != 201 ==> o.rows == rows && o.nextId == nextId
    ensures o.reply.status == 201 ==>
              && o.rows == rows + [User(nextId, req.name.value, req.email.value, auth.hashPassword(req.password.value))]
              && o.nextId == nextId + 1
              && o.reply.body == UserResult(Some(PublicUser(nextId, req.name.value, req.email.value)))
  {
    if AnyMissing(req) then
      Outcome(MissingFields, rows, nextId)
    else if FindUnique(rows, ByEmail(req.email.value)).Some? then
      Outcome(EmailInUse, rows, nextId)
    else
      var u := User(nextId, req.name.value, req.email.value, auth.hashPassword(req.password.value));
      Outcome(Reply(201, UserResult(Some(Public(u))), map[]), rows + [u], nextId + 1)
  }

  /** Every request keeps the table well formed: emails and ids stay unique. */
  lemma SignUpKeepsTableWellFormed(req: Registration, rows: seq<User>, nextId: UserId, auth: AuthLib)
    requires WellFormed(rows, nextId)
    ensures var o := SignUpOutcome(req, rows, nextId, auth); WellFormed(o.rows, o.nextId)
  {
  }

  /** A successful sign-up adds exactly one row and keeps every earlier row as it was. */
  lemma SignUpAddsOneRow(req: Registration, rows: seq<User>, nextId: UserId, auth: AuthLib)
    ensures var o := SignUpOutcome(req, rows, nextId, auth);
            && |o.rows| == |rows| + (if o.reply.status == 201 then 1 else 0)
            && forall i :: 0 <= i < |rows| ==> o.rows[i] == rows[i]
  {
  }

  /** Registering the same email twice: the second request is refused with 409 and changes nothing. */
  lemma SecondSignUpConflicts(first: Registration, second: Registration, rows: seq<User>, nextId: UserId, auth: AuthLib)
    requires !AnyMissing(first) && !AnyMissing(second)
    requires SignUpOutcome(first, rows, nextId, auth).reply.status == 201
    requires second.email == first.email
    ensures var o1 := SignUpOutcome(first, rows, nextId, auth);
            var o2 := SignUpOutcome(second, o1.rows, o1.nextId, auth);
            o2.reply == EmailInUse && o2.rows == o1.rows && o2.nextId == o1.nextId
  {
    var o1 := SignUpOutcome(first, rows, nextId, auth);
    assert o1.rows[|rows|].email == second.email.value;
  }

  /**
   * If the password library verifies its own hashes, signing in right after
   * signing up succeeds as the new user.
   */
  lemma SignInAfterSignUp(req: Registration, rows: seq<User>, nextId: UserId, auth: AuthLib, production: bool)
    requires WellFormed(rows, nextId)
    requires SignUpOutcome(req, rows, nextId, auth).reply.status == 201
    requires auth.verifyPassword(req.password.value, auth.hashPassword(req.password.value))
    ensures var o := SignUpOutcome(req, rows, nextId, auth);
            var login := SignIn.Credentials(req.email, req.password);
            SignIn.SignInReply(login, o.rows, auth, production).body == o.reply.body
  {
    var o := SignUpOutcome(req, rows, nextId, auth);
    SignUpKeepsTableWellFormed(req, rows, nextId, auth);
    SignIn.SignInAsStoredUser(SignIn.Credentials(req.email, req.password), o.rows, auth, production, |rows|);
  }

  /** The handler: it checks the body, looks the email up, and creates the row. It sets no cookie. */
  method Post(req: Registration, db: UserStore, auth: AuthLib) returns (res: Response)
    requires db.Valid()
    modifies db
    ensures db.Valid()
    ensures var o := SignUpOutcome(req, old(db.rows), old(db.nextId), auth);
            res.Snapshot() == o.reply && db.rows == o.rows && db.nextId == o.nextId
  {
    if Missing(req.name) || Missing(req.email) || Missing(req.password) {
      res := new Response.Json(Message("Missing fields"), 400);
      return;
    }
    var existing := FindUnique(db.rows, ByEmail(req.email.value));
    if existing.Some? {
      res := new Response.Json(Message("Email already in use"), 409);
      return;
    }
    var hashed := auth.hashPassword(req.password.value);
    var created := db.Create(req.name.value, req.email.value, hashed);
    var user := created.value;
    res := new Response.Json(UserResult(Some(Public(user))), 201);
  }
}
