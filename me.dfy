/** `GET /api/auth/me`: resolve the session cookie to the signed-in user, or to no user. */
module Me {
  import opened Wrappers
  import opened Users
  import opened Http
  import opened Cookies
  import opened Auth

  const Anonymous: Body := UserResult(None)

  /** The response for a request carrying the cookie jar `jar`, against the user table `rows`. */
  function MeReply(jar: CookieJar, rows: seq<User>, auth: AuthLib): (r: Reply)
    ensures r.status == 200
    ensures r.body.UserResult?
    ensures Missing(GetTokenCookie(jar)) ==> r == Reply(200, Anonymous, map[])
    ensures r.cookies == map[] || r.cookies == WithCleared(map[])
    ensures r.cookies != map[] <==>
              !Missing(GetTokenCookie(jar)) && auth.verifyToken(GetTokenCookie(jar).value).None?
    ensures r.cookies != map[] ==> r.body == Anonymous
    ensures r.body.user.Some? ==>
              && !Missing(GetTokenCookie(jar))
              && var claim := auth.verifyToken(GetTokenCookie(jar).value);
                 claim.Some? && exists i :: 0 <= i < |rows| && rows[i].id == claim.value.userId
                                          && r.body.user.value == Public(rows[i])
    ensures (!Missing(GetTokenCookie(jar))
             && var claim := auth.verifyToken(GetTokenCookie(jar).value);
                claim.Some? && exists i :: 0 <= i < |rows| && rows[i].id == claim.value.userId)
            ==> r.body.user.Some?
  {
    var token := GetTokenCookie(jar);
    if Missing(token) then
      Reply(200, Anonymous, map[])
    else
      var payload := auth.verifyToken(token.value);
      if payload.None? then
        Reply(200, Anonymous, WithCleared(map[]))
      else
        var user := FindUnique(rows, ById(payload.value.userId));
        Reply(200, UserResult(if user.Some? then Some(Public(user.value)) else None), map[])
  }

  /** A token whose claim names a stored user resolves to exactly that user. */
  lemma ResolvesStoredUser(jar: CookieJar, rows: seq<User>, auth: AuthLib, i: nat)
    requires EmailsUnique(rows) && IdsUnique(rows)
    requires i < |rows|
    requires !Missing(GetTokenCookie(jar))
    requires auth.verifyToken(GetTokenCookie(jar).value) == Some(Claim(rows[i].id))
    ensures MeReply(jar, rows, auth) == Reply(200, UserResult(Some(Public(rows[i]))), map[])
  {
  }

  /** The handler: it reads the cookie, verifies it, and clears it on the response when it does not verify. */
  method Get(req: CookieJar, db: UserStore, auth: AuthLib) returns (res: Response)
    ensures res.Snapshot() == MeReply(req, db.rows, auth)
  {
    var token := GetTokenCookie(req);
    if Missing(token) {
      res := new Response.Json(UserResult(None), 200);
      return;
    }
    var payload := auth.verifyToken(token.value);
    if payload.None? {
      res := new Response.Json(UserResult(None), 200);
      ClearTokenCookie(res);
      return;
    }
    var user := FindUnique(db.rows, ById(payload.value.userId));
    res := new Response.Json(UserResult(if user.Some? then Some(Public(user.value)) else None), 200);
  }
}
