/** `POST /api/auth/signout`: acknowledge and clear the session cookie. */
module SignOut {
  import opened Wrappers
  import opened Http
  import opened Cookies

  /** The handler takes no input, so this one reply is its answer to every call. */
  function SignOutReply(): (r: Reply)
    ensures r.status == 200 && r.body == Acknowledged(true)
    ensures r.cookies == WithCleared(map[])
    ensures r.cookies.Keys == {CookieName}
    ensures r.cookies[CookieName].value == "" && r.cookies[CookieName].maxAge == Some(0)
    ensures GetTokenCookie(r.cookies) == Some("")
  {
    Reply(200, Acknowledged(true), WithCleared(map[]))
  }

  method Post() returns (res: Response)
    ensures res.Snapshot() == SignOutReply()
  {
    res := new Response.Json(Acknowledged(true), 200);
    ClearTokenCookie(res);
  }
}
