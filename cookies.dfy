/** The session cookie: its name, lifetime and attributes, and how it is set, cleared and read. */
module Cookies {
  import opened Wrappers
  import opened Http

  const CookieName: string := "auth_token"

  /** Seven days, in seconds. */
  const MaxAge: int := 60 * 60 * 24 * 7

  lemma MaxAgeIsSevenDays()
    ensures MaxAge == 604800
  {
  }

  function TokenCookie(token: string, production: bool): Cookie
  {
    Cookie(token, Some(true), Some(MaxAge), Some("/"), Some(production), Some(Lax))
  }

  const ClearedCookie: Cookie := Cookie("", None, Some(0), Some("/"), None, None)

  /** The jar after `setTokenCookie`. */
  function WithToken(jar: CookieJar, token: string, production: bool): (r: CookieJar)
    ensures r.Keys == jar.Keys + {CookieName}
    ensures r[CookieName].value == token
    ensures r[CookieName].httpOnly == Some(true)
    ensures r[CookieName].maxAge == Some(604800)
    ensures r[CookieName].path == Some("/")
    ensures r[CookieName].sameSite == Some(Lax)
    ensures r[CookieName].secure == Some(true) <==> production
    ensures r[CookieName].secure.Some?
    ensures forall name :: name in jar && name != CookieName ==> r[name] == jar[name]
  {
    jar[CookieName := TokenCookie(token, production)]
  }

  /** The jar after `clearTokenCookie`. */
  function WithCleared(jar: CookieJar): (r: CookieJar)
    ensures r.Keys == jar.Keys + {CookieName}
    ensures r[CookieName].value == ""
    ensures r[CookieName].maxAge == Some(0)
    ensures r[CookieName].path == Some("/")
    ensures r[CookieName].httpOnly.None? && r[CookieName].secure.None? && r[CookieName].sameSite.None?
    ensures forall name :: name in jar && name != CookieName ==> r[name] == jar[name]
  {
    jar[CookieName := ClearedCookie]
  }

  /** `setTokenCookie(res, token)`; `production` stands for `NODE_ENV === "production"`. */
  method SetTokenCookie(res: Response, token: string, production: bool)
    modifies res
    ensures res.cookies == WithToken(old(res.cookies), token, production)
  {
    res.cookies := res.cookies[CookieName := TokenCookie(token, production)];
  }

  /** `clearTokenCookie(res)`. */
  method ClearTokenCookie(res: Response)
    modifies res
    ensures res.cookies == WithCleared(old(res.cookies))
  {
    res.cookies := res.cookies[CookieName := ClearedCookie];
  }

  /** `getTokenCookie(req)`: the value stored under the cookie name, if any. */
  function GetTokenCookie(jar: CookieJar): (r: Option<string>)
    ensures r.Some? <==> CookieName in jar
    ensures r.Some? ==> r.value == jar[CookieName].value
  {
    if CookieName in jar then Some(jar[CookieName].value) else None
  }

  lemma ReadAfterSet(jar: CookieJar, token: string, production: bool)
    ensures GetTokenCookie(WithToken(jar, token, production)) == Some(token)
  {
  }

  /** A cleared cookie reads back as the empty string, which callers treat as no token. */
  lemma ReadAfterClear(jar: CookieJar)
    ensures GetTokenCookie(WithCleared(jar)) == Some("")
    ensures Missing(GetTokenCookie(WithCleared(jar)))
  {
  }

  /** Setting and clearing overwrite whatever the jar held under the cookie name. */
  lemma LastWriteWins(jar: CookieJar, token: string, production: bool)
    ensures WithToken(WithCleared(jar), token, production) == WithToken(jar, token, production)
    ensures WithCleared(WithToken(jar, token, production)) == WithCleared(jar)
    ensures WithCleared(WithCleared(jar)) == WithCleared(jar)
  {
  }

  /** Reading never sees a cookie of another name. */
  lemma ReadIgnoresOtherNames(jar: CookieJar, name: string, c: Cookie)
    requires name != CookieName
    ensures GetTokenCookie(jar[name := c]) == GetTokenCookie(jar)
  {
  }
}
