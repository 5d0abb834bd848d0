/**
 * The parts of `next/server` the route handlers use: a JSON response with
 * a status, its body, and a cookie jar that helpers update in place.
 */
module Http {
  import opened Wrappers
  import opened Users

  /** TypeScript's `!x` on a parsed body field or a cookie value: absent or the empty string. */
  predicate Missing(field: Option<string>)
  {
    field.None? || field.value == ""
  }

  /** The only same-site policy the session cookie uses; an absent attribute is `None`. */
  datatype SameSite = Lax

  /**
   * One entry of a cookie jar, as `cookies.set(name, value, options)` stores
   * it: options that were not passed are absent.
   */
  datatype Cookie = Cookie(
    value: string,
    httpOnly: Option<bool>,
    maxAge: Option<int>,
    path: Option<string>,
    secure: Option<bool>,
    sameSite: Option<SameSite>)

  /** Cookies by name, on a response (`res.cookies`) or on a request (`req.cookies`). */
  type CookieJar = map<string, Cookie>

  /** The JSON bodies the handlers answer with. */
  datatype Body =
    | Message(message: string)         // { message }
    | UserResult(user: Option<PublicUser>)  // { user: { id, name, email } | null }
    | Acknowledged(success: bool)      // { success }

  /** What a finished response carries to the client. */
  datatype Reply = Reply(status: int, body: Body, cookies: CookieJar)

  /** The 400 answer of both routes that take a body with required fields. */
  const MissingFields: Reply := Reply(400, Message("Missing fields"), map[])

  /** A `NextResponse`: status and body are fixed at creation, the cookie jar is mutable. */
  class Response {
    const status: int
    const body: Body
    var cookies: CookieJar

    /** `NextResponse.json(body, { status })`; a call without a status passes 200. */
    constructor Json(body: Body, status: int)
      ensures this.body == body && this.status == status && cookies == map[]
    {
      this.body, this.status, cookies := body, status, map[];
    }

    function Snapshot(): Reply
      reads this
    {
      Reply(status, body, cookies)
    }
  }
}
