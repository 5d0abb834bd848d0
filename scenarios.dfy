/**
 * Requests in sequence. The cookie jar of one response is handed back as
 * the cookie jar of the next request, as a browser that stores the cookie
 * would send it.
 */
module Scenarios {
  import opened Wrappers
  import opened Users
  import opened Http
  import opened Cookies
  import opened Auth
  import SignIn
  import Me
  import SignOut

  /**
   * Sign in, then ask who is signed in: if the token library verifies the
   * tokens it signs, the answer is the user who signed in.
   */
  lemma MeAfterSignIn(req: SignIn.Credentials, rows: seq<User>, auth: AuthLib, production: bool, i: nat)
    requires EmailsUnique(rows) && IdsUnique(rows)
    requires i < |rows| && SignIn.Authenticates(req, auth, rows[i])
    requires auth.verifyToken(auth.signToken(Claim(rows[i].id))) == Some(Claim(rows[i].id))
    requires auth.signToken(Claim(rows[i].id)) != ""
    ensures var signedIn := SignIn.SignInReply(req, rows, auth, production);
            var me := Me.MeReply(signedIn.cookies, rows, auth);
            me.body == signedIn.body && me.cookies == map[]
  {
  }

  /** After signing out, the cookie left behind resolves to no user and is not cleared again. */
  lemma MeAfterSignOut(rows: seq<User>, auth: AuthLib)
    ensures Me.MeReply(SignOut.SignOutReply().cookies, rows, auth) == Reply(200, Me.Anonymous, map[])
  {
  }
}
