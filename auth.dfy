/**
 * The session claim and the hashing and token functions the routes call.
 * Their cryptography is not part of this model: a deployment supplies them
 * as a record of functions, and nothing is assumed about them except where
 * a lemma names the assumption in its `requires`.
 */
module Auth {
  import opened Wrappers
  import opened Users

  /** The payload a token carries: `{ userId }`. */
  datatype Claim = Claim(userId: UserId)

  datatype AuthLib = AuthLib(
    hashPassword: string -> string,
    verifyPassword: (string, string) -> bool,  // (plain password, stored hash)
    signToken: Claim -> string,
    verifyToken: string -> Option<Claim>)      // None for a malformed or forged token
}
