# NovaAuth sign-in and session core, in Dafny

This project models the server side of NovaAuth's email-and-password
authentication, plus the password-strength meter on its sign-up page.

- **Routes.** There are four route handlers. `POST /api/auth/signup` registers
  a user with a hashed password. `POST /api/auth/signin` checks credentials and
  issues a signed token in the `auth_token` cookie. `GET /api/auth/me` resolves
  that cookie back to a user. `POST /api/auth/signout` clears the cookie.
- **Cookie helpers.** `lib/cookies.ts` sets, clears and reads the one session
  cookie, always with the same attributes.
- **Strength meter.** The sign-up page scores a password from 0 to 4. It turns
  the score into a label, a colour class and a bar width, and rescores when the
  password field changes.

Each route is a pure function from its input to a `Reply`: the status, the JSON
body and the response cookie jar. The user table is a `seq<User>`. The lemmas
are stated over these functions. Each handler is also a method that builds a
`Response` object and updates its cookie jar in place with the cookie helpers,
as the source does. Each method is proved to produce exactly the reply of its
function. The user store is a class, `Users.UserStore`. Its `Create` method is
`db.user.create`, and the sign-up handler changes the store through it.

Parameters stand in for inputs from outside the code:

- `production` is `process.env.NODE_ENV === "production"`.
- `auth: AuthLib` holds `hashPassword`, `verifyPassword`, `signToken` and
  `verifyToken` from `lib/auth`, which is not part of this model. They are
  arbitrary functions. A lemma that needs one of them to behave, such as
  "verifyToken accepts what signToken produced", says so in its `requires`.
- A parsed request body is a datatype of optional strings. TypeScript's `!x` on
  such a field is `Http.Missing`: absent, or the empty string.

The sign-up handler mints no token and sets no cookie: it imports neither a
cookie helper nor a token function (app/api/auth/signup/route.ts:1-3,21). So
`SignUp.SignUpOutcome` always has an empty cookie jar, and sign-up alone does
not sign the client in.

How JavaScript strings are modelled: `password.length` counts UTF-16 code
units, so `SignupPage.Utf16Length` counts a character above U+FFFF twice. The
regular-expression tests look at ASCII classes only. On these tests, code units
and characters give the same answers.

## Model

| member | source | states |
|---|---|---|
| `Users.FindUnique` | app/api/auth/signin/route.ts:12 | `findUnique` returns a stored row that matches the key. It returns nothing exactly when no row matches. |
| `Users.FindUniqueExact` | app/api/auth/me/route.ts:17 | When ids and emails are unique, `findUnique` returns the one row with that key. |
| `Users.AppendKeepsWellFormed` | app/api/auth/signup/route.ts:11-19 | Inserting a row with a fresh id and an unused email keeps both columns unique and keeps the counter above every id. |
| `Users.UserStore.Create` | app/api/auth/signup/route.ts:17-19 | `db.user.create` appends the row under the next id when the email is unused. Otherwise the unique index refuses it and nothing changes. The store invariant holds afterwards. |
| `Cookies.MaxAgeIsSevenDays` | lib/cookies.ts:4 | `MAX_AGE` = 60·60·24·7 = 604800 seconds. |
| `Cookies.WithToken` | lib/cookies.ts:6-14 | After `setTokenCookie`, `auth_token` holds the token with httpOnly true, maxAge 604800, path "/" and sameSite lax. `secure` is present and is true exactly in production. Every other cookie name keeps its entry. |
| `Cookies.WithCleared` | lib/cookies.ts:16-18 | After `clearTokenCookie`, `auth_token` holds "" with maxAge 0 and path "/", and no httpOnly, secure or sameSite attribute. Every other cookie name keeps its entry. |
| `Cookies.SetTokenCookie` | lib/cookies.ts:6-14 | Updates the response's jar in place to `WithToken` of the old jar. |
| `Cookies.ClearTokenCookie` | lib/cookies.ts:16-18 | Updates the response's jar in place to `WithCleared` of the old jar. |
| `Cookies.GetTokenCookie` | lib/cookies.ts:20-22 | Returns a value exactly when the jar has an `auth_token` entry, and that value is the entry's value. |
| `Cookies.ReadAfterSet` | lib/cookies.ts:6-22 | Reading a jar right after setting token t gives t. |
| `Cookies.ReadAfterClear` | lib/cookies.ts:16-22 | Reading a cleared jar gives "", which counts as a missing token. |
| `Cookies.LastWriteWins` | lib/cookies.ts:7-17 | A set after a clear equals the set alone. A clear after a set equals the clear alone. Clearing twice equals clearing once. |
| `Cookies.ReadIgnoresOtherNames` | lib/cookies.ts:20-22 | A cookie under any other name does not change what is read. |
| `SignIn.SignInReply` | app/api/auth/signin/route.ts:6-21 | 400 "Missing fields" exactly when email or password is missing. 401 "Invalid credentials" exactly when the email is unknown or the password does not verify. Otherwise 200, with the matched user's `{id,name,email}` and a jar holding only the cookie set to `signToken({userId})`. Every failure has an empty jar. |
| `SignIn.SignInAsStoredUser` | app/api/auth/signin/route.ts:12-19 | When emails are unique, a request with a stored user's email and a password that verifies signs in as exactly that user. |
| `SignIn.NoAccountEnumeration` | app/api/auth/signin/route.ts:12-15 | An unknown email and a known email with a wrong password get the identical reply: same status, same body, no cookie. |
| `SignIn.Post` | app/api/auth/signin/route.ts:6-21 | The handler's response, with the cookie set in place, is `SignInReply`. It makes no change to the store. |
| `SignUp.SignUpOutcome` | app/api/auth/signup/route.ts:5-22 | 400 "Missing fields" exactly when a field is missing. 409 "Email already in use" exactly when some stored row has the email. Both leave the table as it was. Otherwise 201: it appends one row with the given name and email, the hashed password and the next id, and the body is that row's `{id,name,email}`. No reply carries a cookie. |
| `SignUp.SignUpKeepsTableWellFormed` | app/api/auth/signup/route.ts:11-19 | When emails and ids are unique before a request, they are still unique after it. |
| `SignUp.SignUpAddsOneRow` | app/api/auth/signup/route.ts:16-19 | The table grows by one row on 201 and by none otherwise. Every earlier row is unchanged. |
| `SignUp.SecondSignUpConflicts` | app/api/auth/signup/route.ts:11-14 | Signing up again with an email just registered gives 409 and changes nothing. |
| `SignUp.SignInAfterSignUp` | app/api/auth/signup/route.ts:16-21 | If `verifyPassword` accepts `hashPassword(p)`, signing in with the new credentials returns the body that sign-up returned. |
| `SignUp.Post` | app/api/auth/signup/route.ts:5-22 | The handler's response, the store's rows and its counter are exactly `SignUpOutcome` of the old store. The duplicate check makes `create` succeed, and the store invariant holds afterwards. |
| `Me.MeReply` | app/api/auth/me/route.ts:6-19 | Always 200 with a `{user}` body. A missing or empty cookie gives `{user:null}` and no cookie. The cookie is cleared exactly when the token fails to verify, and then the user is null. A user is returned only when the claim names a stored row, and then it is that row's public fields. When the claim names a stored row, a user is always returned. |
| `Me.ResolvesStoredUser` | app/api/auth/me/route.ts:17-18 | A token whose claim names a stored user resolves to exactly that user, with no cookie change. |
| `Me.Get` | app/api/auth/me/route.ts:6-19 | The handler's response, with the cookie cleared in place on a bad token, is `MeReply`. It makes no change to the store. |
| `SignOut.SignOutReply` | app/api/auth/signout/route.ts:4-8 | 200 `{success:true}`, and a jar holding only `auth_token`, cleared as `WithCleared` clears it: "", maxAge 0, path "/", no other attribute. It takes no input, so every call gets this same reply. |
| `SignOut.Post` | app/api/auth/signout/route.ts:4-8 | The handler's response, with the cookie cleared in place, is `SignOutReply`. |
| `Scenarios.MeAfterSignIn` | app/api/auth/signin/route.ts:17-19 | If `verifyToken` accepts what `signToken` produced and the token is non-empty, then `me` called with the sign-in cookie returns the signed-in user. |
| `Scenarios.MeAfterSignOut` | app/api/auth/signout/route.ts:6 | `me` called with the jar sign-out leaves returns `{user:null}` and clears nothing. |
| `SignupPage.Utf16LengthAppend` | app/signup/page.tsx:26 | The JavaScript length of a concatenation is the sum of the two lengths. |
| `SignupPage.Strength` | app/signup/page.tsx:23-31 | The score is the number of criteria met, one point each: length ≥ 8, an A-Z, a 0-9, and a character outside A-Za-z0-9. It is at most 4. |
| `SignupPage.EmptyScoresZero` | app/signup/page.tsx:24 | The empty password scores 0. |
| `SignupPage.StrengthExtremes` | app/signup/page.tsx:25-30 | The score is 4 exactly when all criteria hold, and 0 exactly when none does. |
| `SignupPage.StrengthMonotone` | app/signup/page.tsx:26-29 | Appending characters never lowers the score. |
| `SignupPage.CalculatePasswordStrength` | app/signup/page.tsx:23-31 | The early return on "" followed by the four `+= 1` steps computes `Strength`. |
| `SignupPage.StrengthText` | app/signup/page.tsx:53-61 | Scores 1..4 get "Weak", "Medium", "Good", "Strong". Every other score gets "". |
| `SignupPage.StrengthColor` | app/signup/page.tsx:63-71 | Scores 1..4 get the red, yellow, blue and green classes. Every other score gets "bg-gray-200". |
| `SignupPage.LabelsAndColoursAgree` | app/signup/page.tsx:53-71 | Different scores in 1..4 get different labels and colours. Every such score has a label and a colour. |
| `SignupPage.BarWidthInRange` | app/signup/page.tsx:176 | The bar width `strength*25` lies in 0..100, is a multiple of 25, and is 100 only at score 4. |
| `SignupPage.SignupForm.constructor` | app/signup/page.tsx:18-21 | The form starts with three empty fields and a score of 0. |
| `SignupPage.SignupForm.HandleChange` | app/signup/page.tsx:33-39 | Only the named field changes. The score is recomputed only for "password". The shown score stays the score of the password field. |

## Left out

- `lib/auth`: hashing and token signing are cryptography and are not shown. They are parameters. The hash/verify and sign/verify round trips appear only as assumptions in the `requires` of the lemmas that need them. The salt makes `hashPassword` random; the parameter is one fixed function.
- `lib/db.ts`: the Prisma client singleton and its logging. `Users.UserStore` stands in for its `user` table.
- User ids: the Prisma schema is not available, and the client types ids as strings. Ids are modelled as naturals taken from an increasing counter. That is one valid way to produce a fresh id, not necessarily the schema's way.
- Store and hashing failures: a Prisma or hashing error would throw out of a handler. Next.js would then answer with its own error response. No handler catches such errors, so they are not modelled.
- Request parsing: `await req.json()` can give non-string JSON values or fail to parse. A body field is modelled as an optional string.
- Concurrency: the race between `findUnique` and `create` in sign-up is not modelled. The handlers run one at a time.
- Token expiry: nothing in the code checks it, and the model adds none.
- Browser cookie handling: the scenario lemmas pass a response jar back unchanged as the next request jar. A browser deletes a cookie with maxAge 0 instead of sending "". Either way `me` sees no token.
- Lone UTF-16 surrogates in a password: Dafny characters cannot represent them.
- `hooks/useAuth.ts`, `context/AuthProvider.tsx` and `app/page.tsx`: React state, `fetch` calls and navigation.
- The sign-up page's markup: the label's text-colour classes, the hint list, hiding the meter while the password is empty, `handleSubmit`, and the `loading` and `isHovering` flags.
