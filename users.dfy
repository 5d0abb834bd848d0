/**
 * The user table as the route handlers see it through `db.user`:
 * `findUnique` by id or by email, and `create`. The email column carries
 * a unique index, ids are assigned by the store.
 */
module Users {
  import opened Wrappers

  /** Ids are assigned by the store from an increasing counter. */
  type UserId = nat

  /** A row of the user table; `password` holds the hash, never the plain text. */
  datatype User = User(id: UserId, name: string, email: string, password: string)

  /** The projection `{ id, name, email }` that every response carries. */
  datatype PublicUser = PublicUser(id: UserId, name: string, email: string)

  function Public(u: User): PublicUser
  {
    PublicUser(u.id, u.name, u.email)
  }

  /** The `where` argument of `findUnique`. */
  datatype Where = ById(id: UserId) | ByEmail(email: string)

  predicate Matches(u: User, w: Where)
  {
    match w
    case ById(id) => u.id == id
    case ByEmail(email) => u.email == email
  }

  predicate EmailsUnique(rows: seq<User>)
  {
    forall i, j :: 0 <= i < |rows| && 0 <= j < |rows| && rows[i].email == rows[j].email ==> i == j
  }

  predicate IdsUnique(rows: seq<User>)
  {
    forall i, j :: 0 <= i < |rows| && 0 <= j < |rows| && rows[i].id == rows[j].id ==> i == j
  }

  predicate IdsBelow(rows: seq<User>, bound: UserId)
  {
    forall i :: 0 <= i < |rows| ==> rows[i].id < bound
  }

  /** The invariant the store keeps: both unique columns are unique and the counter is past every id. */
  predicate WellFormed(rows: seq<User>, nextId: UserId)
  {
    EmailsUnique(rows) && IdsUnique(rows) && IdsBelow(rows, nextId)
  }

  /** `findUnique`: a row that matches the key, or nothing when no row does. */
  function FindUnique(rows: seq<User>, w: Where): (r: Option<User>)
    ensures r.Some? ==> r.value in rows && Matches(r.value, w)
    ensures r.None? <==> forall i :: 0 <= i < |rows| ==> !Matches(rows[i], w)
  {
    if rows == [] then None
    else if Matches(rows[0], w) then Some(rows[0])
    else FindUnique(rows[1..], w)
  }

  /** When emails and ids are unique, `findUnique` returns the one row with that key. */
  lemma FindUniqueExact(rows: seq<User>, w: Where, i: nat)
    requires EmailsUnique(rows) && IdsUnique(rows)
    requires i < |rows| && Matches(rows[i], w)
    ensures FindUnique(rows, w) == Some(rows[i])
  {
  }

  /** A table after inserting a row under a fresh id and an unused email. */
  lemma AppendKeepsWellFormed(rows: seq<User>, nextId: UserId, u: User)
    requires WellFormed(rows, nextId)
    requires u.id == nextId
    requires FindUnique(rows, ByEmail(u.email)).None?
    ensures WellFormed(rows + [u], nextId + 1)
  {
  }

  /** The store behind `db.user`. */
  class UserStore {
    var rows: seq<User>
    var nextId: UserId

    ghost predicate Valid()
      reads this
    {
      WellFormed(rows, nextId)
    }

    constructor ()
      ensures Valid() && rows == [] && nextId == 1
    {
      rows, nextId := [], 1;
    }

    /**
     * `db.user.create`: inserts a row under a fresh id. The unique index
     * on email refuses a second row with an email already present.
     */
    method Create(name: string, email: string, password: string) returns (created: Option<User>)
      requires Valid()
      modifies this
      ensures Valid()
      ensures created.Some? <==> FindUnique(old(rows), ByEmail(email)).None?
      ensures created.Some? ==>
                && created.value == User(old(nextId), name, email, password)
                && rows == old(rows) + [created.value]
                && nextId == old(nextId) + 1
      ensures created.None? ==> rows == old(rows) && nextId == old(nextId)
    {
      if FindUnique(rows, ByEmail(email)).Some? {
        created := None;
      } else {
        var u := User(nextId, name, email, password);
        AppendKeepsWellFormed(rows, nextId, u);
        rows, nextId := rows + [u], nextId + 1;
        created := Some(u);
      }
    }
  }
}
