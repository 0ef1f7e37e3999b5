/** The user record: its closed role vocabulary, its defaults, its column
    constraints, and the case normalisation applied to requested roles. */
module UserModel {
  import opened Wrappers

  const ADMIN := "admin"
  const CUSTOMER_SUPPORT := "customer_support"
  const TECHNICAL := "technical"

  /** The closed role vocabulary. */
  const ROLES: seq<string> := [ADMIN, CUSTOMER_SUPPORT, TECHNICAL]

  /** The column defaults for `role` and `active`. */
  const DEFAULT_ROLE := ADMIN
  const DEFAULT_ACTIVE := true

  /** A stored user. `password` is the one required text column; `active`
      is a nullable boolean; `lastLogin` is a time on the model's clock. */
  datatype User = User(
    id: int,
    employeeId: Option<string>,
    email: Option<string>,
    password: string,
    firstName: Option<string>,
    lastName: Option<string>,
    phoneNumber: Option<string>,
    avatar: Option<string>,
    workExperience: Option<string>,
    role: string,
    active: Option<bool>,
    lastLogin: Option<int>)

  predicate IsRole(s: string) {
    s in ROLES
  }

  /** The column constraints a stored user satisfies. */
  predicate WellFormed(u: User) {
    IsRole(u.role)
  }

  /** No two users share a non-null email, and none share a non-null
      employee id. */
  ghost predicate UniqueKeys(users: map<int, User>) {
    forall i, j :: i in users && j in users && i != j ==>
      (users[i].email.Some? ==> users[i].email != users[j].email) &&
      (users[i].employeeId.Some? ==> users[i].employeeId != users[j].employeeId)
  }

  /** Storing `u` under `id` would break a unique constraint held by some
      other user. */
  predicate Conflicts(users: map<int, User>, id: int, u: User) {
    exists k :: k in users && k != id &&
      ((u.email.Some? && users[k].email == u.email) ||
       (u.employeeId.Some? && users[k].employeeId == u.employeeId))
  }

  /** A write that the unique constraints admit keeps them. */
  lemma StoreKeepsUnique(users: map<int, User>, id: int, u: User)
    requires UniqueKeys(users) && !Conflicts(users, id, u)
    ensures UniqueKeys(users[id := u])
  {
  }

  /** Rewriting a user without touching their keys clashes with nobody. */
  lemma SameKeysNoConflict(users: map<int, User>, id: int, u: User)
    requires UniqueKeys(users) && id in users
    requires u.email == users[id].email && u.employeeId == users[id].employeeId
    ensures !Conflicts(users, id, u)
  {
  }

  /** Removing a user keeps the unique constraints. */
  lemma RemoveKeepsUnique(users: map<int, User>, id: int)
    requires UniqueKeys(users)
    ensures UniqueKeys(users - {id})
  {
  }

  function LowerChar(c: char): char {
    if 'A' <= c <= 'Z' then (c as int + 32) as char else c
  }

  /** `s.toLowerCase()` on the ASCII letters. */
  function Lower(s: string): (r: string)
    ensures |r| == |s| && forall i :: 0 <= i < |s| ==> r[i] == LowerChar(s[i])
  {
    seq(|s|, i requires 0 <= i < |s| => LowerChar(s[i]))
  }

  /** Lower-casing twice is lower-casing once. */
  lemma LowerIdempotent(s: string)
    ensures Lower(Lower(s)) == Lower(s)
  {
  }

  /** Every role is already lower case, so the stored spelling of a valid
      role never changes under normalisation. */
  lemma RolesAreLowerCase()
    ensures forall r :: r in ROLES ==> Lower(r) == r
  {
    assert Lower(ADMIN) == ADMIN;
    assert Lower(CUSTOMER_SUPPORT) == CUSTOMER_SUPPORT;
    assert Lower(TECHNICAL) == TECHNICAL;
  }

  /** Normalising a role is case-insensitive: two spellings that agree up to
      ASCII case normalise to the same text. */
  lemma LowerIgnoresCase(s: string, t: string)
    requires |s| == |t| && forall i :: 0 <= i < |s| ==> LowerChar(s[i]) == LowerChar(t[i])
    ensures Lower(s) == Lower(t)
  {
  }
}
