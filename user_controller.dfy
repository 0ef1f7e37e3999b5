/** The user-directory handlers: registration, login, partial update, role
    change, listing by role and deletion, over an in-memory user table. */
module UserController {
  import opened Wrappers
  import opened Js
  import opened Http
  import opened Tables
  import opened UserModel

  /** The body of a registration request. */
  datatype NewUser = NewUser(
    email: Option<string>,
    employeeId: Option<string>,
    password: Option<string>,
    role: Option<string>,
    firstName: Option<string>,
    lastName: Option<string>,
    phoneNumber: Option<string>,
    avatar: Option<string>,
    workExperience: Option<string>)

  /** The role a request asks for: the lower-cased supplied role, or the
      default when none is supplied. */
  function RequestedRole(role: Option<string>): string {
    if TruthyText(role) then Lower(role.value) else DEFAULT_ROLE
  }

  /** The row registration tries to insert under `id`. */
  function CreatedUser(id: int, req: NewUser): User
    requires req.password.Some?
  {
    User(id, req.employeeId, req.email, req.password.value, req.firstName,
         req.lastName, req.phoneNumber, req.avatar, req.workExperience,
         RequestedRole(req.role), Some(DEFAULT_ACTIVE), None)
  }

  /** The decision of `createUser`. A falsy password is refused first; the
      insert then fails validation (answered 400) on a role outside the
      vocabulary, an email the format validator `isEmail` refuses, or a
      unique-key clash. */
  function PlanCreate(users: map<int, User>, id: int, req: NewUser, isEmail: string -> bool): Outcome<User> {
    if !TruthyText(req.password) then Rejected(PasswordRequired)
    else
      var u := CreatedUser(id, req);
      if !IsRole(u.role) || (u.email.Some? && !isEmail(u.email.value)) || Conflicts(users, id, u)
      then Rejected(ValidationError)
      else Ok(u)
  }

  /** Registration without a usable password is refused, whatever else the
      request holds. */
  lemma CreateNeedsPassword(users: map<int, User>, id: int, req: NewUser, isEmail: string -> bool)
    requires !TruthyText(req.password)
    ensures PlanCreate(users, id, req, isEmail) == Rejected(PasswordRequired)
  {
  }

  /** A registered user carries the requested role lower-cased (the default
      role when none was asked for), is active, has never logged in, keeps
      every supplied profile field, and satisfies the column constraints. */
  lemma CreatedUserShape(users: map<int, User>, id: int, req: NewUser, isEmail: string -> bool)
    requires PlanCreate(users, id, req, isEmail).Ok?
    ensures var u := PlanCreate(users, id, req, isEmail).value;
      && u.id == id
      && u.role == (if TruthyText(req.role) then Lower(req.role.value) else ADMIN)
      && u.active == Some(true) && u.lastLogin == None
      && Some(u.password) == req.password
      && u.email == req.email && u.employeeId == req.employeeId
      && u.firstName == req.firstName && u.lastName == req.lastName
      && WellFormed(u) && !Conflicts(users, id, u)
  {
  }

  /** The role is matched case-insensitively: any capitalisation of a role
      name registers that role. */
  lemma CreateAcceptsAnyCase()
    ensures RequestedRole(Some("Technical")) == TECHNICAL
    ensures RequestedRole(Some("ADMIN")) == ADMIN
    ensures RequestedRole(Some("")) == ADMIN
  {
  }

  /** The body of a login request. */
  datatype Credentials = Credentials(email: Option<string>, employeeId: Option<string>, password: Option<string>)

  /** The lookup condition: the conjunction of whichever identifiers were
      supplied. */
  predicate MatchesCredentials(u: User, c: Credentials) {
    (TruthyText(c.email) ==> u.email == c.email) &&
    (TruthyText(c.employeeId) ==> u.employeeId == c.employeeId)
  }

  /** The users below id `n` matching the credentials' identifiers. */
  function Lookup(users: map<int, User>, n: int, c: Credentials): seq<int> {
    Select(users, (u: User) => MatchesCredentials(u, c), n)
  }

  /** The decision of `loginUser`: the id of the user who logs in, or the
      first check that fails, in the handler's order. */
  function PlanLogin(users: map<int, User>, n: int, c: Credentials): Outcome<int> {
    if !TruthyText(c.email) && !TruthyText(c.employeeId) then Rejected(EmailOrEmployeeIdRequired)
    else if !TruthyText(c.password) then Rejected(PasswordRequired)
    else
      var found := Lookup(users, n, c);
      if found == [] then Rejected(InvalidCredentials)
      else if users[found[0]].active != Some(true) then Rejected(AccountDisabled)
      else if users[found[0]].password != c.password.value then Rejected(InvalidCredentials)
      else Ok(found[0])
  }

  /** The request checks come first, in order: an identifier, then the
      password; then a lookup that finds nobody is refused with 401. */
  lemma LoginCheckOrder(users: map<int, User>, n: int, c: Credentials)
    ensures !TruthyText(c.email) && !TruthyText(c.employeeId) ==>
      PlanLogin(users, n, c) == Rejected(EmailOrEmployeeIdRequired)
    ensures (TruthyText(c.email) || TruthyText(c.employeeId)) && !TruthyText(c.password) ==>
      PlanLogin(users, n, c) == Rejected(PasswordRequired)
    ensures (TruthyText(c.email) || TruthyText(c.employeeId)) && TruthyText(c.password) &&
            Lookup(users, n, c) == [] ==>
      PlanLogin(users, n, c) == Rejected(InvalidCredentials) && Status(InvalidCredentials) == 401
  {
  }

  /** Two users matching the same supplied identifier are the same user. */
  lemma SameCredentialsSameUser(users: map<int, User>, c: Credentials, i: int, j: int)
    requires UniqueKeys(users)
    requires TruthyText(c.email) || TruthyText(c.employeeId)
    requires i in users && j in users
    requires MatchesCredentials(users[i], c) && MatchesCredentials(users[j], c)
    ensures i == j
  {
  }

  /** Under the unique constraints every row a login lookup returns is the
      same user, so which matching row the lookup picks does not matter. */
  lemma LookupIsUnique(users: map<int, User>, n: int, c: Credentials)
    requires UniqueKeys(users)
    requires TruthyText(c.email) || TruthyText(c.employeeId)
    ensures var r := Lookup(users, n, c);
      forall i, j :: 0 <= i < |r| && 0 <= j < |r| ==> r[i] == r[j]
  {
    var r := Lookup(users, n, c);
    forall i, j | 0 <= i < |r| && 0 <= j < |r|
      ensures r[i] == r[j]
    {
      SameCredentialsSameUser(users, c, r[i], r[j]);
    }
  }

  /** A login succeeds only for an active user whose identifiers match every
      supplied one and whose stored password equals the supplied one. */
  lemma LoginIsSound(users: map<int, User>, n: int, c: Credentials)
    requires PlanLogin(users, n, c).Ok?
    ensures var id := PlanLogin(users, n, c).value;
      && id in users && users[id].active == Some(true)
      && Some(users[id].password) == c.password
      && MatchesCredentials(users[id], c)
  {
  }

  /** Conversely, an active user presenting a matching identifier and the
      right password logs in as themself. */
  lemma LoginIsComplete(users: map<int, User>, n: int, c: Credentials, id: int)
    requires UniqueKeys(users) && forall k :: k in users ==> 0 <= k < n
    requires TruthyText(c.email) || TruthyText(c.employeeId)
    requires id in users && MatchesCredentials(users[id], c)
    requires users[id].active == Some(true) && TruthyText(c.password)
    requires users[id].password == c.password.value
    ensures PlanLogin(users, n, c) == Ok(id)
  {
    LookupIsUnique(users, n, c);
    var r := Lookup(users, n, c);
    assert id in r;
  }

  /** The account check comes before the password check: an inactive user
      is told the account is disabled even when the password is wrong. */
  lemma DisabledBeforePassword(users: map<int, User>, n: int, c: Credentials, id: int)
    requires UniqueKeys(users) && forall k :: k in users ==> 0 <= k < n
    requires TruthyText(c.email) || TruthyText(c.employeeId)
    requires id in users && MatchesCredentials(users[id], c)
    requires users[id].active != Some(true) && TruthyText(c.password)
    ensures PlanLogin(users, n, c) == Rejected(AccountDisabled)
  {
    LookupIsUnique(users, n, c);
    assert id in Lookup(users, n, c);
  }

  /** The body of an update request: the `!== undefined` fields, and the two
      fields applied only when truthy. */
  datatype UserPatch = UserPatch(
    email: Field<string>,
    employeeId: Field<string>,
    password: Option<string>,
    role: Option<string>,
    firstName: Field<string>,
    lastName: Field<string>,
    phoneNumber: Field<string>,
    avatar: Field<string>,
    workExperience: Field<string>,
    active: Field<bool>)

  /** The row after `user.update(updateData)`. */
  function Patched(u: User, p: UserPatch): User {
    u.(email := Assign(p.email, u.email),
       employeeId := Assign(p.employeeId, u.employeeId),
       firstName := Assign(p.firstName, u.firstName),
       lastName := Assign(p.lastName, u.lastName),
       phoneNumber := Assign(p.phoneNumber, u.phoneNumber),
       avatar := Assign(p.avatar, u.avatar),
       workExperience := Assign(p.workExperience, u.workExperience),
       active := Assign(p.active, u.active),
       password := if TruthyText(p.password) then p.password.value else u.password,
       role := if TruthyText(p.role) then Lower(p.role.value) else u.role)
  }

  /** The decision of `updateUser`: 404 for an unknown id, then 400 for a
      role outside the vocabulary, both before any write; a write that the
      email validator or a unique constraint refuses ends as a 500. */
  function PlanUpdate(users: map<int, User>, id: int, p: UserPatch, isEmail: string -> bool): Outcome<User> {
    if id !in users then Rejected(NotFound)
    else if TruthyText(p.role) && !IsRole(Lower(p.role.value)) then Rejected(InvalidRole)
    else
      var u := Patched(users[id], p);
      if (p.email.Given? && !isEmail(p.email.value)) || Conflicts(users, id, u) then Rejected(InternalError)
      else Ok(u)
  }

  /** An unknown id is refused with 404, then a role outside the vocabulary
      after lower-casing with 400, before anything is written. */
  lemma UpdateRejections(users: map<int, User>, id: int, p: UserPatch, isEmail: string -> bool)
    ensures id !in users ==> PlanUpdate(users, id, p, isEmail) == Rejected(NotFound)
    ensures id in users && TruthyText(p.role) && !IsRole(Lower(p.role.value)) ==>
      PlanUpdate(users, id, p, isEmail) == Rejected(InvalidRole) && Status(InvalidRole) == 400
  {
  }

  /** An update writes exactly the supplied fields: every field the request
      leaves undefined keeps its value, and so do the id and last login. */
  lemma UpdateWritesOnlySupplied(users: map<int, User>, id: int, p: UserPatch, isEmail: string -> bool)
    requires PlanUpdate(users, id, p, isEmail).Ok?
    ensures var cur := users[id]; var u := PlanUpdate(users, id, p, isEmail).value;
      && u.id == cur.id && u.lastLogin == cur.lastLogin
      && (p.email.Undefined? ==> u.email == cur.email)
      && (p.employeeId.Undefined? ==> u.employeeId == cur.employeeId)
      && (p.firstName.Undefined? ==> u.firstName == cur.firstName)
      && (p.lastName.Undefined? ==> u.lastName == cur.lastName)
      && (p.phoneNumber.Undefined? ==> u.phoneNumber == cur.phoneNumber)
      && (p.avatar.Undefined? ==> u.avatar == cur.avatar)
      && (p.workExperience.Undefined? ==> u.workExperience == cur.workExperience)
      && (p.active.Undefined? ==> u.active == cur.active)
      && (!TruthyText(p.password) ==> u.password == cur.password)
      && (!TruthyText(p.role) ==> u.role == cur.role)
  {
  }

  /** A field sent as `null` is cleared, one sent with a value is set. */
  lemma UpdateWritesSupplied(users: map<int, User>, id: int, p: UserPatch, isEmail: string -> bool)
    requires PlanUpdate(users, id, p, isEmail).Ok?
    ensures var u := PlanUpdate(users, id, p, isEmail).value;
      && (p.email.Null? ==> u.email == None)
      && (p.email.Given? ==> u.email == Some(p.email.value))
      && (p.active.Given? ==> u.active == Some(p.active.value))
      && (TruthyText(p.password) ==> Some(u.password) == p.password)
      && (TruthyText(p.role) ==> u.role == Lower(p.role.value))
  {
  }

  /** An accepted update keeps the row within the column constraints. */
  lemma UpdateKeepsWellFormed(users: map<int, User>, id: int, p: UserPatch, isEmail: string -> bool)
    requires id in users && WellFormed(users[id])
    requires PlanUpdate(users, id, p, isEmail).Ok?
    ensures WellFormed(PlanUpdate(users, id, p, isEmail).value)
  {
  }

  /** Applying the same update twice is the same as applying it once. */
  lemma {:induction false} PatchIdempotent(u: User, p: UserPatch)
    ensures Patched(Patched(u, p), p) == Patched(u, p)
  {
    if TruthyText(p.role) {
      LowerIdempotent(p.role.value);
    }
  }

  /** The decision of `updateUserRole`: a missing role, then a role outside
      the vocabulary, are refused before the user is looked up. */
  function PlanRoleChange(users: map<int, User>, id: int, role: Option<string>): Outcome<User> {
    if !TruthyText(role) then Rejected(RoleRequired)
    else if !IsRole(Lower(role.value)) then Rejected(InvalidRole)
    else if id !in users then Rejected(NotFound)
    else Ok(users[id].(role := Lower(role.value)))
  }

  /** The role is checked before the user is looked up: a missing role is
      refused, then an invalid one, and only then an unknown id. */
  lemma RoleChangeOrder(users: map<int, User>, id: int, role: Option<string>)
    ensures !TruthyText(role) ==> PlanRoleChange(users, id, role) == Rejected(RoleRequired)
    ensures TruthyText(role) && !IsRole(Lower(role.value)) ==> PlanRoleChange(users, id, role) == Rejected(InvalidRole)
    ensures TruthyText(role) && IsRole(Lower(role.value)) && id !in users ==>
      PlanRoleChange(users, id, role) == Rejected(NotFound)
    ensures TruthyText(role) && IsRole(Lower(role.value)) && id in users ==>
      PlanRoleChange(users, id, role) == Ok(users[id].(role := Lower(role.value)))
  {
  }

  /** A role change is the general update restricted to the role: on a
      table that keeps its unique constraints, the two agree whenever the
      role is supplied and valid. */
  lemma {:induction false} RoleChangeIsRoleOnlyUpdate(users: map<int, User>, id: int, role: Option<string>, isEmail: string -> bool)
    requires UniqueKeys(users) && id in users
    requires TruthyText(role) && IsRole(Lower(role.value))
    ensures PlanRoleChange(users, id, role) ==
      PlanUpdate(users, id, UserPatch(Undefined, Undefined, None, role, Undefined, Undefined,
                                      Undefined, Undefined, Undefined, Undefined), isEmail)
  {
    var p := UserPatch(Undefined, Undefined, None, role, Undefined, Undefined,
                       Undefined, Undefined, Undefined, Undefined);
    var u := Patched(users[id], p);
    assert u == users[id].(role := Lower(role.value));
    SameKeysNoConflict(users, id, u);
  }

  /** The answer of `getUsersByRole`: the role is checked case-sensitively,
      then the ids below `n` with exactly that role, largest first. */
  function UsersByRole(users: map<int, User>, n: int, role: string): (r: Outcome<seq<int>>)
    ensures r.Rejected? <==> !IsRole(role)
    ensures r.Rejected? ==> r.reason == InvalidRole
    ensures r.Ok? ==> forall id :: 0 <= id < n && id in users ==> (id in r.value <==> users[id].role == role)
    ensures r.Ok? ==> forall k :: 0 <= k < |r.value| ==> r.value[k] in users && users[r.value[k]].role == role
    ensures r.Ok? ==> forall i, j :: 0 <= i < j < |r.value| ==> r.value[i] > r.value[j]
  {
    if !IsRole(role) then Rejected(InvalidRole)
    else Ok(Select(users, (u: User) => u.role == role, n))
  }

  /** Unlike the update handlers, the listing does not normalise case. */
  lemma ListingIsCaseSensitive(users: map<int, User>, n: int)
    ensures UsersByRole(users, n, "Admin") == Rejected(InvalidRole)
  {
  }

  /** The user table. Ids are issued by `nextId`; every row sits under its
      own id, satisfies the column constraints, and the unique keys hold. */
  class UserStore {
    var users: map<int, User>
    var nextId: int

    ghost predicate Valid()
      reads this
    {
      && 1 <= nextId
      && (forall id :: id in users ==> 1 <= id < nextId && users[id].id == id && WellFormed(users[id]))
      && UniqueKeys(users)
    }

    constructor ()
      ensures Valid() && users == map[] && nextId == 1
    {
      users := map[];
      nextId := 1;
    }

    /** `createUser`: inserts the planned row under the next id. */
    method CreateUser(req: NewUser, isEmail: string -> bool) returns (out: Outcome<User>)
      requires Valid()
      modifies this
      ensures Valid()
      ensures out == PlanCreate(old(users), old(nextId), req, isEmail)
      ensures out.Ok? ==> users == old(users)[old(nextId) := out.value] && nextId == old(nextId) + 1
      ensures out.Rejected? ==> users == old(users) && nextId == old(nextId)
    {
      out := PlanCreate(users, nextId, req, isEmail);
      if out.Ok? {
        StoreKeepsUnique(users, nextId, out.value);
        users := users[nextId := out.value];
        nextId := nextId + 1;
      }
    }

    /** `loginUser`: on success stamps `lastLogin` with `now` and answers the
        updated row; every rejection leaves the table alone. */
    method LoginUser(c: Credentials, now: int) returns (out: Outcome<User>)
      requires Valid()
      modifies this
      ensures Valid() && nextId == old(nextId)
      ensures PlanLogin(old(users), old(nextId), c).Ok? ==>
        var id := PlanLogin(old(users), old(nextId), c).value;
        && users == old(users)[id := old(users)[id].(lastLogin := Some(now))]
        && out == Ok(users[id])
      ensures PlanLogin(old(users), old(nextId), c).Rejected? ==>
        users == old(users) && out == Rejected(PlanLogin(old(users), old(nextId), c).reason)
    {
      var plan := PlanLogin(users, nextId, c);
      match plan
      case Rejected(r) =>
        out := Rejected(r);
      case Ok(id) =>
        var u := users[id].(lastLogin := Some(now));
        SameKeysNoConflict(users, id, u);
        StoreKeepsUnique(users, id, u);
        users := users[id := u];
        out := Ok(u);
    }

    /** `updateUser`: writes the planned row in place. */
    method UpdateUser(id: int, p: UserPatch, isEmail: string -> bool) returns (out: Outcome<User>)
      requires Valid()
      modifies this
      ensures Valid() && nextId == old(nextId)
      ensures out == PlanUpdate(old(users), id, p, isEmail)
      ensures out.Ok? ==> users == old(users)[id := out.value]
      ensures out.Rejected? ==> users == old(users)
    {
      out := PlanUpdate(users, id, p, isEmail);
      if out.Ok? {
        UpdateKeepsWellFormed(users, id, p, isEmail);
        StoreKeepsUnique(users, id, out.value);
        users := users[id := out.value];
      }
    }

    /** `updateUserRole`: writes the lower-cased role in place. */
    method UpdateUserRole(id: int, role: Option<string>) returns (out: Outcome<User>)
      requires Valid()
      modifies this
      ensures Valid() && nextId == old(nextId)
      ensures out == PlanRoleChange(old(users), id, role)
      ensures out.Ok? ==> users == old(users)[id := out.value]
      ensures out.Rejected? ==> users == old(users)
    {
      out := PlanRoleChange(users, id, role);
      if out.Ok? {
        RoleChangeIsRoleOnlyUpdate(users, id, role, (e: string) => true);
        StoreKeepsUnique(users, id, out.value);
        users := users[id := out.value];
      }
    }

    /** `getUsersByRole`: the rows with exactly the given role. */
    method GetUsersByRole(role: string) returns (out: Outcome<seq<User>>)
      requires Valid()
      ensures out.Rejected? <==> !IsRole(role)
      ensures out.Ok? ==> forall u :: u in out.value <==> u in users.Values && u.role == role
      ensures out.Ok? ==> forall i, j :: 0 <= i < j < |out.value| ==> out.value[i].id > out.value[j].id
    {
      var ids := UsersByRole(users, nextId, role);
      match ids
      case Rejected(r) =>
        out := Rejected(r);
      case Ok(r) =>
        var rows := Records(users, r);
        out := Ok(rows);
        forall u | u in users.Values && u.role == role
          ensures u in rows
        {
          var id :| id in users && users[id] == u;
          var k :| 0 <= k < |r| && r[k] == id;
          assert rows[k] == u;
        }
    }

    /** `deleteUser`: removes exactly the named row. */
    method DeleteUser(id: int) returns (out: Outcome<()>)
      requires Valid()
      modifies this
      ensures Valid() && nextId == old(nextId)
      ensures out.Rejected? <==> id !in old(users)
      ensures out.Rejected? ==> out.reason == NotFound && users == old(users)
      ensures out.Ok? ==> users == old(users) - {id}
    {
      if id !in users {
        out := Rejected(NotFound);
      } else {
        RemoveKeepsUnique(users, id);
        users := users - {id};
        out := Ok(());
      }
    }
  }
}
