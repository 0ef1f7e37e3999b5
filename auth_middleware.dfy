/** The request gates: resolving the caller from the user-id header, and the
    role checks that run after it. */
module AuthMiddleware {
  import opened Wrappers
  import opened Js
  import opened Decimal
  import opened Http
  import opened UserModel

  /** `isAuthenticated`'s decision. A missing or empty header is refused; a
      header that is not an integer literal makes the primary-key lookup
      fail (the handler's catch answers 500); an id with no user is
      refused; otherwise the caller is that user. */
  function Authenticate(header: Option<string>, users: map<int, User>): (r: Outcome<User>)
    ensures !TruthyText(header) ==> r == Rejected(AuthenticationRequired)
    ensures r.Ok? ==> TruthyText(header) && ParseIntLiteral(header.value).Some?
                      && ParseIntLiteral(header.value).value in users
                      && r.value == users[ParseIntLiteral(header.value).value]
  {
    if !TruthyText(header) then Rejected(AuthenticationRequired)
    else
      match ParseIntLiteral(header.value)
      case None => Rejected(InternalError)
      case Some(id) => if id in users then Ok(users[id]) else Rejected(InvalidAuthentication)
  }

  /** A header carrying a user's id, in decimal, resolves to that user. */
  lemma AuthenticateKnownId(users: map<int, User>, id: int)
    requires id in users
    ensures Authenticate(Some(IntText(id)), users) == Ok(users[id])
  {
    IntTextRoundTrip(id);
  }

  /** A header carrying an id that names no user is refused with 401. */
  lemma AuthenticateUnknownId(users: map<int, User>, id: int)
    requires id !in users
    ensures Authenticate(Some(IntText(id)), users) == Rejected(InvalidAuthentication)
    ensures Status(Authenticate(Some(IntText(id)), users).reason) == 401
  {
    IntTextRoundTrip(id);
  }

  /** `hasRole(requiredRole)`: 401 without a caller; passes for the required
      role and for administrators; 403 for everyone else. */
  function HasRole(user: Option<User>, requiredRole: string): (r: Outcome<()>)
    ensures r.Ok? <==> user.Some? && (user.value.role == requiredRole || user.value.role == ADMIN)
    ensures user.None? ==> r == Rejected(AuthenticationRequired)
    ensures user.Some? && r.Rejected? ==> r == Rejected(AccessDenied)
  {
    if user.None? then Rejected(AuthenticationRequired)
    else if user.value.role != requiredRole && user.value.role != ADMIN then Rejected(AccessDenied)
    else Ok(())
  }

  /** `isAdmin`: 401 without a caller; passes only administrators; 403 for
      everyone else. */
  function IsAdmin(user: Option<User>): (r: Outcome<()>)
    ensures r.Ok? <==> user.Some? && user.value.role == ADMIN
    ensures user.None? ==> r == Rejected(AuthenticationRequired)
    ensures user.Some? && r.Rejected? ==> r == Rejected(AdminAccessRequired)
  {
    if user.None? then Rejected(AuthenticationRequired)
    else if user.value.role != ADMIN then Rejected(AdminAccessRequired)
    else Ok(())
  }

  /** An administrator passes every role gate. */
  lemma AdminPassesEveryGate(user: Option<User>, requiredRole: string)
    requires IsAdmin(user).Ok?
    ensures HasRole(user, requiredRole).Ok?
  {
  }

  /** The admin gate lets through exactly the callers `hasRole('admin')` lets
      through, and both answer 401 without a caller. */
  lemma AdminGateIsAdminRole(user: Option<User>)
    ensures IsAdmin(user).Ok? <==> HasRole(user, ADMIN).Ok?
    ensures IsAdmin(user).Rejected? ==>
      Status(IsAdmin(user).reason) == Status(HasRole(user, ADMIN).reason)
  {
  }

  /** The role gates' rejections are authentication (401) or authorisation
      (403) rejections. */
  lemma GateStatuses(user: Option<User>, requiredRole: string)
    ensures HasRole(user, requiredRole).Rejected? ==>
      Status(HasRole(user, requiredRole).reason) == (if user.None? then 401 else 403)
    ensures IsAdmin(user).Rejected? ==>
      Status(IsAdmin(user).reason) == (if user.None? then 401 else 403)
  {
  }

  /** The parts of an incoming request the gates read and write. */
  class Request {
    const userIdHeader: Option<string>
    var user: Option<User>

    constructor (header: Option<string>)
      ensures userIdHeader == header && user == None
    {
      userIdHeader := header;
      user := None;
    }

    /** `isAuthenticated`: attaches the caller on success and changes nothing
        otherwise. */
    method IsAuthenticated(users: map<int, User>) returns (out: Outcome<()>)
      modifies this
      ensures Authenticate(userIdHeader, users).Ok? ==>
        out == Ok(()) && user == Some(Authenticate(userIdHeader, users).value)
      ensures Authenticate(userIdHeader, users).Rejected? ==>
        out == Rejected(Authenticate(userIdHeader, users).reason) && user == old(user)
    {
      match Authenticate(userIdHeader, users)
      case Ok(u) =>
        user := Some(u);
        out := Ok(());
      case Rejected(r) =>
        out := Rejected(r);
    }
  }
}
