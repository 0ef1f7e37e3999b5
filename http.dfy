/** How a handler ends: with a value, or with a rejection that the transport
    layer sends as an HTTP status and message. */
module Http {

  datatype Reason =
    | MissingRequiredFields
    | ReportingUserNotFound
    | AssignedUserNotFound
    | CompletedByRequired
    | CompletingUserNotFound
    | ValidationError
    | PasswordRequired
    | EmailOrEmployeeIdRequired
    | RoleRequired
    | InvalidRole
    | AuthenticationRequired
    | InvalidAuthentication
    | InvalidCredentials
    | AccountDisabled
    | AccessDenied
    | AdminAccessRequired
    | NotFound
    | InternalError

  /** The HTTP status each rejection is answered with. */
  function Status(r: Reason): int {
    match r
    case AuthenticationRequired | InvalidAuthentication | InvalidCredentials => 401
    case AccountDisabled | AccessDenied | AdminAccessRequired => 403
    case NotFound => 404
    case InternalError => 500
    case _ => 400
  }

  datatype Outcome<+T> = Ok(value: T) | Rejected(reason: Reason)
}
