/**
 * The admin gate and the user endpoints. A bearer token is decoded into a
 * payload naming a user (`sub`) and carrying the roles granted when it was
 * issued; the gate admits a request when the named user still exists and
 * the token's roles include `admin`. Decoding (signature and expiry
 * checks) and the user store are parameters: `decode` answers None where
 * the JWT library raises, and the user store's functions stand for the
 * user data-access layer, which is not part of this model.
 */
module UsersApi {
  import opened Common

  /** The claims of a decoded token; `roles` is None when the claim is absent. */
  datatype Payload = Payload(sub: Option<string>, roles: Option<seq<string>>)

  /** A stored user with the names of the roles the database assigns it. */
  datatype User = User(id: int, username: string, email: string, roles: seq<string>)

  /** The user a token names, with the roles the token (not the database) grants. */
  datatype CurrentUser = CurrentUser(user: User, tokenRoles: seq<string>)

  /** What a client sends to create or update a user, including its own token. */
  datatype UserInput = UserInput(username: string, email: string, password: string, token: string)

  const LoginFirst := HttpError(Unauthorized, "Please Login First")
  const AdminRequired := HttpError(Forbidden, "Admin access required")
  const UserNotFound := HttpError(NotFound, "User not found")

  /** The token's roles, `[]` when the claim is absent. */
  function TokenRoles(p: Payload): seq<string>
  {
    if p.roles.Some? then p.roles.value else []
  }

  /**
   * `get_current_user`: 401 "Please Login First" when the token does not
   * decode, names no user, or names a user that does not exist; otherwise
   * that user with the token's roles.
   */
  function GetCurrentUser(token: string, decode: string -> Option<Payload>, findUser: string -> Option<User>)
    : (r: Result<CurrentUser, HttpError>)
    ensures r.Err? ==> r.error == LoginFirst
    ensures r.Ok? <==> && decode(token).Some?
                       && decode(token).value.sub.Some?
                       && findUser(decode(token).value.sub.value).Some?
    ensures r.Ok? ==> && r.value.user == findUser(decode(token).value.sub.value).value
                      && r.value.tokenRoles == TokenRoles(decode(token).value)
  {
    match decode(token)
    case None => Err(LoginFirst)
    case Some(payload) =>
      match payload.sub
      case None => Err(LoginFirst)
      case Some(username) =>
        match findUser(username)
        case None => Err(LoginFirst)
        case Some(user) => Ok(CurrentUser(user, TokenRoles(payload)))
  }

  /**
   * `Isadmin`: True for a logged-in user whose token carries `admin`; 401
   * when the login check fails (it is made first), 403 "Admin access
   * required" otherwise. It never answers False.
   */
  function IsAdmin(token: string, decode: string -> Option<Payload>, findUser: string -> Option<User>)
    : (r: Result<bool, HttpError>)
    ensures r.Ok? ==> r.value
    ensures r.Ok? <==> && decode(token).Some?
                       && decode(token).value.sub.Some?
                       && findUser(decode(token).value.sub.value).Some?
                       && "admin" in TokenRoles(decode(token).value)
    ensures r.Err? ==> r.error == if GetCurrentUser(token, decode, findUser).Err? then LoginFirst else AdminRequired
  {
    match GetCurrentUser(token, decode, findUser)
    case Err(e) => Err(e)
    case Ok(current) =>
      if "admin" in current.tokenRoles then Ok(true) else Err(AdminRequired)
  }

  /**
   * The gate reads roles from the token only: two user stores that know the
   * same usernames give the same answer, whatever roles they record for
   * them, so a role granted or revoked in the database changes nothing
   * until a new token is issued.
   */
  lemma GateIgnoresStoredRoles(token: string, decode: string -> Option<Payload>,
                               find1: string -> Option<User>, find2: string -> Option<User>)
    requires forall name :: find1(name).Some? <==> find2(name).Some?
    ensures IsAdmin(token, decode, find1) == IsAdmin(token, decode, find2)
  {
  }

  /** `create_new_user`: the admin gate, then the user store's create. */
  function CreateNewUser(input: UserInput, decode: string -> Option<Payload>, findUser: string -> Option<User>,
                         createUser: UserInput -> User): (r: Result<User, HttpError>)
    ensures r.Ok? <==> IsAdmin(input.token, decode, findUser).Ok?
    ensures r.Ok? ==> r.value == createUser(input)
    ensures r.Err? ==> r.error in {LoginFirst, AdminRequired}
  {
    match IsAdmin(input.token, decode, findUser)
    case Err(e) => Err(e)
    case Ok(_) => Ok(createUser(input))
  }

  /** `read_user`: the stored user, or 404 "User not found". */
  function ReadUser(userId: int, getUser: int -> Option<User>): (r: Result<User, HttpError>)
    ensures r.Ok? <==> getUser(userId).Some?
    ensures r.Ok? ==> r.value == getUser(userId).value
    ensures r.Err? ==> r.error == UserNotFound
  {
    match getUser(userId)
    case None => Err(UserNotFound)
    case Some(u) => Ok(u)
  }

  /**
   * `update_existing_user`: the admin gate first, so an unknown user id is
   * reported as 404 only to an admin; then the store's update, 404 when it
   * finds no such user.
   */
  function UpdateExistingUser(userId: int, input: UserInput, decode: string -> Option<Payload>,
                              findUser: string -> Option<User>, updateUser: (int, UserInput) -> Option<User>)
    : (r: Result<User, HttpError>)
    ensures r.Ok? <==> IsAdmin(input.token, decode, findUser).Ok? && updateUser(userId, input).Some?
    ensures r.Ok? ==> r.value == updateUser(userId, input).value
    ensures IsAdmin(input.token, decode, findUser).Err? ==> r == Err(IsAdmin(input.token, decode, findUser).error)
    ensures IsAdmin(input.token, decode, findUser).Ok? && updateUser(userId, input).None? ==> r == Err(UserNotFound)
  {
    match IsAdmin(input.token, decode, findUser)
    case Err(e) => Err(e)
    case Ok(_) =>
      match updateUser(userId, input)
      case None => Err(UserNotFound)
      case Some(u) => Ok(u)
  }

  /**
   * `delete_existing_user`: no gate at all; 404 "User not found" when the
   * store reports nothing deleted, otherwise no content.
   */
  function DeleteExistingUser(userId: int, deleteUser: int -> bool): (r: Result<(), HttpError>)
    ensures r.Ok? <==> deleteUser(userId)
    ensures r.Err? ==> r.error == UserNotFound
  {
    if deleteUser(userId) then Ok(()) else Err(UserNotFound)
  }
}
