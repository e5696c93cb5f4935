/**
  The two dependencies every protected handler runs before its body: the bearer-token
  lookup of the caller and the administrator guard. The token library and the password
  hasher are foreign code; they come in as the functions of a `Credentials` value.
 */
module AuthUtils {
  import opened Wrappers
  import opened Models
  import opened Tables
  import opened Http
  import opened Store

  /** The claims the login handler signs into a token. */
  datatype Claims = Claims(userId: int, role: string)

  /** `jwt.decode`: a failure (`JWTError`), or the payload's "user_id" claim when it has one. */
  datatype Decoded = DecodeFailed | Payload(userId: Option<int>)

  /** The password hasher (`pwd_context`) and the token codec (`jwt`, keyed by `JWT_SECRET`). */
  datatype Credentials = Credentials(
    hash: string -> string,
    verify: (string, string) -> bool,
    encode: Claims -> string,
    decode: string -> Decoded)

  const CredentialsError: HttpError := HttpError(Unauthorized, "Could not validate credentials")
  const AdminAccessRequired: HttpError := HttpError(Forbidden, "Admin access required")

  /** `get_current_user`: the stored user whose id the token carries, or 401. */
  function CurrentUser(db: Database, creds: Credentials, token: string): (r: Result<User, HttpError>)
    reads db
    ensures r.Err? ==> r.error == CredentialsError
    ensures creds.decode(token).DecodeFailed? ==> r.Err?
    ensures creds.decode(token) == Payload(None) ==> r.Err?
    ensures r.Ok? <==> exists u :: u in db.users && creds.decode(token) == Payload(Some(u.id))
    ensures r.Ok? ==> r.value in db.users && creds.decode(token) == Payload(Some(r.value.id))
  {
    match creds.decode(token)
    case DecodeFailed => Err(CredentialsError)
    case Payload(None) => Err(CredentialsError)
    case Payload(Some(id)) =>
      match FirstWhere(db.users, KeyIs(UserId, id))
      case None =>
        assert forall u :: u in db.users ==> u.id != id by {
          forall u | u in db.users ensures u.id != id {
            var j :| 0 <= j < |db.users| && db.users[j] == u;
            assert !KeyIs(UserId, id)(db.users[j]);
          }
        }
        Err(CredentialsError)
      case Some(k) => Ok(db.users[k])
  }

  /** `admin_required`: the caller itself when an administrator, 403 otherwise. */
  function AdminRequired(caller: User): (r: Result<User, HttpError>)
    ensures r.Ok? <==> caller.role == Admin
    ensures r.Ok? ==> r.value == caller
    ensures r.Err? ==> r.error == AdminAccessRequired
  {
    if caller.role != Admin then Err(AdminAccessRequired) else Ok(caller)
  }
}
