/** `/auth`: registration, login and the caller's own profile. */
module AuthRouter {
  import opened Wrappers
  import opened Models
  import opened Tables
  import opened Http
  import opened Store
  import opened AuthUtils
  import opened Text

  /** The register body; `role` defaults to "PATIENT" when the client leaves it out. */
  datatype RegisterRequest = RegisterRequest(name: string, email: string, password: string, role: string)

  const DefaultRequestRole: string := "PATIENT"

  datatype UserOut = UserOut(id: int, name: string, email: string, role: string)

  datatype RegisterResponse = RegisterResponse(message: string, user: UserOut)

  datatype TokenResponse = TokenResponse(accessToken: string, tokenType: string)

  const EmailAlreadyRegistered: HttpError := HttpError(BadRequest, "Email already registered")
  const InvalidCredentials: HttpError := HttpError(Unauthorized, "Invalid credentials")

  // ---------------------------------------------------------------- the role of a new user

  /** `UserRole.ADMIN if request.role.upper() == "ADMIN" else UserRole.PATIENT`. */
  function RoleFromRequest(role: string): (r: Role)
    ensures r == Admin <==> IsAdminSpelling(role)
    ensures r == Patient <==> !IsAdminSpelling(role)
  {
    UpperAdmin(role);
    if UpperString(role) == "ADMIN" then Admin else Patient
  }

  /** The spellings of "admin" that `upper()` turns into "ADMIN". */
  predicate IsAdminSpelling(s: string)
  {
    |s| == 5 && s[0] in "Aa" && s[1] in "Dd" && s[2] in "Mm" && s[3] in "Ii\U{0131}" && s[4] in "Nn"
  }

  /** Any caller becomes an administrator exactly by asking for "admin" in some letter case. */
  lemma UpperAdmin(s: string)
    ensures UpperString(s) == "ADMIN" <==> IsAdminSpelling(s)
  {
    var u := UpperString(s);
    if IsAdminSpelling(s) {
      assert u == "ADMIN";
    }
  }

  /** A register body that leaves the role out makes a patient, the column's own default. */
  lemma DefaultRequestRoleIsDefault()
    ensures RoleFromRequest(DefaultRequestRole) == DefaultRole
  {
  }

  // ---------------------------------------------------------------- handlers

  /** `POST /auth/register`. */
  method Register(db: Database, creds: Credentials, req: RegisterRequest)
    returns (r: Result<RegisterResponse, HttpError>)
    requires db.Valid()
    modifies db
    ensures db.Valid()
    ensures r.Err? <==> HasKey(old(db.users), UserEmail, req.email)
    ensures r.Err? ==> r.error == EmailAlreadyRegistered && unchanged(db)
    ensures r.Ok? ==>
      var u := User(NextKey(old(db.users), UserId), req.name, req.email, creds.hash(req.password),
                    RoleFromRequest(req.role));
      && db.users == old(db.users) + [u]
      && db.doctors == old(db.doctors) && db.schedules == old(db.schedules)
      && db.appointments == old(db.appointments)
      && r.value == RegisterResponse("User registered successfully",
                                     UserOut(u.id, req.name, req.email, RoleValue(u.role)))
  {
    var existing := FirstWhere(db.users, KeyIs(UserEmail, req.email));
    if existing.Some? {
      return Err(EmailAlreadyRegistered);
    }
    var role := RoleFromRequest(req.role);
    var u := User(NextKey(db.users, UserId), req.name, req.email, creds.hash(req.password), role);
    InsertUserKeeps(db.users, db.doctors, db.schedules, db.appointments, u);
    db.users := db.users + [u];
    return Ok(RegisterResponse("User registered successfully", UserOut(u.id, u.name, u.email, RoleValue(u.role))));
  }

  /** `POST /auth/login`: the form's username is the email. */
  function Login(db: Database, creds: Credentials, username: string, password: string)
    : (r: Result<TokenResponse, HttpError>)
    reads db
    requires db.Valid()
    ensures r.Err? ==> r.error == InvalidCredentials
    ensures r.Ok? <==>
      exists u :: u in db.users && u.email == username && creds.verify(password, u.passwordHash)
    ensures r.Ok? ==>
      exists u :: u in db.users && u.email == username &&
        r.value == TokenResponse(creds.encode(Claims(u.id, RoleValue(u.role))), "bearer")
  {
    match FirstWhere(db.users, KeyIs(UserEmail, username))
    case None => Err(InvalidCredentials)
    case Some(k) =>
      var u := db.users[k];
      if !creds.verify(password, u.passwordHash) then Err(InvalidCredentials)
      else Ok(TokenResponse(creds.encode(Claims(u.id, RoleValue(u.role))), "bearer"))
  }

  /** `GET /auth/me`: the caller's own id, name and e-mail, and the value of their role. */
  function Me(caller: User): (r: UserOut)
    ensures r.id == caller.id && r.name == caller.name && r.email == caller.email
    ensures r.role == "ADMIN" <==> caller.role == Admin
    ensures r.role == "ADMIN" || r.role == "PATIENT"
  {
    UserOut(caller.id, caller.name, caller.email, RoleValue(caller.role))
  }

  /**
    A token issued by login, presented back, identifies the user who logged in, and `/me`
    then echoes that user with the role the token claims; this rests on the codec giving
    back the id it signed.
   */
  lemma LoginThenMe(db: Database, creds: Credentials, username: string, password: string)
    requires db.Valid()
    requires Login(db, creds, username, password).Ok?
    requires forall c: Claims :: creds.decode(creds.encode(c)) == Payload(Some(c.userId))
    ensures
      var token := Login(db, creds, username, password).value.accessToken;
      var r := CurrentUser(db, creds, token);
      && r.Ok?
      && r.value in db.users
      && Me(r.value).email == username
      && Me(r.value).id == r.value.id
      && token == creds.encode(Claims(r.value.id, Me(r.value).role))
  {
    var token := Login(db, creds, username, password).value.accessToken;
    var u :| u in db.users && u.email == username &&
      token == creds.encode(Claims(u.id, RoleValue(u.role)));
    assert creds.decode(token) == Payload(Some(u.id));
    var r := CurrentUser(db, creds, token);
    assert r.value.id == u.id;
    var i :| 0 <= i < |db.users| && db.users[i] == u;
    var j :| 0 <= j < |db.users| && db.users[j] == r.value;
    assert i == j;
  }
}
