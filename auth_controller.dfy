/** Registration, login, logout and the profile endpoint. The checks of
    each handler come first and change nothing; only a request that passes
    them creates a user or assigns the session user. */
module AuthController {
  import opened Common
  import opened Sessions
  import Users
  import Text

  datatype AuthError =
    | FieldsRequired
    | PasswordMismatch
    | PasswordTooShort
    | EmailTaken
    | UsernameTaken
    | CredentialsRequired
    | InvalidCredentials
    | NotAuthenticated

  function Code(e: AuthError): int
  {
    match e
    case FieldsRequired | PasswordMismatch | PasswordTooShort | EmailTaken | UsernameTaken | CredentialsRequired => 400
    case InvalidCredentials | NotAuthenticated => 401
  }

  /** The registration form; a missing field is the empty string. */
  datatype RegisterBody = RegisterBody(username: string, email: string, password: string, confirmPassword: string)

  /** The checks of `register`, in their order: all four fields, equal
      passwords, a password of at least six UTF-16 code units, a new email,
      a new username. */
  function RegisterCheck(rows: seq<Users.UserRow>, body: RegisterBody): (r: Option<AuthError>)
    ensures r == Some(FieldsRequired) <==>
      body.username == "" || body.email == "" || body.password == "" || body.confirmPassword == ""
    ensures r == Some(PasswordMismatch) <==>
      (body.username != "" && body.email != "" && body.password != "" && body.confirmPassword != ""
       && body.password != body.confirmPassword)
    ensures r == Some(PasswordTooShort) <==>
      (body.username != "" && body.email != "" && body.password != "" && body.password == body.confirmPassword
       && Text.Utf16Length(body.password) < 6)
    ensures r == Some(EmailTaken) ==> exists u :: u in rows && u.email == body.email
    ensures r == Some(UsernameTaken) ==>
      (forall u :: u in rows ==> u.email != body.email) && exists u :: u in rows && u.username == body.username
    ensures r.None? <==>
      (body.username != "" && body.email != "" && body.password == body.confirmPassword
       && Text.Utf16Length(body.password) >= 6
       && Users.FindByEmail(rows, body.email).None? && Users.FindByUsername(rows, body.username).None?)
  {
    if body.username == "" || body.email == "" || body.password == "" || body.confirmPassword == "" then Some(FieldsRequired)
    else if body.password != body.confirmPassword then Some(PasswordMismatch)
    else if Text.Utf16Length(body.password) < 6 then Some(PasswordTooShort)
    else if Users.FindByEmail(rows, body.email).Some? then Some(EmailTaken)
    else if Users.FindByUsername(rows, body.username).Some? then Some(UsernameTaken)
    else None
  }

  /** An address already registered is reported as such even when the
      username is taken too. */
  lemma EmailReportedBeforeUsername(rows: seq<Users.UserRow>, body: RegisterBody, u: Users.UserRow, v: Users.UserRow)
    requires body.username != "" && body.email != "" && body.password == body.confirmPassword
    requires Text.Utf16Length(body.password) >= 6
    requires u in rows && u.email == body.email
    requires v in rows && v.username == body.username
    ensures RegisterCheck(rows, body) == Some(EmailTaken)
  {
    assert body.password != "";
  }

  /** `register`: a failed check creates nobody and leaves the session as it
      was; otherwise a new non-admin user, who becomes the session user, and
      the response 201 with that user. */
  method Register(body: RegisterBody, users: Users.UserTable, session: Session) returns (r: Response<SessionUser, AuthError>)
    requires users.Valid()
    modifies users, session
    ensures users.Valid()
    ensures RegisterCheck(old(users.rows), body).Some? ==>
      r == Failure(RegisterCheck(old(users.rows), body).value) && unchanged(users) && unchanged(session)
    ensures RegisterCheck(old(users.rows), body).None? ==>
      var user := SessionUser(old(users.nextId), body.username, body.email, false);
      && users.rows == old(users.rows) + [Users.UserRow(user.id, body.username, body.email, false)]
      && session.user == Some(user)
      && r == Success(201, user)
  {
    var failed := RegisterCheck(users.rows, body);
    if failed.Some? {
      return Failure(failed.value);
    }
    var id := users.Create(body.username, body.email, false);
    var user := Users.FindById(users.rows, id.value);
    session.SignIn(user.value);
    r := Success(201, user.value);
  }

  /** `login`: 400 without both fields; 401 when the credentials do not
      match a user, with the session untouched; otherwise that user becomes
      the session user. `matches` stands for the stored-hash comparison. */
  method Login(email: string, password: string, rows: seq<Users.UserRow>, matches: (Users.UserRow, string) -> bool,
               session: Session) returns (r: Response<SessionUser, AuthError>)
    modifies session
    ensures email == "" || password == "" ==> r == Failure(CredentialsRequired) && unchanged(session)
    ensures email != "" && password != "" && Users.VerifyPassword(rows, email, password, matches).None? ==>
      r == Failure(InvalidCredentials) && unchanged(session)
    ensures r.Success? <==>
      email != "" && password != "" && Users.VerifyPassword(rows, email, password, matches).Some?
    ensures r.Success? ==>
      && r.code == 200 && r.body == Users.VerifyPassword(rows, email, password, matches).value
      && session.user == Some(r.body) && r.body.email == email
  {
    if email == "" || password == "" {
      return Failure(CredentialsRequired);
    }
    var user := Users.VerifyPassword(rows, email, password, matches);
    if user.None? {
      return Failure(InvalidCredentials);
    }
    session.SignIn(user.value);
    r := Success(200, user.value);
  }

  /** `logout`: the session is destroyed. */
  method Logout(session: Session) returns (r: Response<(), AuthError>)
    modifies session
    ensures session.user == None && r == Success(200, ())
  {
    session.Destroy();
    r := Success(200, ());
  }

  /** `getProfile`: 401 without a session user; otherwise the stored record
      of that user, which is absent when the row no longer exists. */
  function GetProfile(user: Option<SessionUser>, rows: seq<Users.UserRow>): (r: Response<Option<SessionUser>, AuthError>)
    ensures r.Failure? <==> user.None?
    ensures r.Failure? ==> r.error == NotAuthenticated
    ensures r.Success? ==> r.code == 200 && r.body == Users.FindById(rows, user.value.id)
    ensures r.Success? && r.body.Some? ==> r.body.value.id == user.value.id
  {
    if user.None? then Failure(NotAuthenticated) else Success(200, Users.FindById(rows, user.value.id))
  }

  /** After a registration the profile endpoint shows the new user. */
  lemma ProfileAfterRegister(rows: seq<Users.UserRow>, nextId: int, body: RegisterBody)
    requires Users.WellFormed(rows, nextId)
    requires RegisterCheck(rows, body).None?
    ensures GetProfile(Some(SessionUser(nextId, body.username, body.email, false)),
                       rows + [Users.UserRow(nextId, body.username, body.email, false)])
         == Success(200, Some(SessionUser(nextId, body.username, body.email, false)))
  {
    Users.FindByIdAfterAppend(rows, Users.UserRow(nextId, body.username, body.email, false));
  }
}
