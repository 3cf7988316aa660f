/** The `users` table and the User model. Credential hashing is not part
    of this model: whether a password matches a stored user is a predicate
    supplied by the caller. */
module Users {
  import opened Common
  import opened Sessions

  /** A row of `users` without its password hash. */
  datatype UserRow = UserRow(id: int, username: string, email: string, isAdmin: bool)

  function IdOf(u: UserRow): int { u.id }

  /** The DDL declares both `username` and `email` UNIQUE. */
  ghost predicate WellFormed(rows: seq<UserRow>, nextId: int)
  {
    && 0 < nextId && AscendingBy(rows, IdOf) && (forall u :: u in rows ==> 0 < u.id < nextId)
    && EmailsUnique(rows) && UsernamesUnique(rows)
  }

  ghost predicate EmailsUnique(rows: seq<UserRow>)
  {
    forall i, j :: 0 <= i < |rows| && 0 <= j < |rows| && rows[i].email == rows[j].email ==> i == j
  }

  ghost predicate UsernamesUnique(rows: seq<UserRow>)
  {
    forall i, j :: 0 <= i < |rows| && 0 <= j < |rows| && rows[i].username == rows[j].username ==> i == j
  }

  /** Appending a row whose email and username are both new keeps the
      UNIQUE constraints. */
  lemma AppendKeepsUnique(rows: seq<UserRow>, row: UserRow)
    requires EmailsUnique(rows) && UsernamesUnique(rows)
    requires forall u :: u in rows ==> u.email != row.email && u.username != row.username
    ensures EmailsUnique(rows + [row]) && UsernamesUnique(rows + [row])
  {
    var r := rows + [row];
    forall k | 0 <= k < |rows| ensures r[k] == rows[k] && rows[k] in rows {
    }
  }

  /** A row with the next id and a new email and username keeps the table
      well formed. */
  lemma AppendKeepsWellFormed(rows: seq<UserRow>, nextId: int, row: UserRow)
    requires WellFormed(rows, nextId) && row.id == nextId
    requires forall u :: u in rows ==> u.email != row.email && u.username != row.username
    ensures WellFormed(rows + [row], nextId + 1)
  {
    AppendKeepsUnique(rows, row);
    AppendKeepsAscending(rows, row, IdOf);
  }

  /** The session view of a row: id, username, email and the admin flag. */
  function View(u: UserRow): SessionUser
  {
    SessionUser(u.id, u.username, u.email, u.isAdmin)
  }

  /** `findById`: the session view of the row with that id. */
  function FindById(rows: seq<UserRow>, id: int): (r: Option<SessionUser>)
    ensures r.Some? ==> r.value.id == id && exists u :: u in rows && View(u) == r.value
    ensures r.None? <==> forall u :: u in rows ==> u.id != id
  {
    if rows == [] then None
    else if rows[0].id == id then Some(View(rows[0]))
    else FindById(rows[1..], id)
  }

  /** `findByEmail`. */
  function FindByEmail(rows: seq<UserRow>, email: string): (r: Option<UserRow>)
    ensures r.Some? ==> r.value in rows && r.value.email == email
    ensures r.None? <==> forall u :: u in rows ==> u.email != email
  {
    if rows == [] then None
    else if rows[0].email == email then Some(rows[0])
    else FindByEmail(rows[1..], email)
  }

  /** `findByUsername`. */
  function FindByUsername(rows: seq<UserRow>, username: string): (r: Option<UserRow>)
    ensures r.Some? ==> r.value in rows && r.value.username == username
    ensures r.None? <==> forall u :: u in rows ==> u.username != username
  {
    if rows == [] then None
    else if rows[0].username == username then Some(rows[0])
    else FindByUsername(rows[1..], username)
  }

  /** `verifyPassword`: the session view of the user with that email, when
      the password matches that user's stored credential. */
  function VerifyPassword(rows: seq<UserRow>, email: string, password: string,
                          matches: (UserRow, string) -> bool): (r: Option<SessionUser>)
    ensures r.Some? <==> FindByEmail(rows, email).Some? && matches(FindByEmail(rows, email).value, password)
    ensures r.Some? ==> r.value == View(FindByEmail(rows, email).value) && r.value.email == email
  {
    match FindByEmail(rows, email)
    case None => None
    case Some(u) => if matches(u, password) then Some(View(u)) else None
  }

  lemma {:induction false} FindByIdAfterAppend(rows: seq<UserRow>, row: UserRow)
    requires forall u :: u in rows ==> u.id != row.id
    ensures FindById(rows + [row], row.id) == Some(View(row))
  {
    if rows != [] {
      assert (rows + [row])[1..] == rows[1..] + [row];
      FindByIdAfterAppend(rows[1..], row);
    }
  }

  class UserTable {
    var rows: seq<UserRow>
    var nextId: int

    ghost predicate Valid()
      reads this
    {
      WellFormed(rows, nextId)
    }

    constructor ()
      ensures Valid() && rows == []
    {
      rows := [];
      nextId := 1;
    }

    /** `User.create`: a new row with a fresh id; an email or username that
        is already taken violates a UNIQUE constraint and inserts nothing. */
    method Create(username: string, email: string, isAdmin: bool) returns (id: Option<int>)
      requires Valid()
      modifies this
      ensures Valid()
      ensures id.None? <==> FindByEmail(old(rows), email).Some? || FindByUsername(old(rows), username).Some?
      ensures id.None? ==> rows == old(rows) && nextId == old(nextId)
      ensures id.Some? ==> (id.value == old(nextId) && nextId == old(nextId) + 1
        && rows == old(rows) + [UserRow(id.value, username, email, isAdmin)]
        && FindById(rows, id.value) == Some(SessionUser(id.value, username, email, isAdmin)))
    {
      if FindByEmail(rows, email).Some? || FindByUsername(rows, username).Some? {
        return None;
      }
      var row := UserRow(nextId, username, email, isAdmin);
      FindByIdAfterAppend(rows, row);
      AppendKeepsWellFormed(rows, nextId, row);
      rows := rows + [row];
      id := Some(nextId);
      nextId := nextId + 1;
    }
  }
}
