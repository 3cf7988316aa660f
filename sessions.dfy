/** The server-side session: the one piece of per-client state that the
    handlers read (`req.session.user`) and that registration, login and
    logout assign. */
module Sessions {
  import opened Common

  /** The user record kept in the session, as `User.findById` and
      `User.verifyPassword` return it: no credential, admin flag normalised
      to a boolean. */
  datatype SessionUser = SessionUser(id: int, username: string, email: string, isAdmin: bool)

  class Session {
    /** `req.session.user`; None when nobody is signed in. */
    var user: Option<SessionUser>

    constructor ()
      ensures user == None
    {
      user := None;
    }

    /** Assigning `req.session.user`. */
    method SignIn(u: SessionUser)
      modifies this
      ensures user == Some(u)
    {
      user := Some(u);
    }

    /** `req.session.destroy`: the session no longer carries a user. */
    method Destroy()
      modifies this
      ensures user == None
    {
      user := None;
    }
  }
}
