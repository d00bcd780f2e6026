/**
 * The web framework as the handlers see it: the responses they return and the
 * per-user session they read and write.
 */
module Web {
  import opened Wrappers
  import opened Records

  /** Where a redirect goes. */
  datatype Target =
    | Path(path: string)       // a literal path such as "/" or "/login"
    | ViewPage(id: int)        // url_for("view", id=...) with an integer id
    | ViewPageText(text: string) // url_for("view", id=...) with the raw form text

  /** The flashed messages whose choice the handlers make. */
  datatype Msg =
    | MissingUsername | MissingPassword | InvalidLogin | LoggedIn | LoggedOut
    | UsernameExists | PasswordMismatch | RegistrationFailed | Registered
    | MissingPatientName | PrescriptionSaved | SaveFailed | InvalidId | NoAccess
    | PrescriptionUpdated | InvalidPassword | PasswordChanged | PasswordChangeFailed
    | InfoChanged | InfoChangeFailed

  datatype Template =
    | LoginPage | RegisterPage | IndexPage | AccountPage | CheckPage | PasswordPage | SearchPage

  datatype Response =
    | Redirect(to: Target, msg: Option<Msg>)
    | Render(template: Template, msg: Option<Msg>)

  /** What a route guard decides: run the wrapped handler, or answer instead of it. */
  datatype Gate = Proceed | Halt(response: Response)

  /**
   * The Flask session of one browser.  The handlers only ever test the flags
   * for truthiness, so a missing key and False are the same value here.
   */
  class Session {
    var userId: Option<UserId>
    var sent: bool
    var checked: bool
    var greet: bool
    var account: bool
    var nextUrl: Option<string>

    predicate Cleared()
      reads this
    {
      userId.None? && !sent && !checked && !greet && !account && nextUrl.None?
    }

    constructor ()
      ensures Cleared()
    {
      userId, nextUrl := None, None;
      sent, checked, greet, account := false, false, false, false;
    }

    /** `session.clear()` */
    method Clear()
      modifies this
      ensures Cleared()
    {
      userId, nextUrl := None, None;
      sent, checked, greet, account := false, false, false, false;
    }
  }
}
