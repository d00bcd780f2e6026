/**
 * The ordered rejection checks of registration, login and password change.
 * Each returns the first check that fails, or None when the request may go on
 * to write.
 */
module Accounts {
  import opened Wrappers
  import opened Records

  datatype RegisterError = UsernameExists | MissingUsername | MissingPassword | PasswordMismatch

  /**
   * Registration: an existing username first (the lookup runs before any other
   * check), then a missing username, a missing password, and a confirmation
   * that differs.
   */
  function RegisterCheck(taken: bool, username: Text, password: Text, confirmation: Text): (e: Option<RegisterError>)
    ensures e.None? <==> !taken && Truthy(username) && Truthy(password) && password == confirmation
    ensures e == Some(UsernameExists) <==> taken
    ensures e == Some(MissingUsername) <==> !taken && !Truthy(username)
    ensures e == Some(MissingPassword) <==> !taken && Truthy(username) && !Truthy(password)
    ensures e == Some(PasswordMismatch) <==> !taken && Truthy(username) && Truthy(password) && password != confirmation
  {
    if taken then Some(UsernameExists)
    else if !Truthy(username) then Some(MissingUsername)
    else if !Truthy(password) then Some(MissingPassword)
    else if password != confirmation then Some(PasswordMismatch)
    else None
  }

  datatype LoginError = NoUsername | NoPassword

  /** Login: both fields must be present, username first. */
  function LoginCheck(username: Text, password: Text): (e: Option<LoginError>)
    ensures e.None? <==> Truthy(username) && Truthy(password)
    ensures e == Some(NoUsername) <==> !Truthy(username)
  {
    if !Truthy(username) then Some(NoUsername)
    else if !Truthy(password) then Some(NoPassword)
    else None
  }

  datatype PasswordError = NoNewPassword | NewPasswordMismatch

  /** Password change: a new password, confirmed identically. */
  function PasswordCheck(password: Text, confirmation: Text): (e: Option<PasswordError>)
    ensures e.None? <==> Truthy(password) && password == confirmation
    ensures e == Some(NoNewPassword) <==> !Truthy(password)
  {
    if !Truthy(password) then Some(NoNewPassword)
    else if password != confirmation then Some(NewPasswordMismatch)
    else None
  }
}
