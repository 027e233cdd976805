/**
 * The registration form: two checks on the fields, in a fixed order, and
 * a sign-up request only when both pass.
 */
module Register {

  import opened Wrappers

  const FieldsRequired := "Email and password are required."
  const PasswordMismatch := "Passwords do not match."
  const CheckEmail := "Check your email to confirm your account, then log in."

  /** The credentials sent to `auth.signUp`. */
  datatype Credentials = Credentials(email: string, password: string)

  /**
   * The form's error, if any: the required-fields check runs first, so a
   * form missing its email or password reports that whatever the
   * confirmation holds.
   */
  function Validate(email: string, password: string, confirm: string): (r: Option<string>)
    ensures r.None? <==> email != "" && password != "" && password == confirm
    ensures email == "" || password == "" ==> r == Some(FieldsRequired)
    ensures email != "" && password != "" && password != confirm ==> r == Some(PasswordMismatch)
  {
    if email == "" || password == "" then Some(FieldsRequired)
    else if password != confirm then Some(PasswordMismatch)
    else None
  }

  class RegisterForm {
    var email: string
    var password: string
    var confirm: string
    var loading: bool
    var msg: Option<string>
    var err: Option<string>

    constructor ()
      ensures email == "" && password == "" && confirm == "" && !loading && msg == None && err == None
    {
      email, password, confirm := "", "", "";
      loading := false;
      msg, err := None, None;
    }

    /**
     * `onSubmit` up to the sign-up call: both messages are cleared; a
     * failed check sets the error and leaves `loading` alone; otherwise
     * loading starts and the credentials are returned for the one sign-up
     * call.
     */
    method Submit() returns (request: Option<Credentials>)
      modifies this
      ensures request.Some? <==> Validate(email, password, confirm).None?
      ensures request.Some? ==> request.value == Credentials(email, password) && loading && err == None
      ensures request.None? ==> err == Validate(email, password, confirm) && loading == old(loading)
      ensures msg == None
      ensures email == old(email) && password == old(password) && confirm == old(confirm)
    {
      err := None;
      msg := None;
      var problem := Validate(email, password, confirm);
      if problem.Some? {
        err := problem;
        return None;
      }
      loading := true;
      request := Some(Credentials(email, password));
    }

    /** The rest of `onSubmit`, once `auth.signUp` returns with `error`, if any. */
    method SignUpFinished(error: Option<string>)
      modifies this
      ensures !loading
      ensures error.Some? ==> err == error && msg == old(msg)
      ensures error.None? ==> msg == Some(CheckEmail) && err == old(err)
      ensures email == old(email) && password == old(password) && confirm == old(confirm)
    {
      loading := false;
      if error.Some? {
        err := error;
      } else {
        msg := Some(CheckEmail);
      }
    }
  }
}
