/**
 Validation of a registration request: an ordered chain of guards, the first
 failing one of which decides the single field error returned.
 */
module RegisterValidation {
  import opened Wrappers

  /** A field-level error, as the mutations return it in their `errors` list. */
  datatype FieldError = FieldError(field: string, message: string)

  /** The `options` argument of `register`. */
  datatype UsernamePasswordInput = UsernamePasswordInput(username: string, email: string, password: string)

  const InvalidEmail := "Invalid Email"
  const UsernameTooShort := "Your username must be at least 3 characters long"
  const UsernameHasAt := "The username must not contain the character \"@\""
  const PasswordTooShort := "Your password must be at least 6 characters long"

  /** `returnErrors`: a one-element error list. */
  function ReturnErrors(field: string, message: string): (r: seq<FieldError>)
    ensures |r| == 1 && r[0].field == field && r[0].message == message
  {
    [FieldError(field, message)]
  }

  /**
   `validateRegister`. `isValidEmail` is the email test, whose pattern is not
   part of this model, handed in as a parameter.
   */
  function ValidateRegister(options: UsernamePasswordInput, isValidEmail: string -> bool): (r: Option<seq<FieldError>>)
    ensures r.None? <==>
      && isValidEmail(options.email)
      && |options.username| >= 3
      && '@' !in options.username
      && |options.password| >= 6
    ensures r.Some? ==> |r.value| == 1 && r.value[0].field in {"email", "username", "password"}
  {
    if !isValidEmail(options.email) then Some(ReturnErrors("email", InvalidEmail))
    else if |options.username| < 3 then Some(ReturnErrors("username", UsernameTooShort))
    else if '@' in options.username then Some(ReturnErrors("username", UsernameHasAt))
    else if |options.password| < 6 then Some(ReturnErrors("password", PasswordTooShort))
    else None
  }

  // ---------------------------------------------------------------------------
  // An independent statement of "the first failing check decides"

  /** One guard: whether it passes, and the error it reports when it does not. */
  datatype Check = Check(passes: bool, error: FieldError)

  /** The error of the first check that does not pass, if any. */
  function FirstFailure(checks: seq<Check>): (r: Option<FieldError>)
    ensures r.None? <==> forall i :: 0 <= i < |checks| ==> checks[i].passes
    ensures r.Some? ==> exists i :: 0 <= i < |checks| && !checks[i].passes && r.value == checks[i].error
                                 && forall j :: 0 <= j < i ==> checks[j].passes
  {
    if checks == [] then None
    else if !checks[0].passes then Some(checks[0].error)
    else
      var r := FirstFailure(checks[1..]);
      assert forall i :: 0 < i < |checks| ==> checks[i] == checks[1..][i - 1];
      if r.Some? then
        var i :| 0 <= i < |checks[1..]| && !checks[1..][i].passes && r.value == checks[1..][i].error
                 && forall j :: 0 <= j < i ==> checks[1..][j].passes;
        assert checks[i + 1] == checks[1..][i];
        r
      else r
  }

  /** The four checks of registration, in the order they run. */
  function RegisterChecks(options: UsernamePasswordInput, isValidEmail: string -> bool): seq<Check>
  {
    [ Check(isValidEmail(options.email), FieldError("email", InvalidEmail)),
      Check(|options.username| >= 3, FieldError("username", UsernameTooShort)),
      Check('@' !in options.username, FieldError("username", UsernameHasAt)),
      Check(|options.password| >= 6, FieldError("password", PasswordTooShort)) ]
  }

  /** `validateRegister` reports exactly the error of the first failing check. */
  lemma ValidateRegisterReportsFirstFailure(options: UsernamePasswordInput, isValidEmail: string -> bool)
    ensures ValidateRegister(options, isValidEmail)
         == match FirstFailure(RegisterChecks(options, isValidEmail))
            case None => None
            case Some(e) => Some([e])
  {
    var c0 := RegisterChecks(options, isValidEmail);
    var c1 := c0[1..];
    var c2 := c1[1..];
    var c3 := c2[1..];
    assert c3[1..] == [];
    assert FirstFailure(c3) == if c3[0].passes then None else Some(c3[0].error);
    assert FirstFailure(c2) == if c2[0].passes then FirstFailure(c3) else Some(c2[0].error);
    assert FirstFailure(c1) == if c1[0].passes then FirstFailure(c2) else Some(c1[0].error);
    assert FirstFailure(c0) == if c0[0].passes then FirstFailure(c1) else Some(c0[0].error);
  }

  /** A short username that also contains '@' is reported as too short. */
  lemma ShortUsernameReportedBeforeAt(options: UsernamePasswordInput, isValidEmail: string -> bool)
    requires isValidEmail(options.email)
    requires |options.username| < 3 && '@' in options.username
    ensures ValidateRegister(options, isValidEmail) == Some([FieldError("username", UsernameTooShort)])
  {
  }
}
