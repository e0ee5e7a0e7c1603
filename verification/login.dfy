/**
  The login screen (src/app/login/page.jsx): its zod schema and the map
  from the status of a failed login to the field that shows the server's
  message.
 */
module Login {
  import opened Base
  import opened Forms

  /** `response.status === 200`: logged in. */
  const LoggedInStatus := 200

  const UnknownEmailStatus := 405
  const WrongPasswordStatus := 401
  const WrongRoleStatus := 403

  /** e-mail, a non-empty password, a non-empty role. */
  const LoginSchema := Schema(
    [ FieldSpec(Email, [EmailFormat]),
      FieldSpec(Password, [MinLength(1)]),
      FieldSpec(Role, [MinLength(1)]) ],
    [])

  /** The field a failed login with `status` puts the server message on. */
  function ErrorField(status: int): (r: Option<Field>)
    ensures r.Some? <==> status in {UnknownEmailStatus, WrongPasswordStatus, WrongRoleStatus}
    ensures r.Some? ==> r.value != ConfirmPassword
  {
    if status == UnknownEmailStatus then Some(Email)
    else if status == WrongPasswordStatus then Some(Password)
    else if status == WrongRoleStatus then Some(Role)
    else None
  }

  /** The status whose server message lands on `field`, if any. */
  function StatusFor(field: Field): Option<int> {
    match field
    case Email => Some(UnknownEmailStatus)
    case Password => Some(WrongPasswordStatus)
    case Role => Some(WrongRoleStatus)
    case ConfirmPassword => None
  }

  /** The status map and the per-field table describe the same pairs: so
      each status marks at most one field, and each field is marked by at
      most one status. */
  lemma ErrorFieldMatchesStatusFor(status: int, field: Field)
    ensures ErrorField(status) == Some(field) <==> StatusFor(field) == Some(status)
  {
  }

  /** Distinct statuses never mark the same field. */
  lemma ErrorFieldInjective(s1: int, s2: int)
    requires ErrorField(s1).Some? && ErrorField(s1) == ErrorField(s2)
    ensures s1 == s2
  {
  }

  /** The outcome branches of `onSubmit`. */
  function ReplyEffect(reply: Reply): (e: Effect)
    ensures e.reset <==> reply == Answered(LoggedInStatus)
    ensures e.fieldError.Some? <==>
      reply.Thrown? && reply.response.Some?
      && reply.response.value.status in {UnknownEmailStatus, WrongPasswordStatus, WrongRoleStatus}
    ensures e.fieldError.Some? ==> StatusFor(e.fieldError.value.field) == Some(reply.response.value.status)
    ensures e.fieldError.Some? ==> e.fieldError.value.message == reply.response.value.message
    ensures !(e.reset && e.fieldError.Some?)
  {
    if reply.Thrown? && reply.response.Some? && ErrorField(reply.response.value.status).Some? then
      var field := ErrorField(reply.response.value.status).value;
      ErrorFieldMatchesStatusFor(reply.response.value.status, field);
      Effect(false, Some(FieldError(field, reply.response.value.message)))
    else if reply == Answered(LoggedInStatus) then Effect(true, None)
    else Effect(false, None)
  }

  /** Which fields the schema marks. */
  lemma LoginErrors(data: FormData, isEmail: string -> bool)
    ensures Email in Errors(LoginSchema, data, isEmail) <==> Email !in data || !isEmail(data[Email])
    ensures Password in Errors(LoginSchema, data, isEmail) <==> Password !in data || data[Password] == ""
    ensures Role in Errors(LoginSchema, data, isEmail) <==> Role !in data || data[Role] == ""
    ensures ConfirmPassword !in Errors(LoginSchema, data, isEmail)
  {
    var fs := LoginSchema.fields;
    assert FieldFails(fs[0], data, isEmail) <==> Email !in data || !isEmail(data[Email]) by {
      if Email in data && !isEmail(data[Email]) {
        assert !RuleHolds(fs[0].rules[0], data[Email], isEmail);
      }
    }
    assert FieldFails(fs[1], data, isEmail) <==> Password !in data || data[Password] == "" by {
      if Password in data && data[Password] == "" {
        assert !RuleHolds(fs[1].rules[0], data[Password], isEmail);
      }
    }
    assert FieldFails(fs[2], data, isEmail) <==> Role !in data || data[Role] == "" by {
      if Role in data && data[Role] == "" {
        assert !RuleHolds(fs[2].rules[0], data[Role], isEmail);
      }
    }
    assert !FieldCheckFails(LoginSchema, data, isEmail, ConfirmPassword);
    assert !RefinementFailsOn(LoginSchema, data, ConfirmPassword);
  }

  /** A submit of the login form: validation, then the post of the
      parsed form, then the effect of the reply. */
  function Submit(data: FormData, isEmail: string -> bool, reply: Reply): (r: Submission)
    ensures r.Sent? <==>
      Email in data && Password in data && Role in data
      && isEmail(data[Email]) && data[Password] != "" && data[Role] != ""
    ensures r.Invalid? ==> (Email in r.errors <==> Email !in data || !isEmail(data[Email]))
    ensures r.Invalid? ==> (Password in r.errors <==> Password !in data || data[Password] == "")
    ensures r.Invalid? ==> (Role in r.errors <==> Role !in data || data[Role] == "")
    ensures r.Invalid? ==> r.errors == Errors(LoginSchema, data, isEmail) && ConfirmPassword !in r.errors
    ensures r.Sent? ==> r.payload.Keys == {Email, Password, Role}
    ensures r.Sent? ==> forall f | f in r.payload :: r.payload[f] == data[f]
    ensures r.Sent? ==> r.effect == ReplyEffect(reply)
  {
    LoginErrors(data, isEmail);
    match Parse(LoginSchema, data, isEmail)
    case Err(errors) => Invalid(errors)
    case Ok(parsed) =>
      assert DeclaredFields(LoginSchema) == {Email, Password, Role} by {
        var fs := LoginSchema.fields;
        assert fs[0].field == Email && fs[1].field == Password && fs[2].field == Role;
      }
      Sent(parsed, ReplyEffect(reply))
  }
}
