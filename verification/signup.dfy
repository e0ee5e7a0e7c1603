/**
  The signup screen (src/app/signup/page.jsx): its zod schema and what
  `onSubmit` does with the form and with the server's reply.
 */
module Signup {
  import opened Base
  import opened Forms

  const PasswordMinLength := 8

  /** `response.status === 201`: the account was created. */
  const CreatedStatus := 201

  /** `error.response.status === 409`: the e-mail is already registered. */
  const ConflictStatus := 409

  /** e-mail, password of at least eight UTF-16 code units, a confirmation that
      must equal the password (reported on the confirmation), a role. */
  const SignupSchema := Schema(
    [ FieldSpec(Email, [EmailFormat]),
      FieldSpec(Password, [MinLength(PasswordMinLength)]),
      FieldSpec(ConfirmPassword, []),
      FieldSpec(Role, [MinLength(1)]) ],
    [ SameValue(Password, ConfirmPassword, ConfirmPassword) ])

  predicate AllFieldsPresent(data: FormData) {
    Email in data && Password in data && ConfirmPassword in data && Role in data
  }

  lemma CompleteFormKeys(data: FormData)
    requires AllFieldsPresent(data)
    ensures data.Keys == {Email, Password, ConfirmPassword, Role}
  {
    forall f | f in data ensures f in {Email, Password, ConfirmPassword, Role} {
      match f
      case Email =>
      case Password =>
      case ConfirmPassword =>
      case Role =>
    }
  }

  /** Which fields the schema marks, field by field. A password mismatch
      is reported on the confirmation only, and only once every field is
      present. */
  lemma SignupErrors(data: FormData, isEmail: string -> bool)
    ensures Email in Errors(SignupSchema, data, isEmail) <==> Email !in data || !isEmail(data[Email])
    ensures Password in Errors(SignupSchema, data, isEmail) <==> Password !in data || Utf16Length(data[Password]) < PasswordMinLength
    ensures Role in Errors(SignupSchema, data, isEmail) <==> Role !in data || data[Role] == ""
    ensures ConfirmPassword in Errors(SignupSchema, data, isEmail) <==>
      ConfirmPassword !in data || (AllFieldsPresent(data) && data[Password] != data[ConfirmPassword])
  {
    var fs := SignupSchema.fields;
    assert AllPresent(SignupSchema, data) <==> AllFieldsPresent(data) by {
      if AllFieldsPresent(data) {
        assert forall i | 0 <= i < |fs| :: fs[i].field in data;
      } else {
        assert !(fs[0].field in data && fs[1].field in data && fs[2].field in data && fs[3].field in data);
      }
    }
    assert FieldFails(fs[0], data, isEmail) <==> Email !in data || !isEmail(data[Email]) by {
      if Email in data && !isEmail(data[Email]) {
        assert !RuleHolds(fs[0].rules[0], data[Email], isEmail);
      }
    }
    assert FieldFails(fs[1], data, isEmail) <==> Password !in data || Utf16Length(data[Password]) < PasswordMinLength by {
      if Password in data && Utf16Length(data[Password]) < PasswordMinLength {
        assert !RuleHolds(fs[1].rules[0], data[Password], isEmail);
      }
    }
    assert FieldFails(fs[3], data, isEmail) <==> Role !in data || data[Role] == "" by {
      if Role in data && data[Role] == "" {
        assert !RuleHolds(fs[3].rules[0], data[Role], isEmail);
      }
    }
    assert FieldFails(fs[2], data, isEmail) <==> ConfirmPassword !in data;
    var rs := SignupSchema.refinements;
    assert AllFieldsPresent(data) ==>
      (RefinementFails(rs[0], data) <==> data[Password] != data[ConfirmPassword]);
  }

  /** A form reaches `onSubmit` exactly when all four checks pass. */
  lemma SignupValidIff(data: FormData, isEmail: string -> bool)
    ensures Parse(SignupSchema, data, isEmail).Ok? <==>
      AllFieldsPresent(data)
      && isEmail(data[Email])
      && Utf16Length(data[Password]) >= PasswordMinLength
      && data[ConfirmPassword] == data[Password]
      && data[Role] != ""
  {
    SignupErrors(data, isEmail);
  }

  /** The length check counts UTF-16 code units, as JavaScript does:
      four astral characters make a long enough password. */
  lemma AstralPasswordLongEnough(data: FormData, isEmail: string -> bool)
    requires Password in data && data[Password] == "\U{1F600}\U{1F600}\U{1F600}\U{1F600}"
    ensures Password !in Errors(SignupSchema, data, isEmail)
  {
    FourAstralCharsAreEightUnits();
    SignupErrors(data, isEmail);
  }

  /** The outcome branches of `onSubmit`. */
  function ReplyEffect(reply: Reply): (e: Effect)
    ensures e.reset <==> reply == Answered(CreatedStatus)
    ensures e.fieldError.Some? <==> ThrownWith(reply, ConflictStatus)
    ensures e.fieldError.Some? ==> e.fieldError.value == FieldError(Email, reply.response.value.message)
    ensures !(e.reset && e.fieldError.Some?)
  {
    if reply == Answered(CreatedStatus) then Effect(true, None)
    else if ThrownWith(reply, ConflictStatus) then Effect(false, Some(FieldError(Email, reply.response.value.message)))
    else Effect(false, None)
  }

  /** A submit of the signup form: validation, then the post of the form
      without its confirmation, then the effect of the reply. */
  function Submit(data: FormData, isEmail: string -> bool, reply: Reply): (r: Submission)
    ensures r.Sent? <==>
      AllFieldsPresent(data) && isEmail(data[Email]) && Utf16Length(data[Password]) >= PasswordMinLength
      && data[ConfirmPassword] == data[Password] && data[Role] != ""
    ensures r.Invalid? ==> (Email in r.errors <==> Email !in data || !isEmail(data[Email]))
    ensures r.Invalid? ==> (ConfirmPassword in r.errors <==>
      ConfirmPassword !in data || (AllFieldsPresent(data) && data[Password] != data[ConfirmPassword]))
    ensures r.Invalid? ==> (Password in r.errors <==> Password !in data || Utf16Length(data[Password]) < PasswordMinLength)
    ensures r.Invalid? ==> (Role in r.errors <==> Role !in data || data[Role] == "")
    ensures r.Sent? ==> r.payload == data - {ConfirmPassword}
    ensures r.Sent? ==> (r.effect.reset <==> reply == Answered(CreatedStatus))
    ensures r.Sent? ==> (r.effect.fieldError.Some? <==> ThrownWith(reply, ConflictStatus))
    ensures r.Sent? && r.effect.fieldError.Some? ==>
      r.effect.fieldError.value == FieldError(Email, reply.response.value.message)
  {
    SignupValidIff(data, isEmail);
    SignupErrors(data, isEmail);
    match Parse(SignupSchema, data, isEmail)
    case Err(errors) => Invalid(errors)
    case Ok(parsed) =>
      assert parsed == data by {
        assert DeclaredFields(SignupSchema) == {Email, Password, ConfirmPassword, Role} by {
          var fs := SignupSchema.fields;
          assert fs[0].field == Email && fs[1].field == Password;
          assert fs[2].field == ConfirmPassword && fs[3].field == Role;
        }
        CompleteFormKeys(data);
      }
      Sent(parsed - {ConfirmPassword}, ReplyEffect(reply))
  }
}
