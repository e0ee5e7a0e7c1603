/**
  The user-deletion screen (src/app/delete/page.jsx): its zod schema and
  the error banner `errorMsg`, which every submission clears before it
  posts and which only a 410 reply fills again.
 */
module DeleteUser {
  import opened Base
  import opened Forms

  /** `response.status === 200`: the user was deleted. */
  const DeletedStatus := 200

  /** `error.response.status === 410`: the server's refusal to show. */
  const GoneStatus := 410

  /** e-mail and a non-empty role. */
  const DeleteSchema := Schema(
    [ FieldSpec(Email, [EmailFormat]),
      FieldSpec(Role, [MinLength(1)]) ],
    [])

  /** The banner after a submit, and what the submit did to the form. */
  datatype DeleteResult = DeleteResult(banner: string, submission: Submission)

  /** Which fields the schema marks. */
  lemma DeleteErrors(data: FormData, isEmail: string -> bool)
    ensures Email in Errors(DeleteSchema, data, isEmail) <==> Email !in data || !isEmail(data[Email])
    ensures Role in Errors(DeleteSchema, data, isEmail) <==> Role !in data || data[Role] == ""
    ensures Password !in Errors(DeleteSchema, data, isEmail)
    ensures ConfirmPassword !in Errors(DeleteSchema, data, isEmail)
  {
    var fs := DeleteSchema.fields;
    assert FieldFails(fs[0], data, isEmail) <==> Email !in data || !isEmail(data[Email]) by {
      if Email in data && !isEmail(data[Email]) {
        assert !RuleHolds(fs[0].rules[0], data[Email], isEmail);
      }
    }
    assert FieldFails(fs[1], data, isEmail) <==> Role !in data || data[Role] == "" by {
      if Role in data && data[Role] == "" {
        assert !RuleHolds(fs[1].rules[0], data[Role], isEmail);
      }
    }
  }

  /** The banner `onSubmit` leaves: cleared first, then set from a 410. */
  function BannerAfter(reply: Reply): (r: string)
    ensures r != "" ==> ThrownWith(reply, GoneStatus)
    ensures ThrownWith(reply, GoneStatus) ==> r == reply.response.value.message
    ensures reply.Answered? ==> r == ""
  {
    if ThrownWith(reply, GoneStatus) then reply.response.value.message else ""
  }

  /** A submit of the deletion form with `banner` on screen. An invalid
      form never reaches `onSubmit`, so its banner stays as it was. */
  function Submit(banner: string, data: FormData, isEmail: string -> bool, reply: Reply): (r: DeleteResult)
    ensures r.submission.Sent? <==>
      Email in data && Role in data && isEmail(data[Email]) && data[Role] != ""
    ensures r.submission.Invalid? ==> r.banner == banner
    ensures r.submission.Invalid? ==> (Email in r.submission.errors <==> Email !in data || !isEmail(data[Email]))
    ensures r.submission.Invalid? ==> (Role in r.submission.errors <==> Role !in data || data[Role] == "")
    ensures r.submission.Invalid? ==> r.submission.errors == Errors(DeleteSchema, data, isEmail)
    ensures r.submission.Invalid? ==> Password !in r.submission.errors && ConfirmPassword !in r.submission.errors
    ensures r.submission.Sent? ==> r.submission.payload.Keys == {Email, Role}
    ensures r.submission.Sent? ==> forall f | f in r.submission.payload :: r.submission.payload[f] == data[f]
    ensures r.submission.Sent? ==> (r.submission.effect.reset <==> reply == Answered(DeletedStatus))
    ensures r.submission.Sent? ==> r.submission.effect.fieldError == None
    ensures r.submission.Sent? && ThrownWith(reply, GoneStatus) ==> r.banner == reply.response.value.message
    ensures r.submission.Sent? && !ThrownWith(reply, GoneStatus) ==> r.banner == ""
  {
    DeleteErrors(data, isEmail);
    match Parse(DeleteSchema, data, isEmail)
    case Err(errors) => DeleteResult(banner, Invalid(errors))
    case Ok(parsed) =>
      assert DeclaredFields(DeleteSchema) == {Email, Role} by {
        var fs := DeleteSchema.fields;
        assert fs[0].field == Email && fs[1].field == Role;
      }
      DeleteResult(BannerAfter(reply), Sent(parsed, Effect(reply == Answered(DeletedStatus), None)))
  }

  /** The banner before a valid submission has no influence on the
      banner after it. */
  lemma BannerClearedAtStart(b1: string, b2: string, data: FormData, isEmail: string -> bool, reply: Reply)
    requires Submit(b1, data, isEmail, reply).submission.Sent?
    ensures Submit(b1, data, isEmail, reply).banner == Submit(b2, data, isEmail, reply).banner
  {
  }
}
