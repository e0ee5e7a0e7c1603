/**
  What the signup, login and delete screens share: the form fields, a
  small model of the zod object schemas they declare, and the shape of a
  server reply.

  A form is a map from field to the string typed into it. A schema lists
  its fields, each with the string checks zod applies to it, and the
  object-level refinements (`.refine`) with the field their error is
  reported on. Validation yields either the parsed form or the set of
  fields carrying an error; only a valid form reaches `onSubmit`.

  The e-mail format check is zod's own rule, whose definition is not part
  of this model: it is the parameter `isEmail`.
 */
module Forms {
  import opened Base

  datatype Field = Email | Password | ConfirmPassword | Role

  type FormData = map<Field, string>

  /** `.email()` and `.min(n)` of `z.string()`. */
  datatype Rule = EmailFormat | MinLength(min: nat)

  /** `key: z.string().rule().rule()...` */
  datatype FieldSpec = FieldSpec(field: Field, rules: seq<Rule>)

  /** `.refine(data => data.left === data.right, { path: [path] })` */
  datatype Refinement = SameValue(left: Field, right: Field, path: Field)

  datatype Schema = Schema(fields: seq<FieldSpec>, refinements: seq<Refinement>)

  /** A reply to `axios.post`: a resolved response with its status, or a
      thrown error that may or may not carry a server response. */
  datatype Reply = Answered(status: int) | Thrown(response: Option<ServerResponse>)

  /** `error.response`: the status and `data.message` of the server. */
  datatype ServerResponse = ServerResponse(status: int, message: string)

  /** `setError(field, { type: "manual", message })` */
  datatype FieldError = FieldError(field: Field, message: string)

  /** What a reply does to the form: `reset()` and/or one `setError`. */
  datatype Effect = Effect(reset: bool, fieldError: Option<FieldError>)

  /** A submit either stops at validation, or posts `payload` and applies
      the effect of the reply. */
  datatype Submission = Invalid(errors: set<Field>) | Sent(payload: FormData, effect: Effect)

  /** The reply was an error carrying a server response with `status`. */
  predicate ThrownWith(reply: Reply, status: int) {
    reply.Thrown? && reply.response.Some? && reply.response.value.status == status
  }

  /** `data[f]` in JavaScript: `undefined` when the key is missing. */
  function Lookup(data: FormData, f: Field): Option<string> {
    if f in data then Some(data[f]) else None
  }

  /** JavaScript's `length` of a string: the number of UTF-16 code units,
      so a character beyond the Basic Multilingual Plane counts twice. */
  function Utf16Length(s: string): (n: nat)
    ensures |s| <= n <= 2 * |s|
    ensures n == 0 <==> s == ""
    decreases |s|
  {
    if s == "" then 0
    else (if s[0] as int > 0xFFFF then 2 else 1) + Utf16Length(s[1..])
  }

  /** Over the Basic Multilingual Plane the two lengths agree. */
  lemma {:induction false} Utf16LengthOfBmp(s: string)
    requires forall k | 0 <= k < |s| :: s[k] as int <= 0xFFFF
    ensures Utf16Length(s) == |s|
    decreases |s|
  {
    if s != "" {
      Utf16LengthOfBmp(s[1..]);
    }
  }

  /** Four characters of the astral plane make eight code units. */
  lemma FourAstralCharsAreEightUnits()
    ensures |"\U{1F600}\U{1F600}\U{1F600}\U{1F600}"| == 4
    ensures Utf16Length("\U{1F600}\U{1F600}\U{1F600}\U{1F600}") == 8
  {
  }

  /** zod's `.min(n)` compares JavaScript's `length`. */
  predicate RuleHolds(rule: Rule, value: string, isEmail: string -> bool) {
    match rule
    case EmailFormat => isEmail(value)
    case MinLength(n) => Utf16Length(value) >= n
  }

  /** A field fails when it is missing (zod's "Required") or when one of
      its checks fails on its value. */
  predicate FieldFails(spec: FieldSpec, data: FormData, isEmail: string -> bool) {
    spec.field !in data
    || exists k | 0 <= k < |spec.rules| :: !RuleHolds(spec.rules[k], data[spec.field], isEmail)
  }

  predicate AllPresent(schema: Schema, data: FormData) {
    forall i | 0 <= i < |schema.fields| :: schema.fields[i].field in data
  }

  predicate RefinementFails(r: Refinement, data: FormData) {
    Lookup(data, r.left) != Lookup(data, r.right)
  }

  /** Some declared check of `f` fails. */
  predicate FieldCheckFails(schema: Schema, data: FormData, isEmail: string -> bool, f: Field) {
    exists i | 0 <= i < |schema.fields| :: schema.fields[i].field == f && FieldFails(schema.fields[i], data, isEmail)
  }

  /** Some refinement reporting on `f` fails. */
  predicate RefinementFailsOn(schema: Schema, data: FormData, f: Field) {
    exists j | 0 <= j < |schema.refinements| :: schema.refinements[j].path == f && RefinementFails(schema.refinements[j], data)
  }

  function DeclaredFields(schema: Schema): set<Field> {
    set i | 0 <= i < |schema.fields| :: schema.fields[i].field
  }

  /** The fields carrying an error, as zod v3 reports them. A missing
      field aborts the object parse, so the refinements are only evaluated
      when every declared field is present; a failed string check does not
      stop them. */
  function Errors(schema: Schema, data: FormData, isEmail: string -> bool): (r: set<Field>)
    ensures forall i | 0 <= i < |schema.fields| && schema.fields[i].field !in data :: schema.fields[i].field in r
    ensures AllPresent(schema, data) ==>
      forall j | 0 <= j < |schema.refinements| && RefinementFails(schema.refinements[j], data) ::
        schema.refinements[j].path in r
    ensures !AllPresent(schema, data) ==>
      forall f | f in r :: exists i | 0 <= i < |schema.fields| :: schema.fields[i].field == f && FieldFails(schema.fields[i], data, isEmail)
    ensures forall i | 0 <= i < |schema.fields| && FieldFails(schema.fields[i], data, isEmail) :: schema.fields[i].field in r
    ensures forall f | f in r ::
      FieldCheckFails(schema, data, isEmail, f) || (AllPresent(schema, data) && RefinementFailsOn(schema, data, f))
    ensures forall f | f in r :: f in DeclaredFields(schema) || exists j | 0 <= j < |schema.refinements| :: schema.refinements[j].path == f
  {
    var fieldErrors := set i | 0 <= i < |schema.fields| && FieldFails(schema.fields[i], data, isEmail)
      :: schema.fields[i].field;
    var refineErrors :=
      if AllPresent(schema, data) then
        set j | 0 <= j < |schema.refinements| && RefinementFails(schema.refinements[j], data)
          :: schema.refinements[j].path
      else {};
    fieldErrors + refineErrors
  }

  /** `zodResolver(schema)`: the parsed form, holding only the declared
      fields (zod strips unknown keys), or the fields in error. */
  function Parse(schema: Schema, data: FormData, isEmail: string -> bool): (r: Result<FormData, set<Field>>)
    ensures r.Ok? <==> Errors(schema, data, isEmail) == {}
    ensures r.Err? ==> r.error == Errors(schema, data, isEmail) && r.error != {}
    ensures r.Ok? ==> r.value.Keys == DeclaredFields(schema)
    ensures r.Ok? ==> forall f | f in r.value :: f in data && r.value[f] == data[f]
  {
    var errors := Errors(schema, data, isEmail);
    if errors == {} then
      assert AllPresent(schema, data);
      Ok(map f | f in DeclaredFields(schema) :: data[f])
    else
      Err(errors)
  }
}
