/** Request-body validation (src/validation.rs): the error message built from a
    payload's validation errors, and the `ValidatedJson` extractor, which parses the
    body first and validates it second. The per-field rules themselves belong to
    the payload type and arrive as a function. */
module RequestValidation {
  import opened Wrappers
  import opened Text

  /** One failed rule on one field: its code, and the message the rule gives, if any. */
  datatype ValidationError = ValidationError(code: string, message: Option<string>)

  /** The errors recorded under one name: a field's own errors, or the errors of a
      nested struct or list. */
  datatype ErrorsKind = Field(errors: seq<ValidationError>) | Nested

  /** `ValidationErrors`: entries by name, in the order the underlying map iterates
      them. */
  type ValidationErrors = seq<(string, ErrorsKind)>

  /** `ValidationErrors::field_errors`: the entries that are a field's own errors. */
  function FieldErrors(errors: ValidationErrors): (r: seq<(string, seq<ValidationError>)>)
    ensures |r| <= |errors|
  {
    if |errors| == 0 then []
    else
      var rest := FieldErrors(errors[..|errors| - 1]);
      match errors[|errors| - 1].1
      case Field(es) => rest + [(errors[|errors| - 1].0, es)]
      case Nested => rest
  }

  /** The text of one error: its own message, or a fallback naming its code. */
  function MessageOf(e: ValidationError): string
  {
    match e.message
    case Some(m) => m
    case None => "invalid value for '" + e.code + "'"
  }

  function Messages(es: seq<ValidationError>): (r: seq<string>)
    ensures |r| == |es| && forall i :: 0 <= i < |es| ==> r[i] == MessageOf(es[i])
  {
    seq(|es|, i requires 0 <= i < |es| => MessageOf(es[i]))
  }

  /** One field's part of the message: its name, ": ", and its messages joined
      with ", ". */
  function Segment(field: string, es: seq<ValidationError>): string
  {
    field + ": " + Join(Messages(es), ", ")
  }

  function Segments(fes: seq<(string, seq<ValidationError>)>): (r: seq<string>)
    ensures |r| == |fes| && forall i :: 0 <= i < |fes| ==> r[i] == Segment(fes[i].0, fes[i].1)
  {
    seq(|fes|, i requires 0 <= i < |fes| => Segment(fes[i].0, fes[i].1))
  }

  /** `format_validation_errors`: one segment per field, joined with "; ". The message
      is empty exactly when there are no field errors, since even a field with no
      messages contributes "<field>: ". */
  function FormatValidationErrors(errors: ValidationErrors): (r: string)
    ensures r == "" <==> FieldErrors(errors) == []
  {
    var segs := Segments(FieldErrors(errors));
    assert |segs| > 0 ==> |Join(segs, "; ")| >= |segs[0]| >= 2;
    Join(segs, "; ")
  }

  /** Adding a field's errors adds one segment at the end, after "; " unless it is
      the first. */
  lemma {:induction false} FormatAppendField(errors: ValidationErrors, field: string, es: seq<ValidationError>)
    ensures FormatValidationErrors(errors + [(field, Field(es))])
         == if FieldErrors(errors) == [] then Segment(field, es)
            else FormatValidationErrors(errors) + "; " + Segment(field, es)
  {
    var all := errors + [(field, Field(es))];
    assert all[..|all| - 1] == errors;
    var fes := FieldErrors(errors);
    assert FieldErrors(all) == fes + [(field, es)];
    assert Segments(fes + [(field, es)]) == Segments(fes) + [Segment(field, es)];
    if fes != [] {
      JoinAppend(Segments(fes), Segment(field, es), "; ");
    }
  }

  /** Errors of nested structs or lists do not appear in the message. */
  lemma FormatIgnoresNested(errors: ValidationErrors, name: string)
    ensures FormatValidationErrors(errors + [(name, Nested)]) == FormatValidationErrors(errors)
  {
    var all := errors + [(name, Nested)];
    assert all[..|all| - 1] == errors;
  }

  /** A field with one error renders as "<field>: <message>", the message being the
      fallback "invalid value for '<code>'" when the rule gave none. */
  lemma SingleErrorSegment(field: string, code: string, message: Option<string>)
    ensures Segment(field, [ValidationError(code, message)])
         == field + ": " + (if message.Some? then message.value else "invalid value for '" + code + "'")
  {
  }

  /** The errors the extractor rejects with (the service's `AppError`). */
  datatype AppError = BadRequest(message: string) | Validation(message: string)

  /** `ValidatedJson::from_request`: a body that does not parse is a bad request and
      is never validated; a parsed payload that fails validation is a validation
      error with the formatted message; otherwise the payload itself. */
  function FromRequest<T(==)>(parsed: Result<T, string>, validate: T -> Result<(), ValidationErrors>)
    : (r: Result<T, AppError>)
    ensures parsed.Failure? ==> r == Failure(BadRequest("Invalid JSON: " + parsed.error))
    ensures parsed.Success? ==> (r.Success? <==> validate(parsed.value).Success?)
    ensures parsed.Success? && validate(parsed.value).Failure? ==>
      r == Failure(Validation(FormatValidationErrors(validate(parsed.value).error)))
    ensures r.Success? ==> parsed == Success(r.value)
  {
    match parsed
    case Failure(rejection) => Failure(BadRequest("Invalid JSON: " + rejection))
    case Success(value) =>
      match validate(value)
      case Failure(e) => Failure(Validation(FormatValidationErrors(e)))
      case Success(_) => Success(value)
  }

  /** Validation is not consulted when the body does not parse. */
  lemma ParseFailureSkipsValidation<T>(rejection: string, v1: T -> Result<(), ValidationErrors>,
                                           v2: T -> Result<(), ValidationErrors>)
    ensures FromRequest(Failure(rejection), v1) == FromRequest(Failure(rejection), v2)
  {
  }
}
