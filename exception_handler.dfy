/**
 * The controller advice: which HTTP status and body each exception the
 * services throw is turned into. Exceptions without a handler of their own
 * fall through to the generic handler and become a 500.
 */
module GlobalExceptionHandler {
  import opened Common
  import opened Exceptions
  import UserRequestDto
  import PaymentCardRequestDto

  const BadRequest: nat := 400
  const NotFound: nat := 404
  const Conflict: nat := 409
  const InternalServerError: nat := 500

  const GenericMessagePrefix: string := "An unexpected error occurred: "
  const ValidationFailed: string := "Validation failed"

  /** The `ErrorResponse` body; its timestamp is the handler's clock and is not modelled. */
  datatype ErrorResponse = ErrorResponse(status: nat, message: string)

  /** A handler's `ResponseEntity`: an `ErrorResponse`, or the field-to-message map of a failed `@Valid`. */
  datatype HttpResponse =
    | ErrorBody(status: nat, body: ErrorResponse)
    | FieldErrors(status: nat, errors: map<string, string>)

  /** The map `put` builds from the binding errors in order: a later error of a field replaces an earlier one. */
  function FieldMap(errors: seq<FieldError>): (m: map<string, string>)
    ensures forall f :: f in m <==> exists e :: e in errors && e.field == f
  {
    if errors == [] then map[]
    else
      var last := errors[|errors| - 1];
      var prefix := errors[..|errors| - 1];
      assert forall e :: e in errors <==> e in prefix || e == last by {
        assert errors == prefix + [last];
      }
      FieldMap(prefix)[last.field := last.defaultMessage]
  }

  /** Each field reports the message of its last binding error. */
  lemma {:induction false} FieldMapLastWins(errors: seq<FieldError>, i: nat)
    requires i < |errors|
    requires forall j :: i < j < |errors| ==> errors[j].field != errors[i].field
    ensures errors[i].field in FieldMap(errors)
    ensures FieldMap(errors)[errors[i].field] == errors[i].defaultMessage
    decreases |errors|
  {
    var n := |errors| - 1;
    if i < n {
      var prefix := errors[..n];
      assert prefix[i] == errors[i];
      FieldMapLastWins(prefix, i);
    }
  }

  /** `handleValidationExceptions`: `put` of every binding error, in order, into an empty map; status 400. */
  method HandleValidationExceptions(errors: seq<FieldError>) returns (resp: HttpResponse)
    ensures resp == FieldErrors(BadRequest, FieldMap(errors))
  {
    var body: map<string, string> := map[];
    for i := 0 to |errors|
      invariant body == FieldMap(errors[..i])
    {
      assert errors[..i + 1][..i] == errors[..i];
      body := body[errors[i].field := errors[i].defaultMessage];
    }
    assert errors[..|errors|] == errors;
    resp := FieldErrors(BadRequest, body);
  }

  /** `handleConstraintViolationException`'s message: the first violation as `path: message`, or a fixed text. */
  function ConstraintViolationMessage(violations: seq<Violation>): string {
    if violations == [] then ValidationFailed
    else violations[0].propertyPath + ": " + violations[0].message
  }

  function Error(status: nat, message: string): HttpResponse {
    ErrorBody(status, ErrorResponse(status, message))
  }

  /**
   * The handler Spring picks for each exception. `EntityNotFoundException`
   * and `DataIntegrityViolationException` have no handler of their own.
   */
  function Handle(e: Exception): (resp: HttpResponse)
    ensures resp.FieldErrors? <==> e.MethodArgumentNotValidException?
    ensures resp.ErrorBody? ==> resp.body.status == resp.status
    ensures resp.status == NotFound <==> e.UserNotFoundException? || e.PaymentCardNotFoundException?
    ensures resp.status == Conflict <==> e.DuplicateEmailException? || e.DuplicateCardNumberException?
    ensures resp.status == InternalServerError <==> e.EntityNotFoundException? || e.DataIntegrityViolationException?
    ensures resp.status == BadRequest <==>
      || e.CardLimitExceededException? || e.MethodArgumentNotValidException? || e.IllegalArgumentException?
      || e.IllegalStateException? || e.ConstraintViolationException?
    ensures resp.status in {BadRequest, Conflict, NotFound} && resp.ErrorBody? && !e.ConstraintViolationException? ==>
      resp.body.message == e.message
    ensures resp.status == InternalServerError ==> resp.body.message == GenericMessagePrefix + e.message
    ensures e.ConstraintViolationException? && e.violations == [] ==> resp.body.message == ValidationFailed
    ensures e.ConstraintViolationException? && e.violations != [] ==>
      resp.body.message == e.violations[0].propertyPath + ": " + e.violations[0].message
    ensures e.MethodArgumentNotValidException? ==> resp.errors == FieldMap(e.errors)
  {
    match e
    case UserNotFoundException(m) => Error(NotFound, m)
    case PaymentCardNotFoundException(m) => Error(NotFound, m)
    case CardLimitExceededException(m) => Error(BadRequest, m)
    case DuplicateEmailException(m) => Error(Conflict, m)
    case DuplicateCardNumberException(m) => Error(Conflict, m)
    case MethodArgumentNotValidException(errors) => FieldErrors(BadRequest, FieldMap(errors))
    case IllegalArgumentException(m) => Error(BadRequest, m)
    case IllegalStateException(m) => Error(BadRequest, m)
    case ConstraintViolationException(violations) => Error(BadRequest, ConstraintViolationMessage(violations))
    case EntityNotFoundException(m) => Error(InternalServerError, GenericMessagePrefix + m)
    case DataIntegrityViolationException(m) => Error(InternalServerError, GenericMessagePrefix + m)
  }

  /**
   * A user request that fails validation is answered with a non-empty map
   * keyed by request fields only.
   */
  lemma InvalidUserRequestAnswer(r: UserRequestDto.UserRequest, today: Date, isEmail: string -> bool)
    requires !UserRequestDto.IsValid(r, today, isEmail)
    ensures Handle(MethodArgumentNotValidException(UserRequestDto.Violations(r, today, isEmail))).status == BadRequest
    ensures Handle(MethodArgumentNotValidException(UserRequestDto.Violations(r, today, isEmail))).errors != map[]
    ensures forall f :: f in Handle(MethodArgumentNotValidException(UserRequestDto.Violations(r, today, isEmail))).errors ==>
      f in {"name", "surname", "birthDate", "email"}
  {
    var errors := UserRequestDto.Violations(r, today, isEmail);
    assert errors[0] in errors;
    assert errors[0].field in FieldMap(errors);
  }

  /** The same for a card request, keyed by the card request's fields. */
  lemma InvalidCardRequestAnswer(r: PaymentCardRequestDto.PaymentCardRequest, today: Date)
    requires !PaymentCardRequestDto.IsValid(r, today)
    ensures Handle(MethodArgumentNotValidException(PaymentCardRequestDto.Violations(r, today))).status == BadRequest
    ensures Handle(MethodArgumentNotValidException(PaymentCardRequestDto.Violations(r, today))).errors != map[]
    ensures forall f :: f in Handle(MethodArgumentNotValidException(PaymentCardRequestDto.Violations(r, today))).errors ==>
      f in {"number", "holder", "expirationDate"}
  {
    var errors := PaymentCardRequestDto.Violations(r, today);
    assert errors[0] in errors;
    assert errors[0].field in FieldMap(errors);
  }
}
