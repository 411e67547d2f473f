/** ErrorResponse: the builders of the uniform JSON error envelope
    `{statusCode, error, message | messages}`, whose body status always
    repeats the HTTP status of the response. */
module ErrorResponses {

  const HttpOk := 200
  const HttpCreated := 201
  const HttpBadRequest := 400
  const HttpUnauthorized := 401
  const HttpForbidden := 403
  const HttpNotFound := 404
  const HttpUnprocessableEntity := 422
  const HttpInternalServerError := 500

  /** A constraint violation as the validator reports it. */
  datatype ConstraintViolation = ConstraintViolation(propertyPath: string, message: string)

  /** One `{property, message}` entry of a validation error body. */
  datatype MessageEntry = MessageEntry(property: string, message: string)

  /** The part of the body after `statusCode` and `error`. */
  datatype Detail = Message(message: string) | Messages(messages: seq<MessageEntry>)

  datatype ErrorBody = ErrorBody(statusCode: int, error: string, detail: Detail)

  /** A JsonResponse carrying an error envelope. */
  datatype ErrorResponse = ErrorResponse(status: int, body: ErrorBody)

  /** The envelope promise: the body's statusCode is the HTTP status. */
  predicate Mirrored(r: ErrorResponse)
  {
    r.body.statusCode == r.status
  }

  /** An envelope with the given status, error code and single message. */
  predicate IsEnvelope(r: ErrorResponse, status: int, error: string, message: string)
  {
    Mirrored(r) && r.status == status && r.body.error == error && r.body.detail == Message(message)
  }

  /** The entries of a validation error, one per violation, in order. */
  function Entries(errors: seq<ConstraintViolation>): (r: seq<MessageEntry>)
    ensures |r| == |errors|
    ensures forall i :: 0 <= i < |errors| ==>
              r[i].property == errors[i].propertyPath && r[i].message == errors[i].message
  {
    if errors == [] then []
    else [MessageEntry(errors[0].propertyPath, errors[0].message)] + Entries(errors[1..])
  }

  /** validationError: by default 422 VALIDATION_FAILED. */
  function ValidationError(
    errors: seq<ConstraintViolation>,
    statusCode: int := HttpUnprocessableEntity,
    errorCode: string := "VALIDATION_FAILED"): (r: ErrorResponse)
    ensures Mirrored(r) && r.status == statusCode && r.body.error == errorCode
    ensures r.body.detail.Messages? && |r.body.detail.messages| == |errors|
    ensures forall i :: 0 <= i < |errors| ==>
              r.body.detail.messages[i] == MessageEntry(errors[i].propertyPath, errors[i].message)
  {
    ErrorResponse(statusCode, ErrorBody(statusCode, errorCode, Messages(Entries(errors))))
  }

  /** invalidJson: 400 INVALID_JSON. */
  function InvalidJson(): (r: ErrorResponse)
    ensures IsEnvelope(r, HttpBadRequest, "INVALID_JSON", "The request content is not a valid JSON.")
  {
    ErrorResponse(HttpBadRequest,
      ErrorBody(HttpBadRequest, "INVALID_JSON", Message("The request content is not a valid JSON.")))
  }

  /** accessDenied: 403 ACCESS_DENIED. */
  function AccessDenied(): (r: ErrorResponse)
    ensures IsEnvelope(r, HttpForbidden, "ACCESS_DENIED", "You are not allowed to access this resource.")
  {
    ErrorResponse(HttpForbidden,
      ErrorBody(HttpForbidden, "ACCESS_DENIED", Message("You are not allowed to access this resource.")))
  }

  /** unauthorized: 401 UNAUTHORIZED with the caller's message verbatim. */
  function Unauthorized(message: string): (r: ErrorResponse)
    ensures IsEnvelope(r, HttpUnauthorized, "UNAUTHORIZED", message)
  {
    ErrorResponse(HttpUnauthorized, ErrorBody(HttpUnauthorized, "UNAUTHORIZED", Message(message)))
  }

  /** customError: the given code and message, by default with status 400. */
  function CustomError(errorCode: string, message: string, statusCode: int := HttpBadRequest): (r: ErrorResponse)
    ensures IsEnvelope(r, statusCode, errorCode, message)
  {
    ErrorResponse(statusCode, ErrorBody(statusCode, errorCode, Message(message)))
  }

  /** The defaults of validationError and customError. */
  lemma BuilderDefaults(errors: seq<ConstraintViolation>, code: string, message: string)
    ensures ValidationError(errors).status == HttpUnprocessableEntity
    ensures ValidationError(errors).body.error == "VALIDATION_FAILED"
    ensures CustomError(code, message).status == HttpBadRequest
  {
  }
}
