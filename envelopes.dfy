/** The JSON envelopes the API answers with: the error envelope and its three
    factories, and the success envelope. Time stamps are left out. */
module Envelopes {
  import opened Wrappers
  import opened ErrorCodes

  /** Field-level validation messages: property name to its messages. */
  type ValidationErrors = map<string, seq<string>>

  datatype ErrorResponse = ErrorResponse(
    success: bool,
    statusCode: int,
    errorCode: int,
    message: string,
    details: Option<string>,
    validationErrors: Option<ValidationErrors>)

  const ValidationFailedMessage: string := "One or more validation errors occurred."

  /** `ErrorResponse.FromErrorCode`: status, number and message all come from
      the taxonomy entry of `code`. */
  function FromErrorCode(code: ErrorCode, details: Option<string> := None): (r: ErrorResponse)
    ensures !r.success
    ensures r.statusCode == GetHttpStatusCode(code) && r.statusCode in ErrorStatuses
    ensures r.errorCode == Value(code)
    ensures r.message == GetErrorMessage(code)
    ensures r.details == details && r.validationErrors == None
  {
    ErrorResponse(false, GetHttpStatusCode(code), Value(code), GetErrorMessage(code), details, None)
  }

  /** `ErrorResponse.FromMessage`: everything is taken from the caller;
      the numeric error code defaults to 0. */
  function FromMessage(statusCode: int, message: string, errorCode: int := 0, details: Option<string> := None)
    : (r: ErrorResponse)
    ensures !r.success
    ensures r.statusCode == statusCode && r.message == message
    ensures r.errorCode == errorCode && r.details == details && r.validationErrors == None
  {
    ErrorResponse(false, statusCode, errorCode, message, details, None)
  }

  /** `ErrorResponse.ValidationError`: 400, code 3002, a fixed message and the
      given per-field messages; no details. */
  function ValidationError(errors: ValidationErrors): (r: ErrorResponse)
    ensures !r.success
    ensures r.statusCode == BadRequestStatus && r.errorCode == 3002
    ensures r.message == ValidationFailedMessage
    ensures r.validationErrors == Some(errors) && r.details == None
  {
    ErrorResponse(false, BadRequestStatus, Value(Common(CommonError.ValidationError)), ValidationFailedMessage, None, Some(errors))
  }

  /** The validation envelope carries the status and number of the taxonomy's
      ValidationError entry; only its message (and the field list) differ. */
  lemma ValidationErrorMatchesTaxonomy(errors: ValidationErrors)
    ensures var v := ValidationError(errors);
            var t := FromErrorCode(Common(CommonError.ValidationError));
            v.statusCode == t.statusCode && v.errorCode == t.errorCode && v.message != t.message
  {
  }

  /** `FromMessage` with its defaults: error code 0 and no details. */
  lemma FromMessageDefaults(statusCode: int, message: string)
    ensures FromMessage(statusCode, message).errorCode == 0
    ensures FromMessage(statusCode, message).details == None
  {
  }

  /** The success envelope `ApiResponse<T>`. */
  datatype ApiResponse<T> = ApiResponse(success: bool, statusCode: int, message: string, data: Option<T>)

  const DefaultSuccessMessage: string := "Request completed successfully"

  /** `ApiResponse<T>.SuccessResponse(data, message, statusCode)`. */
  function SuccessResponse<T>(data: T, message: Option<string> := None, statusCode: int := OK): (r: ApiResponse<T>)
    ensures r.success && r.statusCode == statusCode && r.data == Some(data)
    ensures r.message == message.GetOr(DefaultSuccessMessage)
  {
    ApiResponse(true, statusCode, message.GetOr(DefaultSuccessMessage), Some(data))
  }
}
