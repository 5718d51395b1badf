/** The closed error taxonomy: three enums of numeric error codes, the HTTP
    status each maps to, and the message each carries. */
module ErrorCodes {

  datatype EmployeeError = UserNotFound | UserAlreadyExists | UserInactive | InvalidEmployeeData | InvalidEmail

  datatype AuthError =
    | InvalidCredentials | Unauthorized | TokenMissing | TokenExpired | TokenInvalid
    | AccountLocked | InsufficientPermissions

  datatype CommonError =
    | InternalServerError | ValidationError | RequiredFieldMissing | DatabaseError
    | ResourceNotFound | BadRequest

  /** The `Enum` argument of the lookup functions: a member of one of the three
      enums, or any other enum value (a member of another enum type, or a number
      cast to one of these types that names none of their members). */
  datatype ErrorCode =
    | Employee(employee: EmployeeError)
    | Auth(auth: AuthError)
    | Common(common: CommonError)
    | OtherEnum(raw: int)
  {
    predicate IsDefined() { !OtherEnum? }
  }

  // HTTP status codes (System.Net.HttpStatusCode).
  const OK: int := 200
  const Created: int := 201
  const BadRequestStatus: int := 400
  const UnauthorizedStatus: int := 401
  const Forbidden: int := 403
  const NotFound: int := 404
  const Conflict: int := 409
  const Locked: int := 423
  const InternalServerErrorStatus: int := 500

  /** Every status the lookup can produce. */
  const ErrorStatuses: set<int> := {400, 401, 403, 404, 409, 423, 500}

  const UnknownErrorMessage: string := "An unknown error occurred."

  /** `Convert.ToInt32(errorCode)`: the enum member's numeric value. */
  function Value(code: ErrorCode): (v: int)
    ensures code.Employee? ==> 1001 <= v <= 1005
    ensures code.Auth? ==> 2001 <= v <= 2007
    ensures code.Common? ==> 3001 <= v <= 3006
  {
    match code
    case Employee(e) =>
      (match e
       case UserNotFound => 1001
       case UserAlreadyExists => 1002
       case UserInactive => 1003
       case InvalidEmployeeData => 1004
       case InvalidEmail => 1005)
    case Auth(a) =>
      (match a
       case InvalidCredentials => 2001
       case Unauthorized => 2002
       case TokenMissing => 2003
       case TokenExpired => 2004
       case TokenInvalid => 2005
       case AccountLocked => 2006
       case InsufficientPermissions => 2007)
    case Common(c) =>
      (match c
       case InternalServerError => 3001
       case ValidationError => 3002
       case RequiredFieldMissing => 3003
       case DatabaseError => 3004
       case ResourceNotFound => 3005
       case BadRequest => 3006)
    case OtherEnum(raw) => raw
  }

  /** `ErrorCodes.GetHttpStatusCode`. */
  function GetHttpStatusCode(code: ErrorCode): (status: int)
    ensures status in ErrorStatuses
    ensures !code.IsDefined() ==> status == InternalServerErrorStatus
  {
    match code
    case Employee(e) =>
      (match e
       case UserNotFound => NotFound
       case UserAlreadyExists => Conflict
       case UserInactive => Forbidden
       case InvalidEmployeeData => BadRequestStatus
       case InvalidEmail => BadRequestStatus)
    case Auth(a) =>
      (match a
       case InvalidCredentials => UnauthorizedStatus
       case Unauthorized => Forbidden
       case TokenMissing => UnauthorizedStatus
       case TokenExpired => UnauthorizedStatus
       case TokenInvalid => UnauthorizedStatus
       case AccountLocked => Locked
       case InsufficientPermissions => Forbidden)
    case Common(c) =>
      (match c
       case InternalServerError => InternalServerErrorStatus
       case ValidationError => BadRequestStatus
       case RequiredFieldMissing => BadRequestStatus
       case DatabaseError => InternalServerErrorStatus
       case ResourceNotFound => NotFound
       case BadRequest => BadRequestStatus)
    case OtherEnum(_) => InternalServerErrorStatus
  }

  /** `ErrorCodes.GetErrorMessage`. */
  function GetErrorMessage(code: ErrorCode): (message: string)
    ensures message != ""
    ensures message == UnknownErrorMessage <==> !code.IsDefined()
  {
    match code
    case Employee(e) =>
      (match e
       case UserNotFound => "The requested employee was not found."
       case UserAlreadyExists => "An employee with this email already exists."
       case UserInactive => "This employee account is inactive."
       case InvalidEmployeeData => "The employee data provided is invalid."
       case InvalidEmail => "The email format is invalid.")
    case Auth(a) =>
      (match a
       case InvalidCredentials => "Invalid email or password."
       case Unauthorized => "You are not authorized to perform this action."
       case TokenMissing => "Authentication token is missing."
       case TokenExpired => "Your session has expired. Please login again."
       case TokenInvalid => "Invalid authentication token."
       case AccountLocked => "Your account has been locked due to too many failed login attempts."
       case InsufficientPermissions => "You do not have permission to access this resource.")
    case Common(c) =>
      (match c
       case InternalServerError => "An unexpected error occurred. Please try again later."
       case ValidationError => "The request contains validation errors."
       case RequiredFieldMissing => "Required field is missing from the request."
       case DatabaseError => "A database error occurred. Please try again later."
       case ResourceNotFound => "The requested resource was not found."
       case BadRequest => "The request is invalid or malformed.")
    case OtherEnum(_) => UnknownErrorMessage
  }

  /** The 18 named members, family by family. */
  const AllDefined: seq<ErrorCode> := [
    Employee(UserNotFound), Employee(UserAlreadyExists), Employee(UserInactive),
    Employee(InvalidEmployeeData), Employee(InvalidEmail),
    Auth(InvalidCredentials), Auth(Unauthorized), Auth(TokenMissing), Auth(TokenExpired),
    Auth(TokenInvalid), Auth(AccountLocked), Auth(InsufficientPermissions),
    Common(InternalServerError), Common(ValidationError), Common(RequiredFieldMissing),
    Common(DatabaseError), Common(ResourceNotFound), Common(BadRequest)
  ]

  /** Where a named member stands in AllDefined. */
  function Position(code: ErrorCode): (i: nat)
    requires code.IsDefined()
    ensures i < |AllDefined| && AllDefined[i] == code
  {
    match code
    case Employee(e) =>
      (match e
       case UserNotFound => 0
       case UserAlreadyExists => 1
       case UserInactive => 2
       case InvalidEmployeeData => 3
       case InvalidEmail => 4)
    case Auth(a) =>
      (match a
       case InvalidCredentials => 5
       case Unauthorized => 6
       case TokenMissing => 7
       case TokenExpired => 8
       case TokenInvalid => 9
       case AccountLocked => 10
       case InsufficientPermissions => 11)
    case Common(c) =>
      (match c
       case InternalServerError => 12
       case ValidationError => 13
       case RequiredFieldMissing => 14
       case DatabaseError => 15
       case ResourceNotFound => 16
       case BadRequest => 17)
  }

  /** The thousands digit of a named member's value identifies its family. */
  function Family(code: ErrorCode): (f: int)
    requires code.IsDefined()
    ensures 1 <= f <= 3
  {
    if code.Employee? then 1 else if code.Auth? then 2 else 3
  }

  /** The list of named members is complete and the numbers 1001-1005,
      2001-2007 and 3001-3006 are all distinct. */
  lemma NumericCodesDistinct(a: ErrorCode, b: ErrorCode)
    ensures a.IsDefined() <==> a in AllDefined
    ensures a.IsDefined() && b.IsDefined() && a != b ==> Value(a) != Value(b)
    ensures a.IsDefined() ==> Value(a) / 1000 == Family(a)
  {
    if a.IsDefined() {
      var i := Position(a);
      assert AllDefined[i] == a;
    }
  }

  /** The status table and the message table cover the same named members:
      both give a member its own entry exactly when it is one of the 18, and
      the shared fallback (500, "An unknown error occurred.") otherwise. */
  lemma TablesCoverSameCodes(code: ErrorCode)
    ensures code.IsDefined() <==> GetErrorMessage(code) != UnknownErrorMessage
    ensures !code.IsDefined() ==> GetHttpStatusCode(code) == 500 && GetErrorMessage(code) == UnknownErrorMessage
  {
  }

  /** Every status in {400, 401, 403, 404, 409, 423, 500} is produced by some
      named member, so together with the postcondition of GetHttpStatusCode the
      range of the lookup is exactly that set. */
  lemma StatusRangeExact()
    ensures forall s :: s in ErrorStatuses <==> exists c: ErrorCode :: c.IsDefined() && GetHttpStatusCode(c) == s
  {
    assert GetHttpStatusCode(Employee(InvalidEmail)) == 400;
    assert GetHttpStatusCode(Auth(TokenMissing)) == 401;
    assert GetHttpStatusCode(Auth(Unauthorized)) == 403;
    assert GetHttpStatusCode(Employee(UserNotFound)) == 404;
    assert GetHttpStatusCode(Employee(UserAlreadyExists)) == 409;
    assert GetHttpStatusCode(Auth(AccountLocked)) == 423;
    assert GetHttpStatusCode(Common(DatabaseError)) == 500;
  }

  /** The status each family of errors is documented to produce. */
  lemma StatusTable()
    ensures GetHttpStatusCode(Employee(UserNotFound)) == 404
    ensures GetHttpStatusCode(Employee(UserAlreadyExists)) == 409
    ensures GetHttpStatusCode(Employee(InvalidEmployeeData)) == 400
    ensures GetHttpStatusCode(Employee(InvalidEmail)) == 400
    ensures GetHttpStatusCode(Employee(UserInactive)) == 403
    ensures forall a: AuthError :: a in {InvalidCredentials, TokenMissing, TokenExpired, TokenInvalid}
              <==> GetHttpStatusCode(Auth(a)) == 401
    ensures forall a: AuthError :: a in {Unauthorized, InsufficientPermissions} <==> GetHttpStatusCode(Auth(a)) == 403
    ensures GetHttpStatusCode(Auth(AccountLocked)) == 423
    ensures forall c: CommonError :: c in {InternalServerError, DatabaseError} <==> GetHttpStatusCode(Common(c)) == 500
    ensures GetHttpStatusCode(Common(ResourceNotFound)) == 404
    ensures forall c: CommonError :: c in {ValidationError, RequiredFieldMissing, BadRequest}
              <==> GetHttpStatusCode(Common(c)) == 400
  {
  }
}
