# HR Application: a verified model of the rule layer

The HR Application is an ASP.NET web service that keeps an employee directory with two roles, "HR" and everybody else. Beneath its HTTP and SQL plumbing sits a small rule layer, and this project models that layer in Dafny and proves what it promises. The layer covers:

- **The employee directory service** (`UserService`). This is a class whose state is the three repositories: employees by id, the ordered role list, and password records by user id. It also holds the database's identity counter. It has seven operations:
  - read one employee, gated by the ownership rule (HR, or the caller's own record);
  - list all employees, HR only;
  - create, HR only. Create makes two separate writes: the employee row, then the password record.
  - partial update. Only HR may change role and active flag.
  - delete, HR only. Deleting an employee removes its password record too.
  - the role-count report, HR only;
  - the employees-by-role report, HR only.
- **The login decision** (`AuthServices.Login`). An ordered chain of checks runs over the stores, and then the response is built.
- **The token issuer** (`JwtTokens`):
  - the claim list and the configuration defaults;
  - the expiry arithmetic;
  - reading the user id and role back.

  Signing and serialisation are abstracted.
- **The two authorization handlers**: HR-only and same-user.
- **The error taxonomy and the response envelopes**: the three error enums and their status and message tables, the `ErrorResponse` factories, and `ApiResponse.SuccessResponse`.
- **The validation of the two request bodies**, as their attributes declare it.
- **The two controllers**, covering, for each action:
  - the role attributes;
  - the caller's id and role as read from the principal's claims;
  - the 400 answer for an invalid body;
  - the translation of a service result into an HTTP response;
  - for the summary report, the checked 32-bit sum of the role counts.

Operations that change the stores are methods of the `UserService` class. Each is proved to keep the store invariant:

- ids lie below the identity counter;
- every password record belongs to an employee;
- emails are unique;
- every employee's role exists.

Each method states the new state in full. The listing methods loop over the employee map and are proved to list every matching employee exactly once. Everything else is made of functions and lemmas.

Some things the repositories answer are not determined by the shown code. The model takes these as parameters:

- the per-role counts;
- whether an UPDATE or DELETE touched a row;
- a failure of the password write;
- the password hasher;
- the clock and the token id.

Some details are modelled as the code is written, and lemmas exhibit them:

- `DeleteEmployee` calls `SuccessResponse(text, null)`, which binds to the overload whose first parameter is the data. So the deletion text is the response's data, and its message is the default "Request completed successfully" (`EmployeesControllers.DeletedReply`).
- `[Authorize(Roles = "HR")]` looks at every role claim, but the controllers hand the service only the first one. A principal whose claims are "Employee" then "HR" passes the attribute and is refused by the service (`ActionResults.InRoleButNotFirst`).
- The same-user handler compares the route id and the id claim as text, while the service compares numbers. An id claim "05" owns employee 5 for the service but not for the handler (`EmployeesControllers.OwnershipTextVersusNumber`).
- The checked `Sum` of the summary report throws as soon as a partial sum leaves the 32-bit range. With counts that are never negative, that is exactly when the total exceeds `int.MaxValue` (`ReportsControllers.CheckedSumOverflowsExactly`).

## Model

| member | source | states |
|---|---|---|
| Text.ToUpperAscii | Services/AuthService.cs:53 | ASCII lower-case letters are mapped to upper case; every other character is unchanged |
| Text.UpperAscii | Services/AuthService.cs:53 | the upper-cased string has the same length and each character is the folded original |
| Text.EqualsIgnoreCase | Services/AuthService.cs:53 | `StringComparison.OrdinalIgnoreCase`: same length and equal characters after ASCII upper-casing |
| Text.EqualsIgnoreCaseProperties | Services/AuthService.cs:53 | the ignore-case comparison is reflexive, symmetric and transitive, and a string equals its upper-cased copy |
| Text.WrapInt32 | Services/Utils/JwtTokenGenerator.cs:58 | unchecked 32-bit arithmetic: the result is in range, congruent to the exact value modulo 2^32, and equal to it when it fits |
| Text.NatToDigits | Services/Utils/JwtTokenGenerator.cs:33 | decimal digits, at least one, with no leading zero except for 0 itself |
| Text.IntToString | Services/Utils/JwtTokenGenerator.cs:33 | `int.ToString()`: digits, preceded by '-' exactly for negative numbers |
| Text.DigitsValueOfNatToDigits | Services/Utils/JwtTokenGenerator.cs:33 | reading the digits of n back gives n |
| Text.ParseInt32 | Controllers/EmployeesController.cs:137 | `int.Parse` / `int.TryParse`: optional white space, one optional sign, ASCII digits; a parsed value always lies in the 32-bit range |
| Text.ParseIntToString | Services/Utils/JwtTokenGenerator.cs:69 | parsing the decimal text of any 32-bit integer gives the integer back |
| Text.LeadingZeroParsesAlike | Authorization/Handlers/SameUserAuthorizationHandler.cs:42 | "05" and "5" are different texts that parse to the same number 5 |
| ErrorCodes.Value | Models/Enums/ErrorCodes.cs:7-50 | employee codes lie in 1001-1005, auth codes in 2001-2007, common codes in 3001-3006 |
| ErrorCodes.GetHttpStatusCode | Models/Enums/ErrorCodes.cs:52-83 | every status is one of 400, 401, 403, 404, 409, 423, 500; a value outside the three enums gives 500 |
| ErrorCodes.GetErrorMessage | Models/Enums/ErrorCodes.cs:85-116 | every message is non-empty, and the fallback message is returned exactly for values outside the three enums |
| ErrorCodes.Position | Models/Enums/ErrorCodes.cs:7-50 | every defined code occurs in the list of all 18 codes |
| ErrorCodes.Family | Models/Enums/ErrorCodes.cs:7-50 | the family of a defined code is 1, 2 or 3 |
| ErrorCodes.NumericCodesDistinct | Models/Enums/ErrorCodes.cs:7-50 | the 18 defined codes have distinct numbers, and the thousands digit is the family |
| ErrorCodes.TablesCoverSameCodes | Models/Enums/ErrorCodes.cs:52-116 | a code has a non-fallback message iff it is defined; an undefined one gets 500 and "An unknown error occurred." |
| ErrorCodes.StatusRangeExact | Models/Enums/ErrorCodes.cs:52-83 | the statuses of the defined codes are exactly the set {400, 401, 403, 404, 409, 423, 500} |
| ErrorCodes.StatusTable | Models/Enums/ErrorCodes.cs:56-82 | the status of each code; for the auth and common families, an iff between the codes and statuses 401, 403, 500 and 400 |
| Envelopes.FromErrorCode | Models/Wrappers/ErrorResponse.cs:16-30 | success false, status and message from the two tables, error code the enum's number, details as given, no validation errors |
| Envelopes.FromMessage | Models/Wrappers/ErrorResponse.cs:32-43 | success false; status, message, error code and details copied verbatim |
| Envelopes.FromMessageDefaults | Models/Wrappers/ErrorResponse.cs:32 | the error code defaults to 0 and the details to null |
| Envelopes.ValidationError | Models/Wrappers/ErrorResponse.cs:45-56 | success false, 400, code 3002, the fixed message, the given dictionary, no details |
| Envelopes.ValidationErrorMatchesTaxonomy | Models/Wrappers/ErrorResponse.cs:45-56 | status and code equal those of FromErrorCode(ValidationError); only the message differs |
| Envelopes.SuccessResponse | Controllers/EmployeesController.cs:131 | success true, the given status and data, the given message or else "Request completed successfully" |
| Claims.FirstMatch | Controllers/EmployeesController.cs:136 | `FindFirst` / `FirstOrDefault`: None iff no claim has the type; otherwise the value of the first claim that has it |
| Claims.FirstMatchHead | Controllers/EmployeesController.cs:136 | a matching first claim is the one found |
| Claims.FirstMatchSkip | Controllers/EmployeesController.cs:136 | non-matching claims in front do not change what is found |
| JwtTokens.ExpirationMinutes | Services/Utils/JwtTokenGenerator.cs:24 | the minutes setting (default "60") parsed as a 32-bit integer, or the parse error naming the raw text |
| JwtTokens.DefaultExpirationIsSixty | Services/Utils/JwtTokenGenerator.cs:24 | an absent setting means 60 minutes |
| JwtTokens.GetExpirationSeconds | Services/Utils/JwtTokenGenerator.cs:54-59 | succeeds iff the minutes parse; the result is in the 32-bit range and equals minutes × 60 when that fits |
| JwtTokens.DefaultExpirationSeconds | Services/Utils/JwtTokenGenerator.cs:54-59 | an absent setting gives 3600 seconds |
| JwtTokens.TokenClaims | Services/Utils/JwtTokenGenerator.cs:31-39 | exactly six claims: sub, email, role, name identifier, jti, iat; sub and name identifier are both the id's decimal text |
| JwtTokens.GenerateToken | Services/Utils/JwtTokenGenerator.cs:17-52 | a missing secret key throws; otherwise the token succeeds iff the minutes parse, with issuer and audience defaults, those claims and expiry now + minutes |
| JwtTokens.ExpiryMatchesExpiresIn | Services/Utils/JwtTokenGenerator.cs:46-58 | a token's lifetime equals GetExpirationSeconds whenever the latter does not overflow |
| JwtTokens.GetUserIdFromToken | Services/Utils/JwtTokenGenerator.cs:61-80 | None for an unreadable token; otherwise a value iff the first "sub" claim parses as a 32-bit integer, and then the value is that claim's parse |
| JwtTokens.GetRoleFromToken | Services/Utils/JwtTokenGenerator.cs:82-96 | None for an unreadable token; for a readable one None iff no claim has the role type, else the value of the first claim that has it |
| JwtTokens.TokenClaimsReadBack | Services/Utils/JwtTokenGenerator.cs:31-36 | the first `sub` claim of a generated token is the user id in decimal and its first role claim is the role name |
| JwtTokens.TokenRoundTrip | Services/Utils/JwtTokenGenerator.cs:31-39 | reading back the claims of a generated token gives the user id and role it was issued for |
| AuthorizationHandlers.HandleHrOnly | Authorization/Handlers/HrOnlyAuthorizationHandler.cs:13-20 | the requirement is met iff it already was or the first role claim is exactly "HR"; Fail is never called, and otherwise nothing changes |
| AuthorizationHandlers.HandleSameUser | Authorization/Handlers/SameUserAuthorizationHandler.cs:16-48 | met iff there is a non-empty id claim and either the role is exactly "HR" or a context exists whose route "id" equals the claim as text; Fail is never called |
| AuthorizationHandlers.HandlersNeverFail | Authorization/Handlers/SameUserAuthorizationHandler.cs:16-48 | neither handler ever fails a request |
| AuthorizationHandlers.HrOnlyCaseSensitive | Authorization/Handlers/HrOnlyAuthorizationHandler.cs:15 | "hr", "Hr" and a missing role claim do not succeed; "HR" does |
| AuthorizationHandlers.SameUserNeedsIdClaim | Authorization/Handlers/SameUserAuthorizationHandler.cs:23-26 | a missing or empty id claim never succeeds, even for HR |
| AuthorizationHandlers.SameUserHrIgnoresRoute | Authorization/Handlers/SameUserAuthorizationHandler.cs:28-32 | with an id claim and role "HR", any request succeeds, with or without a context |
| AuthorizationHandlers.SameUserNonHrIsTextual | Authorization/Handlers/SameUserAuthorizationHandler.cs:34-45 | a non-HR caller without an HTTP context is not succeeded, and route "05" does not match claim "5" |
| Entities.FindRole | DataAccess/Repositories/RoleRepository.cs:26-35 | None iff no role has the id; otherwise a role of the list with that id |
| Entities.JoinEmployee | DataAccess/Repositories/IUserRepository.cs:7 | the employee read back carries its id and every field of its row, and the name of the first role with its role id, or none when no role has it |
| EmployeeDtos.ValidateCreate | Models/DTOs/CreateEmployeeDto.cs:7-28 | the key of each field is present iff one of its attributes fails: email blank or badly formed, name blank or outside 2-100, address over 255, cell number badly formed, role id below 1, password blank or under 6; each key has at least one message |
| EmployeeDtos.ValidateUpdate | Models/DTOs/UpdateEmployeeDto.cs:7-20 | the key of each field is present iff a supplied value breaks its attribute: name outside 2-100, address over 255, cell number badly formed, role id below 1 |
| EmployeeDtos.UpdateFieldsOptional | Models/DTOs/UpdateEmployeeDto.cs:7-20 | an update that supplies nothing, or only IsActive, is valid |
| EmployeeDtos.CreateNameMessages | Models/DTOs/CreateEmployeeDto.cs:11-14 | an empty name gets both the required and the minimum-length message; a name of two spaces only the required message |
| UserServices.EmployeeDtoOf | Services/UserService.cs:339-354 | the DTO of a stored employee carries its id and every field of its row, and its role's name, or "Unknown" when no role has its role id |
| UserServices.MapToDtoInjective | Services/UserService.cs:339-354 | MapToDto loses nothing except the difference between a missing role name and the name "Unknown" |
| UserServices.MayAccess | Services/UserService.cs:39 | the ownership rule: the caller is exactly "HR", or the caller's id is the employee's id |
| UserServices.NewEmployeeRow | Services/UserService.cs:119-127 | the row a create writes: the body's email, name, address, cell number and role id, and IsActive true |
| UserServices.ApplyUpdate | Services/UserService.cs:177-204 | the edited row follows the partial-update rules: email kept; a non-blank supplied name stored, else the old name; supplied address and cell number stored, else kept; supplied role id and active flag stored for HR, else kept |
| UserServices.UpdateEditRules | Services/UserService.cs:177-204 | the partial-update rules leave no freedom: any row that follows them is the row ApplyUpdate computes |
| UserServices.ApplyUpdateIdempotent | Services/UserService.cs:177-204 | the same update applied twice equals one application, and an empty update changes nothing |
| UserServices.NonHrCannotEscalate | Services/UserService.cs:187-204 | for a non-HR caller, the role and active flag in the body make no difference |
| UserServices.BlankNameValidButIgnored | Services/UserService.cs:178-179 | a name of two spaces passes the update body's validation, yet the stored name is kept |
| UserServices.RoleCounts | Services/UserService.cs:285-290 | one entry per role, in the role list's order, with its id, its name and its count, or 0 when the count map lacks the role |
| UserServices.ReplaceRowKeepsInvariant | Services/UserService.cs:206-207 | persisting an edited row with the same email and an existing role keeps the store invariant |
| UserServices.UserService.constructor | Services/UserService.cs:21-31 | empty employee and password stores over the given role list, identity counter 1, invariant established |
| UserServices.UserService.GetEmployeeById | Services/UserService.cs:33-63 | ownership is checked before the lookup: not HR and not self gives InsufficientPermissions even for a missing id; otherwise UserNotFound iff absent, else that employee's DTO |
| UserServices.UserService.SelectEmployees | DataAccess/Repositories/IUserRepository.cs:11-13 | the listing holds the DTO of every stored employee in the filter, exactly once |
| UserServices.UserService.GetAllEmployees | Services/UserService.cs:65-88 | InsufficientPermissions for any role but "HR"; for HR, every employee's DTO once |
| UserServices.UserService.Create | Services/UserService.cs:90-154 | checks run in order: not HR, an existing email (UserAlreadyExists), an unknown role (InvalidEmployeeData "Invalid role specified"), identity overflow; each of these leaves the stores unchanged. On success, one row with the body's fields and IsActive true plus one record holding the hashed password, under the next id. A failed password write keeps the row and reports InternalServerError with the exception's message. |
| UserServices.UserService.Update | Services/UserService.cs:156-227 | InsufficientPermissions, UserNotFound, InvalidEmployeeData for an HR update naming an unknown role, and DatabaseError when no row changed; a failure changes nothing; success stores ApplyUpdate of the fetched row and returns its DTO |
| UserServices.UserService.Delete | Services/UserService.cs:229-264 | InsufficientPermissions for any role but "HR", UserNotFound for an absent id, DatabaseError when no row was deleted; success removes exactly that employee and its password record |
| UserServices.UserService.GetRoleCounts | Services/UserService.cs:266-299 | InsufficientPermissions for any role but "HR"; for HR, the zero-filled role counts |
| UserServices.UserService.GetEmployeesByRole | Services/UserService.cs:301-337 | InsufficientPermissions for any role but "HR"; for HR, one group per role in the role list's order, each listing exactly that role's employees |
| UserServices.EveryEmployeeGrouped | Services/UserService.cs:317-328 | in the by-role report every stored employee appears in the group of its own role |
| AuthServices.FindByEmail | DataAccess/Repositories/IUserRepository.cs:9 | None iff no employee whose role exists has the email (the read joins the role); otherwise such an employee, the only one with that email when emails are unique |
| AuthServices.Login | Services/AuthService.cs:28-90 | success only for a known, active user with a password record whose digest matches ignoring case, returning a Bearer response for that user; every failure has status 401, 403 or 500 |
| AuthServices.UnknownEmailRefused | Services/AuthService.cs:32-37 | an unknown email yields InvalidCredentials (401) |
| AuthServices.WrongPasswordLooksLikeUnknownEmail | Services/AuthService.cs:52-57 | a wrong password gets exactly the answer an empty directory gives |
| AuthServices.InactiveBeforePassword | Services/AuthService.cs:39-43 | an inactive account gets UserInactive whatever the password and whether or not a password record exists |
| AuthServices.MissingPasswordRecord | Services/AuthService.cs:45-50 | an active user without a password record gets InternalServerError without details |
| AuthServices.DigestCaseIgnored | Services/AuthService.cs:53 | a stored digest in upper case logs in exactly as the digest itself |
| AuthServices.LoginSuccess | Services/AuthService.cs:59-80 | the token is the one generated for the user's id, email and role name (or "Employee"); ExpiresIn is GetExpirationSeconds; the user DTO mirrors the stored fields |
| AuthServices.LoginTokenReadsBack | Services/AuthService.cs:59-66 | the token of a successful login reads back as the returned user's id and role |
| AuthServices.TokenFailureIsInternalError | Services/AuthService.cs:59-89 | for correct credentials, a missing secret key or a minutes setting that `int.Parse` rejects makes token generation throw, and the login is InternalServerError carrying that exception's message |
| AuthServices.LoginSucceeds | Services/AuthService.cs:28-80 | a found, active user with a password record whose digest equals the supplied password's ignoring case logs in, under a configuration that can issue tokens, and gets its own DTO |
| AuthServices.RoleLessEmployeeUnknown | Services/AuthService.cs:32-37 | an employee whose role id names no role is not found by the joined read, so its login is InvalidCredentials |
| AuthServices.LoginAfterCreate | Services/UserService.cs:119-140 | an employee created with a password under an existing role can log in with it |
| AuthServices.LoginAfterDelete | Services/UserService.cs:248-249 | after a delete, the employee's email is unknown to login |
| ActionResults.ErrorResult | Controllers/EmployeesController.cs:33-34 | a failed service result answers with the error's own status and the error as body |
| ActionResults.Authorize | Controllers/EmployeesController.cs:12 | the action runs iff the request is authenticated and, when a role is required, some role claim has exactly that value; otherwise 401 or 403 |
| ActionResults.RoleOrDefault | Controllers/EmployeesController.cs:138 | the first role claim's value, or "Employee" when there is none |
| ActionResults.DefaultedRoleIsHrOnlyFromClaim | Controllers/ReportsController.cs:29 | the defaulted role is "HR" iff the first role claim is "HR", and then the principal is in role HR; a missing claim is never HR |
| ActionResults.InRoleButNotFirst | Controllers/ReportsController.cs:12 | role claims "Employee" then "HR" pass the role attribute, yet the service is given "Employee" |
| EmployeesControllers.IdClaimText | Controllers/EmployeesController.cs:136 | the name-identifier claim if there is one, else the "sub" claim, else "0" |
| EmployeesControllers.GetUserClaims | Controllers/EmployeesController.cs:134-141 | defined iff the id text parses as a 32-bit integer, and then gives that number and the defaulted role |
| EmployeesControllers.UserClaimsDefaults | Controllers/EmployeesController.cs:136-138 | no claims give user 0 with role "Employee"; a non-numeric id claim makes the action throw |
| EmployeesControllers.NameIdentifierBeforeSub | Controllers/EmployeesController.cs:136 | the name-identifier claim wins over "sub" |
| EmployeesControllers.EmployeeReply | Controllers/EmployeesController.cs:33-36 | a failure answers with the error's status and body; a success answers 200 with the DTO and the given message |
| EmployeesControllers.CreatedReply | Controllers/EmployeesController.cs:80-87 | a failure answers with the error; a success is 201 at GetEmployee with the new id as route value |
| EmployeesControllers.DeletedReply | Controllers/EmployeesController.cs:128-131 | a failure answers with the error; a success is 200 whose data is the deletion text and whose message is the default |
| EmployeesControllers.EmployeesController.constructor | Controllers/EmployeesController.cs:18-22 | the controller uses the given service |
| EmployeesControllers.EmployeesController.GetEmployee | Controllers/EmployeesController.cs:28-37 | 401 when unauthenticated; a throw when the id claim is not numeric; otherwise the reply to GetEmployeeById for the caller's id and role |
| EmployeesControllers.EmployeesController.GetAllEmployees | Controllers/EmployeesController.cs:39-55 | the HR gate's answer; a throw for a non-numeric id claim; InsufficientPermissions when the first role claim is not "HR"; otherwise 200 listing every employee once with "<count> employees retrieved successfully" |
| EmployeesControllers.EmployeesController.CreateEmployee | Controllers/EmployeesController.cs:57-88 | the gate first; an invalid body answers 400 with its validation errors, without reading claims or touching the stores; InsufficientPermissions for a non-HR first role; for HR, UserAlreadyExists (409) for a taken email, InvalidEmployeeData "Invalid role specified" for an unknown role, InternalServerError for identity overflow or a failed password write, and otherwise 201; a 201 names the new id, whose row and hashed password record are the only additions, and returns its DTO; every refusal but the password-write fault leaves the stores unchanged |
| EmployeesControllers.EmployeesController.UpdateEmployee | Controllers/EmployeesController.cs:90-116 | 401 unauthenticated; 400 for an invalid body; then InsufficientPermissions, NotFound, InvalidEmployeeData for an unknown role, DatabaseError when no row was updated, and otherwise 200; a 200 stores ApplyUpdate of the row and returns its DTO; every refusal leaves the stores unchanged |
| EmployeesControllers.EmployeesController.DeleteEmployee | Controllers/EmployeesController.cs:118-132 | the HR gate's answer; a throw for a non-numeric id claim; InsufficientPermissions for a non-HR first role; for HR, NotFound for an absent id, DatabaseError when no row was deleted, otherwise the 200 deletion reply; a 200 removes exactly that employee and its password record, and every refusal leaves the stores unchanged |
| EmployeesControllers.AttributesMatchService | Controllers/EmployeesController.cs:12-119 | exactly GetAll, Create and Delete demand the role "HR" |
| EmployeesControllers.HrOnlyHandlerAgreesWithService | Authorization/Handlers/HrOnlyAuthorizationHandler.cs:15 | the HR-only handler succeeds iff the role the controller hands the service is "HR" |
| EmployeesControllers.SameUserHandlerImpliesOwnership | Authorization/Handlers/SameUserAuthorizationHandler.cs:40-45 | when the same-user handler succeeds for the route of employee id, the service's ownership rule also lets the caller through |
| EmployeesControllers.OwnershipTextVersusNumber | Authorization/Handlers/SameUserAuthorizationHandler.cs:42 | an id claim "05" owns employee 5 for the service, but the handler refuses route "5" |
| ReportsControllers.CheckedSum | Controllers/ReportsController.cs:80 | `Sum` in a checked context: when it does not throw, it equals the total of the counts |
| ReportsControllers.CheckedSumOverflowsExactly | Controllers/ReportsController.cs:80 | with counts that are never negative, the sum throws iff the total exceeds int.MaxValue |
| ReportsControllers.PartialSumOverflows | Controllers/ReportsController.cs:80 | the check applies to partial sums: MaxValue, 1, -1 throws though its total fits |
| ReportsControllers.TotalOfRoleCounts | Controllers/ReportsController.cs:80-81 | the summary total is the sum over the roles of the mapped counts, 0 for an unmapped role |
| ReportsControllers.SummaryOverflowsExactly | Controllers/ReportsController.cs:80-81 | with non-negative repository counts, the summary's sum throws iff the sum over the roles exceeds int.MaxValue, and otherwise equals that sum |
| ReportsControllers.RoleCountsPrefix | Services/UserService.cs:285-290 | the report for all roles but the last is the report without its last entry |
| ReportsControllers.ReportsController.constructor | Controllers/ReportsController.cs:18-22 | the controller uses the given service |
| ReportsControllers.ReportsController.GetRoleCounts | Controllers/ReportsController.cs:27-42 | the HR gate's answer; InsufficientPermissions when the first role claim is not "HR"; otherwise 200 with the zero-filled role counts |
| ReportsControllers.ReportsController.GetEmployeesByRole | Controllers/ReportsController.cs:47-62 | the gate's answer, InsufficientPermissions, or 200 with one group per role, each listing exactly that role's employees |
| ReportsControllers.ReportsController.GetSummary | Controllers/ReportsController.cs:67-86 | the gate's answer, InsufficientPermissions, a throw when the sum overflows, or 200 whose breakdown is the unchanged role counts and whose total is their sum |

## Left out

- Asynchronous execution, logging, and the `Timestamp`, `CreatedAt`, `UpdatedAt` and `GeneratedAt` values are not modelled. They come from the clock and have no bearing on the decisions.
- The `catch (Exception)` blocks of the service are left out. The model has no exceptions, so these cannot occur. Two failures are modelled explicitly as InternalServerError with the exception's message: the password write in Create, and token generation in Login. Create also reports identity overflow the same way.
- HMAC-SHA256 signing and token serialisation are not modelled. The token is the value that would be signed, and decoding is an `Option` of its claims. In the source, an empty secret key throws when the signing key is built (Services/Utils/JwtTokenGenerator.cs:27), and a key too short for HS256 throws when the token is written (line 51). The model does not capture either throw: any present key issues a token.
- Bearer-token validation and the inbound claim-type mapping are framework code. The principal is taken as already authenticated (an `Option` of its claims).
- `PasswordHasher` is not modelled; the hasher is a function parameter that never fails, so its throw on an empty or white-space password (which `Login` would answer with InternalServerError through the catch at `AuthService.cs:85-89`) is not part of `AuthServices.Login`.
- `GetEmployeeCountByRoleAsync` is not modelled; its per-role counts are a parameter. The model does not assume which employees they count.
- `GetAllAsync` and `GetByRoleIdAsync` sort by name. The model does not assume this order: a listing holds each matching employee once, in some order.
- The role list is taken as given. The name ordering of `RoleRepository.GetAllAsync` is not modelled.
- `EmailExistsAsync` and `GetByEmailAsync` are modelled with exact string equality. The database's collation, which may ignore case, is not modelled.
- AuthServices.FindByEmail: should several rows share an email, the database may return any of them, while the model takes the least id. A valid store has unique emails, so this choice never matters there.
- `EmployeeDtos.ValidateCreate`: the `[EmailAddress]` and `[Phone]` checks are framework code, so they are taken as given predicates (`FormatChecks`) rather than defined.
- `UpdateAsync` and `DeleteAsync` can fail without reporting an error, and the `rowsAffected` flag stands for this. Other repository exceptions (connection loss and the like) are not modelled.
- Concurrency is not modelled. In particular, two creates racing between the email check and the insert are outside the model.
- Case folding is ASCII only. `OrdinalIgnoreCase` also folds non-ASCII letters, which password digests (hexadecimal text) never contain.
- Lengths are counted in `char`s of `seq<char>`. The source counts UTF-16 code units, so the two differ only for text outside the Basic Multilingual Plane.
- ParseInt32: .NET also accepts trailing NUL characters after the digits ("12\0" parses as 12). The model rejects them. An id claim or a configuration value ending in NUL is outside the model.
- `JwtTokens.ErrorMessage`: the message of the exception `int.Parse` throws for a non-numeric minutes setting is a fixed stand-in text, because it is framework-defined.
- `JwtTokens.GenerateToken`: `AddMinutes` can throw when the expiry leaves the representable date range. This is not modelled; the expiry is unbounded.
- `[ApiController]` checks the model state by itself and answers 400 with its own problem-details body before the action runs. The actions are modelled as written, with their own `ModelState.IsValid` branch, so the body of that automatic answer is not modelled.
- `UserServices.MapToDto` carries no contract of its own: it is a projection. Its partner is `UserServices.MapToDtoInjective`.
- Reads in the repository join with the roles table, so an employee whose role is missing is not found. Login takes the stores as given, and its email lookup models this join (`AuthServices.RoleLessEmployeeUnknown`). The service's reads (`GetEmployeeById`, `SelectEmployees` and the operations built on them) require a valid store, where every employee's role exists, so the join there never drops a row.
- `AuthController` and the rest of `Program.cs` are wiring only and are not modelled.
