/** The employee endpoints: who may call each action, the caller's id and
    role as read from the principal's claims, the validation short cut and
    the mapping of each service answer to an HTTP response. */
module EmployeesControllers {
  import opened Wrappers
  import opened Text
  import opened ErrorCodes
  import opened Envelopes
  import opened Claims
  import opened Entities
  import opened EmployeeDtos
  import opened UserServices
  import opened ActionResults
  import AuthorizationHandlers

  const RetrievedMessage: string := "Employee retrieved successfully"
  const CreatedMessage: string := "Employee created successfully"
  const UpdatedMessage: string := "Employee updated successfully"
  const GetEmployeeAction: string := "GetEmployee"

  /** The role each action's `[Authorize]` attributes demand beyond
      authentication. */
  const HrOnlyActions: set<string> := {"GetAllEmployees", "CreateEmployee", "DeleteEmployee"}

  function RequiredRole(action: string): Option<string> {
    if action in HrOnlyActions then Some(HrRole) else None
  }

  /** The text of the caller's id: the name-identifier claim, else "sub",
      else "0". */
  function IdClaimText(claims: seq<Claim>): (text: string)
    ensures FindFirst(claims, NameIdentifierType).Some? ==> text == FindFirst(claims, NameIdentifierType).value
    ensures FindFirst(claims, NameIdentifierType).None? && FindFirst(claims, SubType).Some? ==>
              text == FindFirst(claims, SubType).value
    ensures FindFirst(claims, NameIdentifierType).None? && FindFirst(claims, SubType).None? ==> text == "0"
  {
    match FindFirst(claims, NameIdentifierType)
    case Some(v) => v
    case None => FindFirst(claims, SubType).GetOr("0")
  }

  /** `GetUserClaims`: None when `int.Parse` throws on the id text. */
  function GetUserClaims(claims: seq<Claim>): (r: Option<(Int32, string)>)
    ensures r.Some? <==> ParseInt32(IdClaimText(claims)).Some?
    ensures r.Some? ==> r.value.0 as int == ParseInt32(IdClaimText(claims)).value && r.value.1 == RoleOrDefault(claims)
  {
    match ParseInt32(IdClaimText(claims))
    case None => None
    case Some(n) => Some((n as Int32, RoleOrDefault(claims)))
  }

  /** Without any id claim the caller is user 0; an id that is not an
      integer makes the action throw. */
  lemma UserClaimsDefaults(role: string)
    ensures GetUserClaims([]) == Some((0, DefaultRole))
    ensures GetUserClaims([Claim(RoleType, role)]) == Some((0, role))
    ensures GetUserClaims([Claim(NameIdentifierType, "abc")]).None?
  {
    ParseIntToString(0);
    assert IntToString(0) == "0";
    assert !IsDigit("abc"[0]);
    assert TrimStartNumberWhite("abc") == "abc";
  }

  /** The name-identifier claim wins over "sub". */
  lemma NameIdentifierBeforeSub(id: Int32, sub: string)
    ensures GetUserClaims([Claim(SubType, sub), Claim(NameIdentifierType, IntToString(id))]).Some?
    ensures GetUserClaims([Claim(SubType, sub), Claim(NameIdentifierType, IntToString(id))]).value.0 == id
  {
    var claims := [Claim(SubType, sub), Claim(NameIdentifierType, IntToString(id))];
    assert !EqualsIgnoreCase(SubType, NameIdentifierType);
    assert claims == claims[..1] + claims[1..];
    FirstMatchSkip(claims[..1], claims[1..], NameIdentifierType, true);
    EqualsIgnoreCaseProperties(NameIdentifierType, NameIdentifierType, NameIdentifierType);
    FirstMatchHead(claims[1], [], NameIdentifierType, true);
    assert claims[1..] == [claims[1]] + [];
    ParseIntToString(id);
  }

  /** The response to a service answer carrying one employee. */
  function EmployeeReply(r: Result<EmployeeDto, ErrorResponse>, message: string): (a: ActionResult)
    ensures r.Failure? ==> a == ErrorResult(r.error)
    ensures r.Success? ==> a.Respond? && a.status == OK && a.body.EmployeeBody? && a.body.employee.data == Some(r.value)
                           && a.body.employee.message == message
  {
    match r
    case Failure(e) => ErrorResult(e)
    case Success(d) => Respond(OK, EmployeeBody(SuccessResponse(d, Some(message))))
  }

  /** The response to a successful or failed create. */
  function CreatedReply(r: Result<EmployeeDto, ErrorResponse>): (a: ActionResult)
    ensures r.Failure? ==> a == ErrorResult(r.error)
    ensures r.Success? ==> && a.CreatedAt? && a.actionName == GetEmployeeAction && a.routeId == r.value.id
                           && a.body == EmployeeBody(SuccessResponse(r.value, Some(CreatedMessage), Created))
  {
    match r
    case Failure(e) => ErrorResult(e)
    case Success(d) => CreatedAt(GetEmployeeAction, d.id, EmployeeBody(SuccessResponse(d, Some(CreatedMessage), Created)))
  }

  /** The response to a delete: `SuccessResponse(text, null)` binds the
      overload whose first parameter is the data, so the text is the data and
      the message is the default one. */
  function DeletedReply(success: bool, error: Option<ErrorResponse>, id: Int32): (a: ActionResult)
    requires success <==> error.None?
    ensures !success ==> a == ErrorResult(error.value)
    ensures success ==> a == Respond(OK, TextBody(ApiResponse(true, OK, DefaultSuccessMessage,
                                                             Some("Employee with ID " + IntToString(id) + " deleted successfully"))))
  {
    if !success then ErrorResult(error.value)
    else Respond(OK, TextBody(SuccessResponse("Employee with ID " + IntToString(id) + " deleted successfully", None)))
  }

  class EmployeesController {
    const service: UserService
    /** The framework's format checks used when the request body is bound. */
    const formats: FormatChecks

    constructor(service: UserService, formats: FormatChecks)
      ensures this.service == service && this.formats == formats
    {
      this.service := service;
      this.formats := formats;
    }

    /** `GET api/employees/{id}`: any authenticated caller. */
    method GetEmployee(principal: Option<seq<Claim>>, id: Int32) returns (result: ActionResult)
      requires service.Valid()
      ensures principal.None? ==> result == Challenge
      ensures principal.Some? && GetUserClaims(principal.value).None? ==> result == Unhandled
      ensures principal.Some? && GetUserClaims(principal.value).Some? ==>
                result == EmployeeReply(service.GetEmployeeById(id, GetUserClaims(principal.value).value.0,
                                                                GetUserClaims(principal.value).value.1), RetrievedMessage)
    {
      var gate := Authorize(principal, RequiredRole("GetEmployee"));
      if gate.Some? {
        return gate.value;
      }
      var caller := GetUserClaims(principal.value);
      if caller.None? {
        return Unhandled;
      }
      var (userId, userRole) := caller.value;
      var r := service.GetEmployeeById(id, userId, userRole);
      return EmployeeReply(r, RetrievedMessage);
    }

    /** `GET api/employees`: HR only, at the gate and in the service. */
    method GetAllEmployees(principal: Option<seq<Claim>>) returns (result: ActionResult)
      requires service.Valid()
      ensures Authorize(principal, Some(HrRole)).Some? ==> result == Authorize(principal, Some(HrRole)).value
      ensures Authorize(principal, Some(HrRole)).None? && GetUserClaims(principal.value).None? ==> result == Unhandled
      ensures (Authorize(principal, Some(HrRole)).None? && GetUserClaims(principal.value).Some?
               && RoleOrDefault(principal.value) != HrRole) ==> result == ErrorResult(Denied)
      ensures (Authorize(principal, Some(HrRole)).None? && GetUserClaims(principal.value).Some?
               && RoleOrDefault(principal.value) == HrRole) ==> result.Respond? && result.body.EmployeeListBody?
      ensures result.Respond? && result.body.EmployeeListBody? ==>
                && result.status == OK && result.body.employees.data.Some?
                && Enumerates(result.body.employees.data.value, service.employees, service.roles, None)
                && result.body.employees.message
                   == IntToString(|result.body.employees.data.value|) + " employees retrieved successfully"
    {
      var gate := Authorize(principal, RequiredRole("GetAllEmployees"));
      if gate.Some? {
        return gate.value;
      }
      var caller := GetUserClaims(principal.value);
      if caller.None? {
        return Unhandled;
      }
      var r := service.GetAllEmployees(caller.value.1);
      match r {
        case Failure(e) =>
          return ErrorResult(e);
        case Success(dtos) =>
          var message := IntToString(|dtos|) + " employees retrieved successfully";
          return Respond(OK, EmployeeListBody(SuccessResponse(dtos, Some(message))));
      }
    }

    /** `POST api/employees`: HR only. An invalid body is answered with 400
        before the caller's claims are read or the service is called. */
    method CreateEmployee(principal: Option<seq<Claim>>, dto: CreateEmployeeDto, hashPassword: string -> string,
                          passwordWriteFault: Option<string>)
      returns (result: ActionResult)
      requires service.Valid()
      modifies service
      ensures service.Valid()
      ensures Authorize(principal, Some(HrRole)).Some? ==>
                result == Authorize(principal, Some(HrRole)).value && unchanged(service)
      ensures Authorize(principal, Some(HrRole)).None? && ValidateCreate(dto, formats) != map[] ==>
                result == Respond(BadRequestStatus, ErrorBody(Envelopes.ValidationError(ValidateCreate(dto, formats)))) && unchanged(service)
      ensures Authorize(principal, Some(HrRole)).None? && ValidateCreate(dto, formats) == map[] && GetUserClaims(principal.value).None? ==>
                result == Unhandled && unchanged(service)
      ensures (Authorize(principal, Some(HrRole)).None? && ValidateCreate(dto, formats) == map[]
               && GetUserClaims(principal.value).Some? && RoleOrDefault(principal.value) != HrRole) ==>
                && result == ErrorResult(Denied) && service.employees == old(service.employees)
                && service.passwords == old(service.passwords) && service.nextId == old(service.nextId)
      ensures (Authorize(principal, Some(HrRole)).None? && ValidateCreate(dto, formats) == map[]
               && GetUserClaims(principal.value).Some? && RoleOrDefault(principal.value) == HrRole) ==>
                && (EmailExists(old(service.employees), dto.email) ==>
                      result == ErrorResult(FromErrorCode(ErrorCode.Employee(UserAlreadyExists))))
                && (!EmailExists(old(service.employees), dto.email) && FindRole(service.roles, dto.roleId).None? ==>
                      result == ErrorResult(InvalidRoleError))
                && (!EmailExists(old(service.employees), dto.email) && FindRole(service.roles, dto.roleId).Some?
                    && old(service.nextId) > MaxInt32 ==>
                      && result == ErrorResult(FromErrorCode(Common(InternalServerError), Some(IdentityOverflowMessage)))
                      && service.employees == old(service.employees) && service.passwords == old(service.passwords)
                      && service.nextId == old(service.nextId))
                && (!EmailExists(old(service.employees), dto.email) && FindRole(service.roles, dto.roleId).Some?
                    && old(service.nextId) <= MaxInt32 && passwordWriteFault.Some? ==>
                      result == ErrorResult(FromErrorCode(Common(InternalServerError), passwordWriteFault)))
                && (!EmailExists(old(service.employees), dto.email) && FindRole(service.roles, dto.roleId).Some?
                    && old(service.nextId) <= MaxInt32 && passwordWriteFault.None? ==>
                      result.CreatedAt?)
      ensures result.CreatedAt? ==>
                && result.actionName == GetEmployeeAction && result.routeId == old(service.nextId)
                && service.employees == old(service.employees)[result.routeId := NewEmployeeRow(dto)]
                && service.passwords == old(service.passwords)[result.routeId := PasswordRecord(hashPassword(dto.password), None)]
                && service.nextId == old(service.nextId) + 1
                && result.body == EmployeeBody(SuccessResponse(EmployeeDtoOf(service.employees, service.roles, result.routeId),
                                                               Some(CreatedMessage), Created))
      ensures result.Respond? && result.body.ErrorBody? ==> result.status == result.body.error.statusCode
      ensures (result.Respond? && result.body.ErrorBody?
               && result.body.error != FromErrorCode(Common(InternalServerError), passwordWriteFault)) ==>
                && service.employees == old(service.employees) && service.passwords == old(service.passwords)
                && service.nextId == old(service.nextId)
    {
      var gate := Authorize(principal, RequiredRole("CreateEmployee"));
      if gate.Some? {
        return gate.value;
      }
      var validationErrors := ValidateCreate(dto, formats);
      if validationErrors != map[] {
        return Respond(BadRequestStatus, ErrorBody(Envelopes.ValidationError(validationErrors)));
      }
      var caller := GetUserClaims(principal.value);
      if caller.None? {
        return Unhandled;
      }
      var r := service.Create(dto, caller.value.1, hashPassword, passwordWriteFault);
      return CreatedReply(r);
    }

    /** `PUT api/employees/{id}`: any authenticated caller; the service
        applies the ownership rule. */
    method UpdateEmployee(principal: Option<seq<Claim>>, id: Int32, dto: UpdateEmployeeDto, rowsAffected: bool)
      returns (result: ActionResult)
      requires service.Valid()
      modifies service
      ensures service.Valid()
      ensures principal.None? ==> result == Challenge && unchanged(service)
      ensures principal.Some? && ValidateUpdate(dto, formats) != map[] ==>
                result == Respond(BadRequestStatus, ErrorBody(Envelopes.ValidationError(ValidateUpdate(dto, formats)))) && unchanged(service)
      ensures principal.Some? && ValidateUpdate(dto, formats) == map[] && GetUserClaims(principal.value).None? ==>
                result == Unhandled && unchanged(service)
      ensures result.Respond? && result.body.EmployeeBody? ==>
                && result.status == OK && principal.Some? && GetUserClaims(principal.value).Some?
                && var (userId, userRole) := GetUserClaims(principal.value).value;
                   && MayAccess(userRole, userId, id) && id in old(service.employees)
                   && service.employees == old(service.employees)[id := ApplyUpdate(old(service.employees)[id], dto, userRole == HrRole)]
                   && result.body.employee.data == Some(EmployeeDtoOf(service.employees, service.roles, id))
                   && result.body.employee.message == UpdatedMessage
      ensures principal.Some? && ValidateUpdate(dto, formats) == map[] && GetUserClaims(principal.value).Some? ==>
                var (userId, userRole) := GetUserClaims(principal.value).value;
                && (!MayAccess(userRole, userId, id) ==> result == ErrorResult(Denied))
                && (MayAccess(userRole, userId, id) && id !in old(service.employees) ==> result == ErrorResult(NotFoundError))
                && (MayAccess(userRole, userId, id) && id in old(service.employees) && service.RoleRejected(dto, userRole) ==>
                      result == ErrorResult(InvalidRoleError))
                && (MayAccess(userRole, userId, id) && id in old(service.employees) && !service.RoleRejected(dto, userRole) ==>
                      (rowsAffected <==> result.Respond? && result.body.EmployeeBody?))
                && (MayAccess(userRole, userId, id) && id in old(service.employees) && !service.RoleRejected(dto, userRole)
                    && !rowsAffected ==>
                      result == ErrorResult(FromErrorCode(Common(DatabaseError))))
      ensures result.Respond? && result.body.ErrorBody? ==> result.status == result.body.error.statusCode
      ensures result.Respond? && result.body.ErrorBody? ==> service.employees == old(service.employees)
      ensures service.passwords == old(service.passwords) && service.nextId == old(service.nextId)
    {
      var gate := Authorize(principal, RequiredRole("UpdateEmployee"));
      if gate.Some? {
        return gate.value;
      }
      var validationErrors := ValidateUpdate(dto, formats);
      if validationErrors != map[] {
        return Respond(BadRequestStatus, ErrorBody(Envelopes.ValidationError(validationErrors)));
      }
      var caller := GetUserClaims(principal.value);
      if caller.None? {
        return Unhandled;
      }
      var (userId, userRole) := caller.value;
      var r := service.Update(id, dto, userId, userRole, rowsAffected);
      return EmployeeReply(r, UpdatedMessage);
    }

    /** `DELETE api/employees/{id}`: HR only. */
    method DeleteEmployee(principal: Option<seq<Claim>>, id: Int32, rowsAffected: bool) returns (result: ActionResult)
      requires service.Valid()
      modifies service
      ensures service.Valid()
      ensures Authorize(principal, Some(HrRole)).Some? ==>
                result == Authorize(principal, Some(HrRole)).value && unchanged(service)
      ensures Authorize(principal, Some(HrRole)).None? && GetUserClaims(principal.value).None? ==>
                result == Unhandled && unchanged(service)
      ensures (Authorize(principal, Some(HrRole)).None? && GetUserClaims(principal.value).Some?
               && RoleOrDefault(principal.value) != HrRole) ==>
                result == ErrorResult(Denied)
      ensures (Authorize(principal, Some(HrRole)).None? && GetUserClaims(principal.value).Some?
               && RoleOrDefault(principal.value) == HrRole) ==>
                && (id !in old(service.employees) ==> result == ErrorResult(NotFoundError))
                && (id in old(service.employees) && !rowsAffected ==> result == ErrorResult(FromErrorCode(Common(DatabaseError))))
                && (id in old(service.employees) && rowsAffected ==> result == DeletedReply(true, None, id))
      ensures result.Respond? && result.body.ErrorBody? ==>
                service.employees == old(service.employees) && service.passwords == old(service.passwords)
      ensures service.nextId == old(service.nextId)
      ensures result.Respond? && result.body.TextBody? ==>
                result.status == OK && service.employees == old(service.employees) - {id} && service.passwords == old(service.passwords) - {id}
      ensures result.Respond? && result.body.ErrorBody? ==> result.status == result.body.error.statusCode
    {
      var gate := Authorize(principal, RequiredRole("DeleteEmployee"));
      if gate.Some? {
        return gate.value;
      }
      var caller := GetUserClaims(principal.value);
      if caller.None? {
        return Unhandled;
      }
      var success, error := service.Delete(id, caller.value.1, rowsAffected);
      return DeletedReply(success, error, id);
    }
  }

  /** `[Authorize(Roles = "HR")]` stands on exactly the actions whose service
      operation is HR only; reading and updating one employee need only
      authentication. */
  lemma AttributesMatchService()
    ensures forall a :: RequiredRole(a).Some? <==> a in {"GetAllEmployees", "CreateEmployee", "DeleteEmployee"}
    ensures RequiredRole("GetEmployee").None? && RequiredRole("UpdateEmployee").None?
    ensures forall a :: RequiredRole(a).Some? ==> RequiredRole(a).value == HrRole
  {
  }

  /** The HR-only handler and the service's inline check agree on the role
      the controller hands the service. */
  lemma HrOnlyHandlerAgreesWithService(claims: seq<Claim>)
    ensures AuthorizationHandlers.HandleHrOnly(AuthorizationHandlers.Fresh, claims).requirementMet
            <==> RoleOrDefault(claims) == HrRole
  {
  }

  /** When the same-user handler succeeds for the route of employee `id`,
      the service's ownership rule lets the same caller through. */
  lemma SameUserHandlerImpliesOwnership(claims: seq<Claim>, id: Int32)
    requires AuthorizationHandlers.HandleSameUser(AuthorizationHandlers.Fresh, claims,
                                                  Some(map["id" := IntToString(id)])).requirementMet
    requires GetUserClaims(claims).Some?
    ensures MayAccess(GetUserClaims(claims).value.1, GetUserClaims(claims).value.0, id)
  {
    if RoleOrDefault(claims) != HrRole {
      assert FindFirst(claims, NameIdentifierType) == Some(IntToString(id));
      ParseIntToString(id);
    }
  }

  /** The converse fails: the handler compares texts while the service
      compares numbers, so a caller whose id claim is "05" owns employee 5
      for the service but not for the handler. */
  lemma OwnershipTextVersusNumber()
    ensures var claims := [Claim(NameIdentifierType, "05")];
            && GetUserClaims(claims) == Some((5, DefaultRole))
            && MayAccess(DefaultRole, 5, 5)
            && !AuthorizationHandlers.HandleSameUser(AuthorizationHandlers.Fresh, claims, Some(map["id" := IntToString(5)])).requirementMet
  {
    var claims := [Claim(NameIdentifierType, "05")];
    LeadingZeroParsesAlike();
    EqualsIgnoreCaseProperties(NameIdentifierType, NameIdentifierType, NameIdentifierType);
    FirstMatchHead(claims[0], [], NameIdentifierType, true);
    assert claims == [claims[0]] + [];
    ParseIntToString(5);
    assert IntToString(5) == "5";
  }
}
