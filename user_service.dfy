/** The employee directory service. The three repositories are the state of a
    `UserService` object: the employee store (id to row), the role store (an
    ordered list that no operation changes) and the password store (user id
    to record), plus the store's identity counter. What a repository answers
    that the shown code does not determine is a parameter of the operation:
    the per-role counts of GetEmployeeCountByRoleAsync, whether UpdateAsync or
    DeleteAsync found a row to change, the password hasher and a failure of
    the password write. */
module UserServices {
  import opened Wrappers
  import opened Text
  import opened ErrorCodes
  import opened Envelopes
  import opened Entities
  import opened EmployeeDtos

  const HrRole: string := "HR"
  const UnknownRoleName: string := "Unknown"
  const InvalidRoleDetails: string := "Invalid role specified"
  /** The message of the error the database raises when the identity column
      runs past the largest 32-bit value. */
  const IdentityOverflowMessage: string := "Arithmetic overflow error converting IDENTITY to data type int."

  const Denied: ErrorResponse := FromErrorCode(Auth(InsufficientPermissions))
  const NotFoundError: ErrorResponse := FromErrorCode(ErrorCode.Employee(UserNotFound))
  const InvalidRoleError: ErrorResponse := FromErrorCode(ErrorCode.Employee(InvalidEmployeeData), Some(InvalidRoleDetails))

  /** `MapToDto`. */
  function MapToDto(e: Employee): EmployeeDto {
    EmployeeDto(e.id, e.email, e.name, e.address, e.cellNumber, e.roleId, e.roleName.GetOr(UnknownRoleName), e.isActive)
  }

  /** The DTO of stored employee `id`. */
  function EmployeeDtoOf(employees: map<Int32, EmployeeRow>, roles: seq<Role>, id: Int32): (d: EmployeeDto)
    requires id in employees
    ensures d.id == id
    ensures var row := employees[id];
            && d.email == row.email && d.name == row.name && d.address == row.address
            && d.cellNumber == row.cellNumber && d.roleId == row.roleId && d.isActive == row.isActive
    ensures FindRole(roles, employees[id].roleId).Some? ==> d.roleName == FindRole(roles, employees[id].roleId).value.roleName
    ensures FindRole(roles, employees[id].roleId).None? ==> d.roleName == UnknownRoleName
  {
    MapToDto(JoinEmployee(employees, roles, id))
  }

  /** The DTO keeps every field of the employee it was made from, except that
      an employee without a role name and one whose role is named "Unknown"
      give the same DTO. */
  lemma MapToDtoInjective(a: Employee, b: Employee)
    requires MapToDto(a) == MapToDto(b)
    ensures a == b || {a.roleName, b.roleName} == {None, Some(UnknownRoleName)}
    ensures a.roleName.Some? && b.roleName.Some? ==> a == b
  {
  }

  /** The ownership rule: HR, or the caller's own record. The role is
      compared with "HR" exactly. */
  predicate MayAccess(requestingUserRole: string, requestingUserId: Int32, employeeId: Int32) {
    requestingUserRole == HrRole || requestingUserId == employeeId
  }

  /** The row CreateEmployeeAsync writes for `dto`. */
  function NewEmployeeRow(dto: CreateEmployeeDto): EmployeeRow {
    EmployeeRow(dto.email, dto.name, dto.address, dto.cellNumber, dto.roleId, true)
  }

  /** The partial-update rules, field by field: the email never changes; a
      supplied name that is not blank replaces the name, any other leaves it;
      a supplied address or cell number replaces the old one, the empty
      string included; a supplied role id and active flag replace the old
      ones when the caller is HR and are ignored otherwise. */
  predicate UpdateRules(row: EmployeeRow, dto: UpdateEmployeeDto, isHr: bool, r: EmployeeRow) {
    && r.email == row.email
    && (!IsNullOrWhiteSpace(dto.name) ==> r.name == dto.name.value)
    && (IsNullOrWhiteSpace(dto.name) ==> r.name == row.name)
    && (dto.address.Some? ==> r.address == dto.address) && (dto.address.None? ==> r.address == row.address)
    && (dto.cellNumber.Some? ==> r.cellNumber == dto.cellNumber) && (dto.cellNumber.None? ==> r.cellNumber == row.cellNumber)
    && (isHr && dto.roleId.Some? ==> r.roleId == dto.roleId.value)
    && (!isHr || dto.roleId.None? ==> r.roleId == row.roleId)
    && (isHr && dto.isActive.Some? ==> r.isActive == dto.isActive.value)
    && (!isHr || dto.isActive.None? ==> r.isActive == row.isActive)
  }

  /** The edits UpdateEmployeeAsync makes to a fetched employee, for a caller
      who is HR (`isHr`) or not. */
  function ApplyUpdate(row: EmployeeRow, dto: UpdateEmployeeDto, isHr: bool): (r: EmployeeRow)
    ensures UpdateRules(row, dto, isHr, r)
  {
    row.(name := if IsNullOrWhiteSpace(dto.name) then row.name else dto.name.value,
         address := if dto.address.Some? then dto.address else row.address,
         cellNumber := if dto.cellNumber.Some? then dto.cellNumber else row.cellNumber,
         roleId := if isHr && dto.roleId.Some? then dto.roleId.value else row.roleId,
         isActive := if isHr && dto.isActive.Some? then dto.isActive.value else row.isActive)
  }

  /** The rules leave no freedom: a row that follows them is the row
      ApplyUpdate computes. */
  lemma UpdateEditRules(row: EmployeeRow, dto: UpdateEmployeeDto, isHr: bool, r: EmployeeRow)
    requires UpdateRules(row, dto, isHr, r)
    ensures r == ApplyUpdate(row, dto, isHr)
  {
  }

  /** Applying the same update twice is applying it once, and an empty update
      changes nothing. */
  lemma ApplyUpdateIdempotent(row: EmployeeRow, dto: UpdateEmployeeDto, isHr: bool)
    ensures ApplyUpdate(ApplyUpdate(row, dto, isHr), dto, isHr) == ApplyUpdate(row, dto, isHr)
    ensures ApplyUpdate(row, EmptyUpdate, isHr) == row
  {
  }

  /** A caller who is not HR gets the same row whatever role and active flag
      the body asks for. */
  lemma NonHrCannotEscalate(row: EmployeeRow, dto: UpdateEmployeeDto, roleId: Option<Int32>, isActive: Option<bool>)
    ensures ApplyUpdate(row, dto, false) == ApplyUpdate(row, dto.(roleId := roleId, isActive := isActive), false)
    ensures ApplyUpdate(row, dto, false).roleId == row.roleId && ApplyUpdate(row, dto, false).isActive == row.isActive
  {
  }

  /** A name of two spaces passes the update body's validation, yet the
      service keeps the old name. */
  lemma BlankNameValidButIgnored(row: EmployeeRow, isHr: bool, formats: FormatChecks)
    ensures ValidateUpdate(EmptyUpdate.(name := Some("  ")), formats) == map[]
    ensures ApplyUpdate(row, EmptyUpdate.(name := Some("  ")), isHr) == row
  {
    assert AllWhiteSpace("  ") by {
      assert IsWhiteSpace("  "[0]) && IsWhiteSpace("  "[1]);
    }
  }

  /** The role-count report entry of one role: the count for its id, or 0. */
  function RoleCountOf(role: Role, employeeCounts: map<Int32, Int32>): RoleCountDto {
    RoleCountDto(role.id, role.roleName, if role.id in employeeCounts then employeeCounts[role.id] else 0)
  }

  /** The role-count report: one entry per role, in the role store's order,
      zero-filled for roles the count map does not mention. */
  function RoleCounts(roles: seq<Role>, employeeCounts: map<Int32, Int32>): (r: seq<RoleCountDto>)
    ensures |r| == |roles|
    ensures forall i :: 0 <= i < |r| ==> r[i].roleId == roles[i].id && r[i].roleName == roles[i].roleName
    ensures forall i :: 0 <= i < |r| && roles[i].id in employeeCounts ==> r[i].employeeCount == employeeCounts[roles[i].id]
    ensures forall i :: 0 <= i < |r| && roles[i].id !in employeeCounts ==> r[i].employeeCount == 0
  {
    if roles == [] then [] else [RoleCountOf(roles[0], employeeCounts)] + RoleCounts(roles[1..], employeeCounts)
  }

  /** A row belongs to a listing filtered by `roleFilter` (None: all rows). */
  predicate InFilter(row: EmployeeRow, roleFilter: Option<Int32>) {
    roleFilter.None? || row.roleId == roleFilter.value
  }

  /** `dtos` lists, once each and in some order, the DTOs of the stored
      employees that pass the filter. */
  ghost predicate Enumerates(dtos: seq<EmployeeDto>, employees: map<Int32, EmployeeRow>, roles: seq<Role>, roleFilter: Option<Int32>) {
    && (forall i :: 0 <= i < |dtos| ==>
          dtos[i].id in employees && InFilter(employees[dtos[i].id], roleFilter)
          && dtos[i] == EmployeeDtoOf(employees, roles, dtos[i].id))
    && (forall i, j :: 0 <= i < j < |dtos| ==> dtos[i].id != dtos[j].id)
    && (forall id :: id in employees && InFilter(employees[id], roleFilter) ==>
          exists i :: 0 <= i < |dtos| && dtos[i].id == id)
  }

  /** Ids are below the identity counter, every password record belongs to
      an employee, emails are unique and every employee's role exists. */
  ghost predicate StoreInvariant(employees: map<Int32, EmployeeRow>, roles: seq<Role>,
                                 passwords: map<Int32, PasswordRecord>, nextId: int) {
    && 1 <= nextId <= MaxInt32 + 1
    && (forall id :: id in employees ==> 1 <= id < nextId)
    && passwords.Keys <= employees.Keys
    && UniqueEmails(employees)
    && RolesResolve(employees, roles)
  }

  /** Every employee's role id names a role, so the repository's joined
      reads return every row. */
  ghost predicate RolesResolve(employees: map<Int32, EmployeeRow>, roles: seq<Role>) {
    forall id {:trigger FindRole(roles, employees[id].roleId)} :: id in employees ==> FindRole(roles, employees[id].roleId).Some?
  }

  /** Replacing a row by one with the same email and an existing role keeps
      the invariant. */
  lemma ReplaceRowKeepsInvariant(employees: map<Int32, EmployeeRow>, roles: seq<Role>,
                                 passwords: map<Int32, PasswordRecord>, nextId: int, id: Int32, row: EmployeeRow)
    requires StoreInvariant(employees, roles, passwords, nextId)
    requires id in employees && row.email == employees[id].email && FindRole(roles, row.roleId).Some?
    ensures StoreInvariant(employees[id := row], roles, passwords, nextId)
  {
    var updated := employees[id := row];
    forall a, b | a in updated && b in updated && updated[a].email == updated[b].email
      ensures a == b
    {
      assert employees[a].email == updated[a].email && employees[b].email == updated[b].email;
    }
  }

  class UserService {
    var employees: map<Int32, EmployeeRow>
    const roles: seq<Role>
    var passwords: map<Int32, PasswordRecord>
    /** The identity the next inserted employee receives. */
    var nextId: int

    /** Ids are below the identity counter, every password record belongs to
        an employee, emails are unique and every employee's role exists. */
    ghost predicate Valid()
      reads this
    {
      StoreInvariant(employees, roles, passwords, nextId)
    }

    /** Empty employee and password stores over a fixed role list. */
    constructor(roles: seq<Role>)
      ensures Valid()
      ensures this.roles == roles && employees == map[] && passwords == map[] && nextId == 1
    {
      this.roles := roles;
      employees := map[];
      passwords := map[];
      nextId := 1;
    }

    /** `GetEmployeeByIdAsync`: the ownership check comes before the lookup. */
    function GetEmployeeById(employeeId: Int32, requestingUserId: Int32, requestingUserRole: string)
      : (r: Result<EmployeeDto, ErrorResponse>)
      reads this
      requires Valid()
      ensures !MayAccess(requestingUserRole, requestingUserId, employeeId) ==> r == Failure(Denied)
      ensures MayAccess(requestingUserRole, requestingUserId, employeeId) && employeeId !in employees ==>
                r == Failure(NotFoundError)
      ensures r.Success? <==> MayAccess(requestingUserRole, requestingUserId, employeeId) && employeeId in employees
      ensures r.Success? ==> r.value.id == employeeId && r.value.email == employees[employeeId].email
      ensures r.Success? ==> r.value == EmployeeDtoOf(employees, roles, employeeId)
    {
      if !MayAccess(requestingUserRole, requestingUserId, employeeId) then Failure(Denied)
      else if employeeId !in employees then Failure(NotFoundError)
      else Success(EmployeeDtoOf(employees, roles, employeeId))
    }

    /** The repository listing (`GetAllAsync`, or `GetByRoleIdAsync` when a
        role is given) projected through MapToDto, in an unspecified order. */
    method SelectEmployees(roleFilter: Option<Int32>) returns (dtos: seq<EmployeeDto>)
      requires RolesResolve(employees, roles)
      ensures Enumerates(dtos, employees, roles, roleFilter)
    {
      dtos := [];
      var remaining := employees.Keys;
      while remaining != {}
        invariant remaining <= employees.Keys
        invariant forall i :: 0 <= i < |dtos| ==>
                    dtos[i].id in employees && dtos[i].id !in remaining && InFilter(employees[dtos[i].id], roleFilter)
                    && dtos[i] == EmployeeDtoOf(employees, roles, dtos[i].id)
        invariant forall i, j :: 0 <= i < j < |dtos| ==> dtos[i].id != dtos[j].id
        invariant forall id :: id in employees && id !in remaining && InFilter(employees[id], roleFilter) ==>
                    exists i :: 0 <= i < |dtos| && dtos[i].id == id
        decreases |remaining|
      {
        var id :| id in remaining;
        ghost var listed := dtos;
        if InFilter(employees[id], roleFilter) {
          dtos := dtos + [EmployeeDtoOf(employees, roles, id)];
        }
        remaining := remaining - {id};
        forall x | x in employees && x !in remaining && InFilter(employees[x], roleFilter)
          ensures exists i :: 0 <= i < |dtos| && dtos[i].id == x
        {
          if x == id {
            assert dtos[|dtos| - 1].id == x;
          } else {
            var i :| 0 <= i < |listed| && listed[i].id == x;
            assert dtos[i] == listed[i];
          }
        }
      }
    }

    /** `GetAllEmployeesAsync`: HR only; every employee once. */
    method GetAllEmployees(requestingUserRole: string) returns (r: Result<seq<EmployeeDto>, ErrorResponse>)
      requires Valid()
      ensures requestingUserRole != HrRole ==> r == Failure(Denied)
      ensures requestingUserRole == HrRole ==> r.Success? && Enumerates(r.value, employees, roles, None)
    {
      if requestingUserRole != HrRole {
        return Failure(Denied);
      }
      var dtos := SelectEmployees(None);
      return Success(dtos);
    }

    /** `CreateEmployeeAsync`. The employee row and the password record are
        two separate writes: when the second fails (`passwordWriteFault`
        carries the exception's message) the first stays. */
    method Create(dto: CreateEmployeeDto, requestingUserRole: string, hashPassword: string -> string,
                  passwordWriteFault: Option<string>)
      returns (r: Result<EmployeeDto, ErrorResponse>)
      requires Valid()
      modifies this
      ensures Valid()
      ensures r.Success? <==>
                && requestingUserRole == HrRole && !EmailExists(old(employees), dto.email)
                && FindRole(roles, dto.roleId).Some? && old(nextId) <= MaxInt32 && passwordWriteFault.None?
      ensures requestingUserRole != HrRole ==>
                r == Failure(Denied) && employees == old(employees) && passwords == old(passwords) && nextId == old(nextId)
      ensures requestingUserRole == HrRole && EmailExists(old(employees), dto.email) ==>
                && r == Failure(FromErrorCode(ErrorCode.Employee(UserAlreadyExists)))
                && employees == old(employees) && passwords == old(passwords) && nextId == old(nextId)
      ensures requestingUserRole == HrRole && !EmailExists(old(employees), dto.email) && FindRole(roles, dto.roleId).None? ==>
                && r == Failure(InvalidRoleError)
                && employees == old(employees) && passwords == old(passwords) && nextId == old(nextId)
      ensures requestingUserRole == HrRole && !EmailExists(old(employees), dto.email) && FindRole(roles, dto.roleId).Some?
              && old(nextId) > MaxInt32 ==>
                && r == Failure(FromErrorCode(Common(InternalServerError), Some(IdentityOverflowMessage)))
                && employees == old(employees) && passwords == old(passwords) && nextId == old(nextId)
      ensures r.Failure? && r != Failure(FromErrorCode(Common(InternalServerError), passwordWriteFault)) ==>
                employees == old(employees) && passwords == old(passwords) && nextId == old(nextId)
      ensures r.Success? ==>
                && r.value.id == old(nextId)
                && employees == old(employees)[r.value.id := NewEmployeeRow(dto)]
                && passwords == old(passwords)[r.value.id := PasswordRecord(hashPassword(dto.password), None)]
                && nextId == old(nextId) + 1
                && r.value == EmployeeDtoOf(employees, roles, r.value.id)
      ensures passwordWriteFault.Some? && requestingUserRole == HrRole && !EmailExists(old(employees), dto.email)
              && FindRole(roles, dto.roleId).Some? && old(nextId) <= MaxInt32 ==>
                && r == Failure(FromErrorCode(Common(InternalServerError), passwordWriteFault))
                && employees == old(employees)[old(nextId) as Int32 := NewEmployeeRow(dto)]
                && passwords == old(passwords) && nextId == old(nextId) + 1
    {
      if requestingUserRole != HrRole {
        return Failure(Denied);
      }
      if EmailExists(employees, dto.email) {
        return Failure(FromErrorCode(ErrorCode.Employee(UserAlreadyExists)));
      }
      var role := FindRole(roles, dto.roleId);
      if role.None? {
        return Failure(InvalidRoleError);
      }
      if nextId > MaxInt32 {
        return Failure(FromErrorCode(Common(InternalServerError), Some(IdentityOverflowMessage)));
      }
      var id: Int32 := nextId as Int32;
      employees := employees[id := NewEmployeeRow(dto)];
      nextId := nextId + 1;
      var passwordHash := hashPassword(dto.password);
      if passwordWriteFault.Some? {
        return Failure(FromErrorCode(Common(InternalServerError), passwordWriteFault));
      }
      passwords := passwords[id := PasswordRecord(passwordHash, None)];
      return Success(EmployeeDtoOf(employees, roles, id));
    }

    /** `UpdateEmployeeAsync`: the fetched employee is edited field by field
        and then persisted once. `rowsAffected` is UpdateAsync's answer. */
    method Update(employeeId: Int32, dto: UpdateEmployeeDto, requestingUserId: Int32, requestingUserRole: string,
                  rowsAffected: bool)
      returns (r: Result<EmployeeDto, ErrorResponse>)
      requires Valid()
      modifies this
      ensures Valid()
      ensures passwords == old(passwords) && nextId == old(nextId)
      ensures !MayAccess(requestingUserRole, requestingUserId, employeeId) ==> r == Failure(Denied)
      ensures MayAccess(requestingUserRole, requestingUserId, employeeId) && employeeId !in old(employees) ==>
                r == Failure(NotFoundError)
      ensures MayAccess(requestingUserRole, requestingUserId, employeeId) && employeeId in old(employees)
              && RoleRejected(dto, requestingUserRole) ==>
                r == Failure(InvalidRoleError)
      ensures MayAccess(requestingUserRole, requestingUserId, employeeId) && employeeId in old(employees)
              && !RoleRejected(dto, requestingUserRole) && !rowsAffected ==>
                r == Failure(FromErrorCode(Common(DatabaseError)))
      ensures r.Success? <==>
                MayAccess(requestingUserRole, requestingUserId, employeeId) && employeeId in old(employees)
                && !RoleRejected(dto, requestingUserRole) && rowsAffected
      ensures r.Failure? ==> employees == old(employees)
      ensures r.Success? ==>
                && employees == old(employees)[employeeId := ApplyUpdate(old(employees)[employeeId], dto, requestingUserRole == HrRole)]
                && r.value == EmployeeDtoOf(employees, roles, employeeId)
    {
      if requestingUserRole != HrRole && requestingUserId != employeeId {
        return Failure(Denied);
      }
      if employeeId !in employees {
        return Failure(NotFoundError);
      }
      var employee := employees[employeeId];
      ghost var fetched := employee;
      if !IsNullOrWhiteSpace(dto.name) {
        employee := employee.(name := dto.name.value);
      }
      if dto.address.Some? {
        employee := employee.(address := dto.address);
      }
      if dto.cellNumber.Some? {
        employee := employee.(cellNumber := dto.cellNumber);
      }
      assert employee == ApplyUpdate(fetched, dto, false);
      if requestingUserRole == HrRole {
        if dto.roleId.Some? {
          var role := FindRole(roles, dto.roleId.value);
          if role.None? {
            return Failure(InvalidRoleError);
          }
          employee := employee.(roleId := dto.roleId.value);
        }
        if dto.isActive.Some? {
          employee := employee.(isActive := dto.isActive.value);
        }
      }
      assert employee == ApplyUpdate(fetched, dto, requestingUserRole == HrRole);
      if !rowsAffected {
        return Failure(FromErrorCode(Common(DatabaseError)));
      }
      ReplaceRowKeepsInvariant(employees, roles, passwords, nextId, employeeId, employee);
      employees := employees[employeeId := employee];
      return Success(EmployeeDtoOf(employees, roles, employeeId));
    }

    /** An HR update that names a role the role store does not hold. */
    predicate RoleRejected(dto: UpdateEmployeeDto, requestingUserRole: string) {
      requestingUserRole == HrRole && dto.roleId.Some? && FindRole(roles, dto.roleId.value).None?
    }

    /** `DeleteEmployeeAsync`: HR only; the employee's password record goes
        with it. `rowsAffected` is DeleteAsync's answer. */
    method Delete(employeeId: Int32, requestingUserRole: string, rowsAffected: bool)
      returns (success: bool, error: Option<ErrorResponse>)
      requires Valid()
      modifies this
      ensures Valid()
      ensures success <==> error.None?
      ensures nextId == old(nextId)
      ensures requestingUserRole != HrRole ==> error == Some(Denied)
      ensures requestingUserRole == HrRole && employeeId !in old(employees) ==> error == Some(NotFoundError)
      ensures requestingUserRole == HrRole && employeeId in old(employees) && !rowsAffected ==>
                error == Some(FromErrorCode(Common(DatabaseError)))
      ensures success <==> requestingUserRole == HrRole && employeeId in old(employees) && rowsAffected
      ensures !success ==> employees == old(employees) && passwords == old(passwords)
      ensures success ==> employees == old(employees) - {employeeId} && passwords == old(passwords) - {employeeId}
    {
      if requestingUserRole != HrRole {
        return false, Some(Denied);
      }
      if employeeId !in employees {
        return false, Some(NotFoundError);
      }
      if !rowsAffected {
        return false, Some(FromErrorCode(Common(DatabaseError)));
      }
      employees := employees - {employeeId};
      passwords := passwords - {employeeId};
      return true, None;
    }

    /** `GetRoleCountsAsync`: HR only; `employeeCounts` is the repository's
        per-role count. */
    function GetRoleCounts(requestingUserRole: string, employeeCounts: map<Int32, Int32>)
      : (r: Result<seq<RoleCountDto>, ErrorResponse>)
      ensures requestingUserRole != HrRole ==> r == Failure(Denied)
      ensures requestingUserRole == HrRole ==> r == Success(RoleCounts(roles, employeeCounts))
    {
      if requestingUserRole != HrRole then Failure(Denied) else Success(RoleCounts(roles, employeeCounts))
    }

    /** `GetEmployeesByRoleAsync`: HR only; one group per role, in the role
        store's order, each listing that role's employees. */
    method GetEmployeesByRole(requestingUserRole: string) returns (r: Result<seq<EmployeesByRoleDto>, ErrorResponse>)
      requires Valid()
      ensures requestingUserRole != HrRole ==> r == Failure(Denied)
      ensures requestingUserRole == HrRole ==>
                && r.Success? && |r.value| == |roles|
                && forall k :: 0 <= k < |roles| ==>
                     && r.value[k].roleId == roles[k].id && r.value[k].roleName == roles[k].roleName
                     && Enumerates(r.value[k].employees, employees, roles, Some(roles[k].id))
    {
      if requestingUserRole != HrRole {
        return Failure(Denied);
      }
      var employeesByRole: seq<EmployeesByRoleDto> := [];
      var i := 0;
      while i < |roles|
        invariant 0 <= i <= |roles| && |employeesByRole| == i
        invariant forall k :: 0 <= k < i ==>
                    && employeesByRole[k].roleId == roles[k].id && employeesByRole[k].roleName == roles[k].roleName
                    && Enumerates(employeesByRole[k].employees, employees, roles, Some(roles[k].id))
      {
        var members := SelectEmployees(Some(roles[i].id));
        employeesByRole := employeesByRole + [EmployeesByRoleDto(roles[i].id, roles[i].roleName, members)];
        i := i + 1;
      }
      return Success(employeesByRole);
    }
  }

  /** In a valid store, every employee shows up in the group of its own role
      in the employees-by-role report. */
  lemma EveryEmployeeGrouped(s: UserService, groups: seq<EmployeesByRoleDto>, id: Int32)
    requires s.Valid() && id in s.employees
    requires |groups| == |s.roles|
    requires forall k :: 0 <= k < |s.roles| ==>
               groups[k].roleId == s.roles[k].id && Enumerates(groups[k].employees, s.employees, s.roles, Some(s.roles[k].id))
    ensures exists k, i :: 0 <= k < |groups| && 0 <= i < |groups[k].employees|
                           && groups[k].roleId == s.employees[id].roleId && groups[k].employees[i].id == id
  {
    var role := FindRole(s.roles, s.employees[id].roleId);
    var k :| 0 <= k < |s.roles| && s.roles[k] == role.value && forall j :: 0 <= j < k ==> s.roles[j].id != role.value.id;
    assert InFilter(s.employees[id], Some(s.roles[k].id));
    var i :| 0 <= i < |groups[k].employees| && groups[k].employees[i].id == id;
  }
}
