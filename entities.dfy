/** The rows of the three stores (employees, roles, password records), the
    employee as the repository returns it (joined with its role's name), and
    the response shapes built from it. Time stamps are left out. */
module Entities {
  import opened Wrappers
  import opened Text

  datatype Role = Role(id: Int32, roleName: string)

  /** A row of the employee store; the id is the key it is stored under. */
  datatype EmployeeRow = EmployeeRow(
    email: string,
    name: string,
    address: Option<string>,
    cellNumber: Option<string>,
    roleId: Int32,
    isActive: bool)

  /** `Employee` as a repository read returns it: the row, its id and the
      name of its role (None when no role has that id). */
  datatype Employee = Employee(
    id: Int32,
    email: string,
    name: string,
    address: Option<string>,
    cellNumber: Option<string>,
    roleId: Int32,
    roleName: Option<string>,
    isActive: bool)

  datatype PasswordRecord = PasswordRecord(passwordHash: string, salt: Option<string>)

  datatype EmployeeDto = EmployeeDto(
    id: Int32,
    email: string,
    name: string,
    address: Option<string>,
    cellNumber: Option<string>,
    roleId: Int32,
    roleName: string,
    isActive: bool)

  datatype RoleCountDto = RoleCountDto(roleId: Int32, roleName: string, employeeCount: Int32)

  datatype EmployeesByRoleDto = EmployeesByRoleDto(roleId: Int32, roleName: string, employees: seq<EmployeeDto>)

  /** The first role of the role store with id `id`. */
  function FindRole(roles: seq<Role>, id: Int32): (r: Option<Role>)
    ensures r.None? <==> forall i :: 0 <= i < |roles| ==> roles[i].id != id
    ensures r.Some? ==> r.value.id == id && exists i :: 0 <= i < |roles| && roles[i] == r.value
                                                         && forall j :: 0 <= j < i ==> roles[j].id != id
  {
    if roles == [] then None
    else if roles[0].id == id then Some(roles[0])
    else
      var r := FindRole(roles[1..], id);
      assert r.Some? ==> exists i :: 1 <= i < |roles| && roles[i] == r.value
                                     && forall j :: 0 <= j < i ==> roles[j].id != id by {
        if r.Some? {
          var k :| 0 <= k < |roles[1..]| && roles[1..][k] == r.value && forall j :: 0 <= j < k ==> roles[1..][j].id != id;
          assert forall j :: 0 <= j < k + 1 ==> roles[j].id != id by {
            forall j | 0 <= j < k + 1 ensures roles[j].id != id {
              if j > 0 { assert roles[j] == roles[1..][j - 1]; }
            }
          }
        }
      }
      r
  }

  /** A repository read of employee `id`: its row joined with its role's name. */
  function JoinEmployee(employees: map<Int32, EmployeeRow>, roles: seq<Role>, id: Int32): (e: Employee)
    requires id in employees
    ensures e.id == id
    ensures var row := employees[id];
            && e.email == row.email && e.name == row.name && e.address == row.address
            && e.cellNumber == row.cellNumber && e.roleId == row.roleId && e.isActive == row.isActive
    ensures e.roleName.Some? <==> FindRole(roles, employees[id].roleId).Some?
    ensures e.roleName.Some? ==> e.roleName.value == FindRole(roles, employees[id].roleId).value.roleName
  {
    var row := employees[id];
    var roleName := match FindRole(roles, row.roleId)
      case Some(role) => Some(role.roleName)
      case None => None;
    Employee(id, row.email, row.name, row.address, row.cellNumber, row.roleId, roleName, row.isActive)
  }

  /** No two employees share an email address. */
  ghost predicate UniqueEmails(employees: map<Int32, EmployeeRow>) {
    forall a, b :: a in employees && b in employees && employees[a].email == employees[b].email ==> a == b
  }

  /** `EmailExistsAsync`: some employee has exactly this email. */
  predicate EmailExists(employees: map<Int32, EmployeeRow>, email: string) {
    exists id :: id in employees && employees[id].email == email
  }
}
