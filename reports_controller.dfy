/** The HR reports: role counts, employees grouped by role and a summary whose
    total is the checked 32-bit sum of the role counts. */
module ReportsControllers {
  import opened Wrappers
  import opened Text
  import opened ErrorCodes
  import opened Envelopes
  import opened Claims
  import opened Entities
  import opened UserServices
  import opened ActionResults

  const RoleCountsMessage: string := "Role counts retrieved successfully"
  const EmployeesByRoleMessage: string := "Employees by role retrieved successfully"
  const SummaryMessage: string := "Summary statistics retrieved successfully"

  /** The mathematical total of the counts. */
  function Total(counts: seq<RoleCountDto>): int {
    if counts == [] then 0 else Total(counts[..|counts| - 1]) + counts[|counts| - 1].employeeCount
  }

  /** `Enumerable.Sum` over 32-bit integers: adds from the left in a checked
      context, so None (an OverflowException) as soon as a partial sum leaves
      the 32-bit range. */
  function CheckedSum(counts: seq<RoleCountDto>): (r: Option<Int32>)
    ensures r.Some? ==> r.value as int == Total(counts)
  {
    if counts == [] then Some(0)
    else
      match CheckedSum(counts[..|counts| - 1])
      case None => None
      case Some(partial) =>
        var next := partial as int + counts[|counts| - 1].employeeCount as int;
        if InInt32(next) then Some(next as Int32) else None
  }

  predicate NonNegativeCounts(counts: seq<RoleCountDto>) {
    forall i :: 0 <= i < |counts| ==> counts[i].employeeCount >= 0
  }

  /** With counts that are never negative, as counts of rows are, the sum
      throws exactly when the total exceeds `int.MaxValue`. */
  lemma {:induction false} CheckedSumOverflowsExactly(counts: seq<RoleCountDto>)
    requires NonNegativeCounts(counts)
    ensures Total(counts) >= 0
    ensures CheckedSum(counts).Some? <==> Total(counts) <= MaxInt32
  {
    if counts != [] {
      var front := counts[..|counts| - 1];
      assert NonNegativeCounts(front) by {
        forall i | 0 <= i < |front| ensures front[i].employeeCount >= 0 {
          assert front[i] == counts[i];
        }
      }
      CheckedSumOverflowsExactly(front);
      assert counts[|counts| - 1].employeeCount >= 0;
    }
  }

  /** The check applies to every partial sum and not only to the total: with
      a negative count among them, a sum whose total fits can still throw. */
  lemma PartialSumOverflows()
    ensures var counts := [RoleCountDto(1, "HR", MaxInt32 as Int32), RoleCountDto(2, "Employee", 1),
                           RoleCountDto(3, "Manager", -1)];
            Total(counts) == MaxInt32 && CheckedSum(counts).None?
  {
    var counts := [RoleCountDto(1, "HR", MaxInt32 as Int32), RoleCountDto(2, "Employee", 1),
                   RoleCountDto(3, "Manager", -1)];
    assert counts[..2][..1] == counts[..1];
    assert counts[..1][..0] == [];
    assert CheckedSum(counts[..1]) == Some(MaxInt32 as Int32);
    assert CheckedSum(counts[..2]).None?;
  }

  class ReportsController {
    const service: UserService

    constructor(service: UserService)
      ensures this.service == service
    {
      this.service := service;
    }

    /** `GET api/reports/role-counts`: the class demands the role HR. */
    method GetRoleCounts(principal: Option<seq<Claim>>, employeeCounts: map<Int32, Int32>) returns (result: ActionResult)
      ensures Authorize(principal, Some(HrRole)).Some? ==> result == Authorize(principal, Some(HrRole)).value
      ensures Authorize(principal, Some(HrRole)).None? && RoleOrDefault(principal.value) != HrRole ==>
                result == ErrorResult(Denied)
      ensures Authorize(principal, Some(HrRole)).None? && RoleOrDefault(principal.value) == HrRole ==>
                result == Respond(OK, RoleCountsBody(SuccessResponse(RoleCounts(service.roles, employeeCounts),
                                                                     Some(RoleCountsMessage))))
    {
      var gate := Authorize(principal, Some(HrRole));
      if gate.Some? {
        return gate.value;
      }
      var userRole := RoleOrDefault(principal.value);
      var r := service.GetRoleCounts(userRole, employeeCounts);
      match r {
        case Failure(e) =>
          return ErrorResult(e);
        case Success(roleCounts) =>
          return Respond(OK, RoleCountsBody(SuccessResponse(roleCounts, Some(RoleCountsMessage))));
      }
    }

    /** `GET api/reports/employees-by-role`. */
    method GetEmployeesByRole(principal: Option<seq<Claim>>) returns (result: ActionResult)
      requires service.Valid()
      ensures Authorize(principal, Some(HrRole)).Some? ==> result == Authorize(principal, Some(HrRole)).value
      ensures Authorize(principal, Some(HrRole)).None? && RoleOrDefault(principal.value) != HrRole ==>
                result == ErrorResult(Denied)
      ensures Authorize(principal, Some(HrRole)).None? && RoleOrDefault(principal.value) == HrRole ==>
                && result.Respond? && result.status == OK && result.body.EmployeesByRoleBody?
                && result.body.groups.message == EmployeesByRoleMessage && result.body.groups.data.Some?
                && var groups := result.body.groups.data.value;
                   && |groups| == |service.roles|
                   && forall k :: 0 <= k < |groups| ==>
                        && groups[k].roleId == service.roles[k].id && groups[k].roleName == service.roles[k].roleName
                        && Enumerates(groups[k].employees, service.employees, service.roles, Some(service.roles[k].id))
    {
      var gate := Authorize(principal, Some(HrRole));
      if gate.Some? {
        return gate.value;
      }
      var userRole := RoleOrDefault(principal.value);
      var r := service.GetEmployeesByRole(userRole);
      match r {
        case Failure(e) =>
          return ErrorResult(e);
        case Success(groups) =>
          return Respond(OK, EmployeesByRoleBody(SuccessResponse(groups, Some(EmployeesByRoleMessage))));
      }
    }

    /** `GET api/reports/summary`: the role counts again, with their total. */
    method GetSummary(principal: Option<seq<Claim>>, employeeCounts: map<Int32, Int32>) returns (result: ActionResult)
      ensures Authorize(principal, Some(HrRole)).Some? ==> result == Authorize(principal, Some(HrRole)).value
      ensures Authorize(principal, Some(HrRole)).None? && RoleOrDefault(principal.value) != HrRole ==>
                result == ErrorResult(Denied)
      ensures Authorize(principal, Some(HrRole)).None? && RoleOrDefault(principal.value) == HrRole ==>
                var roleCounts := RoleCounts(service.roles, employeeCounts);
                && (CheckedSum(roleCounts).None? ==> result == Unhandled)
                && (CheckedSum(roleCounts).Some? ==>
                      result == Respond(OK, SummaryBody(SuccessResponse(Summary(Total(roleCounts), roleCounts),
                                                                        Some(SummaryMessage)))))
    {
      var gate := Authorize(principal, Some(HrRole));
      if gate.Some? {
        return gate.value;
      }
      var userRole := RoleOrDefault(principal.value);
      var r := service.GetRoleCounts(userRole, employeeCounts);
      match r {
        case Failure(e) =>
          return ErrorResult(e);
        case Success(roleCounts) =>
          var total := CheckedSum(roleCounts);
          if total.None? {
            return Unhandled;
          }
          var summary := Summary(total.value as int, roleCounts);
          return Respond(OK, SummaryBody(SuccessResponse(summary, Some(SummaryMessage))));
      }
    }
  }

  /** Dropping the last role drops the last entry of the report. */
  lemma RoleCountsPrefix(roles: seq<Role>, employeeCounts: map<Int32, Int32>)
    requires roles != []
    ensures RoleCounts(roles, employeeCounts)[..|roles| - 1] == RoleCounts(roles[..|roles| - 1], employeeCounts)
  {
    var r := RoleCounts(roles, employeeCounts);
    var rf := RoleCounts(roles[..|roles| - 1], employeeCounts);
    forall i | 0 <= i < |rf| ensures r[i] == rf[i] {
      assert roles[..|roles| - 1][i] == roles[i];
    }
  }

  /** The summary's total is the sum over the roles of the per-role counts,
      a role the repository has no count for contributing 0. */
  lemma {:induction false} TotalOfRoleCounts(roles: seq<Role>, employeeCounts: map<Int32, Int32>)
    ensures Total(RoleCounts(roles, employeeCounts)) == CountsOver(roles, employeeCounts)
    decreases |roles|
  {
    if roles != [] {
      RoleCountsPrefix(roles, employeeCounts);
      TotalOfRoleCounts(roles[..|roles| - 1], employeeCounts);
    }
  }

  /** With the repository's counts never negative, the summary throws exactly
      when the sum over the roles exceeds `int.MaxValue`, and otherwise
      reports that sum. */
  lemma SummaryOverflowsExactly(roles: seq<Role>, employeeCounts: map<Int32, Int32>)
    requires forall id :: id in employeeCounts ==> employeeCounts[id] >= 0
    ensures CheckedSum(RoleCounts(roles, employeeCounts)).Some? <==> CountsOver(roles, employeeCounts) <= MaxInt32
    ensures CheckedSum(RoleCounts(roles, employeeCounts)).Some? ==>
              CheckedSum(RoleCounts(roles, employeeCounts)).value as int == CountsOver(roles, employeeCounts)
  {
    var counts := RoleCounts(roles, employeeCounts);
    assert NonNegativeCounts(counts);
    TotalOfRoleCounts(roles, employeeCounts);
    CheckedSumOverflowsExactly(counts);
  }

  /** The per-role counts of `roles` added up from the left. */
  function CountsOver(roles: seq<Role>, employeeCounts: map<Int32, Int32>): int {
    if roles == [] then 0
    else
      var last := roles[|roles| - 1].id;
      CountsOver(roles[..|roles| - 1], employeeCounts) + (if last in employeeCounts then employeeCounts[last] as int else 0)
  }
}
