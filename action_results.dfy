/** What a controller action answers, the authorization that runs before an
    action, and the role lookup both controllers share. */
module ActionResults {
  import opened Wrappers
  import opened Text
  import opened ErrorCodes
  import opened Envelopes
  import opened Claims
  import opened Entities

  /** The anonymous summary object of the reports controller, without its
      time stamp. */
  datatype Summary = Summary(totalEmployees: int, roleBreakdown: seq<RoleCountDto>)

  /** The response bodies of the two controllers. */
  datatype Body =
    | ErrorBody(error: ErrorResponse)
    | EmployeeBody(employee: ApiResponse<EmployeeDto>)
    | EmployeeListBody(employees: ApiResponse<seq<EmployeeDto>>)
    | TextBody(text: ApiResponse<string>)
    | RoleCountsBody(roleCounts: ApiResponse<seq<RoleCountDto>>)
    | EmployeesByRoleBody(groups: ApiResponse<seq<EmployeesByRoleDto>>)
    | SummaryBody(summary: ApiResponse<Summary>)

  datatype ActionResult =
    /** `Ok`, `BadRequest` and `StatusCode`: a status and a body. */
    | Respond(status: int, body: Body)
    /** `CreatedAtAction`: status 201, the action that reads the resource
        and the id in its route values. */
    | CreatedAt(actionName: string, routeId: Int32, body: Body)
    /** The request carries no valid bearer token: 401, the action does not run. */
    | Challenge
    /** The principal lacks the required role: 403, the action does not run. */
    | Forbid
    /** An exception escaped the action. */
    | Unhandled

  /** `StatusCode(error.StatusCode, error)`. */
  function ErrorResult(error: ErrorResponse): (r: ActionResult)
    ensures r.Respond? && r.status == error.statusCode && r.body == ErrorBody(error)
  {
    Respond(error.statusCode, ErrorBody(error))
  }

  /** `ClaimsPrincipal.IsInRole(role)`: some claim of the role type (compared
      ignoring case) has exactly this value. */
  predicate IsInRole(claims: seq<Claim>, role: string) {
    exists i :: 0 <= i < |claims| && EqualsIgnoreCase(claims[i].claimType, RoleType) && claims[i].value == role
  }

  /** The `[Authorize]` attribute (`requiredRole` None) or
      `[Authorize(Roles = ...)]`: None lets the action run. The principal is
      None when the request has no valid bearer token. */
  function Authorize(principal: Option<seq<Claim>>, requiredRole: Option<string>): (r: Option<ActionResult>)
    ensures r.None? <==> principal.Some? && (requiredRole.None? || IsInRole(principal.value, requiredRole.value))
    ensures principal.None? ==> r == Some(Challenge)
    ensures principal.Some? && r.Some? ==> r == Some(Forbid)
  {
    match principal
    case None => Some(Challenge)
    case Some(claims) =>
      if requiredRole.Some? && !IsInRole(claims, requiredRole.value) then Some(Forbid) else None
  }

  const DefaultRole: string := "Employee"

  /** `User.FindFirst(ClaimTypes.Role)?.Value ?? "Employee"`. */
  function RoleOrDefault(claims: seq<Claim>): (role: string)
    ensures FindFirst(claims, RoleType).Some? ==> role == FindFirst(claims, RoleType).value
    ensures FindFirst(claims, RoleType).None? ==> role == DefaultRole
  {
    FindFirst(claims, RoleType).GetOr(DefaultRole)
  }

  /** The role the service is given is "HR" only when the first role claim
      is "HR"; then the principal is also in the role "HR" for the
      `[Authorize(Roles = "HR")]` check. A missing role claim is never HR. */
  lemma DefaultedRoleIsHrOnlyFromClaim(claims: seq<Claim>)
    ensures RoleOrDefault(claims) == "HR" <==> FindFirst(claims, RoleType) == Some("HR")
    ensures RoleOrDefault(claims) == "HR" ==> IsInRole(claims, "HR")
  {
    if FindFirst(claims, RoleType) == Some("HR") {
      var i :| 0 <= i < |claims| && TypeMatches(claims[i], RoleType, true) && claims[i].value == "HR";
      assert EqualsIgnoreCase(claims[i].claimType, RoleType);
    }
  }

  /** The converse fails: a principal with role claims "Employee" and then
      "HR" passes `[Authorize(Roles = "HR")]`, yet the service is given the
      role "Employee". */
  lemma InRoleButNotFirst()
    ensures var claims := [Claim(RoleType, "Employee"), Claim(RoleType, "HR")];
            IsInRole(claims, "HR") && RoleOrDefault(claims) == "Employee"
  {
    var claims := [Claim(RoleType, "Employee"), Claim(RoleType, "HR")];
    EqualsIgnoreCaseProperties(RoleType, RoleType, RoleType);
    assert TypeMatches(claims[0], RoleType, true);
    FirstMatchHead(claims[0], claims[1..], RoleType, true);
    assert claims == [claims[0]] + claims[1..];
    assert EqualsIgnoreCase(claims[1].claimType, RoleType);
  }
}
