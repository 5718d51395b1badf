/** The two authorization handlers. Each reads claims of the authenticated
    principal and, at most, marks its requirement as met; neither ever calls
    `Fail`. The handler context is reduced to the two flags a handler can set. */
module AuthorizationHandlers {
  import opened Wrappers
  import opened Text
  import opened Claims

  const HrRole: string := "HR"

  /** What an `AuthorizationHandlerContext` records about one requirement:
      whether `Succeed` was called for it and whether `Fail` was called. */
  datatype HandlerContext = HandlerContext(requirementMet: bool, failCalled: bool)

  /** The context a handler starts from. */
  const Fresh: HandlerContext := HandlerContext(false, false)

  /** The route values of the current request (`HttpContext.GetRouteValue`),
      each already turned into text. */
  type RouteValues = map<string, string>

  /** `context.Succeed(requirement)`. */
  function Succeed(ctx: HandlerContext): HandlerContext {
    ctx.(requirementMet := true)
  }

  /** The HR-only decision: the role claim is present and is exactly "HR". */
  predicate HrOnlyAllows(role: Option<string>) {
    role.Some? && role.value == HrRole
  }

  /** `HrOnlyAuthorizationHandler.HandleRequirementAsync`. */
  function HandleHrOnly(ctx: HandlerContext, user: seq<Claim>): (r: HandlerContext)
    ensures r.failCalled == ctx.failCalled
    ensures r.requirementMet <==> ctx.requirementMet || HrOnlyAllows(FindFirst(user, RoleType))
    ensures !HrOnlyAllows(FindFirst(user, RoleType)) ==> r == ctx
  {
    var userRole := FindFirst(user, RoleType);
    if userRole == Some(HrRole) then Succeed(ctx) else ctx
  }

  /** The same-user decision, flattened: an id claim that is present and not
      empty, and either the role "HR" or a request whose route value "id" is
      textually equal to the id claim. */
  predicate SameUserAllows(idClaim: Option<string>, role: Option<string>, httpContext: Option<RouteValues>) {
    && !IsNullOrEmpty(idClaim)
    && (HrOnlyAllows(role)
        || (httpContext.Some? && "id" in httpContext.value && httpContext.value["id"] == idClaim.value))
  }

  /** `SameUserAuthorizationHandler.HandleRequirementAsync`, with the early
      returns of the source. */
  function HandleSameUser(ctx: HandlerContext, user: seq<Claim>, httpContext: Option<RouteValues>): (r: HandlerContext)
    ensures r.failCalled == ctx.failCalled
    ensures r.requirementMet <==>
              ctx.requirementMet || SameUserAllows(FindFirst(user, NameIdentifierType), FindFirst(user, RoleType), httpContext)
  {
    var userIdClaim := FindFirst(user, NameIdentifierType);
    var userRole := FindFirst(user, RoleType);
    if IsNullOrEmpty(userIdClaim) then ctx
    else if userRole == Some(HrRole) then Succeed(ctx)
    else match httpContext
      case None => ctx
      case Some(routeValues) =>
        var routeId := if "id" in routeValues then Some(routeValues["id"]) else None;
        if routeId == userIdClaim then Succeed(ctx) else ctx
  }

  /** Neither handler ever fails a request: starting from a context in which
      nothing was decided, the outcome is "succeeded" or "left undecided". */
  lemma HandlersNeverFail(user: seq<Claim>, httpContext: Option<RouteValues>)
    ensures !HandleHrOnly(Fresh, user).failCalled
    ensures !HandleSameUser(Fresh, user, httpContext).failCalled
  {
  }

  /** The role comparison is case-sensitive: "hr" and "Hr" are not HR, and a
      principal without a role claim is not HR either. */
  lemma HrOnlyCaseSensitive(idValue: string)
    ensures !HandleHrOnly(Fresh, [Claim(RoleType, "hr")]).requirementMet
    ensures !HandleHrOnly(Fresh, [Claim(RoleType, "Hr")]).requirementMet
    ensures !HandleHrOnly(Fresh, [Claim(NameIdentifierType, idValue)]).requirementMet
    ensures HandleHrOnly(Fresh, [Claim(RoleType, "HR")]).requirementMet
  {
    assert !EqualsIgnoreCase(NameIdentifierType, RoleType) by {
      assert |NameIdentifierType| != |RoleType|;
    }
  }

  /** A missing or empty name-identifier claim never succeeds, even for HR. */
  lemma SameUserNeedsIdClaim(user: seq<Claim>, httpContext: Option<RouteValues>)
    requires IsNullOrEmpty(FindFirst(user, NameIdentifierType))
    ensures !HandleSameUser(Fresh, user, httpContext).requirementMet
  {
  }

  /** With an id claim and the role "HR", the route is not consulted: any
      request, with or without an HTTP context, succeeds. */
  lemma SameUserHrIgnoresRoute(user: seq<Claim>, httpContext: Option<RouteValues>)
    requires !IsNullOrEmpty(FindFirst(user, NameIdentifierType))
    requires FindFirst(user, RoleType) == Some(HrRole)
    ensures HandleSameUser(Fresh, user, httpContext).requirementMet
  {
  }

  /** For a caller who is not HR: no HTTP context means no success, and
      otherwise success is textual equality of route id and id claim, so the
      route text "05" does not match the claim "5". */
  lemma SameUserNonHrIsTextual(user: seq<Claim>, routeValues: RouteValues)
    requires !HrOnlyAllows(FindFirst(user, RoleType))
    ensures !HandleSameUser(Fresh, user, None).requirementMet
    ensures FindFirst(user, NameIdentifierType) == Some("5") && routeValues == map["id" := "05"] ==>
              !HandleSameUser(Fresh, user, Some(routeValues)).requirementMet
  {
  }
}
