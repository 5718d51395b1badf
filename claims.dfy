/** Claims carried by a bearer token and by the authenticated principal, and
    the two ways the core looks one up. */
module Claims {
  import opened Wrappers
  import opened Text

  datatype Claim = Claim(claimType: string, value: string)

  // Registered JWT claim names (RFC 7519 sections 4.1.2, 4.1.6 and 4.1.7)
  // and the claim types of System.Security.Claims.ClaimTypes.
  const SubType: string := "sub"
  const EmailType: string := "email"
  const JtiType: string := "jti"
  const IatType: string := "iat"
  const RoleType: string := "http://schemas.microsoft.com/ws/2008/06/identity/claims/role"
  const NameIdentifierType: string := "http://schemas.xmlsoap.org/ws/2005/05/identity/claims/nameidentifier"

  predicate TypeMatches(c: Claim, t: string, ignoreCase: bool) {
    if ignoreCase then EqualsIgnoreCase(c.claimType, t) else c.claimType == t
  }

  /** The value of the first claim whose type matches `t`, if any. */
  function FirstMatch(claims: seq<Claim>, t: string, ignoreCase: bool): (r: Option<string>)
    ensures r.None? <==> forall i :: 0 <= i < |claims| ==> !TypeMatches(claims[i], t, ignoreCase)
    ensures r.Some? ==> exists i :: 0 <= i < |claims| && TypeMatches(claims[i], t, ignoreCase)
                                    && claims[i].value == r.value
                                    && forall j :: 0 <= j < i ==> !TypeMatches(claims[j], t, ignoreCase)
  {
    if claims == [] then None
    else if TypeMatches(claims[0], t, ignoreCase) then Some(claims[0].value)
    else
      var r := FirstMatch(claims[1..], t, ignoreCase);
      assert r.Some? ==> exists i :: 1 <= i < |claims| && TypeMatches(claims[i], t, ignoreCase)
                                     && claims[i].value == r.value
                                     && forall j :: 0 <= j < i ==> !TypeMatches(claims[j], t, ignoreCase) by {
        if r.Some? {
          var k :| 0 <= k < |claims[1..]| && TypeMatches(claims[1..][k], t, ignoreCase) && claims[1..][k].value == r.value
                   && forall j :: 0 <= j < k ==> !TypeMatches(claims[1..][j], t, ignoreCase);
          assert forall j :: 0 <= j < k + 1 ==> !TypeMatches(claims[j], t, ignoreCase) by {
            forall j | 0 <= j < k + 1 ensures !TypeMatches(claims[j], t, ignoreCase) {
              if j > 0 { assert claims[j] == claims[1..][j - 1]; }
            }
          }
        }
      }
      r
  }

  /** `claims.FirstOrDefault(c => c.Type == t)?.Value` on a decoded token:
      the type is compared exactly. */
  function FirstValue(claims: seq<Claim>, t: string): Option<string> {
    FirstMatch(claims, t, false)
  }

  /** `ClaimsPrincipal.FindFirst(t)?.Value`: the type is compared ignoring case. */
  function FindFirst(claims: seq<Claim>, t: string): Option<string> {
    FirstMatch(claims, t, true)
  }

  /** A list that starts with a claim of type `t` answers with that claim's
      value, whatever follows. */
  lemma FirstMatchHead(c: Claim, rest: seq<Claim>, t: string, ignoreCase: bool)
    requires TypeMatches(c, t, ignoreCase)
    ensures FirstMatch([c] + rest, t, ignoreCase) == Some(c.value)
  {
  }

  /** Claims in front that do not match are skipped. */
  lemma {:induction false} FirstMatchSkip(front: seq<Claim>, rest: seq<Claim>, t: string, ignoreCase: bool)
    requires forall i :: 0 <= i < |front| ==> !TypeMatches(front[i], t, ignoreCase)
    ensures FirstMatch(front + rest, t, ignoreCase) == FirstMatch(rest, t, ignoreCase)
  {
    if front == [] {
      assert front + rest == rest;
    } else {
      assert (front + rest)[0] == front[0];
      assert (front + rest)[1..] == front[1..] + rest;
      FirstMatchSkip(front[1..], rest, t, ignoreCase);
    }
  }
}
