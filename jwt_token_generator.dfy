/** The bearer-token issuer: configuration defaults, the claim list, the expiry
    arithmetic and the two claim extractors. Signing (HMAC-SHA256) and
    serialisation are abstracted: a token is the value that would be signed,
    and reading a token back is an `Option<seq<Claim>>` where None stands for a
    token the reader cannot decode. */
module JwtTokens {
  import opened Wrappers
  import opened Text
  import opened Claims

  /** The "JwtSettings" configuration section; None is a missing key. */
  datatype JwtSettings = JwtSettings(
    secretKey: Option<string>,
    issuer: Option<string>,
    audience: Option<string>,
    expirationMinutes: Option<string>)

  /** An issued token before signing and serialisation. `expires` is in the
      same unit as the issue instant `now`: seconds since the Unix epoch. */
  datatype Token = Token(issuer: string, audience: string, claims: seq<Claim>, expires: int, signingKey: string)

  /** Why token generation throws. */
  datatype JwtError = SecretKeyMissing | ExpirationNotAnInt(raw: string)

  const DefaultIssuer: string := "HRApplication"
  const DefaultAudience: string := "HRApplicationUsers"
  const DefaultExpirationMinutes: string := "60"
  const SecretKeyMissingMessage: string := "JWT SecretKey is not configured"
  /** Stand-in for the text of the exception `int.Parse` throws. */
  const NotAnIntMessage: string := "The input string was not in a correct format."

  /** The exception message of a failed generation. */
  function ErrorMessage(e: JwtError): string {
    match e
    case SecretKeyMissing => SecretKeyMissingMessage
    case ExpirationNotAnInt(_) => NotAnIntMessage
  }

  /** `int.Parse(jwtSettings["ExpirationMinutes"] ?? "60")`. */
  function ExpirationMinutes(settings: JwtSettings): (r: Result<int, JwtError>)
    ensures r.Success? ==> InInt32(r.value)
    ensures r.Failure? ==> r.error == ExpirationNotAnInt(settings.expirationMinutes.GetOr(DefaultExpirationMinutes))
  {
    var raw := settings.expirationMinutes.GetOr(DefaultExpirationMinutes);
    match ParseInt32(raw)
    case Some(m) => Success(m)
    case None => Failure(ExpirationNotAnInt(raw))
  }

  /** An absent setting means 60 minutes. */
  lemma DefaultExpirationIsSixty(settings: JwtSettings)
    requires settings.expirationMinutes.None?
    ensures ExpirationMinutes(settings) == Success(60)
  {
    assert TrimEndNumberWhite(TrimStartNumberWhite("60")) == "60";
    assert DigitsValue("60") == 60 by {
      assert "60"[..1] == "6";
      assert "6"[..0] == [];
    }
  }

  /** `GetExpirationSeconds`: the minutes setting times 60, in unchecked
      32-bit arithmetic. */
  function GetExpirationSeconds(settings: JwtSettings): (r: Result<int, JwtError>)
    ensures r.Success? <==> ExpirationMinutes(settings).Success?
    ensures r.Success? ==> InInt32(r.value)
    ensures r.Success? && InInt32(ExpirationMinutes(settings).value * 60) ==>
              r.value == ExpirationMinutes(settings).value * 60
    ensures r.Failure? ==> r == Failure(ExpirationMinutes(settings).error)
  {
    match ExpirationMinutes(settings)
    case Success(m) => Success(WrapInt32(m * 60))
    case Failure(e) => Failure(e)
  }

  /** With no setting, tokens are advertised to live 3600 seconds. */
  lemma DefaultExpirationSeconds(settings: JwtSettings)
    requires settings.expirationMinutes.None?
    ensures GetExpirationSeconds(settings) == Success(3600)
  {
    DefaultExpirationIsSixty(settings);
  }

  /** The six claims of a token, in the order they are listed. */
  function TokenClaims(userId: int, email: string, roleName: string, jti: string, now: int): (cs: seq<Claim>)
    ensures |cs| == 6
    ensures cs[0] == Claim(SubType, IntToString(userId)) && cs[3] == Claim(NameIdentifierType, IntToString(userId))
    ensures cs[1] == Claim(EmailType, email) && cs[2] == Claim(RoleType, roleName)
    ensures cs[4] == Claim(JtiType, jti) && cs[5] == Claim(IatType, IntToString(now))
  {
    [ Claim(SubType, IntToString(userId)),
      Claim(EmailType, email),
      Claim(RoleType, roleName),
      Claim(NameIdentifierType, IntToString(userId)),
      Claim(JtiType, jti),
      Claim(IatType, IntToString(now)) ]
  }

  /** `GenerateToken(userId, email, roleName)` issued at instant `now` (Unix
      seconds) with unique id `jti`. Throws (Failure) when the secret key is
      not configured, or else when the minutes setting is not an integer. */
  function GenerateToken(settings: JwtSettings, userId: Int32, email: string, roleName: string, now: int, jti: string)
    : (r: Result<Token, JwtError>)
    ensures settings.secretKey.None? ==> r == Failure(SecretKeyMissing)
    ensures settings.secretKey.Some? ==> (r.Success? <==> ExpirationMinutes(settings).Success?)
    ensures r.Success? ==>
              && r.value.issuer == settings.issuer.GetOr(DefaultIssuer)
              && r.value.audience == settings.audience.GetOr(DefaultAudience)
              && r.value.signingKey == settings.secretKey.value
              && r.value.claims == TokenClaims(userId, email, roleName, jti, now)
              && r.value.expires == now + ExpirationMinutes(settings).value * 60
  {
    match settings.secretKey
    case None => Failure(SecretKeyMissing)
    case Some(key) =>
      var issuer := settings.issuer.GetOr(DefaultIssuer);
      var audience := settings.audience.GetOr(DefaultAudience);
      match ExpirationMinutes(settings)
      case Failure(e) => Failure(e)
      case Success(minutes) =>
        Success(Token(issuer, audience, TokenClaims(userId, email, roleName, jti, now), now + minutes * 60, key))
  }

  /** The expiry written into a token and the lifetime advertised by
      GetExpirationSeconds come from the same setting: they agree whenever the
      advertised number does not overflow. */
  lemma ExpiryMatchesExpiresIn(settings: JwtSettings, userId: Int32, email: string, roleName: string, now: int, jti: string)
    requires GenerateToken(settings, userId, email, roleName, now, jti).Success?
    ensures GetExpirationSeconds(settings).Success?
    ensures InInt32(ExpirationMinutes(settings).value * 60) ==>
              GenerateToken(settings, userId, email, roleName, now, jti).value.expires - now
              == GetExpirationSeconds(settings).value
  {
  }

  /** `GetUserIdFromToken`: the first "sub" claim read as an integer; None when
      the token cannot be read, has no "sub" claim, or its value is not an
      integer. */
  function GetUserIdFromToken(decoded: Option<seq<Claim>>): (r: Option<int>)
    ensures decoded.None? ==> r.None?
    ensures r.Some? ==> InInt32(r.value)
    ensures r.Some? <==> decoded.Some? && FirstValue(decoded.value, SubType).Some?
                         && ParseInt32(FirstValue(decoded.value, SubType).value).Some?
    ensures r.Some? ==> exists i :: 0 <= i < |decoded.value| && decoded.value[i].claimType == SubType
                                    && (forall j :: 0 <= j < i ==> decoded.value[j].claimType != SubType)
                                    && ParseInt32(decoded.value[i].value) == r
  {
    match decoded
    case None => None
    case Some(claims) =>
      match FirstValue(claims, SubType)
      case None => None
      case Some(v) => ParseInt32(v)
  }

  /** `GetRoleFromToken`: the first role claim's value; None when the token
      cannot be read or has no role claim. */
  function GetRoleFromToken(decoded: Option<seq<Claim>>): (r: Option<string>)
    ensures decoded.None? ==> r.None?
    ensures decoded.Some? ==> (r.None? <==> forall i :: 0 <= i < |decoded.value| ==> decoded.value[i].claimType != RoleType)
    ensures r.Some? ==> exists i :: 0 <= i < |decoded.value| && decoded.value[i] == Claim(RoleType, r.value)
                                    && forall j :: 0 <= j < i ==> decoded.value[j].claimType != RoleType
  {
    match decoded
    case None => None
    case Some(claims) => FirstValue(claims, RoleType)
  }

  /** The first "sub" claim of the list is the id's text and the first role
      claim is the role name. */
  lemma TokenClaimsReadBack(userId: int, email: string, roleName: string, jti: string, now: int)
    ensures FirstValue(TokenClaims(userId, email, roleName, jti, now), SubType) == Some(IntToString(userId))
    ensures FirstValue(TokenClaims(userId, email, roleName, jti, now), RoleType) == Some(roleName)
  {
    var claims := TokenClaims(userId, email, roleName, jti, now);
    var afterSub := claims[1..];
    var afterEmail := afterSub[1..];
    assert afterSub[0] == claims[1] && afterEmail[0] == claims[2];
    assert claims[0].claimType != RoleType by { assert |SubType| != |RoleType|; }
    assert claims[1].claimType != RoleType by { assert |EmailType| != |RoleType|; }
    assert FirstMatch(afterEmail, RoleType, false) == Some(roleName);
    assert FirstMatch(afterSub, RoleType, false) == Some(roleName);
  }

  /** Reading back the claims GenerateToken wrote gives the user id and the
      role it was issued for. */
  lemma TokenRoundTrip(settings: JwtSettings, userId: Int32, email: string, roleName: string, now: int, jti: string)
    requires GenerateToken(settings, userId, email, roleName, now, jti).Success?
    ensures var claims := GenerateToken(settings, userId, email, roleName, now, jti).value.claims;
            GetUserIdFromToken(Some(claims)) == Some(userId) && GetRoleFromToken(Some(claims)) == Some(roleName)
  {
    TokenClaimsReadBack(userId, email, roleName, jti, now);
    ParseIntToString(userId);
  }
}
