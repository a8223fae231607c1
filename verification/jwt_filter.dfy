/** The pure part of `JwtAuthenticationFilter`: which paths skip token
    handling, how the bearer token is cut out of the header, and what
    authentication is installed for the rest of the request. Token
    validation is a call into the identity service and is a parameter. */
module JwtFilter {
  import opened Common
  import opened Security

  /** Documentation endpoints served without any token handling. */
  const PublicPrefixes: seq<string> :=
    ["/swagger-ui", "/v3/api-docs", "/api-docs", "/swagger-resources", "/webjars"]

  const BearerPrefix := "Bearer "

  predicate IsPublicPath(path: string) {
    exists i :: 0 <= i < |PublicPrefixes| && StartsWith(path, PublicPrefixes[i])
  }

  /** The token of an `Authorization` header that starts exactly with "Bearer ". */
  function BearerToken(header: Option<string>): (token: Option<string>)
    ensures token.Some? <==> header.Some? && StartsWith(header.value, BearerPrefix)
    ensures token.Some? ==> header.value == BearerPrefix + token.value
  {
    if header.Some? && StartsWith(header.value, BearerPrefix) then
      var h := header.value;
      assert h == h[..7] + h[7..];
      Some(h[7..])
    else
      None
  }

  /** Cutting the prefix off a bearer header gives back the token that was put in. */
  lemma BearerRoundTrip(token: string)
    ensures BearerToken(Some(BearerPrefix + token)) == Some(token)
  {
    assert (BearerPrefix + token)[..7] == BearerPrefix;
  }

  /** A header in another scheme, or with another capitalisation, carries no token. */
  lemma LowercaseBearerIgnored(token: string)
    ensures BearerToken(Some("bearer " + token)) == None
  {
    assert ("bearer " + token)[0] == 'b';
  }

  /** The single authority granted to an authenticated caller. */
  function Authority(role: string): (a: string)
    ensures |a| == 5 + |role| && StartsWith(a, "ROLE_")
    ensures forall i :: 0 <= i < |role| ==> a[5 + i] == UpperChar(role[i])
  {
    var a := "ROLE_" + Upper(role);
    assert a[..5] == "ROLE_";
    a
  }

  /** What one pass through the filter leaves behind: the authentication seen by
      the controllers, the token held in the thread-local slot while the chain
      runs (`None` when no chain runs), the slot after the filter returns, and
      whether the filter threw before reaching the chain (unboxing a missing
      `isActive`). */
  datatype FilterRun = FilterRun(
    auth: Authentication,
    heldDuringChain: Option<string>,
    heldAfter: Option<string>,
    crashed: bool)

  /** `doFilterInternal` for one request. */
  function DoFilter(path: string, header: Option<string>, validate: string -> Option<UserInfo>): (r: FilterRun)
    ensures r.heldAfter == None
    ensures IsPublicPath(path) ==> r == FilterRun(Anonymous, None, None, false)
    ensures !IsPublicPath(path) && !r.crashed ==> r.heldDuringChain == BearerToken(header)
    ensures r.crashed ==> r.heldDuringChain == None && r.auth.Anonymous?
    ensures r.auth.Authenticated? <==>
              && !IsPublicPath(path)
              && BearerToken(header).Some?
              && validate(BearerToken(header).value).Some?
              && validate(BearerToken(header).value).value.isActive == Some(true)
    ensures r.auth.Authenticated? ==>
              && r.auth.principal == validate(BearerToken(header).value).value
              && r.auth.credentials == BearerToken(header).value
              && r.auth.authority == Authority(r.auth.principal.role)
    ensures r.crashed <==>
              && !IsPublicPath(path)
              && BearerToken(header).Some?
              && validate(BearerToken(header).value).Some?
              && validate(BearerToken(header).value).value.isActive.None?
  {
    if IsPublicPath(path) then
      FilterRun(Anonymous, None, None, false)
    else
      match BearerToken(header)
      case None => FilterRun(Anonymous, None, None, false)
      case Some(token) =>
        match validate(token)
        case None => FilterRun(Anonymous, Some(token), None, false)
        case Some(user) =>
          if user.isActive == Some(true) then
            FilterRun(Authenticated(user, token, Authority(user.role)), Some(token), None, false)
          else
            if user.isActive.None? then FilterRun(Anonymous, None, None, true)
            else FilterRun(Anonymous, Some(token), None, false)
  }

  /** On a documentation path the header is not even looked at. */
  lemma PublicPathIgnoresHeader(path: string, h1: Option<string>, h2: Option<string>,
                                validate: string -> Option<UserInfo>)
    requires IsPublicPath(path)
    ensures DoFilter(path, h1, validate) == DoFilter(path, h2, validate)
  {
  }
}
