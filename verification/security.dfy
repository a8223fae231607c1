/** The caller identity the JWT filter installs and the aspect that checks
    `@RequiresRole` before every controller method. */
module Security {
  import opened Common
  import opened Exceptions

  /** `UserInfo` as the identity service reports it. The service never reads
      its `id` or `email`, so they are not carried. */
  datatype UserInfo = UserInfo(
    employeeId: string,
    role: string,
    departmentId: Option<int>,
    isActive: Option<bool>)

  /** The security context of one request: nothing, some principal that is
      not a `UserInfo`, or the token-backed authentication the filter builds
      (principal, raw token as credentials, one granted authority). */
  datatype Authentication =
    | Anonymous
    | ForeignPrincipal
    | Authenticated(principal: UserInfo, credentials: string, authority: string)

  const UnauthorizedMessage := "Unauthorized"
  const ForbiddenMessage := "Forbidden: Insufficient permissions"

  /** Some entry of `required`, lower-cased, equals `role`. */
  function AnyRoleMatches(required: seq<string>, role: string): (b: bool)
    ensures b <==> exists i :: 0 <= i < |required| && Lower(required[i]) == role
  {
    if |required| == 0 then false
    else if Lower(required[0]) == role then true
    else
      var b := AnyRoleMatches(required[1..], role);
      assert forall i :: 1 <= i < |required| ==> required[i] == required[1..][i - 1];
      b
  }

  /** `RoleAuthorizationAspect.checkRole`. */
  function CheckRole(auth: Authentication, required: seq<string>): (r: Outcome<Exception>)
    ensures !auth.Authenticated? ==> r == Fail(Security(Some(UnauthorizedMessage)))
    ensures auth.Authenticated? ==>
              (r.Pass? <==> exists i :: 0 <= i < |required| && EqualsIgnoreCase(required[i], auth.principal.role))
    ensures auth.Authenticated? && r.Fail? ==> r == Fail(Security(Some(ForbiddenMessage)))
  {
    match auth
    case Authenticated(user, _, _) =>
      if AnyRoleMatches(required, Lower(user.role)) then Pass else Fail(Security(Some(ForbiddenMessage)))
    case _ =>
      Fail(Security(Some(UnauthorizedMessage)))
  }

  /** An empty role list lets nobody through. */
  lemma EmptyRoleListForbidsEveryone(auth: Authentication)
    ensures CheckRole(auth, []).Fail?
  {
  }

  /** The verdict depends only on the role of the principal and the list:
      not on who the caller is otherwise, nor on the token. */
  lemma CheckRoleDependsOnlyOnRole(a: Authentication, b: Authentication, required: seq<string>)
    requires a.Authenticated? && b.Authenticated? && a.principal.role == b.principal.role
    ensures CheckRole(a, required) == CheckRole(b, required)
  {
  }

  /** Both sides are folded: a list entry "HR" admits a caller whose role is "hr"
      and vice versa. */
  lemma RoleMatchIgnoresCase(auth: Authentication, required: seq<string>, i: int)
    requires auth.Authenticated? && 0 <= i < |required|
    requires Lower(required[i]) == Lower(auth.principal.role)
    ensures CheckRole(auth, required) == Pass
  {
  }

  /** A rejected gate answers 401 exactly when nobody is authenticated, and
      403 when the authenticated caller's role is not listed. */
  lemma GateStatuses(auth: Authentication, required: seq<string>)
    requires CheckRole(auth, required).Fail?
    ensures Handle(CheckRole(auth, required).error).status == (if auth.Authenticated? then 403 else 401)
  {
    if auth.Authenticated? {
      NotContainsWithoutFirstChar(ForbiddenMessage, "Unauthorized");
    } else {
      ContainsItself(UnauthorizedMessage);
    }
  }

  /** For a list written in lower case, as every `@RequiresRole` of the
      service is, the gate admits exactly the callers whose folded role is
      listed. */
  lemma GateAdmitsListedRoles(auth: Authentication, required: seq<string>)
    requires forall i :: 0 <= i < |required| ==> Lower(required[i]) == required[i]
    ensures CheckRole(auth, required).Pass? <==> auth.Authenticated? && Lower(auth.principal.role) in required
  {
    if auth.Authenticated? && Lower(auth.principal.role) in required {
      var i :| 0 <= i < |required| && required[i] == Lower(auth.principal.role);
      assert EqualsIgnoreCase(required[i], auth.principal.role);
    }
  }

  /** The status a rejected gate produces, in terms of the caller alone. */
  lemma GateVerdict(auth: Authentication, required: seq<string>)
    requires forall i :: 0 <= i < |required| ==> Lower(required[i]) == required[i]
    ensures CheckRole(auth, required).Fail? ==>
              Handle(CheckRole(auth, required).error).status == (if auth.Authenticated? then 403 else 401)
    ensures CheckRole(auth, required).Pass? <==> auth.Authenticated? && Lower(auth.principal.role) in required
  {
    GateAdmitsListedRoles(auth, required);
    if CheckRole(auth, required).Fail? {
      GateStatuses(auth, required);
    }
  }
}
