/** The exceptions the leave service raises and the controller advice that
    turns each of them into an HTTP status and a JSON body. */
module Exceptions {
  import opened Common

  /** The exception classes the leave service's code throws or meets. */
  datatype Exception =
    | IllegalArgument(message: string)
    | Security(reason: Option<string>)
    | AccessDenied(message: string)
    | Validation(fieldErrors: map<string, string>)
    | Unexpected(message: string)

  /** A state transition that may throw: the state after the call (the old one
      whenever the call threw, since every write is the last step and the
      transaction rolls back) and the value or the exception. */
  datatype Step<S, T> = Step(state: S, result: Result<T, Exception>)

  /** An error response: status code and JSON object (`None` is JSON null). */
  datatype Response = Response(status: int, body: map<string, Option<string>>)

  const AuthenticationRequiredHint :=
    "Authentication required. Please provide a valid JWT token in the Authorization header."

  /** True when the security exception speaks of a missing authentication. */
  predicate MentionsUnauthorized(reason: Option<string>) {
    reason.Some? && Contains(reason.value, "Unauthorized")
  }

  /** `GlobalExceptionHandler`: the handler chosen for the exception's class. */
  function Handle(e: Exception): (r: Response)
    ensures r.status == 400 <==> e.IllegalArgument? || e.Validation?
    ensures r.status == 401 <==> e.Security? && MentionsUnauthorized(e.reason)
    ensures r.status == 403 <==> e.AccessDenied? || (e.Security? && !MentionsUnauthorized(e.reason))
    ensures r.status == 500 <==> e.Unexpected?
    ensures e.IllegalArgument? ==> r.body == map["error" := Some(e.message)]
    ensures e.Security? ==> "error" in r.body && r.body["error"] == e.reason
    ensures e.Validation? ==> r.body.Keys == e.fieldErrors.Keys
                              && forall f :: f in e.fieldErrors ==> r.body[f] == Some(e.fieldErrors[f])
  {
    match e
    case IllegalArgument(m) =>
      Response(400, map["error" := Some(m)])
    case Security(m) =>
      if MentionsUnauthorized(m) then
        Response(401, map["error" := m, "message" := Some(AuthenticationRequiredHint)])
      else
        Response(403, map["error" := m])
    case AccessDenied(m) =>
      Response(403, map["error" := Some("Access denied: " + m)])
    case Validation(errors) =>
      Response(400, map f | f in errors :: Some(errors[f]))
    case Unexpected(m) =>
      Response(500, map["error" := Some("An unexpected error occurred: " + m)])
  }

  /** Every exception is answered with one of four client or server codes. */
  lemma HandledStatuses(e: Exception)
    ensures Handle(e).status in {400, 401, 403, 500}
  {
  }

  /** The "not authenticated" exception that the leave service itself raises
      does not contain the word "Unauthorized", so it is answered with 403 and
      not with 401. */
  lemma ServiceUnauthenticatedIsForbidden()
    ensures Handle(Security(Some("User not authenticated"))).status == 403
  {
    var s := "User not authenticated";
    assert !StartsWith(s, "Unauthorized") by {
      assert s[1] != "Unauthorized"[1];
    }
    NotContainsWithoutFirstChar(s[1..], "Unauthorized");
  }

  /** A security exception without a message is answered with 403. */
  lemma NullSecurityMessageIsForbidden()
    ensures Handle(Security(None)).status == 403
    ensures Handle(Security(None)).body == map["error" := None]
  {
  }
}
