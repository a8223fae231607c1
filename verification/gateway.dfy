/** `AuthServiceClient`: the leave service's three calls to the identity
    service. What travels over the network is left to a `Transport`; the
    client turns every failed call (an unreachable service, an error status)
    into an empty answer instead of an exception. */
module Gateway {
  import opened Common
  import opened Security

  /** The outcome of one HTTP exchange: a decoded body, or any failure the
      client catches (connection error, 4xx or 5xx status, bad body). */
  datatype Call<T> = Delivered(body: T) | Failed

  /** The body of `GET /auth/validate`; either member may be null. */
  datatype ValidateResponse = ValidateResponse(valid: Option<bool>, user: Option<UserInfo>)

  /** What the identity service answers, per request. The second argument of
      each call is the bearer token forwarded with it. */
  datatype Transport = Transport(
    validate: string -> Call<Option<ValidateResponse>>,
    usersInDepartment: (int, string) -> Call<seq<UserInfo>>,
    userWithEmployeeId: (string, string) -> Call<Option<UserInfo>>)

  /** `validateToken`: the user only when the body says `valid: true`. */
  function ValidateToken(c: Call<Option<ValidateResponse>>): (r: Option<UserInfo>)
    ensures c.Failed? ==> r.None?
    ensures r.Some? <==> c.Delivered? && c.body.Some? && c.body.value.valid == Some(true) && c.body.value.user.Some?
    ensures r.Some? ==> r == c.body.value.user
  {
    match c
    case Failed => None
    case Delivered(None) => None
    case Delivered(Some(body)) => if body.valid == Some(true) then body.user else None
  }

  /** `getUsersByDepartment`: the list, or the empty list on any failure. */
  function UsersByDepartment(c: Call<seq<UserInfo>>): (r: seq<UserInfo>)
    ensures c.Failed? ==> r == []
    ensures c.Delivered? ==> r == c.body
  {
    match c
    case Failed => []
    case Delivered(users) => users
  }

  /** `getUserByEmployeeId`: the user, or null on any failure. */
  function UserByEmployeeId(c: Call<Option<UserInfo>>): (r: Option<UserInfo>)
    ensures c.Failed? ==> r.None?
    ensures c.Delivered? ==> r == c.body
  {
    match c
    case Failed => None
    case Delivered(u) => u
  }

  /** The identity service as the leave service sees it, once the client has
      absorbed the failures. */
  datatype IdentityGateway = IdentityGateway(
    validateToken: string -> Option<UserInfo>,
    usersByDepartment: (int, string) -> seq<UserInfo>,
    userByEmployeeId: (string, string) -> Option<UserInfo>)

  /** The client over a transport. */
  function Client(t: Transport): (g: IdentityGateway)
    ensures forall token :: g.validateToken(token) == ValidateToken(t.validate(token))
    ensures forall d, token :: g.usersByDepartment(d, token) == UsersByDepartment(t.usersInDepartment(d, token))
    ensures forall e, token :: g.userByEmployeeId(e, token) == UserByEmployeeId(t.userWithEmployeeId(e, token))
  {
    IdentityGateway(
      token => ValidateToken(t.validate(token)),
      (d, token) => UsersByDepartment(t.usersInDepartment(d, token)),
      (e, token) => UserByEmployeeId(t.userWithEmployeeId(e, token)))
  }

  /** A transport whose every call fails. */
  function Down(): Transport {
    Transport(_ => Failed, (_, _) => Failed, (_, _) => Failed)
  }

  /** With the identity service down, nobody is validated, every department
      looks empty and every employee unknown. */
  lemma FailOpenWhenDown(token: string, d: int, e: string)
    ensures Client(Down()).validateToken(token).None?
    ensures Client(Down()).usersByDepartment(d, token) == []
    ensures Client(Down()).userByEmployeeId(e, token).None?
  {
  }
}
