/** `AuthService`, `JwtStrategy` and `AuthController` of the identity
    service: login, registration, the token checks, and the two user lookups
    the leave service calls with its callers' tokens. */
module Auth {
  import opened Common
  import opened NestHttp
  import opened Users

  /** The JWT payload `generateToken` signs. */
  datatype Claims = Claims(
    sub: string,
    employeeId: string,
    email: string,
    role: string,
    departmentId: Option<int>,
    isActive: Option<bool>)

  /** The `user` object of a token reply: the payload without `isActive`. */
  datatype PublicUser = PublicUser(id: string, employeeId: string, email: string, role: string, departmentId: Option<int>)

  datatype TokenReply = TokenReply(accessToken: string, user: PublicUser)

  /** `JwtService`: signing a payload, and verifying a token's signature and
      expiry, which either yields the payload or fails with a message. */
  datatype Jwt = Jwt(sign: Claims -> string, verify: string -> Result<Claims, string>)

  /** A token verifies to the payload it was signed from (while unexpired). */
  ghost predicate Sound(jwt: Jwt) {
    forall c :: jwt.verify(jwt.sign(c)) == Ok(c)
  }

  function Payload(rec: Record): Claims {
    Claims(rec.id, rec.employeeId, rec.email, RoleName(rec.role), rec.departmentId, rec.isActive)
  }

  /** `generateToken`: the token carries `isActive`; the user in the reply
      does not. */
  function GenerateToken(jwt: Jwt, rec: Record): (r: TokenReply)
    ensures r.user == PublicUser(rec.id, rec.employeeId, rec.email, RoleName(rec.role), rec.departmentId)
    ensures Sound(jwt) ==>
              jwt.verify(r.accessToken) == Ok(Claims(r.user.id, r.user.employeeId, r.user.email, r.user.role,
                                                     r.user.departmentId, rec.isActive))
  {
    var c := Payload(rec);
    TokenReply(jwt.sign(c), PublicUser(c.sub, c.employeeId, c.email, c.role, c.departmentId))
  }

  // ---------------------------------------------------------------------
  // The guard: JwtAuthGuard running JwtStrategy
  // ---------------------------------------------------------------------

  /** `req.user` as `JwtStrategy.validate` builds it from the payload. */
  datatype Principal = Principal(
    userId: string,
    employeeId: string,
    email: string,
    role: string,
    departmentId: Option<int>,
    isActive: Option<bool>)

  const DeactivatedToken := "User account is deactivated"

  /** `JwtStrategy.validate`: a payload whose `isActive` is not true is
      refused; otherwise the payload becomes the principal unchanged. */
  function ValidatePayload(c: Claims): (r: Result<Principal, HttpException>)
    ensures r.Ok? <==> c.isActive == Some(true)
    ensures r.Err? ==> r.error == Unauthorized(DeactivatedToken)
    ensures r.Ok? ==> r.value.userId == c.sub && r.value.employeeId == c.employeeId && r.value.email == c.email
                      && r.value.role == c.role && r.value.departmentId == c.departmentId
                      && r.value.isActive == Some(true)
  {
    if c.isActive != Some(true) then Err(Unauthorized(DeactivatedToken))
    else Ok(Principal(c.sub, c.employeeId, c.email, c.role, c.departmentId, c.isActive))
  }

  /** `JwtAuthGuard` on the bearer token of a request (`None` when there is
      none): a missing or unverifiable token is a plain 401. The users table
      is not consulted. */
  function Guard(jwt: Jwt, token: Option<string>): (r: Result<Principal, HttpException>)
    ensures r.Err? ==> r.error.Unauthorized?
    ensures r.Ok? <==> token.Some? && jwt.verify(token.value).Ok? && jwt.verify(token.value).value.isActive == Some(true)
    ensures token.None? || jwt.verify(token.value).Err? ==> r == Err(Unauthorized(GuardUnauthorized))
    ensures token.Some? && jwt.verify(token.value).Ok? ==> r == ValidatePayload(jwt.verify(token.value).value)
  {
    match token
    case None => Err(Unauthorized(GuardUnauthorized))
    case Some(t) =>
      match jwt.verify(t)
      case Err(_) => Err(Unauthorized(GuardUnauthorized))
      case Ok(c) => ValidatePayload(c)
  }

  // ---------------------------------------------------------------------
  // login
  // ---------------------------------------------------------------------

  datatype LoginDto = LoginDto(employeeId: string, password: string)

  const InvalidCredentials := "Invalid credentials"
  const AccountDeactivated := "Account is deactivated"
  const DummyHash := "$2b$12$dummyHashToPreventTimingAttack"

  /** The hash `login` compares against: the record's password when it is
      present and non-empty, the dummy hash otherwise. */
  function HashToCompare(rec: Record): string {
    if rec.password.Some? && rec.password.value != "" then rec.password.value else DummyHash
  }

  /** The checks of `login` on the record a lookup found: unknown user, then
      the password, then the activity flag. */
  function CheckCredentials(found: Option<Record>, bcrypt: Bcrypt, jwt: Jwt, password: string)
    : (r: Result<TokenReply, HttpException>)
    ensures found.None? ==> r == Err(Unauthorized(InvalidCredentials))
    ensures found.Some? && !bcrypt.compare(password, HashToCompare(found.value)) ==> r == Err(Unauthorized(InvalidCredentials))
    ensures found.Some? && bcrypt.compare(password, HashToCompare(found.value)) && found.value.isActive != Some(true) ==>
              r == Err(Forbidden(AccountDeactivated))
    ensures r.Ok? ==> found.Some? && found.value.isActive == Some(true) && r.value == GenerateToken(jwt, found.value)
  {
    match found
    case None => Err(Unauthorized(InvalidCredentials))
    case Some(rec) =>
      if !bcrypt.compare(password, HashToCompare(rec)) then Err(Unauthorized(InvalidCredentials))
      else if rec.isActive != Some(true) then Err(Forbidden(AccountDeactivated))
      else Ok(GenerateToken(jwt, rec))
  }

  /** `login` as written: the record comes from `findByEmployeeId`, whose
      select list has no password, so the comparison is always against the
      dummy hash. */
  function Login(us: UserTable, bcrypt: Bcrypt, jwt: Jwt, dto: LoginDto): (r: Result<TokenReply, HttpException>)
    ensures !EmployeeIdTaken(us, dto.employeeId) ==> r == Err(Unauthorized(InvalidCredentials))
    ensures EmployeeIdTaken(us, dto.employeeId) && !bcrypt.compare(dto.password, DummyHash) ==>
              r == Err(Unauthorized(InvalidCredentials))
    ensures r.Ok? ==> bcrypt.compare(dto.password, DummyHash)
  {
    CheckCredentials(FindByEmployeeId(us, dto.employeeId), bcrypt, jwt, dto.password)
  }

  /** With a bcrypt that rejects the malformed dummy hash for every
      password, nobody can log in. */
  lemma LoginNeverSucceeds(us: UserTable, bcrypt: Bcrypt, jwt: Jwt, dto: LoginDto)
    requires forall p :: !bcrypt.compare(p, DummyHash)
    ensures Login(us, bcrypt, jwt, dto) == Err(Unauthorized(InvalidCredentials))
  {
  }

  /** `login` as evidently intended: the record comes from
      `findByEmployeeIdWithPassword`, so the stored hash is checked. */
  function LoginWithStoredHash(us: UserTable, bcrypt: Bcrypt, jwt: Jwt, dto: LoginDto)
    : (r: Result<TokenReply, HttpException>)
    ensures !EmployeeIdTaken(us, dto.employeeId) ==> r == Err(Unauthorized(InvalidCredentials))
    ensures Unique(us) ==> forall i :: 0 <= i < |us| && us[i].employeeId == dto.employeeId && us[i].password != "" ==>
              && (r.Ok? <==> bcrypt.compare(dto.password, us[i].password) && us[i].isActive)
              && (!bcrypt.compare(dto.password, us[i].password) ==> r == Err(Unauthorized(InvalidCredentials)))
              && (bcrypt.compare(dto.password, us[i].password) && !us[i].isActive ==> r == Err(Forbidden(AccountDeactivated)))
              && (r.Ok? ==> r.value == GenerateToken(jwt, Selected(us[i], true, false)))
  {
    CheckCredentials(FindByEmployeeIdWithPassword(us, dto.employeeId), bcrypt, jwt, dto.password)
  }

  /** A user just created logs in with the password they were created with,
      and gets the token registration would have answered. */
  lemma CreatedUserCanLogIn(us: UserTable, bcrypt: Bcrypt, jwt: Jwt, dto: CreateUserDto, newId: string)
    requires HashesVerify(bcrypt) && Unique(us)
    requires Create(us, bcrypt, dto, newId).result.Ok?
    ensures var c := Create(us, bcrypt, dto, newId);
            LoginWithStoredHash(c.state, bcrypt, jwt, LoginDto(dto.employeeId, dto.password))
              == Ok(GenerateToken(jwt, c.result.value))
  {
    var c := Create(us, bcrypt, dto, newId);
    var i := |us|;
    assert c.state[i].employeeId == dto.employeeId && c.state[i].password == bcrypt.hash(dto.password);
    assert bcrypt.compare(dto.password, bcrypt.hash(dto.password));
  }

  /** After `remove`, the right password earns a 403, not a token. */
  lemma RemovedUserCannotLogIn(us: UserTable, bcrypt: Bcrypt, jwt: Jwt, i: int, password: string)
    requires Unique(us) && 0 <= i < |us| && us[i].password != ""
    requires bcrypt.compare(password, us[i].password)
    ensures LoginWithStoredHash(Remove(us, us[i].id).state, bcrypt, jwt, LoginDto(us[i].employeeId, password))
              == Err(Forbidden(AccountDeactivated))
  {
    var us' := Remove(us, us[i].id).state;
    assert us'[i] == us[i].(isActive := false);
  }

  // ---------------------------------------------------------------------
  // register
  // ---------------------------------------------------------------------

  datatype RegisterDto = RegisterDto(
    email: string,
    password: string,
    employeeId: string,
    role: Role,
    departmentId: Option<int>)

  const OnlyHrRegisters := "Only HR can register users"
  const HodNeedsDepartment := "HOD must be assigned to a department"
  const EmployeeNeedsDepartment := "Employee must be assigned to a department"

  /** JavaScript truthiness of a department id: absent and 0 are falsy. */
  predicate Truthy(departmentId: Option<int>) {
    departmentId.Some? && departmentId.value != 0
  }

  function AsCreateDto(dto: RegisterDto): CreateUserDto {
    CreateUserDto(dto.email, dto.password, dto.employeeId, dto.role, dto.departmentId)
  }

  /** `register`: the caller's role must be exactly "hr"; a HOD or employee
      needs a truthy department; then `create` and a token for the new user. */
  function Register(us: UserTable, bcrypt: Bcrypt, jwt: Jwt, dto: RegisterDto, hrUser: Principal, newId: string)
    : (r: Effect<UserTable, TokenReply>)
    ensures r.result.Err? ==> r.state == us
    ensures hrUser.role != "hr" ==> r.result == Err(Forbidden(OnlyHrRegisters))
    ensures hrUser.role == "hr" && dto.role == Hod && !Truthy(dto.departmentId) ==>
              r.result == Err(Forbidden(HodNeedsDepartment))
    ensures hrUser.role == "hr" && dto.role == Employee && !Truthy(dto.departmentId) ==>
              r.result == Err(Forbidden(EmployeeNeedsDepartment))
    ensures hrUser.role == "hr" && (dto.role == Hr || Truthy(dto.departmentId)) ==>
              && r.state == Create(us, bcrypt, AsCreateDto(dto), newId).state
              && (r.result.Ok? <==> Create(us, bcrypt, AsCreateDto(dto), newId).result.Ok?)
              && (r.result.Err? ==> r.result == Create(us, bcrypt, AsCreateDto(dto), newId).result.PropagateFailure())
    ensures r.result.Ok? ==>
              && r.result.value.user == PublicUser(newId, dto.employeeId, dto.email, RoleName(dto.role), dto.departmentId)
              && (dto.role != Hr ==> Truthy(r.result.value.user.departmentId))
              && |r.state| == |us| + 1 && r.state[|us|].isActive
    ensures Unique(us) ==> Unique(r.state)
  {
    if hrUser.role != "hr" then Effect(us, Err(Forbidden(OnlyHrRegisters)))
    else if dto.role == Hod && !Truthy(dto.departmentId) then Effect(us, Err(Forbidden(HodNeedsDepartment)))
    else if dto.role == Employee && !Truthy(dto.departmentId) then Effect(us, Err(Forbidden(EmployeeNeedsDepartment)))
    else
      var c := Create(us, bcrypt, AsCreateDto(dto), newId);
      match c.result
      case Err(e) => Effect(c.state, Err(e))
      case Ok(rec) => Effect(c.state, Ok(GenerateToken(jwt, rec)))
  }

  // ---------------------------------------------------------------------
  // validateToken (the service method; no endpoint calls it)
  // ---------------------------------------------------------------------

  datatype TokenCheck = Valid(user: PublicUser) | Invalid(error: string)

  const InvalidOrInactive := "Invalid or inactive user"

  /** `AuthService.validateToken`: never throws; unlike the guard it looks
      the subject up and refuses a missing or deactivated user. */
  function ValidateToken(us: UserTable, jwt: Jwt, token: string): (r: TokenCheck)
    ensures jwt.verify(token).Err? ==> r == Invalid(jwt.verify(token).error)
    ensures jwt.verify(token).Ok? && !HasUser(us, jwt.verify(token).value.sub) ==> r == Invalid(InvalidOrInactive)
    ensures Unique(us) && jwt.verify(token).Ok? ==>
              forall i :: 0 <= i < |us| && us[i].id == jwt.verify(token).value.sub ==>
                && (r.Valid? <==> us[i].isActive)
                && (!us[i].isActive ==> r == Invalid(InvalidOrInactive))
                && (r.Valid? ==> r.user == PublicUser(us[i].id, us[i].employeeId, us[i].email,
                                                      RoleName(us[i].role), us[i].departmentId))
  {
    match jwt.verify(token)
    case Err(message) => Invalid(message)
    case Ok(c) =>
      match FindOne(us, c.sub)
      case None => Invalid(InvalidOrInactive)
      case Some(rec) =>
        if rec.isActive != Some(true) then Invalid(InvalidOrInactive)
        else Valid(PublicUser(rec.id, rec.employeeId, rec.email, RoleName(rec.role), rec.departmentId))
  }

  // ---------------------------------------------------------------------
  // AuthController
  // ---------------------------------------------------------------------

  /** `POST /auth/register` behind `JwtAuthGuard` and `RolesGuard` with
      `@Roles(UserRole.HR)`; the roles guard compares the role exactly. */
  function RegisterEndpoint(us: UserTable, bcrypt: Bcrypt, jwt: Jwt, token: Option<string>, dto: RegisterDto, newId: string)
    : (r: Effect<UserTable, TokenReply>)
    ensures r.result.Err? ==> r.state == us
    ensures Guard(jwt, token).Err? ==> r.result == Err(Guard(jwt, token).error)
    ensures Guard(jwt, token).Ok? && Guard(jwt, token).value.role != "hr" ==> r.result == Err(Forbidden(GuardForbidden))
    ensures Guard(jwt, token).Ok? && Guard(jwt, token).value.role == "hr" ==>
              r == Register(us, bcrypt, jwt, dto, Guard(jwt, token).value, newId)
  {
    match Guard(jwt, token)
    case Err(e) => Effect(us, Err(e))
    case Ok(p) =>
      if p.role != "hr" then Effect(us, Err(Forbidden(GuardForbidden)))
      else Register(us, bcrypt, jwt, dto, p, newId)
  }

  /** The statuses of `POST /auth/register`, in the order the checks run. */
  lemma RegisterStatus(us: UserTable, bcrypt: Bcrypt, jwt: Jwt, token: Option<string>, dto: RegisterDto, newId: string)
    ensures var r := RegisterEndpoint(us, bcrypt, jwt, token, dto, newId).result;
            var caller := Guard(jwt, token);
            if caller.Err? then r.Err? && StatusOf(r.error) == 401
            else if caller.value.role != "hr" then r.Err? && StatusOf(r.error) == 403
            else if dto.role != Hr && !Truthy(dto.departmentId) then r.Err? && StatusOf(r.error) == 403
            else if EmployeeIdTaken(us, dto.employeeId) then r.Err? && StatusOf(r.error) == 409
            else if EmailTaken(us, dto.email) || HasUser(us, newId) then r.Err? && StatusOf(r.error) == 500
            else r.Ok?
  {
  }

  /** The service's own "Only HR" refusal never reaches a client: the roles
      guard has turned every such caller away first. */
  lemma ServiceHrCheckUnreachable(us: UserTable, bcrypt: Bcrypt, jwt: Jwt, token: Option<string>, dto: RegisterDto, newId: string)
    ensures RegisterEndpoint(us, bcrypt, jwt, token, dto, newId).result != Err(Forbidden(OnlyHrRegisters))
  {
  }

  /** The body of `GET /auth/validate`. */
  datatype ValidateBody = ValidateBody(valid: bool, user: Principal)

  /** `GET /auth/validate`: the guard's principal, i.e. the token's payload;
      `AuthService.validateToken` is not called. */
  function ValidateEndpoint(jwt: Jwt, token: Option<string>): (r: Result<ValidateBody, HttpException>)
    ensures r.Ok? <==> Guard(jwt, token).Ok?
    ensures r.Ok? ==> r.value.valid && r.value.user == Guard(jwt, token).value
    ensures r.Err? ==> StatusOf(r.error) == 401
  {
    match Guard(jwt, token)
    case Err(e) => Err(e)
    case Ok(p) => Ok(ValidateBody(true, p))
  }

  /** A token issued before `remove` keeps validating at the endpoint, which
      reads only the token, while the service method would refuse it. */
  lemma DeactivatedUserKeepsValidating(us: UserTable, jwt: Jwt, i: int)
    requires Sound(jwt) && Unique(us) && 0 <= i < |us| && us[i].isActive
    ensures var token := GenerateToken(jwt, Selected(us[i], true, false)).accessToken;
            var us' := Remove(us, us[i].id).state;
            && ValidateToken(us, jwt, token).Valid?
            && ValidateToken(us', jwt, token) == Invalid(InvalidOrInactive)
            && ValidateEndpoint(jwt, Some(token)).Ok?
            && ValidateEndpoint(jwt, Some(token)).value.user.isActive == Some(true)
  {
    var us' := Remove(us, us[i].id).state;
    assert us'[i] == us[i].(isActive := false);
  }

  const DepartmentViewForbidden := "Only HR and HOD can view users by department"

  /** `GET /auth/users/department/:departmentId`: the role must be exactly
      "hr" or "hod", compared case-sensitively. */
  function UsersByDepartmentEndpoint(us: UserTable, jwt: Jwt, token: Option<string>, departmentId: int)
    : (r: Result<seq<Record>, HttpException>)
    ensures Guard(jwt, token).Err? ==> r == Err(Guard(jwt, token).error)
    ensures Guard(jwt, token).Ok? ==>
              (r.Ok? <==> Guard(jwt, token).value.role == "hr" || Guard(jwt, token).value.role == "hod")
    ensures Guard(jwt, token).Ok? && r.Err? ==> r.error == Forbidden(DepartmentViewForbidden)
    ensures r.Ok? ==> r.value == FindByDepartment(us, departmentId)
  {
    match Guard(jwt, token)
    case Err(e) => Err(e)
    case Ok(p) =>
      if p.role != "hr" && p.role != "hod" then Err(Forbidden(DepartmentViewForbidden))
      else Ok(FindByDepartment(us, departmentId))
  }

  /** The department list as the leave service needs it: every authenticated
      caller may read it, as with the lookup by employee id below. */
  function DepartmentListForAnyCaller(us: UserTable, jwt: Jwt, token: Option<string>, departmentId: int)
    : (r: Result<seq<Record>, HttpException>)
    ensures r.Ok? <==> Guard(jwt, token).Ok?
    ensures r.Err? ==> r == Err(Guard(jwt, token).error)
    ensures r.Ok? ==> r.value == FindByDepartment(us, departmentId)
  {
    match Guard(jwt, token)
    case Err(e) => Err(e)
    case Ok(_) => Ok(FindByDepartment(us, departmentId))
  }

  /** The department list is refused to an employee's token, and to a token
      whose role differs from "hod" only in case. */
  lemma DepartmentListRefusals(us: UserTable, jwt: Jwt, token: string, departmentId: int)
    requires jwt.verify(token).Ok? && jwt.verify(token).value.isActive == Some(true)
    requires jwt.verify(token).value.role in {"employee", "HOD", "Hr"}
    ensures UsersByDepartmentEndpoint(us, jwt, Some(token), departmentId) == Err(Forbidden(DepartmentViewForbidden))
  {
  }

  /** `GET /auth/users/employee/:employeeId`: any authenticated caller. */
  function UserByEmployeeIdEndpoint(us: UserTable, jwt: Jwt, token: Option<string>, employeeId: string)
    : (r: Result<Option<Record>, HttpException>)
    ensures r.Ok? <==> Guard(jwt, token).Ok?
    ensures r.Err? ==> r == Err(Guard(jwt, token).error)
    ensures r.Ok? ==> r.value == FindByEmployeeId(us, employeeId)
    ensures r.Ok? && r.value.Some? ==> r.value.value.password.None?
  {
    match Guard(jwt, token)
    case Err(e) => Err(e)
    case Ok(_) => Ok(FindByEmployeeId(us, employeeId))
  }
}
