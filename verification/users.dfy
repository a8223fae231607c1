/** `UsersService` of the identity service: the `users` table, its three
    unique columns, and the lookups whose select lists decide which columns
    a caller gets to see. Rows are never deleted, only deactivated. */
module Users {
  import opened Common
  import opened Tables
  import opened NestHttp

  /** `UserRole`, stored and signed as the lower-case string `RoleName`. */
  datatype Role = Hr | Hod | Employee

  function RoleName(r: Role): string {
    match r
    case Hr => "hr"
    case Hod => "hod"
    case Employee => "employee"
  }

  /** One row of `users`; `password` holds what bcrypt produced. The
      timestamp columns are not modelled. */
  datatype User = User(
    id: string,
    email: string,
    password: string,
    employeeId: string,
    departmentId: Option<int>,
    role: Role,
    isActive: bool)

  /** The table in the order the database returns it. */
  type UserTable = seq<User>

  /** bcrypt with the service's cost factor: hashing a password, and
      checking a password against a stored hash. */
  datatype Bcrypt = Bcrypt(hash: string -> string, compare: (string, string) -> bool)

  /** Every hash verifies against the password it was made from, and no hash
      is empty. */
  ghost predicate HashesVerify(b: Bcrypt) {
    forall p :: b.compare(p, b.hash(p)) && b.hash(p) != ""
  }

  /** The primary key and the two `unique` columns. */
  ghost predicate Unique(us: UserTable) {
    forall i, j :: 0 <= i < j < |us| ==>
      us[i].id != us[j].id && us[i].email != us[j].email && us[i].employeeId != us[j].employeeId
  }

  predicate HasUser(us: UserTable, id: string) {
    exists i :: 0 <= i < |us| && us[i].id == id
  }

  predicate EmployeeIdTaken(us: UserTable, employeeId: string) {
    exists i :: 0 <= i < |us| && us[i].employeeId == employeeId
  }

  predicate EmailTaken(us: UserTable, email: string) {
    exists i :: 0 <= i < |us| && us[i].email == email
  }

  /** A row as a query returns it: a column the select list leaves out is
      `None`. `id`, `email`, `employeeId`, `departmentId` and `role` are in
      every select list of the service. */
  datatype Record = Record(
    id: string,
    email: string,
    employeeId: string,
    departmentId: Option<int>,
    role: Role,
    isActive: Option<bool>,
    password: Option<string>)

  function Selected(u: User, withActive: bool, withPassword: bool): Record {
    Record(u.id, u.email, u.employeeId, u.departmentId, u.role,
           if withActive then Some(u.isActive) else None,
           if withPassword then Some(u.password) else None)
  }

  /** Under the unique columns, the first row with a key is the only one. */
  lemma FirstIsTheOne(us: UserTable, i: int, p: User -> bool)
    requires 0 <= i < |us| && p(us[i])
    requires forall j :: 0 <= j < |us| && j != i ==> !p(us[j])
    ensures First(us, p) == Some(us[i])
  {
  }

  function ById(id: string): User -> bool {
    (u: User) => u.id == id
  }

  function ByEmployeeId(employeeId: string): User -> bool {
    (u: User) => u.employeeId == employeeId
  }

  lemma LookupById(us: UserTable, id: string)
    ensures Unique(us) ==> forall i :: 0 <= i < |us| && us[i].id == id ==> First(us, ById(id)) == Some(us[i])
  {
    if Unique(us) {
      forall i | 0 <= i < |us| && us[i].id == id
        ensures First(us, ById(id)) == Some(us[i])
      {
        FirstIsTheOne(us, i, ById(id));
      }
    }
  }

  lemma LookupByEmployeeId(us: UserTable, employeeId: string)
    ensures Unique(us) ==> forall i :: 0 <= i < |us| && us[i].employeeId == employeeId ==>
                                         First(us, ByEmployeeId(employeeId)) == Some(us[i])
  {
    if Unique(us) {
      forall i | 0 <= i < |us| && us[i].employeeId == employeeId
        ensures First(us, ByEmployeeId(employeeId)) == Some(us[i])
      {
        FirstIsTheOne(us, i, ByEmployeeId(employeeId));
      }
    }
  }

  // ---------------------------------------------------------------------
  // Lookups
  // ---------------------------------------------------------------------

  /** `findOne(id)`: everything but the password. */
  function FindOne(us: UserTable, id: string): (r: Option<Record>)
    ensures r.Some? <==> HasUser(us, id)
    ensures r.Some? ==> r.value.id == id && r.value.isActive.Some? && r.value.password.None?
    ensures Unique(us) ==> forall i :: 0 <= i < |us| && us[i].id == id ==> r == Some(Selected(us[i], true, false))
  {
    LookupById(us, id);
    match First(us, ById(id))
    case None => None
    case Some(u) => Some(Selected(u, true, false))
  }

  /** `findByEmployeeId`: the select list leaves out `password`. */
  function FindByEmployeeId(us: UserTable, employeeId: string): (r: Option<Record>)
    ensures r.Some? <==> EmployeeIdTaken(us, employeeId)
    ensures r.Some? ==> r.value.employeeId == employeeId && r.value.isActive.Some? && r.value.password.None?
    ensures Unique(us) ==> forall i :: 0 <= i < |us| && us[i].employeeId == employeeId ==>
                                         r == Some(Selected(us[i], true, false))
  {
    LookupByEmployeeId(us, employeeId);
    match First(us, ByEmployeeId(employeeId))
    case None => None
    case Some(u) => Some(Selected(u, true, false))
  }

  /** `findByEmployeeIdWithPassword`: the same row with its stored hash. */
  function FindByEmployeeIdWithPassword(us: UserTable, employeeId: string): (r: Option<Record>)
    ensures r.Some? <==> EmployeeIdTaken(us, employeeId)
    ensures r.Some? ==> r.value.employeeId == employeeId && r.value.isActive.Some? && r.value.password.Some?
    ensures Unique(us) ==> forall i :: 0 <= i < |us| && us[i].employeeId == employeeId ==>
                                         r == Some(Selected(us[i], true, true))
  {
    LookupByEmployeeId(us, employeeId);
    match First(us, ByEmployeeId(employeeId))
    case None => None
    case Some(u) => Some(Selected(u, true, true))
  }

  /** `findByDepartment`: every user of the department, active or not, with
      neither `isActive` nor `password` selected. */
  function FindByDepartment(us: UserTable, departmentId: int): (r: seq<Record>)
    ensures forall k :: 0 <= k < |r| ==>
              r[k].departmentId == Some(departmentId) && r[k].isActive.None? && r[k].password.None?
    ensures forall k :: 0 <= k < |r| ==> exists i :: 0 <= i < |us| && r[k] == Selected(us[i], false, false)
    ensures forall i :: 0 <= i < |us| && us[i].departmentId == Some(departmentId) ==>
              Selected(us[i], false, false) in r
  {
    var members := Filter(us, (u: User) => u.departmentId == Some(departmentId));
    var r := seq(|members|, k requires 0 <= k < |members| => Selected(members[k], false, false));
    SelectedMembers(members, r);
    r
  }

  lemma SelectedMembers(members: seq<User>, r: seq<Record>)
    requires |r| == |members| && forall k :: 0 <= k < |r| ==> r[k] == Selected(members[k], false, false)
    ensures forall u :: u in members ==> Selected(u, false, false) in r
  {
    forall u | u in members
      ensures Selected(u, false, false) in r
    {
      var k :| 0 <= k < |members| && members[k] == u;
      assert r[k] == Selected(u, false, false);
    }
  }

  // ---------------------------------------------------------------------
  // Writes
  // ---------------------------------------------------------------------

  /** An insert of `u` that some unique column of another row refuses. */
  predicate Clashes(us: UserTable, u: User) {
    exists i :: 0 <= i < |us| && (us[i].id == u.id || us[i].email == u.email || us[i].employeeId == u.employeeId)
  }

  /** `save` of a new entity: an INSERT, which a taken unique column makes
      fail with a database error. */
  function InsertRow(us: UserTable, u: User): (r: Result<UserTable, HttpException>)
    ensures r.Ok? <==> !HasUser(us, u.id) && !EmailTaken(us, u.email) && !EmployeeIdTaken(us, u.employeeId)
    ensures r.Err? ==> r.error == InternalServerError
    ensures r.Ok? ==> |r.value| == |us| + 1 && r.value[..|us|] == us && r.value[|us|] == u
    ensures r.Ok? && Unique(us) ==> Unique(r.value)
  {
    if Clashes(us, u) then Err(InternalServerError) else Ok(us + [u])
  }

  datatype CreateUserDto = CreateUserDto(
    email: string,
    password: string,
    employeeId: string,
    role: Role,
    departmentId: Option<int>)

  const EmployeeIdExists := "Employee ID already exists"

  /** `create`: refuses a taken employee id, stores the hash of the password
      in a new active row (`newId` is the uuid the database generates), and
      answers the row without its password. */
  function Create(us: UserTable, bcrypt: Bcrypt, dto: CreateUserDto, newId: string): (r: Effect<UserTable, Record>)
    ensures r.result.Err? ==> r.state == us
    ensures EmployeeIdTaken(us, dto.employeeId) ==> r.result == Err(Conflict(EmployeeIdExists))
    ensures !EmployeeIdTaken(us, dto.employeeId) && r.result.Err? ==> r.result.error == InternalServerError
    ensures r.result.Ok? <==> !EmployeeIdTaken(us, dto.employeeId) && !EmailTaken(us, dto.email) && !HasUser(us, newId)
    ensures r.result.Ok? ==>
              && |r.state| == |us| + 1 && r.state[..|us|] == us
              && r.state[|us|] == User(newId, dto.email, bcrypt.hash(dto.password), dto.employeeId,
                                       dto.departmentId, dto.role, true)
              && r.result.value == Record(newId, dto.email, dto.employeeId, dto.departmentId, dto.role, Some(true), None)
    ensures Unique(us) ==> Unique(r.state)
  {
    if FindByEmployeeId(us, dto.employeeId).Some? then
      Effect(us, Err(Conflict(EmployeeIdExists)))
    else
      var u := User(newId, dto.email, bcrypt.hash(dto.password), dto.employeeId, dto.departmentId, dto.role, true);
      match InsertRow(us, u)
      case Err(e) => Effect(us, Err(e))
      case Ok(us') => Effect(us', Ok(Selected(u, true, false)))
  }

  /** The body of `PATCH`-style updates: the optional counterparts of
      `CreateUserDto`'s fields; `None` is a field the body leaves undefined. */
  datatype UpdateUserDto = UpdateUserDto(
    email: Option<string>,
    password: Option<string>,
    employeeId: Option<string>,
    role: Option<Role>,
    departmentId: Option<int>)

  function NotFoundMessage(id: string): string {
    "User with ID " + id + " not found"
  }

  /** `dto` after `update`'s first step: only a truthy (non-empty) password
      is replaced by its hash. */
  function Rehashed(bcrypt: Bcrypt, dto: UpdateUserDto): UpdateUserDto {
    if dto.password.Some? && dto.password.value != "" then dto.(password := Some(bcrypt.hash(dto.password.value)))
    else dto
  }

  /** A row after `repository.update` has written the defined fields. */
  function Patched(u: User, dto: UpdateUserDto): User {
    User(u.id, dto.email.GetOr(u.email), dto.password.GetOr(u.password), dto.employeeId.GetOr(u.employeeId),
         if dto.departmentId.Some? then dto.departmentId else u.departmentId, dto.role.GetOr(u.role), u.isActive)
  }

  /** The table with `f` applied to the rows whose id is `id`. */
  function Rewrite(us: UserTable, id: string, f: User -> User): (r: UserTable)
    ensures |r| == |us|
    ensures forall i :: 0 <= i < |us| ==> r[i] == if us[i].id == id then f(us[i]) else us[i]
  {
    seq(|us|, i requires 0 <= i < |us| => if us[i].id == id then f(us[i]) else us[i])
  }

  /** A row other than `id`'s that already has `u`'s email or employee id. */
  predicate ClashesWithOthers(us: UserTable, id: string, u: User) {
    exists i :: 0 <= i < |us| && us[i].id != id && (us[i].email == u.email || us[i].employeeId == u.employeeId)
  }

  /** `update`: writes the defined fields (the password re-hashed when it is
      non-empty), 404 when no row has the id; a taken email or employee id
      is a database error. */
  function Update(us: UserTable, bcrypt: Bcrypt, id: string, dto: UpdateUserDto): (r: Effect<UserTable, Record>)
    ensures r.result.Err? ==> r.state == us
    ensures !HasUser(us, id) ==> r.result == Err(NotFound(NotFoundMessage(id)))
    ensures HasUser(us, id) && r.result.Err? ==> r.result.error == InternalServerError
    ensures r.result.Ok? ==> |r.state| == |us|
    ensures r.result.Ok? ==> forall i :: 0 <= i < |us| && us[i].id != id ==> r.state[i] == us[i]
    ensures r.result.Ok? ==> forall i :: 0 <= i < |us| && us[i].id == id ==>
              var u := r.state[i];
              && u.id == id && u.isActive == us[i].isActive
              && u.email == dto.email.GetOr(us[i].email)
              && u.employeeId == dto.employeeId.GetOr(us[i].employeeId)
              && u.role == dto.role.GetOr(us[i].role)
              && u.departmentId == (if dto.departmentId.Some? then dto.departmentId else us[i].departmentId)
              && (dto.password.None? ==> u.password == us[i].password)
              && (dto.password == Some("") ==> u.password == "")
              && (dto.password.Some? && dto.password.value != "" ==> u.password == bcrypt.hash(dto.password.value))
    ensures r.result.Ok? ==> r.result.value.id == id && r.result.value.password.None?
    ensures Unique(us) ==> Unique(r.state)
    ensures Unique(us) && r.result.Ok? ==> Some(r.result.value) == FindOne(r.state, id)
  {
    var dto' := Rehashed(bcrypt, dto);
    match First(us, ById(id))
    case None => Effect(us, Err(NotFound(NotFoundMessage(id))))
    case Some(u) =>
      var u' := Patched(u, dto');
      if ClashesWithOthers(us, id, u') then Effect(us, Err(InternalServerError))
      else
        var us' := Rewrite(us, id, (v: User) => Patched(v, dto'));
        UpdateKeepsUnique(us, id, u, dto');
        Effect(us', Ok(Selected(u', true, false)))
  }

  lemma UpdateKeepsUnique(us: UserTable, id: string, u: User, dto: UpdateUserDto)
    requires First(us, ById(id)) == Some(u)
    requires !ClashesWithOthers(us, id, Patched(u, dto))
    ensures var us' := Rewrite(us, id, (v: User) => Patched(v, dto));
            && (Unique(us) ==> Unique(us'))
            && (Unique(us) ==> FindOne(us', id) == Some(Selected(Patched(u, dto), true, false)))
  {
    var us' := Rewrite(us, id, (v: User) => Patched(v, dto));
    if Unique(us) {
      var k :| 0 <= k < |us| && us[k] == u && us[k].id == id;
      forall i, j | 0 <= i < j < |us|
        ensures us'[i].id != us'[j].id && us'[i].email != us'[j].email && us'[i].employeeId != us'[j].employeeId
      {
        if us[i].id == id {
          assert i == k;
        } else if us[j].id == id {
          assert j == k;
        }
      }
      assert us'[k] == Patched(u, dto);
    }
  }

  /** `remove`: 404 for an unknown id, otherwise the row stays and is
      deactivated. */
  function Remove(us: UserTable, id: string): (r: Effect<UserTable, ()>)
    ensures !HasUser(us, id) ==> r == Effect(us, Err(NotFound(NotFoundMessage(id))))
    ensures HasUser(us, id) ==> r.result.Ok?
    ensures |r.state| == |us|
    ensures forall i :: 0 <= i < |us| ==> r.state[i] == if us[i].id == id then us[i].(isActive := false) else us[i]
    ensures Unique(us) ==> Unique(r.state)
  {
    if FindOne(us, id).None? then Effect(us, Err(NotFound(NotFoundMessage(id))))
    else Effect(Rewrite(us, id, (u: User) => u.(isActive := false)), Ok(()))
  }

  /** Removing keeps the employee id taken: it cannot be registered again. */
  lemma RemovedEmployeeIdStaysTaken(us: UserTable, bcrypt: Bcrypt, id: string, dto: CreateUserDto, newId: string)
    requires exists i :: 0 <= i < |us| && us[i].id == id && us[i].employeeId == dto.employeeId
    ensures Create(Remove(us, id).state, bcrypt, dto, newId).result == Err(Conflict(EmployeeIdExists))
  {
    var i :| 0 <= i < |us| && us[i].id == id && us[i].employeeId == dto.employeeId;
    assert Remove(us, id).state[i].employeeId == dto.employeeId;
  }

  /** Removing twice is removing once. */
  lemma RemoveIsIdempotent(us: UserTable, id: string)
    requires HasUser(us, id)
    ensures Remove(Remove(us, id).state, id) == Remove(us, id)
  {
    var i :| 0 <= i < |us| && us[i].id == id;
    var s1 := Remove(us, id).state;
    assert s1[i].id == id;
    var s2 := Remove(s1, id).state;
    forall k | 0 <= k < |s1|
      ensures s2[k] == s1[k]
    {
    }
    assert s2 == s1;
  }

  /** A removed user is still listed with the department. */
  lemma RemovedUserStillInDepartment(us: UserTable, i: int, departmentId: int)
    requires 0 <= i < |us| && us[i].departmentId == Some(departmentId)
    ensures Selected(us[i], false, false) in FindByDepartment(Remove(us, us[i].id).state, departmentId)
  {
    var us' := Remove(us, us[i].id).state;
    assert Selected(us'[i], false, false) == Selected(us[i], false, false);
  }
}
