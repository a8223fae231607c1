/** `SeedService.seedHrUser`: at start-up, make sure some HR user exists. */
module Seed {
  import opened Common
  import opened NestHttp
  import opened Users

  const SeedEmail := "hr@company.com"
  const SeedPassword := "admin123"
  const SeedEmployeeId := "HR001"

  /** `findOne({ where: { role: HR } })` finds a row. */
  predicate HasHr(us: UserTable) {
    exists i :: 0 <= i < |us| && us[i].role == Hr
  }

  /** The default HR user: active, without a department. */
  function SeedUser(bcrypt: Bcrypt, newId: string): User {
    User(newId, SeedEmail, bcrypt.hash(SeedPassword), SeedEmployeeId, None, Hr, true)
  }

  /** `seedHrUser`: nothing when an HR user exists; otherwise the default HR
      user is inserted. A failed insert is logged and swallowed, so the
      table is left as it was. */
  function SeedHrUser(us: UserTable, bcrypt: Bcrypt, newId: string): (r: UserTable)
    ensures HasHr(us) ==> r == us
    ensures !HasHr(us) && !HasUser(us, newId) && !EmailTaken(us, SeedEmail) && !EmployeeIdTaken(us, SeedEmployeeId) ==>
              r == us + [SeedUser(bcrypt, newId)]
    ensures r == us || r == us + [SeedUser(bcrypt, newId)]
    ensures r != us ==> HasHr(r) && !HasHr(us)
    ensures Unique(us) ==> Unique(r)
  {
    if HasHr(us) then us
    else
      match InsertRow(us, SeedUser(bcrypt, newId))
      case Ok(us') => us'
      case Err(_) => us
  }

  /** Seeding twice is seeding once (the database hands out a fresh id). */
  lemma {:induction false} SeedIsIdempotent(us: UserTable, bcrypt: Bcrypt, id1: string, id2: string)
    requires !HasUser(us, id1)
    ensures SeedHrUser(SeedHrUser(us, bcrypt, id1), bcrypt, id2) == SeedHrUser(us, bcrypt, id1)
  {
    var once := SeedHrUser(us, bcrypt, id1);
    if once != us {
      assert HasHr(once);
    } else if !HasHr(us) {
      assert EmailTaken(us, SeedEmail) || EmployeeIdTaken(us, SeedEmployeeId);
    }
  }

  /** After seeding, an HR user exists unless the default user's email or
      employee id is already held by a user of another role, in which case
      the failure is swallowed and there is still no HR user. */
  lemma SeedOutcome(us: UserTable, bcrypt: Bcrypt, newId: string)
    requires !HasUser(us, newId)
    ensures HasHr(SeedHrUser(us, bcrypt, newId)) <==>
              HasHr(us) || (!EmailTaken(us, SeedEmail) && !EmployeeIdTaken(us, SeedEmployeeId))
  {
    var r := SeedHrUser(us, bcrypt, newId);
    if !HasHr(us) && !EmailTaken(us, SeedEmail) && !EmployeeIdTaken(us, SeedEmployeeId) {
      assert r[|us|].role == Hr;
    }
  }
}
