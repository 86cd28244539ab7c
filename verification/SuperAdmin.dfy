/** Invariants of the RBAC tables over every run of the endpoints, restarts included. */
module SuperAdmin {
  import opened Wrappers
  import opened Records
  import opened Endpoints
  import Crud
  import Seeding
  import DefaultRoles

  // ---------------------------------------------------------------- constraints

  lemma RoleWriteStaysConsistent(db: Database, req: Request)
    requires Crud.Consistent(db) && FreshIds(db, req)
    requires IsRoleWrite(req)
    ensures Crud.Consistent(PlanOf(db, req).db)
  {
    if req.DeleteRole? {
      assert forall u :: u in Crud.UsersOf(db, req.id) <==> u in db.users && db.users[u].roleId == req.id;
    }
  }

  lemma UserRowStaysConsistent(db: Database, req: Request)
    requires Crud.Consistent(db) && FreshIds(db, req)
    requires req.CreateUser? || req.UpdateUser?
    ensures Crud.Consistent(PlanOf(db, req).db)
  {
  }

  lemma UserWriteStaysConsistent(db: Database, req: Request)
    requires Crud.Consistent(db)
    requires req.PatchUser? || req.SetPassword? || req.DeleteUser? || req.ResetUsers?
    ensures Crud.Consistent(PlanOf(db, req).db)
  {
  }

  /** No request leaves two roles of one name, two users of one name, or a user without its role. */
  lemma RequestStaysConsistent(db: Database, req: Request)
    requires Crud.Consistent(db) && FreshIds(db, req) && !req.Read?
    ensures Crud.Consistent(PlanOf(db, req).db)
  {
    if req.UpsertSmall? || req.UpsertLarge? {
    } else if req.CreateUser? || req.UpdateUser? {
      UserRowStaysConsistent(db, req);
    } else if req.PatchUser? || req.SetPassword? || req.DeleteUser? || req.ResetUsers? {
      UserWriteStaysConsistent(db, req);
    } else {
      RoleWriteStaysConsistent(db, req);
    }
  }

  // ---------------------------------------------------------------- the SuperAdmin row

  function FullRow(): Role {
    Role(Crud.SUPERADMIN_ROLE_NAME, "role.super_admin.title", Some(map p | p in Crud.REGISTERED_PERMISSIONS :: true))
  }

  /** Row 1 is SuperAdmin, with a value for every registered permission. */
  predicate Complete(db: Database) {
    && Crud.SUPERADMIN_ROLE_ID in db.roles
    && db.roles[Crud.SUPERADMIN_ROLE_ID].name == Crud.SUPERADMIN_ROLE_NAME
    && Crud.REGISTERED_PERMISSIONS <= OrEmpty(db.roles[Crud.SUPERADMIN_ROLE_ID].permissions).Keys
  }

  /** An append to row 1 holds a key that is there already, or holds none. */
  lemma AppendLeavesCompleteRow(db: Database, name: string, patch: Crud.Patch)
    requires Crud.Consistent(db) && Complete(db)
    ensures var r := Crud.AppendRole(db, name, patch);
            r.Ok? ==> 1 in r.value.0.roles && r.value.0.roles[1] == db.roles[1]
  {
    var checked := Crud.ValidatePatch(patch);
    if checked.Ok? && Crud.RoleByName(db.roles, name) == Some(1) {
      var flags := checked.value;
      var current := OrEmpty(db.roles[1].permissions);
      forall k | k in flags ensures k in current {
        assert k !in (set u | u in patch && u !in Crud.REGISTERED_PERMISSIONS);
      }
      if flags == map[] {
        assert "rbac_roles_read" in current;
        assert current + flags == current;
      } else {
        var k :| k in flags;
        assert k in Crud.Shared(flags, current);
      }
    }
  }

  lemma RequestLeavesSuperAdmin(db: Database, req: Request)
    requires Crud.Consistent(db) && Complete(db) && FreshIds(db, req) && !req.Read?
    ensures 1 in PlanOf(db, req).db.roles && PlanOf(db, req).db.roles[1] == db.roles[1]
  {
    if req.AppendRole? { AppendLeavesCompleteRow(db, req.name, req.patch); }
    if req.ResetRoles? { assert 1 !in Crud.Resettable(db.roles); }
  }

  /** Completeness is exactly what protects the row: were a registered permission missing,
      an append could still set it, to false as well as to true. */
  lemma RowIsFixedIffComplete(db: Database)
    requires Crud.Consistent(db) && 1 in db.roles && db.roles[1].name == Crud.SUPERADMIN_ROLE_NAME
    ensures Complete(db) <==>
              forall req: Request :: !req.Read? && FreshIds(db, req) ==>
                1 in PlanOf(db, req).db.roles && PlanOf(db, req).db.roles[1] == db.roles[1]
  {
    if Complete(db) {
      forall req: Request | !req.Read? && FreshIds(db, req)
        ensures 1 in PlanOf(db, req).db.roles && PlanOf(db, req).db.roles[1] == db.roles[1]
      {
        RequestLeavesSuperAdmin(db, req);
      }
    } else {
      var p :| p in Crud.REGISTERED_PERMISSIONS && p !in OrEmpty(db.roles[1].permissions);
      AppendFillsGap(db, p);
    }
  }

  lemma AppendFillsGap(db: Database, p: string)
    requires Crud.Consistent(db) && 1 in db.roles && db.roles[1].name == Crud.SUPERADMIN_ROLE_NAME
    requires p in Crud.REGISTERED_PERMISSIONS && p !in OrEmpty(db.roles[1].permissions)
    ensures var req := Request.AppendRole(Crud.SUPERADMIN_ROLE_NAME, map[p := Crud.Flag(false)]);
            !req.Read? && FreshIds(db, req) && PlanOf(db, req).db.roles != db.roles &&
            1 in PlanOf(db, req).db.roles && PlanOf(db, req).db.roles[1] != db.roles[1]
  {
    var patch := map[p := Crud.Flag(false)];
    assert (set k | k in patch && k !in Crud.REGISTERED_PERMISSIONS) == {};
    assert (set k | k in patch && patch[k].NotAFlag?) == {};
    var checked := Crud.ValidatePatch(patch);
    var flags := checked.value;
    assert p in flags;
    assert Crud.RoleByName(db.roles, Crud.SUPERADMIN_ROLE_NAME) == Some(1);
    var current := OrEmpty(db.roles[1].permissions);
    assert Crud.Shared(flags, current) == {};
    assert p in current + flags;
  }

  // ---------------------------------------------------------------- runs

  /** The service handles a request, or is restarted and seeds its roles again. */
  datatype Event = Handle(req: Request, faults: seq<bool>) | Restart(newId: int)

  predicate Possible(s: Server, e: Event) {
    match e
    case Handle(req, _) => FreshIds(s.db, req)
    case Restart(newId) => Seeding.Assignable(DefaultRoles.Service(), s.db.roles, newId)
  }

  ghost function Step(s: Server, e: Event): Server {
    match e
    case Handle(req, faults) => Serve(s.(redis := s.redis.(faults := faults)), req).0
    case Restart(newId) =>
      match Seeding.Seed(DefaultRoles.Service(), s.db.roles, newId)
      case Err(_) => s
      case Ok(roles) => s.(db := s.db.(roles := roles))
  }

  ghost predicate IsRun(s: Server, events: seq<Event>)
    decreases |events|
  {
    events == [] || (Possible(s, events[0]) && IsRun(Step(s, events[0]), events[1..]))
  }

  ghost function After(s: Server, events: seq<Event>): Server
    decreases |events|
  {
    if events == [] then s else After(Step(s, events[0]), events[1..])
  }

  ghost predicate Guarded(db: Database) {
    Crud.Consistent(db) && 1 in db.roles && db.roles[1] == FullRow()
  }

  lemma ServiceDefaults()
    ensures var reg := DefaultRoles.Service();
            && Seeding.WellFormed(reg)
            && |reg.roles| == 7 && reg.roles[0].name == Crud.SUPERADMIN_ROLE_NAME && reg.roles[0].id == Some(1)
            && Seeding.NewRole(reg, reg.roles[0]) == FullRow()
  {
    DefaultRoles.ServiceIsWellFormed();
    assert DefaultRoles.Defaults("SuperAdmin") == map p | p in Crud.REGISTERED_PERMISSIONS :: true;
    assert "SuperAdmin" in DefaultRoles.Names();
  }

  lemma SeedingLeavesFullRow(roles: Seeding.Roles, newId: int)
    requires 1 in roles && roles[1] == FullRow() && Seeding.Assignable(DefaultRoles.Service(), roles, newId)
    requires Seeding.Seed(DefaultRoles.Service(), roles, newId).Ok?
    ensures var seeded := Seeding.Seed(DefaultRoles.Service(), roles, newId).value;
            1 in seeded && seeded[1] == FullRow()
  {
    var reg := DefaultRoles.Service();
    ServiceDefaults();
    Seeding.SeedKeepsRows(reg, roles, newId, 1);
    Seeding.RefreshedIsFixed(reg, FullRow());
  }

  /** Seeding keeps names unique, and takes no role away. */
  lemma SeedingStaysConsistent(db: Database, newId: int)
    requires Crud.Consistent(db) && Seeding.Assignable(DefaultRoles.Service(), db.roles, newId)
    requires Seeding.Seed(DefaultRoles.Service(), db.roles, newId).Ok?
    ensures Crud.Consistent(db.(roles := Seeding.Seed(DefaultRoles.Service(), db.roles, newId).value))
  {
    var reg := DefaultRoles.Service();
    DefaultRoles.ServiceIsWellFormed();
    hide Seeding.Seed, Seeding.WellFormed, Seeding.Assignable, Seeding.KeptRow, DefaultRoles.Service;
    var seeded := Seeding.Seed(reg, db.roles, newId).value;
    SeedingKeepsIds(reg, db.roles, newId);
    forall i, j | i in seeded && j in seeded && seeded[i].name == seeded[j].name ensures i == j {
      SeededNamesAreUnique(reg, db.roles, newId, i, j);
    }
  }

  lemma SeedingKeepsIds(reg: Seeding.Registry, roles: Seeding.Roles, newId: int)
    requires Seeding.Seed(reg, roles, newId).Ok?
    ensures roles.Keys <= Seeding.Seed(reg, roles, newId).value.Keys
  {
  }

  lemma SeededNamesAreUnique(reg: Seeding.Registry, roles: Seeding.Roles, newId: int, i: int, j: int)
    requires Seeding.WellFormed(reg) && Seeding.Assignable(reg, roles, newId) && Seeding.Seed(reg, roles, newId).Ok?
    requires Crud.UniqueNames(roles)
    requires var seeded := Seeding.Seed(reg, roles, newId).value;
             i in seeded && j in seeded && seeded[i].name == seeded[j].name
    ensures i == j
  {
    if i !in roles {
      NewNamesAreNew(reg, roles, newId, i, j);
    } else if j !in roles {
      NewNamesAreNew(reg, roles, newId, j, i);
    } else {
      Seeding.SeedKeepsRows(reg, roles, newId, i);
      Seeding.SeedKeepsRows(reg, roles, newId, j);
    }
  }

  lemma NewNamesAreNew(reg: Seeding.Registry, roles: Seeding.Roles, newId: int, i: int, j: int)
    requires Seeding.WellFormed(reg) && Seeding.Assignable(reg, roles, newId) && Seeding.Seed(reg, roles, newId).Ok?
    requires var seeded := Seeding.Seed(reg, roles, newId).value;
             i in seeded && j in seeded && i !in roles && seeded[i].name == seeded[j].name
    ensures i == j
  {
    var k := Seeding.SeedAddsOnlyDefaults(reg, roles, newId, i);
    if j in roles {
      Seeding.SeedKeepsRows(reg, roles, newId, j);
      assert false;
    } else {
      var l := Seeding.SeedAddsOnlyDefaults(reg, roles, newId, j);
    }
  }

  lemma StepStaysGuarded(s: Server, e: Event)
    requires Guarded(s.db) && Possible(s, e)
    ensures Guarded(Step(s, e).db)
  {
    match e
    case Handle(req, _) =>
      if !req.Read? {
        RequestStaysConsistent(s.db, req);
        RequestLeavesSuperAdmin(s.db, req);
      }
    case Restart(newId) =>
      if Seeding.Seed(DefaultRoles.Service(), s.db.roles, newId).Ok? {
        SeedingLeavesFullRow(s.db.roles, newId);
        SeedingStaysConsistent(s.db, newId);
      }
  }

  lemma {:induction false} RunsStayGuarded(s: Server, events: seq<Event>)
    requires Guarded(s.db) && IsRun(s, events)
    ensures Guarded(After(s, events).db)
    decreases |events|
  {
    if events != [] {
      StepStaysGuarded(s, events[0]);
      RunsStayGuarded(Step(s, events[0]), events[1..]);
    }
  }

  /** An empty role table is seeded without drift, with a full SuperAdmin row. */
  lemma FreshlySeeded(newId: int)
    requires Seeding.Assignable(DefaultRoles.Service(), map[], newId)
    ensures Seeding.Seed(DefaultRoles.Service(), map[], newId).Ok?
    ensures var roles := Seeding.Seed(DefaultRoles.Service(), map[], newId).value; 1 in roles && roles[1] == FullRow()
  {
    var reg := DefaultRoles.Service();
    ServiceDefaults();
    assert !Seeding.HasName(map[], reg.roles[0].name);
    Seeding.AddedHas(reg, map[], |reg.roles|, newId, 0);
  }

  /** What a first start leaves: the default roles and no users. */
  ghost function FirstDatabase(texts: Database, newId: int): Database
    requires Seeding.Assignable(DefaultRoles.Service(), map[], newId)
  {
    FreshlySeeded(newId);
    texts.(roles := Seeding.Seed(DefaultRoles.Service(), map[], newId).value, users := map[])
  }

  /** From a freshly seeded database, in every run of requests and restarts, row 1 keeps its
      name, its title key and all fourteen registered permissions at true; role names and
      usernames stay unique, and every user's role exists. */
  lemma SuperAdminIsInvariant(newId: int, texts: Database, clock: Time, ttl: int, redis: Redis, events: seq<Event>)
    requires Seeding.Assignable(DefaultRoles.Service(), map[], newId)
    requires IsRun(Server(clock, ttl, FirstDatabase(texts, newId), redis), events)
    ensures var after := After(Server(clock, ttl, FirstDatabase(texts, newId), redis), events).db;
            && Crud.Consistent(after)
            && 1 in after.roles
            && after.roles[1] == Role("SuperAdmin", "role.super_admin.title",
                                      Some(map p | p in Crud.REGISTERED_PERMISSIONS :: true))
  {
    var empty := texts.(roles := map[], users := map[]);
    FreshlySeeded(newId);
    assert Crud.Consistent(empty);
    SeedingStaysConsistent(empty, newId);
    RunsStayGuarded(Server(clock, ttl, FirstDatabase(texts, newId), redis), events);
  }
}
