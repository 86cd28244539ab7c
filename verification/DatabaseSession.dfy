/** The CRUD modules as they run: rows are assigned in a session, and a commit either makes
    them durable or reports the constraint they violate. */
module DatabaseSession {
  import opened Wrappers
  import opened Ordering
  import opened Records
  import Crud

  datatype Violation = NoViolation | RoleNameTwice | UsernameTwice | ForeignKey

  function ViolationOf(db: Database): (v: Violation)
    ensures v.NoViolation? <==> Crud.Consistent(db)
  {
    if !Crud.UniqueNames(db.roles) then RoleNameTwice
    else if !Crud.UniqueUsernames(db.users) then UsernameTwice
    else if !Crud.RolesExist(db) then ForeignKey
    else NoViolation
  }

  /** A call did what its transaction is specified to do: all of it, or nothing and the error. */
  ghost predicate Did(spec: Result<Database, Crud.Error>, before: Database, after: Database,
                      raised: Option<Crud.Error>)
  {
    match spec
    case Ok(db) => after == db && raised == None
    case Err(e) => after == before && raised == Some(e)
  }

  /** Assigning one row of consistent tables breaks uniqueness exactly when another row has the name. */
  lemma RenamedRole(db: Database, id: int, row: Role)
    requires Crud.Consistent(db)
    ensures Crud.UniqueNames(db.roles[id := row]) <==> !Crud.NameTaken(db.roles, id, row.name)
  {
    var roles := db.roles[id := row];
    if Crud.NameTaken(db.roles, id, row.name) {
      var i :| i in db.roles && i != id && db.roles[i].name == row.name;
      assert i in roles && roles[i].name == roles[id].name;
    }
  }

  lemma RenamedUser(db: Database, id: int, row: User)
    requires Crud.Consistent(db)
    ensures Crud.UniqueUsernames(db.users[id := row]) <==> !Crud.UsernameTaken(db.users, id, row.username)
  {
    var users := db.users[id := row];
    if Crud.UsernameTaken(db.users, id, row.username) {
      var i :| i in db.users && i != id && db.users[i].username == row.username;
      assert i in users && users[i].username == users[id].username;
    }
  }

  class Session {
    var tables: Database
    var pending: Database

    ghost predicate Valid()
      reads this
    {
      pending == tables && Crud.Consistent(tables)
    }

    constructor (db: Database)
      requires Crud.Consistent(db)
      ensures Valid() && tables == db
    {
      tables, pending := db, db;
    }

    method Commit() returns (v: Violation)
      modifies this`tables
      ensures v == ViolationOf(pending)
      ensures tables == if v.NoViolation? then pending else old(tables)
    {
      v := ViolationOf(pending);
      if v.NoViolation? { tables := pending; }
    }

    /** Also what closing the session does to rows that were never committed. */
    method Rollback()
      modifies this`pending
      ensures pending == tables
    {
      pending := tables;
    }

    method SetRole(id: int, row: Role)
      modifies this`pending
      ensures pending == old(pending).(roles := old(pending).roles[id := row])
    {
      pending := pending.(roles := pending.roles[id := row]);
    }

    method SetUser(id: int, row: User)
      modifies this`pending
      ensures pending == old(pending).(users := old(pending).users[id := row])
    {
      pending := pending.(users := pending.users[id := row]);
    }

    // -------------------------------------------------------------- roles

    method CreateRole(name: string, titleKey: string, newId: int) returns (raised: Option<Crud.Error>)
      requires Valid() && newId !in tables.roles
      modifies this
      ensures Valid() && Did(Crud.CreateRole(old(tables), name, titleKey, newId), old(tables), tables, raised)
    {
      RenamedRole(tables, newId, Role(name, titleKey, Some(map[])));
      SetRole(newId, Role(name, titleKey, Some(map[])));
      var v := Commit();
      if !v.NoViolation? {
        Rollback();
        return Some(Crud.RoleAlreadyExists);
      }
      return None;
    }

    method UpdateRole(id: int, name: Option<string>, titleKey: Option<string>) returns (raised: Option<Crud.Error>)
      requires Valid()
      modifies this
      ensures Valid() && Did(Crud.UpdateRole(old(tables), id, name, titleKey), old(tables), tables, raised)
    {
      if id !in tables.roles { return Some(Crud.RoleNotFound); }
      if Crud.IsSuperAdmin(id, tables.roles[id]) { return Some(Crud.SuperAdminImmutable); }
      if name.Some? && name.value != pending.roles[id].name {
        SetRole(id, pending.roles[id].(name := name.value));
      }
      if titleKey.Some? {
        SetRole(id, pending.roles[id].(titleKey := titleKey.value));
      }
      assert pending.roles == tables.roles[id := pending.roles[id]];
      RenamedRole(tables, id, pending.roles[id]);
      var v := Commit();
      if !v.NoViolation? {
        Rollback();
        return Some(Crud.RoleAlreadyExists);
      }
      return None;
    }

    method DeleteRole(id: int) returns (raised: Option<Crud.Error>)
      requires Valid()
      modifies this
      ensures Valid() && Did(Crud.DeleteRole(old(tables), id), old(tables), tables, raised)
    {
      if id !in tables.roles { return Some(Crud.RoleNotFound); }
      if Crud.IsSuperAdmin(id, tables.roles[id]) { return Some(Crud.SuperAdminImmutable); }
      var userCount := |Crud.UsersOf(tables, id)|;
      if userCount > 0 { return Some(Crud.RoleInUse(userCount)); }
      assert forall u :: u in tables.users ==> u !in Crud.UsersOf(tables, id);
      pending := pending.(roles := pending.roles - {id});
      var v := Commit();
      assert v.NoViolation?;
      return None;
    }

    method PatchRole(id: int, patch: Crud.Patch) returns (raised: Option<Crud.Error>)
      requires Valid()
      modifies this
      ensures Valid() && Did(Crud.PatchRole(old(tables), id, patch), old(tables), tables, raised)
    {
      var checked := Crud.ValidatePatch(patch);
      if checked.Err? { return Some(checked.error); }
      if id !in tables.roles { return Some(Crud.RoleNotFound); }
      if Crud.IsSuperAdmin(id, tables.roles[id]) { return Some(Crud.SuperAdminImmutable); }
      var row := pending.roles[id];
      SetRole(id, row.(permissions := Some(Crud.Merge(row.permissions, checked.value))));
      var v := Commit();
      assert v.NoViolation?;
      return None;
    }

    method ResetRoles() returns (count: nat)
      requires Valid()
      modifies this
      ensures Valid() && tables == Crud.ResetRoles(old(tables)) && count == |Crud.Resettable(old(tables).roles)|
    {
      var chosen := Crud.Resettable(tables.roles);
      if |chosen| == 0 {
        assert Crud.ResetRoles(tables).roles == tables.roles;
        return 0;
      }
      pending := pending.(roles := map i | i in pending.roles ::
        if i in chosen then pending.roles[i].(permissions := Some(map[])) else pending.roles[i]);
      var v := Commit();
      assert v.NoViolation?;
      return |chosen|;
    }

    method AppendRole(name: string, patch: Crud.Patch) returns (r: Result<int, Crud.Error>)
      requires Valid()
      modifies this
      ensures Valid()
      ensures match Crud.AppendRole(old(tables), name, patch)
              case Ok((db, id)) => tables == db && r == Ok(id)
              case Err(e) => tables == old(tables) && r == Err(e)
    {
      var checked := Crud.ValidatePatch(patch);
      if checked.Err? { return Err(checked.error); }
      var found := Crud.RoleByName(tables.roles, name);
      if found.None? { return Err(Crud.RoleNotFound); }
      var id := found.value;
      var current := OrEmpty(pending.roles[id].permissions);
      var duplicates := Crud.Shared(checked.value, current);
      if duplicates != {} { return Err(Crud.DuplicateKeys(duplicates)); }
      SetRole(id, pending.roles[id].(permissions := Some(current + checked.value)));
      var v := Commit();
      assert v.NoViolation?;
      return Ok(id);
    }

    // -------------------------------------------------------------- users

    method CreateUser(username: string, password: string, roleId: int, newId: int) returns (raised: Option<Crud.Error>)
      requires Valid() && newId !in tables.users
      modifies this
      ensures Valid()
      ensures Did(Crud.CreateUser(old(tables), username, password, roleId, newId), old(tables), tables, raised)
    {
      if roleId !in tables.roles { return Some(Crud.RoleNotFound); }
      RenamedUser(tables, newId, User(username, password, roleId, Some(map[])));
      SetUser(newId, User(username, password, roleId, Some(map[])));
      var v := Commit();
      if !v.NoViolation? {
        Rollback();
        return Some(if v.UsernameTwice? then Crud.UsernameAlreadyExists else Crud.RoleNotFound);
      }
      return None;
    }

    /** Looking up the new role flushes the new username first; a violation is then raised
        outside the `try` around the commit. */
    method UpdateUser(id: int, username: Option<string>, roleId: Option<int>) returns (raised: Option<Crud.Error>)
      requires Valid()
      modifies this
      ensures Valid() && Did(Crud.UpdateUser(old(tables), id, username, roleId), old(tables), tables, raised)
    {
      if id !in tables.users { return Some(Crud.UserNotFound); }
      if username.Some? && username.value != pending.users[id].username {
        SetUser(id, pending.users[id].(username := username.value));
      }
      assert pending.users == tables.users[id := pending.users[id]];
      RenamedUser(tables, id, pending.users[id]);
      if roleId.Some? {
        var flushed := ViolationOf(pending);
        if !flushed.NoViolation? {
          Rollback();
          return Some(Crud.UnhandledIntegrityError);
        }
        if roleId.value !in pending.roles {
          Rollback();
          return Some(Crud.RoleNotFound);
        }
        SetUser(id, pending.users[id].(roleId := roleId.value));
        assert pending.users == tables.users[id := pending.users[id]];
        RenamedUser(tables, id, pending.users[id]);
      }
      var v := Commit();
      if !v.NoViolation? {
        Rollback();
        return Some(if v.UsernameTwice? then Crud.UsernameAlreadyExists else Crud.RoleNotFound);
      }
      return None;
    }

    method SetPassword(id: int, password: string) returns (raised: Option<Crud.Error>)
      requires Valid()
      modifies this
      ensures Valid() && Did(Crud.SetPassword(old(tables), id, password), old(tables), tables, raised)
    {
      if id !in tables.users { return Some(Crud.UserNotFound); }
      SetUser(id, pending.users[id].(password := password));
      var v := Commit();
      assert v.NoViolation?;
      return None;
    }

    method DeleteUser(id: int) returns (raised: Option<Crud.Error>)
      requires Valid()
      modifies this
      ensures Valid() && Did(Crud.DeleteUser(old(tables), id), old(tables), tables, raised)
    {
      if id !in tables.users { return Some(Crud.UserNotFound); }
      pending := pending.(users := pending.users - {id});
      var v := Commit();
      assert v.NoViolation?;
      return None;
    }

    method PatchUser(id: int, patch: Crud.Patch) returns (raised: Option<Crud.Error>)
      requires Valid()
      modifies this
      ensures Valid() && Did(Crud.PatchUser(old(tables), id, patch), old(tables), tables, raised)
    {
      var checked := Crud.ValidatePatch(patch);
      if checked.Err? { return Some(checked.error); }
      if id !in tables.users { return Some(Crud.UserNotFound); }
      var row := pending.users[id];
      SetUser(id, row.(permissions := Some(Crud.Merge(row.permissions, checked.value))));
      var v := Commit();
      assert v.NoViolation?;
      return None;
    }

    method ResetUsers() returns (count: nat)
      requires Valid()
      modifies this
      ensures Valid() && tables == Crud.ResetUsers(old(tables)) && count == |old(tables).users|
    {
      count := |tables.users|;
      if count == 0 {
        assert Crud.ResetUsers(tables).users == tables.users;
        return;
      }
      pending := pending.(users := map i | i in pending.users :: pending.users[i].(permissions := Some(map[])));
      var v := Commit();
      assert v.NoViolation?;
    }

    // -------------------------------------------------------------- translations

    method UpsertSmall(key: string, patch: Texts)
      requires Valid()
      modifies this
      ensures Valid() && tables == Crud.UpsertSmall(old(tables), key, patch)
    {
      if key !in tables.small {
        pending := pending.(small := pending.small[key := patch]);
      } else {
        pending := pending.(small := pending.small[key := pending.small[key] + patch]);
      }
      var v := Commit();
      assert v.NoViolation?;
    }

    method UpsertLarge(p: Pair, patch: Texts)
      requires Valid()
      modifies this
      ensures Valid() && tables == Crud.UpsertLarge(old(tables), p, patch)
    {
      if p !in tables.large {
        pending := pending.(large := pending.large[p := patch]);
      } else {
        pending := pending.(large := pending.large[p := pending.large[p] + patch]);
      }
      var v := Commit();
      assert v.NoViolation?;
    }
  }
}
