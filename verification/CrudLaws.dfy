/** What the database operations promise their callers: exactly when each is refused, and
    what it leaves unchanged. */
module CrudLaws {
  import opened Wrappers
  import opened Ordering
  import opened Records
  import opened Crud

  predicate WellFormed(patch: Patch) {
    forall k :: k in patch ==> k in REGISTERED_PERMISSIONS && patch[k].Flag?
  }

  /** A patch is accepted exactly when all its keys are registered and all its values booleans;
      a refusal names the offending keys, and all of them. */
  lemma PatchIsValidIff(patch: Patch)
    ensures ValidatePatch(patch).Ok? <==> WellFormed(patch)
    ensures match ValidatePatch(patch)
            case Ok(flags) => flags.Keys == patch.Keys && forall k :: k in patch ==> patch[k] == Flag(flags[k])
            case Err(e) =>
              && e.InvalidPatch?
              && (forall k :: k in e.unknown <==> k in patch && k !in REGISTERED_PERMISSIONS)
              && (forall k :: k in e.nonBoolean <==> k in patch && !patch[k].Flag?)
  {
    if !WellFormed(patch) {
      var k :| k in patch && !(k in REGISTERED_PERMISSIONS && patch[k].Flag?);
      if k !in REGISTERED_PERMISSIONS {
        assert k in (set u | u in patch && u !in REGISTERED_PERMISSIONS);
      } else {
        assert k in (set n | n in patch && patch[n].NotAFlag?);
      }
    }
  }

  /** `after` differs from `before` in one role's row only. */
  predicate OnlyRole(before: Database, after: Database, id: int) {
    && after == before.(roles := after.roles)
    && after.roles - {id} == before.roles - {id}
  }

  predicate OnlyUser(before: Database, after: Database, id: int) {
    && after == before.(users := after.users)
    && after.users - {id} == before.users - {id}
  }

  /** Patching a role: the patched permissions take the given values, the others keep theirs,
      and nothing else changes; it is refused exactly for a malformed patch, a missing role and SuperAdmin. */
  lemma PatchRoleLaw(db: Database, id: int, patch: Patch)
    ensures PatchRole(db, id, patch).Ok? <==> WellFormed(patch) && id in db.roles && !IsSuperAdmin(id, db.roles[id])
    ensures match PatchRole(db, id, patch)
            case Ok(after) =>
              && OnlyRole(db, after, id)
              && after.roles[id].(permissions := None) == db.roles[id].(permissions := None)
              && forall k :: ValueOf(after.roles[id].permissions, k) ==
                             if k in patch then Some(patch[k].b) else ValueOf(db.roles[id].permissions, k)
            case Err(e) =>
              if !WellFormed(patch) then e.InvalidPatch?
              else if id !in db.roles then e == RoleNotFound
              else e == SuperAdminImmutable
  {
    PatchIsValidIff(patch);
  }

  lemma PatchUserLaw(db: Database, id: int, patch: Patch)
    ensures PatchUser(db, id, patch).Ok? <==> WellFormed(patch) && id in db.users
    ensures match PatchUser(db, id, patch)
            case Ok(after) =>
              && OnlyUser(db, after, id)
              && after.users[id].(permissions := None) == db.users[id].(permissions := None)
              && forall k :: ValueOf(after.users[id].permissions, k) ==
                             if k in patch then Some(patch[k].b) else ValueOf(db.users[id].permissions, k)
            case Err(e) => if !WellFormed(patch) then e.InvalidPatch? else e == UserNotFound
  {
    PatchIsValidIff(patch);
  }

  /** `keys` are those of the patch that have a value already. */
  predicate Blocked(keys: set<string>, patch: Patch, role: Role) {
    keys == set k | k in patch && ValueOf(role.permissions, k).Some?
  }

  /** Appending: no permission that has a value changes it, every key of the patch gets the
      given one, and the role stays otherwise as it was. It is refused exactly for a malformed
      patch, an unknown name, and keys that have a value, which the refusal lists. */
  lemma AppendLaw(db: Database, name: string, patch: Patch)
    requires UniqueNames(db.roles)
    ensures match AppendRole(db, name, patch)
            case Ok((after, id)) =>
              && WellFormed(patch) && id in db.roles && db.roles[id].name == name && OnlyRole(db, after, id)
              && after.roles[id].(permissions := None) == db.roles[id].(permissions := None)
              && (forall k :: k in patch ==> ValueOf(db.roles[id].permissions, k) == None)
              && (forall k :: ValueOf(after.roles[id].permissions, k) ==
                              if k in patch then Some(patch[k].b) else ValueOf(db.roles[id].permissions, k))
            case Err(DuplicateKeys(keys)) =>
              && keys != {}
              && exists id :: id in db.roles && db.roles[id].name == name && Blocked(keys, patch, db.roles[id])
            case Err(e) =>
              if !WellFormed(patch) then e.InvalidPatch?
              else e == RoleNotFound && forall i :: i in db.roles ==> db.roles[i].name != name
  {
    PatchIsValidIff(patch);
    var flags := ValidatePatch(patch);
    var found := RoleByName(db.roles, name);
    if flags.Ok? && found.Some? {
      var current := OrEmpty(db.roles[found.value].permissions);
      forall k | k in patch && k in current ensures k in Shared(flags.value, current) {}
    }
  }

  /** An update sets what is given and keeps what is not. */
  lemma UpdateRoleLaw(db: Database, id: int, name: Option<string>, titleKey: Option<string>)
    requires Consistent(db)
    ensures match UpdateRole(db, id, name, titleKey)
            case Ok(after) =>
              && OnlyRole(db, after, id) && id in db.roles
              && after.roles[id].name == (if name.Some? then name.value else db.roles[id].name)
              && after.roles[id].titleKey == (if titleKey.Some? then titleKey.value else db.roles[id].titleKey)
              && after.roles[id].permissions == db.roles[id].permissions
            case Err(e) =>
              if id !in db.roles then e == RoleNotFound
              else if IsSuperAdmin(id, db.roles[id]) then e == SuperAdminImmutable
              else e == RoleAlreadyExists && name.Some? && NameTaken(db.roles, id, name.value)
  {
  }

  /** A taken username is reported as such exactly when no new role is asked for with it. */
  lemma UpdateUserLaw(db: Database, id: int, username: Option<string>, roleId: Option<int>)
    requires Consistent(db)
    ensures UpdateUser(db, id, username, roleId) == Err(UnhandledIntegrityError) <==>
              id in db.users && roleId.Some? && username.Some? && UsernameTaken(db.users, id, username.value)
    ensures match UpdateUser(db, id, username, roleId)
            case Ok(after) =>
              && OnlyUser(db, after, id) && id in db.users
              && after.users[id].username == (if username.Some? then username.value else db.users[id].username)
              && after.users[id].roleId == (if roleId.Some? then roleId.value else db.users[id].roleId)
              && after.users[id].password == db.users[id].password
              && after.users[id].permissions == db.users[id].permissions
            case Err(e) =>
              if id !in db.users then e == UserNotFound
              else if username.Some? && UsernameTaken(db.users, id, username.value)
              then e == if roleId.Some? then UnhandledIntegrityError else UsernameAlreadyExists
              else e == RoleNotFound && roleId.Some? && roleId.value !in db.roles
  {
  }

  /** Creating inserts one row, with no permission set, exactly when its name is free (and, for a
      user, the role exists). */
  lemma CreateRoleLaw(db: Database, name: string, titleKey: string, newId: int)
    requires newId !in db.roles
    ensures CreateRole(db, name, titleKey, newId).Err? <==> exists i :: i in db.roles && db.roles[i].name == name
    ensures match CreateRole(db, name, titleKey, newId)
            case Ok(after) => OnlyRole(db, after, newId) && after.roles[newId] == Role(name, titleKey, Some(map[]))
            case Err(e) => e == RoleAlreadyExists
  {
  }

  lemma CreateUserLaw(db: Database, username: string, password: string, roleId: int, newId: int)
    requires newId !in db.users
    ensures CreateUser(db, username, password, roleId, newId).Err? <==>
              roleId !in db.roles || exists i :: i in db.users && db.users[i].username == username
    ensures match CreateUser(db, username, password, roleId, newId)
            case Ok(after) =>
              OnlyUser(db, after, newId) && after.users[newId] == User(username, password, roleId, Some(map[]))
            case Err(e) => e == if roleId !in db.roles then RoleNotFound else UsernameAlreadyExists
  {
  }

  /** A deleted role is gone, had no users and was not SuperAdmin; a refusal counts the users. */
  lemma DeleteRoleLaw(db: Database, id: int)
    ensures DeleteRole(db, id).Ok? <==>
              && id in db.roles && !IsSuperAdmin(id, db.roles[id])
              && forall u :: u in db.users ==> db.users[u].roleId != id
    ensures match DeleteRole(db, id)
            case Ok(after) => OnlyRole(db, after, id) && id !in after.roles
            case Err(RoleInUse(users)) => users == |set u | u in db.users && db.users[u].roleId == id| > 0
            case Err(e) => e == if id in db.roles then SuperAdminImmutable else RoleNotFound
  {
    if id in db.roles {
      forall u | u in db.users && db.users[u].roleId == id ensures u in UsersOf(db, id) {}
      IntOrder();
      if UsersOf(db, id) != {} { var u := LeastExists(UsersOf(db, id), IntLe); }
    }
  }

  /** A deleted user is gone; a new password replaces the old one, and nothing else changes. */
  lemma AccountLaw(db: Database, id: int, password: string)
    ensures match DeleteUser(db, id)
            case Ok(after) => OnlyUser(db, after, id) && id in db.users && id !in after.users
            case Err(e) => e == UserNotFound && id !in db.users
    ensures match SetPassword(db, id, password)
            case Ok(after) => OnlyUser(db, after, id) && id in db.users && id in after.users &&
                              after.users[id].password == password &&
                              after.users[id].(password := "") == db.users[id].(password := "")
            case Err(e) => e == UserNotFound && id !in db.users
  {
  }

  /** A reset empties the permissions of every role but SuperAdmin, or of every user, and counts them. */
  lemma ResetLaw(db: Database)
    ensures ResetRoles(db) == db.(roles := ResetRoles(db).roles) && ResetRoles(db).roles.Keys == db.roles.Keys
    ensures forall i :: i in db.roles ==>
              if IsSuperAdmin(i, db.roles[i]) then ResetRoles(db).roles[i] == db.roles[i]
              else ResetRoles(db).roles[i] == db.roles[i].(permissions := Some(map[])) && i in Resettable(db.roles)
    ensures ResetUsers(db) == db.(users := ResetUsers(db).users) && ResetUsers(db).users.Keys == db.users.Keys
    ensures forall i :: i in db.users ==> ResetUsers(db).users[i] == db.users[i].(permissions := Some(map[]))
  {
  }

  /** An upsert overwrites the languages it is given, keeps the others, and touches one row. */
  lemma UpsertSmallLaw(db: Database, key: string, patch: Texts)
    ensures var after := UpsertSmall(db, key, patch);
            && after == db.(small := after.small) && after.small - {key} == db.small - {key}
            && (forall l :: l in after.small[key] <==> l in patch || (key in db.small && l in db.small[key]))
            && forall l :: l in after.small[key] ==>
                 after.small[key][l] == if l in patch then patch[l] else db.small[key][l]
  {
  }

  lemma UpsertLargeLaw(db: Database, p: Pair, patch: Texts)
    ensures var after := UpsertLarge(db, p, patch);
            && after == db.(large := after.large) && after.large - {p} == db.large - {p}
            && (forall l :: l in after.large[p] <==> l in patch || (p in db.large && l in db.large[p]))
            && forall l :: l in after.large[p] ==>
                 after.large[p][l] == if l in patch then patch[l] else db.large[p][l]
  {
  }
}
