/** The database operations behind the RBAC and i18n endpoints. Each is one transaction:
    it yields the committed tables and the row it worked on, or an error that leaves the
    tables as they were. */
module Crud {
  import opened Wrappers
  import opened Ordering
  import opened Records

  const SUPERADMIN_ROLE_ID := 1
  const SUPERADMIN_ROLE_NAME := "SuperAdmin"

  const RBAC_PERMISSIONS: set<string> := {
    "rbac_can_manage_permissions",
    "rbac_roles_read", "rbac_roles_create", "rbac_roles_update", "rbac_roles_delete",
    "rbac_users_read", "rbac_users_create", "rbac_users_manage"
  }

  const I18N_PERMISSIONS: set<string> := {
    "i18n_can_read_small", "i18n_can_create_small", "i18n_can_patch_small",
    "i18n_can_read_large", "i18n_can_create_large", "i18n_can_patch_large"
  }

  const REGISTERED_PERMISSIONS: set<string> := RBAC_PERMISSIONS + I18N_PERMISSIONS

  /** A patch value as it comes from the client: a boolean, or something else. */
  datatype PatchValue = Flag(b: bool) | NotAFlag

  type Patch = map<string, PatchValue>

  datatype Error =
    | RoleNotFound
    | UserNotFound
    | RoleAlreadyExists
    | UsernameAlreadyExists
    | RoleInUse(users: nat)
    | SuperAdminImmutable
    | InvalidPatch(unknown: set<string>, nonBoolean: set<string>)
    | DuplicateKeys(keys: set<string>)
    | UnhandledIntegrityError

  predicate IsSuperAdmin(id: int, role: Role) {
    id == SUPERADMIN_ROLE_ID || role.name == SUPERADMIN_ROLE_NAME
  }

  predicate NameTaken(roles: map<int, Role>, apart: int, name: string) {
    exists i :: i in roles && i != apart && roles[i].name == name
  }

  predicate UsernameTaken(users: map<int, User>, apart: int, username: string) {
    exists i :: i in users && i != apart && users[i].username == username
  }

  // ---------------------------------------------------------------- what the schema enforces

  predicate UniqueNames(roles: map<int, Role>) {
    forall i, j :: i in roles && j in roles && roles[i].name == roles[j].name ==> i == j
  }

  predicate UniqueUsernames(users: map<int, User>) {
    forall i, j :: i in users && j in users && users[i].username == users[j].username ==> i == j
  }

  predicate RolesExist(db: Database) {
    forall u :: u in db.users ==> db.users[u].roleId in db.roles
  }

  /** The constraints of `models.py`: unique role names, unique usernames, no user without its role. */
  predicate Consistent(db: Database) {
    UniqueNames(db.roles) && UniqueUsernames(db.users) && RolesExist(db)
  }

  // ---------------------------------------------------------------- patches

  /** `validate_permission_patch` */
  function ValidatePatch(patch: Patch): Result<Flags, Error> {
    var unknown := set k | k in patch && k !in REGISTERED_PERMISSIONS;
    var nonBoolean := set k | k in patch && patch[k].NotAFlag?;
    if unknown != {} || nonBoolean != {} then Err(InvalidPatch(unknown, nonBoolean))
    else Ok(map k | k in patch && patch[k].Flag? :: patch[k].b)
  }

  /** `_merge_permission_patch`: the patch wins. */
  function Merge(current: Option<Flags>, patch: Flags): Flags { OrEmpty(current) + patch }

  // ---------------------------------------------------------------- roles

  function CreateRole(db: Database, name: string, titleKey: string, newId: int): (r: Result<Database, Error>)
    ensures r.Ok? ==> newId in r.value.roles
  {
    if NameTaken(db.roles, newId, name) then Err(RoleAlreadyExists)
    else Ok(db.(roles := db.roles[newId := Role(name, titleKey, Some(map[]))]))
  }

  function UpdateRole(db: Database, id: int, name: Option<string>, titleKey: Option<string>)
    : (r: Result<Database, Error>)
    ensures r.Ok? ==> id in r.value.roles
  {
    if id !in db.roles then Err(RoleNotFound)
    else if IsSuperAdmin(id, db.roles[id]) then Err(SuperAdminImmutable)
    else
      var named := if name.Some? then db.roles[id].(name := name.value) else db.roles[id];
      var row := if titleKey.Some? then named.(titleKey := titleKey.value) else named;
      if NameTaken(db.roles, id, row.name) then Err(RoleAlreadyExists)
      else Ok(db.(roles := db.roles[id := row]))
  }

  function UsersOf(db: Database, roleId: int): set<int> {
    set u | u in db.users && db.users[u].roleId == roleId
  }

  function DeleteRole(db: Database, id: int): Result<Database, Error> {
    if id !in db.roles then Err(RoleNotFound)
    else if IsSuperAdmin(id, db.roles[id]) then Err(SuperAdminImmutable)
    else if UsersOf(db, id) != {} then Err(RoleInUse(|UsersOf(db, id)|))
    else Ok(db.(roles := db.roles - {id}))
  }

  function PatchRole(db: Database, id: int, patch: Patch): (r: Result<Database, Error>)
    ensures r.Ok? ==> id in r.value.roles
  {
    match ValidatePatch(patch)
    case Err(e) => Err(e)
    case Ok(flags) =>
      if id !in db.roles then Err(RoleNotFound)
      else if IsSuperAdmin(id, db.roles[id]) then Err(SuperAdminImmutable)
      else Ok(db.(roles := db.roles[id := db.roles[id].(permissions := Some(Merge(db.roles[id].permissions, flags)))]))
  }

  /** The rows a role reset applies to. */
  function Resettable(roles: map<int, Role>): set<int> {
    set i | i in roles && i != SUPERADMIN_ROLE_ID && roles[i].name != SUPERADMIN_ROLE_NAME
  }

  function ResetRoles(db: Database): Database {
    db.(roles := map i | i in db.roles ::
      if i in Resettable(db.roles) then db.roles[i].(permissions := Some(map[])) else db.roles[i])
  }

  /** The role of a name; names are unique, so the least id is the only one. */
  function RoleByName(roles: map<int, Role>, name: string): (id: Option<int>)
    ensures id.Some? ==> id.value in roles && roles[id.value].name == name
    ensures id.None? ==> forall i :: i in roles ==> roles[i].name != name
  {
    if forall i :: i in roles ==> roles[i].name != name then None
    else
      var ids := set i | i in roles && roles[i].name == name;
      assert ids != {} by { var k :| k in roles && roles[k].name == name; assert k in ids; }
      IntOrder();
      assert exists i :: i in ids && forall j :: j in ids ==> IntLe(i, j) by { var m := LeastExists(ids, IntLe); }
      var i :| i in ids && forall j :: j in ids ==> IntLe(i, j);
      Some(i)
  }

  function Shared(flags: Flags, current: Flags): set<string> { set k | k in flags && k in current }

  /** `create_or_append_role_permissions_no_overwrite`: it creates nothing, in spite of its name. */
  function AppendRole(db: Database, name: string, patch: Patch): (r: Result<(Database, int), Error>)
    ensures r.Ok? ==> r.value.1 in r.value.0.roles
  {
    match ValidatePatch(patch)
    case Err(e) => Err(e)
    case Ok(flags) =>
      match RoleByName(db.roles, name)
      case None => Err(RoleNotFound)
      case Some(id) =>
        var current := OrEmpty(db.roles[id].permissions);
        var duplicates := Shared(flags, current);
        if duplicates != {} then Err(DuplicateKeys(duplicates))
        else Ok((db.(roles := db.roles[id := db.roles[id].(permissions := Some(current + flags))]), id))
  }

  // ---------------------------------------------------------------- users

  function CreateUser(db: Database, username: string, password: string, roleId: int, newId: int)
    : (r: Result<Database, Error>)
    ensures r.Ok? ==> newId in r.value.users
  {
    if roleId !in db.roles then Err(RoleNotFound)
    else if UsernameTaken(db.users, newId, username) then Err(UsernameAlreadyExists)
    else Ok(db.(users := db.users[newId := User(username, password, roleId, Some(map[]))]))
  }

  /** With a new role, looking the role up first flushes the new username: a duplicate is then
      raised outside the handler's `try`, and not translated. */
  function UpdateUser(db: Database, id: int, username: Option<string>, roleId: Option<int>)
    : (r: Result<Database, Error>)
    ensures r.Ok? ==> id in r.value.users
  {
    if id !in db.users then Err(UserNotFound)
    else
      var named := if username.Some? then db.users[id].(username := username.value) else db.users[id];
      var taken := UsernameTaken(db.users, id, named.username);
      if roleId.Some? && taken then Err(UnhandledIntegrityError)
      else if roleId.Some? && roleId.value !in db.roles then Err(RoleNotFound)
      else if taken then Err(UsernameAlreadyExists)
      else
        var row := if roleId.Some? then named.(roleId := roleId.value) else named;
        Ok(db.(users := db.users[id := row]))
  }

  function SetPassword(db: Database, id: int, password: string): Result<Database, Error> {
    if id !in db.users then Err(UserNotFound)
    else Ok(db.(users := db.users[id := db.users[id].(password := password)]))
  }

  function DeleteUser(db: Database, id: int): Result<Database, Error> {
    if id !in db.users then Err(UserNotFound) else Ok(db.(users := db.users - {id}))
  }

  function PatchUser(db: Database, id: int, patch: Patch): (r: Result<Database, Error>)
    ensures r.Ok? ==> id in r.value.users
  {
    match ValidatePatch(patch)
    case Err(e) => Err(e)
    case Ok(flags) =>
      if id !in db.users then Err(UserNotFound)
      else Ok(db.(users := db.users[id := db.users[id].(permissions := Some(Merge(db.users[id].permissions, flags)))]))
  }

  function ResetUsers(db: Database): Database {
    db.(users := map i | i in db.users :: db.users[i].(permissions := Some(map[])))
  }

  // ---------------------------------------------------------------- translations

  function UpsertSmall(db: Database, key: string, patch: Texts): (after: Database)
    ensures key in after.small
  {
    db.(small := db.small[key := if key in db.small then db.small[key] + patch else patch])
  }

  function UpsertLarge(db: Database, p: Pair, patch: Texts): (after: Database)
    ensures p in after.large
  {
    db.(large := db.large[p := if p in db.large then db.large[p] + patch else patch])
  }
}
