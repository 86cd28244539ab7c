/** What a write request does, in rows and fields: when it is refused and with which status, what it
    changes otherwise, and what it answers. */
module WriteEffects {
  import opened Wrappers
  import opened Records
  import opened Json
  import opened Ordering
  import opened Responses
  import opened CrudLaws
  import opened Endpoints
  import Crud

  // ---------------------------------------------------------------- refusals

  /** The role no request may change. */
  predicate Guarded(id: int, r: Role) { id == 1 || r.name == "SuperAdmin" }

  predicate RoleNamed(db: Database, id: int, name: string) { id in db.roles && db.roles[id].name == name }

  predicate TakenByAnother(db: Database, id: int, name: string) {
    exists i :: i in db.roles && i != id && db.roles[i].name == name
  }

  predicate UsedByAnother(db: Database, id: int, username: string) {
    exists i :: i in db.users && i != id && db.users[i].username == username
  }

  /** A key of the patch that has a value already in a role of that name. */
  predicate WouldOverwrite(db: Database, name: string, patch: Crud.Patch) {
    exists i, k :: i in db.roles && k in patch && db.roles[i].name == name && ValueOf(db.roles[i].permissions, k).Some?
  }

  function AppendRefusal(db: Database, name: string, patch: Crud.Patch): Option<nat> {
    if !WellFormed(patch) then Some(400)
    else if forall i :: i in db.roles ==> db.roles[i].name != name then Some(404)
    else if WouldOverwrite(db, name, patch) then Some(409)
    else None
  }

  function UserUpdateRefusal(db: Database, id: int, username: Option<string>, roleId: Option<int>): Option<nat> {
    if id !in db.users then Some(404)
    else if username.Some? && UsedByAnother(db, id, username.value) then Some(if roleId.Some? then 500 else 409)
    else if roleId.Some? && roleId.value !in db.roles then Some(404)
    else None
  }

  /** The status of a refusal, or nothing when the request is carried out. */
  function RefusalOf(db: Database, req: Request): Option<nat>
    requires !req.Read?
  {
    match req
    case CreateRole(name, _, id) => if TakenByAnother(db, id, name) then Some(409) else None
    case UpdateRole(id, name, _) =>
      if id !in db.roles then Some(404)
      else if Guarded(id, db.roles[id]) then Some(403)
      else if name.Some? && TakenByAnother(db, id, name.value) then Some(409)
      else None
    case DeleteRole(id) =>
      if id !in db.roles then Some(404)
      else if Guarded(id, db.roles[id]) then Some(403)
      else if exists u :: u in db.users && db.users[u].roleId == id then Some(409)
      else None
    case PatchRole(id, patch) =>
      if !WellFormed(patch) then Some(400)
      else if id !in db.roles then Some(404)
      else if Guarded(id, db.roles[id]) then Some(403)
      else None
    case ResetRoles => None
    case AppendRole(name, patch) => AppendRefusal(db, name, patch)
    case CreateUser(username, _, roleId, id) =>
      if roleId !in db.roles then Some(404)
      else if UsedByAnother(db, id, username) then Some(409)
      else None
    case UpdateUser(id, username, roleId) => UserUpdateRefusal(db, id, username, roleId)
    case SetPassword(id, _) => if id in db.users then None else Some(404)
    case DeleteUser(id, actor) => if actor == id then Some(403) else if id in db.users then None else Some(404)
    case PatchUser(id, patch) =>
      if !WellFormed(patch) then Some(400) else if id in db.users then None else Some(404)
    case ResetUsers => None
    case UpsertSmall(key, _, mayCreate, mayPatch) =>
      if (if key in db.small then mayPatch else mayCreate) then None else Some(403)
    case UpsertLarge(key1, key2, _, mayCreate, mayPatch) =>
      if (if (key1, key2) in db.large then mayPatch else mayCreate) then None else Some(403)
  }

  // ---------------------------------------------------------------- effects

  function Given<T>(value: Option<T>, was: T): T { if value.Some? then value.value else was }

  /** The patched keys have the given values, the others theirs. */
  ghost predicate Patched(before: Option<Flags>, after: Option<Flags>, patch: Crud.Patch) {
    && after.Some?
    && forall k :: ValueOf(after, k) ==
                   if k in patch && patch[k].Flag? then Some(patch[k].b) else ValueOf(before, k)
  }

  /** The given languages have the given texts, the others theirs. */
  ghost predicate Upserted(before: Option<Texts>, after: Texts, data: Texts) {
    && (forall l :: l in after <==> l in data || (before.Some? && l in before.value))
    && (forall l :: l in after ==> after[l] == if l in data then data[l] else before.value[l])
  }

  /** Exactly the role `id` is inserted or replaced, and shown. */
  ghost predicate RoleWritten(db: Database, db': Database, id: int, response: Response) {
    && OnlyRole(db, db', id) && id in db'.roles
    && response.Served? && ShowsRole(response.body, id, db'.roles[id])
  }

  ghost predicate UserWritten(db: Database, db': Database, id: int, response: Response) {
    && OnlyUser(db, db', id) && id in db'.users
    && response.Served? && ShowsUser(response.body, id, db'.users[id])
  }

  /** An object with one member. */
  predicate Says(response: Response, name: string, value: Json) {
    response.Served? && HasFields(response.body, {name}) && response.body.fields[name] == value
  }

  ghost predicate RolesReset(db: Database, db': Database, response: Response) {
    && db' == db.(roles := db'.roles) && db'.roles.Keys == db.roles.Keys
    && (forall i :: i in db.roles ==>
          db'.roles[i] == if Guarded(i, db.roles[i]) then db.roles[i] else db.roles[i].(permissions := Some(map[])))
    && Says(response, "updated", Num(|set i | i in db.roles && !Guarded(i, db.roles[i])|))
  }

  ghost predicate UsersReset(db: Database, db': Database, response: Response) {
    && db' == db.(users := db'.users) && db'.users.Keys == db.users.Keys
    && (forall i :: i in db.users ==> db'.users[i] == db.users[i].(permissions := Some(map[])))
    && Says(response, "updated", Num(|db.users.Keys|))
  }

  ghost predicate RoleAppended(db: Database, db': Database, name: string, patch: Crud.Patch, response: Response) {
    exists id ::
      && RoleNamed(db, id, name) && OnlyRole(db, db', id) && id in db'.roles
      && db'.roles[id] == db.roles[id].(permissions := db'.roles[id].permissions)
      && Patched(db.roles[id].permissions, db'.roles[id].permissions, patch)
      && response.Served? && HasFields(response.body, {"status", "role", "permissions"})
      && response.body.fields["status"] == Str("updated") && response.body.fields["role"] == Str(name)
      && ShowsFlags(response.body.fields["permissions"], db'.roles[id].permissions)
  }

  ghost predicate SmallUpserted(db: Database, db': Database, key: string, data: Texts, response: Response) {
    && db' == db.(small := db'.small) && db'.small - {key} == db.small - {key} && key in db'.small
    && Upserted(if key in db.small then Some(db.small[key]) else None, db'.small[key], data)
    && response.Served? && ShowsSmall(response.body, key, db'.small[key])
  }

  ghost predicate LargeUpserted(db: Database, db': Database, p: Pair, data: Texts, response: Response) {
    && db' == db.(large := db'.large) && db'.large - {p} == db.large - {p} && p in db'.large
    && Upserted(if p in db.large then Some(db.large[p]) else None, db'.large[p], data)
    && response.Served? && ShowsLarge(response.body, p, db'.large[p])
  }

  /** What carrying out the request means, from the tables before to those after and the answer. */
  ghost predicate Effect(db: Database, req: Request, db': Database, response: Response)
    requires !req.Read? && RefusalOf(db, req).None?
  {
    match req
    case CreateRole(name, titleKey, id) =>
      RoleWritten(db, db', id, response) && db'.roles[id] == Role(name, titleKey, Some(map[]))
    case UpdateRole(id, name, titleKey) =>
      && RoleWritten(db, db', id, response)
      && db'.roles[id] == Role(Given(name, db.roles[id].name), Given(titleKey, db.roles[id].titleKey),
                               db.roles[id].permissions)
    case DeleteRole(id) => OnlyRole(db, db', id) && id !in db'.roles && response == NoContent
    case PatchRole(id, patch) =>
      && RoleWritten(db, db', id, response)
      && db'.roles[id] == db.roles[id].(permissions := db'.roles[id].permissions)
      && Patched(db.roles[id].permissions, db'.roles[id].permissions, patch)
    case ResetRoles => RolesReset(db, db', response)
    case AppendRole(name, patch) => RoleAppended(db, db', name, patch, response)
    case CreateUser(username, password, roleId, id) =>
      UserWritten(db, db', id, response) && db'.users[id] == User(username, password, roleId, Some(map[]))
    case UpdateUser(id, username, roleId) =>
      && UserWritten(db, db', id, response)
      && db'.users[id] == User(Given(username, db.users[id].username), db.users[id].password,
                               Given(roleId, db.users[id].roleId), db.users[id].permissions)
    case SetPassword(id, password) =>
      && OnlyUser(db, db', id) && id in db'.users
      && db'.users[id] == db.users[id].(password := password)
      && Says(response, "message", Str("Password updated"))
    case DeleteUser(id, _) => OnlyUser(db, db', id) && id !in db'.users && response == NoContent
    case PatchUser(id, patch) =>
      && UserWritten(db, db', id, response)
      && db'.users[id] == db.users[id].(permissions := db'.users[id].permissions)
      && Patched(db.users[id].permissions, db'.users[id].permissions, patch)
    case ResetUsers => UsersReset(db, db', response)
    case UpsertSmall(key, data, _, _) => SmallUpserted(db, db', key, data, response)
    case UpsertLarge(key1, key2, data, _, _) => LargeUpserted(db, db', (key1, key2), data, response)
  }

  /** Refused, with the status and nothing changed; or carried out. */
  ghost predicate Done(db: Database, req: Request, db': Database, response: Response)
    requires !req.Read?
  {
    match RefusalOf(db, req)
    case Some(status) => response == Refused(status) && db' == db
    case None => Effect(db, req, db', response)
  }

  // ---------------------------------------------------------------- each endpoint

  lemma CreateRoleDoes(db: Database, name: string, titleKey: string, id: int)
    requires id !in db.roles
    ensures var plan := PlanOf(db, CreateRole(name, titleKey, id));
            Done(db, CreateRole(name, titleKey, id), plan.db, plan.response)
  {
    CreateRoleLaw(db, name, titleKey, id);
    hide ShowsRole, SerializeRole, Crud.CreateRole;
    RoleShown(id, Role(name, titleKey, Some(map[])));
  }

  lemma UpdateRoleDoes(db: Database, id: int, name: Option<string>, titleKey: Option<string>)
    requires Crud.Consistent(db)
    ensures var plan := PlanOf(db, UpdateRole(id, name, titleKey));
            Done(db, UpdateRole(id, name, titleKey), plan.db, plan.response)
  {
    hide ShowsRole, SerializeRole;
    UpdateRoleLaw(db, id, name, titleKey);
    if id in db.roles {
      RoleShown(id, Role(Given(name, db.roles[id].name), Given(titleKey, db.roles[id].titleKey),
                         db.roles[id].permissions));
    }
  }

  lemma DeleteRoleDoes(db: Database, id: int)
    ensures var plan := PlanOf(db, DeleteRole(id)); Done(db, DeleteRole(id), plan.db, plan.response)
  {
    DeleteRoleLaw(db, id);
  }

  lemma PatchRoleDoes(db: Database, id: int, patch: Crud.Patch)
    ensures var plan := PlanOf(db, PatchRole(id, patch)); Done(db, PatchRole(id, patch), plan.db, plan.response)
  {
    hide ShowsRole, SerializeRole;
    PatchRoleLaw(db, id, patch);
    var plan := PlanOf(db, PatchRole(id, patch));
    if id in plan.db.roles { RoleShown(id, plan.db.roles[id]); }
  }

  lemma ResetRolesDoes(db: Database)
    ensures var plan := PlanOf(db, ResetRoles); Done(db, ResetRoles, plan.db, plan.response)
  {
    ResetLaw(db);
    assert Crud.Resettable(db.roles) == set i | i in db.roles && !Guarded(i, db.roles[i]);
  }

  lemma NothingOverwritten(db: Database, name: string, patch: Crud.Patch, id: int)
    requires Crud.UniqueNames(db.roles) && RoleNamed(db, id, name)
    requires forall k :: k in patch ==> ValueOf(db.roles[id].permissions, k).None?
    ensures !WouldOverwrite(db, name, patch)
  {
    hide ValueOf;
  }

  lemma AppendIsRefused(db: Database, name: string, patch: Crud.Patch)
    requires Crud.UniqueNames(db.roles)
    ensures match Crud.AppendRole(db, name, patch)
            case Ok(_) => AppendRefusal(db, name, patch).None?
            case Err(e) => AppendRefusal(db, name, patch) == Some(Status(e))
  {
    AppendLaw(db, name, patch);
    hide WellFormed, ValueOf, WouldOverwrite, Crud.UniqueNames, OnlyRole, Blocked;
    match Crud.AppendRole(db, name, patch)
    case Ok((_, id)) => NothingOverwritten(db, name, patch, id);
    case Err(DuplicateKeys(keys)) =>
      var id :| id in db.roles && db.roles[id].name == name && Blocked(keys, patch, db.roles[id]);
      AppendReadsThePatch(db, name, patch);
      BlockedOverwrites(db, id, keys, patch);
    case Err(_) =>
  }

  lemma AppendReadsThePatch(db: Database, name: string, patch: Crud.Patch)
    ensures Crud.AppendRole(db, name, patch).Err? && Crud.AppendRole(db, name, patch).error.DuplicateKeys? ==>
              WellFormed(patch)
  {
    PatchIsValidIff(patch);
  }

  lemma BlockedOverwrites(db: Database, id: int, keys: set<string>, patch: Crud.Patch)
    requires id in db.roles && keys != {} && Blocked(keys, patch, db.roles[id])
    ensures WouldOverwrite(db, db.roles[id].name, patch)
  {
    var k :| k in keys;
    assert k in patch && ValueOf(db.roles[id].permissions, k).Some?;
  }

  lemma AppendRoleDoes(db: Database, name: string, patch: Crud.Patch)
    requires Crud.Consistent(db)
    ensures var plan := PlanOf(db, AppendRole(name, patch)); Done(db, AppendRole(name, patch), plan.db, plan.response)
  {
    AppendLaw(db, name, patch);
    AppendIsRefused(db, name, patch);
    hide Crud.AppendRole, AppendRefusal, WellFormed, ValueOf, OnlyRole, Crud.Consistent, ShowsFlags, FlagsJson, OrEmpty;
    var result := Crud.AppendRole(db, name, patch);
    if result.Ok? {
      var (db', id) := result.value;
      AppendAnswers(db, db', id, name, patch);
    }
  }

  lemma AppendAnswers(db: Database, db': Database, id: int, name: string, patch: Crud.Patch)
    requires RoleNamed(db, id, name) && OnlyRole(db, db', id) && id in db'.roles && WellFormed(patch)
    requires db'.roles[id].(permissions := None) == db.roles[id].(permissions := None)
    requires db'.roles[id].permissions.Some?
    requires forall k :: ValueOf(db'.roles[id].permissions, k) ==
                         if k in patch then Some(patch[k].b) else ValueOf(db.roles[id].permissions, k)
    ensures RoleAppended(db, db', name, patch, Appended(id, db'.roles[id]))
  {
    hide ShowsFlags, FlagsJson, OrEmpty, OnlyRole, ValueOf;
    FlagsShown(db'.roles[id].permissions);
  }

  lemma CreateUserDoes(db: Database, username: string, password: string, roleId: int, id: int)
    requires id !in db.users
    ensures var req := CreateUser(username, password, roleId, id);
            Done(db, req, PlanOf(db, req).db, PlanOf(db, req).response)
  {
    CreateUserLaw(db, username, password, roleId, id);
    hide ShowsUser, SerializeUser, Crud.CreateUser;
    UserShown(id, User(username, password, roleId, Some(map[])));
  }

  lemma UserUpdateIsRefused(db: Database, id: int, username: Option<string>, roleId: Option<int>)
    requires Crud.Consistent(db)
    ensures match Crud.UpdateUser(db, id, username, roleId)
            case Ok(_) => UserUpdateRefusal(db, id, username, roleId).None?
            case Err(e) => UserUpdateRefusal(db, id, username, roleId) == Some(Status(e))
  {
  }

  lemma UpdateUserDoes(db: Database, id: int, username: Option<string>, roleId: Option<int>)
    requires Crud.Consistent(db)
    ensures var req := UpdateUser(id, username, roleId); Done(db, req, PlanOf(db, req).db, PlanOf(db, req).response)
  {
    UpdateUserLaw(db, id, username, roleId);
    UserUpdateIsRefused(db, id, username, roleId);
    hide ShowsUser, SerializeUser, UserUpdateRefusal, Crud.UpdateUser, Crud.Consistent, OnlyUser;
    var plan := PlanOf(db, UpdateUser(id, username, roleId));
    if id in plan.db.users { UserShown(id, plan.db.users[id]); }
  }

  lemma AccountDoes(db: Database, id: int, password: string, actor: int)
    ensures var req := SetPassword(id, password); Done(db, req, PlanOf(db, req).db, PlanOf(db, req).response)
    ensures var req := DeleteUser(id, actor); Done(db, req, PlanOf(db, req).db, PlanOf(db, req).response)
  {
    AccountLaw(db, id, password);
  }

  lemma PatchUserDoes(db: Database, id: int, patch: Crud.Patch)
    ensures var plan := PlanOf(db, PatchUser(id, patch)); Done(db, PatchUser(id, patch), plan.db, plan.response)
  {
    hide ShowsUser, SerializeUser;
    PatchUserLaw(db, id, patch);
    var plan := PlanOf(db, PatchUser(id, patch));
    if id in plan.db.users { UserShown(id, plan.db.users[id]); }
  }

  lemma ResetUsersDoes(db: Database)
    ensures var plan := PlanOf(db, ResetUsers); Done(db, ResetUsers, plan.db, plan.response)
  {
    ResetLaw(db);
    assert |db.users| == |db.users.Keys|;
  }

  lemma SmallIsUpserted(db: Database, key: string, data: Texts)
    ensures var db' := Crud.UpsertSmall(db, key, data);
            SmallUpserted(db, db', key, data, Served(SmallJson(key, db'.small[key])))
  {
    UpsertSmallLaw(db, key, data);
    SmallShown(key, Crud.UpsertSmall(db, key, data).small[key]);
    hide ShowsSmall, SmallJson, Crud.UpsertSmall;
  }

  lemma UpsertSmallDoes(db: Database, key: string, data: Texts, mayCreate: bool, mayPatch: bool)
    ensures var req := UpsertSmall(key, data, mayCreate, mayPatch);
            Done(db, req, PlanOf(db, req).db, PlanOf(db, req).response)
  {
    SmallIsUpserted(db, key, data);
    hide SmallUpserted, SmallJson, Crud.UpsertSmall;
  }

  lemma LargeIsUpserted(db: Database, p: Pair, data: Texts)
    ensures var db' := Crud.UpsertLarge(db, p, data);
            LargeUpserted(db, db', p, data, Served(LargeJson(p.0, p.1, db'.large[p])))
  {
    UpsertLargeLaw(db, p, data);
    LargeShown(p, Crud.UpsertLarge(db, p, data).large[p]);
    hide ShowsLarge, LargeJson, Crud.UpsertLarge;
  }

  lemma UpsertLargeDoes(db: Database, key1: string, key2: string, data: Texts, mayCreate: bool, mayPatch: bool)
    ensures var req := UpsertLarge(key1, key2, data, mayCreate, mayPatch);
            Done(db, req, PlanOf(db, req).db, PlanOf(db, req).response)
  {
    LargeIsUpserted(db, (key1, key2), data);
    hide LargeUpserted, LargeJson, Crud.UpsertLarge;
  }

  /** Every write request, served on any tables that meet their constraints: it is refused exactly
      when `RefusalOf` says so, and otherwise has exactly its effect; time and lifetime stay. */
  lemma WritesDoWhatTheySay(s: Server, req: Request)
    requires !req.Read? && Crud.Consistent(s.db) && FreshIds(s.db, req)
    ensures var (s', response) := Serve(s, req);
            Done(s.db, req, s'.db, response) && s'.clock == s.clock && s'.ttl == s.ttl
  {
    hide Done, PlanOf, Crud.Consistent;
    match req
    case CreateRole(name, titleKey, id) => CreateRoleDoes(s.db, name, titleKey, id);
    case UpdateRole(id, name, titleKey) => UpdateRoleDoes(s.db, id, name, titleKey);
    case DeleteRole(id) => DeleteRoleDoes(s.db, id);
    case PatchRole(id, patch) => PatchRoleDoes(s.db, id, patch);
    case ResetRoles => ResetRolesDoes(s.db);
    case AppendRole(name, patch) => AppendRoleDoes(s.db, name, patch);
    case CreateUser(username, password, roleId, id) => CreateUserDoes(s.db, username, password, roleId, id);
    case UpdateUser(id, username, roleId) => UpdateUserDoes(s.db, id, username, roleId);
    case SetPassword(id, password) => AccountDoes(s.db, id, password, id);
    case DeleteUser(id, actor) => AccountDoes(s.db, id, "", actor);
    case PatchUser(id, patch) => PatchUserDoes(s.db, id, patch);
    case ResetUsers => ResetUsersDoes(s.db);
    case UpsertSmall(key, data, mayCreate, mayPatch) => UpsertSmallDoes(s.db, key, data, mayCreate, mayPatch);
    case UpsertLarge(key1, key2, data, mayCreate, mayPatch) =>
      UpsertLargeDoes(s.db, key1, key2, data, mayCreate, mayPatch);
  }
}
