/** The RBAC and i18n endpoints: each reads through, or commits to the tables and then
    refreshes, one shared Redis whose calls may fail. */
module Endpoints {
  import opened Wrappers
  import opened CacheKeys
  import opened Json
  import opened Records
  import opened Crud

  // ---------------------------------------------------------------- Redis

  type Time = int

  datatype Entry = Entry(payload: Json, diesAt: Time)

  /** `faults` foretells which of the coming calls fail; beyond its end none does. A client that
      is disabled is one whose calls all fail. */
  datatype Redis = Redis(entries: map<string, Entry>, faults: seq<bool>)

  predicate Fails(r: Redis) { r.faults != [] && r.faults[0] }

  function Next(r: Redis): Redis { r.(faults := if r.faults == [] then [] else r.faults[1..]) }

  /** `get_json` */
  function Get(r: Redis, key: string, now: Time): Option<Json> {
    if !Fails(r) && key in r.entries && r.entries[key].diesAt > now then Some(r.entries[key].payload) else None
  }

  /** `set_json` with the default lifetime */
  function Set(r: Redis, key: string, payload: Json, now: Time, ttl: int): Redis {
    if Fails(r) then Next(r)
    else Next(r).(entries := r.entries[key := Entry(payload, now + ttl)])
  }

  /** `delete` and `delete_many` */
  function Drop(r: Redis, keys: set<string>): Redis {
    if Fails(r) then Next(r) else Next(r).(entries := r.entries - keys)
  }

  // ---------------------------------------------------------------- requests

  datatype Request =
    | Read(cell: Cell)
    | CreateRole(name: string, titleKey: string, newId: int)
    | UpdateRole(id: int, newName: Option<string>, newTitleKey: Option<string>)
    | DeleteRole(id: int)
    | PatchRole(id: int, patch: Patch)
    | ResetRoles
    | AppendRole(name: string, patch: Patch)
    | CreateUser(username: string, password: string, roleId: int, newId: int)
    | UpdateUser(id: int, newUsername: Option<string>, newRoleId: Option<int>)
    | SetPassword(id: int, password: string)
    | DeleteUser(id: int, actor: int)
    | PatchUser(id: int, patch: Patch)
    | ResetUsers
    | UpsertSmall(key: string, data: Texts, mayCreate: bool, mayPatch: bool)
    | UpsertLarge(key1: string, key2: string, data: Texts, mayCreate: bool, mayPatch: bool)

  datatype Response =
    | Served(body: Json)
    | NoContent
    | Refused(status: nat)

  /** A commit, the cache calls that follow it, and the answer. */
  datatype Plan = Plan(db: Database, ops: seq<CacheOp>, response: Response)

  datatype CacheOp = PutOp(key: string, payload: Json) | DropOp(keys: set<string>)

  function Status(e: Error): nat {
    match e
    case RoleNotFound => 404
    case UserNotFound => 404
    case RoleAlreadyExists => 409
    case UsernameAlreadyExists => 409
    case RoleInUse(_) => 409
    case SuperAdminImmutable => 403
    case InvalidPatch(_, _) => 400
    case DuplicateKeys(_) => 409
    case UnhandledIntegrityError => 500
  }

  /** The database assigns ids that are not in use. */
  predicate FreshIds(db: Database, req: Request) {
    (req.CreateRole? ==> req.newId !in db.roles) && (req.CreateUser? ==> req.newId !in db.users)
  }

  predicate IsRoleWrite(req: Request) {
    || req.CreateRole? || req.UpdateRole? || req.PatchRole?
    || req.DeleteRole? || req.AppendRole? || req.ResetRoles?
  }

  predicate IsUserWrite(req: Request) {
    || req.CreateUser? || req.UpdateUser? || req.PatchUser?
    || req.SetPassword? || req.DeleteUser? || req.ResetUsers?
  }

  function Refuse(db: Database, e: Error): Plan { Plan(db, [], Refused(Status(e))) }

  /** A role write: drop the list, store the item, answer with it. */
  function StoreRole(result: Result<Database, Error>, db: Database, id: int): Plan
    requires result.Ok? ==> id in result.value.roles
  {
    match result
    case Err(e) => Refuse(db, e)
    case Ok(db') =>
      var payload := SerializeRole(id, db'.roles[id]);
      Plan(db', [DropOp({RoleListKey()}), PutOp(RoleKey(id), payload)], Served(payload))
  }

  function StoreUser(result: Result<Database, Error>, db: Database, id: int): Plan
    requires result.Ok? ==> id in result.value.users
  {
    match result
    case Err(e) => Refuse(db, e)
    case Ok(db') =>
      var payload := SerializeUser(id, db'.users[id]);
      Plan(db', [DropOp({UserListKey()}), PutOp(UserKey(id), payload)], Served(payload))
  }

  function Updated(count: nat): Response { Served(Obj(map["updated" := Num(count)])) }

  function Message(text: string): Response { Served(Obj(map["message" := Str(text)])) }

  function Appended(id: int, role: Role): Response {
    Served(Obj(map["status" := Str("updated"), "role" := Str(role.name),
                   "permissions" := FlagsJson(OrEmpty(role.permissions))]))
  }

  /** What a write does. A refused one changes no table and makes no cache call, any other makes
      at least one. Nobody deletes their own account, and a translation is created or patched
      only with the permission for just that. */
  function PlanOf(db: Database, req: Request): (plan: Plan)
    requires !req.Read?
    ensures if plan.response.Refused? then plan.db == db && plan.ops == [] else plan.ops != []
    ensures req.DeleteUser? && req.id == req.actor ==> plan.response == Refused(403)
    ensures req.UpsertSmall? ==>
              (plan.response.Refused? <==> !(if req.key in db.small then req.mayPatch else req.mayCreate))
    ensures req.UpsertLarge? ==>
              (plan.response.Refused? <==>
               !(if (req.key1, req.key2) in db.large then req.mayPatch else req.mayCreate))
  {
    match req
    case CreateRole(name, titleKey, newId) => StoreRole(Crud.CreateRole(db, name, titleKey, newId), db, newId)
    case UpdateRole(id, name, titleKey) => StoreRole(Crud.UpdateRole(db, id, name, titleKey), db, id)
    case PatchRole(id, patch) => StoreRole(Crud.PatchRole(db, id, patch), db, id)
    case DeleteRole(id) =>
      (match Crud.DeleteRole(db, id)
       case Err(e) => Refuse(db, e)
       case Ok(db') => Plan(db', [DropOp({RoleKey(id)}), DropOp({RoleListKey()})], NoContent))
    case ResetRoles =>
      var keys := set i | i in db.roles && !IsSuperAdmin(i, db.roles[i]) :: RoleKey(i);
      Plan(Crud.ResetRoles(db), [DropOp(keys + {RoleListKey()})], Updated(|Resettable(db.roles)|))
    case AppendRole(name, patch) =>
      (match Crud.AppendRole(db, name, patch)
       case Err(e) => Refuse(db, e)
       case Ok((db', id)) =>
         Plan(db', [DropOp({RoleKey(id)}), DropOp({RoleListKey()})], Appended(id, db'.roles[id])))
    case CreateUser(username, password, roleId, newId) =>
      StoreUser(Crud.CreateUser(db, username, password, roleId, newId), db, newId)
    case UpdateUser(id, username, roleId) => StoreUser(Crud.UpdateUser(db, id, username, roleId), db, id)
    case PatchUser(id, patch) => StoreUser(Crud.PatchUser(db, id, patch), db, id)
    case SetPassword(id, password) =>
      (match Crud.SetPassword(db, id, password)
       case Err(e) => Refuse(db, e)
       case Ok(db') => Plan(db', [DropOp({UserKey(id)})], Message("Password updated")))
    case DeleteUser(id, actor) =>
      if actor == id then Plan(db, [], Refused(403))
      else
        (match Crud.DeleteUser(db, id)
         case Err(e) => Refuse(db, e)
         case Ok(db') => Plan(db', [DropOp({UserKey(id)}), DropOp({UserListKey()})], NoContent))
    case ResetUsers =>
      var keys := set i | i in db.users :: UserKey(i);
      Plan(Crud.ResetUsers(db), [DropOp(keys + {UserListKey()})], Updated(|db.users|))
    case UpsertSmall(key, data, mayCreate, mayPatch) =>
      if !(if key in db.small then mayPatch else mayCreate) then Plan(db, [], Refused(403))
      else
        var db' := Crud.UpsertSmall(db, key, data);
        Plan(db', [DropOp({SmallKey(key), SmallListKey()})], Served(SmallJson(key, db'.small[key])))
    case UpsertLarge(key1, key2, data, mayCreate, mayPatch) =>
      var p := (key1, key2);
      if !(if p in db.large then mayPatch else mayCreate) then Plan(db, [], Refused(403))
      else
        var db' := Crud.UpsertLarge(db, p, data);
        Plan(db', [DropOp({LargeKey(key1, key2), LargeListKey()})], Served(LargeJson(key1, key2, db'.large[p])))
  }

  // ---------------------------------------------------------------- one call

  datatype Server = Server(clock: Time, ttl: int, db: Database, redis: Redis)

  function RunOp(r: Redis, op: CacheOp, now: Time, ttl: int): Redis {
    match op
    case PutOp(key, payload) => Set(r, key, payload, now, ttl)
    case DropOp(keys) => Drop(r, keys)
  }

  function RunOps(r: Redis, ops: seq<CacheOp>, now: Time, ttl: int): Redis
    decreases |ops|
  {
    if ops == [] then r else RunOps(RunOp(r, ops[0], now, ttl), ops[1..], now, ttl)
  }

  /** What the tables answer to a read: the body, or 404 for a missing row. */
  function FromTables(db: Database, c: Cell): Response {
    match Current(db, c)
    case None => Refused(404)
    case Some(payload) => Served(Body(c, payload))
  }

  /** A read-through read: a cached payload that passes its schema check is served; one that
      does not is deleted; then the tables answer and the answer is stored. */
  function ReadThrough(s: Server, c: Cell): (Server, Response) {
    var key := KeyOf(c);
    var cached := Get(s.redis, key, s.clock);
    var asked := Next(s.redis);
    if cached.Some? && Normalize(c, cached.value).Some? then
      (s.(redis := asked), Served(Normalize(c, cached.value).value))
    else
      var cleared := if cached.Some? then Drop(asked, {key}) else asked;
      match Current(s.db, c)
      case None => (s.(redis := cleared), Refused(404))
      case Some(payload) =>
        (s.(redis := Set(cleared, key, payload, s.clock, s.ttl)), Served(Body(c, payload)))
  }

  function Serve(s: Server, req: Request): (Server, Response) {
    if req.Read? then ReadThrough(s, req.cell)
    else
      var plan := PlanOf(s.db, req);
      (s.(db := plan.db, redis := RunOps(s.redis, plan.ops, s.clock, s.ttl)), plan.response)
  }
}
