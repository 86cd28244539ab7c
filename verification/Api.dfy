/** The RBAC and i18n route handlers as they run: a transaction in the session, then calls on
    the cache, one after the other. Each is proved to be the step `Endpoints.Serve` of its request. */
module Api {
  import opened Wrappers
  import opened CacheKeys
  import opened Json
  import opened Records
  import opened Endpoints
  import opened RedisCacheService
  import opened DatabaseSession
  import Crud

  /** `_ids_are_strictly_increasing` and its i18n counterparts */
  method KeysAreStrictlyIncreasing(c: Cell, items: seq<Json>) returns (ok: bool)
    ensures ok == StrictlyIncreasing(c, items)
  {
    var previous: Option<Json> := None;
    for k := 0 to |items|
      invariant previous == if k == 0 then None else Some(items[k - 1])
      invariant forall i :: 0 < i < k ==> Before(c, items[i - 1], items[i])
    {
      if previous.Some? && !Before(c, previous.value, items[k]) { return false; }
      previous := Some(items[k]);
    }
    return true;
  }

  /** The normalizer of a cell's payload. */
  method NormalizePayload(c: Cell, payload: Json) returns (r: Option<Json>)
    ensures r == Normalize(c, payload)
  {
    if IsList(c) {
      if !payload.Obj? || "items" !in payload.fields || !payload.fields["items"].Arr? { return None; }
      var items := CheckAll(c, payload.fields["items"].items);
      if items.None? { return None; }
      var ordered := KeysAreStrictlyIncreasing(c, items.value);
      return if ordered then Some(Arr(items.value)) else None;
    }
    var item := Check(c, payload);
    return if item.Some? && Expected(c, item.value) then item else None;
  }

  lemma RunTwo(r: Redis, first: CacheOp, second: CacheOp, now: Time, ttl: int)
    ensures RunOps(r, [first, second], now, ttl) == RunOp(RunOp(r, first, now, ttl), second, now, ttl)
  {
    var rest := [first, second][1..];
    assert rest == [second] && rest[1..] == [];
    assert RunOps(RunOp(r, first, now, ttl), rest, now, ttl) == RunOp(RunOp(r, first, now, ttl), second, now, ttl);
  }

  class Handlers {
    var clock: Time
    const session: Session
    const cache: CacheService

    ghost predicate Valid()
      reads this, session, cache
    {
      session.Valid()
    }

    function State(): Server
      reads this, session, cache
    {
      Server(clock, cache.defaultTtl, session.tables, cache.State())
    }

    constructor (db: Database, ttl: int, faults: seq<bool>, start: Time)
      requires Crud.Consistent(db)
      ensures Valid() && fresh(session) && fresh(cache)
      ensures State() == Server(start, ttl, db, Redis(map[], faults))
    {
      clock := start;
      session := new Session(db);
      cache := new CacheService(ttl, faults);
    }

    /** The four list and four item reads. */
    method Read(c: Cell) returns (response: Response)
      requires Valid()
      modifies cache
      ensures Valid() && (State(), response) == Serve(old(State()), Request.Read(c))
    {
      var key := KeyOf(c);
      var cached := cache.GetJson(key, clock);
      if cached.Some? {
        var body := NormalizePayload(c, cached.value);
        if body.Some? { return Served(body.value); }
        cache.Delete({key});
      }
      var payload := Current(session.tables, c);
      if payload.None? { return Refused(404); }
      cache.SetJson(key, payload.value, clock);
      return Served(Body(c, payload.value));
    }

    // -------------------------------------------------------------- cache calls after a commit

    function AfterCalls(r: Redis, first: CacheOp, second: CacheOp): Redis
      reads this
    {
      RunOps(r, [first, second], clock, cache.defaultTtl)
    }

    /** Drop a list, then store an item. */
    method Refresh(listKey: string, itemKey: string, payload: Json)
      modifies cache
      ensures cache.State() == AfterCalls(old(cache.State()), DropOp({listKey}), PutOp(itemKey, payload))
    {
      RunTwo(cache.State(), DropOp({listKey}), PutOp(itemKey, payload), clock, cache.defaultTtl);
      cache.Delete({listKey});
      cache.SetJson(itemKey, payload, clock);
    }

    /** Drop an item, then its list. */
    method Forget(itemKey: string, listKey: string)
      modifies cache
      ensures cache.State() == AfterCalls(old(cache.State()), DropOp({itemKey}), DropOp({listKey}))
    {
      RunTwo(cache.State(), DropOp({itemKey}), DropOp({listKey}), clock, cache.defaultTtl);
      cache.Delete({itemKey});
      cache.Delete({listKey});
    }

    method ForgetAll(keys: set<string>)
      modifies cache
      ensures cache.State() == RunOps(old(cache.State()), [DropOp(keys)], clock, cache.defaultTtl)
    {
      cache.Delete(keys);
    }

    // -------------------------------------------------------------- roles

    method StoreRole(id: int) returns (response: Response)
      requires Valid() && id in session.tables.roles
      modifies cache
      ensures Valid()
      ensures var payload := SerializeRole(id, session.tables.roles[id]);
              && response == Served(payload)
              && cache.State() == AfterCalls(old(cache.State()), DropOp({RoleListKey()}), PutOp(RoleKey(id), payload))
    {
      var payload := SerializeRole(id, session.tables.roles[id]);
      Refresh(RoleListKey(), RoleKey(id), payload);
      return Served(payload);
    }

    method CreateRole(name: string, titleKey: string, newId: int) returns (response: Response)
      requires Valid() && newId !in session.tables.roles
      modifies session, cache
      ensures Valid() && (State(), response) == Serve(old(State()), Request.CreateRole(name, titleKey, newId))
    {
      hide Crud.CreateRole, Crud.Consistent, RoleKey, RoleListKey, SerializeRole;
      var raised := session.CreateRole(name, titleKey, newId);
      if raised.Some? { return Refused(Status(raised.value)); }
      response := StoreRole(newId);
    }

    method UpdateRole(id: int, name: Option<string>, titleKey: Option<string>) returns (response: Response)
      requires Valid()
      modifies session, cache
      ensures Valid() && (State(), response) == Serve(old(State()), Request.UpdateRole(id, name, titleKey))
    {
      hide Crud.UpdateRole, Crud.Consistent, RoleKey, RoleListKey, SerializeRole;
      var raised := session.UpdateRole(id, name, titleKey);
      if raised.Some? { return Refused(Status(raised.value)); }
      response := StoreRole(id);
    }

    method PatchRole(id: int, patch: Crud.Patch) returns (response: Response)
      requires Valid()
      modifies session, cache
      ensures Valid() && (State(), response) == Serve(old(State()), Request.PatchRole(id, patch))
    {
      hide Crud.PatchRole, Crud.Consistent, RoleKey, RoleListKey, SerializeRole;
      var raised := session.PatchRole(id, patch);
      if raised.Some? { return Refused(Status(raised.value)); }
      response := StoreRole(id);
    }

    method DeleteRole(id: int) returns (response: Response)
      requires Valid()
      modifies session, cache
      ensures Valid() && (State(), response) == Serve(old(State()), Request.DeleteRole(id))
    {
      hide Crud.DeleteRole, Crud.Consistent, RoleKey, RoleListKey, SerializeRole;
      var raised := session.DeleteRole(id);
      if raised.Some? { return Refused(Status(raised.value)); }
      Forget(RoleKey(id), RoleListKey());
      return NoContent;
    }

    /** The keys are those of the roles listed before the reset. */
    method ResetRoles() returns (response: Response)
      requires Valid()
      modifies session, cache
      ensures Valid() && (State(), response) == Serve(old(State()), Request.ResetRoles)
    {
      hide Crud.ResetRoles, Crud.Consistent, RunOps, RoleKey, RoleListKey;
      var roles := session.tables.roles;
      var updated := session.ResetRoles();
      var keys := set i | i in roles && !Crud.IsSuperAdmin(i, roles[i]) :: RoleKey(i);
      ForgetAll(keys + {RoleListKey()});
      return Updated(updated);
    }

    method AppendRole(name: string, patch: Crud.Patch) returns (response: Response)
      requires Valid()
      modifies session, cache
      ensures Valid() && (State(), response) == Serve(old(State()), Request.AppendRole(name, patch))
    {
      hide Crud.AppendRole, Crud.Consistent, RoleKey, RoleListKey, SerializeRole;
      var result := session.AppendRole(name, patch);
      if result.Err? { return Refused(Status(result.error)); }
      var id := result.value;
      Forget(RoleKey(id), RoleListKey());
      return Appended(id, session.tables.roles[id]);
    }

    // -------------------------------------------------------------- users

    method StoreUser(id: int) returns (response: Response)
      requires Valid() && id in session.tables.users
      modifies cache
      ensures Valid()
      ensures var payload := SerializeUser(id, session.tables.users[id]);
              && response == Served(payload)
              && cache.State() == AfterCalls(old(cache.State()), DropOp({UserListKey()}), PutOp(UserKey(id), payload))
    {
      var payload := SerializeUser(id, session.tables.users[id]);
      Refresh(UserListKey(), UserKey(id), payload);
      return Served(payload);
    }

    method CreateUser(username: string, password: string, roleId: int, newId: int) returns (response: Response)
      requires Valid() && newId !in session.tables.users
      modifies session, cache
      ensures Valid()
      ensures (State(), response) == Serve(old(State()), Request.CreateUser(username, password, roleId, newId))
    {
      hide Crud.CreateUser, Crud.Consistent, UserKey, UserListKey, SerializeUser;
      var raised := session.CreateUser(username, password, roleId, newId);
      if raised.Some? { return Refused(Status(raised.value)); }
      response := StoreUser(newId);
    }

    method UpdateUser(id: int, username: Option<string>, roleId: Option<int>) returns (response: Response)
      requires Valid()
      modifies session, cache
      ensures Valid() && (State(), response) == Serve(old(State()), Request.UpdateUser(id, username, roleId))
    {
      hide Crud.UpdateUser, Crud.Consistent, UserKey, UserListKey, SerializeUser;
      var raised := session.UpdateUser(id, username, roleId);
      if raised.Some? { return Refused(Status(raised.value)); }
      response := StoreUser(id);
    }

    method PatchUser(id: int, patch: Crud.Patch) returns (response: Response)
      requires Valid()
      modifies session, cache
      ensures Valid() && (State(), response) == Serve(old(State()), Request.PatchUser(id, patch))
    {
      hide Crud.PatchUser, Crud.Consistent, UserKey, UserListKey, SerializeUser;
      var raised := session.PatchUser(id, patch);
      if raised.Some? { return Refused(Status(raised.value)); }
      response := StoreUser(id);
    }

    method SetPassword(id: int, password: string) returns (response: Response)
      requires Valid()
      modifies session, cache
      ensures Valid() && (State(), response) == Serve(old(State()), Request.SetPassword(id, password))
    {
      hide Crud.SetPassword, Crud.Consistent, UserKey, UserListKey, SerializeUser;
      var raised := session.SetPassword(id, password);
      if raised.Some? { return Refused(Status(raised.value)); }
      ForgetAll({UserKey(id)});
      return Message("Password updated");
    }

    method DeleteUser(id: int, actor: int) returns (response: Response)
      requires Valid()
      modifies session, cache
      ensures Valid() && (State(), response) == Serve(old(State()), Request.DeleteUser(id, actor))
    {
      hide Crud.DeleteUser, Crud.Consistent, UserKey, UserListKey, SerializeUser;
      if actor == id { return Refused(403); }
      var raised := session.DeleteUser(id);
      if raised.Some? { return Refused(Status(raised.value)); }
      Forget(UserKey(id), UserListKey());
      return NoContent;
    }

    method ResetUsers() returns (response: Response)
      requires Valid()
      modifies session, cache
      ensures Valid() && (State(), response) == Serve(old(State()), Request.ResetUsers)
    {
      hide Crud.ResetUsers, Crud.Consistent, RunOps, UserKey, UserListKey;
      var users := session.tables.users;
      var count := session.ResetUsers();
      var keys := set i | i in users :: UserKey(i);
      ForgetAll(keys + {UserListKey()});
      return Updated(count);
    }

    // -------------------------------------------------------------- translations

    method UpsertSmall(key: string, data: Texts, mayCreate: bool, mayPatch: bool) returns (response: Response)
      requires Valid()
      modifies session, cache
      ensures Valid()
      ensures (State(), response) == Serve(old(State()), Request.UpsertSmall(key, data, mayCreate, mayPatch))
    {
      hide Crud.UpsertSmall, Crud.Consistent, SmallKey, SmallListKey, SmallJson;
      var found := key in session.tables.small;
      if !(if found then mayPatch else mayCreate) { return Refused(403); }
      session.UpsertSmall(key, data);
      ForgetAll({SmallKey(key), SmallListKey()});
      return Served(SmallJson(key, session.tables.small[key]));
    }

    method UpsertLarge(key1: string, key2: string, data: Texts, mayCreate: bool, mayPatch: bool)
      returns (response: Response)
      requires Valid()
      modifies session, cache
      ensures Valid()
      ensures (State(), response) == Serve(old(State()), Request.UpsertLarge(key1, key2, data, mayCreate, mayPatch))
    {
      hide Crud.UpsertLarge, Crud.Consistent, LargeKey, LargeListKey, LargeJson;
      var found := (key1, key2) in session.tables.large;
      if !(if found then mayPatch else mayCreate) { return Refused(403); }
      session.UpsertLarge((key1, key2), data);
      ForgetAll({LargeKey(key1, key2), LargeListKey()});
      return Served(LargeJson(key1, key2, session.tables.large[(key1, key2)]));
    }
  }
}
