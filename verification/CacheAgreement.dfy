/** What clients of the cached endpoints may rely on, over whole runs. */
module CacheAgreement {
  import opened Wrappers
  import opened CacheKeys
  import opened CachePayloads
  import opened Ordering
  import opened Json
  import opened Records
  import opened Endpoints
  import Crud

  /** `payload` is, for some cell of that key, what the tables hold. */
  ghost predicate Stored(db: Database, key: string, payload: Json) {
    exists c :: KeyOf(c) == key && Current(db, c) == Some(payload)
  }

  ghost predicate Agrees(db: Database, entries: map<string, Entry>) {
    forall key :: key in entries ==> Stored(db, key, entries[key].payload)
  }

  // ---------------------------------------------------------------- the cache calls of a write

  predicate Touches(op: CacheOp, key: string) {
    match op
    case PutOp(k, _) => k == key
    case DropOp(keys) => key in keys
  }

  /** Only current values are stored. */
  ghost predicate SoundOps(db: Database, ops: seq<CacheOp>) {
    forall op :: op in ops && op.PutOp? ==> Stored(db, op.key, op.payload)
  }

  /** Every cell a write changes has its key touched. */
  ghost predicate Covers(db: Database, db': Database, ops: seq<CacheOp>) {
    forall c :: Current(db', c) == Current(db, c) || exists op :: op in ops && Touches(op, KeyOf(c))
  }

  /** Where an entry found after some cache calls, failing or not, comes from. */
  lemma {:induction false} EntryOrigin(r: Redis, ops: seq<CacheOp>, now: Time, ttl: int, key: string)
    requires key in RunOps(r, ops, now, ttl).entries
    ensures var e := RunOps(r, ops, now, ttl).entries[key];
            || (key in r.entries && r.entries[key] == e)
            || (e.diesAt == now + ttl && PutOp(key, e.payload) in ops)
    decreases |ops|
  {
    if ops != [] {
      EntryOrigin(RunOp(r, ops[0], now, ttl), ops[1..], now, ttl, key);
    }
  }

  /** When no call fails, what was there before survives only under keys no call touches. */
  lemma {:induction false} ReliableEntryOrigin(r: Redis, ops: seq<CacheOp>, now: Time, ttl: int, key: string)
    requires r.faults == []
    requires key in RunOps(r, ops, now, ttl).entries
    ensures var e := RunOps(r, ops, now, ttl).entries[key];
            || (key in r.entries && r.entries[key] == e && forall op :: op in ops ==> !Touches(op, key))
            || PutOp(key, e.payload) in ops
    decreases |ops|
  {
    if ops != [] {
      ReliableEntryOrigin(RunOp(r, ops[0], now, ttl), ops[1..], now, ttl, key);
      assert ops == [ops[0]] + ops[1..];
    }
  }

  lemma WriteKeepsAgreement(r: Redis, db: Database, db': Database, ops: seq<CacheOp>, now: Time, ttl: int)
    requires r.faults == []
    requires Agrees(db, r.entries) && SoundOps(db', ops) && Covers(db, db', ops)
    ensures Agrees(db', RunOps(r, ops, now, ttl).entries)
  {
    var after := RunOps(r, ops, now, ttl).entries;
    forall key | key in after ensures Stored(db', key, after[key].payload) {
      ReliableEntryOrigin(r, ops, now, ttl, key);
      if PutOp(key, after[key].payload) !in ops {
        var c :| KeyOf(c) == key && Current(db, c) == Some(r.entries[key].payload);
        assert Current(db', c) == Current(db, c);
      }
    }
  }

  // ---------------------------------------------------------------- every write covers what it changes

  lemma StoreRoleIsSound(result: Result<Database, Crud.Error>, db: Database, id: int)
    requires result.Ok? ==> id in result.value.roles
    ensures SoundOps(StoreRole(result, db, id).db, StoreRole(result, db, id).ops)
  {
    if result.Ok? {
      var db' := result.value;
      assert KeyOf(RoleItem(id)) == RoleKey(id) && Current(db', RoleItem(id)) == Some(SerializeRole(id, db'.roles[id]));
    }
  }

  lemma StoreUserIsSound(result: Result<Database, Crud.Error>, db: Database, id: int)
    requires result.Ok? ==> id in result.value.users
    ensures SoundOps(StoreUser(result, db, id).db, StoreUser(result, db, id).ops)
  {
    if result.Ok? {
      var db' := result.value;
      assert KeyOf(UserItem(id)) == UserKey(id) && Current(db', UserItem(id)) == Some(SerializeUser(id, db'.users[id]));
    }
  }

  predicate OnlyDrops(ops: seq<CacheOp>) { forall op :: op in ops ==> op.DropOp? }

  lemma PlanOnlyDrops(db: Database, req: Request)
    requires !req.Read? && !req.CreateRole? && !req.UpdateRole? && !req.PatchRole?
    requires !req.CreateUser? && !req.UpdateUser? && !req.PatchUser?
    ensures OnlyDrops(PlanOf(db, req).ops)
  {
    hide RoleKey, UserKey, SmallKey, LargeKey, RoleListKey, UserListKey, SmallListKey, LargeListKey;
  }

  lemma DropsAreSound(db: Database, req: Request)
    requires !req.Read? && OnlyDrops(PlanOf(db, req).ops)
    ensures SoundOps(PlanOf(db, req).db, PlanOf(db, req).ops)
  {
    hide PlanOf;
  }

  lemma PlanIsSound(db: Database, req: Request)
    requires !req.Read?
    ensures SoundOps(PlanOf(db, req).db, PlanOf(db, req).ops)
  {
    hide StoreRole, StoreUser, Stored, OnlyDrops;
    match req
    case CreateRole(name, titleKey, id) => StoreRoleIsSound(Crud.CreateRole(db, name, titleKey, id), db, id);
    case UpdateRole(id, name, titleKey) => StoreRoleIsSound(Crud.UpdateRole(db, id, name, titleKey), db, id);
    case PatchRole(id, patch) => StoreRoleIsSound(Crud.PatchRole(db, id, patch), db, id);
    case CreateUser(username, password, roleId, id) =>
      StoreUserIsSound(Crud.CreateUser(db, username, password, roleId, id), db, id);
    case UpdateUser(id, username, roleId) => StoreUserIsSound(Crud.UpdateUser(db, id, username, roleId), db, id);
    case PatchUser(id, patch) => StoreUserIsSound(Crud.PatchUser(db, id, patch), db, id);
    case _ =>
      PlanOnlyDrops(db, req);
      DropsAreSound(db, req);
  }

  /** A change confined to some roles reaches only their items and the list. */
  lemma RoleChange(db: Database, db': Database, ids: set<int>, ops: seq<CacheOp>)
    requires db' == db.(roles := db'.roles)
    requires forall i :: i !in ids ==> (i in db'.roles <==> i in db.roles)
    requires forall i :: i !in ids && i in db.roles ==> db'.roles[i] == db.roles[i]
    requires exists op :: op in ops && Touches(op, RoleListKey())
    requires forall i :: i in ids ==> exists op :: op in ops && Touches(op, RoleKey(i))
    ensures Covers(db, db', ops)
  {
  }

  lemma UserChange(db: Database, db': Database, ids: set<int>, ops: seq<CacheOp>)
    requires db' == db.(users := db'.users)
    requires forall i :: i !in ids ==> (i in db'.users <==> i in db.users)
    requires forall i :: i !in ids && i in db.users ==> db'.users[i] == db.users[i]
    requires exists op :: op in ops && Touches(op, UserListKey())
    requires forall i :: i in ids ==> exists op :: op in ops && Touches(op, UserKey(i))
    ensures Covers(db, db', ops)
  {
  }

  lemma RolePlanCovers(db: Database, req: Request)
    requires IsRoleWrite(req)
    ensures Covers(db, PlanOf(db, req).db, PlanOf(db, req).ops)
  {
    hide Current, RoleKey, UserKey, SerializeRole, SerializeUser;
    var plan := PlanOf(db, req);
    if plan.ops != [] {
      assert plan.ops[0] in plan.ops && plan.ops[|plan.ops| - 1] in plan.ops;
      match req
      case CreateRole(_, _, id) => RoleChange(db, plan.db, {id}, plan.ops);
      case UpdateRole(id, _, _) => RoleChange(db, plan.db, {id}, plan.ops);
      case PatchRole(id, _) => RoleChange(db, plan.db, {id}, plan.ops);
      case DeleteRole(id) => RoleChange(db, plan.db, {id}, plan.ops);
      case AppendRole(name, patch) => RoleChange(db, plan.db, {Crud.AppendRole(db, name, patch).value.1}, plan.ops);
      case ResetRoles =>
        var ids := Crud.Resettable(db.roles);
        forall i | i in ids ensures exists op :: op in plan.ops && Touches(op, RoleKey(i)) {
          assert Touches(plan.ops[0], RoleKey(i));
        }
        RoleChange(db, plan.db, ids, plan.ops);
    }
  }

  lemma UserPlanCovers(db: Database, req: Request)
    requires IsUserWrite(req)
    ensures Covers(db, PlanOf(db, req).db, PlanOf(db, req).ops)
  {
    hide Current, RoleKey, UserKey, SerializeRole, SerializeUser;
    var plan := PlanOf(db, req);
    if plan.ops != [] {
      assert plan.ops[0] in plan.ops && plan.ops[|plan.ops| - 1] in plan.ops;
      match req
      case CreateUser(_, _, _, id) => UserChange(db, plan.db, {id}, plan.ops);
      case UpdateUser(id, _, _) => UserChange(db, plan.db, {id}, plan.ops);
      case PatchUser(id, _) => UserChange(db, plan.db, {id}, plan.ops);
      case SetPassword(id, _) => PasswordIsNotServed(db, plan.db, id);
      case DeleteUser(id, _) => UserChange(db, plan.db, {id}, plan.ops);
      case ResetUsers =>
        forall i | i in db.users ensures exists op :: op in plan.ops && Touches(op, UserKey(i)) {
          assert Touches(plan.ops[0], UserKey(i));
        }
        UserChange(db, plan.db, db.users.Keys, plan.ops);
    }
  }

  lemma UserRowsAlike(users: map<int, User>, users': map<int, User>)
    requires users.Keys == users'.Keys
    requires forall i :: i in users ==> SerializeUser(i, users[i]) == SerializeUser(i, users'[i])
    ensures UserRows(users) == UserRows(users')
  {
    hide SerializeUser;
  }

  /** A new password changes no cell, so the list key may be left alone. */
  lemma PasswordIsNotServed(db: Database, db': Database, id: int)
    requires id in db.users && id in db'.users
    requires db' == db.(users := db.users[id := db.users[id].(password := db'.users[id].password)])
    ensures forall c :: Current(db', c) == Current(db, c)
  {
    hide UserRows, RoleRows, SmallRows, LargeRows;
    assert db'.users.Keys == db.users.Keys;
    UserRowsAlike(db.users, db'.users);
  }

  /** A change of one small translation reaches its item and the list; a large one likewise. */
  lemma SmallChange(db: Database, db': Database, key: string, c: Cell)
    requires db' == db.(small := db'.small)
    requires forall k :: k != key ==> (k in db'.small <==> k in db.small)
    requires forall k :: k != key && k in db.small ==> db'.small[k] == db.small[k]
    ensures Current(db', c) == Current(db, c) || KeyOf(c) in {SmallKey(key), SmallListKey()}
  {
  }

  lemma LargeChange(db: Database, db': Database, p: Pair, c: Cell)
    requires db' == db.(large := db'.large)
    requires forall q :: q != p ==> (q in db'.large <==> q in db.large)
    requires forall q :: q != p && q in db.large ==> db'.large[q] == db.large[q]
    ensures Current(db', c) == Current(db, c) || KeyOf(c) in {LargeKey(p.0, p.1), LargeListKey()}
  {
  }

  lemma TextPlanCovers(db: Database, req: Request)
    requires req.UpsertSmall? || req.UpsertLarge?
    ensures Covers(db, PlanOf(db, req).db, PlanOf(db, req).ops)
  {
    hide Current, KeyOf;
    var plan := PlanOf(db, req);
    if plan.ops != [] {
      var op := plan.ops[0];
      assert op in plan.ops;
      forall c ensures Current(plan.db, c) == Current(db, c) || Touches(op, KeyOf(c)) {
        match req
        case UpsertSmall(key, _, _, _) => SmallChange(db, plan.db, key, c);
        case UpsertLarge(key1, key2, _, _, _) => LargeChange(db, plan.db, (key1, key2), c);
      }
    }
  }

  /** Every endpoint touches the keys of all the cells its commit changes. */
  lemma PlanCovers(db: Database, req: Request)
    requires !req.Read?
    ensures Covers(db, PlanOf(db, req).db, PlanOf(db, req).ops)
  {
    if req.UpsertSmall? || req.UpsertLarge? {
      TextPlanCovers(db, req);
    } else if IsUserWrite(req) {
      UserPlanCovers(db, req);
    } else {
      RolePlanCovers(db, req);
    }
  }

  // ---------------------------------------------------------------- runs

  /** What happens to the service: a call with the faults its Redis calls meet, time passing,
      Redis losing a key, a commit by code that knows nothing of the cache (such as signup). */
  datatype Event =
    | Call(req: Request, faults: seq<bool>)
    | Advance(elapsed: nat)
    | Lose(key: string)
    | Foreign(db: Database)

  predicate Possible(s: Server, e: Event) {
    e.Call? ==> FreshIds(s.db, e.req)
  }

  function WithFaults(s: Server, faults: seq<bool>): Server {
    s.(redis := s.redis.(faults := faults))
  }

  function Step(s: Server, e: Event): Server {
    match e
    case Call(req, faults) => WithFaults(Serve(WithFaults(s, faults), req).0, [])
    case Advance(elapsed) => s.(clock := s.clock + elapsed)
    case Lose(key) => s.(redis := s.redis.(entries := s.redis.entries - {key}))
    case Foreign(db) => s.(db := db)
  }

  function Answer(s: Server, req: Request, faults: seq<bool>): Response {
    Serve(WithFaults(s, faults), req).1
  }

  ghost predicate IsRun(s: Server, events: seq<Event>)
    decreases |events|
  {
    events == [] || (Possible(s, events[0]) && IsRun(Step(s, events[0]), events[1..]))
  }

  function Start(db: Database, clock: Time, ttl: int): Server {
    Server(clock, ttl, db, Redis(map[], []))
  }

  // ---------------------------------------------------------------- exact agreement

  /** Only the endpoints run, and no Redis call fails. */
  predicate Reliable(e: Event) {
    !e.Foreign? && (e.Call? ==> e.faults == [])
  }

  /** Every read of the run is answered as the tables would answer it at that moment. */
  ghost predicate ReadsAreCurrent(s: Server, events: seq<Event>)
    decreases |events|
  {
    events == [] ||
    (&& (events[0].Call? && events[0].req.Read? ==>
           Answer(s, events[0].req, events[0].faults) == FromTables(s.db, events[0].req.cell))
     && ReadsAreCurrent(Step(s, events[0]), events[1..]))
  }

  lemma ReadKeepsAgreement(s: Server, c: Cell)
    requires Agrees(s.db, s.redis.entries) && s.redis.faults == []
    ensures var (s', answer) := ReadThrough(s, c);
            && answer == FromTables(s.db, c)
            && Agrees(s'.db, s'.redis.entries)
  {
    var key := KeyOf(c);
    var cached := Get(s.redis, key, s.clock);
    if cached.Some? && Normalize(c, cached.value).Some? {
      var stored :| KeyOf(stored) == key && Current(s.db, stored) == Some(cached.value);
      AcceptedPayloadIsOwn(s.db, c, stored);
    }
  }

  lemma StepKeepsAgreement(s: Server, e: Event)
    requires Agrees(s.db, s.redis.entries) && Possible(s, e) && Reliable(e)
    ensures Agrees(Step(s, e).db, Step(s, e).redis.entries)
    ensures e.Call? && e.req.Read? ==> Answer(s, e.req, e.faults) == FromTables(s.db, e.req.cell)
  {
    if e.Call? {
      var s0 := WithFaults(s, []);
      if e.req.Read? {
        ReadKeepsAgreement(s0, e.req.cell);
      } else {
        PlanIsSound(s.db, e.req);
        PlanCovers(s.db, e.req);
        WriteKeepsAgreement(s0.redis, s.db, PlanOf(s.db, e.req).db, PlanOf(s.db, e.req).ops, s.clock, s.ttl);
      }
    }
  }

  lemma {:induction false} AgreementOverRuns(s: Server, events: seq<Event>)
    requires Agrees(s.db, s.redis.entries) && IsRun(s, events)
    requires forall e :: e in events ==> Reliable(e)
    ensures ReadsAreCurrent(s, events)
    decreases |events|
  {
    if events != [] {
      StepKeepsAgreement(s, events[0]);
      AgreementOverRuns(Step(s, events[0]), events[1..]);
    }
  }

  /** From an empty cache, whatever the tables hold, in every run of the RBAC and i18n
      endpoints with a reliable Redis, entries expiring or being lost at any time, each read
      returns what the database read would return. */
  lemma CacheAgreesWithTables(db: Database, clock: Time, ttl: int, events: seq<Event>)
    requires IsRun(Start(db, clock, ttl), events)
    requires forall e :: e in events ==> Reliable(e)
    ensures ReadsAreCurrent(Start(db, clock, ttl), events)
  {
    AgreementOverRuns(Start(db, clock, ttl), events);
  }

  // ---------------------------------------------------------------- bounded staleness

  datatype Snapshot = Snapshot(at: Time, db: Database)

  /** Every cached payload was current when it was stored, one lifetime before it dies. */
  ghost predicate Recent(s: Server, past: seq<Snapshot>) {
    && past != [] && past[|past| - 1] == Snapshot(s.clock, s.db)
    && (forall i :: 0 <= i < |past| ==> past[i].at <= s.clock)
    && (forall key :: key in s.redis.entries ==> Kept(s.ttl, past, key, s.redis.entries[key]))
  }

  ghost predicate Kept(ttl: int, past: seq<Snapshot>, key: string, e: Entry) {
    exists i :: 0 <= i < |past| && Stored(past[i].db, key, e.payload) && e.diesAt == past[i].at + ttl
  }

  /** The answer was right at some moment less than one lifetime ago. */
  ghost predicate RecentlyTrue(s: Server, past: seq<Snapshot>, c: Cell, answer: Response) {
    exists i :: 0 <= i < |past| && s.clock - s.ttl < past[i].at <= s.clock && answer == FromTables(past[i].db, c)
  }

  ghost predicate ReadsAreRecent(s: Server, past: seq<Snapshot>, events: seq<Event>)
    decreases |events|
  {
    events == [] ||
    (&& (events[0].Call? && events[0].req.Read? ==>
           RecentlyTrue(s, past, events[0].req.cell, Answer(s, events[0].req, events[0].faults)))
     && var s' := Step(s, events[0]);
        ReadsAreRecent(s', past + [Snapshot(s'.clock, s'.db)], events[1..]))
  }

  lemma KeptLonger(ttl: int, past: seq<Snapshot>, later: Snapshot, key: string, e: Entry)
    requires Kept(ttl, past, key, e)
    ensures Kept(ttl, past + [later], key, e)
  {
    var i :| 0 <= i < |past| && Stored(past[i].db, key, e.payload) && e.diesAt == past[i].at + ttl;
    assert (past + [later])[i] == past[i];
  }

  lemma ReadIsRecent(s: Server, past: seq<Snapshot>, c: Cell)
    requires Recent(s, past) && s.ttl > 0
    ensures RecentlyTrue(s, past, c, ReadThrough(s, c).1)
  {
    var key := KeyOf(c);
    var cached := Get(s.redis, key, s.clock);
    if cached.Some? && Normalize(c, cached.value).Some? {
      var i :| 0 <= i < |past| && Stored(past[i].db, key, cached.value) &&
               s.redis.entries[key].diesAt == past[i].at + s.ttl;
      var stored :| KeyOf(stored) == key && Current(past[i].db, stored) == Some(cached.value);
      AcceptedPayloadIsOwn(past[i].db, c, stored);
      assert ReadThrough(s, c).1 == FromTables(past[i].db, c);
    } else {
      assert ReadThrough(s, c).1 == FromTables(past[|past| - 1].db, c);
    }
  }

  /** A call, its Redis calls failing or not, leaves only entries that were there or are current now. */
  lemma CallOrigin(s: Server, req: Request, key: string)
    requires FreshIds(s.db, req) && key in Serve(s, req).0.redis.entries
    ensures var e := Serve(s, req).0.redis.entries[key];
            || (key in s.redis.entries && s.redis.entries[key] == e)
            || (Stored(Serve(s, req).0.db, key, e.payload) && e.diesAt == s.clock + s.ttl)
  {
    if !req.Read? {
      EntryOrigin(s.redis, PlanOf(s.db, req).ops, s.clock, s.ttl, key);
      PlanIsSound(s.db, req);
    }
  }

  lemma StepStaysRecent(s: Server, past: seq<Snapshot>, e: Event)
    requires Recent(s, past) && Possible(s, e)
    ensures var s' := Step(s, e); Recent(s', past + [Snapshot(s'.clock, s'.db)])
  {
    var s' := Step(s, e);
    var now := Snapshot(s'.clock, s'.db);
    forall key | key in s'.redis.entries ensures Kept(s'.ttl, past + [now], key, s'.redis.entries[key]) {
      if e.Call? { CallOrigin(WithFaults(s, e.faults), e.req, key); }
      if key in s.redis.entries && s.redis.entries[key] == s'.redis.entries[key] {
        KeptLonger(s.ttl, past, now, key, s.redis.entries[key]);
      } else {
        assert (past + [now])[|past|] == now;
      }
    }
  }

  lemma {:induction false} RecentOverRuns(s: Server, past: seq<Snapshot>, events: seq<Event>)
    requires Recent(s, past) && s.ttl > 0 && IsRun(s, events)
    ensures ReadsAreRecent(s, past, events)
    decreases |events|
  {
    if events != [] {
      var e := events[0];
      var s' := Step(s, e);
      StepStaysRecent(s, past, e);
      if e.Call? && e.req.Read? { ReadIsRecent(WithFaults(s, e.faults), past, e.req.cell); }
      RecentOverRuns(s', past + [Snapshot(s'.clock, s'.db)], events[1..]);
    }
  }

  /** Whatever Redis calls fail, and whatever other code commits behind the cache's back, every
      answer of a read was the tables' answer at some moment within the last default TTL. */
  lemma StalenessIsBounded(db: Database, clock: Time, ttl: int, events: seq<Event>)
    requires ttl > 0 && IsRun(Start(db, clock, ttl), events)
    ensures ReadsAreRecent(Start(db, clock, ttl), [Snapshot(clock, db)], events)
  {
    RecentOverRuns(Start(db, clock, ttl), [Snapshot(clock, db)], events);
  }

  // ---------------------------------------------------------------- commits the cache does not see

  /** Under the cell's key stands an entry that outlives `at` and that the cell's check accepts. */
  predicate Masked(s: Server, c: Cell, at: Time) {
    var key := KeyOf(c);
    && key in s.redis.entries && s.redis.entries[key].diesAt > at
    && Normalize(c, s.redis.entries[key].payload).Some?
  }

  /** The server some time after a commit by code that knows nothing of the cache. */
  function Overtaken(s: Server, db': Database, elapsed: nat): Server {
    Step(Step(s, Foreign(db')), Advance(elapsed))
  }

  /** Once other code has committed, a read is right exactly when no live accepted entry hides
      the tables from it, or the commit changed nothing the cell shows. */
  lemma ReadAfterForeignIff(s: Server, db': Database, elapsed: nat, c: Cell)
    requires Agrees(s.db, s.redis.entries) && s.redis.faults == []
    ensures Answer(Overtaken(s, db', elapsed), Read(c), []) == FromTables(db', c) <==>
              !Masked(s, c, s.clock + elapsed) || FromTables(db', c) == FromTables(s.db, c)
  {
    hide Normalize, Current, Body, KeyOf;
    if Masked(s, c, s.clock + elapsed) {
      var payload := s.redis.entries[KeyOf(c)].payload;
      var stored :| KeyOf(stored) == KeyOf(c) && Current(s.db, stored) == Some(payload);
      AcceptedPayloadIsOwn(s.db, c, stored);
    }
  }

  /** What the first read of an empty cache stores hides later commits for one lifetime, if the
      row exists and meets the response schema. */
  lemma FirstReadMasks(db: Database, clock: Time, ttl: int, c: Cell, at: Time)
    ensures var s := Step(Start(db, clock, ttl), Call(Read(c), []));
            && s.db == db && s.clock == clock && s.redis.faults == [] && Agrees(db, s.redis.entries)
            && Answer(Start(db, clock, ttl), Read(c), []) == FromTables(db, c)
            && (Masked(s, c, at) <==> Current(db, c).Some? && RowsValid(db, c) && at < clock + ttl)
  {
    hide Normalize, Current, Body, KeyOf, RowsValid;
    ReadKeepsAgreement(Start(db, clock, ttl), c);
    if Current(db, c).Some? { StoredPayloadIsServedBack(db, c); }
  }

  predicate Lists(rows: seq<Json>, id: int) {
    exists i :: 0 <= i < |rows| && HasNum(rows[i], "id") && rows[i].fields["id"].n == id
  }

  lemma UserRowId(users: map<int, User>, ids: seq<int>, i: nat)
    requires (IntOrder(); ids == Sorted(users.Keys, IntLe)) && i < |ids|
    ensures |UserRows(users)| == |ids| && HasNum(UserRows(users)[i], "id")
    ensures UserRows(users)[i].fields["id"].n == ids[i] && ids[i] in users
  {
    assert ids[i] in ids;
  }

  lemma UserRowsListUsers(users: map<int, User>, id: int)
    ensures Lists(UserRows(users), id) <==> id in users
  {
    IntOrder();
    var ids := Sorted(users.Keys, IntLe);
    assert |UserRows(users)| == |ids|;
    assert id in ids <==> id in users;
    hide UserRows, Sorted, HasNum;
    forall i | 0 <= i < |ids|
      ensures HasNum(UserRows(users)[i], "id") && UserRows(users)[i].fields["id"].n == ids[i]
    {
      UserRowId(users, ids, i);
    }
    if id in users {
      var i :| 0 <= i < |ids| && ids[i] == id;
      assert HasNum(UserRows(users)[i], "id");
    }
  }

  lemma UserListAnswer(db: Database)
    ensures FromTables(db, UserList) == Served(Arr(UserRows(db.users)))
  {
    hide UserRows;
  }

  /** A user created behind the cache's back is missing from the list that was read before. */
  lemma NewUserIsListed(db: Database, db': Database, id: int)
    requires id !in db.users && id in db'.users
    ensures FromTables(db', UserList) != FromTables(db, UserList)
  {
    hide FromTables, UserRows, Lists;
    UserRowsListUsers(db.users, id);
    UserRowsListUsers(db'.users, id);
    UserListAnswer(db);
    UserListAnswer(db');
  }

  lemma UserListIsCacheable(db: Database)
    ensures Current(db, UserList).Some? && RowsValid(db, UserList)
  {
    hide UserRows;
  }

  lemma NewUserStaysConsistent(db: Database, username: string, password: string, roleId: int, newId: int)
    requires newId !in db.users && Crud.CreateUser(db, username, password, roleId, newId).Ok?
    ensures Crud.Consistent(db) ==> Crud.Consistent(Crud.CreateUser(db, username, password, roleId, newId).value)
  {
  }

  lemma LastReadDecides(s: Server, db': Database, elapsed: nat, c: Cell)
    requires Answer(s, Read(c), []) == FromTables(s.db, c)
    ensures var read := Call(Read(c), []);
            var last := Overtaken(Step(s, read), db', elapsed);
            ReadsAreCurrent(s, [read, Foreign(db'), Advance(elapsed), read]) <==>
              Answer(last, Read(c), []) == FromTables(db', c)
  {
    hide Answer, FromTables;
    var read := Call(Read(c), []);
    var events := [read, Foreign(db'), Advance(elapsed), read];
    var s1 := Step(s, read);
    var s2 := Step(s1, Foreign(db'));
    var s3 := Step(s2, Advance(elapsed));
    assert ReadsAreCurrent(s3, [read]) <==> Answer(s3, Read(c), []) == FromTables(s3.db, c);
    assert [Advance(elapsed), read][1..] == [read];
    assert ReadsAreCurrent(s2, [Advance(elapsed), read]) == ReadsAreCurrent(s3, [read]);
    assert events[1..][1..] == [Advance(elapsed), read];
    assert ReadsAreCurrent(s1, events[1..]) == ReadsAreCurrent(s2, [Advance(elapsed), read]);
    assert ReadsAreCurrent(s, events) == ReadsAreCurrent(s1, events[1..]);
  }

  /** Signup commits a user and leaves the cache alone: from any tables, a list read before the
      signup makes a list read after it right exactly when the lifetime has passed. */
  lemma SignupIsMissedUntilExpiry(db: Database, username: string, password: string, roleId: int, newId: int,
                                  clock: Time, ttl: int, elapsed: nat)
    requires newId !in db.users && Crud.CreateUser(db, username, password, roleId, newId).Ok?
    ensures var db' := Crud.CreateUser(db, username, password, roleId, newId).value;
            var read := Call(Read(UserList), []);
            && (Crud.Consistent(db) ==> Crud.Consistent(db'))
            && (ReadsAreCurrent(Start(db, clock, ttl), [read, Foreign(db'), Advance(elapsed), read]) <==>
                elapsed >= ttl)
  {
    hide ReadsAreCurrent, Answer, FromTables, Masked, Current, RowsValid, Step, Agrees, Crud.Consistent;
    var db' := Crud.CreateUser(db, username, password, roleId, newId).value;
    var s := Step(Start(db, clock, ttl), Call(Read(UserList), []));
    UserListIsCacheable(db);
    NewUserStaysConsistent(db, username, password, roleId, newId);
    FirstReadMasks(db, clock, ttl, UserList, clock + elapsed);
    ReadAfterForeignIff(s, db', elapsed, UserList);
    NewUserIsListed(db, db', newId);
    LastReadDecides(Start(db, clock, ttl), db', elapsed, UserList);
  }
}
