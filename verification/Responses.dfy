/** What the read endpoints show: the rows of the tables, field by field, and the lists in key order. */
module Responses {
  import opened Wrappers
  import opened CacheKeys
  import opened Ordering
  import opened Json
  import opened Records
  import opened Endpoints
  import CacheAgreement

  // ---------------------------------------------------------------- bodies

  /** An object with these members and no others. */
  predicate HasFields(j: Json, keys: set<string>) { j.Obj? && j.fields.Keys == keys }

  /** Every permission that has a value, with that value. */
  ghost predicate ShowsFlags(j: Json, permissions: Option<Flags>) {
    && j.Obj?
    && (forall k :: k in j.fields <==> permissions.Some? && k in permissions.value)
    && (forall k :: k in j.fields ==> j.fields[k] == Bool(permissions.value[k]))
  }

  ghost predicate ShowsTexts(j: Json, texts: Texts) {
    && j.Obj?
    && (forall k :: k in j.fields <==> k in texts)
    && (forall k :: k in j.fields ==> j.fields[k] == Str(texts[k]))
  }

  ghost predicate ShowsRole(j: Json, id: int, r: Role) {
    && HasFields(j, {"id", "name", "title_key", "permissions"})
    && j.fields["id"] == Num(id) && j.fields["name"] == Str(r.name) && j.fields["title_key"] == Str(r.titleKey)
    && ShowsFlags(j.fields["permissions"], r.permissions)
  }

  ghost predicate ShowsUser(j: Json, id: int, u: User) {
    && HasFields(j, {"id", "username", "role_id", "permissions"})
    && j.fields["id"] == Num(id) && j.fields["username"] == Str(u.username) && j.fields["role_id"] == Num(u.roleId)
    && ShowsFlags(j.fields["permissions"], u.permissions)
  }

  ghost predicate ShowsSmall(j: Json, key: string, data: Texts) {
    HasFields(j, {"key", "data"}) && j.fields["key"] == Str(key) && ShowsTexts(j.fields["data"], data)
  }

  ghost predicate ShowsLarge(j: Json, p: Pair, data: Texts) {
    && HasFields(j, {"key1", "key2", "data"})
    && j.fields["key1"] == Str(p.0) && j.fields["key2"] == Str(p.1) && ShowsTexts(j.fields["data"], data)
  }

  lemma FlagsShown(f: Option<Flags>)
    ensures ShowsFlags(FlagsJson(OrEmpty(f)), f)
  {
  }

  lemma TextsShown(t: Texts)
    ensures ShowsTexts(TextsJson(t), t)
  {
  }

  lemma RoleShown(id: int, r: Role)
    ensures ShowsRole(SerializeRole(id, r), id, r)
  {
    FlagsShown(r.permissions);
    hide ShowsFlags;
  }

  lemma UserShown(id: int, u: User)
    ensures ShowsUser(SerializeUser(id, u), id, u)
  {
    FlagsShown(u.permissions);
    hide ShowsFlags;
  }

  lemma SmallShown(key: string, data: Texts)
    ensures ShowsSmall(SmallJson(key, data), key, data)
  {
    TextsShown(data);
    hide ShowsTexts;
  }

  lemma LargeShown(p: Pair, data: Texts)
    ensures ShowsLarge(LargeJson(p.0, p.1, data), p, data)
  {
    TextsShown(data);
    hide ShowsTexts;
  }

  // ---------------------------------------------------------------- lists

  /** All of `keys`, each once, in increasing order. */
  ghost predicate InOrder<T(!new)>(r: seq<T>, keys: set<T>, le: (T, T) -> bool) {
    (forall x :: x in r <==> x in keys) && forall i, j :: 0 <= i < j < |r| ==> le(r[i], r[j]) && r[i] != r[j]
  }

  ghost predicate ListsRoles(items: seq<Json>, roles: map<int, Role>) {
    exists ids: seq<int> ::
      InOrder(ids, roles.Keys, IntLe) && |items| == |ids| &&
      forall i :: 0 <= i < |ids| ==> ids[i] in roles && ShowsRole(items[i], ids[i], roles[ids[i]])
  }

  ghost predicate ListsUsers(items: seq<Json>, users: map<int, User>) {
    exists ids: seq<int> ::
      InOrder(ids, users.Keys, IntLe) && |items| == |ids| &&
      forall i :: 0 <= i < |ids| ==> ids[i] in users && ShowsUser(items[i], ids[i], users[ids[i]])
  }

  ghost predicate ListsSmall(items: seq<Json>, small: map<string, Texts>) {
    exists keys: seq<string> ::
      InOrder(keys, small.Keys, StringLe) && |items| == |keys| &&
      forall i :: 0 <= i < |keys| ==> keys[i] in small && ShowsSmall(items[i], keys[i], small[keys[i]])
  }

  ghost predicate ListsLarge(items: seq<Json>, large: map<Pair, Texts>) {
    exists keys: seq<Pair> ::
      InOrder(keys, large.Keys, PairLe) && |items| == |keys| &&
      forall i :: 0 <= i < |keys| ==> keys[i] in large && ShowsLarge(items[i], keys[i], large[keys[i]])
  }

  lemma SortedInOrder<T(!new)>(keys: set<T>, le: (T, T) -> bool)
    requires TotalOrder(le)
    ensures InOrder(Sorted(keys, le), keys, le)
  {
    hide TotalOrder;
  }

  lemma RolesListed(roles: map<int, Role>)
    ensures ListsRoles(RoleRows(roles), roles)
  {
    IntOrder();
    SortedInOrder(roles.Keys, IntLe);
    hide TotalOrder, Sorted, InOrder, ShowsRole, SerializeRole;
    var ids := Sorted(roles.Keys, IntLe);
    forall i | 0 <= i < |ids| ensures ids[i] in roles && ShowsRole(RoleRows(roles)[i], ids[i], roles[ids[i]]) {
      assert ids[i] in ids;
      RoleShown(ids[i], roles[ids[i]]);
    }
  }

  lemma UsersListed(users: map<int, User>)
    ensures ListsUsers(UserRows(users), users)
  {
    IntOrder();
    SortedInOrder(users.Keys, IntLe);
    hide TotalOrder, Sorted, InOrder, ShowsUser, SerializeUser;
    var ids := Sorted(users.Keys, IntLe);
    forall i | 0 <= i < |ids| ensures ids[i] in users && ShowsUser(UserRows(users)[i], ids[i], users[ids[i]]) {
      assert ids[i] in ids;
      UserShown(ids[i], users[ids[i]]);
    }
  }

  lemma SmallListed(small: map<string, Texts>)
    ensures ListsSmall(SmallRows(small), small)
  {
    StringOrder();
    SortedInOrder(small.Keys, StringLe);
    hide TotalOrder, Sorted, InOrder, ShowsSmall, SmallJson, StringLe;
    var keys := Sorted(small.Keys, StringLe);
    forall i | 0 <= i < |keys| ensures keys[i] in small && ShowsSmall(SmallRows(small)[i], keys[i], small[keys[i]]) {
      assert keys[i] in keys;
      SmallShown(keys[i], small[keys[i]]);
    }
  }

  lemma LargeListed(large: map<Pair, Texts>)
    ensures ListsLarge(LargeRows(large), large)
  {
    PairOrder();
    SortedInOrder(large.Keys, PairLe);
    hide TotalOrder, Sorted, InOrder, ShowsLarge, LargeJson, PairLe;
    var keys := Sorted(large.Keys, PairLe);
    forall i | 0 <= i < |keys| ensures keys[i] in large && ShowsLarge(LargeRows(large)[i], keys[i], large[keys[i]]) {
      assert keys[i] in keys;
      LargeShown(keys[i], large[keys[i]]);
    }
  }

  // ---------------------------------------------------------------- reads

  /** The response to a read of a cell, said of the rows. */
  ghost predicate ShowsCell(db: Database, c: Cell, response: Response) {
    match c
    case RoleItem(id) =>
      if id in db.roles then response.Served? && ShowsRole(response.body, id, db.roles[id])
      else response == Refused(404)
    case UserItem(id) =>
      if id in db.users then response.Served? && ShowsUser(response.body, id, db.users[id])
      else response == Refused(404)
    case SmallItem(key) =>
      if key in db.small then response.Served? && ShowsSmall(response.body, key, db.small[key])
      else response == Refused(404)
    case LargeItem(key1, key2) =>
      if (key1, key2) in db.large
      then response.Served? && ShowsLarge(response.body, (key1, key2), db.large[(key1, key2)])
      else response == Refused(404)
    case RoleList => response.Served? && response.body.Arr? && ListsRoles(response.body.items, db.roles)
    case UserList => response.Served? && response.body.Arr? && ListsUsers(response.body.items, db.users)
    case SmallList => response.Served? && response.body.Arr? && ListsSmall(response.body.items, db.small)
    case LargeList => response.Served? && response.body.Arr? && ListsLarge(response.body.items, db.large)
  }

  lemma TablesShowCell(db: Database, c: Cell)
    ensures ShowsCell(db, c, FromTables(db, c))
  {
    hide SerializeRole, SerializeUser, SmallJson, LargeJson, RoleRows, UserRows, SmallRows, LargeRows;
    hide ShowsRole, ShowsUser, ShowsSmall, ShowsLarge, ListsRoles, ListsUsers, ListsSmall, ListsLarge;
    match c
    case RoleItem(id) => if id in db.roles { RoleShown(id, db.roles[id]); }
    case UserItem(id) => if id in db.users { UserShown(id, db.users[id]); }
    case SmallItem(key) => if key in db.small { SmallShown(key, db.small[key]); }
    case LargeItem(key1, key2) =>
      if (key1, key2) in db.large { LargeShown((key1, key2), db.large[(key1, key2)]); }
    case RoleList => RolesListed(db.roles);
    case UserList => UsersListed(db.users);
    case SmallList => SmallListed(db.small);
    case LargeList => LargeListed(db.large);
  }

  /** Every read of the run shows the rows as they are at that moment. */
  ghost predicate ReadsShowRows(s: Server, events: seq<CacheAgreement.Event>)
    decreases |events|
  {
    events == [] ||
    (&& (events[0].Call? && events[0].req.Read? ==>
           ShowsCell(s.db, events[0].req.cell, CacheAgreement.Answer(s, events[0].req, events[0].faults)))
     && ReadsShowRows(CacheAgreement.Step(s, events[0]), events[1..]))
  }

  lemma {:induction false} CurrentReadsShowRows(s: Server, events: seq<CacheAgreement.Event>)
    requires CacheAgreement.ReadsAreCurrent(s, events)
    ensures ReadsShowRows(s, events)
    decreases |events|
  {
    if events != [] {
      hide FromTables, ShowsCell, CacheAgreement.Answer, CacheAgreement.Step;
      if events[0].Call? && events[0].req.Read? { TablesShowCell(s.db, events[0].req.cell); }
      CurrentReadsShowRows(CacheAgreement.Step(s, events[0]), events[1..]);
    }
  }

  /** In every run of the endpoints with a reliable Redis, whatever is cached, each response to a
      read holds exactly the current rows: every field its own column, every list in key order. */
  lemma EveryReadShowsRows(db: Database, clock: Time, ttl: int, events: seq<CacheAgreement.Event>)
    requires CacheAgreement.IsRun(CacheAgreement.Start(db, clock, ttl), events)
    requires forall e :: e in events ==> CacheAgreement.Reliable(e)
    ensures ReadsShowRows(CacheAgreement.Start(db, clock, ttl), events)
  {
    CacheAgreement.CacheAgreesWithTables(db, clock, ttl, events);
    CurrentReadsShowRows(CacheAgreement.Start(db, clock, ttl), events);
  }
}
