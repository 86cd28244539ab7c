/** What the schema checks make of the payloads the service itself has stored. */
module CachePayloads {
  import opened Wrappers
  import opened CacheKeys
  import opened Ordering
  import opened Json
  import opened Records

  /** The rows behind a cell satisfy the response schema's bounds; roles and users have none. */
  predicate RowsValid(db: Database, c: Cell) {
    match c
    case SmallItem(key) => key in db.small ==> ValidSmall(key, db.small[key])
    case SmallList => forall k :: k in db.small ==> ValidSmall(k, db.small[k])
    case LargeItem(key1, key2) => (key1, key2) in db.large ==> ValidLarge((key1, key2), db.large[(key1, key2)])
    case LargeList => forall p :: p in db.large ==> ValidLarge(p, db.large[p])
    case _ => true
  }

  predicate ValidSmall(key: string, data: Texts) {
    1 <= |key| <= KEY_MAX_LENGTH && ValidTexts(data, SMALL_MAX_LENGTH)
  }

  predicate ValidLarge(p: Pair, data: Texts) {
    |p.0| <= KEY_MAX_LENGTH && |p.1| <= KEY_MAX_LENGTH && ValidTexts(data, LARGE_MAX_LENGTH)
  }

  lemma FlagsBack(f: Flags)
    ensures ReadFlags(FlagsJson(f)) == Some(f)
  {
    var fields := FlagsJson(f).fields;
    assert (map k | k in fields :: fields[k].b) == f;
  }

  lemma TextsBack(t: Texts)
    ensures ReadTexts(TextsJson(t)) == Some(t)
  {
    var fields := TextsJson(t).fields;
    assert (map k | k in fields :: fields[k].s) == t;
  }

  lemma RoleBack(id: int, name: string, titleKey: string, f: Flags)
    ensures CheckRole(RoleJson(id, name, titleKey, f)) == Some(RoleJson(id, name, titleKey, f))
  {
    FlagsBack(f);
  }

  lemma UserBack(id: int, username: string, roleId: int, f: Flags)
    ensures CheckUser(UserJson(id, username, roleId, f)) == Some(UserJson(id, username, roleId, f))
  {
    FlagsBack(f);
  }

  lemma SmallBack(key: string, data: Texts)
    ensures CheckSmall(SmallJson(key, data)) == if ValidSmall(key, data) then Some(SmallJson(key, data)) else None
  {
    TextsBack(data);
  }

  lemma LargeBack(p: Pair, data: Texts)
    ensures CheckLarge(LargeJson(p.0, p.1, data)) ==
            if ValidLarge(p, data) then Some(LargeJson(p.0, p.1, data)) else None
  {
    TextsBack(data);
  }

  /** A list whose items are each returned unchanged or rejected is itself returned unchanged or rejected. */
  lemma {:induction false} CheckAllBack(c: Cell, items: seq<Json>)
    requires forall i :: 0 <= i < |items| ==> Check(c, items[i]) == None || Check(c, items[i]) == Some(items[i])
    ensures CheckAll(c, items) ==
            if forall i :: 0 <= i < |items| ==> Check(c, items[i]).Some? then Some(items) else None
  {
    if items != [] {
      var rest := items[1..];
      CheckAllBack(c, rest);
      assert items == [items[0]] + rest;
      if forall i :: 0 <= i < |items| ==> Check(c, items[i]).Some? {
        forall i | 0 <= i < |rest| ensures Check(c, rest[i]).Some? { assert rest[i] == items[i + 1]; }
      } else if Check(c, items[0]).Some? {
        assert CheckAll(c, items).None? by {
          var i :| 0 <= i < |items| && Check(c, items[i]).None?;
          assert rest[i - 1] == items[i];
        }
      }
    }
  }

  function Rows(db: Database, c: Cell): seq<Json>
    requires IsList(c)
  {
    match c
    case RoleList => RoleRows(db.roles)
    case UserList => UserRows(db.users)
    case SmallList => SmallRows(db.small)
    case LargeList => LargeRows(db.large)
  }

  lemma RoleRowsChecked(db: Database, i: nat)
    requires i < |RoleRows(db.roles)|
    ensures CheckRole(RoleRows(db.roles)[i]) == Some(RoleRows(db.roles)[i])
  {
    IntOrder();
    var id := Sorted(db.roles.Keys, IntLe)[i];
    assert id in Sorted(db.roles.Keys, IntLe);
    RoleBack(id, db.roles[id].name, db.roles[id].titleKey, OrEmpty(db.roles[id].permissions));
  }

  lemma UserRowsChecked(db: Database, i: nat)
    requires i < |UserRows(db.users)|
    ensures CheckUser(UserRows(db.users)[i]) == Some(UserRows(db.users)[i])
  {
    IntOrder();
    var id := Sorted(db.users.Keys, IntLe)[i];
    assert id in Sorted(db.users.Keys, IntLe);
    UserBack(id, db.users[id].username, db.users[id].roleId, OrEmpty(db.users[id].permissions));
  }

  lemma SmallRowsChecked(db: Database, i: nat) returns (key: string)
    requires i < |SmallRows(db.small)|
    ensures (StringOrder(); key == Sorted(db.small.Keys, StringLe)[i]) && key in db.small
    ensures CheckSmall(SmallRows(db.small)[i]) ==
            if ValidSmall(key, db.small[key]) then Some(SmallRows(db.small)[i]) else None
  {
    StringOrder();
    key := Sorted(db.small.Keys, StringLe)[i];
    assert key in Sorted(db.small.Keys, StringLe);
    SmallBack(key, db.small[key]);
  }

  lemma LargeRowsChecked(db: Database, i: nat) returns (p: Pair)
    requires i < |LargeRows(db.large)|
    ensures (PairOrder(); p == Sorted(db.large.Keys, PairLe)[i]) && p in db.large
    ensures CheckLarge(LargeRows(db.large)[i]) ==
            if ValidLarge(p, db.large[p]) then Some(LargeRows(db.large)[i]) else None
  {
    PairOrder();
    p := Sorted(db.large.Keys, PairLe)[i];
    assert p in Sorted(db.large.Keys, PairLe);
    LargeBack(p, db.large[p]);
  }

  lemma RowsChecked(db: Database, c: Cell, i: nat)
    requires IsList(c) && i < |Rows(db, c)|
    ensures Check(c, Rows(db, c)[i]) == None || Check(c, Rows(db, c)[i]) == Some(Rows(db, c)[i])
    ensures RowsValid(db, c) ==> Check(c, Rows(db, c)[i]).Some?
  {
    hide RoleRows, UserRows, SmallRows, LargeRows, CheckRole, CheckUser, CheckSmall, CheckLarge, ValidSmall, ValidLarge;
    match c
    case RoleList => RoleRowsChecked(db, i);
    case UserList => UserRowsChecked(db, i);
    case SmallList => var _ := SmallRowsChecked(db, i);
    case LargeList => var _ := LargeRowsChecked(db, i);
  }

  /** A row outside the schema's bounds is found in the listing, and makes it rejected. */
  lemma InvalidRowIsListed(db: Database, c: Cell) returns (i: nat)
    requires IsList(c) && !RowsValid(db, c)
    ensures i < |Rows(db, c)| && Check(c, Rows(db, c)[i]).None?
  {
    if c.SmallList? {
      var key :| key in db.small && !ValidSmall(key, db.small[key]);
      StringOrder();
      assert key in Sorted(db.small.Keys, StringLe);
      i :| 0 <= i < |Sorted(db.small.Keys, StringLe)| && Sorted(db.small.Keys, StringLe)[i] == key;
      var _ := SmallRowsChecked(db, i);
    } else {
      var p :| p in db.large && !ValidLarge(p, db.large[p]);
      PairOrder();
      assert p in Sorted(db.large.Keys, PairLe);
      i :| 0 <= i < |Sorted(db.large.Keys, PairLe)| && Sorted(db.large.Keys, PairLe)[i] == p;
      var _ := LargeRowsChecked(db, i);
    }
  }

  lemma RoleRowsIncrease(db: Database, i: nat)
    requires 0 < i < |RoleRows(db.roles)|
    ensures Before(RoleList, RoleRows(db.roles)[i - 1], RoleRows(db.roles)[i])
  {
    hide FlagsJson, OrEmpty, TotalOrder, Increasing;
    IntOrder();
    NextIsGreater(db.roles.Keys, IntLe, i);
  }

  lemma UserRowsIncrease(db: Database, i: nat)
    requires 0 < i < |UserRows(db.users)|
    ensures Before(UserList, UserRows(db.users)[i - 1], UserRows(db.users)[i])
  {
    hide FlagsJson, OrEmpty, TotalOrder, Increasing;
    IntOrder();
    NextIsGreater(db.users.Keys, IntLe, i);
  }

  lemma SmallRowsIncrease(db: Database, i: nat)
    requires 0 < i < |SmallRows(db.small)|
    ensures Before(SmallList, SmallRows(db.small)[i - 1], SmallRows(db.small)[i])
  {
    hide StringLe, TextsJson, TotalOrder, Increasing;
    StringOrder();
    NextIsGreater(db.small.Keys, StringLe, i);
  }

  lemma LargeRowsIncrease(db: Database, i: nat)
    requires 0 < i < |LargeRows(db.large)|
    ensures Before(LargeList, LargeRows(db.large)[i - 1], LargeRows(db.large)[i])
  {
    hide PairLe, TextsJson, TotalOrder, Increasing;
    PairOrder();
    NextIsGreater(db.large.Keys, PairLe, i);
  }

  lemma RowsIncreasing(db: Database, c: Cell, i: nat)
    requires IsList(c) && 0 < i < |Rows(db, c)|
    ensures Before(c, Rows(db, c)[i - 1], Rows(db, c)[i])
  {
    hide Before, SmallRows, LargeRows, RoleRows, UserRows;
    match c
    case RoleList => RoleRowsIncrease(db, i);
    case UserList => UserRowsIncrease(db, i);
    case SmallList => SmallRowsIncrease(db, i);
    case LargeList => LargeRowsIncrease(db, i);
  }

  lemma ListBack(db: Database, c: Cell)
    requires IsList(c)
    ensures Normalize(c, Listing(Rows(db, c))) == if RowsValid(db, c) then Some(Arr(Rows(db, c))) else None
  {
    var rows := Rows(db, c);
    forall i | 0 <= i < |rows|
      ensures Check(c, rows[i]) == None || Check(c, rows[i]) == Some(rows[i])
      ensures RowsValid(db, c) ==> Check(c, rows[i]).Some?
    {
      RowsChecked(db, c, i);
    }
    forall i | 0 < i < |rows| ensures Before(c, rows[i - 1], rows[i]) {
      RowsIncreasing(db, c, i);
    }
    CheckAllBack(c, rows);
    if !RowsValid(db, c) {
      var i := InvalidRowIsListed(db, c);
    }
  }

  /** A payload stored for a cell is served back exactly when its rows meet the response
      schema, and then unchanged. */
  lemma StoredPayloadIsServedBack(db: Database, c: Cell)
    requires Current(db, c).Some?
    ensures Normalize(c, Current(db, c).value) ==
            if RowsValid(db, c) then Some(Body(c, Current(db, c).value)) else None
  {
    match c
    case RoleItem(id) =>
      var r := db.roles[id];
      RoleBack(id, r.name, r.titleKey, OrEmpty(r.permissions));
    case UserItem(id) =>
      var u := db.users[id];
      UserBack(id, u.username, u.roleId, OrEmpty(u.permissions));
    case SmallItem(key) => SmallBack(key, db.small[key]);
    case LargeItem(key1, key2) => LargeBack((key1, key2), db.large[(key1, key2)]);
    case _ => ListBack(db, c);
  }

  /** The colliding keys are harmless: whatever either reader finds that the other one stored,
      it rejects; so an accepted payload was stored for the very cell that is read. */
  lemma AcceptedPayloadIsOwn(db: Database, c: Cell, stored: Cell)
    requires KeyOf(c) == KeyOf(stored) && Current(db, stored).Some?
    requires Normalize(c, Current(db, stored).value).Some?
    ensures stored == c
    ensures Normalize(c, Current(db, stored).value).value == Body(c, Current(db, c).value)
  {
    KeysCollideOnlyOnSmallList(c, stored);
    if stored == c {
      StoredPayloadIsServedBack(db, c);
    }
  }
}
