/** The cached tables: their rows, the JSON they are served as, and the schema checks a
    cached payload has to pass before it is served. */
module Records {
  import opened Wrappers
  import opened CacheKeys
  import opened Ordering
  import opened Json

  type Flags = map<string, bool>
  type Texts = map<string, string>

  datatype Role = Role(name: string, titleKey: string, permissions: Option<Flags>)
  datatype User = User(username: string, password: string, roleId: int, permissions: Option<Flags>)

  datatype Database = Database(
    roles: map<int, Role>,
    users: map<int, User>,
    small: map<string, Texts>,
    large: map<Pair, Texts>)

  const KEY_MAX_LENGTH := 128
  const SMALL_MAX_LENGTH := 128
  const LARGE_MAX_LENGTH := 3000
  const LANGUAGES := {"en", "ru", "uz"}

  // ---------------------------------------------------------------- serialization

  function FlagsJson(f: Flags): Json { Obj(map k | k in f :: Bool(f[k])) }

  function TextsJson(t: Texts): Json { Obj(map k | k in t :: Str(t[k])) }

  /** `role.permissions or {}` */
  function OrEmpty(f: Option<Flags>): Flags { if f.Some? then f.value else map[] }

  /** Value of a permission, where there is one. */
  function ValueOf(f: Option<Flags>, key: string): Option<bool> {
    if key in OrEmpty(f) then Some(OrEmpty(f)[key]) else None
  }

  function RoleJson(id: int, name: string, titleKey: string, f: Flags): Json {
    Obj(map["id" := Num(id), "name" := Str(name), "title_key" := Str(titleKey), "permissions" := FlagsJson(f)])
  }

  function UserJson(id: int, username: string, roleId: int, f: Flags): Json {
    Obj(map["id" := Num(id), "username" := Str(username), "role_id" := Num(roleId), "permissions" := FlagsJson(f)])
  }

  function SmallJson(key: string, data: Texts): Json {
    Obj(map["key" := Str(key), "data" := TextsJson(data)])
  }

  function LargeJson(key1: string, key2: string, data: Texts): Json {
    Obj(map["key1" := Str(key1), "key2" := Str(key2), "data" := TextsJson(data)])
  }

  function SerializeRole(id: int, r: Role): Json { RoleJson(id, r.name, r.titleKey, OrEmpty(r.permissions)) }

  function SerializeUser(id: int, u: User): Json { UserJson(id, u.username, u.roleId, OrEmpty(u.permissions)) }

  function Listing(items: seq<Json>): Json { Obj(map["items" := Arr(items)]) }

  function RoleRows(roles: map<int, Role>): seq<Json> {
    IntOrder();
    var ids := Sorted(roles.Keys, IntLe);
    seq(|ids|, i requires 0 <= i < |ids| => assert ids[i] in ids; SerializeRole(ids[i], roles[ids[i]]))
  }

  function UserRows(users: map<int, User>): seq<Json> {
    IntOrder();
    var ids := Sorted(users.Keys, IntLe);
    seq(|ids|, i requires 0 <= i < |ids| => assert ids[i] in ids; SerializeUser(ids[i], users[ids[i]]))
  }

  function SmallRows(small: map<string, Texts>): seq<Json> {
    StringOrder();
    var keys := Sorted(small.Keys, StringLe);
    seq(|keys|, i requires 0 <= i < |keys| => assert keys[i] in keys; SmallJson(keys[i], small[keys[i]]))
  }

  function LargeRows(large: map<Pair, Texts>): seq<Json> {
    PairOrder();
    var keys := Sorted(large.Keys, PairLe);
    seq(|keys|, i requires 0 <= i < |keys| => assert keys[i] in keys; LargeJson(keys[i].0, keys[i].1, large[keys[i]]))
  }

  /** What the cache should hold for a cell, read from the tables; nothing for a missing row. */
  function Current(db: Database, c: Cell): Option<Json> {
    match c
    case RoleItem(id) => if id in db.roles then Some(SerializeRole(id, db.roles[id])) else None
    case RoleList => Some(Listing(RoleRows(db.roles)))
    case UserItem(id) => if id in db.users then Some(SerializeUser(id, db.users[id])) else None
    case UserList => Some(Listing(UserRows(db.users)))
    case SmallItem(key) => if key in db.small then Some(SmallJson(key, db.small[key])) else None
    case SmallList => Some(Listing(SmallRows(db.small)))
    case LargeItem(key1, key2) =>
      if (key1, key2) in db.large then Some(LargeJson(key1, key2, db.large[(key1, key2)])) else None
    case LargeList => Some(Listing(LargeRows(db.large)))
  }

  predicate IsList(c: Cell) { c.RoleList? || c.UserList? || c.SmallList? || c.LargeList? }

  /** The response made of a payload: a list endpoint returns the bare list. */
  function Body(c: Cell, payload: Json): Json {
    if IsList(c) && payload.Obj? && "items" in payload.fields then payload.fields["items"] else payload
  }

  // ---------------------------------------------------------------- schema checks

  function ReadFlags(j: Json): Option<Flags> {
    if j.Obj? && forall k :: k in j.fields ==> j.fields[k].Bool?
    then Some(map k | k in j.fields :: j.fields[k].b) else None
  }

  function ReadTexts(j: Json): Option<Texts> {
    if j.Obj? && forall k :: k in j.fields ==> j.fields[k].Str?
    then Some(map k | k in j.fields :: j.fields[k].s) else None
  }

  predicate HasStr(j: Json, k: string) { j.Obj? && k in j.fields && j.fields[k].Str? }
  predicate HasNum(j: Json, k: string) { j.Obj? && k in j.fields && j.fields[k].Num? }

  /** A field with a default: absent means empty. */
  function FlagsField(j: Json): Option<Flags>
    requires j.Obj?
  {
    if "permissions" in j.fields then ReadFlags(j.fields["permissions"]) else Some(map[])
  }

  function TextsField(j: Json, maxLength: nat): Option<Texts>
    requires j.Obj?
  {
    var data := if "data" in j.fields then ReadTexts(j.fields["data"]) else Some(map[]);
    if data.Some? && ValidTexts(data.value, maxLength) then data else None
  }

  predicate ValidTexts(t: Texts, maxLength: nat) {
    forall k :: k in t ==> k in LANGUAGES && |t[k]| <= maxLength
  }

  function CheckRole(j: Json): Option<Json> {
    if HasNum(j, "id") && HasStr(j, "name") && HasStr(j, "title_key") && FlagsField(j).Some?
    then Some(RoleJson(j.fields["id"].n, j.fields["name"].s, j.fields["title_key"].s, FlagsField(j).value))
    else None
  }

  function CheckUser(j: Json): Option<Json> {
    if HasNum(j, "id") && HasStr(j, "username") && HasNum(j, "role_id") && FlagsField(j).Some?
    then Some(UserJson(j.fields["id"].n, j.fields["username"].s, j.fields["role_id"].n, FlagsField(j).value))
    else None
  }

  function CheckSmall(j: Json): Option<Json> {
    if HasStr(j, "key") && 1 <= |j.fields["key"].s| <= KEY_MAX_LENGTH && TextsField(j, SMALL_MAX_LENGTH).Some?
    then Some(SmallJson(j.fields["key"].s, TextsField(j, SMALL_MAX_LENGTH).value))
    else None
  }

  function CheckLarge(j: Json): Option<Json> {
    if HasStr(j, "key1") && HasStr(j, "key2") && |j.fields["key1"].s| <= KEY_MAX_LENGTH &&
       |j.fields["key2"].s| <= KEY_MAX_LENGTH && TextsField(j, LARGE_MAX_LENGTH).Some?
    then Some(LargeJson(j.fields["key1"].s, j.fields["key2"].s, TextsField(j, LARGE_MAX_LENGTH).value))
    else None
  }

  function Check(c: Cell, j: Json): Option<Json> {
    if c.RoleItem? || c.RoleList? then CheckRole(j)
    else if c.UserItem? || c.UserList? then CheckUser(j)
    else if c.SmallItem? || c.SmallList? then CheckSmall(j)
    else CheckLarge(j)
  }

  function CheckAll(c: Cell, items: seq<Json>): Option<seq<Json>> {
    if items == [] then Some([])
    else
      var first := Check(c, items[0]);
      var rest := CheckAll(c, items[1..]);
      if first.Some? && rest.Some? then Some([first.value] + rest.value) else None
  }

  /** The order the list checks ask for, strictly increasing in the table's key. */
  predicate Before(c: Cell, x: Json, y: Json) {
    if c.RoleList? || c.UserList? then
      HasNum(x, "id") && HasNum(y, "id") && x.fields["id"].n < y.fields["id"].n
    else if c.SmallList? then
      HasStr(x, "key") && HasStr(y, "key") && x.fields["key"].s != y.fields["key"].s &&
      StringLe(x.fields["key"].s, y.fields["key"].s)
    else
      HasStr(x, "key1") && HasStr(x, "key2") && HasStr(y, "key1") && HasStr(y, "key2") &&
      var p := (x.fields["key1"].s, x.fields["key2"].s);
      var q := (y.fields["key1"].s, y.fields["key2"].s);
      p != q && PairLe(p, q)
  }

  predicate StrictlyIncreasing(c: Cell, items: seq<Json>) {
    forall i :: 0 < i < |items| ==> Before(c, items[i - 1], items[i])
  }

  predicate Expected(c: Cell, j: Json) {
    match c
    case RoleItem(id) => HasNum(j, "id") && j.fields["id"].n == id
    case UserItem(id) => HasNum(j, "id") && j.fields["id"].n == id
    case SmallItem(key) => HasStr(j, "key") && j.fields["key"].s == key
    case LargeItem(key1, key2) =>
      HasStr(j, "key1") && HasStr(j, "key2") && j.fields["key1"].s == key1 && j.fields["key2"].s == key2
    case _ => true
  }

  /** The normalizers: the response a cached payload stands for, or nothing if it is rejected. */
  function Normalize(c: Cell, payload: Json): Option<Json> {
    if IsList(c) then
      if payload.Obj? && "items" in payload.fields && payload.fields["items"].Arr? then
        var items := CheckAll(c, payload.fields["items"].items);
        if items.Some? && StrictlyIncreasing(c, items.value) then Some(Arr(items.value)) else None
      else None
    else
      var item := Check(c, payload);
      if item.Some? && Expected(c, item.value) then item else None
  }
}
