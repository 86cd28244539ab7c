/** Role seeding as it runs: rows are edited in a session that is committed or rolled back. */
module SeedingSession {
  import opened Wrappers
  import opened Ordering
  import opened Records
  import opened Seeding
  import Crud

  /** What `_resolve_default_role_match` finds, given the candidates by id and by name. */
  function Resolve(d: DefaultRole, rows: Roles, byId: set<int>, byName: map<string, int>): Result<Option<int>, Drift>
    requires byId <= rows.Keys && byName.Values <= rows.Keys
  {
    var existingById := if d.id.Some? && d.id.value in byId then Some(d.id.value) else None;
    var existingByName := if d.name in byName then Some(byName[d.name]) else None;
    if existingById.None? && existingByName.None? then Ok(None)
    else if existingById.Some? && existingByName.Some? && existingById != existingByName then Err(Drift)
    else
      var existing := if existingById.Some? then existingById.value else existingByName.value;
      assert existingById.None? ==> byName[d.name] in byName.Values;
      if (d.id.Some? && existing != d.id.value) || rows[existing].name != d.name then Err(Drift)
      else Ok(Some(existing))
  }

  /** The rows the seeding query fetches. */
  predicate Candidate(reg: Registry, i: int, row: Role) {
    IsDefaultName(reg, row.name) || exists k :: 0 <= k < |reg.roles| && reg.roles[k].id == Some(i)
  }

  function ById(reg: Registry, rows: Roles): (ids: set<int>)
    ensures ids <= rows.Keys
  {
    set i | i in rows && Candidate(reg, i, rows[i])
  }

  function ByName(reg: Registry, rows: Roles): (m: map<string, int>)
    requires Crud.UniqueNames(rows)
    ensures m.Values <= rows.Keys
    ensures forall name :: name in m ==> m[name] in rows && rows[m[name]].name == name
    ensures forall i :: i in rows && Candidate(reg, i, rows[i]) ==> rows[i].name in m
  {
    var names := set i | i in rows && Candidate(reg, i, rows[i]) :: rows[i].name;
    map name | name in names ::
      var i :| i in rows && Candidate(reg, i, rows[i]) && rows[i].name == name; i
  }

  lemma ResolveFinds(reg: Registry, rows: Roles, k: nat)
    requires Crud.UniqueNames(rows) && k < |reg.roles|
    ensures var d := reg.roles[k];
            match Resolve(d, rows, ById(reg, rows), ByName(reg, rows))
            case Err(_) => Clashes(rows, d)
            case Ok(None) => !Clashes(rows, d) && !HasName(rows, d.name)
            case Ok(Some(i)) => !Clashes(rows, d) && HasName(rows, d.name) && i in rows && rows[i].name == d.name
  {
  }

  /** Rows to insert; one without an id gets the one the database assigns. */
  function Inserted(adds: seq<(Option<int>, Role)>, newId: int): Roles {
    if adds == [] then map[]
    else
      var last := adds[|adds| - 1];
      Inserted(adds[..|adds| - 1], newId)[(if last.0.Some? then last.0.value else newId) := last.1]
  }

  /** A row whose title the first `n` default roles have supplied if it was missing. */
  ghost function Titled(reg: Registry, n: nat, row: Role): Role
    requires n <= |reg.roles|
  {
    if row.titleKey == "" && exists k :: 0 <= k < n && reg.roles[k].name == row.name
    then row.(titleKey := TitleOf(reg, row.name)) else row
  }

  lemma TitledStep(reg: Registry, n: nat, row: Role)
    requires WellFormed(reg) && n < |reg.roles|
    ensures Titled(reg, n + 1, row) ==
            if row.name == reg.roles[n].name && row.titleKey == "" then row.(titleKey := reg.roles[n].titleKey)
            else Titled(reg, n, row)
    ensures row.name == reg.roles[n].name ==> Titled(reg, n, row) == row
  {
  }

  ghost function TitledAll(reg: Registry, n: nat, was: Roles): Roles
    requires n <= |reg.roles|
  {
    map i | i in was :: Titled(reg, n, was[i])
  }

  /** The whole table after one more default role: only its own row can be touched. */
  lemma TitledHit(reg: Registry, n: nat, was: Roles, i: int)
    requires WellFormed(reg) && n < |reg.roles| && Crud.UniqueNames(was)
    requires i in was && was[i].name == reg.roles[n].name
    ensures var rows := TitledAll(reg, n, was);
            && i in rows
            && TitledAll(reg, n + 1, was) ==
               if rows[i].titleKey == "" then rows[i := rows[i].(titleKey := reg.roles[n].titleKey)] else rows
  {
    forall j | j in was { TitledStep(reg, n, was[j]); }
    var rows := TitledAll(reg, n, was);
    var after := TitledAll(reg, n + 1, was);
    forall j | j in was && j != i ensures after[j] == rows[j] { assert was[j].name != was[i].name; }
    if rows[i].titleKey != "" { assert after == rows; }
  }

  lemma TitledMiss(reg: Registry, n: nat, was: Roles)
    requires WellFormed(reg) && n < |reg.roles| && !HasName(was, reg.roles[n].name)
    ensures TitledAll(reg, n + 1, was) == TitledAll(reg, n, was)
  {
    forall j | j in was ensures Titled(reg, n + 1, was[j]) == Titled(reg, n, was[j]) { TitledStep(reg, n, was[j]); }
  }

  lemma TitledNone(reg: Registry, was: Roles)
    ensures TitledAll(reg, 0, was) == was
  {
    assert forall i :: i in was ==> Titled(reg, 0, was[i]) == was[i];
  }

  lemma InsertedNone(reg: Registry, was: Roles, newId: int)
    ensures Inserted([], newId) == Added(reg, was, 0, newId) == map[]
  {
  }

  lemma AddedStep(reg: Registry, was: Roles, n: nat, newId: int)
    requires n < |reg.roles|
    ensures var d := reg.roles[n];
            && NewRole(reg, d).permissions == Some(DefaultPermissions(reg, NewRole(reg, d).name))
            && Added(reg, was, n + 1, newId) ==
               if HasName(was, d.name) then Added(reg, was, n, newId)
               else Added(reg, was, n, newId)[IdFor(d, newId) := NewRole(reg, d)]
  {
  }

  lemma InsertedSnoc(adds: seq<(Option<int>, Role)>, d: DefaultRole, row: Role, newId: int)
    ensures Inserted(adds + [(d.id, row)], newId) == Inserted(adds, newId)[IdFor(d, newId) := row]
  {
  }

  /** One turn of `init_role_permissions_if_missing` */
  method FillMissing(p: Option<Flags>, defaults: Flags) returns (filled: Option<Flags>, changed: bool)
    ensures filled == Filled(p, defaults)
    ensures forall k :: ValueOf(filled, k) ==
                        if ValueOf(p, k).Some? then ValueOf(p, k)
                        else if k in defaults then Some(defaults[k]) else None
    ensures changed <==> exists k :: k in defaults && ValueOf(p, k).None?
  {
    var permissions := OrEmpty(p);
    changed := false;
    var todo := defaults.Keys;
    while todo != {}
      invariant todo <= defaults.Keys
      invariant permissions == (map k | k in defaults && k !in todo :: defaults[k]) + OrEmpty(p)
      invariant !changed ==> permissions == OrEmpty(p)
      invariant changed == exists k :: k in defaults && k !in todo && k !in OrEmpty(p)
    {
      var key :| key in todo;
      if key !in permissions {
        permissions := permissions[key := defaults[key]];
        changed := true;
      }
      todo := todo - {key};
    }
    assert (map k | k in defaults && k !in todo :: defaults[k]) == defaults;
    filled := if changed then Some(permissions) else p;
  }

  class SeedSession {
    var tables: Roles
    var rows: Roles
    var adds: seq<(Option<int>, Role)>

    constructor (tables: Roles)
      ensures this.tables == tables && rows == tables && adds == []
    {
      this.tables, rows, adds := tables, tables, [];
    }

    /** Match every default role; supply missing titles; collect the roles to insert. */
    method MatchDefaults(reg: Registry, ghost newId: int) returns (drifted: bool)
      requires WellFormed(reg) && Crud.UniqueNames(rows) && adds == [] && Assignable(reg, rows, newId)
      modifies this`rows, this`adds
      ensures drifted == Drifted(reg, old(rows))
      ensures !drifted ==> rows == TitledAll(reg, |reg.roles|, old(rows))
      ensures !drifted ==> Inserted(adds, newId) == Added(reg, old(rows), |reg.roles|, newId)
      ensures !drifted ==> |adds| == |Added(reg, old(rows), |reg.roles|, newId)|
      ensures forall a :: a in adds ==> a.1.permissions == Some(DefaultPermissions(reg, a.1.name))
    {
      hide TitledAll, Inserted, Clashes, WellFormed, ById, ByName, Added, NewRole, Assignable, HasName,
           Crud.UniqueNames, DefaultPermissions, Resolve;
      ghost var was := rows;
      var fetched := rows;
      var byId, byName := ById(reg, rows), ByName(reg, rows);
      TitledNone(reg, was);
      InsertedNone(reg, was, newId);
      for k := 0 to |reg.roles|
        invariant rows == TitledAll(reg, k, was)
        invariant forall j :: 0 <= j < k ==> !Clashes(was, reg.roles[j])
        invariant Inserted(adds, newId) == Added(reg, was, k, newId) && |adds| == |Added(reg, was, k, newId)|
        invariant forall a :: a in adds ==> a.1.permissions == Some(DefaultPermissions(reg, a.1.name))
      {
        var d := reg.roles[k];
        ResolveFinds(reg, was, k);
        AddedStep(reg, was, k, newId);
        var found := Resolve(d, fetched, byId, byName);
        if found.Err? { return true; }
        if found.value.Some? {
          var i := found.value.value;
          TitledHit(reg, k, was, i);
          if rows[i].titleKey == "" {
            rows := rows[i := rows[i].(titleKey := d.titleKey)];
          }
        } else {
          TitledMiss(reg, k, was);
          InsertedSnoc(adds, d, NewRole(reg, d), newId);
          AddedCount(reg, was, k, newId);
          adds := adds + [(d.id, NewRole(reg, d))];
        }
      }
      return false;
    }

    /** `init_role_permissions_if_missing` on the fetched rows */
    method FillRows(reg: Registry, fetched: set<int>)
      requires fetched <= rows.Keys
      modifies this`rows
      ensures rows == FilledAll(reg, fetched, old(rows))
    {
      hide FilledAll;
      ghost var was := rows;
      FilledNone(reg, was);
      var todo := fetched;
      assert fetched - todo == {};
      while todo != {}
        invariant todo <= fetched && rows == FilledAll(reg, fetched - todo, was)
      {
        NonEmpty(todo);
        var i :| i in todo;
        FilledStep(reg, fetched - todo, i, was);
        assert fetched - (todo - {i}) == fetched - todo + {i};
        var row := rows[i];
        var permissions, changed := FillMissing(row.permissions, DefaultPermissions(reg, row.name));
        if changed { rows := rows[i := row.(permissions := permissions)]; }
        todo := todo - {i};
      }
      assert fetched - todo == fetched;
    }

    /** The same on the rows to insert */
    method FillAdds(reg: Registry)
      modifies this`adds
      ensures |adds| == |old(adds)|
      ensures forall k :: 0 <= k < |adds| ==> adds[k] == FilledAdd(reg, old(adds)[k])
    {
      for k := 0 to |adds|
        invariant |adds| == |old(adds)|
        invariant forall j :: 0 <= j < |adds| ==>
                    adds[j] == if j < k then FilledAdd(reg, old(adds)[j]) else old(adds)[j]
      {
        var row := adds[k].1;
        var permissions, changed := FillMissing(row.permissions, DefaultPermissions(reg, row.name));
        if changed { adds := adds[k := (adds[k].0, row.(permissions := permissions))]; }
      }
    }

    /** `run_bootstrap_seeding`: the transaction is committed as a whole, or leaves the table as it was. */
    method RunBootstrapSeeding(reg: Registry, newId: int) returns (r: Result<nat, Drift>)
      requires WellFormed(reg) && Crud.UniqueNames(tables) && Assignable(reg, tables, newId)
      modifies this
      ensures match Seed(reg, old(tables), newId)
              case Err(_) => tables == old(tables) && r == Err(Drift)
              case Ok(seeded) => tables == seeded && r.Ok? && |tables| == |old(tables)| + r.value
    {
      rows, adds := tables, [];
      ghost var was := tables;
      var fetched := ById(reg, rows);
      var drifted := MatchDefaults(reg, newId);
      if drifted {
        rows, adds := tables, [];
        return Err(Drift);
      }
      FillRows(reg, fetched);
      ghost var matched := adds;
      FillAdds(reg);
      assert adds == matched;
      AssembledIsSeeded(reg, was, newId);
      rows := rows + Inserted(adds, newId);
      tables := rows;
      return Ok(|adds|);
    }
  }

  function FilledAdd(reg: Registry, a: (Option<int>, Role)): (Option<int>, Role) {
    (a.0, a.1.(permissions := Filled(a.1.permissions, DefaultPermissions(reg, a.1.name))))
  }

  function FilledAll(reg: Registry, ids: set<int>, rows: Roles): Roles {
    map i | i in rows ::
      if i in ids then rows[i].(permissions := Filled(rows[i].permissions, DefaultPermissions(reg, rows[i].name)))
      else rows[i]
  }

  lemma NonEmpty(s: set<int>)
    requires s != {}
    ensures exists i :: i in s
  {
    IntOrder();
    var least := LeastExists(s, IntLe);
  }

  lemma FilledNone(reg: Registry, rows: Roles)
    ensures FilledAll(reg, {}, rows) == rows
  {
  }

  lemma FilledStep(reg: Registry, done: set<int>, i: int, was: Roles)
    requires i in was && i !in done
    ensures var rows := FilledAll(reg, done, was);
            && i in rows && rows[i] == was[i]
            && FilledAll(reg, done + {i}, was) ==
               rows[i := was[i].(permissions := Filled(was[i].permissions, DefaultPermissions(reg, was[i].name)))]
  {
  }

  lemma {:induction false} SizeOfUnion(a: Roles, b: Roles)
    requires a.Keys !! b.Keys
    ensures |a + b| == |a| + |b|
  {
  }

  /** What the session holds at the commit is the table seeding is specified to leave. */
  lemma AssembledIsSeeded(reg: Registry, was: Roles, newId: int)
    requires WellFormed(reg) && Crud.UniqueNames(was) && Assignable(reg, was, newId) && !Drifted(reg, was)
    ensures var rows := FilledAll(reg, ById(reg, was), TitledAll(reg, |reg.roles|, was));
            var added := Added(reg, was, |reg.roles|, newId);
            rows + added == Seed(reg, was, newId).value && |rows + added| == |was| + |added|
  {
    hide Assignable, WellFormed, ById, TitledAll, FilledAll, Refreshed, Added;
    var rows := FilledAll(reg, ById(reg, was), TitledAll(reg, |reg.roles|, was));
    var added := Added(reg, was, |reg.roles|, newId);
    AssembledRows(reg, was);
    AddedAreNew(reg, was, newId);
    SameSize(was, rows);
    SizeOfUnion(rows, added);
  }

  lemma AddedAreNew(reg: Registry, was: Roles, newId: int)
    requires Assignable(reg, was, newId) && !Drifted(reg, was)
    ensures Added(reg, was, |reg.roles|, newId).Keys !! was.Keys
  {
    hide Drifted, Assignable;
    forall i | i in Added(reg, was, |reg.roles|, newId) ensures i !in was {
      var k := AddedOrigin(reg, was, |reg.roles|, newId, i);
      AddedIsNew(reg, was, newId, k, i);
    }
  }

  lemma AssembledRows(reg: Registry, was: Roles)
    requires WellFormed(reg)
    ensures FilledAll(reg, ById(reg, was), TitledAll(reg, |reg.roles|, was)) ==
            map i | i in was :: Refreshed(reg, was[i])
  {
  }

  lemma SameSize(a: Roles, b: Roles)
    requires a.Keys == b.Keys
    ensures |a| == |b|
  {
  }
}
