/** Seeding the default roles at startup, in one transaction. */
module Seeding {
  import opened Wrappers
  import opened Records

  /** `id` is absent for a role that takes whatever id the database assigns. */
  datatype DefaultRole = DefaultRole(id: Option<int>, name: string, titleKey: string)

  /** The default roles, and the permission defaults the RBAC service holds by role name. */
  datatype Registry = Registry(roles: seq<DefaultRole>, permissions: map<string, Flags>)

  type Roles = map<int, Role>

  datatype Drift = Drift

  predicate WellFormed(reg: Registry) {
    && (forall j, k :: 0 <= j < k < |reg.roles| ==>
          reg.roles[j].name != reg.roles[k].name && reg.roles[j].id != reg.roles[k].id)
    && (forall k :: 0 <= k < |reg.roles| ==> reg.roles[k].titleKey != "" && reg.roles[k].name in reg.permissions)
    && (forall name :: name in reg.permissions ==> IsDefaultName(reg, name))
  }

  predicate IsDefaultName(reg: Registry, name: string) {
    exists k :: 0 <= k < |reg.roles| && reg.roles[k].name == name
  }

  function DefaultPermissions(reg: Registry, name: string): Flags {
    if name in reg.permissions then reg.permissions[name] else map[]
  }

  // ---------------------------------------------------------------- the table after seeding

  /** A default role is in the way: its id is another role's, or its name is on another id. */
  predicate Clashes(roles: Roles, d: DefaultRole) {
    d.id.Some? && exists i :: i in roles && (i == d.id.value) != (roles[i].name == d.name)
  }

  predicate Drifted(reg: Registry, roles: Roles) {
    exists k :: 0 <= k < |reg.roles| && Clashes(roles, reg.roles[k])
  }

  predicate HasName(roles: Roles, name: string) {
    exists i :: i in roles && roles[i].name == name
  }

  function IdFor(d: DefaultRole, newId: int): int { if d.id.Some? then d.id.value else newId }

  /** Missing keys get their default; a map that lacks none is left alone. */
  function Filled(p: Option<Flags>, defaults: Flags): Option<Flags> {
    if defaults.Keys <= OrEmpty(p).Keys then p else Some(defaults + OrEmpty(p))
  }

  ghost function TitleOf(reg: Registry, name: string): string {
    if IsDefaultName(reg, name) then
      var k :| 0 <= k < |reg.roles| && reg.roles[k].name == name;
      reg.roles[k].titleKey
    else ""
  }

  ghost function Refreshed(reg: Registry, row: Role): Role {
    Role(row.name,
         if row.titleKey == "" then TitleOf(reg, row.name) else row.titleKey,
         Filled(row.permissions, DefaultPermissions(reg, row.name)))
  }

  function NewRole(reg: Registry, d: DefaultRole): Role {
    Role(d.name, d.titleKey, Some(DefaultPermissions(reg, d.name)))
  }

  /** The rows of the first `n` default roles that the table lacks. */
  function Added(reg: Registry, roles: Roles, n: nat, newId: int): Roles
    requires n <= |reg.roles|
  {
    if n == 0 then map[]
    else
      var d := reg.roles[n - 1];
      var before := Added(reg, roles, n - 1, newId);
      if HasName(roles, d.name) then before else before[IdFor(d, newId) := NewRole(reg, d)]
  }

  ghost function Seed(reg: Registry, roles: Roles, newId: int): Result<Roles, Drift> {
    if Drifted(reg, roles) then Err(Drift)
    else Ok((map i | i in roles :: Refreshed(reg, roles[i])) + Added(reg, roles, |reg.roles|, newId))
  }

  /** The database assigns an id used neither by a row nor by the rows inserted with it. */
  predicate Assignable(reg: Registry, roles: Roles, newId: int) {
    newId !in roles && forall k :: 0 <= k < |reg.roles| ==> reg.roles[k].id != Some(newId)
  }

  // ---------------------------------------------------------------- what seeding guarantees

  /** The `k`-th default role is missing and takes id `i`. */
  predicate AddsAt(reg: Registry, roles: Roles, newId: int, k: nat, i: int) {
    k < |reg.roles| && IdFor(reg.roles[k], newId) == i && !HasName(roles, reg.roles[k].name)
  }

  lemma {:induction false} AddedOrigin(reg: Registry, roles: Roles, n: nat, newId: int, i: int) returns (k: nat)
    requires n <= |reg.roles| && i in Added(reg, roles, n, newId)
    ensures k < n && AddsAt(reg, roles, newId, k, i)
    ensures Added(reg, roles, n, newId)[i] == NewRole(reg, reg.roles[k])
  {
    if AddsAt(reg, roles, newId, n - 1, i) {
      k := n - 1;
    } else {
      k := AddedOrigin(reg, roles, n - 1, newId, i);
    }
  }

  lemma {:induction false} AddedHas(reg: Registry, roles: Roles, n: nat, newId: int, k: nat)
    requires WellFormed(reg) && Assignable(reg, roles, newId)
    requires k < n <= |reg.roles| && !HasName(roles, reg.roles[k].name)
    ensures IdFor(reg.roles[k], newId) in Added(reg, roles, n, newId)
    ensures Added(reg, roles, n, newId)[IdFor(reg.roles[k], newId)] == NewRole(reg, reg.roles[k])
  {
    if k < n - 1 { AddedHas(reg, roles, n - 1, newId, k); }
  }

  /** Each missing default role adds one row. */
  lemma {:induction false} AddedCount(reg: Registry, roles: Roles, n: nat, newId: int)
    requires WellFormed(reg) && Assignable(reg, roles, newId) && n < |reg.roles|
    requires !HasName(roles, reg.roles[n].name)
    ensures |Added(reg, roles, n + 1, newId)| == |Added(reg, roles, n, newId)| + 1
  {
    var i := IdFor(reg.roles[n], newId);
    if i in Added(reg, roles, n, newId) {
      var k := AddedOrigin(reg, roles, n, newId, i);
      assert false;
    }
  }

  lemma AddedIsNew(reg: Registry, roles: Roles, newId: int, k: nat, i: int)
    requires Assignable(reg, roles, newId) && !Drifted(reg, roles) && AddsAt(reg, roles, newId, k, i)
    ensures i !in roles
  {
  }

  /** A permission of a role named `name` after seeding: the value it had, or else the registry's
      default, or else none. */
  predicate ValueKeptOrDefault(reg: Registry, name: string, before: Option<Flags>, after: Option<Flags>, p: string) {
    ValueOf(after, p) ==
      if ValueOf(before, p).Some? then ValueOf(before, p)
      else if name in reg.permissions && p in reg.permissions[name] then Some(reg.permissions[name][p])
      else None
  }

  /** A row before and after seeding: same name, its own title or else its default's, every
      permission at its old value or else its default's; a row that is no default role's is untouched. */
  ghost predicate KeptRow(reg: Registry, before: Role, after: Role) {
    && after.name == before.name
    && (before.titleKey != "" ==> after.titleKey == before.titleKey)
    && (before.titleKey == "" ==>
          forall k :: 0 <= k < |reg.roles| && reg.roles[k].name == before.name ==>
            after.titleKey == reg.roles[k].titleKey)
    && (forall p :: ValueKeptOrDefault(reg, before.name, before.permissions, after.permissions, p))
    && (!IsDefaultName(reg, before.name) ==> after == before)
  }

  /** A row that seeding adds: some missing default role's, with exactly its title and permission
      values, under its fixed id or the one the database assigns. */
  ghost predicate AddedRow(reg: Registry, roles: Roles, newId: int, i: int, row: Role) {
    exists k :: 0 <= k < |reg.roles| &&
      var d := reg.roles[k];
      && (forall j :: j in roles ==> roles[j].name != d.name)
      && i == (if d.id.Some? then d.id.value else newId)
      && row.name == d.name && row.titleKey == d.titleKey
      && forall p :: ValueKeptOrDefault(reg, d.name, None, row.permissions, p)
  }

  /** `d` is there under its name and id, with a title and a value for each of its default permissions. */
  predicate Present(reg: Registry, roles: Roles, d: DefaultRole) {
    exists i :: i in roles && roles[i].name == d.name && (d.id.Some? ==> i == d.id.value) &&
                roles[i].titleKey != "" &&
                DefaultPermissions(reg, d.name).Keys <= OrEmpty(roles[i].permissions).Keys
  }

  lemma PresentHasName(reg: Registry, roles: Roles, d: DefaultRole)
    requires Present(reg, roles, d)
    ensures HasName(roles, d.name)
  {
  }

  lemma RefreshedIsKept(reg: Registry, row: Role)
    requires WellFormed(reg)
    ensures KeptRow(reg, row, Refreshed(reg, row))
  {
  }

  lemma SeedKeepsRows(reg: Registry, roles: Roles, newId: int, i: int)
    requires WellFormed(reg) && Assignable(reg, roles, newId) && !Drifted(reg, roles) && i in roles
    ensures var seeded := Seed(reg, roles, newId).value;
            i in seeded && seeded[i] == Refreshed(reg, roles[i]) && KeptRow(reg, roles[i], seeded[i])
  {
    RefreshedIsKept(reg, roles[i]);
    hide KeptRow, Refreshed;
    if i in Added(reg, roles, |reg.roles|, newId) {
      var k := AddedOrigin(reg, roles, |reg.roles|, newId, i);
      AddedIsNew(reg, roles, newId, k, i);
      assert false;
    }
  }

  lemma SeedHasDefault(reg: Registry, roles: Roles, newId: int, k: nat)
    requires WellFormed(reg) && Assignable(reg, roles, newId) && !Drifted(reg, roles) && k < |reg.roles|
    ensures Present(reg, Seed(reg, roles, newId).value, reg.roles[k])
  {
    var d := reg.roles[k];
    var seeded := Seed(reg, roles, newId).value;
    if HasName(roles, d.name) {
      var i :| i in roles && roles[i].name == d.name;
      SeedKeepsRows(reg, roles, newId, i);
      assert !Clashes(roles, d);
    } else {
      AddedHas(reg, roles, |reg.roles|, newId, k);
      assert seeded[IdFor(d, newId)] == NewRole(reg, d);
    }
  }

  lemma SeedAddsOnlyDefaults(reg: Registry, roles: Roles, newId: int, i: int) returns (k: nat)
    requires Seed(reg, roles, newId).Ok? && i in Seed(reg, roles, newId).value && i !in roles
    ensures AddsAt(reg, roles, newId, k, i) && Seed(reg, roles, newId).value[i] == NewRole(reg, reg.roles[k])
  {
    k := AddedOrigin(reg, roles, |reg.roles|, newId, i);
  }

  lemma NewRoleIsAdded(reg: Registry, roles: Roles, newId: int, k: nat)
    requires WellFormed(reg) && k < |reg.roles| && !HasName(roles, reg.roles[k].name)
    ensures AddedRow(reg, roles, newId, IdFor(reg.roles[k], newId), NewRole(reg, reg.roles[k]))
  {
  }

  /** Seeding is refused exactly when a default role with a fixed id is in the way. Otherwise
      every row is kept but for missing titles and permissions, every default role is present, and
      the rows added are those of the missing ones, with their defaults. */
  lemma SeedingGuarantees(reg: Registry, roles: Roles, newId: int)
    requires WellFormed(reg) && Assignable(reg, roles, newId)
    ensures Seed(reg, roles, newId).Err? <==>
              exists k, i :: 0 <= k < |reg.roles| && i in roles && reg.roles[k].id.Some? &&
                             (i == reg.roles[k].id.value) != (roles[i].name == reg.roles[k].name)
    ensures match Seed(reg, roles, newId)
            case Err(_) => true
            case Ok(seeded) =>
              && (forall i :: i in roles ==> i in seeded && KeptRow(reg, roles[i], seeded[i]))
              && (forall k :: 0 <= k < |reg.roles| ==> Present(reg, seeded, reg.roles[k]))
              && (forall i :: i in seeded && i !in roles ==> AddedRow(reg, roles, newId, i, seeded[i]))
  {
    if Drifted(reg, roles) {
      var k :| 0 <= k < |reg.roles| && Clashes(roles, reg.roles[k]);
      var i :| i in roles && (i == reg.roles[k].id.value) != (roles[i].name == reg.roles[k].name);
    } else {
      forall k, i | 0 <= k < |reg.roles| && i in roles && reg.roles[k].id.Some?
        ensures (i == reg.roles[k].id.value) == (roles[i].name == reg.roles[k].name)
      {
        assert !Clashes(roles, reg.roles[k]);
      }
      forall i | i in roles { SeedKeepsRows(reg, roles, newId, i); }
      forall k | 0 <= k < |reg.roles| { SeedHasDefault(reg, roles, newId, k); }
      var seeded := Seed(reg, roles, newId).value;
      forall i | i in seeded && i !in roles ensures AddedRow(reg, roles, newId, i, seeded[i]) {
        var k := SeedAddsOnlyDefaults(reg, roles, newId, i);
        NewRoleIsAdded(reg, roles, newId, k);
      }
    }
  }

  // ---------------------------------------------------------------- a second run

  lemma RefreshedIsFixed(reg: Registry, row: Role)
    requires WellFormed(reg)
    ensures Refreshed(reg, Refreshed(reg, row)) == Refreshed(reg, row)
    ensures forall k :: 0 <= k < |reg.roles| ==>
              Refreshed(reg, NewRole(reg, reg.roles[k])) == NewRole(reg, reg.roles[k])
  {
  }

  lemma {:induction false} NothingToAdd(reg: Registry, roles: Roles, n: nat, newId: int)
    requires n <= |reg.roles|
    requires forall k :: 0 <= k < n ==> HasName(roles, reg.roles[k].name)
    ensures Added(reg, roles, n, newId) == map[]
  {
    if n > 0 { NothingToAdd(reg, roles, n - 1, newId); }
  }

  lemma SeededDoesNotDrift(reg: Registry, roles: Roles, newId: int)
    requires WellFormed(reg) && Assignable(reg, roles, newId) && Seed(reg, roles, newId).Ok?
    ensures !Drifted(reg, Seed(reg, roles, newId).value)
  {
    var seeded := Seed(reg, roles, newId).value;
    forall k, i | 0 <= k < |reg.roles| && i in seeded && reg.roles[k].id.Some?
      ensures (i == reg.roles[k].id.value) == (seeded[i].name == reg.roles[k].name)
    {
      if i in roles {
        SeedKeepsRows(reg, roles, newId, i);
        assert !Clashes(roles, reg.roles[k]);
      } else {
        var j := SeedAddsOnlyDefaults(reg, roles, newId, i);
      }
    }
  }

  lemma SeededIsRefreshed(reg: Registry, roles: Roles, newId: int, i: int)
    requires WellFormed(reg) && Assignable(reg, roles, newId) && Seed(reg, roles, newId).Ok?
    requires i in Seed(reg, roles, newId).value
    ensures var row := Seed(reg, roles, newId).value[i]; Refreshed(reg, row) == row
  {
    if i in roles {
      SeedKeepsRows(reg, roles, newId, i);
      RefreshedIsFixed(reg, roles[i]);
    } else {
      var k := SeedAddsOnlyDefaults(reg, roles, newId, i);
      RefreshedIsFixed(reg, NewRole(reg, reg.roles[k]));
    }
  }

  /** A second run, whatever ids the database would then assign, creates and changes nothing. */
  lemma SeedingIsIdempotent(reg: Registry, roles: Roles, newId: int, otherId: int)
    requires WellFormed(reg) && Assignable(reg, roles, newId) && Seed(reg, roles, newId).Ok?
    ensures var seeded := Seed(reg, roles, newId).value; Seed(reg, seeded, otherId) == Ok(seeded)
  {
    hide WellFormed, Refreshed, Present, Assignable;
    var seeded := Seed(reg, roles, newId).value;
    SeededDoesNotDrift(reg, roles, newId);
    forall k | 0 <= k < |reg.roles| ensures HasName(seeded, reg.roles[k].name) {
      SeedHasDefault(reg, roles, newId, k);
      PresentHasName(reg, seeded, reg.roles[k]);
    }
    NothingToAdd(reg, seeded, |reg.roles|, otherId);
    forall i | i in seeded { SeededIsRefreshed(reg, roles, newId, i); }
    assert (map i | i in seeded :: Refreshed(reg, seeded[i])) + map[] == seeded;
    assert Seed(reg, seeded, otherId).Ok?;
  }
}
