/** Seeding the roles and the grants of one tenant. */
module TenantSeeding {
  import opened JsText
  import opened Options
  import opened TenantRoles

  datatype SystemKey = Employee | Manager | HrAdmin

  datatype Role = Role(description: Option<string>, systemKey: Option<SystemKey>, isSystem: bool, isActive: bool)

  /** A role is known by its name, which is unique in a tenant. */
  datatype Grant = Grant(role: string, key: string)

  datatype Tables = Tables(roles: map<string, Role>, grants: set<Grant>)

  datatype Failure = SystemKeyTaken | UnknownBuiltInKey | InvalidCustomKeys(keys: set<string>) | NameRefused(name: string)

  /** The call returns, or throws when the tables are as given here. */
  datatype Result = Seeded(tables: Tables) | Thrown(failure: Failure, tables: Tables)

  const FRESH := Tables(map[], {})

  function EmployeeKeys(): set<string> {
    {"locations.read", "attendance.clock", "break_requests.create", "break_requests.view_own", "leave.create",
     "leave.request.self", "leave.view.self", "leave.cancel.self", "payroll.view_self", "payroll.export_pdf",
     "loans.view_self", "grievances.create", "grievances.view_own", "resignations.create", "resignations.view_own",
     "feed.read", "roster.goals.view_self", "roster.goals.complete_self"}
  }

  function ManagerKeys(): set<string> {
    {"locations.read", "attendance.view", "break_requests.create", "break_requests.view_own", "break_requests.review",
     "break_requests.view_all", "leave.review", "leave.request.self", "leave.view.self", "leave.cancel.self",
     "roster.view_all", "roster.manage", "roster.goals.view_self", "roster.goals.complete_self",
     "roster.goals.view_scoped", "roster.goals.manage", "payroll.view_self", "payroll.export_pdf", "loans.view_self",
     "grievances.review", "grievances.view", "grievances.triage", "grievances.assign", "grievances.respond",
     "grievances.internal_notes", "grievances.resolve", "grievances.close", "resignations.view_all",
     "resignations.review", "feed.read"}
  }

  /** `LIKE 'platform.%'`. */
  predicate IsPlatform(key: string) {
    "platform." <= key
  }

  /** The listed keys of the roles that have a list. */
  function ListedKeys(system: Option<SystemKey>): set<string> {
    match system
    case Some(Employee) => EmployeeKeys()
    case Some(Manager) => ManagerKeys()
    case _ => {}
  }

  const BUILT_IN := [
    ("Employee", Role(Some("Default employee access."), Some(Employee), true, true)),
    ("Manager", Role(Some("Default manager access."), Some(Manager), true, true)),
    ("HR Admin", Role(Some("Default HR administrator access."), Some(HrAdmin), true, true))
  ]

  const MAX_NAME_CHARACTERS := 100

  /** A name that is too long for its column, or has nothing but spaces. */
  predicate Refused(name: string) {
    |name| > MAX_NAME_CHARACTERS || forall i :: 0 <= i < |name| ==> name[i] == ' '
  }

  /** A name has at most a hundred characters and is not all spaces. */
  predicate NameFits(name: string) {
    |name| <= 100 && exists c <- name :: c != ' '
  }

  /** The foreign keys, the names and the unique system key of the schema. */
  ghost predicate Valid(catalog: set<string>, t: Tables) {
    && (forall n <- t.roles :: NameFits(n))
    && (forall g <- t.grants :: g.role in t.roles && g.key in catalog)
    && forall m, n :: m in t.roles && n in t.roles && m != n && t.roles[m].systemKey.Some? ==>
      t.roles[m].systemKey != t.roles[n].systemKey
  }

  predicate Takes(roles: map<string, Role>, system: Option<SystemKey>) {
    system.Some? && exists n <- roles :: roles[n].systemKey == system
  }

  /** `INSERT … ON CONFLICT (tenant_id, name) DO NOTHING` row by row; `None` when the system key is taken. */
  function Inserted(roles: map<string, Role>, rows: seq<(string, Role)>): Option<map<string, Role>>
    decreases rows
  {
    if rows == [] then Some(roles)
    else if rows[0].0 in roles then Inserted(roles, rows[1..])
    else if Takes(roles, rows[0].1.systemKey) then None
    else Inserted(roles[rows[0].0 := rows[0].1], rows[1..])
  }

  function ListedGrants(t: Tables): set<Grant> {
    set n, k | n in t.roles && k in ListedKeys(t.roles[n].systemKey) :: Grant(n, k)
  }

  function CatalogGrants(catalog: set<string>, t: Tables): set<Grant> {
    set n, k | n in t.roles && t.roles[n].systemKey == Some(HrAdmin) && k in catalog && !IsPlatform(k) :: Grant(n, k)
  }

  function Requested(custom: seq<CustomRole>): set<string> {
    set i, k | 0 <= i < |custom| && k in custom[i].permissionKeys :: k
  }

  function InvalidKeys(catalog: set<string>, custom: seq<CustomRole>): set<string> {
    set k | k in Requested(custom) && (k !in catalog || IsPlatform(k))
  }

  /** One round of the loop over the custom roles. */
  function Stored(catalog: set<string>, t: Tables, role: CustomRole): Tables {
    Tables(
      t.roles[role.name :=
        if role.name in t.roles then t.roles[role.name].(description := role.description)
        else Role(role.description, None, false, true)],
      t.grants + set k | k in catalog && k in role.permissionKeys :: Grant(role.name, k)
    )
  }

  function AllStored(catalog: set<string>, t: Tables, custom: seq<CustomRole>): Tables {
    if custom == [] then t
    else Stored(catalog, AllStored(catalog, t, custom[..|custom| - 1]), custom[|custom| - 1])
  }

  /** The place of the first custom role whose name is refused, or behind the last one. */
  function FirstRefused(custom: seq<CustomRole>): (n: nat)
    ensures n <= |custom|
  {
    if custom == [] || Refused(custom[0].name) then 0 else FirstRefused(custom[1..]) + 1
  }

  /** The tables when the built-in roles and grants are in. */
  function WithBuiltIns(catalog: set<string>, t: Tables): Tables
    requires Inserted(t.roles, BUILT_IN).Some?
  {
    var roles := Inserted(t.roles, BUILT_IN).value;
    Tables(roles, t.grants + ListedGrants(t.(roles := roles)) + CatalogGrants(catalog, t.(roles := roles)))
  }

  /** The loop over the custom roles ends at the first name that is refused. */
  function LoopResult(catalog: set<string>, t: Tables, custom: seq<CustomRole>): Result {
    var n := FirstRefused(custom);
    var tables := AllStored(catalog, t, custom[..n]);
    if n < |custom| then Thrown(NameRefused(custom[n].name), tables) else Seeded(tables)
  }

  function SeedResult(catalog: set<string>, t: Tables, custom: seq<CustomRole>): Result {
    var inserted := Inserted(t.roles, BUILT_IN);
    if inserted.None? then Thrown(SystemKeyTaken, t)
    else if exists g <- ListedGrants(t.(roles := inserted.value)) :: g.key !in catalog then
      Thrown(UnknownBuiltInKey, t.(roles := inserted.value))
    else
      var seeded := WithBuiltIns(catalog, t);
      if InvalidKeys(catalog, custom) != {} then Thrown(InvalidCustomKeys(InvalidKeys(catalog, custom)), seeded)
      else LoopResult(catalog, seeded, custom)
  }

  lemma CatalogGrantsReadRoles(catalog: set<string>, a: Tables, b: Tables)
    requires a.roles == b.roles
    ensures CatalogGrants(catalog, a) == CatalogGrants(catalog, b)
  {
  }

  /** The role and grant tables of one tenant, and the catalog of permissions that all tenants share. */
  class TenantTables {
    const catalog: set<string>
    var roles: map<string, Role>
    var grants: set<Grant>

    constructor (catalog: set<string>)
      ensures Contents() == FRESH && this.catalog == catalog
    {
      this.catalog := catalog;
      roles, grants := map[], {};
    }

    function Contents(): Tables
      reads this
    {
      Tables(roles, grants)
    }

    method InsertBuiltIns() returns (ok: bool)
      modifies `roles
      ensures ok == Inserted(old(roles), BUILT_IN).Some?
      ensures roles == if ok then Inserted(old(roles), BUILT_IN).value else old(roles)
    {
      var rows := roles;
      for i := 0 to |BUILT_IN|
        invariant roles == old(roles)
        invariant Inserted(rows, BUILT_IN[i..]) == Inserted(roles, BUILT_IN)
      {
        assert BUILT_IN[i..][1..] == BUILT_IN[i + 1..];
        var (name, role) := BUILT_IN[i];
        if name !in rows {
          if Takes(rows, role.systemKey) {
            return false;
          }
          rows := rows[name := role];
        }
      }
      roles := rows;
      ok := true;
    }

    /** One round of the loop, for a name that the table takes. */
    method StoreCustomRole(role: CustomRole)
      requires !Refused(role.name)
      modifies this
      ensures Contents() == Stored(catalog, old(Contents()), role)
    {
      if role.name in roles {
        roles := roles[role.name := roles[role.name].(description := role.description)];
      } else {
        roles := roles[role.name := Role(role.description, None, false, true)];
      }
      if |role.permissionKeys| > 0 {
        grants := grants + set k | k in catalog && k in role.permissionKeys :: Grant(role.name, k);
      } else {
        assert (set k | k in catalog && k in role.permissionKeys :: Grant(role.name, k)) == {};
      }
    }

    method Seed(custom: seq<CustomRole>) returns (failure: Option<Failure>)
      modifies this
      ensures var result := SeedResult(catalog, old(Contents()), custom);
        && Contents() == result.tables
        && failure == if result.Seeded? then None else Some(result.failure)
    {
      hide Inserted, Refused, ListedGrants, CatalogGrants, InvalidKeys, Stored;
      var ok := InsertBuiltIns();
      if !ok {
        return Some(SystemKeyTaken);
      }
      var listed := ListedGrants(Contents());
      if exists g <- listed :: g.key !in catalog {
        return Some(UnknownBuiltInKey);
      }
      grants := grants + listed;
      grants := grants + CatalogGrants(catalog, Contents());
      var seeded := Contents();
      CatalogGrantsReadRoles(catalog, old(Contents()).(roles := roles), Tables(roles, old(grants) + listed));
      assert seeded == WithBuiltIns(catalog, old(Contents()));
      var invalid := InvalidKeys(catalog, custom);
      if invalid != {} {
        return Some(InvalidCustomKeys(invalid));
      }
      for i := 0 to |custom|
        invariant Contents() == AllStored(catalog, seeded, custom[..i])
        invariant FirstRefused(custom) == i + FirstRefused(custom[i..])
      {
        assert custom[..i + 1][..i] == custom[..i] && custom[i..][0] == custom[i] && custom[i..][1..] == custom[i + 1..];
        if Refused(custom[i].name) {
          return Some(NameRefused(custom[i].name));
        }
        StoreCustomRole(custom[i]);
      }
      assert custom[..|custom|] == custom && custom[|custom|..] == [];
      return None;
    }
  }

  // What seeding grants.

  /** Some custom role with exactly this name asks for the key. */
  ghost predicate Asks(custom: seq<CustomRole>, name: string, key: string) {
    exists i :: 0 <= i < |custom| && custom[i].name == name && key in custom[i].permissionKeys
  }

  ghost predicate NamedIn(custom: seq<CustomRole>, name: string) {
    exists i :: 0 <= i < |custom| && custom[i].name == name
  }

  function BuiltInSystemKey(name: string): Option<SystemKey> {
    match name
    case "Employee" => Some(Employee)
    case "Manager" => Some(Manager)
    case "HR Admin" => Some(HrAdmin)
    case _ => None
  }

  /** A role's system key once the tenant is seeded. */
  function SystemKeyAfter(t: Tables, name: string): Option<SystemKey> {
    if name in t.roles then t.roles[name].systemKey else BuiltInSystemKey(name)
  }

  lemma LastSplits(front: seq<CustomRole>, last: CustomRole, name: string, key: string)
    ensures NamedIn(front + [last], name) <==> NamedIn(front, name) || name == last.name
    ensures Asks(front + [last], name, key) <==>
      Asks(front, name, key) || (name == last.name && key in last.permissionKeys)
  {
    var all := front + [last];
    assert all[|front|] == last;
    assert forall i :: 0 <= i < |front| ==> all[i] == front[i];
  }

  /** The description that the last custom role with this name gives. */
  function LastDescription(custom: seq<CustomRole>, name: string, otherwise: Option<string>): Option<string> {
    if custom == [] then otherwise
    else if custom[|custom| - 1].name == name then custom[|custom| - 1].description
    else LastDescription(custom[..|custom| - 1], name, otherwise)
  }

  /** What a role was, or what a custom role starts as. */
  function RoleBefore(t: Tables, name: string): Role {
    if name in t.roles then t.roles[name] else Role(None, None, false, true)
  }

  lemma StoredIsExact(catalog: set<string>, t: Tables, role: CustomRole, n: string, k: string)
    ensures var after := Stored(catalog, t, role);
      && (n in after.roles <==> n in t.roles || n == role.name)
      && RoleBefore(after, n) ==
           RoleBefore(t, n).(description := if n == role.name then role.description else RoleBefore(t, n).description)
      && (Grant(n, k) in after.grants <==>
            Grant(n, k) in t.grants || (k in catalog && n == role.name && k in role.permissionKeys))
  {
  }

  /** The loop adds the missing roles without a system key, and for each exactly the keys of the catalog it asks for. */
  lemma {:induction false} AllStoredIsExact(catalog: set<string>, t: Tables, custom: seq<CustomRole>, n: string, k: string)
    ensures var after := AllStored(catalog, t, custom);
      && (n in after.roles <==> n in t.roles || NamedIn(custom, n))
      && RoleBefore(after, n) ==
           RoleBefore(t, n).(description := LastDescription(custom, n, RoleBefore(t, n).description))
      && (Grant(n, k) in after.grants <==> Grant(n, k) in t.grants || (k in catalog && Asks(custom, n, k)))
  {
    if custom != [] {
      var (front, last) := (custom[..|custom| - 1], custom[|custom| - 1]);
      assert custom == front + [last];
      AllStoredIsExact(catalog, t, front, n, k);
      StoredIsExact(catalog, AllStored(catalog, t, front), last, n, k);
      LastSplits(front, last, n, k);
    }
  }

  /** Rows that differ in name and in system key. */
  ghost predicate DistinctRows(rows: seq<(string, Role)>) {
    && (forall i :: 0 <= i < |rows| ==> rows[i].1.systemKey.Some?)
    && forall i, j :: 0 <= i < j < |rows| ==> rows[i].0 != rows[j].0 && rows[i].1.systemKey != rows[j].1.systemKey
  }

  ghost predicate Free(roles: map<string, Role>, rows: seq<(string, Role)>) {
    forall i :: 0 <= i < |rows| && rows[i].0 !in roles ==> !Takes(roles, rows[i].1.systemKey)
  }

  ghost predicate Among(rows: seq<(string, Role)>, n: string) {
    exists i :: 0 <= i < |rows| && rows[i].0 == n
  }

  ghost predicate Holds(after: map<string, Role>, roles: map<string, Role>, rows: seq<(string, Role)>) {
    && (forall n :: n in after <==> n in roles || Among(rows, n))
    && (forall n <- roles :: after[n] == roles[n])
    && forall i :: 0 <= i < |rows| && rows[i].0 !in roles ==> after[rows[i].0] == rows[i].1
  }

  /** A row that is stored first does not touch the system keys of the rows behind it. */
  lemma TakesAfterFirst(roles: map<string, Role>, first: (string, Role), system: Option<SystemKey>)
    requires first.0 !in roles && first.1.systemKey != system
    ensures Takes(roles[first.0 := first.1], system) <==> Takes(roles, system)
  {
    var next := roles[first.0 := first.1];
    if Takes(roles, system) {
      var n :| n in roles && roles[n].systemKey == system;
      assert n in next && next[n] == roles[n];
    }
  }

  lemma FreeAfterFirst(roles: map<string, Role>, first: (string, Role), rest: seq<(string, Role)>)
    requires DistinctRows([first] + rest)
    requires first.0 !in roles
    ensures Free(roles, [first] + rest) <==>
      !Takes(roles, first.1.systemKey) && Free(roles[first.0 := first.1], rest)
  {
    hide Takes;
    var rows := [first] + rest;
    assert rows[0] == first && forall i :: 0 <= i < |rest| ==> rows[i + 1] == rest[i];
    forall i | 0 <= i < |rest|
      ensures Takes(roles[first.0 := first.1], rest[i].1.systemKey) <==> Takes(roles, rest[i].1.systemKey)
    {
      TakesAfterFirst(roles, first, rest[i].1.systemKey);
    }
    if !Takes(roles, first.1.systemKey) && Free(roles[first.0 := first.1], rest) {
      forall i | 0 <= i < |rows| && rows[i].0 !in roles ensures !Takes(roles, rows[i].1.systemKey) {
        assert i > 0 ==> rows[i] == rest[i - 1];
      }
    }
  }

  lemma AmongFirstOrRest(first: (string, Role), rest: seq<(string, Role)>, n: string)
    ensures Among([first] + rest, n) <==> first.0 == n || Among(rest, n)
  {
    var rows := [first] + rest;
    if first.0 == n {
      assert rows[0].0 == n;
    }
    if i :| 0 <= i < |rest| && rest[i].0 == n {
      assert rows[i + 1].0 == n;
    }
    if i :| 0 <= i < |rows| && rows[i].0 == n {
      assert i > 0 ==> rest[i - 1].0 == n;
    }
  }

  lemma FirstIsNotAmong(first: (string, Role), rest: seq<(string, Role)>)
    requires DistinctRows([first] + rest)
    ensures !Among(rest, first.0)
  {
    var rows := [first] + rest;
    forall i | 0 <= i < |rest| ensures rest[i].0 != first.0 {
      assert rows[0] == first && rows[i + 1] == rest[i];
    }
  }

  lemma HoldsAfterFirst(after: map<string, Role>, roles: map<string, Role>, first: (string, Role), rest: seq<(string, Role)>)
    requires DistinctRows([first] + rest)
    requires Holds(after, if first.0 in roles then roles else roles[first.0 := first.1], rest)
    ensures Holds(after, roles, [first] + rest)
  {
    hide DistinctRows, Among;
    var rows := [first] + rest;
    forall n ensures Among(rows, n) <==> first.0 == n || Among(rest, n) {
      AmongFirstOrRest(first, rest, n);
    }
    FirstIsNotAmong(first, rest);
    forall i | 0 <= i < |rows| && rows[i].0 !in roles ensures rows[i].0 in after && after[rows[i].0] == rows[i].1 {
      if i > 0 {
        assert rows[i] == rest[i - 1];
        IsAmong(rest, i - 1);
      }
    }
  }

  lemma IsAmong(rows: seq<(string, Role)>, i: int)
    requires 0 <= i < |rows|
    ensures Among(rows, rows[i].0)
  {
  }

  lemma {:induction false} InsertedIsExact(roles: map<string, Role>, rows: seq<(string, Role)>)
    requires DistinctRows(rows)
    ensures Inserted(roles, rows).Some? <==> Free(roles, rows)
    ensures Inserted(roles, rows).Some? ==> Holds(Inserted(roles, rows).value, roles, rows)
    decreases rows
  {
    hide Takes, Holds;
    if rows == [] {
      NothingToInsert(roles);
    } else {
      var (first, rest) := (rows[0], rows[1..]);
      assert rows == [first] + rest;
      var next := if first.0 in roles then roles else roles[first.0 := first.1];
      InsertedIsExact(next, rest);
      if first.0 !in roles {
        FreeAfterFirst(roles, first, rest);
      }
      if Inserted(next, rest).Some? {
        HoldsAfterFirst(Inserted(next, rest).value, roles, first, rest);
      }
    }
  }

  lemma NothingToInsert(roles: map<string, Role>)
    ensures Holds(roles, roles, [])
  {
  }

  lemma BuiltInsAreInserted(t: Tables)
    ensures DistinctRows(BUILT_IN)
    ensures Inserted(t.roles, BUILT_IN).Some? <==> Free(t.roles, BUILT_IN)
    ensures Inserted(t.roles, BUILT_IN).Some? ==> var after := Inserted(t.roles, BUILT_IN).value;
      && (forall n :: n in after <==> n in t.roles || BuiltInSystemKey(n).Some?)
      && (forall n <- t.roles :: after[n] == t.roles[n])
      && (forall n <- after :: after[n].systemKey == SystemKeyAfter(t, n))
  {
    hide Inserted, Takes;
    InsertedIsExact(t.roles, BUILT_IN);
    assert BUILT_IN[0].0 == "Employee" && BUILT_IN[1].0 == "Manager" && BUILT_IN[2].0 == "HR Admin";
  }

  /** A key that a role of this kind is given by default. */
  ghost predicate IsDefault(catalog: set<string>, system: Option<SystemKey>, k: string) {
    || (system == Some(Employee) && k in EmployeeKeys())
    || (system == Some(Manager) && k in ManagerKeys())
    || (system == Some(HrAdmin) && k in catalog && !IsPlatform(k))
  }

  /** All that a seeded tenant's employee and manager roles need is in the catalog. */
  ghost predicate ListedKeysKnown(catalog: set<string>, t: Tables) {
    && ((exists n :: SystemKeyAfter(t, n) == Some(Employee)) ==> EmployeeKeys() <= catalog)
    && ((exists n :: SystemKeyAfter(t, n) == Some(Manager)) ==> ManagerKeys() <= catalog)
  }

  lemma ListedAreDefault(catalog: set<string>, system: Option<SystemKey>, k: string)
    ensures IsDefault(catalog, system, k) <==>
      k in ListedKeys(system) || (system == Some(HrAdmin) && k in catalog && !IsPlatform(k))
  {
    hide EmployeeKeys, ManagerKeys, IsPlatform;
  }

  lemma KnownMeansListed(catalog: set<string>, t: Tables)
    ensures ListedKeysKnown(catalog, t) <==> forall n, k :: k in ListedKeys(SystemKeyAfter(t, n)) ==> k in catalog
  {
    hide EmployeeKeys, ManagerKeys;
    if forall n, k :: k in ListedKeys(SystemKeyAfter(t, n)) ==> k in catalog {
      if n :| SystemKeyAfter(t, n) == Some(Employee) {
        assert forall k <- EmployeeKeys() :: k in ListedKeys(SystemKeyAfter(t, n));
      }
      if n :| SystemKeyAfter(t, n) == Some(Manager) {
        assert forall k <- ManagerKeys() :: k in ListedKeys(SystemKeyAfter(t, n));
      }
    }
  }

  ghost predicate CustomKeysKnown(catalog: set<string>, custom: seq<CustomRole>) {
    forall i, k :: 0 <= i < |custom| && k in custom[i].permissionKeys ==> k in catalog && !IsPlatform(k)
  }

  ghost predicate NamesTaken(custom: seq<CustomRole>) {
    forall i :: 0 <= i < |custom| ==> !Refused(custom[i].name)
  }

  lemma {:induction false} FirstRefusedIsFirst(custom: seq<CustomRole>)
    ensures var n := FirstRefused(custom);
      && (n < |custom| ==> Refused(custom[n].name))
      && NamesTaken(custom[..n])
  {
    hide Refused;
    if custom != [] && !Refused(custom[0].name) {
      FirstRefusedIsFirst(custom[1..]);
      var n := FirstRefused(custom);
      forall i | 0 <= i < n ensures !Refused(custom[..n][i].name) {
        assert i > 0 ==> custom[..n][i] == custom[1..][..n - 1][i - 1];
      }
    }
  }

  lemma NoneRefused(custom: seq<CustomRole>)
    ensures FirstRefused(custom) == |custom| <==> NamesTaken(custom)
  {
    hide Refused;
    FirstRefusedIsFirst(custom);
    assert custom[..|custom|] == custom;
  }

  ghost predicate NamesFitColumn(custom: seq<CustomRole>) {
    forall i :: 0 <= i < |custom| ==> NameFits(custom[i].name)
  }

  lemma FitsExactly(name: string)
    ensures NameFits(name) <==> !Refused(name)
  {
    if !Refused(name) {
      var i :| 0 <= i < |name| && name[i] != ' ';
      assert name[i] in name;
    }
  }

  lemma NamesFitExactly(custom: seq<CustomRole>)
    ensures NamesFitColumn(custom) <==> NamesTaken(custom)
  {
    hide NameFits, Refused;
    forall i | 0 <= i < |custom| ensures NameFits(custom[i].name) <==> !Refused(custom[i].name) {
      FitsExactly(custom[i].name);
    }
  }

  /** The built-in role of this name is there, or no other role has its system key. */
  ghost predicate MayBeBuiltIn(roles: map<string, Role>, name: string, system: SystemKey) {
    name in roles || forall n <- roles :: roles[n].systemKey != Some(system)
  }

  ghost predicate SystemKeysAreFree(roles: map<string, Role>) {
    && MayBeBuiltIn(roles, "Employee", Employee) && MayBeBuiltIn(roles, "Manager", Manager)
    && MayBeBuiltIn(roles, "HR Admin", HrAdmin)
  }

  lemma FreeExactly(roles: map<string, Role>)
    ensures Free(roles, BUILT_IN) <==> SystemKeysAreFree(roles)
  {
    assert BUILT_IN[0].0 == "Employee" && BUILT_IN[1].0 == "Manager" && BUILT_IN[2].0 == "HR Admin";
  }

  /**
    Seeding succeeds exactly when no missing built-in role finds its system key taken, the catalog has every
    listed key, every key that a custom role asks for is in the catalog and no platform key, and every name fits.
    Otherwise it fails with the first of these that does not hold.
   */
  lemma SeedingSucceeds(catalog: set<string>, t: Tables, custom: seq<CustomRole>)
    ensures SeedResult(catalog, t, custom).Seeded? <==>
      && SystemKeysAreFree(t.roles) && ListedKeysKnown(catalog, t)
      && CustomKeysKnown(catalog, custom) && NamesFitColumn(custom)
    ensures SeedResult(catalog, t, custom).Thrown? ==>
      match SeedResult(catalog, t, custom).failure
      case SystemKeyTaken => !SystemKeysAreFree(t.roles)
      case UnknownBuiltInKey => SystemKeysAreFree(t.roles) && !ListedKeysKnown(catalog, t)
      case InvalidCustomKeys(_) =>
        SystemKeysAreFree(t.roles) && ListedKeysKnown(catalog, t) && !CustomKeysKnown(catalog, custom)
      case NameRefused(_) => SystemKeysAreFree(t.roles) && ListedKeysKnown(catalog, t) && CustomKeysKnown(catalog, custom)
  {
    hide Inserted, Free, SystemKeysAreFree, ListedKeys, ListedKeysKnown, IsPlatform, AllStored, NamesTaken, NamesFitColumn,
      FirstRefused;
    FreeExactly(t.roles);
    NamesFitExactly(custom);
    KnownMeansListed(catalog, t);
    NoneRefused(custom);
    BuiltInsAreInserted(t);
    if Inserted(t.roles, BUILT_IN).Some? {
      var after := t.(roles := Inserted(t.roles, BUILT_IN).value);
      if ListedKeysKnown(catalog, t) {
        assert forall g <- ListedGrants(after) :: g.key in catalog;
      } else {
        var n, k :| k in ListedKeys(SystemKeyAfter(t, n)) && k !in catalog;
        NoListWithoutSystemKey(SystemKeyAfter(t, n));
        assert Grant(n, k) in ListedGrants(after);
      }
      if !CustomKeysKnown(catalog, custom) {
        var i, k :| 0 <= i < |custom| && k in custom[i].permissionKeys && (k !in catalog || IsPlatform(k));
        assert k in InvalidKeys(catalog, custom);
      }
    }
  }

  lemma NoListWithoutSystemKey(system: Option<SystemKey>)
    ensures system.None? ==> ListedKeys(system) == {}
  {
  }

  lemma BuiltInGrants(catalog: set<string>, t: Tables, n: string, k: string)
    requires Inserted(t.roles, BUILT_IN).Some? && ListedKeysKnown(catalog, t)
    ensures Grant(n, k) in WithBuiltIns(catalog, t).grants <==>
      Grant(n, k) in t.grants || IsDefault(catalog, SystemKeyAfter(t, n), k)
  {
    hide Inserted, EmployeeKeys, ManagerKeys, IsPlatform, IsDefault, ListedKeysKnown;
    BuiltInsAreInserted(t);
    ListedAreDefault(catalog, SystemKeyAfter(t, n), k);
    NoListWithoutSystemKey(SystemKeyAfter(t, n));
  }

  /**
    A seeded tenant's role has exactly the grants it had, the default ones of its system key, and the keys of the
    custom roles with exactly its name; seeding drops no role and changes no system key.
   */
  lemma GrantsAreExact(catalog: set<string>, t: Tables, custom: seq<CustomRole>, n: string, k: string)
    requires SeedResult(catalog, t, custom).Seeded?
    ensures var after := SeedResult(catalog, t, custom).tables;
      && (n in after.roles <==> n in t.roles || BuiltInSystemKey(n).Some? || NamedIn(custom, n))
      && SystemKeyAfter(after, n) == SystemKeyAfter(t, n)
      && (Grant(n, k) in after.grants <==>
            Grant(n, k) in t.grants || IsDefault(catalog, SystemKeyAfter(t, n), k) || Asks(custom, n, k))
  {
    hide SeedResult, Inserted, IsDefault, ListedKeysKnown, IsPlatform, AllStored, WithBuiltIns, NamesTaken;
    SeedingSucceeds(catalog, t, custom);
    SeededTables(catalog, t, custom);
    BuiltInsAreInserted(t);
    BuiltInGrants(catalog, t, n, k);
    BuiltInRoles(catalog, t);
    AllStoredIsExact(catalog, WithBuiltIns(catalog, t), custom, n, k);
  }

  lemma BuiltInRoles(catalog: set<string>, t: Tables)
    requires Inserted(t.roles, BUILT_IN).Some?
    ensures WithBuiltIns(catalog, t).roles == Inserted(t.roles, BUILT_IN).value
  {
  }

  lemma EmployeeKeysStart(k: string)
    requires k in EmployeeKeys()
    ensures |k| > 1 && (k[0] != 'p' || k[1] == 'a')
  {
  }

  lemma ManagerKeysStart(k: string)
    requires k in ManagerKeys()
    ensures |k| > 1 && (k[0] != 'p' || k[1] == 'a')
  {
  }

  lemma DefaultKeysAreNotPlatform(catalog: set<string>, system: Option<SystemKey>, k: string)
    requires IsDefault(catalog, system, k)
    ensures !IsPlatform(k)
  {
    hide EmployeeKeys, ManagerKeys;
    if system == Some(Employee) {
      EmployeeKeysStart(k);
    } else if system == Some(Manager) {
      ManagerKeysStart(k);
    }
    assert "platform."[0] == 'p' && "platform."[1] == 'l';
  }

  /** What a new tenant's role of this name is given by default. */
  ghost predicate IsDefaultOf(catalog: set<string>, name: string, k: string) {
    || (name == "Employee" && k in EmployeeKeys())
    || (name == "Manager" && k in ManagerKeys())
    || (name == "HR Admin" && k in catalog && !IsPlatform(k))
  }

  /**
    What registration gives a new tenant: a role has exactly the default keys of its name and the keys of the
    one custom role with exactly that name, and no platform key.
   */
  lemma FreshTenantIsExact(catalog: set<string>, lower: string -> string, input: Option<seq<RoleInput>>, n: string, k: string)
    requires Normalize(lower, input).Ok? && SeedResult(catalog, FRESH, Normalize(lower, input).roles).Seeded?
    ensures var custom := Normalize(lower, input).roles;
      var grants := SeedResult(catalog, FRESH, custom).tables.grants;
      && (Grant(n, k) in grants ==> !IsPlatform(k))
      && (!NamedIn(custom, n) ==> (Grant(n, k) in grants <==> IsDefaultOf(catalog, n, k)))
      && forall i :: 0 <= i < |custom| && custom[i].name == n ==>
        (Grant(n, k) in grants <==> IsDefaultOf(catalog, n, k) || k in custom[i].permissionKeys)
  {
    hide SeedResult, EmployeeKeys, ManagerKeys, IsPlatform, Normalize, Free, ListedKeysKnown, NamesTaken;
    var custom := Normalize(lower, input).roles;
    NormalizedNamesDiffer(lower, input);
    GrantsAreExact(catalog, FRESH, custom, n, k);
    SeedingSucceeds(catalog, FRESH, custom);
    if IsDefault(catalog, BuiltInSystemKey(n), k) {
      DefaultKeysAreNotPlatform(catalog, BuiltInSystemKey(n), k);
    }
  }

  lemma NormalizedNamesDiffer(lower: string -> string, input: Option<seq<RoleInput>>)
    requires Normalize(lower, input).Ok?
    ensures var roles := Normalize(lower, input).roles;
      forall i, j :: 0 <= i < j < |roles| ==> roles[i].name != roles[j].name
  {
    hide Normalize, NameOf, RoleOf;
    if input.None? {
      NothingToNormalize(lower);
    } else {
      NormalizeIsExact(lower, input.value);
    }
  }

  lemma NothingToNormalize(lower: string -> string)
    ensures Normalize(lower, None) == Ok([])
  {
  }

  /**
    A call that throws before the custom roles has written none: every role is as it was or a default one, and
    every grant was there or is a default one. For custom keys it names exactly those unknown or of the platform.
   */
  lemma FailureWritesNoCustomRole(catalog: set<string>, t: Tables, custom: seq<CustomRole>)
    requires SeedResult(catalog, t, custom).Thrown? && !SeedResult(catalog, t, custom).failure.NameRefused?
    ensures var result := SeedResult(catalog, t, custom);
      && (forall n <- result.tables.roles ::
            if n in t.roles then result.tables.roles[n] == t.roles[n] else BuiltInSystemKey(n).Some?)
      && (forall g <- result.tables.grants :: g in t.grants || IsDefault(catalog, SystemKeyAfter(t, g.role), g.key))
      && (result.failure.InvalidCustomKeys? ==> result.failure.keys != {} && forall k ::
            k in result.failure.keys <==>
              (k !in catalog || IsPlatform(k)) && exists i :: 0 <= i < |custom| && k in custom[i].permissionKeys)
  {
    hide Inserted, ListedKeys, ListedKeysKnown, IsDefault, IsPlatform, WithBuiltIns, AllStored, FirstRefused;
    BuiltInsAreInserted(t);
    var result := SeedResult(catalog, t, custom);
    if result.failure.InvalidCustomKeys? {
      BuiltInRoles(catalog, t);
      ListedAreKnown(catalog, t);
      forall g <- result.tables.grants
        ensures g in t.grants || IsDefault(catalog, SystemKeyAfter(t, g.role), g.key)
      {
        BuiltInGrants(catalog, t, g.role, g.key);
      }
    }
  }

  lemma ListedAreKnown(catalog: set<string>, t: Tables)
    requires Inserted(t.roles, BUILT_IN).Some?
    requires forall g <- ListedGrants(t.(roles := Inserted(t.roles, BUILT_IN).value)) :: g.key in catalog
    ensures ListedKeysKnown(catalog, t)
  {
    hide Inserted, ListedKeys, ListedKeysKnown;
    KnownMeansListed(catalog, t);
    BuiltInsAreInserted(t);
    var after := t.(roles := Inserted(t.roles, BUILT_IN).value);
    forall n, k | k in ListedKeys(SystemKeyAfter(t, n)) ensures k in catalog {
      NoListWithoutSystemKey(SystemKeyAfter(t, n));
      assert Grant(n, k) in ListedGrants(after);
    }
  }

  /** A call that throws for a name has written exactly what seeding the custom roles in front of it writes. */
  lemma RefusedNameStopsTheLoop(catalog: set<string>, t: Tables, custom: seq<CustomRole>) returns (n: nat)
    requires SeedResult(catalog, t, custom).Thrown? && SeedResult(catalog, t, custom).failure.NameRefused?
    ensures n < |custom| && NamesFitColumn(custom[..n]) && !NameFits(custom[n].name)
    ensures var result := SeedResult(catalog, t, custom);
      result.failure.name == custom[n].name && SeedResult(catalog, t, custom[..n]) == Seeded(result.tables)
  {
    hide *;
    n := FirstRefused(custom);
    LoopIsReached(catalog, t, custom);
    LoopStops(catalog, WithBuiltIns(catalog, t), custom);
    LoopIsReached(catalog, t, custom[..n]);
    FewerKeysReach(catalog, t, custom, n);
    FitsExactly(custom[n].name);
    FirstRefusedIsFirst(custom);
    NamesFitExactly(custom[..n]);
  }

  /** Nothing before the loop throws. */
  ghost predicate ReachesLoop(catalog: set<string>, t: Tables, custom: seq<CustomRole>) {
    && Inserted(t.roles, BUILT_IN).Some?
    && (forall g <- ListedGrants(t.(roles := Inserted(t.roles, BUILT_IN).value)) :: g.key in catalog)
    && InvalidKeys(catalog, custom) == {}
  }

  lemma LoopIsReached(catalog: set<string>, t: Tables, custom: seq<CustomRole>)
    ensures var result := SeedResult(catalog, t, custom);
      ReachesLoop(catalog, t, custom) <==> result.Seeded? || result.failure.NameRefused?
    ensures ReachesLoop(catalog, t, custom) ==>
      && Inserted(t.roles, BUILT_IN).Some?
      && SeedResult(catalog, t, custom) == LoopResult(catalog, WithBuiltIns(catalog, t), custom)
  {
    hide Inserted, ListedGrants, InvalidKeys, WithBuiltIns, AllStored, FirstRefused;
  }

  lemma FewerKeysReach(catalog: set<string>, t: Tables, custom: seq<CustomRole>, n: nat)
    requires n <= |custom| && ReachesLoop(catalog, t, custom)
    ensures ReachesLoop(catalog, t, custom[..n])
  {
    hide Inserted, ListedGrants, InvalidKeys;
    FewerKeys(catalog, custom, n);
  }

  lemma LoopStops(catalog: set<string>, t: Tables, custom: seq<CustomRole>)
    ensures var (n, result) := (FirstRefused(custom), LoopResult(catalog, t, custom));
      && (result.Thrown? <==> n < |custom|)
      && (n < |custom| ==> Refused(custom[n].name) && result.failure == NameRefused(custom[n].name))
      && LoopResult(catalog, t, custom[..n]) == Seeded(result.tables)
  {
    hide Refused, AllStored, FirstRefused;
    var n := FirstRefused(custom);
    FirstRefusedIsFirst(custom);
    NoneRefused(custom[..n]);
    assert custom[..n][..n] == custom[..n];
  }

  lemma FewerKeys(catalog: set<string>, custom: seq<CustomRole>, n: nat)
    requires n <= |custom|
    ensures InvalidKeys(catalog, custom[..n]) <= InvalidKeys(catalog, custom)
  {
    hide IsPlatform;
    forall k | k in InvalidKeys(catalog, custom[..n]) ensures k in InvalidKeys(catalog, custom) {
      var i :| 0 <= i < n && k in custom[..n][i].permissionKeys;
      assert k in custom[i].permissionKeys;
    }
  }

  lemma {:induction false} CharactersFit(s: string)
    ensures |s| <= Length(s)
  {
    if s != "" {
      CharactersFit(s[1..]);
    }
  }

  lemma NormalizedNameFits(role: RoleInput)
    requires NameOf(role) != "" && Length(NameOf(role)) <= MAX_NAME
    ensures !Refused(NameOf(role))
  {
    CharactersFit(NameOf(role));
    TrimTrims(role.name.value);
    assert IsSpace(' ') && NameOf(role)[0] != ' ';
  }

  /** The names that normalisation returns are never refused. */
  lemma NormalizedNamesFit(lower: string -> string, input: Option<seq<RoleInput>>)
    requires Normalize(lower, input).Ok?
    ensures NamesTaken(Normalize(lower, input).roles)
  {
    hide Normalize, NameOf, Refused, Length;
    if input.None? {
      NothingToNormalize(lower);
    } else {
      var roles := Normalize(lower, input).roles;
      NormalizeIsExact(lower, input.value);
      NamedAreNamed(input.value);
      forall i | 0 <= i < |roles| ensures !Refused(roles[i].name) {
        NormalizedNameFits(Named(input.value)[i]);
      }
    }
  }

  /** Registration seeds a new tenant exactly when the catalog has the listed keys and each key asked for, off the platform. */
  lemma FreshTenantSucceeds(catalog: set<string>, lower: string -> string, input: Option<seq<RoleInput>>)
    requires Normalize(lower, input).Ok?
    ensures var custom := Normalize(lower, input).roles;
      SeedResult(catalog, FRESH, custom).Seeded? <==>
        EmployeeKeys() <= catalog && ManagerKeys() <= catalog && CustomKeysKnown(catalog, custom)
  {
    hide SeedResult, Normalize, EmployeeKeys, ManagerKeys, IsPlatform, CustomKeysKnown, NamesTaken, NamesFitColumn;
    NormalizedNamesFit(lower, input);
    NamesFitExactly(Normalize(lower, input).roles);
    SeedingSucceeds(catalog, FRESH, Normalize(lower, input).roles);
    assert SystemKeyAfter(FRESH, "Employee") == Some(Employee) && SystemKeyAfter(FRESH, "Manager") == Some(Manager);
    assert forall n :: MayBeBuiltIn(FRESH.roles, n, Employee) && MayBeBuiltIn(FRESH.roles, n, Manager);
  }

  lemma {:induction false} LastDescriptionTwice(custom: seq<CustomRole>, n: string, d: Option<string>)
    ensures LastDescription(custom, n, LastDescription(custom, n, d)) == LastDescription(custom, n, d)
  {
    if custom != [] {
      LastDescriptionTwice(custom[..|custom| - 1], n, d);
    }
  }

  lemma SameTables(a: Tables, b: Tables)
    requires forall n, k :: Grant(n, k) in a.grants <==> Grant(n, k) in b.grants
    requires forall n :: n in a.roles <==> n in b.roles
    requires forall n :: RoleBefore(a, n) == RoleBefore(b, n)
    ensures a == b
  {
    forall g ensures g in a.grants <==> g in b.grants {
      assert g == Grant(g.role, g.key);
    }
    forall n | n in a.roles ensures a.roles[n] == b.roles[n] {
      assert RoleBefore(a, n) == RoleBefore(b, n);
    }
  }

  lemma SeededTables(catalog: set<string>, t: Tables, custom: seq<CustomRole>)
    requires SeedResult(catalog, t, custom).Seeded?
    ensures Inserted(t.roles, BUILT_IN).Some?
    ensures SeedResult(catalog, t, custom).tables == AllStored(catalog, WithBuiltIns(catalog, t), custom)
  {
    hide Inserted, ListedGrants, InvalidKeys, WithBuiltIns, AllStored, FirstRefused;
    assert custom[..|custom|] == custom;
  }

  ghost predicate HasBuiltIns(roles: map<string, Role>) {
    "Employee" in roles && "Manager" in roles && "HR Admin" in roles
  }

  lemma BuiltInsAreThere(catalog: set<string>, t: Tables)
    requires HasBuiltIns(t.roles)
    ensures SystemKeysAreFree(t.roles) && WithBuiltIns(catalog, t).roles == t.roles
  {
    hide Inserted;
    FreeExactly(t.roles);
    BuiltInsAreInserted(t);
    BuiltInRoles(catalog, t);
    assert forall n :: BuiltInSystemKey(n).Some? ==> n in t.roles;
  }

  lemma SameKeysAreKnown(catalog: set<string>, t: Tables, t': Tables)
    requires ListedKeysKnown(catalog, t) && forall n :: SystemKeyAfter(t', n) == SystemKeyAfter(t, n)
    ensures ListedKeysKnown(catalog, t')
  {
    hide EmployeeKeys, ManagerKeys, SystemKeyAfter;
  }

  lemma SecondRunSucceeds(catalog: set<string>, t: Tables, custom: seq<CustomRole>)
    requires SeedResult(catalog, t, custom).Seeded?
    ensures var once := SeedResult(catalog, t, custom).tables;
      SeedResult(catalog, once, custom).Seeded? && WithBuiltIns(catalog, once).roles == once.roles
  {
    hide SeedResult, SystemKeysAreFree, ListedKeysKnown, CustomKeysKnown, NamesFitColumn, SystemKeyAfter, WithBuiltIns, IsDefault;
    var once := SeedResult(catalog, t, custom).tables;
    forall n ensures SystemKeyAfter(once, n) == SystemKeyAfter(t, n) {
      GrantsAreExact(catalog, t, custom, n, "");
    }
    GrantsAreExact(catalog, t, custom, "Employee", "");
    GrantsAreExact(catalog, t, custom, "Manager", "");
    GrantsAreExact(catalog, t, custom, "HR Admin", "");
    BuiltInsAreThere(catalog, once);
    SeedingSucceeds(catalog, t, custom);
    SameKeysAreKnown(catalog, t, once);
    SeedingSucceeds(catalog, once, custom);
  }

  lemma SecondRunChangesNothing(catalog: set<string>, t: Tables, custom: seq<CustomRole>, n: string, k: string)
    requires SeedResult(catalog, t, custom).Seeded?
    requires SeedResult(catalog, SeedResult(catalog, t, custom).tables, custom).Seeded?
    ensures var once := SeedResult(catalog, t, custom).tables;
      var twice := SeedResult(catalog, once, custom).tables;
      && (n in once.roles <==> n in twice.roles)
      && (Grant(n, k) in once.grants <==> Grant(n, k) in twice.grants)
      && RoleBefore(once, n) == RoleBefore(twice, n)
  {
    hide SeedResult, Inserted, AllStored, WithBuiltIns, IsDefault, LastDescription;
    var once := SeedResult(catalog, t, custom).tables;
    SecondRunSucceeds(catalog, t, custom);
    SeededTables(catalog, t, custom);
    SeededTables(catalog, once, custom);
    GrantsAreExact(catalog, t, custom, n, k);
    GrantsAreExact(catalog, once, custom, n, k);
    var (first, second) := (WithBuiltIns(catalog, t), WithBuiltIns(catalog, once));
    AllStoredIsExact(catalog, first, custom, n, k);
    AllStoredIsExact(catalog, second, custom, n, k);
    LastDescriptionTwice(custom, n, RoleBefore(first, n).description);
  }

  /** Seeding a seeded tenant again with the same custom roles changes no role and no grant. */
  lemma ReseedingChangesNothing(catalog: set<string>, t: Tables, custom: seq<CustomRole>)
    requires SeedResult(catalog, t, custom).Seeded?
    ensures SeedResult(catalog, SeedResult(catalog, t, custom).tables, custom) == SeedResult(catalog, t, custom)
  {
    hide *;
    var once := SeedResult(catalog, t, custom).tables;
    SecondRunSucceeds(catalog, t, custom);
    var twice := SeedResult(catalog, once, custom).tables;
    forall n, k ensures Grant(n, k) in once.grants <==> Grant(n, k) in twice.grants {
      SecondRunChangesNothing(catalog, t, custom, n, k);
    }
    forall n
      ensures n in once.roles <==> n in twice.roles
      ensures RoleBefore(once, n) == RoleBefore(twice, n)
    {
      SecondRunChangesNothing(catalog, t, custom, n, "");
    }
    SameTables(once, twice);
  }

  // What the constants say.

  /** The nine characters before which a key is a platform key. */
  lemma PlatformKeysStart(k: string)
    ensures IsPlatform(k) <==> |k| >= 9 && k[..9] == ['p', 'l', 'a', 't', 'f', 'o', 'r', 'm', '.']
  {
  }

  /** What an employee may and a manager by default may not: clock in, ask for leave, and file what is the own. */
  lemma EmployeesAlone(k: string)
    ensures k in EmployeeKeys() && k !in ManagerKeys() <==>
      k in {"attendance.clock", "leave.create", "grievances.create", "grievances.view_own", "resignations.create",
            "resignations.view_own"}
  {
  }

  /** What both may. */
  lemma EmployeesAndManagers(k: string)
    ensures k in EmployeeKeys() && k in ManagerKeys() <==>
      k in {"feed.read", "locations.read", "loans.view_self", "payroll.view_self", "payroll.export_pdf",
            "break_requests.create", "break_requests.view_own", "leave.request.self", "leave.view.self",
            "leave.cancel.self", "roster.goals.view_self", "roster.goals.complete_self"}
  {
  }

  /** What only a manager may. */
  lemma ManagersAlone(k: string)
    ensures k in ManagerKeys() && k !in EmployeeKeys() <==>
      k in {"attendance.view", "break_requests.review", "break_requests.view_all", "leave.review", "roster.view_all",
            "roster.manage", "roster.goals.view_scoped", "roster.goals.manage", "grievances.view", "grievances.review",
            "grievances.triage", "grievances.assign", "grievances.respond", "grievances.internal_notes",
            "grievances.resolve", "grievances.close", "resignations.view_all", "resignations.review"}
  {
  }

  lemma FreshTables()
    ensures var roles := Inserted(map[], BUILT_IN);
      && roles.Some?
      && roles.value == map[
           "Employee" := Role(Some("Default employee access."), Some(Employee), true, true),
           "Manager" := Role(Some("Default manager access."), Some(Manager), true, true),
           "HR Admin" := Role(Some("Default HR administrator access."), Some(HrAdmin), true, true)]
  {
    hide Inserted;
    BuiltInsAreInserted(FRESH);
    InsertedIsExact(map[], BUILT_IN);
    assert BUILT_IN[0].0 == "Employee" && BUILT_IN[1].0 == "Manager" && BUILT_IN[2].0 == "HR Admin";
  }

  /** A new tenant without custom roles has the three built-in roles, active and of the system, and no other. */
  lemma FreshRolesAreExact(catalog: set<string>)
    requires SeedResult(catalog, FRESH, []).Seeded?
    ensures SeedResult(catalog, FRESH, []).tables.roles == map[
      "Employee" := Role(Some("Default employee access."), Some(Employee), true, true),
      "Manager" := Role(Some("Default manager access."), Some(Manager), true, true),
      "HR Admin" := Role(Some("Default HR administrator access."), Some(HrAdmin), true, true)]
  {
    hide SeedResult, Inserted, ListedGrants, CatalogGrants;
    FreshTables();
    SeededTables(catalog, FRESH, []);
    BuiltInRoles(catalog, FRESH);
  }

  /** The last custom role of this name stands at `i`. */
  ghost predicate IsLast(custom: seq<CustomRole>, n: string, i: int) {
    0 <= i < |custom| && custom[i].name == n && forall j :: i < j < |custom| ==> custom[j].name != n
  }

  lemma {:induction false} LastDescriptionIs(custom: seq<CustomRole>, n: string, d: Option<string>)
    ensures !NamedIn(custom, n) ==> LastDescription(custom, n, d) == d
    ensures forall i :: IsLast(custom, n, i) ==> LastDescription(custom, n, d) == custom[i].description
  {
    if custom != [] && custom[|custom| - 1].name != n {
      var front := custom[..|custom| - 1];
      LastDescriptionIs(front, n, d);
      forall i | IsLast(custom, n, i) ensures IsLast(front, n, i) {
      }
      assert NamedIn(front, n) ==> NamedIn(custom, n);
    }
  }

  /**
    A role that was there keeps all but its description, and a custom role that was not is active, without a system key
    and not of the system. The last custom role of exactly its name gives a role its description.
   */
  lemma RolesAreExact(catalog: set<string>, t: Tables, custom: seq<CustomRole>, n: string)
    requires SeedResult(catalog, t, custom).Seeded? && n in SeedResult(catalog, t, custom).tables.roles
    ensures var r := SeedResult(catalog, t, custom).tables.roles[n];
      && (n in t.roles ==>
            && r.systemKey == t.roles[n].systemKey && r.isSystem == t.roles[n].isSystem && r.isActive == t.roles[n].isActive
            && (!NamedIn(custom, n) ==> r.description == t.roles[n].description))
      && (n !in t.roles ==> r.isActive)
      && (n !in t.roles && n !in {"Employee", "Manager", "HR Admin"} ==> r.systemKey == None && !r.isSystem)
      && (forall i :: IsLast(custom, n, i) ==> r.description == custom[i].description)
  {
    hide SeedResult, Inserted, AllStored, WithBuiltIns, LastDescription, Takes;
    SeededTables(catalog, t, custom);
    var before := WithBuiltIns(catalog, t);
    BuiltInRoles(catalog, t);
    BuiltInsAreInserted(t);
    InsertedIsExact(t.roles, BUILT_IN);
    AllStoredIsExact(catalog, before, custom, n, "");
    LastDescriptionIs(custom, n, RoleBefore(before, n).description);
    assert BUILT_IN[0].0 == "Employee" && BUILT_IN[1].0 == "Manager" && BUILT_IN[2].0 == "HR Admin";
  }

  // What every result keeps.

  lemma SystemKeysStayUnique(t: Tables, m: string, n: string)
    requires Free(t.roles, BUILT_IN) && m != n && SystemKeyAfter(t, m).Some?
    requires forall a, b :: a in t.roles && b in t.roles && a != b && t.roles[a].systemKey.Some? ==>
      t.roles[a].systemKey != t.roles[b].systemKey
    ensures SystemKeyAfter(t, m) != SystemKeyAfter(t, n)
  {
    assert BUILT_IN[0].0 == "Employee" && BUILT_IN[1].0 == "Manager" && BUILT_IN[2].0 == "HR Admin";
  }

  lemma BuiltInNamesFit()
    ensures forall n :: BuiltInSystemKey(n).Some? ==> NameFits(n)
  {
    forall n | BuiltInSystemKey(n).Some? ensures NameFits(n) {
      assert n[0] in n && n[0] != ' ';
    }
  }

  lemma BuiltInsKeepValid(catalog: set<string>, t: Tables)
    requires Valid(catalog, t) && Inserted(t.roles, BUILT_IN).Some?
    ensures Valid(catalog, t.(roles := Inserted(t.roles, BUILT_IN).value))
    ensures ListedKeysKnown(catalog, t) ==> Valid(catalog, WithBuiltIns(catalog, t))
  {
    hide Inserted, Free, EmployeeKeys, ManagerKeys, IsPlatform, NameFits;
    BuiltInsAreInserted(t);
    BuiltInNamesFit();
    var roles := Inserted(t.roles, BUILT_IN).value;
    forall m, n | m in roles && n in roles && m != n && roles[m].systemKey.Some?
      ensures roles[m].systemKey != roles[n].systemKey
    {
      SystemKeysStayUnique(t, m, n);
    }
  }

  lemma {:induction false} AllStoredKeepsValid(catalog: set<string>, t: Tables, custom: seq<CustomRole>)
    requires Valid(catalog, t) && NamesFitColumn(custom)
    ensures Valid(catalog, AllStored(catalog, t, custom))
  {
    hide NameFits;
    if custom != [] {
      AllStoredKeepsValid(catalog, t, custom[..|custom| - 1]);
    }
  }

  /** Whether it returns or throws, seeding keeps the foreign keys, the names and the uniqueness of system keys. */
  lemma SeedKeepsValid(catalog: set<string>, t: Tables, custom: seq<CustomRole>)
    requires Valid(catalog, t)
    ensures Valid(catalog, SeedResult(catalog, t, custom).tables)
  {
    hide Inserted, Valid, ListedKeys, ListedGrants, InvalidKeys, WithBuiltIns, AllStored, FirstRefused, NamesTaken,
      NamesFitColumn;
    if Inserted(t.roles, BUILT_IN).Some? {
      var after := t.(roles := Inserted(t.roles, BUILT_IN).value);
      BuiltInsKeepValid(catalog, t);
      if forall g <- ListedGrants(after) :: g.key in catalog {
        ListedAreKnown(catalog, t);
        FirstRefusedIsFirst(custom);
        NamesFitExactly(custom[..FirstRefused(custom)]);
        AllStoredKeepsValid(catalog, WithBuiltIns(catalog, t), custom[..FirstRefused(custom)]);
      }
    }
  }
}
