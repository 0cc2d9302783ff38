/** The claims that login, session refresh and request authentication read with one chain of left joins. */
module Authority {
  import opened Options

  type Id = nat

  datatype Scope = Company | Location | Department | Team | DirectReports | Self

  datatype Employee = Employee(id: Id, tenant: Id, email: string, signsIn: bool)
  datatype Tenant = Tenant(id: Id, name: string)
  datatype Assignment = Assignment(
    tenant: Id, employee: Id, role: Id, scope: Scope,
    assignedAt: int, expiresAt: Option<int>, revokedAt: Option<int>
  )
  datatype Role = Role(tenant: Id, id: Id, name: string, active: bool)
  datatype Grant = Grant(tenant: Id, role: Id, key: string)

  /** Tables are bags: the same row may come more than once. */
  datatype Database = Database(
    tenants: seq<Tenant>, employees: seq<Employee>,
    assignments: seq<Assignment>, roles: seq<Role>, grants: seq<Grant>
  )

  datatype Claims = Claims(roleNames: set<string>, permissions: set<string>, companyPermissions: set<string>)

  // Relational operators.

  /** The right rows that match, in order. */
  function Matching<L, R>(l: L, right: seq<R>, on: (L, R) -> bool): seq<R> {
    if right == [] then []
    else (if on(l, right[0]) then [right[0]] else []) + Matching(l, right[1..], on)
  }

  function Paired<L, R>(l: L, matches: seq<R>): seq<(L, Option<R>)> {
    if matches == [] then [] else [(l, Some(matches[0]))] + Paired(l, matches[1..])
  }

  /** LEFT JOIN: a left row without a match is kept with NULLs on the right. */
  function LeftJoin<L, R>(left: seq<L>, right: seq<R>, on: (L, R) -> bool): seq<(L, Option<R>)> {
    if left == [] then []
    else
      var matches := Matching(left[0], right, on);
      (if matches == [] then [(left[0], None)] else Paired(left[0], matches)) + LeftJoin(left[1..], right, on)
  }

  function Where<T>(rows: seq<T>, holds: T -> bool): seq<T> {
    if rows == [] then [] else (if holds(rows[0]) then [rows[0]] else []) + Where(rows[1..], holds)
  }

  /** `array_agg(DISTINCT column)`: NULL without rows, otherwise the values met, NULL among them. */
  function ArrayAgg<T(==), V(==)>(rows: seq<T>, column: T -> Option<V>): Option<set<Option<V>>> {
    if rows == [] then None else Some(set row | row in rows :: column(row))
  }

  /** `COALESCE(array_remove(array, NULL), ARRAY[])`. */
  function WithoutNull<V>(agg: Option<set<Option<V>>>): set<V> {
    if agg.None? then {} else set v | v in agg.value && v.Some? :: v.value
  }

  lemma {:induction false} MatchingMembers<L(!new), R(!new)>(l: L, right: seq<R>, on: (L, R) -> bool, r: R)
    ensures r in Matching(l, right, on) <==> r in right && on(l, r)
  {
    if right != [] {
      MatchingMembers(l, right[1..], on, r);
    }
  }

  lemma {:induction false} PairedMembers<L(!new), R(!new)>(l: L, matches: seq<R>, row: (L, Option<R>))
    ensures row in Paired(l, matches) <==> row.0 == l && row.1.Some? && row.1.value in matches
  {
    if matches != [] {
      PairedMembers(l, matches[1..], row);
    }
  }

  /** A joined row pairs a left row with a match, or with NULL when there is no match at all. */
  lemma {:induction false} LeftJoinMembers<L(!new), R(!new)>(left: seq<L>, right: seq<R>, on: (L, R) -> bool, row: (L, Option<R>))
    ensures row in LeftJoin(left, right, on) <==>
      && row.0 in left
      && (row.1.Some? ==> row.1.value in right && on(row.0, row.1.value))
      && (row.1.None? ==> forall r <- right :: !on(row.0, r))
  {
    if left != [] {
      var matches := Matching(left[0], right, on);
      LeftJoinMembers(left[1..], right, on, row);
      PairedMembers(left[0], matches, row);
      forall r ensures r in matches <==> r in right && on(left[0], r) {
        MatchingMembers(left[0], right, on, r);
      }
      assert matches != [] ==> matches[0] in matches;
    }
  }

  lemma {:induction false} WhereMembers<T(!new)>(rows: seq<T>, holds: T -> bool, row: T)
    ensures row in Where(rows, holds) <==> row in rows && holds(row)
  {
    if rows != [] {
      WhereMembers(rows[1..], holds, row);
    }
  }

  // The query.

  predicate ActiveAssignment(e: Employee, a: Assignment, now: int) {
    && a.tenant == e.tenant && a.employee == e.id && a.revokedAt.None? && a.assignedAt <= now
    && (a.expiresAt.None? || a.expiresAt.value > now)
  }

  /** A comparison with NULL is not true. */
  predicate AssignedRole(e: Employee, a: Option<Assignment>, r: Role) {
    r.tenant == e.tenant && a.Some? && r.id == a.value.role && r.active
  }

  predicate RoleGrant(r: Option<Role>, g: Grant) {
    r.Some? && g.tenant == r.value.tenant && g.role == r.value.id
  }

  type Row = (((Employee, Option<Assignment>), Option<Role>), Option<Grant>)

  function RoleJoins(db: Database, from: seq<Employee>, now: int): seq<Row> {
    var withScopes := LeftJoin(from, db.assignments, (e: Employee, a: Assignment) => ActiveAssignment(e, a, now));
    var roles := LeftJoin(withScopes, db.roles, (x: (Employee, Option<Assignment>), r: Role) => AssignedRole(x.0, x.1, r));
    LeftJoin(roles, db.grants, (x: ((Employee, Option<Assignment>), Option<Role>), g: Grant) => RoleGrant(x.1, g))
  }

  function NameOf(row: Row): Option<string> {
    if row.0.1.Some? then Some(row.0.1.value.name) else None
  }

  function KeyOf(row: Row): Option<string> {
    if row.1.Some? then Some(row.1.value.key) else None
  }

  predicate CompanyWide(row: Row) {
    row.0.0.1.Some? && row.0.0.1.value.scope == Company && row.1.Some?
  }

  /** The claims of one group. The FILTER drops rows before they are aggregated. */
  function Aggregate(group: seq<Row>): Claims {
    Claims(
      WithoutNull(ArrayAgg(group, NameOf)),
      WithoutNull(ArrayAgg(group, KeyOf)),
      WithoutNull(ArrayAgg(Where(group, CompanyWide), KeyOf)))
  }

  lemma AggregatedValues<T(!new), V(!new)>(rows: seq<T>, column: T -> Option<V>, v: V)
    ensures v in WithoutNull(ArrayAgg(rows, column)) <==> exists row <- rows :: column(row) == Some(v)
  {
    if row :| row in rows && column(row) == Some(v) {
      assert Some(v) in ArrayAgg(rows, column).value;
    }
  }

  function Group(rows: seq<Row>, id: Id): seq<Row> {
    Where(rows, (row: Row) => row.0.0.0.id == id)
  }

  /** Request authentication: by employee and tenant. */
  function RequestRows(db: Database, employee: Id, tenant: Id, now: int): seq<Row> {
    RoleJoins(db, Where(db.employees, (e: Employee) => e.id == employee && e.tenant == tenant && e.signsIn), now)
  }

  /** INNER JOIN tenants: the employee once per row of its tenant. */
  function WithTenants(db: Database, from: seq<Employee>): seq<Employee> {
    if from == [] then []
    else
      Repeat(from[0], Where(db.tenants, (t: Tenant) => t.id == from[0].tenant)) + WithTenants(db, from[1..])
  }

  function Repeat(e: Employee, tenants: seq<Tenant>): seq<Employee> {
    if tenants == [] then [] else [e] + Repeat(e, tenants[1..])
  }

  /** Session refresh: as request authentication, with the tenant joined. */
  function RefreshRows(db: Database, employee: Id, tenant: Id, now: int): seq<Row> {
    var from := Where(db.employees, (e: Employee) => e.id == employee && e.tenant == tenant && e.signsIn);
    RoleJoins(db, WithTenants(db, from), now)
  }

  /** Login: by email, with the tenant joined. */
  function LoginRows(db: Database, email: string, now: int): seq<Row> {
    var from := Where(db.employees, (e: Employee) => e.email == email && e.signsIn);
    RoleJoins(db, WithTenants(db, from), now)
  }

  // The plain definition.

  /** The employee's own, in the own tenant, not revoked, started, and not over. */
  ghost predicate InForce(e: Employee, a: Assignment, now: int) {
    && a.employee == e.id && a.tenant == e.tenant && a.revokedAt == None && a.assignedAt <= now
    && forall end :: a.expiresAt == Some(end) ==> now < end
  }

  /** The active role of the employee's tenant that the assignment is for. */
  ghost predicate IsRoleOf(e: Employee, a: Assignment, r: Role) {
    r.id == a.role && r.tenant == e.tenant && r.active == true
  }

  ghost predicate IsGrantOf(r: Role, g: Grant) {
    g.role == r.id && g.tenant == r.tenant
  }

  ghost predicate Assigned(db: Database, e: Employee, a: Assignment, r: Role, now: int) {
    a in db.assignments && InForce(e, a, now) && r in db.roles && IsRoleOf(e, a, r)
  }

  ghost predicate Permits(db: Database, e: Employee, a: Assignment, r: Role, g: Grant, now: int) {
    Assigned(db, e, a, r, now) && g in db.grants && IsGrantOf(r, g)
  }

  /** What the employee may do: the grants of active roles reached by an assignment in force. */
  ghost predicate HasClaims(db: Database, e: Employee, now: int, c: Claims) {
    && (forall name :: name in c.roleNames <==> exists a, r :: Assigned(db, e, a, r, now) && r.name == name)
    && (forall key :: key in c.permissions <==> exists a, r, g :: Permits(db, e, a, r, g, now) && g.key == key)
    && (forall key :: key in c.companyPermissions <==>
          exists a, r, g :: Permits(db, e, a, r, g, now) && g.key == key && a.scope == Company)
  }

  /** The rows that the chain of joins makes of one employee. */
  ghost predicate IsRowOf(db: Database, e: Employee, now: int, row: Row) {
    var (a, r, g) := (row.0.0.1, row.0.1, row.1);
    && row.0.0.0 == e
    && (a.Some? ==> a.value in db.assignments && InForce(e, a.value, now))
    && (a.None? ==> forall x <- db.assignments :: !InForce(e, x, now))
    && (r.Some? ==> a.Some? && r.value in db.roles && IsRoleOf(e, a.value, r.value))
    && (r.None? ==> a.None? || forall x <- db.roles :: !IsRoleOf(e, a.value, x))
    && (g.Some? ==> r.Some? && g.value in db.grants && IsGrantOf(r.value, g.value))
    && (g.None? ==> r.None? || forall x <- db.grants :: !IsGrantOf(r.value, x))
  }

  /** The ON conditions of the query are the plain ones; a comparison with NULL is not true. */
  lemma ConditionsAgree(now: int)
    ensures forall e, a :: ActiveAssignment(e, a, now) <==> InForce(e, a, now)
    ensures forall e, a, r :: AssignedRole(e, a, r) <==> a.Some? && IsRoleOf(e, a.value, r)
    ensures forall r, g :: RoleGrant(r, g) <==> r.Some? && IsGrantOf(r.value, g)
  {
    forall e, a ensures ActiveAssignment(e, a, now) <==> InForce(e, a, now) {
      if a.expiresAt.Some? && InForce(e, a, now) {
        assert a.expiresAt == Some(a.expiresAt.value);
      }
    }
  }

  lemma RoleJoinsMembers(db: Database, from: seq<Employee>, now: int, row: Row)
    ensures row in RoleJoins(db, from, now) <==> row.0.0.0 in from && IsRowOf(db, row.0.0.0, now, row)
  {
    ConditionsAgree(now);
    hide ActiveAssignment, AssignedRole, RoleGrant, InForce, IsRoleOf, IsGrantOf;
    var onAssignment := (e: Employee, a: Assignment) => ActiveAssignment(e, a, now);
    var onRole := (x: (Employee, Option<Assignment>), r: Role) => AssignedRole(x.0, x.1, r);
    var onGrant := (x: ((Employee, Option<Assignment>), Option<Role>), g: Grant) => RoleGrant(x.1, g);
    var withScopes := LeftJoin(from, db.assignments, onAssignment);
    var roles := LeftJoin(withScopes, db.roles, onRole);
    LeftJoinMembers(from, db.assignments, onAssignment, row.0.0);
    LeftJoinMembers(withScopes, db.roles, onRole, row.0);
    LeftJoinMembers(roles, db.grants, onGrant, row);
  }

  /** `id` is the primary key of the employees; every employee has a tenant. */
  ghost predicate Keyed(db: Database) {
    && (forall e, d :: e in db.employees && d in db.employees && e.id == d.id ==> e == d)
    && (forall e <- db.employees :: exists t <- db.tenants :: t.id == e.tenant)
  }

  lemma {:induction false} RepeatMembers(e: Employee, tenants: seq<Tenant>, d: Employee)
    ensures d in Repeat(e, tenants) <==> d == e && tenants != []
  {
    if tenants != [] {
      RepeatMembers(e, tenants[1..], d);
    }
  }

  /** Joining the tenants adds no employee and, since each has one, loses none. */
  lemma {:induction false} WithTenantsMembers(db: Database, from: seq<Employee>, e: Employee)
    ensures e in WithTenants(db, from) <==> e in from && exists t <- db.tenants :: t.id == e.tenant
  {
    if from != [] {
      var matches := Where(db.tenants, (t: Tenant) => t.id == from[0].tenant);
      RepeatMembers(from[0], matches, e);
      WithTenantsMembers(db, from[1..], e);
      forall t ensures t in matches <==> t in db.tenants && t.id == from[0].tenant {
        WhereMembers(db.tenants, (t: Tenant) => t.id == from[0].tenant, t);
      }
      assert matches != [] ==> matches[0] in matches;
    }
  }

  lemma GroupIsRows(db: Database, from: seq<Employee>, now: int, e: Employee, row: Row)
    requires e in from && forall d <- from :: d.id == e.id ==> d == e
    ensures row in Group(RoleJoins(db, from, now), e.id) <==> IsRowOf(db, e, now, row)
  {
    WhereMembers(RoleJoins(db, from, now), (row: Row) => row.0.0.0.id == e.id, row);
    RoleJoinsMembers(db, from, now, row);
  }

  // Each claim, from the rows of the group.

  lemma NameComesFromRow(db: Database, e: Employee, now: int, group: seq<Row>, name: string)
    requires forall row :: row in group <==> IsRowOf(db, e, now, row)
    ensures name in Aggregate(group).roleNames <==> exists a, r :: Assigned(db, e, a, r, now) && r.name == name
  {
    AggregatedValues(group, NameOf, name);
    if name in Aggregate(group).roleNames {
      var row :| row in group && NameOf(row) == Some(name);
      assert IsRowOf(db, e, now, row);
      assert Assigned(db, e, row.0.0.1.value, row.0.1.value, now);
    }
    if a, r :| Assigned(db, e, a, r, now) && r.name == name {
      var y := ((e, Some(a)), Some(r));
      var row: Row := (y, None);
      if g :| g in db.grants && RoleGrant(Some(r), g) {
        row := (y, Some(g));
      }
      assert IsRowOf(db, e, now, row);
      assert row in group;
    }
  }

  lemma PermissionComesFromRow(db: Database, e: Employee, now: int, group: seq<Row>, key: string)
    requires forall row :: row in group <==> IsRowOf(db, e, now, row)
    ensures key in Aggregate(group).permissions <==> exists a, r, g :: Permits(db, e, a, r, g, now) && g.key == key
  {
    AggregatedValues(group, KeyOf, key);
    if key in Aggregate(group).permissions {
      var row :| row in group && KeyOf(row) == Some(key);
      assert IsRowOf(db, e, now, row);
      assert Permits(db, e, row.0.0.1.value, row.0.1.value, row.1.value, now);
    }
    if a, r, g :| Permits(db, e, a, r, g, now) && g.key == key {
      var row: Row := (((e, Some(a)), Some(r)), Some(g));
      assert IsRowOf(db, e, now, row);
      assert row in group;
    }
  }

  lemma CompanyComesFromRow(db: Database, e: Employee, now: int, group: seq<Row>, key: string)
    requires forall row :: row in group <==> IsRowOf(db, e, now, row)
    ensures key in Aggregate(group).companyPermissions <==>
      exists a, r, g :: Permits(db, e, a, r, g, now) && g.key == key && a.scope == Company
  {
    AggregatedValues(Where(group, CompanyWide), KeyOf, key);
    if key in Aggregate(group).companyPermissions {
      var row :| row in Where(group, CompanyWide) && KeyOf(row) == Some(key);
      WhereMembers(group, CompanyWide, row);
      assert IsRowOf(db, e, now, row);
      assert Permits(db, e, row.0.0.1.value, row.0.1.value, row.1.value, now);
    }
    if a, r, g :| Permits(db, e, a, r, g, now) && g.key == key && a.scope == Company {
      var row: Row := (((e, Some(a)), Some(r)), Some(g));
      assert IsRowOf(db, e, now, row);
      WhereMembers(group, CompanyWide, row);
    }
  }

  lemma GroupHasClaims(db: Database, from: seq<Employee>, now: int, e: Employee)
    requires e in from && forall d <- from :: d.id == e.id ==> d == e
    ensures HasClaims(db, e, now, Aggregate(Group(RoleJoins(db, from, now), e.id)))
  {
    var group := Group(RoleJoins(db, from, now), e.id);
    forall row ensures row in group <==> IsRowOf(db, e, now, row) {
      GroupIsRows(db, from, now, e, row);
    }
    hide Aggregate;
    forall name ensures name in Aggregate(group).roleNames <==> exists a, r :: Assigned(db, e, a, r, now) && r.name == name {
      NameComesFromRow(db, e, now, group, name);
    }
    forall key ensures key in Aggregate(group).permissions <==> exists a, r, g :: Permits(db, e, a, r, g, now) && g.key == key {
      PermissionComesFromRow(db, e, now, group, key);
    }
    forall key ensures key in Aggregate(group).companyPermissions <==>
      exists a, r, g :: Permits(db, e, a, r, g, now) && g.key == key && a.scope == Company
    {
      CompanyComesFromRow(db, e, now, group, key);
    }
  }

  /** Each query reads only the employee it is asked for, and only one who may sign in. */
  lemma QueriesReadOne(db: Database, employee: Id, tenant: Id, email: string, now: int, row: Row)
    ensures var e := row.0.0.0;
      && (row in RequestRows(db, employee, tenant, now) ==>
            e in db.employees && e.id == employee && e.tenant == tenant && e.signsIn == true)
      && (row in RefreshRows(db, employee, tenant, now) ==>
            && e in db.employees && e.id == employee && e.tenant == tenant && e.signsIn == true
            && exists t <- db.tenants :: t.id == tenant)
      && (row in LoginRows(db, email, now) ==>
            && e in db.employees && e.email == email && e.signsIn == true
            && exists t <- db.tenants :: t.id == e.tenant)
  {
    var e := row.0.0.0;
    var byId := (d: Employee) => d.id == employee && d.tenant == tenant && d.signsIn;
    var byEmail := (d: Employee) => d.email == email && d.signsIn;
    WhereMembers(db.employees, byId, e);
    WhereMembers(db.employees, byEmail, e);
    WithTenantsMembers(db, Where(db.employees, byId), e);
    WithTenantsMembers(db, Where(db.employees, byEmail), e);
    RoleJoinsMembers(db, Where(db.employees, byId), now, row);
    RoleJoinsMembers(db, WithTenants(db, Where(db.employees, byId)), now, row);
    RoleJoinsMembers(db, WithTenants(db, Where(db.employees, byEmail)), now, row);
  }

  /** The plain definition determines the claims, so whoever meets it agrees; company claims are part of all claims. */
  lemma ClaimsAreDetermined(db: Database, e: Employee, now: int, c: Claims, d: Claims)
    requires HasClaims(db, e, now, c) && HasClaims(db, e, now, d)
    ensures c == d && c.companyPermissions <= c.permissions
  {
    hide Permits, Assigned;
    assert c.roleNames == d.roleNames && c.permissions == d.permissions && c.companyPermissions == d.companyPermissions;
  }

  /** Request authentication, session refresh and login read the same claims: the plainly defined ones. */
  lemma QueriesAgree(db: Database, e: Employee, now: int)
    requires Keyed(db) && e in db.employees && e.signsIn
    ensures var c := Aggregate(Group(RequestRows(db, e.id, e.tenant, now), e.id));
      && HasClaims(db, e, now, c) && c.companyPermissions <= c.permissions
      && c == Aggregate(Group(RefreshRows(db, e.id, e.tenant, now), e.id))
      && c == Aggregate(Group(LoginRows(db, e.email, now), e.id))
  {
    var byId := (d: Employee) => d.id == e.id && d.tenant == e.tenant && d.signsIn;
    var byEmail := (d: Employee) => d.email == e.email && d.signsIn;
    forall d: Employee
      ensures d in Where(db.employees, byId) <==> d in db.employees && byId(d)
      ensures d in Where(db.employees, byEmail) <==> d in db.employees && byEmail(d)
      ensures d in WithTenants(db, Where(db.employees, byId)) <==> d in Where(db.employees, byId)
      ensures d in WithTenants(db, Where(db.employees, byEmail)) <==> d in Where(db.employees, byEmail)
    {
      WhereMembers(db.employees, byId, d);
      WhereMembers(db.employees, byEmail, d);
      WithTenantsMembers(db, Where(db.employees, byId), d);
      WithTenantsMembers(db, Where(db.employees, byEmail), d);
    }
    hide Aggregate, HasClaims, RoleJoins, WithTenants, Where, Group;
    GroupHasClaims(db, Where(db.employees, byId), now, e);
    GroupHasClaims(db, WithTenants(db, Where(db.employees, byId)), now, e);
    GroupHasClaims(db, WithTenants(db, Where(db.employees, byEmail)), now, e);
    var c := Aggregate(Group(RequestRows(db, e.id, e.tenant, now), e.id));
    ClaimsAreDetermined(db, e, now, c, Aggregate(Group(RefreshRows(db, e.id, e.tenant, now), e.id)));
    ClaimsAreDetermined(db, e, now, c, Aggregate(Group(LoginRows(db, e.email, now), e.id)));
  }

  /** Repeated rows in any table change no claim. */
  lemma DuplicatesDoNotMatter(db: Database, other: Database, e: Employee, now: int)
    requires Keyed(db) && Keyed(other) && e in db.employees && e in other.employees && e.signsIn
    requires forall a :: a in db.assignments <==> a in other.assignments
    requires forall r :: r in db.roles <==> r in other.roles
    requires forall g :: g in db.grants <==> g in other.grants
    ensures Aggregate(Group(RequestRows(db, e.id, e.tenant, now), e.id))
         == Aggregate(Group(RequestRows(other, e.id, e.tenant, now), e.id))
  {
    hide Aggregate, Group, RequestRows, LoginRows, RefreshRows, HasClaims, InForce;
    QueriesAgree(db, e, now);
    QueriesAgree(other, e, now);
    var c := Aggregate(Group(RequestRows(db, e.id, e.tenant, now), e.id));
    SameRowsSameClaims(db, other, e, now, c);
    ClaimsAreDetermined(other, e, now, c, Aggregate(Group(RequestRows(other, e.id, e.tenant, now), e.id)));
  }

  lemma SameRowsSameClaims(db: Database, other: Database, e: Employee, now: int, c: Claims)
    requires HasClaims(db, e, now, c)
    requires forall a :: a in db.assignments <==> a in other.assignments
    requires forall r :: r in db.roles <==> r in other.roles
    requires forall g :: g in db.grants <==> g in other.grants
    ensures HasClaims(other, e, now, c)
  {
    assert forall a, r :: Assigned(db, e, a, r, now) <==> Assigned(other, e, a, r, now);
    assert forall a, r, g :: Permits(db, e, a, r, g, now) <==> Permits(other, e, a, r, g, now);
    hide Assigned, Permits;
  }
}
