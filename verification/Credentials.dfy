/**
  Interleaved transactions over the credential tables: password-reset tokens, sessions and
  WebAuthn challenges, with PostgreSQL row locks under READ COMMITTED.
 */
module Credentials {
  import opened Locks
  import opened Options

  /** Row identifiers, tenants, employees and transactions. */
  type Id = nat

  datatype Ceremony = Registration | Authentication

  datatype Table = Employees | ResetTokens | Sessions | Challenges(ceremony: Ceremony)

  /** Who set a row's `used_at` or `revoked_at`: something before the run, or a transaction of it. */
  datatype Mark = Before | By(tx: Id)

  datatype Row = Row(table: Table, tenant: Id, employee: Id, created: nat, expires: nat, mark: Option<Mark>)

  /** `tenant` is the tenant that the transaction runs for; a reset and a log-out look it up by their secret. */
  datatype Op =
    | Reset(token: Id, tenant: Id)
    | Logout(session: Id, tenant: Id)
    | RevokeOne(session: Id, tenant: Id, owner: Option<Id>)
    | RevokeMany(tenant: Id, employee: Id, except: Option<Id>, byAdmin: bool)
    | OpenSession(tenant: Id, employee: Id)
    | IssueToken(tenant: Id, employee: Id, expires: nat)
    | StoreChallenge(tenant: Id, employee: Id, ceremony: Ceremony)
    | ConsumeChallenge(tenant: Id, employee: Id, ceremony: Ceremony)

  const SESSION_TTL_MS := 12 * 60 * 60 * 1000
  const CHALLENGE_TTL_MS := 5 * 60 * 1000

  datatype Status = Active | Committed | Aborted

  /**
    A transaction. `start` is its NOW(); `pc` the number of finished statements; `pending` the rows its
    open statement has yet to visit; `scope` every row that one of its marking statements selected when it
    began; `held` the rows it has locked and `writes` those it will mark at commit.
   */
  datatype Tx = Tx(
    op: Op, start: nat, status: Status, pc: nat, open: bool,
    pending: set<Id>, scope: set<Id>, held: set<Id>, writes: set<Id>, inserted: Option<Id>
  )

  datatype Audit = Single(tx: Id, session: Id) | Bulk(tx: Id, revokedCount: nat)

  /** `rows` are the committed versions; `log` the transactions in the order of their commits. */
  datatype State = State(
    clock: nat, rows: map<Id, Row>, locks: map<Id, Id>, txs: map<Id, Tx>, log: seq<Id>, audit: seq<Audit>
  )

  datatype Step =
    | Begin(tx: Id, op: Op, now: nat)
    | OpenStatement(tx: Id, targets: set<Id>)
    | Visit(tx: Id, row: Id)
    | CloseStatement(tx: Id)
    | Commit(tx: Id, newId: Id)
    | Abort(tx: Id)

  function Statements(op: Op): nat {
    match op
    case Reset(_, _) => 4
    case Logout(_, _) => 2
    case RevokeOne(_, _, _) | RevokeMany(_, _, _, _) => 1
    case StoreChallenge(_, _, _) | ConsumeChallenge(_, _, _) => 1
    case OpenSession(_, _) | IssueToken(_, _, _) => 0
  }

  /** Whether statement `pc` sets `used_at` or `revoked_at`; the others only lock. */
  predicate Marks(op: Op, pc: nat) {
    match op
    case Reset(_, _) => pc >= 2
    case Logout(_, _) => pc >= 1
    case _ => true
  }

  predicate Owned(r: Row, table: Table, tenant: Id, employee: Id) {
    r.table == table && r.tenant == tenant && r.employee == employee
  }

  /** The WHERE clause of statement `pc`, without the condition on the mark and on the expiry. */
  predicate Selects(rows: map<Id, Row>, op: Op, pc: nat, id: Id) {
    id in rows &&
    var r := rows[id];
    match op
    case Reset(token, tenant) =>
      token in rows && rows[token].tenant == tenant &&
      (if pc == 0 then id == token && r.table == ResetTokens
       else if pc == 1 then Owned(r, Employees, rows[token].tenant, rows[token].employee)
       else if pc == 2 then Owned(r, ResetTokens, rows[token].tenant, rows[token].employee)
       else Owned(r, Sessions, rows[token].tenant, rows[token].employee))
    case Logout(session, tenant) => id == session && r.table == Sessions && r.tenant == tenant
    case RevokeOne(session, tenant, owner) =>
      id == session && r.table == Sessions && r.tenant == tenant && (owner.Some? ==> r.employee == owner.value)
    case RevokeMany(tenant, employee, except, _) => Owned(r, Sessions, tenant, employee) && except != Some(id)
    case StoreChallenge(tenant, employee, ceremony) => Owned(r, Challenges(ceremony), tenant, employee)
    case ConsumeChallenge(tenant, employee, ceremony) => Owned(r, Challenges(ceremony), tenant, employee)
    case OpenSession(_, _) | IssueToken(_, _, _) => false
  }

  /** `expires_at > NOW()`, where the statement asks for it. */
  predicate ChecksExpiry(op: Op, pc: nat) {
    match op
    case Reset(_, _) => pc == 0
    case RevokeOne(_, _, _) | RevokeMany(_, _, _, _) | ConsumeChallenge(_, _, _) => true
    case _ => false
  }

  /** The whole WHERE clause, on the committed version of the row. */
  predicate Matches(rows: map<Id, Row>, x: Tx, id: Id) {
    && Selects(rows, x.op, x.pc, id)
    && (if x.op.Logout? && x.pc == 1 then id in x.held else rows[id].table == Employees || rows[id].mark.None?)
    && (ChecksExpiry(x.op, x.pc) ==> rows[id].expires > x.start)
  }

  function Candidates(s: State, x: Tx): set<Id> {
    set id | id in s.rows && Matches(s.rows, x, id)
  }

  /** The rows a statement selects: all that match, or the newest one for `ORDER BY created_at DESC LIMIT 1`. */
  predicate SelectsRows(s: State, x: Tx, targets: set<Id>) {
    if x.op.ConsumeChallenge? then
      && (Candidates(s, x) == {} ==> targets == {})
      && (Candidates(s, x) != {} ==> exists id <- Candidates(s, x) ::
            targets == {id} && forall other <- Candidates(s, x) :: s.rows[other].created <= s.rows[id].created)
    else
      targets == Candidates(s, x)
  }

  /** A reset that finds no token rolls back; a ceremony without a challenge throws. */
  predicate FoundEnough(x: Tx) {
    match x.op
    case Reset(token, _) => x.pc == 0 ==> token in x.held
    case ConsumeChallenge(_, _, _) => x.writes != {}
    case _ => true
  }

  predicate IsActive(s: State, t: Id) {
    t in s.txs && s.txs[t].status == Active
  }

  predicate Enabled(s: State, step: Step) {
    match step
    case Begin(t, op, now) => t !in s.txs && s.clock <= now
    case OpenStatement(t, targets) =>
      IsActive(s, t) && !s.txs[t].open && s.txs[t].pc < Statements(s.txs[t].op) && SelectsRows(s, s.txs[t], targets)
    case Visit(t, id) =>
      IsActive(s, t) && s.txs[t].open && id in s.txs[t].pending && (id in s.locks ==> s.locks[id] == t)
    case CloseStatement(t) =>
      IsActive(s, t) && s.txs[t].open && s.txs[t].pending == {} && FoundEnough(s.txs[t])
    case Commit(t, newId) =>
      IsActive(s, t) && !s.txs[t].open && s.txs[t].pc == Statements(s.txs[t].op) && newId !in s.rows
    case Abort(t) => IsActive(s, t)
  }

  /** The row that the transaction inserts, if it does. */
  function Inserts(x: Tx): Option<Row> {
    match x.op
    case OpenSession(tenant, employee) => Some(Row(Sessions, tenant, employee, x.start, x.start + SESSION_TTL_MS, None))
    case IssueToken(tenant, employee, expires) => Some(Row(ResetTokens, tenant, employee, x.start, expires, None))
    case StoreChallenge(tenant, employee, ceremony) =>
      Some(Row(Challenges(ceremony), tenant, employee, x.start, x.start + CHALLENGE_TTL_MS, None))
    case _ => None
  }

  /** What the routes record. An administrator's request for an unknown employee ends before the audit. */
  function AuditOf(s: State, t: Id, x: Tx): seq<Audit> {
    match x.op
    case Logout(session, _) => if x.writes != {} then [Single(t, session)] else []
    case RevokeOne(session, _, _) => if x.writes != {} then [Single(t, session)] else []
    case RevokeMany(tenant, employee, _, byAdmin) =>
      if byAdmin && x.writes == {} && !exists id <- s.rows :: Owned(s.rows[id], Employees, tenant, employee) then []
      else [Bulk(t, |x.writes|)]
    case _ => []
  }

  function Marked(rows: map<Id, Row>, t: Id, writes: set<Id>): map<Id, Row> {
    map id | id in rows :: if id in writes then rows[id].(mark := Some(By(t))) else rows[id]
  }

  function Opened(x: Tx, targets: set<Id>): Tx {
    x.(open := true, pending := targets, scope := if Marks(x.op, x.pc) then x.scope + targets else x.scope)
  }

  /** The row is locked, and will be marked if the statement marks. */
  function Took(x: Tx, id: Id): Tx {
    x.(pending := x.pending - {id}, held := x.held + {id},
       writes := if Marks(x.op, x.pc) then x.writes + {id} else x.writes)
  }

  /** The row no longer matches and is passed over. */
  function Passed(x: Tx, id: Id): Tx {
    x.(pending := x.pending - {id})
  }

  function Closed(x: Tx): Tx {
    x.(open := false, pc := x.pc + 1)
  }

  function AfterCommit(s: State, t: Id, newId: Id): State
    requires t in s.txs
  {
    var x := s.txs[t];
    var inserted := Inserts(x);
    State(
      s.clock,
      if inserted.Some? then Marked(s.rows, t, x.writes)[newId := inserted.value] else Marked(s.rows, t, x.writes),
      Released(s.locks, t),
      s.txs[t := x.(status := Committed, inserted := if inserted.Some? then Some(newId) else None)],
      s.log + [t],
      s.audit + AuditOf(s, t, x))
  }

  function Apply(s: State, step: Step): State
    requires Enabled(s, step)
  {
    match step
    case Begin(t, op, now) =>
      s.(clock := now, txs := s.txs[t := Tx(op, now, Active, 0, false, {}, {}, {}, {}, None)])
    case OpenStatement(t, targets) => s.(txs := s.txs[t := Opened(s.txs[t], targets)])
    case Visit(t, id) =>
      if Matches(s.rows, s.txs[t], id) then s.(locks := s.locks[id := t], txs := s.txs[t := Took(s.txs[t], id)])
      else s.(txs := s.txs[t := Passed(s.txs[t], id)])
    case CloseStatement(t) => s.(txs := s.txs[t := Closed(s.txs[t])])
    case Commit(t, newId) => AfterCommit(s, t, newId)
    case Abort(t) => s.(locks := Released(s.locks, t), txs := s.txs[t := s.txs[t].(status := Aborted)])
  }

  /** Nothing runs yet, and every mark is of the past. */
  ghost predicate Init(s: State) {
    && s.locks == map[] && s.txs == map[] && s.log == [] && s.audit == []
    && forall id <- s.rows ::
      && (s.rows[id].mark.Some? ==> s.rows[id].mark.value == Before)
      && (s.rows[id].table == Employees ==> s.rows[id].mark.None?)
  }

  // Runs.

  ghost predicate Legal(s: State, steps: seq<Step>)
    decreases |steps|, 0
  {
    steps == [] || (Legal(s, steps[..|steps| - 1]) && Enabled(Exec(s, steps[..|steps| - 1]), steps[|steps| - 1]))
  }

  ghost function Exec(s: State, steps: seq<Step>): State
    requires Legal(s, steps)
    decreases |steps|, 1
  {
    if steps == [] then s else Apply(Exec(s, steps[..|steps| - 1]), steps[|steps| - 1])
  }

  lemma {:induction false} PrefixIsLegal(s: State, steps: seq<Step>, n: nat)
    requires Legal(s, steps) && n <= |steps|
    ensures Legal(s, steps[..n])
    ensures n < |steps| ==>
      Enabled(Exec(s, steps[..n]), steps[n]) && Legal(s, steps[..n + 1])
      && Exec(s, steps[..n + 1]) == Apply(Exec(s, steps[..n]), steps[n])
    decreases |steps|
  {
    if n == |steps| {
      assert steps[..n] == steps;
    } else if n == |steps| - 1 {
      assert steps[..n + 1] == steps;
    } else {
      var before := steps[..|steps| - 1];
      PrefixIsLegal(s, before, n);
      assert before[..n] == steps[..n] && before[..n + 1] == steps[..n + 1];
    }
  }

  // The invariant.

  /** A locked row belongs to an active transaction and is unmarked. */
  ghost predicate LocksOk(s: State) {
    forall id <- s.locks :: id in s.rows && s.rows[id].mark.None? && IsActive(s, s.locks[id])
  }

  predicate IsMarked(rows: map<Id, Row>, id: Id) {
    id in rows && rows[id].mark.Some?
  }

  /** Some marking statement of `op` selects the row. */
  predicate InScope(rows: map<Id, Row>, op: Op, id: Id) {
    match op
    case Reset(_, _) => Selects(rows, op, 2, id) || Selects(rows, op, 3, id)
    case Logout(_, _) => Selects(rows, op, 1, id)
    case _ => Selects(rows, op, 0, id)
  }

  ghost predicate SetsOk(s: State, x: Tx) {
    && x.writes <= x.held && x.writes <= x.scope
    && (forall id <- x.scope :: InScope(s.rows, x.op, id))
    && (forall id <- x.pending :: PendingOk(s.rows, x, id))
    && (forall id <- x.held :: SameTenant(s.rows, x.op, id))
    && (x.op.ConsumeChallenge? ==> |x.scope| <= 1)
    && (!x.open ==> x.pending == {})
    && (x.pc == 0 && !x.open ==> x.scope == {} && x.held == {})
    && (!Marks(x.op, x.pc) ==> x.scope == {})
    && x.pc <= Statements(x.op) && (x.open ==> x.pc < Statements(x.op))
  }

  /** A row that the open statement selected can fail its second test only by having been marked meanwhile. */
  ghost predicate PendingOk(rows: map<Id, Row>, x: Tx, id: Id) {
    && Selects(rows, x.op, x.pc, id)
    && (ChecksExpiry(x.op, x.pc) ==> rows[id].expires > x.start)
    && (x.op.Logout? && x.pc == 1 ==> id in x.held)
    && (Marks(x.op, x.pc) ==> id in x.scope)
  }

  /** The row belongs to the tenant that the transaction runs for. */
  predicate SameTenant(rows: map<Id, Row>, op: Op, id: Id) {
    id in rows && rows[id].tenant == op.tenant
  }

  /** How far each kind of transaction has come. */
  ghost predicate ProgressOk(s: State, x: Tx) {
    match x.op
    case Reset(token, _) =>
      && (x.pc >= 1 ==> token in x.held)
      && (token in x.held ==> Selects(s.rows, x.op, 0, token) && s.rows[token].expires > x.start)
      && (x.pc >= 3 || (x.pc == 2 && x.open) ==> token in x.scope)
      && (x.pc >= 3 ==> token in x.writes)
    case ConsumeChallenge(_, _, _) =>
      && (forall id <- x.writes :: id in s.rows && s.rows[id].expires > x.start)
      && (x.pc == 1 ==> x.writes != {})
    case RevokeOne(_, _, _) | RevokeMany(_, _, _, _) =>
      forall id <- x.writes :: id in s.rows && s.rows[id].expires > x.start
    case _ => true
  }

  ghost predicate ActiveOk(s: State, t: Id, x: Tx) {
    && (forall id <- x.held :: id in s.locks && s.locks[id] == t)
    && (forall id <- x.scope :: Accounted(s.rows, x, id))
  }

  ghost predicate Accounted(rows: map<Id, Row>, x: Tx, id: Id) {
    id in x.pending || id in x.writes || IsMarked(rows, id)
  }

  ghost predicate CommittedOk(s: State, t: Id, x: Tx) {
    && x.pc == Statements(x.op)
    && (forall id <- x.scope :: IsMarked(s.rows, id))
    && (forall id <- x.writes :: id in s.rows && s.rows[id].mark == Some(By(t)))
  }

  ghost predicate TxOk(s: State, t: Id)
    requires t in s.txs
  {
    var x := s.txs[t];
    && SetsOk(s, x) && ProgressOk(s, x)
    && (x.status == Active ==> ActiveOk(s, t, x))
    && (x.status == Committed ==> CommittedOk(s, t, x))
  }

  ghost predicate MarksOk(s: State) {
    forall id <- s.rows ::
      && (s.rows[id].table == Employees ==> s.rows[id].mark.None?)
      && (s.rows[id].mark.Some? && s.rows[id].mark.value.By? ==>
            var t := s.rows[id].mark.value.tx;
            t in s.txs && s.txs[t].status == Committed && id in s.txs[t].writes)
  }

  ghost predicate LogOk(s: State) {
    && (forall i, j :: 0 <= i < j < |s.log| ==> s.log[i] != s.log[j])
    && (forall t :: t in s.log <==> t in s.txs && s.txs[t].status == Committed)
  }

  /** What an earlier commit had in scope, no later commit marks. */
  ghost predicate ScopesOk(s: State) {
    forall i, j :: 0 <= i < j < |s.log| && s.log[i] in s.txs && s.log[j] in s.txs ==>
      s.txs[s.log[i]].scope !! s.txs[s.log[j]].writes
  }

  ghost predicate Inv(s: State) {
    && LocksOk(s) && MarksOk(s) && LogOk(s) && ScopesOk(s)
    && forall t <- s.txs :: TxOk(s, t)
  }
}
