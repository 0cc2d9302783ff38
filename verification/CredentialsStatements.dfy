/** What each kind of committed credential transaction has done to the rows, told by the rows themselves. */
module CredentialsStatements {
  import opened Options
  import opened Credentials
  import opened CredentialsInvariant
  import opened CredentialsRuns

  // Locking statements.

  /** The row that statement `pc` found is still to be visited, or locked, or marked by somebody else. */
  predicate Followed(s: State, t: Id, pc: nat, id: Id) {
    t in s.txs &&
    var x := s.txs[t];
    HasOpened(x, pc) && (IsMarked(s.rows, id) || id in x.held || (x.pc == pc && x.open && id in x.pending))
  }

  lemma StepFollows(s: State, step: Step, t: Id, pc: nat, id: Id)
    requires Inv(s) && Enabled(s, step) && Followed(s, t, pc, id)
    ensures Followed(Apply(s, step), t, pc, id)
  {
    hide Inv, Extends, SelectsRows, FoundEnough, Matches, AuditOf, Marked, Inserts;
    StepKeeps(s, step);
    MarkStays(s, Apply(s, step), id);
    if step.Visit? && step.tx == t && step.row == id {
      PassedIsMarked(s, t, id);
    }
  }

  lemma MarkStays(s: State, s': State, id: Id)
    requires Extends(s.rows, s'.rows)
    ensures IsMarked(s.rows, id) ==> IsMarked(s'.rows, id)
  {
  }

  lemma PassedIsMarked(s: State, t: Id, id: Id)
    requires Inv(s) && Enabled(s, Visit(t, id))
    ensures Matches(s.rows, s.txs[t], id) || IsMarked(s.rows, id)
  {
    hide LocksOk, MarksOk, LogOk, ScopesOk;
    assert TxOk(s, t);
    assert PendingOk(s.rows, s.txs[t], id);
  }

  lemma {:induction false} RunFollows(s: State, steps: seq<Step>, n: nat, t: Id, targets: set<Id>, id: Id)
    requires Init(s) && Legal(s, steps) && n < |steps| && steps[n] == OpenStatement(t, targets) && id in targets
    requires Legal(s, steps[..n]) && t in Exec(s, steps[..n]).txs
    ensures Followed(Exec(s, steps), t, Exec(s, steps[..n]).txs[t].pc, id)
    decreases |steps|
  {
    hide Inv, Init, Followed, Enabled, Apply;
    var (before, last) := (steps[..|steps| - 1], steps[|steps| - 1]);
    RunKeeps(s, before);
    if n == |steps| - 1 {
      OpeningFollows(Exec(s, before), t, targets, id);
    } else {
      assert before[..n] == steps[..n];
      RunFollows(s, before, n, t, targets, id);
      StepFollows(Exec(s, before), last, t, Exec(s, steps[..n]).txs[t].pc, id);
    }
  }

  lemma OpeningFollows(s: State, t: Id, targets: set<Id>, id: Id)
    requires Enabled(s, OpenStatement(t, targets)) && id in targets
    ensures t in s.txs && Followed(Apply(s, OpenStatement(t, targets)), t, s.txs[t].pc, id)
  {
    hide SelectsRows;
  }

  /** A row that a finished statement found is locked, unless somebody else marked it. */
  lemma TargetIsHeld(s: State, steps: seq<Step>, m: nat, n: nat, t: Id, targets: set<Id>, id: Id)
    requires Init(s) && Legal(s, steps) && m < n <= |steps| && steps[m] == OpenStatement(t, targets) && id in targets
    requires Legal(s, steps[..m]) && Legal(s, steps[..n]) && t in Exec(s, steps[..m]).txs && t in Exec(s, steps[..n]).txs
    requires Exec(s, steps[..n]).txs[t].pc > Exec(s, steps[..m]).txs[t].pc
    ensures id in Exec(s, steps[..n]).txs[t].held || IsMarked(Exec(s, steps[..n]).rows, id)
  {
    assert steps[..n][..m] == steps[..m] && steps[..n][m] == steps[m];
    RunFollows(s, steps[..n], m, t, targets, id);
  }

  // Password reset.

  lemma EmployeeMatches(s: State, t: Id, id: Id)
    requires Inv(s) && t in s.txs && s.txs[t].op.Reset? && s.txs[t].pc == 1 && s.txs[t].op.token in s.rows
    requires id in s.rows && OwnedLike(s.rows[id], Employees, s.rows[s.txs[t].op.token])
    ensures Matches(s.rows, s.txs[t], id)
  {
    TxFacts(s, t);
  }

  lemma EmployeesAreUnmarked(s: State, id: Id)
    requires Inv(s) && id in s.rows && s.rows[id].table == Employees
    ensures !IsMarked(s.rows, id)
  {
  }

  /** A committed reset has locked, and so written, the row of the token's employee that was there at its employee UPDATE. */
  lemma ResetWritesEmployee(s: State, steps: seq<Step>, t: Id) returns (n: nat)
    requires Init(s) && Legal(s, steps) && IsCommitted(Exec(s, steps), t) && Exec(s, steps).txs[t].op.Reset?
    ensures n < |steps| && steps[n].OpenStatement? && steps[n].tx == t && Legal(s, steps[..n])
    ensures t in Exec(s, steps[..n]).txs && Exec(s, steps[..n]).txs[t].pc == 1
    ensures var (e, token) := (Exec(s, steps), Exec(s, steps).txs[t].op.token);
      && token in e.rows
      && forall id <- Exec(s, steps[..n]).rows ::
        OwnedLike(Exec(s, steps[..n]).rows[id], Employees, e.rows[token]) ==> id in e.txs[t].held
  {
    hide Inv, Init, Extends, Matches, SelectsRows;
    var (e, token) := (Exec(s, steps), Exec(s, steps).txs[t].op.token);
    RunKeeps(s, steps);
    CommittedReset(e, t);
    AllStatementsOpened(e, t, 1);
    var targets;
    n, targets := StatementWasOpened(s, steps, t, 1);
    var b := Exec(s, steps[..n]);
    TokenIsThere(s, steps, n, t);
    TargetsStayInScope(s, steps, n, t, targets);
    forall id <- b.rows | OwnedLike(b.rows[id], Employees, e.rows[token]) ensures id in e.txs[t].held {
      EmployeeMatches(b, t, id);
      FindsAll(b, b.txs[t], targets, id);
      RunFollows(s, steps, n, t, targets, id);
      CommittedIsDone(e, t);
      RowStays(b, e, id);
      EmployeesAreUnmarked(e, id);
    }
  }

  lemma RowStays(s: State, s': State, id: Id)
    requires Lasts(s, s') && id in s.rows
    ensures id in s'.rows && s'.rows[id].(mark := s.rows[id].mark) == s.rows[id]
  {
  }

  lemma CommittedIsDone(s: State, t: Id)
    requires Inv(s) && IsCommitted(s, t)
    ensures s.txs[t].pc == Statements(s.txs[t].op) && !s.txs[t].open
  {
    assert TxOk(s, t);
  }

  // Session revocation.

  predicate IsSession(r: Row, tenant: Id, employee: Id) {
    r.table == Sessions && r.tenant == tenant && r.employee == employee
  }

  /** The rows a committed transaction has marked. */
  lemma WritesAreMarked(s: State, t: Id)
    requires Inv(s) && IsCommitted(s, t)
    ensures forall id <- s.txs[t].writes :: id in s.rows && s.rows[id].mark == Some(By(t)) && InScope(s.rows, s.txs[t].op, id)
    ensures s.txs[t].op.RevokeOne? || s.txs[t].op.RevokeMany? ==>
      forall id <- s.txs[t].writes :: s.rows[id].expires > s.txs[t].start
  {
    assert TxOk(s, t);
  }

  /** An unmarked row that meets the WHERE clause of a marking statement of a committed transaction is marked in the end. */
  lemma MatchIsMarked(s: State, steps: seq<Step>, n: nat, t: Id, targets: set<Id>, id: Id)
    requires Init(s) && Legal(s, steps) && n < |steps| && steps[n] == OpenStatement(t, targets) && Legal(s, steps[..n])
    requires var b := Exec(s, steps[..n]);
      && t in b.txs && Marks(b.txs[t].op, b.txs[t].pc) && !b.txs[t].op.ConsumeChallenge?
      && (IsMarked(b.rows, id) || Matches(b.rows, b.txs[t], id))
    requires IsCommitted(Exec(s, steps), t)
    ensures IsMarked(Exec(s, steps).rows, id)
  {
    hide Inv, Init, Matches, SelectsRows;
    var b := Exec(s, steps[..n]);
    TargetsStayInScope(s, steps, n, t, targets);
    if IsMarked(b.rows, id) {
      MarkedStays(s, steps, n, id);
    } else {
      FindsAll(b, b.txs[t], targets, id);
      TargetIsMarked(s, steps, n, t, targets, id);
    }
  }

  /**
    A committed bulk revocation ends every unexpired session of the tenant's employee that was there when it began, but
    for the excepted one, and itself revokes no other.
   */
  lemma RevokeManyIsExact(s: State, steps: seq<Step>, t: Id, tenant: Id, employee: Id, except: Option<Id>, byAdmin: bool)
    returns (n: nat)
    requires Init(s) && Legal(s, steps) && IsCommitted(Exec(s, steps), t)
    requires Exec(s, steps).txs[t].op == RevokeMany(tenant, employee, except, byAdmin)
    ensures n < |steps| && steps[n].OpenStatement? && steps[n].tx == t && Legal(s, steps[..n])
    ensures var (b, e) := (Exec(s, steps[..n]), Exec(s, steps));
      && (forall id <- b.rows ::
            IsSession(b.rows[id], tenant, employee) && Some(id) != except && b.rows[id].expires > e.txs[t].start ==>
            IsMarked(e.rows, id))
      && (forall id <- e.txs[t].writes ::
            && id in e.rows && e.rows[id].mark == Some(By(t)) && IsSession(e.rows[id], tenant, employee)
            && Some(id) != except && e.rows[id].expires > e.txs[t].start)
  {
    hide Inv, Init, SelectsRows;
    var e := Exec(s, steps);
    RunKeeps(s, steps);
    AllStatementsOpened(e, t, 0);
    var targets;
    n, targets := StatementWasOpened(s, steps, t, 0);
    WritesAreMarked(e, t);
    var b := Exec(s, steps[..n]);
    forall id <- b.rows
      | IsSession(b.rows[id], tenant, employee) && Some(id) != except && b.rows[id].expires > e.txs[t].start
      ensures IsMarked(e.rows, id)
    {
      MatchIsMarked(s, steps, n, t, targets, id);
    }
  }

  /** A committed single revocation ends its session if it is the owner's, in the tenant and unexpired, and no other. */
  lemma RevokeOneIsExact(s: State, steps: seq<Step>, t: Id, session: Id, tenant: Id, owner: Option<Id>) returns (n: nat)
    requires Init(s) && Legal(s, steps) && IsCommitted(Exec(s, steps), t)
    requires Exec(s, steps).txs[t].op == RevokeOne(session, tenant, owner)
    ensures n < |steps| && steps[n].OpenStatement? && steps[n].tx == t && Legal(s, steps[..n])
    ensures var (b, e) := (Exec(s, steps[..n]), Exec(s, steps));
      && (session in b.rows && b.rows[session].expires > e.txs[t].start
          && IsSession(b.rows[session], tenant, if owner.Some? then owner.value else b.rows[session].employee) ==>
            IsMarked(e.rows, session))
      && (forall id <- e.txs[t].writes ::
            && id == session && id in e.rows && e.rows[id].mark == Some(By(t)) && e.rows[id].expires > e.txs[t].start
            && IsSession(e.rows[id], tenant, if owner.Some? then owner.value else e.rows[id].employee))
  {
    hide Inv, Init, SelectsRows;
    var e := Exec(s, steps);
    RunKeeps(s, steps);
    AllStatementsOpened(e, t, 0);
    var targets;
    n, targets := StatementWasOpened(s, steps, t, 0);
    WritesAreMarked(e, t);
    var b := Exec(s, steps[..n]);
    if session in b.rows && IsSession(b.rows[session], tenant, if owner.Some? then owner.value else b.rows[session].employee)
      && b.rows[session].expires > e.txs[t].start
    {
      MatchIsMarked(s, steps, n, t, targets, session);
    }
  }

  /** A committed log-out ends its session, expired or not, if it is in the tenant, and no other. */
  lemma LogoutIsExact(s: State, steps: seq<Step>, t: Id, session: Id, tenant: Id) returns (m: nat)
    requires Init(s) && Legal(s, steps) && IsCommitted(Exec(s, steps), t)
    requires Exec(s, steps).txs[t].op == Logout(session, tenant)
    ensures m < |steps| && steps[m].OpenStatement? && steps[m].tx == t && Legal(s, steps[..m])
    ensures t in Exec(s, steps[..m]).txs && Exec(s, steps[..m]).txs[t].pc == 0
    ensures var (b, e) := (Exec(s, steps[..m]), Exec(s, steps));
      && (session in b.rows && b.rows[session].table == Sessions && b.rows[session].tenant == tenant ==>
            IsMarked(e.rows, session))
      && (forall id <- e.txs[t].writes ::
            && id == session && id in e.rows && e.rows[id].mark == Some(By(t))
            && e.rows[id].table == Sessions && e.rows[id].tenant == tenant)
  {
    hide Inv, Init, SelectsRows;
    var e := Exec(s, steps);
    RunKeeps(s, steps);
    AllStatementsOpened(e, t, 0);
    AllStatementsOpened(e, t, 1);
    var first, n, second;
    m, first := StatementWasOpened(s, steps, t, 0);
    n, second := StatementWasOpened(s, steps, t, 1);
    WritesAreMarked(e, t);
    var (b, c) := (Exec(s, steps[..m]), Exec(s, steps[..n]));
    if session in b.rows && b.rows[session].table == Sessions && b.rows[session].tenant == tenant {
      TargetsStayInScope(s, steps, m, t, first);
      OpenedInOrder(s, steps, t, m, n);
      if IsMarked(b.rows, session) {
        MarkedStays(s, steps, m, session);
      } else {
        FindsAll(b, b.txs[t], first, session);
        TargetIsHeld(s, steps, m, n, t, first, session);
        RowAt(s, steps, m, n, session);
        MatchIsMarked(s, steps, n, t, second, session);
      }
    }
  }

  lemma RowAt(s: State, steps: seq<Step>, m: nat, n: nat, id: Id)
    requires Init(s) && Legal(s, steps) && m <= n <= |steps| && Legal(s, steps[..m]) && Legal(s, steps[..n])
    requires id in Exec(s, steps[..m]).rows
    ensures var (b, c) := (Exec(s, steps[..m]), Exec(s, steps[..n]));
      id in c.rows && c.rows[id].(mark := b.rows[id].mark) == b.rows[id]
  {
    hide Inv, Init;
    assert steps[..n][..m] == steps[..m];
    RunLasts(s, steps[..n], m);
    RowStays(Exec(s, steps[..m]), Exec(s, steps[..n]), id);
  }

  /** A later statement was opened later. */
  lemma OpenedInOrder(s: State, steps: seq<Step>, t: Id, m: nat, n: nat)
    requires Init(s) && Legal(s, steps) && m <= |steps| && n <= |steps| && Legal(s, steps[..m]) && Legal(s, steps[..n])
    requires t in Exec(s, steps[..m]).txs && t in Exec(s, steps[..n]).txs
    requires Exec(s, steps[..m]).txs[t].pc < Exec(s, steps[..n]).txs[t].pc
    ensures m < n
  {
    if n <= m {
      assert steps[..m][..n] == steps[..n];
      PcGrows(s, steps[..m], n, t);
    }
  }

  lemma {:induction false} PcGrows(s: State, steps: seq<Step>, n: nat, t: Id)
    requires Legal(s, steps) && n <= |steps| && Legal(s, steps[..n]) && t in Exec(s, steps[..n]).txs
    ensures t in Exec(s, steps).txs && Exec(s, steps[..n]).txs[t].pc <= Exec(s, steps).txs[t].pc
    decreases |steps|
  {
    hide Enabled, Apply;
    if n == |steps| {
      assert steps[..n] == steps;
    } else {
      var before := steps[..|steps| - 1];
      assert before[..n] == steps[..n];
      PcGrows(s, before, n, t);
      PcStepGrows(Exec(s, before), steps[|steps| - 1], t);
    }
  }

  lemma PcStepGrows(s: State, step: Step, t: Id)
    requires Enabled(s, step) && t in s.txs
    ensures t in Apply(s, step).txs && s.txs[t].pc <= Apply(s, step).txs[t].pc
  {
    hide Matches, SelectsRows, AuditOf, Marked, Inserts, FoundEnough;
  }

  // What a commit leaves behind.

  lemma {:induction false} CommitWasTaken(s: State, steps: seq<Step>, t: Id) returns (n: nat, newId: Id)
    requires Init(s) && Legal(s, steps) && IsCommitted(Exec(s, steps), t)
    ensures n < |steps| && steps[n] == Commit(t, newId) && Legal(s, steps[..n]) && Legal(s, steps[..n + 1])
    ensures Enabled(Exec(s, steps[..n]), Commit(t, newId))
    ensures Exec(s, steps[..n + 1]) == AfterCommit(Exec(s, steps[..n]), t, newId)
    ensures Lasts(Exec(s, steps[..n + 1]), Exec(s, steps)) && Inv(Exec(s, steps[..n])) && Inv(Exec(s, steps))
  {
    hide Inv, Enabled, Apply, AfterCommit, Lasts;
    assert steps != [] by {
      NothingOpened(s, t);
    }
    var (before, last) := (steps[..|steps| - 1], steps[|steps| - 1]);
    var b := Exec(s, before);
    if IsCommitted(b, t) {
      n, newId := CommitWasTaken(s, before, t);
      assert before[..n] == steps[..n] && before[..n + 1] == steps[..n + 1];
      RunLasts(s, steps, n + 1);
    } else {
      CommitsByCommitting(b, last, t);
      n, newId := |steps| - 1, last.newId;
      RunLasts(s, steps, n);
      assert steps[..n + 1] == steps;
      RunLasts(s, steps, n + 1);
    }
  }

  lemma CommitsByCommitting(s: State, step: Step, t: Id)
    requires Enabled(s, step) && IsCommitted(Apply(s, step), t) && !IsCommitted(s, t)
    ensures step.Commit? && step.tx == t && Apply(s, step) == AfterCommit(s, t, step.newId)
  {
    hide Matches, SelectsRows, FoundEnough, AfterCommit;
    if step.Commit? {
      OthersKeepStatus(s, step.tx, step.newId, t);
    }
  }

  lemma OthersKeepStatus(s: State, u: Id, newId: Id, t: Id)
    requires u in s.txs
    ensures t != u ==> (IsCommitted(AfterCommit(s, u, newId), t) <==> IsCommitted(s, t))
  {
  }

  /**
    A committed session, token or challenge is a new row of its owner, unexpired from the transaction's start on for
    twelve hours, for as long as the token was issued, or for five minutes.
   */
  lemma InsertedRow(s: State, steps: seq<Step>, t: Id) returns (id: Id)
    requires Init(s) && Legal(s, steps) && IsCommitted(Exec(s, steps), t)
    requires var op := Exec(s, steps).txs[t].op; op.OpenSession? || op.IssueToken? || op.StoreChallenge?
    ensures var (e, x) := (Exec(s, steps), Exec(s, steps).txs[t]);
      && x.inserted == Some(id) && id in e.rows && id !in s.rows
      && e.rows[id].tenant == x.op.tenant && e.rows[id].employee == x.op.employee && e.rows[id].created == x.start
      && match x.op
         case OpenSession(_, _) => e.rows[id].table == Sessions && e.rows[id].expires == x.start + 43200000
         case IssueToken(_, _, expires) => e.rows[id].table == ResetTokens && e.rows[id].expires == expires
         case StoreChallenge(_, _, ceremony) =>
           e.rows[id].table == Challenges(ceremony) && e.rows[id].expires == x.start + 300000
         case _ => true
  {
    hide Inv, Enabled, AuditOf, Marked;
    var n;
    n, id := CommitWasTaken(s, steps, t);
    var (b, c, e) := (Exec(s, steps[..n]), Exec(s, steps[..n + 1]), Exec(s, steps));
    NewIdIsNew(b, t, id);
    RowStays(c, e, id);
    NoRowIsLost(s, steps, n);
  }

  lemma NewIdIsNew(s: State, t: Id, newId: Id)
    requires Enabled(s, Commit(t, newId))
    ensures newId !in s.rows && t in s.txs
  {
  }

  lemma NoRowIsLost(s: State, steps: seq<Step>, n: nat)
    requires Init(s) && Legal(s, steps) && n <= |steps| && Legal(s, steps[..n])
    ensures s.rows.Keys <= Exec(s, steps[..n]).rows.Keys
  {
    hide Inv;
    assert steps[..n][..0] == [];
    RunLasts(s, steps[..n], 0);
  }

  /** The employee's row is there when the administrator's request looks for it. */
  predicate IsKnown(s: State, tenant: Id, employee: Id) {
    exists id <- s.rows :: s.rows[id].table == Employees && s.rows[id].tenant == tenant && s.rows[id].employee == employee
  }

  lemma AuditsNameTx(s: State, t: Id, x: Tx)
    ensures forall a <- AuditOf(s, t, x) :: a.tx == t
  {
  }

  lemma QuietKeepsAudit(s: State, step: Step)
    requires Enabled(s, step) && !step.Commit?
    ensures Apply(s, step).audit == s.audit && forall t :: IsCommitted(s, t) <==> IsCommitted(Apply(s, step), t)
  {
    hide Matches, SelectsRows, FoundEnough;
  }

  lemma CommitKeepsAudit(s: State, u: Id, newId: Id)
    requires Enabled(s, Commit(u, newId))
    ensures u in s.txs && !IsCommitted(s, u) && IsCommitted(AfterCommit(s, u, newId), u)
    ensures Apply(s, Commit(u, newId)) == AfterCommit(s, u, newId)
    ensures AfterCommit(s, u, newId).audit == s.audit + AuditOf(s, u, s.txs[u])
  {
    hide AuditOf, Marked, Inserts;
  }

  lemma {:induction false} AuditsAreOfCommitted(s: State, steps: seq<Step>)
    requires Init(s) && Legal(s, steps)
    ensures forall a <- Exec(s, steps).audit :: IsCommitted(Exec(s, steps), a.tx)
  {
    hide Enabled, Apply, AfterCommit, AuditOf, IsCommitted;
    if steps != [] {
      var (before, last) := (steps[..|steps| - 1], steps[|steps| - 1]);
      var b := Exec(s, before);
      AuditsAreOfCommitted(s, before);
      if last.Commit? {
        CommitKeepsAudit(b, last.tx, last.newId);
        AuditsNameTx(b, last.tx, b.txs[last.tx]);
        forall t: Id ensures t != last.tx ==> (IsCommitted(AfterCommit(b, last.tx, last.newId), t) <==> IsCommitted(b, t)) {
          OthersKeepStatus(b, last.tx, last.newId, t);
        }
      } else {
        QuietKeepsAudit(b, last);
      }
    }
  }

  lemma {:induction false} AuditsOfOne(s: State, steps: seq<Step>, n: nat, t: Id, newId: Id, a: Audit)
    requires Init(s) && Legal(s, steps) && n < |steps| && steps[n] == Commit(t, newId) && Legal(s, steps[..n])
    requires t in Exec(s, steps[..n]).txs && a.tx == t
    ensures a in Exec(s, steps).audit <==> a in AuditOf(Exec(s, steps[..n]), t, Exec(s, steps[..n]).txs[t])
    ensures IsCommitted(Exec(s, steps), t)
    decreases |steps|
  {
    hide Enabled, Apply, AfterCommit, AuditOf, IsCommitted, Init;
    var (before, last) := (steps[..|steps| - 1], steps[|steps| - 1]);
    var b := Exec(s, before);
    if n == |steps| - 1 {
      CommitKeepsAudit(b, t, newId);
      AuditsAreOfCommitted(s, before);
    } else {
      assert before[..n] == steps[..n];
      AuditsOfOne(s, before, n, t, newId, a);
      if last.Commit? {
        CommitKeepsAudit(b, last.tx, last.newId);
        AuditsNameTx(b, last.tx, b.txs[last.tx]);
        OthersKeepStatus(b, last.tx, last.newId, t);
      } else {
        QuietKeepsAudit(b, last);
      }
    }
  }

  lemma AuditIsOf(s: State, t: Id, x: Tx, a: Audit)
    requires SetsOk(s, x)
    ensures a in AuditOf(s, t, x) <==>
      match x.op
      case Logout(session, _) => a == Single(t, session) && session in x.writes
      case RevokeOne(session, _, _) => a == Single(t, session) && session in x.writes
      case RevokeMany(tenant, employee, _, byAdmin) =>
        a == Bulk(t, |x.writes|) && (!byAdmin || x.writes != {} || IsKnown(s, tenant, employee))
      case _ => false
  {
    hide SetsOk;
    WritesByKind(s, x);
  }

  lemma WritesByKind(s: State, x: Tx)
    requires SetsOk(s, x)
    ensures x.op.Logout? ==> x.writes <= {x.op.session}
    ensures x.op.RevokeOne? ==> x.writes <= {x.op.session}
  {
    forall id <- x.writes ensures InScope(s.rows, x.op, id) {
      assert id in x.scope;
    }
  }

  /**
    A committed revocation has left exactly the audit its route promises: a single one if it revoked its session, a bulk
    one with the number of sessions it revoked, for an administrator unless it revoked none of an unknown employee.
   */
  lemma RevocationIsAudited(s: State, steps: seq<Step>, t: Id, a: Audit) returns (n: nat)
    requires Init(s) && Legal(s, steps) && IsCommitted(Exec(s, steps), t) && a.tx == t
    ensures n < |steps| && steps[n].Commit? && steps[n].tx == t && Legal(s, steps[..n])
    ensures var (b, e, x) := (Exec(s, steps[..n]), Exec(s, steps), Exec(s, steps).txs[t]);
      a in e.audit <==>
        match x.op
        case Logout(session, _) => a == Single(t, session) && session in x.writes
        case RevokeOne(session, _, _) => a == Single(t, session) && session in x.writes
        case RevokeMany(tenant, employee, _, byAdmin) =>
          a == Bulk(t, |x.writes|) && (!byAdmin || x.writes != {} || IsKnown(b, tenant, employee))
        case _ => false
  {
    hide Inv, Enabled, AuditOf, SetsOk, ProgressOk, IsKnown, AfterCommit;
    var newId;
    n, newId := CommitWasTaken(s, steps, t);
    var b := Exec(s, steps[..n]);
    NewIdIsNew(b, t, newId);
    AuditsOfOne(s, steps, n, t, newId, a);
    TxFacts(b, t);
    AuditIsOf(b, t, b.txs[t], a);
    CommitKeepsTx(b, t, newId);
  }

  lemma CommitKeepsTx(s: State, t: Id, newId: Id)
    requires t in s.txs
    ensures var x := AfterCommit(s, t, newId).txs[t];
      IsCommitted(AfterCommit(s, t, newId), t) && x.op == s.txs[t].op && x.writes == s.txs[t].writes
  {
  }

  // Ceremonies.

  /** A challenge of this kind that could back a ceremony which began at `now`. */
  predicate IsLive(s: State, id: Id, tenant: Id, employee: Id, ceremony: Ceremony, now: nat) {
    id in s.rows &&
    var r := s.rows[id];
    && r.table == Challenges(ceremony) && r.tenant == tenant && r.employee == employee && r.mark.None? && r.expires > now
  }

  /** A committed ceremony used a challenge that was the newest of the live ones when its statement began. */
  lemma CeremonyTakesNewest(s: State, steps: seq<Step>, t: Id, tenant: Id, employee: Id, ceremony: Ceremony)
    returns (n: nat, id: Id)
    requires Init(s) && Legal(s, steps) && IsCommitted(Exec(s, steps), t)
    requires Exec(s, steps).txs[t].op == ConsumeChallenge(tenant, employee, ceremony)
    ensures n < |steps| && steps[n] == OpenStatement(t, {id}) && Legal(s, steps[..n])
    ensures var (b, e) := (Exec(s, steps[..n]), Exec(s, steps));
      && id in e.txs[t].writes && IsLive(b, id, tenant, employee, ceremony, e.txs[t].start)
      && forall other <- b.rows :: IsLive(b, other, tenant, employee, ceremony, e.txs[t].start) ==>
        b.rows[other].created <= b.rows[id].created
  {
    hide Inv, Init, Extends;
    var e := Exec(s, steps);
    RunKeeps(s, steps);
    AllStatementsOpened(e, t, 0);
    var targets;
    n, targets := StatementWasOpened(s, steps, t, 0);
    var b := Exec(s, steps[..n]);
    TargetsStayInScope(s, steps, n, t, targets);
    NothingInScope(b, t);
    RunKeepsScope(s, steps, n, t, targets);
    OneChallengeWritten(e, t);
    id :| id in e.txs[t].writes;
    assert targets == {id};
  }

  lemma NothingInScope(s: State, t: Id)
    requires Inv(s) && IsActive(s, t) && s.txs[t].pc == 0 && !s.txs[t].open
    ensures s.txs[t].scope == {}
  {
    assert TxOk(s, t);
  }

  lemma OneChallengeWritten(s: State, t: Id)
    requires Inv(s) && IsCommitted(s, t) && s.txs[t].op.ConsumeChallenge?
    ensures s.txs[t].writes != {} && s.txs[t].writes <= s.txs[t].scope && |s.txs[t].scope| <= 1
  {
    assert TxOk(s, t);
  }

  /** A ceremony has but one statement, so its scope is what that one found. */
  predicate ScopeIs(s: State, t: Id, targets: set<Id>) {
    t in s.txs && s.txs[t].op.ConsumeChallenge? && HasOpened(s.txs[t], 0) && s.txs[t].scope == targets
  }

  lemma StepKeepsScope(s: State, step: Step, t: Id, targets: set<Id>)
    requires Enabled(s, step) && ScopeIs(s, t, targets)
    ensures ScopeIs(Apply(s, step), t, targets)
  {
    hide Matches, SelectsRows, AuditOf, Marked, Inserts, FoundEnough;
  }

  lemma {:induction false} RunKeepsScope(s: State, steps: seq<Step>, n: nat, t: Id, targets: set<Id>)
    requires Legal(s, steps) && n < |steps| && steps[n] == OpenStatement(t, targets) && Legal(s, steps[..n])
    requires t in Exec(s, steps[..n]).txs
    requires var x := Exec(s, steps[..n]).txs[t]; x.op.ConsumeChallenge? && x.pc == 0 && x.scope == {}
    ensures ScopeIs(Exec(s, steps), t, targets)
    decreases |steps|
  {
    hide Enabled, Apply, ScopeIs;
    var before := steps[..|steps| - 1];
    if n == |steps| - 1 {
      OpeningSetsScope(Exec(s, before), t, targets);
    } else {
      assert before[..n] == steps[..n];
      RunKeepsScope(s, before, n, t, targets);
      StepKeepsScope(Exec(s, before), steps[|steps| - 1], t, targets);
    }
  }

  lemma OpeningSetsScope(s: State, t: Id, targets: set<Id>)
    requires Enabled(s, OpenStatement(t, targets))
    requires s.txs[t].op.ConsumeChallenge? && s.txs[t].pc == 0 && s.txs[t].scope == {}
    ensures ScopeIs(Apply(s, OpenStatement(t, targets)), t, targets)
  {
    hide SelectsRows;
  }
}
