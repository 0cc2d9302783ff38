/** Every step keeps the invariant of the credential transactions. */
module CredentialsInvariant {
  import opened Options
  import opened Credentials

  /** Rows are never lost, keep everything but their mark, and keep a mark once they have it. */
  ghost predicate Extends(rows: map<Id, Row>, rows': map<Id, Row>) {
    forall id <- rows ::
      && id in rows' && rows'[id].(mark := rows[id].mark) == rows[id]
      && (rows[id].mark.Some? ==> rows'[id].mark == rows[id].mark)
  }

  // What a step of another transaction leaves as it was.

  lemma SelectsStays(rows: map<Id, Row>, rows': map<Id, Row>, op: Op, pc: nat, id: Id)
    requires Extends(rows, rows') && Selects(rows, op, pc, id)
    ensures Selects(rows', op, pc, id)
  {
  }

  lemma SetsStay(s: State, s': State, x: Tx)
    requires Extends(s.rows, s'.rows) && SetsOk(s, x)
    ensures SetsOk(s', x)
  {
    forall id <- x.scope ensures InScope(s'.rows, x.op, id) {}
    forall id <- x.pending ensures PendingOk(s'.rows, x, id) {
      SelectsStays(s.rows, s'.rows, x.op, x.pc, id);
    }
    forall id <- x.held ensures SameTenant(s'.rows, x.op, id) {}
  }

  lemma ProgressStays(s: State, s': State, x: Tx)
    requires Extends(s.rows, s'.rows) && ProgressOk(s, x)
    ensures ProgressOk(s', x)
  {
  }

  lemma OthersStay(s: State, s': State, u: Id)
    requires u in s.txs && u in s'.txs && s'.txs[u] == s.txs[u] && TxOk(s, u)
    requires Extends(s.rows, s'.rows)
    requires forall id <- s.locks :: s.locks[id] == u ==> id in s'.locks && s'.locks[id] == u
    ensures TxOk(s', u)
  {
    SetsStay(s, s', s.txs[u]);
    ProgressStays(s, s', s.txs[u]);
  }

  // The transaction that takes the step.

  lemma SelectedOk(s: State, x: Tx, targets: set<Id>)
    requires SelectsRows(s, x, targets)
    ensures forall id <- targets :: Matches(s.rows, x, id)
    ensures x.op.ConsumeChallenge? ==> |targets| <= 1
    ensures !x.op.ConsumeChallenge? ==> forall id <- s.rows :: Matches(s.rows, x, id) ==> id in targets
  {
    hide Matches;
    assert targets <= Candidates(s, x);
    assert targets == {} || !x.op.ConsumeChallenge? || exists id :: targets == {id};
  }

  lemma OpenKeepsSets(s: State, x: Tx, targets: set<Id>)
    requires SetsOk(s, x) && !x.open && x.pc < Statements(x.op) && SelectsRows(s, x, targets)
    ensures SetsOk(s, Opened(x, targets))
  {
    hide SelectsRows, SameTenant;
    SelectedOk(s, x, targets);
    var x' := Opened(x, targets);
    forall id <- targets ensures PendingOk(s.rows, x', id) && (Marks(x.op, x.pc) ==> InScope(s.rows, x.op, id)) {
      assert Matches(s.rows, x, id);
    }
    assert x.op.ConsumeChallenge? ==> x'.scope == targets;
  }

  lemma OpenKeepsOwn(s: State, t: Id, targets: set<Id>)
    requires LocksOk(s) && IsActive(s, t) && TxOk(s, t) && Enabled(s, OpenStatement(t, targets))
    ensures TxOk(Apply(s, OpenStatement(t, targets)), t)
  {
    hide SetsOk, SelectsRows;
    var (x, s') := (s.txs[t], Apply(s, OpenStatement(t, targets)));
    var x' := Opened(x, targets);
    NotOpen(s, x);
    OpenKeepsSets(s, x, targets);
    SetsStay(s, s', x');
    SelectedOk(s, x, targets);
    if x.op.Reset? && x.pc == 2 {
      assert x.op.token in x.held && Matches(s.rows, x, x.op.token);
    }
    forall id <- x'.scope ensures Accounted(s'.rows, x', id) {
      assert id in targets || Accounted(s.rows, x, id);
    }
  }

  lemma BeginKeepsOwn(s: State, t: Id, op: Op, now: nat)
    requires Enabled(s, Begin(t, op, now))
    ensures TxOk(Apply(s, Begin(t, op, now)), t)
  {
    assert Statements(op) >= 0;
  }

  lemma AbortKeepsOwn(s: State, t: Id)
    requires IsActive(s, t) && TxOk(s, t)
    ensures TxOk(Apply(s, Abort(t)), t)
  {
    hide PendingOk, InScope, SameTenant, Selects;
    var (x, s') := (s.txs[t], Apply(s, Abort(t)));
    assert forall id <- x.pending :: PendingOk(s.rows, x, id);
    forall id <- x.pending ensures PendingOk(s'.rows, s'.txs[t], id) {
      StatusIsIrrelevant(s.rows, x, id, Aborted);
    }
  }

  lemma StatusIsIrrelevant(rows: map<Id, Row>, x: Tx, id: Id, status: Status)
    ensures PendingOk(rows, x.(status := status), id) <==> PendingOk(rows, x, id)
  {
  }

  lemma TakesSelected(s: State, t: Id, id: Id)
    requires IsActive(s, t) && TxOk(s, t) && id in s.txs[t].pending
    ensures PendingOk(s.rows, s.txs[t], id) && SameTenant(s.rows, s.txs[t].op, id)
  {
  }

  lemma TookKeepsOwn(s: State, t: Id, id: Id)
    requires MarksOk(s) && IsActive(s, t) && TxOk(s, t) && Enabled(s, Visit(t, id)) && Matches(s.rows, s.txs[t], id)
    ensures TxOk(Apply(s, Visit(t, id)), t)
  {
    var (x, s') := (s.txs[t], Apply(s, Visit(t, id)));
    TakesSelected(s, t, id);
    var x' := Took(x, id);
    assert SetsOk(s', x') by {
      forall other <- x'.pending ensures PendingOk(s'.rows, x', other) {
        assert PendingOk(s.rows, x, other);
      }
      hide PendingOk, SameTenant, Selects, Matches, InScope;
    }
    forall other <- x'.scope ensures Accounted(s'.rows, x', other) {
      assert Accounted(s.rows, x, other);
    }
  }

  lemma PassedKeepsOwn(s: State, t: Id, id: Id)
    requires MarksOk(s) && IsActive(s, t) && TxOk(s, t) && Enabled(s, Visit(t, id)) && !Matches(s.rows, s.txs[t], id)
    ensures TxOk(Apply(s, Visit(t, id)), t)
  {
    var (x, s') := (s.txs[t], Apply(s, Visit(t, id)));
    TakesSelected(s, t, id);
    assert IsMarked(s.rows, id);
    var x' := Passed(x, id);
    assert SetsOk(s', x') by {
      forall other <- x'.pending ensures PendingOk(s'.rows, x', other) {
        assert PendingOk(s.rows, x, other);
      }
      hide PendingOk, SameTenant, Selects, Matches, InScope;
    }
    forall other <- x'.scope ensures Accounted(s'.rows, x', other) {
      assert Accounted(s.rows, x, other);
    }
  }

  lemma CloseKeepsOwn(s: State, t: Id)
    requires LocksOk(s) && IsActive(s, t) && TxOk(s, t) && Enabled(s, CloseStatement(t))
    ensures TxOk(Apply(s, CloseStatement(t)), t)
  {
    var (x, s') := (s.txs[t], Apply(s, CloseStatement(t)));
    var x' := Closed(x);
    assert SetsOk(s', x') by {
      hide SameTenant, Selects, InScope;
    }
    forall id <- x'.scope ensures Accounted(s'.rows, x', id) {
      assert Accounted(s.rows, x, id);
    }
    if x.op.Reset? && x.pc == 2 {
      assert x.op.token in x.scope && Accounted(s.rows, x, x.op.token);
    }
  }

  lemma CommitExtends(s: State, t: Id, newId: Id)
    requires LocksOk(s) && IsActive(s, t) && TxOk(s, t) && Enabled(s, Commit(t, newId))
    ensures Extends(s.rows, AfterCommit(s, t, newId).rows)
  {
    assert forall id <- s.txs[t].writes :: id in s.locks;
  }

  lemma CommitKeepsOwn(s: State, t: Id, newId: Id)
    requires LocksOk(s) && IsActive(s, t) && TxOk(s, t) && Enabled(s, Commit(t, newId))
    ensures TxOk(AfterCommit(s, t, newId), t)
  {
    hide AuditOf, Inserts, Extends, SetsOk, ProgressOk;
    var (x, s') := (s.txs[t], AfterCommit(s, t, newId));
    var x' := s'.txs[t];
    CommitExtends(s, t, newId);
    SetsStay(s, s', x);
    ProgressStays(s, s', x);
    StatusKeeps(s', x, x'.inserted);
    WritesAreLocked(s, t);
    assert SetsOk(s, x);
    SetsNest(s, x);
    assert x.pending == {} by {
      NotOpen(s, x);
    }
    forall id <- x'.scope ensures IsMarked(s'.rows, id) {
      assert Accounted(s.rows, x, id);
    }
  }

  lemma NotOpen(s: State, x: Tx)
    requires SetsOk(s, x) && !x.open
    ensures x.pending == {}
  {
  }

  lemma StatusKeeps(s: State, x: Tx, inserted: Option<Id>)
    requires SetsOk(s, x) && ProgressOk(s, x) && !x.open
    ensures SetsOk(s, x.(status := Committed, inserted := inserted)) && ProgressOk(s, x.(status := Committed, inserted := inserted))
  {
    hide InScope, SameTenant, Selects;
  }

  // The six kinds of step.

  lemma SameRowsExtend(rows: map<Id, Row>)
    ensures Extends(rows, rows)
  {
  }

  lemma TxsKeep(s: State, s': State, t: Id)
    requires forall u <- s.txs :: TxOk(s, u)
    requires t in s'.txs && TxOk(s', t) && Extends(s.rows, s'.rows)
    requires forall u <- s'.txs :: u == t || (u in s.txs && s'.txs[u] == s.txs[u])
    requires forall id <- s.locks :: s.locks[id] != t ==> id in s'.locks && s'.locks[id] == s.locks[id]
    ensures forall u <- s'.txs :: TxOk(s', u)
  {
    hide SetsOk, ProgressOk, ActiveOk, CommittedOk, Extends;
    forall u <- s'.txs ensures TxOk(s', u) {
      if u != t {
        OthersStay(s, s', u);
      }
    }
  }

  lemma BeginKeeps(s: State, t: Id, op: Op, now: nat)
    requires Inv(s) && Enabled(s, Begin(t, op, now))
    ensures Inv(Apply(s, Begin(t, op, now)))
  {
    hide TxOk, Extends;
    BeginKeepsOwn(s, t, op, now);
    SameRowsExtend(s.rows);
    TxsKeep(s, Apply(s, Begin(t, op, now)), t);
  }

  lemma OpenKeeps(s: State, t: Id, targets: set<Id>)
    requires Inv(s) && Enabled(s, OpenStatement(t, targets))
    ensures Inv(Apply(s, OpenStatement(t, targets)))
  {
    hide TxOk, Extends, SelectsRows;
    OpenKeepsOwn(s, t, targets);
    SameRowsExtend(s.rows);
    TxsKeep(s, Apply(s, OpenStatement(t, targets)), t);
  }

  lemma TakenIsUnmarked(s: State, t: Id, id: Id)
    requires MarksOk(s) && LocksOk(s) && IsActive(s, t) && TxOk(s, t) && Matches(s.rows, s.txs[t], id)
    ensures id in s.rows && s.rows[id].mark.None?
  {
    if id in s.txs[t].held {
      assert id in s.locks;
    }
  }

  lemma TookKeeps(s: State, t: Id, id: Id)
    requires Inv(s) && Enabled(s, Visit(t, id)) && Matches(s.rows, s.txs[t], id)
    ensures Inv(Apply(s, Visit(t, id)))
  {
    hide TxOk, Extends, Matches;
    SameRowsExtend(s.rows);
    TakenIsUnmarked(s, t, id);
    TookKeepsOwn(s, t, id);
    TxsKeep(s, Apply(s, Visit(t, id)), t);
  }

  lemma PassedKeeps(s: State, t: Id, id: Id)
    requires Inv(s) && Enabled(s, Visit(t, id)) && !Matches(s.rows, s.txs[t], id)
    ensures Inv(Apply(s, Visit(t, id)))
  {
    hide TxOk, Extends, Matches;
    SameRowsExtend(s.rows);
    PassedKeepsOwn(s, t, id);
    TxsKeep(s, Apply(s, Visit(t, id)), t);
  }

  lemma CloseKeeps(s: State, t: Id)
    requires Inv(s) && Enabled(s, CloseStatement(t))
    ensures Inv(Apply(s, CloseStatement(t)))
  {
    hide TxOk, Extends, FoundEnough;
    CloseKeepsOwn(s, t);
    SameRowsExtend(s.rows);
    TxsKeep(s, Apply(s, CloseStatement(t)), t);
  }

  lemma AbortKeeps(s: State, t: Id)
    requires Inv(s) && Enabled(s, Abort(t))
    ensures Inv(Apply(s, Abort(t)))
  {
    hide TxOk, Extends;
    AbortKeepsOwn(s, t);
    SameRowsExtend(s.rows);
    TxsKeep(s, Apply(s, Abort(t)), t);
  }

  lemma CommitKeepsLog(s: State, t: Id, newId: Id)
    requires Inv(s) && Enabled(s, Commit(t, newId))
    ensures LogOk(AfterCommit(s, t, newId)) && ScopesOk(AfterCommit(s, t, newId))
  {
    hide SetsOk, ProgressOk, AuditOf, Marked, Inserts;
    var s' := AfterCommit(s, t, newId);
    assert TxOk(s, t) && t !in s.log;
    WritesAreLocked(s, t);
    forall i, j | 0 <= i < j < |s'.log| ensures s'.txs[s'.log[i]].scope !! s'.txs[s'.log[j]].writes {
      if j == |s.log| {
        assert s.log[i] in s.log && TxOk(s, s.log[i]);
      }
    }
  }

  lemma SetsNest(s: State, x: Tx)
    requires SetsOk(s, x)
    ensures x.writes <= x.held && x.writes <= x.scope
  {
  }

  lemma WritesAreLocked(s: State, t: Id)
    requires LocksOk(s) && IsActive(s, t) && TxOk(s, t)
    ensures forall id <- s.txs[t].writes :: id in s.locks && s.locks[id] == t && id in s.rows && s.rows[id].mark.None?
  {
    hide SetsOk;
    assert s.txs[t].writes <= s.txs[t].held by {
      SetsNest(s, s.txs[t]);
    }
  }

  lemma CommitKeepsMarks(s: State, t: Id, newId: Id)
    requires Inv(s) && Enabled(s, Commit(t, newId))
    ensures MarksOk(AfterCommit(s, t, newId))
  {
    hide SetsOk, ProgressOk, ActiveOk, CommittedOk, AuditOf, LogOk, ScopesOk;
    assert TxOk(s, t);
    ScopeHasNoEmployees(s, s.txs[t]);
    WritesAreLocked(s, t);
  }

  lemma ScopeHasNoEmployees(s: State, x: Tx)
    requires SetsOk(s, x)
    ensures forall id <- x.writes :: id in s.rows && s.rows[id].table != Employees
  {
    hide PendingOk, SameTenant;
    forall id <- x.writes ensures id in s.rows && s.rows[id].table != Employees {
      assert InScope(s.rows, x.op, id);
    }
  }

  lemma CommitKeepsLocks(s: State, t: Id, newId: Id)
    requires Inv(s) && Enabled(s, Commit(t, newId))
    ensures LocksOk(AfterCommit(s, t, newId))
  {
    hide TxOk, AuditOf, MarksOk, LogOk, ScopesOk, Inserts;
    var s' := AfterCommit(s, t, newId);
    WritesAreLocked(s, t);
    forall id <- s'.locks ensures id in s'.rows && s'.rows[id].mark.None? && IsActive(s', s'.locks[id]) {
      assert id in s.locks && s.locks[id] != t;
    }
  }

  lemma CommitKeeps(s: State, t: Id, newId: Id)
    requires Inv(s) && Enabled(s, Commit(t, newId))
    ensures Inv(AfterCommit(s, t, newId)) && Extends(s.rows, AfterCommit(s, t, newId).rows)
  {
    hide TxOk, MarksOk, LogOk, ScopesOk, LocksOk, AuditOf, Marked, Extends;
    CommitExtends(s, t, newId);
    CommitKeepsLog(s, t, newId);
    CommitKeepsMarks(s, t, newId);
    CommitKeepsLocks(s, t, newId);
    CommitKeepsOwn(s, t, newId);
    TxsKeep(s, AfterCommit(s, t, newId), t);
  }

  lemma StepKeeps(s: State, step: Step)
    requires Inv(s) && Enabled(s, step)
    ensures Inv(Apply(s, step)) && Extends(s.rows, Apply(s, step).rows)
  {
    hide Inv;
    match step
    case Begin(t, op, now) => BeginKeeps(s, t, op, now);
    case OpenStatement(t, targets) => OpenKeeps(s, t, targets);
    case Visit(t, id) => if Matches(s.rows, s.txs[t], id) { TookKeeps(s, t, id); } else { PassedKeeps(s, t, id); }
    case CloseStatement(t) => CloseKeeps(s, t);
    case Commit(t, newId) => CommitKeeps(s, t, newId);
    case Abort(t) => AbortKeeps(s, t);
  }

  lemma {:induction false} RunKeeps(s: State, steps: seq<Step>)
    requires Init(s) && Legal(s, steps)
    ensures Inv(Exec(s, steps))
  {
    if steps != [] {
      RunKeeps(s, steps[..|steps| - 1]);
      StepKeeps(Exec(s, steps[..|steps| - 1]), steps[|steps| - 1]);
    }
  }
}
