/** Where revoked sessions come from: audits and password resets account for all of them. */
module SessionRevocation {
  import opened Options
  import opened Credentials
  import opened CredentialsInvariant
  import opened CredentialsRuns

  /** The sessions that this run has revoked. */
  function Revoked(s: State): set<Id> {
    set id | id in s.rows && s.rows[id].table == Sessions && s.rows[id].mark.Some? && s.rows[id].mark.value.By?
  }

  function SessionsIn(rows: map<Id, Row>, ids: set<Id>): set<Id> {
    set id | id in ids && id in rows && rows[id].table == Sessions
  }

  /** One for each single revocation, and the counts of the bulk ones. */
  function AuditTotal(audit: seq<Audit>): nat {
    if audit == [] then 0
    else
      var last := audit[|audit| - 1];
      AuditTotal(audit[..|audit| - 1]) + if last.Single? then 1 else last.revokedCount
  }

  /** The sessions revoked by the resets of the log, which leave no audit. */
  function ResetTotal(s: State, log: seq<Id>): nat {
    if log == [] then 0
    else
      var t := log[|log| - 1];
      ResetTotal(s, log[..|log| - 1])
        + if t in s.txs && s.txs[t].op.Reset? then |SessionsIn(s.rows, s.txs[t].writes)| else 0
  }

  ghost predicate Conserved(s: State) {
    |Revoked(s)| == AuditTotal(s.audit) + ResetTotal(s, s.log)
  }

  lemma {:induction false} AuditTotalAdds(audit: seq<Audit>, more: seq<Audit>)
    requires |more| <= 1
    ensures AuditTotal(audit + more) == AuditTotal(audit) + AuditTotal(more)
  {
    if more == [] {
      assert audit + more == audit;
    } else {
      assert (audit + more)[..|audit + more| - 1] == audit;
      assert more[..0] == [];
    }
  }

  /** Later steps change neither the rows' table nor what a committed transaction wrote. */
  lemma {:induction false} ResetTotalLasts(s: State, s': State, log: seq<Id>)
    requires Lasts(s, s') && forall t <- log :: IsCommitted(s, t) && s.txs[t].writes <= s.rows.Keys
    ensures ResetTotal(s', log) == ResetTotal(s, log)
  {
    if log != [] {
      var t := log[|log| - 1];
      assert t in log && forall u <- log[..|log| - 1] :: u in log;
      ResetTotalLasts(s, s', log[..|log| - 1]);
      assert SessionsIn(s'.rows, s'.txs[t].writes) == SessionsIn(s.rows, s.txs[t].writes);
    }
  }

  /** A statement that marks finds only sessions, except in a reset and for challenges. */
  lemma WritesByKind(s: State, x: Tx)
    requires SetsOk(s, x)
    ensures x.writes <= s.rows.Keys
    ensures match x.op
      case Reset(_, _) => true
      case Logout(session, _) => x.writes <= {session} && SessionsIn(s.rows, x.writes) == x.writes
      case RevokeOne(session, _, _) => x.writes <= {session} && SessionsIn(s.rows, x.writes) == x.writes
      case RevokeMany(_, _, _, _) => SessionsIn(s.rows, x.writes) == x.writes
      case _ => SessionsIn(s.rows, x.writes) == {}
  {
    hide SameTenant, PendingOk;
    assert forall id <- x.writes :: InScope(s.rows, x.op, id);
    if x.op.OpenSession? || x.op.IssueToken? {
      assert forall id <- x.writes :: !InScope(s.rows, x.op, id);
    }
  }

  lemma AuditCountsWrites(s: State, t: Id)
    requires IsActive(s, t) && TxOk(s, t)
    ensures var x := s.txs[t];
      && |AuditOf(s, t, x)| <= 1
      && (!x.op.Reset? ==> AuditTotal(AuditOf(s, t, x)) == |SessionsIn(s.rows, x.writes)|)
      && (x.op.Reset? ==> AuditOf(s, t, x) == [])
  {
    hide SetsOk, ProgressOk, ActiveOk, CommittedOk;
    var x := s.txs[t];
    WritesByKind(s, x);
    var a := AuditOf(s, t, x);
    if a != [] {
      assert a[..|a| - 1] == [] && AuditTotal([]) == 0;
      if a[0].Single? {
        assert x.writes == {a[0].session};
      }
    }
  }

  lemma CommitAddsRevoked(s: State, t: Id, newId: Id)
    requires Inv(s) && Enabled(s, Commit(t, newId))
    ensures Revoked(AfterCommit(s, t, newId)) == Revoked(s) + SessionsIn(s.rows, s.txs[t].writes)
    ensures Revoked(s) !! SessionsIn(s.rows, s.txs[t].writes)
  {
    hide TxOk, MarksOk, LogOk, ScopesOk, AuditOf;
    WritesAreLocked(s, t);
  }

  lemma CommitConserves(s: State, t: Id, newId: Id)
    requires Inv(s) && Conserved(s) && Enabled(s, Commit(t, newId))
    ensures Conserved(AfterCommit(s, t, newId))
  {
    hide Inv, Lasts, Revoked, AuditOf, Marked;
    var (x, s') := (s.txs[t], AfterCommit(s, t, newId));
    CommitAddsRevoked(s, t, newId);
    assert TxOk(s, t) by {
      TxIsOk(s, t);
    }
    LogMembers(s);
    AuditCountsWrites(s, t);
    AuditTotalAdds(s.audit, AuditOf(s, t, x));
    StepLasts(s, Commit(t, newId));
    ResetTotalLasts(s, s', s.log);
    assert s'.log[..|s'.log| - 1] == s.log;
    SameSessions(s, t, newId);
    assert AuditTotal([]) == 0;
  }

  lemma SameSessions(s: State, t: Id, newId: Id)
    requires Inv(s) && Enabled(s, Commit(t, newId))
    ensures SessionsIn(AfterCommit(s, t, newId).rows, s.txs[t].writes) == SessionsIn(s.rows, s.txs[t].writes)
  {
    hide TxOk, AuditOf;
    WritesAreLocked(s, t);
  }

  lemma TxIsOk(s: State, t: Id)
    requires Inv(s) && t in s.txs
    ensures TxOk(s, t)
  {
  }

  lemma OnlyCommitsChangeTables(s: State, step: Step)
    requires Enabled(s, step) && !step.Commit?
    ensures var s' := Apply(s, step); s'.rows == s.rows && s'.log == s.log && s'.audit == s.audit
  {
    hide Matches, SelectsRows, FoundEnough;
  }

  lemma StepConserves(s: State, step: Step)
    requires Inv(s) && Conserved(s) && Enabled(s, step)
    ensures Conserved(Apply(s, step))
  {
    hide Inv, Enabled, Apply, Lasts, Revoked;
    if step.Commit? {
      assert Apply(s, step) == AfterCommit(s, step.tx, step.newId) by {
        CommitApplies(s, step.tx, step.newId);
      }
      CommitConserves(s, step.tx, step.newId);
    } else {
      StepLasts(s, step);
      OnlyCommitsChangeTables(s, step);
      LogMembers(s);
      ResetTotalLasts(s, Apply(s, step), s.log);
      assert Revoked(Apply(s, step)) == Revoked(s) by {
        RevokedReadsRows(s, Apply(s, step));
      }
    }
  }

  lemma CommitApplies(s: State, t: Id, newId: Id)
    requires Enabled(s, Commit(t, newId))
    ensures t in s.txs && Apply(s, Commit(t, newId)) == AfterCommit(s, t, newId)
  {
  }

  lemma RevokedReadsRows(s: State, s': State)
    requires s'.rows == s.rows
    ensures Revoked(s') == Revoked(s)
  {
  }

  lemma LogMembers(s: State)
    requires Inv(s)
    ensures forall u <- s.log :: IsCommitted(s, u) && s.txs[u].writes <= s.rows.Keys
  {
    hide ProgressOk, ActiveOk, CommittedOk;
    forall u <- s.log ensures IsCommitted(s, u) && s.txs[u].writes <= s.rows.Keys {
      assert TxOk(s, u);
      WritesByKind(s, s.txs[u]);
    }
  }

  /** Revoked sessions = single-revoke audits + the counts of the bulk audits + those revoked by resets. */
  lemma {:induction false} SessionsAreConserved(s: State, steps: seq<Step>)
    requires Init(s) && Legal(s, steps)
    ensures Conserved(Exec(s, steps))
  {
    hide Inv, Enabled, Apply;
    if steps == [] {
      assert Revoked(s) == {};
    } else {
      var before := steps[..|steps| - 1];
      SessionsAreConserved(s, before);
      RunKeeps(s, before);
      hide Init;
      StepConserves(Exec(s, before), steps[|steps| - 1]);
    }
  }

  /** The session of a single-revoke audit was revoked by the audited transaction. */
  ghost predicate SinglesOk(s: State) {
    && (forall a <- s.audit :: a.Single? ==> a.session in s.rows && s.rows[a.session].mark == Some(By(a.tx)))
    && (forall i, j :: 0 <= i < j < |s.audit| && s.audit[i].Single? && s.audit[j].Single? ==>
          s.audit[i].session != s.audit[j].session)
  }

  lemma CommitKeepsSingles(s: State, t: Id, newId: Id)
    requires Inv(s) && SinglesOk(s) && Enabled(s, Commit(t, newId))
    ensures SinglesOk(AfterCommit(s, t, newId))
  {
    hide TxOk, LocksOk, MarksOk, LogOk, ScopesOk;
    CommitKeeps(s, t, newId);
    WritesAreLocked(s, t);
    var (x, s') := (s.txs[t], AfterCommit(s, t, newId));
    AuditNamesWrite(s, t);
    var new' := AuditOf(s, t, x);
    hide AuditOf, Inv;
    forall a <- s'.audit | a.Single? ensures a.session in s'.rows && s'.rows[a.session].mark == Some(By(a.tx)) {
      assert a in s.audit || a in new';
    }
  }

  lemma AuditNamesWrite(s: State, t: Id)
    requires IsActive(s, t) && TxOk(s, t)
    ensures |AuditOf(s, t, s.txs[t])| <= 1
    ensures forall a <- AuditOf(s, t, s.txs[t]) :: a.Single? ==> a.tx == t && a.session in s.txs[t].writes
  {
    hide SetsOk, ProgressOk, ActiveOk, CommittedOk;
    WritesByKind(s, s.txs[t]);
  }

  /** No session gets two single-revoke audits. */
  lemma {:induction false} SingleAuditsAreDistinct(s: State, steps: seq<Step>)
    requires Init(s) && Legal(s, steps)
    ensures SinglesOk(Exec(s, steps))
  {
    hide Inv, TxOk, Init;
    if steps == [] {
      StartsWithoutAudits(s);
    } else {
      var (before, step) := (steps[..|steps| - 1], steps[|steps| - 1]);
      SingleAuditsAreDistinct(s, before);
      RunKeeps(s, before);
      if step.Commit? {
        CommitKeepsSingles(Exec(s, before), step.tx, step.newId);
      }
    }
  }

  lemma StartsWithoutAudits(s: State)
    requires Init(s)
    ensures SinglesOk(s)
  {
  }

  /** A step changes a row only by marking it, for a transaction of the row's own tenant, and never marks it twice. */
  lemma StepStaysInTenant(s: State, step: Step, id: Id)
    requires Inv(s) && Enabled(s, step) && id in s.rows && id in Apply(s, step).rows
    requires Apply(s, step).rows[id] != s.rows[id]
    ensures step.Commit? && step.tx in s.txs && SameTenant(s.rows, s.txs[step.tx].op, id)
    ensures s.rows[id].mark.None? && Apply(s, step).rows[id] == s.rows[id].(mark := Some(By(step.tx)))
  {
    hide ProgressOk, CommittedOk, PendingOk, SameTenant, AuditOf;
    assert TxOk(s, step.tx);
    WritesAreLocked(s, step.tx);
  }

  /** In every run, no step drops a row, unmarks or re-marks one, or touches or inserts a row of another tenant. */
  lemma RunStaysInTenant(s: State, steps: seq<Step>, n: nat, id: Id)
    requires Init(s) && Legal(s, steps) && n < |steps|
    ensures Legal(s, steps[..n]) && Legal(s, steps[..n + 1])
    ensures var (before, after) := (Exec(s, steps[..n]), Exec(s, steps[..n + 1]));
      id in before.rows ==>
        && id in after.rows
        && (after.rows[id] != before.rows[id] ==>
              && steps[n].Commit? && steps[n].tx in before.txs
              && SameTenant(before.rows, before.txs[steps[n].tx].op, id)
              && before.rows[id].mark.None? && after.rows[id] == before.rows[id].(mark := Some(By(steps[n].tx))))
    ensures var (before, after) := (Exec(s, steps[..n]), Exec(s, steps[..n + 1]));
      id in after.rows && id !in before.rows ==>
        steps[n].Commit? && steps[n].tx in before.txs && SameTenant(after.rows, before.txs[steps[n].tx].op, id)
  {
    hide Inv, Init, Enabled, Apply, SameTenant;
    PrefixIsLegal(s, steps, n);
    RunKeeps(s, steps[..n]);
    var before := Exec(s, steps[..n]);
    StepLasts(before, steps[n]);
    if id in before.rows && Apply(before, steps[n]).rows[id] != before.rows[id] {
      StepStaysInTenant(before, steps[n], id);
    }
    if id in Apply(before, steps[n]).rows && id !in before.rows {
      NewRowsStayInTenant(before, steps[n], id);
    }
  }

  lemma NewRowsStayInTenant(s: State, step: Step, id: Id)
    requires Enabled(s, step) && id in Apply(s, step).rows && id !in s.rows
    ensures step.Commit? && step.tx in s.txs && SameTenant(Apply(s, step).rows, s.txs[step.tx].op, id)
  {
    hide Matches, SelectsRows, FoundEnough, AuditOf;
  }
}
