/** What credential transactions leave alone, and that one which nobody blocks comes to its commit. */
module CredentialsProgress {
  import opened Options
  import opened Credentials
  import opened CredentialsInvariant
  import opened CredentialsRuns
  import opened CredentialsStatements

  // What a reset and a store leave alone.

  /** A reset locks and marks nothing but its employee, the employee's tokens and the employee's sessions. */
  ghost predicate OwnRowsOnly(s: State, t: Id) {
    t in s.txs && s.txs[t].op.Reset? ==>
      var (x, token) := (s.txs[t], s.txs[t].op.token);
      forall id <- x.held + x.pending ::
        && id in s.rows && token in s.rows && s.rows[token].table == ResetTokens
        && s.rows[id].tenant == s.rows[token].tenant && s.rows[id].employee == s.rows[token].employee
        && s.rows[id].table in {Employees, ResetTokens, Sessions}
  }

  lemma CandidatesAreOwn(s: State, x: Tx, targets: set<Id>)
    requires x.op.Reset? && SelectsRows(s, x, targets) && x.op.token in s.rows && s.rows[x.op.token].table == ResetTokens
    ensures forall id <- targets ::
      && id in s.rows && s.rows[id].tenant == s.rows[x.op.token].tenant
      && s.rows[id].employee == s.rows[x.op.token].employee && s.rows[id].table in {Employees, ResetTokens, Sessions}
  {
  }

  lemma NoTokenNoTarget(s: State, x: Tx, targets: set<Id>)
    requires x.op.Reset? && SelectsRows(s, x, targets) && SetsOk(s, x) && ProgressOk(s, x) && targets != {}
    ensures x.op.token in s.rows && s.rows[x.op.token].table == ResetTokens
  {
  }

  lemma StepTouchesOwn(s: State, step: Step, t: Id)
    requires Inv(s) && Enabled(s, step) && OwnRowsOnly(s, t)
    ensures OwnRowsOnly(Apply(s, step), t)
  {
    hide Inv, SelectsRows, Matches, AuditOf, Inserts, FoundEnough, SetsOk, ProgressOk;
    StepKeeps(s, step);
    if step.OpenStatement? && step.tx == t && step.targets != {} && s.txs[t].op.Reset? {
      TxFacts(s, t);
      NoTokenNoTarget(s, s.txs[t], step.targets);
      CandidatesAreOwn(s, s.txs[t], step.targets);
    }
  }

  lemma {:induction false} ResetTouchesOwnRows(s: State, steps: seq<Step>, t: Id)
    requires Init(s) && Legal(s, steps)
    ensures OwnRowsOnly(Exec(s, steps), t)
  {
    hide Inv, Init, Enabled, Apply, OwnRowsOnly;
    if steps == [] {
      NobodyRuns(s, t);
    } else {
      var before := steps[..|steps| - 1];
      ResetTouchesOwnRows(s, before, t);
      RunKeeps(s, before);
      StepTouchesOwn(Exec(s, before), steps[|steps| - 1], t);
    }
  }

  lemma NobodyRuns(s: State, t: Id)
    requires Init(s)
    ensures OwnRowsOnly(s, t)
  {
  }

  /**
    A committed store has marked every challenge of its tenant, employee and ceremony that was there and unused when it
    began, expired or not, and no other row.
   */
  lemma StoreIsExact(s: State, steps: seq<Step>, t: Id, tenant: Id, employee: Id, ceremony: Ceremony) returns (n: nat)
    requires Init(s) && Legal(s, steps) && IsCommitted(Exec(s, steps), t)
    requires Exec(s, steps).txs[t].op == StoreChallenge(tenant, employee, ceremony)
    ensures n < |steps| && steps[n].OpenStatement? && steps[n].tx == t && Legal(s, steps[..n])
    ensures var (b, e) := (Exec(s, steps[..n]), Exec(s, steps));
      && (forall id <- b.rows ::
            && b.rows[id].table == Challenges(ceremony) && b.rows[id].tenant == tenant && b.rows[id].employee == employee ==>
            IsMarked(e.rows, id))
      && (forall id <- e.txs[t].writes ::
            && id in e.rows && e.rows[id].mark == Some(By(t))
            && e.rows[id].table == Challenges(ceremony) && e.rows[id].tenant == tenant && e.rows[id].employee == employee)
  {
    hide Inv, Init, SelectsRows;
    var e := Exec(s, steps);
    RunKeeps(s, steps);
    AllStatementsOpened(e, t, 0);
    var targets;
    n, targets := StatementWasOpened(s, steps, t, 0);
    WritesAreMarked(e, t);
    var b := Exec(s, steps[..n]);
    forall id <- b.rows
      | b.rows[id].table == Challenges(ceremony) && b.rows[id].tenant == tenant && b.rows[id].employee == employee
      ensures IsMarked(e.rows, id)
    {
      MatchIsMarked(s, steps, n, t, targets, id);
    }
  }

  // A transaction that nobody blocks.

  lemma {:induction false} Then(s: State, first: seq<Step>, more: seq<Step>)
    requires Legal(s, first) && Legal(Exec(s, first), more)
    ensures Legal(s, first + more) && Exec(s, first + more) == Exec(Exec(s, first), more)
    decreases |more|
  {
    hide Enabled, Apply;
    var all := first + more;
    if more == [] {
      assert all == first;
    } else {
      Then(s, first, more[..|more| - 1]);
      assert all[..|all| - 1] == first + more[..|more| - 1];
    }
  }

  lemma One(s: State, step: Step)
    requires Enabled(s, step)
    ensures Legal(s, [step]) && Exec(s, [step]) == Apply(s, step)
  {
    assert [step][..0] == [] && Legal(s, []);
  }

  /** No other transaction holds a lock. */
  ghost predicate Alone(s: State, t: Id) {
    forall id <- s.locks :: s.locks[id] == t
  }

  /** Only the transaction and its locks have moved. */
  ghost predicate OnlyOwnMoves(s: State, s': State, t: Id) {
    && s'.rows == s.rows && s'.clock == s.clock && s'.log == s.log && s'.audit == s.audit
    && Alone(s', t) && IsActive(s', t) && s'.txs.Keys == s.txs.Keys
  }

  lemma VisitTakes(s: State, t: Id, id: Id)
    requires IsActive(s, t) && s.txs[t].open && Alone(s, t) && id in s.txs[t].pending
    requires forall other <- s.txs[t].pending :: Matches(s.rows, s.txs[t], other)
    ensures Enabled(s, Visit(t, id))
    ensures var s' := Apply(s, Visit(t, id));
      && OnlyOwnMoves(s, s', t) && s'.txs[t] == Took(s.txs[t], id)
      && forall other <- s'.txs[t].pending :: Matches(s.rows, s'.txs[t], other)
  {
  }

  /** What is left of a statement once every row that it found is locked. */
  function AllTaken(x: Tx): Tx {
    x.(pending := {}, held := x.held + x.pending, writes := if Marks(x.op, x.pc) then x.writes + x.pending else x.writes)
  }

  lemma TakingAll(x: Tx, id: Id)
    requires id in x.pending
    ensures AllTaken(Took(x, id)) == AllTaken(x) && |Took(x, id).pending| < |x.pending|
  {
    assert x.held + {id} + (x.pending - {id}) == x.held + x.pending;
    assert x.writes + {id} + (x.pending - {id}) == x.writes + x.pending;
  }

  lemma NothingToTake(x: Tx)
    requires x.pending == {}
    ensures AllTaken(x) == x
  {
    assert x.held + {} == x.held && x.writes + {} == x.writes;
  }

  /** All rows that a statement found can be visited and locked. */
  lemma {:induction false} Drain(s: State, t: Id) returns (steps: seq<Step>)
    requires IsActive(s, t) && s.txs[t].open && Alone(s, t)
    requires forall id <- s.txs[t].pending :: Matches(s.rows, s.txs[t], id)
    ensures Legal(s, steps) && OnlyOwnMoves(s, Exec(s, steps), t)
    ensures Exec(s, steps).txs[t] == AllTaken(s.txs[t])
    decreases |s.txs[t].pending|
  {
    hide Matches, Enabled, Apply, AllTaken;
    steps := [];
    var x := s.txs[t];
    if x.pending == {} {
      NothingToTake(x);
    } else {
      var id :| id in x.pending;
      VisitTakes(s, t, id);
      TakingAll(x, id);
      One(s, Visit(t, id));
      var rest := Drain(Apply(s, Visit(t, id)), t);
      Then(s, [Visit(t, id)], rest);
      steps := [Visit(t, id)] + rest;
    }
  }

  lemma TargetsMatch(s: State, x: Tx, targets: set<Id>)
    requires SelectsRows(s, x, targets)
    ensures forall id <- targets :: Matches(s.rows, Opened(x, targets), id)
  {
    forall id <- targets ensures Matches(s.rows, Opened(x, targets), id) {
      assert id in Candidates(s, x);
    }
  }

  /** One statement, from its start to its end. */
  lemma StatementRuns(s: State, t: Id, targets: set<Id>) returns (steps: seq<Step>)
    requires IsActive(s, t) && !s.txs[t].open && Alone(s, t) && s.txs[t].pc < Statements(s.txs[t].op)
    requires SelectsRows(s, s.txs[t], targets)
    requires var x := s.txs[t];
      (x.op.Reset? && x.pc == 0 ==> x.op.token in targets) && (x.op.ConsumeChallenge? ==> targets != {})
    ensures Legal(s, steps) && OnlyOwnMoves(s, Exec(s, steps), t)
    ensures var (x, x') := (s.txs[t], Exec(s, steps).txs[t]);
      && !x'.open && x'.pc == x.pc + 1 && x'.op == x.op && x'.start == x.start && x'.held == x.held + targets
      && x'.writes == if Marks(x.op, x.pc) then x.writes + targets else x.writes
  {
    hide Matches, SelectsRows;
    TargetsMatch(s, s.txs[t], targets);
    One(s, OpenStatement(t, targets));
    var started := Apply(s, OpenStatement(t, targets));
    var visits := Drain(started, t);
    var drained := Exec(started, visits);
    One(drained, CloseStatement(t));
    Then(started, visits, [CloseStatement(t)]);
    Then(s, [OpenStatement(t, targets)], visits + [CloseStatement(t)]);
    steps := [OpenStatement(t, targets)] + (visits + [CloseStatement(t)]);
  }

  /** What the transaction still needs: its first statement finds the token, or a challenge. */
  predicate WillFind(s: State, x: Tx) {
    x.pc == 0 ==> (x.op.Reset? ==> x.op.token in Candidates(s, x)) && (x.op.ConsumeChallenge? ==> Candidates(s, x) != {})
  }

  lemma {:induction false} NewestOf(rows: map<Id, Row>, ids: set<Id>) returns (newest: Id)
    requires ids != {} && ids <= rows.Keys
    ensures newest in ids && forall id <- ids :: rows[id].created <= rows[newest].created
    decreases |ids|
  {
    var first :| first in ids;
    var others := ids - {first};
    newest := first;
    if others != {} {
      var other := NewestOf(rows, others);
      if rows[first].created < rows[other].created {
        newest := other;
      }
      forall id <- ids ensures rows[id].created <= rows[newest].created {
        assert id == first || id in others;
      }
    } else {
      assert ids == {first};
    }
  }

  lemma TargetsFound(s: State, x: Tx) returns (targets: set<Id>)
    requires WillFind(s, x) && (x.op.ConsumeChallenge? ==> x.pc == 0)
    ensures SelectsRows(s, x, targets)
    ensures (x.op.Reset? && x.pc == 0 ==> x.op.token in targets) && (x.op.ConsumeChallenge? ==> targets != {})
  {
    hide Matches;
    if x.op.ConsumeChallenge? {
      var newest := NewestOf(s.rows, Candidates(s, x));
      targets := {newest};
    } else {
      targets := Candidates(s, x);
    }
  }

  /** The transaction runs through all its statements and may commit. */
  lemma {:induction false} RunsThrough(s: State, t: Id) returns (steps: seq<Step>)
    requires IsActive(s, t) && !s.txs[t].open && Alone(s, t) && s.txs[t].pc <= Statements(s.txs[t].op) && WillFind(s, s.txs[t])
    ensures Legal(s, steps) && OnlyOwnMoves(s, Exec(s, steps), t)
    ensures var x' := Exec(s, steps).txs[t]; x'.op == s.txs[t].op && !x'.open && x'.pc == Statements(x'.op)
    decreases Statements(s.txs[t].op) - s.txs[t].pc
  {
    hide SelectsRows, Candidates;
    steps := [];
    if s.txs[t].pc < Statements(s.txs[t].op) {
      var targets := TargetsFound(s, s.txs[t]);
      var first := StatementRuns(s, t, targets);
      var rest := RunsThrough(Exec(s, first), t);
      Then(s, first, rest);
      steps := first + rest;
    }
  }

  /** What an operation that starts at `now` needs so as not to fail: a reset its valid token, a ceremony a live challenge. */
  ghost predicate MaySucceed(s: State, op: Op, now: nat) {
    match op
    case Reset(token, tenant) =>
      && token in s.rows && s.rows[token].table == ResetTokens && s.rows[token].tenant == tenant
      && s.rows[token].mark.None? && now < s.rows[token].expires
    case ConsumeChallenge(tenant, employee, ceremony) => exists id :: IsLive(s, id, tenant, employee, ceremony, now)
    case _ => true
  }

  lemma SuccessIsFound(s: State, t: Id, op: Op, now: nat)
    requires MaySucceed(s, op, now)
    ensures WillFind(s.(clock := now), Tx(op, now, Active, 0, false, {}, {}, {}, {}, None))
  {
    var x := Tx(op, now, Active, 0, false, {}, {}, {}, {}, None);
    match op
    case ConsumeChallenge(tenant, employee, ceremony) =>
      var id :| IsLive(s, id, tenant, employee, ceremony, now);
      assert Matches(s.rows, x, id);
      assert id in Candidates(s.(clock := now), x);
    case _ =>
  }

  lemma CommitEnds(s: State, t: Id, newId: Id)
    requires IsActive(s, t) && !s.txs[t].open && s.txs[t].pc == Statements(s.txs[t].op) && newId !in s.rows
    ensures Enabled(s, Commit(t, newId))
    ensures var x := Apply(s, Commit(t, newId)).txs[t];
      IsCommitted(Apply(s, Commit(t, newId)), t) && x.op == s.txs[t].op && x.pc == s.txs[t].pc
  {
    hide AuditOf, Inserts, Marked;
  }

  /**
    While nobody else holds a lock every transaction that may succeed comes to its commit: an unused, unexpired token of
    the tenant does reset the password, and a live challenge does back a ceremony. No other state ends in a commit
    (`ResetUsesItsToken`, `CeremonyTakesNewest`).
   */
  lemma UnblockedCommits(s: State, t: Id, op: Op, now: nat, newId: Id) returns (steps: seq<Step>)
    requires s.locks == map[] && t !in s.txs && s.clock <= now && newId !in s.rows
    requires MaySucceed(s, op, now)
    ensures Legal(s, steps) && steps != [] && steps[0] == Begin(t, op, now)
    ensures IsCommitted(Exec(s, steps), t) && Exec(s, steps).txs[t].op == op
    ensures Exec(s, steps).txs[t].pc ==
      if op.Reset? then 4 else if op.Logout? then 2 else if op.OpenSession? || op.IssueToken? then 0 else 1
  {
    hide MaySucceed, WillFind;
    One(s, Begin(t, op, now));
    var begun := Apply(s, Begin(t, op, now));
    SuccessIsFound(s, t, op, now);
    FindsInRows(s.(clock := now), begun, begun.txs[t]);
    var middle := RunsThrough(begun, t);
    var done := Exec(begun, middle);
    CommitEnds(done, t, newId);
    One(done, Commit(t, newId));
    Then(begun, middle, [Commit(t, newId)]);
    Then(s, [Begin(t, op, now)], middle + [Commit(t, newId)]);
    steps := [Begin(t, op, now)] + (middle + [Commit(t, newId)]);
  }

  lemma FindsInRows(s: State, s': State, x: Tx)
    requires s'.rows == s.rows
    ensures WillFind(s, x) <==> WillFind(s', x)
  {
    hide Matches;
    assert Candidates(s, x) == Candidates(s', x);
  }

  /** A transaction may abort at any moment, which releases its locks and changes nothing else that others see. */
  lemma AbortsAnytime(s: State, t: Id)
    requires IsActive(s, t)
    ensures Enabled(s, Abort(t))
    ensures var s' := Apply(s, Abort(t));
      && s'.rows == s.rows && s'.log == s.log && s'.audit == s.audit && s'.txs[t].status == Aborted
      && (forall id: Id :: id in s'.locks <==> id in s.locks && s.locks[id] != t)
      && (forall u <- s.txs :: u in s'.txs && (u != t ==> s'.txs[u] == s.txs[u]))
  {
  }
}
