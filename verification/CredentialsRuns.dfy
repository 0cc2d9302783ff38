/** What holds over whole runs of the credential transactions. */
module CredentialsRuns {
  import opened Options
  import opened Credentials
  import opened CredentialsInvariant

  predicate IsCommitted(s: State, t: Id) {
    t in s.txs && s.txs[t].status == Committed
  }

  /** `t` committed before `u` did. */
  ghost predicate CommittedBefore(s: State, t: Id, u: Id) {
    exists i, j :: 0 <= i < j < |s.log| && s.log[i] == t && s.log[j] == u
  }

  // What lasts from one point of a run to every later one.

  ghost predicate Lasts(s: State, s': State) {
    && Extends(s.rows, s'.rows) && s.log <= s'.log
    && forall t <- s.txs ::
      && t in s'.txs && s'.txs[t].op == s.txs[t].op && s'.txs[t].start == s.txs[t].start
      && s.txs[t].scope <= s'.txs[t].scope
      && (s.txs[t].status != Active ==> s'.txs[t] == s.txs[t])
  }

  lemma StepLasts(s: State, step: Step)
    requires Inv(s) && Enabled(s, step)
    ensures Lasts(s, Apply(s, step))
  {
    hide Inv, Extends, SelectsRows, FoundEnough, Matches, AuditOf, Marked;
    StepKeeps(s, step);
  }

  lemma {:induction false} RunLasts(s: State, steps: seq<Step>, n: nat)
    requires Init(s) && Legal(s, steps) && n <= |steps|
    ensures Legal(s, steps[..n]) && Inv(Exec(s, steps[..n])) && Inv(Exec(s, steps))
    ensures Lasts(Exec(s, steps[..n]), Exec(s, steps))
  {
    hide Inv, Enabled, Apply, Init;
    PrefixIsLegal(s, steps, n);
    RunKeeps(s, steps);
    RunKeeps(s, steps[..n]);
    if n == |steps| {
      assert steps[..n] == steps;
    } else {
      var before := steps[..|steps| - 1];
      RunLasts(s, before, n);
      assert before[..n] == steps[..n];
      StepLasts(Exec(s, before), steps[|steps| - 1]);
    }
  }

  // Password reset.

  lemma CommittedReset(s: State, t: Id)
    requires Inv(s) && IsCommitted(s, t) && s.txs[t].op.Reset?
    ensures var x := s.txs[t];
      && x.op.token in x.scope && x.op.token in x.writes
      && x.op.token in s.rows && s.rows[x.op.token].mark == Some(By(t)) && s.rows[x.op.token].expires > x.start
      && s.rows[x.op.token].tenant == x.op.tenant && s.rows[x.op.token].table == ResetTokens
  {
    assert TxOk(s, t);
  }

  lemma ScopesApart(s: State, i: nat, j: nat)
    requires Inv(s) && i < j < |s.log|
    ensures IsCommitted(s, s.log[i]) && IsCommitted(s, s.log[j])
    ensures s.txs[s.log[i]].scope !! s.txs[s.log[j]].writes
    ensures s.txs[s.log[i]].writes <= s.txs[s.log[i]].scope
  {
    assert s.log[i] in s.log && s.log[j] in s.log;
    assert TxOk(s, s.log[i]);
  }

  /** A reset that has committed began before its token expired, and it is the one that used the token. */
  lemma ResetUsesItsToken(s: State, steps: seq<Step>, t: Id)
    requires Init(s) && Legal(s, steps) && IsCommitted(Exec(s, steps), t) && Exec(s, steps).txs[t].op.Reset?
    ensures var (e, x) := (Exec(s, steps), Exec(s, steps).txs[t]);
      && x.op.token in e.rows && x.start < e.rows[x.op.token].expires
      && e.rows[x.op.token].mark == Some(By(t)) && e.rows[x.op.token].tenant == x.op.tenant
      && e.rows[x.op.token].table == ResetTokens
  {
    hide Inv, Init;
    RunKeeps(s, steps);
    CommittedReset(Exec(s, steps), t);
  }

  /** A reset token changes a password at most once. */
  lemma TokenWorksOnce(s: State, steps: seq<Step>, t: Id, u: Id)
    requires Init(s) && Legal(s, steps) && t != u
    requires var e := Exec(s, steps);
      IsCommitted(e, t) && IsCommitted(e, u) && e.txs[t].op.Reset? && e.txs[u].op.Reset?
    ensures Exec(s, steps).txs[t].op.token != Exec(s, steps).txs[u].op.token
  {
    hide Inv, Init;
    ResetUsesItsToken(s, steps, t);
    ResetUsesItsToken(s, steps, u);
  }

  // What a statement does to the rows that it finds when it begins.

  /** A row that a marking statement finds is in the transaction's scope ever after. */
  lemma TargetsStayInScope(s: State, steps: seq<Step>, n: nat, t: Id, targets: set<Id>)
    requires Init(s) && Legal(s, steps) && n < |steps| && steps[n] == OpenStatement(t, targets)
    ensures Legal(s, steps[..n]) && Inv(Exec(s, steps[..n])) && Inv(Exec(s, steps))
    ensures IsActive(Exec(s, steps[..n]), t) && !Exec(s, steps[..n]).txs[t].open
    ensures SelectsRows(Exec(s, steps[..n]), Exec(s, steps[..n]).txs[t], targets)
    ensures Lasts(Exec(s, steps[..n]), Exec(s, steps)) && t in Exec(s, steps).txs
    ensures Marks(Exec(s, steps[..n]).txs[t].op, Exec(s, steps[..n]).txs[t].pc) ==> targets <= Exec(s, steps).txs[t].scope
  {
    hide Inv, Init, Matches, Selects, SelectsRows, Extends;
    PrefixIsLegal(s, steps, n);
    RunLasts(s, steps, n);
    RunLasts(s, steps, n + 1);
  }

  lemma CommittedScopeIsMarked(s: State, t: Id, id: Id)
    requires Inv(s) && IsCommitted(s, t) && id in s.txs[t].scope
    ensures IsMarked(s.rows, id)
  {
    assert TxOk(s, t);
  }

  /** A row that a marking statement of a committed transaction finds is marked in the end. */
  lemma TargetIsMarked(s: State, steps: seq<Step>, n: nat, t: Id, targets: set<Id>, id: Id)
    requires Init(s) && Legal(s, steps) && n < |steps| && steps[n] == OpenStatement(t, targets) && Legal(s, steps[..n])
    requires t in Exec(s, steps[..n]).txs && Marks(Exec(s, steps[..n]).txs[t].op, Exec(s, steps[..n]).txs[t].pc)
    requires IsCommitted(Exec(s, steps), t) && id in targets
    ensures IsMarked(Exec(s, steps).rows, id)
  {
    hide Inv, Init, SelectsRows;
    TargetsStayInScope(s, steps, n, t, targets);
    CommittedScopeIsMarked(Exec(s, steps), t, id);
  }

  /** An unmarked row that meets the WHERE clause is found, where the statement finds all. */
  lemma FindsAll(s: State, x: Tx, targets: set<Id>, id: Id)
    requires SelectsRows(s, x, targets) && !x.op.ConsumeChallenge? && Matches(s.rows, x, id)
    ensures id in targets
  {
  }

  lemma MarkedStays(s: State, steps: seq<Step>, n: nat, id: Id)
    requires Init(s) && Legal(s, steps) && n <= |steps| && Legal(s, steps[..n]) && IsMarked(Exec(s, steps[..n]).rows, id)
    ensures IsMarked(Exec(s, steps).rows, id)
  {
    hide Inv, Init;
    RunLasts(s, steps, n);
  }

  // That each statement was there.

  predicate HasOpened(x: Tx, pc: nat) {
    x.pc > pc || (x.pc == pc && x.open)
  }

  lemma {:induction false} StatementWasOpened(s: State, steps: seq<Step>, t: Id, pc: nat) returns (n: nat, targets: set<Id>)
    requires Init(s) && Legal(s, steps) && t in Exec(s, steps).txs && HasOpened(Exec(s, steps).txs[t], pc)
    ensures n < |steps| && steps[n] == OpenStatement(t, targets) && Legal(s, steps[..n])
    ensures t in Exec(s, steps[..n]).txs && Exec(s, steps[..n]).txs[t].pc == pc
    ensures Exec(s, steps[..n]).txs[t].op == Exec(s, steps).txs[t].op
    ensures Exec(s, steps[..n]).txs[t].start == Exec(s, steps).txs[t].start
  {
    hide Inv, Enabled, Apply, HasOpened;
    assert steps != [] by {
      NothingOpened(s, t);
    }
    var (before, last) := (steps[..|steps| - 1], steps[|steps| - 1]);
    var b := Exec(s, before);
    if t in b.txs && HasOpened(b.txs[t], pc) {
      n, targets := StatementWasOpened(s, before, t, pc);
      assert before[..n] == steps[..n];
      SameTx(b, last, t);
    } else {
      OpensByOpening(b, last, t, pc);
      n, targets := |steps| - 1, last.targets;
    }
  }

  lemma NothingOpened(s: State, t: Id)
    requires Init(s)
    ensures t !in s.txs
  {
  }

  lemma OpensByOpening(s: State, step: Step, t: Id, pc: nat)
    requires Enabled(s, step) && t in Apply(s, step).txs && HasOpened(Apply(s, step).txs[t], pc)
    requires !(t in s.txs && HasOpened(s.txs[t], pc))
    ensures t in s.txs && step.OpenStatement? && step.tx == t && s.txs[t].pc == pc
    ensures Apply(s, step).txs[t].op == s.txs[t].op && Apply(s, step).txs[t].start == s.txs[t].start
  {
    hide Matches, SelectsRows, AuditOf, Marked, Inserts, FoundEnough;
  }

  lemma SameTx(s: State, step: Step, t: Id)
    requires Enabled(s, step) && t in s.txs
    ensures t in Apply(s, step).txs && Apply(s, step).txs[t].op == s.txs[t].op && Apply(s, step).txs[t].start == s.txs[t].start
  {
    hide Matches, SelectsRows, AuditOf, Marked, Inserts, FoundEnough;
  }

  lemma AllStatementsOpened(s: State, t: Id, pc: nat)
    requires Inv(s) && IsCommitted(s, t) && pc < Statements(s.txs[t].op)
    ensures HasOpened(s.txs[t], pc)
  {
    assert TxOk(s, t);
  }

  // Password reset.

  predicate OwnedLike(r: Row, table: Table, token: Row) {
    r.table == table && r.tenant == token.tenant && r.employee == token.employee
  }

  lemma ResetMatches(s: State, x: Tx, id: Id)
    requires SetsOk(s, x) && ProgressOk(s, x) && x.op.Reset? && 2 <= x.pc < 4 && x.op.token in s.rows
    requires id in s.rows && OwnedLike(s.rows[id], if x.pc == 2 then ResetTokens else Sessions, s.rows[x.op.token])
    ensures IsMarked(s.rows, id) || Matches(s.rows, x, id)
  {
  }

  lemma ResetMarks(s: State, steps: seq<Step>, n: nat, t: Id, targets: set<Id>, id: Id)
    requires Init(s) && Legal(s, steps) && n < |steps| && steps[n] == OpenStatement(t, targets) && Legal(s, steps[..n])
    requires var (b, e) := (Exec(s, steps[..n]), Exec(s, steps));
      && t in b.txs && b.txs[t].op.Reset? && 2 <= b.txs[t].pc < 4 && b.txs[t].op.token in b.rows
      && IsCommitted(e, t) && id in b.rows
      && OwnedLike(b.rows[id], if b.txs[t].pc == 2 then ResetTokens else Sessions, b.rows[b.txs[t].op.token])
    ensures IsMarked(Exec(s, steps).rows, id)
  {
    hide Inv, Init, Matches, SelectsRows, OwnedLike, SetsOk, ProgressOk;
    var b := Exec(s, steps[..n]);
    TargetsStayInScope(s, steps, n, t, targets);
    TxFacts(b, t);
    ResetMatches(b, b.txs[t], id);
    if IsMarked(b.rows, id) {
      MarkedStays(s, steps, n, id);
    } else {
      FindsAll(b, b.txs[t], targets, id);
      TargetIsMarked(s, steps, n, t, targets, id);
    }
  }

  lemma TxFacts(s: State, t: Id)
    requires Inv(s) && t in s.txs
    ensures SetsOk(s, s.txs[t]) && ProgressOk(s, s.txs[t])
    ensures s.txs[t].op.Reset? && s.txs[t].pc >= 1 ==> s.txs[t].op.token in s.rows
  {
    assert TxOk(s, t);
  }

  /**
    A committed reset has opened its token UPDATE and its session UPDATE. Every token of the token's tenant and employee
    that was there at the one is used in the end, and every session of theirs that was there at the other is revoked.
   */
  lemma ResetRetires(s: State, steps: seq<Step>, t: Id) returns (uses: nat, revokes: nat)
    requires Init(s) && Legal(s, steps) && IsCommitted(Exec(s, steps), t) && Exec(s, steps).txs[t].op.Reset?
    ensures uses < |steps| && steps[uses].OpenStatement? && steps[uses].tx == t && Legal(s, steps[..uses])
    ensures revokes < |steps| && steps[revokes].OpenStatement? && steps[revokes].tx == t && Legal(s, steps[..revokes])
    ensures t in Exec(s, steps[..uses]).txs && Exec(s, steps[..uses]).txs[t].pc == 2
    ensures t in Exec(s, steps[..revokes]).txs && Exec(s, steps[..revokes]).txs[t].pc == 3
    ensures var (e, token) := (Exec(s, steps), Exec(s, steps).txs[t].op.token);
      && token in e.rows
      && (forall id <- Exec(s, steps[..uses]).rows ::
            OwnedLike(Exec(s, steps[..uses]).rows[id], ResetTokens, e.rows[token]) ==> IsMarked(e.rows, id))
      && (forall id <- Exec(s, steps[..revokes]).rows ::
            OwnedLike(Exec(s, steps[..revokes]).rows[id], Sessions, e.rows[token]) ==> IsMarked(e.rows, id))
  {
    hide Inv, Init, Extends, SetsOk, ProgressOk;
    var (e, token) := (Exec(s, steps), Exec(s, steps).txs[t].op.token);
    RunKeeps(s, steps);
    CommittedReset(e, t);
    AllStatementsOpened(e, t, 2);
    AllStatementsOpened(e, t, 3);
    var tokens, sessions;
    uses, tokens := StatementWasOpened(s, steps, t, 2);
    revokes, sessions := StatementWasOpened(s, steps, t, 3);
    var (b, c) := (Exec(s, steps[..uses]), Exec(s, steps[..revokes]));
    TokenIsThere(s, steps, uses, t);
    TokenIsThere(s, steps, revokes, t);
    forall id <- b.rows | OwnedLike(b.rows[id], ResetTokens, e.rows[token]) ensures IsMarked(e.rows, id) {
      ResetMarks(s, steps, uses, t, tokens, id);
    }
    forall id <- c.rows | OwnedLike(c.rows[id], Sessions, e.rows[token]) ensures IsMarked(e.rows, id) {
      ResetMarks(s, steps, revokes, t, sessions, id);
    }
  }

  lemma TokenIsThere(s: State, steps: seq<Step>, n: nat, t: Id)
    requires Init(s) && Legal(s, steps) && n <= |steps| && Legal(s, steps[..n])
    requires var b := Exec(s, steps[..n]); t in b.txs && b.txs[t].op.Reset? && b.txs[t].pc >= 1
    ensures Inv(Exec(s, steps[..n])) && Inv(Exec(s, steps)) && Lasts(Exec(s, steps[..n]), Exec(s, steps))
    ensures var (b, e) := (Exec(s, steps[..n]), Exec(s, steps));
      var token := b.txs[t].op.token;
      token in b.rows && token in e.rows
      && e.rows[token].tenant == b.rows[token].tenant && e.rows[token].employee == b.rows[token].employee
  {
    hide Inv, Init;
    RunLasts(s, steps, n);
    TxFacts(Exec(s, steps[..n]), t);
  }

  /**
    Once a reset has committed, no token of its tenant and employee that was there when its token UPDATE began can
    change the password after it.
   */
  lemma RetiredTokenNeverCommits(s: State, steps: seq<Step>, n: nat, t: Id, targets: set<Id>, u: Id)
    requires Init(s) && Legal(s, steps) && n < |steps| && steps[n] == OpenStatement(t, targets) && Legal(s, steps[..n])
    requires var (b, e) := (Exec(s, steps[..n]), Exec(s, steps));
      && t in b.txs && b.txs[t].op.Reset? && b.txs[t].pc == 2 && b.txs[t].op.token in b.rows
      && u in e.txs && e.txs[u].op.Reset? && e.txs[u].op.token in b.rows
      && OwnedLike(b.rows[e.txs[u].op.token], ResetTokens, b.rows[b.txs[t].op.token])
    ensures !CommittedBefore(Exec(s, steps), t, u)
  {
    hide Init, Matches, Inv, SelectsRows, Extends, SetsOk, ProgressOk;
    var (b, e) := (Exec(s, steps[..n]), Exec(s, steps));
    var id := e.txs[u].op.token;
    TargetsStayInScope(s, steps, n, t, targets);
    TxFacts(b, t);
    ResetMatches(b, b.txs[t], id);
    if !IsMarked(b.rows, id) {
      FindsAll(b, b.txs[t], targets, id);
    }
    RetiredBefore(b, e, t, u);
  }

  lemma RetiredBefore(b: State, e: State, t: Id, u: Id)
    requires Inv(b) && Inv(e) && Lasts(b, e) && IsActive(b, t) && t in e.txs
    requires u in e.txs && e.txs[u].op.Reset?
    requires var id := e.txs[u].op.token; IsMarked(b.rows, id) || id in e.txs[t].scope
    ensures !CommittedBefore(e, t, u)
  {
    hide Inv;
    if CommittedBefore(e, t, u) {
      var i, j :| 0 <= i < j < |e.log| && e.log[i] == t && e.log[j] == u;
      ScopesApart(e, i, j);
      CommittedReset(e, u);
      var id := e.txs[u].op.token;
      assert IsMarked(b.rows, id);
      MarkerIsLogged(b, id, u, t);
      LogHasNoRepeats(e);
    }
  }

  lemma MarkerIsLogged(s: State, id: Id, u: Id, t: Id)
    requires Inv(s) && id in s.rows && s.rows[id].mark == Some(By(u)) && IsActive(s, t)
    ensures u in s.log && t !in s.log
  {
  }

  lemma LogHasNoRepeats(s: State)
    requires Inv(s)
    ensures forall i, j :: 0 <= i < j < |s.log| ==> s.log[i] != s.log[j]
  {
  }
}
