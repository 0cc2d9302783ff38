/** One challenge, one ceremony. */
module WebAuthnChallenges {
  import opened Locks
  import opened Options
  import opened Credentials
  import opened CredentialsInvariant
  import opened CredentialsRuns

  /** No challenge backs two committed ceremonies, whatever runs beside them; each has exactly one. */
  lemma ChallengeBacksOneCeremony(s: State, steps: seq<Step>, i: nat, j: nat)
    requires Init(s) && Legal(s, steps)
    requires var e := Exec(s, steps);
      && i < j < |e.log| && e.log[i] in e.txs && e.log[j] in e.txs
      && e.txs[e.log[i]].op.ConsumeChallenge? && e.txs[e.log[j]].op.ConsumeChallenge?
    ensures var e := Exec(s, steps); e.txs[e.log[i]].writes !! e.txs[e.log[j]].writes
    ensures var e := Exec(s, steps); |e.txs[e.log[i]].writes| == 1 && |e.txs[e.log[j]].writes| == 1
  {
    hide Init, Inv;
    var e := Exec(s, steps);
    RunKeeps(s, steps);
    ScopesApart(e, i, j);
    OneChallenge(e, e.log[i]);
    OneChallenge(e, e.log[j]);
  }

  lemma OneChallenge(s: State, t: Id)
    requires Inv(s) && IsCommitted(s, t) && s.txs[t].op.ConsumeChallenge?
    ensures |s.txs[t].writes| == 1
    ensures forall id <- s.txs[t].writes :: id in s.rows && s.txs[t].start < s.rows[id].expires
  {
    assert TxOk(s, t);
    var x := s.txs[t];
    var rest := x.scope - x.writes;
    assert x.scope == x.writes + rest;
  }

  // At most one unused challenge.

  /** Tenant, employee and ceremony. */
  datatype Key = Key(tenant: Id, employee: Id, ceremony: Ceremony)

  predicate Stores(op: Op, k: Key) {
    op == StoreChallenge(k.tenant, k.employee, k.ceremony)
  }

  predicate Consumes(op: Op, k: Key) {
    op == ConsumeChallenge(k.tenant, k.employee, k.ceremony)
  }

  predicate Unused(s: State, k: Key, id: Id) {
    id in s.rows && Owned(s.rows[id], Challenges(k.ceremony), k.tenant, k.employee) && s.rows[id].mark.None?
  }

  ghost predicate AtMostOne(s: State, k: Key) {
    forall a, b :: Unused(s, k, a) && Unused(s, k, b) ==> a == b
  }

  /** A store that commits now marks every unused challenge of its key. */
  ghost predicate Covers(s: State, step: Step, k: Key) {
    step.Commit? && step.tx in s.txs && Stores(s.txs[step.tx].op, k) ==>
      forall id <- s.rows :: Unused(s, k, id) ==> id in s.txs[step.tx].writes
  }

  ghost predicate Covering(s: State, steps: seq<Step>, k: Key)
    requires Legal(s, steps)
  {
    forall n :: 0 <= n < |steps| && Legal(s, steps[..n]) ==> Covers(Exec(s, steps[..n]), steps[n], k)
  }

  ghost predicate AlwaysAtMostOne(s: State, steps: seq<Step>, k: Key)
    requires Legal(s, steps)
  {
    forall n :: 0 <= n <= |steps| && Legal(s, steps[..n]) ==> AtMostOne(Exec(s, steps[..n]), k)
  }

  lemma OtherStepsKeepAtMostOne(s: State, step: Step, k: Key)
    requires Inv(s) && Enabled(s, step) && AtMostOne(s, k)
    requires !(step.Commit? && Stores(s.txs[step.tx].op, k))
    ensures AtMostOne(Apply(s, step), k)
  {
    hide Inv, Matches, SelectsRows, FoundEnough, AuditOf;
    assert forall id :: Unused(Apply(s, step), k, id) ==> Unused(s, k, id);
  }

  /** A store that covers leaves its own challenge alone; one that does not leaves another beside it. */
  lemma StoreCommits(s: State, t: Id, newId: Id, k: Key)
    requires Enabled(s, Commit(t, newId)) && Stores(s.txs[t].op, k)
    ensures AtMostOne(AfterCommit(s, t, newId), k) <==> Covers(s, Commit(t, newId), k)
    ensures Unused(AfterCommit(s, t, newId), k, newId)
    ensures forall id :: id != newId ==>
      (Unused(AfterCommit(s, t, newId), k, id) <==> Unused(s, k, id) && id !in s.txs[t].writes)
  {
    hide AuditOf;
    var s' := AfterCommit(s, t, newId);
    assert Unused(s', k, newId);
    forall id | id != newId ensures Unused(s', k, id) <==> Unused(s, k, id) && id !in s.txs[t].writes {}
  }

  lemma StepAtMostOne(s: State, step: Step, k: Key)
    requires Inv(s) && Enabled(s, step) && AtMostOne(s, k)
    ensures AtMostOne(Apply(s, step), k) <==> Covers(s, step, k)
  {
    hide Inv, AtMostOne, Unused;
    if step.Commit? && Stores(s.txs[step.tx].op, k) {
      StoreCommits(s, step.tx, step.newId, k);
    } else {
      OtherStepsKeepAtMostOne(s, step, k);
    }
  }

  lemma {:induction false} CoveringKeeps(s: State, steps: seq<Step>, k: Key, n: nat)
    requires Init(s) && Legal(s, steps) && AtMostOne(s, k) && Covering(s, steps, k) && n <= |steps|
    ensures Legal(s, steps[..n]) && AtMostOne(Exec(s, steps[..n]), k)
  {
    hide Init, Inv, Enabled, Apply, AtMostOne, Covers;
    PrefixIsLegal(s, steps, n);
    if n > 0 {
      CoveringKeeps(s, steps, k, n - 1);
      PrefixIsLegal(s, steps, n - 1);
      RunKeeps(s, steps[..n - 1]);
      StepAtMostOne(Exec(s, steps[..n - 1]), steps[n - 1], k);
    }
  }

  /**
    In any interleaving a key has at most one unused challenge throughout exactly when it starts with at most one
    and every store that commits has marked all that are unused at that moment.
   */
  lemma AtMostOneExactly(s: State, steps: seq<Step>, k: Key)
    requires Init(s) && Legal(s, steps)
    ensures AlwaysAtMostOne(s, steps, k) <==> AtMostOne(s, k) && Covering(s, steps, k)
  {
    hide Init, Inv, Enabled, Apply, AtMostOne, Covers;
    assert steps[..0] == [];
    if AtMostOne(s, k) && Covering(s, steps, k) {
      forall n | 0 <= n <= |steps| ensures Legal(s, steps[..n]) && AtMostOne(Exec(s, steps[..n]), k) {
        CoveringKeeps(s, steps, k, n);
      }
    }
    if AlwaysAtMostOne(s, steps, k) {
      forall n | 0 <= n < |steps| ensures Legal(s, steps[..n]) && Covers(Exec(s, steps[..n]), steps[n], k) {
        PrefixIsLegal(s, steps, n);
        RunKeeps(s, steps[..n]);
        StepAtMostOne(Exec(s, steps[..n]), steps[n], k);
      }
    }
  }

  // The latest challenge.

  /** The transaction of the last committed store for the key. */
  function LastStore(txs: map<Id, Tx>, log: seq<Id>, k: Key): Option<Id> {
    if log == [] then None
    else
      var t := log[|log| - 1];
      if t in txs && Stores(txs[t].op, k) then Some(t) else LastStore(txs, log[..|log| - 1], k)
  }

  /**
    The row is the one that the last committed store inserted, with its five minutes, or before the first store
    one that was unused at the start.
   */
  ghost predicate IsLatest(start: State, s: State, log: seq<Id>, k: Key, id: Id) {
    match LastStore(s.txs, log, k)
    case Some(t) =>
      && t in s.txs && s.txs[t].inserted == Some(id)
      && id in s.rows && s.rows[id].expires == s.txs[t].start + CHALLENGE_TTL_MS
    case None => Unused(start, k, id)
  }

  ghost predicate OnlyLatestUnused(start: State, s: State, k: Key) {
    forall id <- s.rows :: Unused(s, k, id) ==> IsLatest(start, s, s.log, k, id)
  }

  ghost predicate ConsumedLatest(start: State, s: State, k: Key) {
    forall j :: 0 <= j < |s.log| && s.log[j] in s.txs && Consumes(s.txs[s.log[j]].op, k) ==>
      forall id <- s.txs[s.log[j]].writes :: IsLatest(start, s, s.log[..j], k, id)
  }

  ghost predicate LatestInv(start: State, s: State, k: Key) {
    OnlyLatestUnused(start, s, k) && ConsumedLatest(start, s, k)
  }

  lemma {:induction false} LastStoreLasts(s: State, s': State, log: seq<Id>, k: Key)
    requires Lasts(s, s') && forall t <- log :: t in s.txs
    ensures LastStore(s'.txs, log, k) == LastStore(s.txs, log, k)
    ensures LastStore(s.txs, log, k).Some? ==> LastStore(s.txs, log, k).value in log
  {
    if log != [] {
      assert log[|log| - 1] in log && forall t <- log[..|log| - 1] :: t in log;
      LastStoreLasts(s, s', log[..|log| - 1], k);
    }
  }

  lemma IsLatestLasts(start: State, s: State, s': State, log: seq<Id>, k: Key, id: Id)
    requires Lasts(s, s') && (forall t <- log :: IsCommitted(s, t)) && IsLatest(start, s, log, k, id)
    ensures IsLatest(start, s', log, k, id)
  {
    LastStoreLasts(s, s', log, k);
  }

  lemma ConsumedLatestLasts(start: State, s: State, s': State, k: Key)
    requires Lasts(s, s') && (forall t <- s.log :: IsCommitted(s, t)) && ConsumedLatest(start, s, k)
    ensures forall j :: 0 <= j < |s.log| && s.log[j] in s'.txs && Consumes(s'.txs[s.log[j]].op, k) ==>
      forall id <- s'.txs[s.log[j]].writes :: IsLatest(start, s', s.log[..j], k, id)
  {
    hide IsLatest;
    forall j, id | 0 <= j < |s.log| && s.log[j] in s'.txs && Consumes(s'.txs[s.log[j]].op, k) && id in s'.txs[s.log[j]].writes
      ensures IsLatest(start, s', s.log[..j], k, id)
    {
      assert s.log[j] in s.log && IsCommitted(s, s.log[j]);
      assert forall t <- s.log[..j] :: t in s.log;
      assert IsLatest(start, s, s.log[..j], k, id);
      IsLatestLasts(start, s, s', s.log[..j], k, id);
    }
  }

  /** Steps that change no row and commit nothing. */
  lemma QuietStepKeeps(start: State, s: State, step: Step, k: Key)
    requires Inv(s) && LatestInv(start, s, k) && Enabled(s, step) && !step.Commit?
    ensures OnlyLatestUnused(start, Apply(s, step), k) && ConsumedLatest(start, Apply(s, step), k)
  {
    hide Inv, Lasts, IsLatest, Matches, SelectsRows, FoundEnough;
    var s' := Apply(s, step);
    StepLasts(s, step);
    LogCommitted(s);
    ConsumedLatestLasts(start, s, s', k);
    forall id <- s'.rows | Unused(s', k, id) ensures IsLatest(start, s', s'.log, k, id) {
      assert Unused(s, k, id);
      IsLatestLasts(start, s, s', s.log, k, id);
    }
  }

  lemma LogCommitted(s: State)
    requires Inv(s)
    ensures forall t <- s.log :: IsCommitted(s, t)
  {
  }

  lemma CommitKeepsUnused(start: State, s: State, t: Id, newId: Id, k: Key)
    requires Inv(s) && LatestInv(start, s, k) && Enabled(s, Commit(t, newId)) && Covers(s, Commit(t, newId), k)
    ensures OnlyLatestUnused(start, AfterCommit(s, t, newId), k)
  {
    hide Inv, Lasts, ConsumedLatest, AuditOf;
    var (x, s') := (s.txs[t], AfterCommit(s, t, newId));
    StepLasts(s, Commit(t, newId));
    LogCommitted(s);
    assert s'.log[..|s'.log| - 1] == s.log;
    forall id <- s'.rows | Unused(s', k, id) ensures IsLatest(start, s', s'.log, k, id) {
      if Stores(x.op, k) {
        assert Unused(s, k, id) ==> id in x.writes;
        assert id == newId;
      } else {
        assert Unused(s, k, id);
        IsLatestLasts(start, s, s', s.log, k, id);
      }
    }
  }

  lemma CommitConsumesLatest(start: State, s: State, t: Id, newId: Id, k: Key)
    requires Inv(s) && LatestInv(start, s, k) && Enabled(s, Commit(t, newId))
    ensures ConsumedLatest(start, AfterCommit(s, t, newId), k)
  {
    hide Inv, Lasts, IsLatest, AuditOf;
    var (x, s') := (s.txs[t], AfterCommit(s, t, newId));
    StepLasts(s, Commit(t, newId));
    LogCommitted(s);
    ConsumedLatestLasts(start, s, s', k);
    if Consumes(x.op, k) {
      WritesUnusedChallenges(s, t, k);
    }
    forall j, id | 0 <= j < |s'.log| && s'.log[j] in s'.txs && Consumes(s'.txs[s'.log[j]].op, k)
      && id in s'.txs[s'.log[j]].writes
      ensures IsLatest(start, s', s'.log[..j], k, id)
    {
      if j == |s.log| {
        assert s'.log[..j] == s.log && Unused(s, k, id);
        IsLatestLasts(start, s, s', s.log, k, id);
      } else {
        assert s'.log[..j] == s.log[..j];
      }
    }
  }

  lemma WritesUnusedChallenges(s: State, t: Id, k: Key)
    requires Inv(s) && IsActive(s, t) && Consumes(s.txs[t].op, k)
    ensures forall id <- s.txs[t].writes :: Unused(s, k, id)
  {
    assert TxOk(s, t);
    forall id <- s.txs[t].writes ensures Unused(s, k, id) {
      assert id in s.txs[t].scope && InScope(s.rows, s.txs[t].op, id);
      assert id in s.txs[t].held && id in s.locks;
    }
  }

  lemma LatestStep(start: State, s: State, step: Step, k: Key)
    requires Inv(s) && LatestInv(start, s, k) && Enabled(s, step) && Covers(s, step, k)
    ensures LatestInv(start, Apply(s, step), k)
  {
    hide Inv, OnlyLatestUnused, ConsumedLatest, Covers;
    match step
    case Commit(t, newId) =>
      CommitKeepsUnused(start, s, t, newId, k);
      CommitConsumesLatest(start, s, t, newId, k);
    case _ => QuietStepKeeps(start, s, step, k);
  }

  lemma StartsLatest(s: State, k: Key)
    requires Init(s)
    ensures LatestInv(s, s, k)
  {
  }

  lemma {:induction false} CoveringRun(s: State, steps: seq<Step>, k: Key)
    requires Init(s) && Legal(s, steps) && Covering(s, steps, k)
    ensures LatestInv(s, Exec(s, steps), k)
  {
    hide Inv, Enabled, Apply, Init, LatestInv, Covers;
    if steps == [] {
      StartsLatest(s, k);
    } else {
      var (before, step) := (steps[..|steps| - 1], steps[|steps| - 1]);
      forall n | 0 <= n < |before| && Legal(s, before[..n]) ensures Covers(Exec(s, before[..n]), before[n], k) {
        assert before[..n] == steps[..n];
      }
      CoveringRun(s, before, k);
      RunKeeps(s, before);
      LatestStep(s, Exec(s, before), step, k);
    }
  }

  /**
    While every store covers, a committed ceremony used the challenge of the last store committed before it and
    began less than five minutes after that store did. Before the first store it used one unused at the start.
   */
  lemma CeremonyUsesLatest(s: State, steps: seq<Step>, k: Key, j: nat) returns (id: Id)
    requires Init(s) && Legal(s, steps) && Covering(s, steps, k)
    requires var e := Exec(s, steps); j < |e.log| && e.log[j] in e.txs && Consumes(e.txs[e.log[j]].op, k)
    ensures var e := Exec(s, steps);
      && e.txs[e.log[j]].writes == {id} && id in e.rows && e.txs[e.log[j]].start < e.rows[id].expires
      && match LastStore(e.txs, e.log[..j], k)
         case Some(store) =>
           && store in e.txs && e.txs[store].inserted == Some(id)
           && e.txs[e.log[j]].start < e.txs[store].start + CHALLENGE_TTL_MS
         case None => Unused(s, k, id)
  {
    hide Init, Inv;
    var e := Exec(s, steps);
    CoveringRun(s, steps, k);
    RunKeeps(s, steps);
    LogCommitted(e);
    assert e.log[j] in e.log;
    OneChallenge(e, e.log[j]);
    var writes := e.txs[e.log[j]].writes;
    id :| id in writes;
    OnlyElement(writes, id);
    assert IsLatest(s, e, e.log[..j], k, id);
  }

  lemma OnlyElement<T>(s: set<T>, x: T)
    requires |s| == 1 && x in s
    ensures s == {x}
  {
    assert |s - {x}| == 0;
  }

  // Serialised stores cover.

  /** A store begins only when no other store for the same key is under way. */
  ghost predicate BeginsAlone(s: State, step: Step, k: Key) {
    step.Begin? && Stores(step.op, k) ==> forall t <- s.txs :: Stores(s.txs[t].op, k) ==> s.txs[t].status != Active
  }

  ghost predicate Serialised(s: State, steps: seq<Step>, k: Key)
    requires Legal(s, steps)
  {
    forall n :: 0 <= n < |steps| && Legal(s, steps[..n]) ==> BeginsAlone(Exec(s, steps[..n]), steps[n], k)
  }

  /** A store under way has every unused challenge of its key in hand. */
  ghost predicate StoreOk(s: State, k: Key, x: Tx) {
    && (x.pc == 0 && x.open ==> forall id <- s.rows :: Unused(s, k, id) ==> id in x.pending || id in x.writes)
    && (x.pc == 1 ==> forall id <- s.rows :: Unused(s, k, id) ==> id in x.writes)
  }

  predicate ActiveStore(s: State, k: Key, t: Id) {
    t in s.txs && Stores(s.txs[t].op, k) && s.txs[t].status == Active
  }

  ghost predicate StoresOk(s: State, k: Key) {
    && (forall t <- s.txs :: ActiveStore(s, k, t) ==> StoreOk(s, k, s.txs[t]))
    && (forall t, u :: ActiveStore(s, k, t) && ActiveStore(s, k, u) ==> t == u)
  }

  lemma OpenedStoreHasAll(s: State, t: Id, targets: set<Id>, k: Key)
    requires Inv(s) && Enabled(s, OpenStatement(t, targets)) && Stores(s.txs[t].op, k)
    ensures StoreOk(s, k, Opened(s.txs[t], targets))
  {
    assert TxOk(s, t);
    forall id <- s.rows | Unused(s, k, id) ensures id in targets {
      assert Matches(s.rows, s.txs[t], id);
    }
  }

  lemma VisitedStoreHasAll(s: State, t: Id, id: Id, k: Key)
    requires Inv(s) && Enabled(s, Visit(t, id)) && Stores(s.txs[t].op, k) && StoreOk(s, k, s.txs[t])
    ensures StoreOk(s, k, Apply(s, Visit(t, id)).txs[t])
  {
    assert TxOk(s, t);
    assert Unused(s, k, id) ==> Matches(s.rows, s.txs[t], id);
  }

  lemma ClosedStoreHasAll(s: State, t: Id, k: Key)
    requires Inv(s) && Enabled(s, CloseStatement(t)) && Stores(s.txs[t].op, k) && StoreOk(s, k, s.txs[t])
    ensures StoreOk(s, k, Closed(s.txs[t]))
  {
    assert TxOk(s, t);
  }

  lemma StoresStay(s: State, s': State, t: Id, k: Key)
    requires StoresOk(s, k) && t in s.txs && s'.txs.Keys == s.txs.Keys
    requires forall u <- s.txs :: u != t ==> s'.txs[u] == s.txs[u]
    requires s'.txs[t].op == s.txs[t].op && (s'.txs[t].status == Active ==> s.txs[t].status == Active)
    requires forall id <- s'.rows :: Unused(s', k, id) ==> Unused(s, k, id)
    requires Stores(s.txs[t].op, k) && s'.txs[t].status == Active ==> StoreOk(s, k, s'.txs[t])
    ensures StoresOk(s', k)
  {
    assert forall u :: ActiveStore(s', k, u) ==> ActiveStore(s, k, u);
  }

  lemma BeginKeepsStores(s: State, t: Id, op: Op, now: nat, k: Key)
    requires StoresOk(s, k) && Enabled(s, Begin(t, op, now)) && BeginsAlone(s, Begin(t, op, now), k)
    ensures StoresOk(Apply(s, Begin(t, op, now)), k)
  {
    hide StoreOk;
    var s' := Apply(s, Begin(t, op, now));
    assert forall u :: ActiveStore(s', k, u) ==> u == t || ActiveStore(s, k, u);
    BegunStoreIsOk(s', k, t);
    forall u <- s'.txs | ActiveStore(s', k, u) ensures StoreOk(s', k, s'.txs[u]) {
      if u != t {
        StoreReadsRows(s, s', k, s.txs[u]);
      }
    }
  }

  lemma StepKeepsStores(s: State, step: Step, k: Key)
    requires Inv(s) && StoresOk(s, k) && Enabled(s, step) && !step.Commit? && BeginsAlone(s, step, k)
    ensures StoresOk(Apply(s, step), k)
  {
    hide Inv, SelectsRows, FoundEnough, Matches, StoreOk;
    var s' := Apply(s, step);
    match step
    case Begin(t, op, now) => BeginKeepsStores(s, t, op, now, k);
    case OpenStatement(t, targets) =>
      if Stores(s.txs[t].op, k) {
        OpenedStoreHasAll(s, t, targets, k);
      }
      StoresStay(s, s', t, k);
    case Visit(t, id) =>
      if Stores(s.txs[t].op, k) {
        VisitedStoreHasAll(s, t, id, k);
      }
      StoresStay(s, s', t, k);
    case CloseStatement(t) =>
      if Stores(s.txs[t].op, k) {
        ClosedStoreHasAll(s, t, k);
      }
      StoresStay(s, s', t, k);
    case Abort(t) => StoresStay(s, s', t, k);
  }

  lemma BegunStoreIsOk(s: State, k: Key, t: Id)
    requires t in s.txs && s.txs[t].pc == 0 && !s.txs[t].open
    ensures StoreOk(s, k, s.txs[t])
  {
  }

  lemma StoreReadsRows(s: State, s': State, k: Key, x: Tx)
    requires s'.rows == s.rows && StoreOk(s, k, x)
    ensures StoreOk(s', k, x)
  {
  }

  lemma CommitKeepsStores(s: State, t: Id, newId: Id, k: Key)
    requires Inv(s) && StoresOk(s, k) && Enabled(s, Commit(t, newId))
    ensures StoresOk(AfterCommit(s, t, newId), k)
  {
    hide Inv, AuditOf;
    var s' := AfterCommit(s, t, newId);
    if Stores(s.txs[t].op, k) {
      assert ActiveStore(s, k, t);
      assert forall u :: ActiveStore(s', k, u) ==> ActiveStore(s, k, u) && u != t;
    } else {
      StoresStay(s, s', t, k);
    }
  }

  lemma StartsStores(s: State, k: Key)
    requires Init(s)
    ensures StoresOk(s, k)
  {
  }

  lemma {:induction false} SerialisedStores(s: State, steps: seq<Step>, k: Key)
    requires Init(s) && Legal(s, steps) && Serialised(s, steps, k)
    ensures StoresOk(Exec(s, steps), k)
  {
    hide Inv, Enabled, Apply, Init, StoresOk, BeginsAlone;
    if steps == [] {
      StartsStores(s, k);
    } else {
      var (before, step) := (steps[..|steps| - 1], steps[|steps| - 1]);
      forall n | 0 <= n < |before| && Legal(s, before[..n]) ensures BeginsAlone(Exec(s, before[..n]), before[n], k) {
        assert before[..n] == steps[..n];
      }
      SerialisedStores(s, before, k);
      RunKeeps(s, before);
      StepKeepsAllStores(Exec(s, before), step, k);
    }
  }

  lemma StepKeepsAllStores(s: State, step: Step, k: Key)
    requires Inv(s) && StoresOk(s, k) && Enabled(s, step) && BeginsAlone(s, step, k)
    ensures StoresOk(Apply(s, step), k)
  {
    hide Inv, StoresOk, BeginsAlone;
    match step
    case Commit(t, newId) => CommitKeepsStores(s, t, newId, k);
    case _ => StepKeepsStores(s, step, k);
  }

  lemma StoresCover(s: State, step: Step, k: Key)
    requires StoresOk(s, k) && Enabled(s, step)
    ensures Covers(s, step, k)
  {
    if step.Commit? && Stores(s.txs[step.tx].op, k) {
      assert ActiveStore(s, k, step.tx);
    }
  }

  /** If each store begins only after the one before has ended, every store covers. */
  lemma SerialisedIsCovering(s: State, steps: seq<Step>, k: Key)
    requires Init(s) && Legal(s, steps) && Serialised(s, steps, k)
    ensures Covering(s, steps, k)
  {
    hide Init, Enabled, Apply, StoresOk, BeginsAlone, Covers;
    forall n | 0 <= n < |steps| && Legal(s, steps[..n]) ensures Covers(Exec(s, steps[..n]), steps[n], k) {
      PrefixIsLegal(s, steps, n);
      forall m | 0 <= m < n && Legal(s, steps[..n][..m]) ensures BeginsAlone(Exec(s, steps[..n][..m]), steps[..n][m], k) {
        assert steps[..n][..m] == steps[..m];
      }
      SerialisedStores(s, steps[..n], k);
      StoresCover(Exec(s, steps[..n]), steps[n], k);
    }
  }

  /** With serialised stores a key that starts with at most one unused challenge never has more. */
  lemma AtMostOneUnused(s: State, steps: seq<Step>, k: Key)
    requires Init(s) && Legal(s, steps) && AtMostOne(s, k) && Serialised(s, steps, k)
    ensures AlwaysAtMostOne(s, steps, k)
  {
    hide Init;
    SerialisedIsCovering(s, steps, k);
    AtMostOneExactly(s, steps, k);
  }

  // Overlapping stores do not.

  lemma Extended(s: State, steps: seq<Step>, step: Step) returns (steps': seq<Step>)
    requires Legal(s, steps) && Enabled(Exec(s, steps), step)
    ensures steps' == steps + [step] && Legal(s, steps') && Exec(s, steps') == Apply(Exec(s, steps), step)
  {
    steps' := steps + [step];
    assert steps'[..|steps'| - 1] == steps;
  }

  lemma UnusedReadsRows(s: State, s': State, k: Key, id: Id)
    requires s'.rows == s.rows
    ensures Unused(s', k, id) <==> Unused(s, k, id)
  {
  }

  lemma NothingToMark(s: State, x: Tx, k: Key)
    requires Stores(x.op, k) && x.pc == 0 && forall id <- s.rows :: !Unused(s, k, id)
    ensures Candidates(s, x) == {}
  {
  }

  /** A store runs alone up to its commit, on a table where it finds nothing to mark. */
  lemma StoreFindsNothing(s: State, steps: seq<Step>, t: Id, k: Key) returns (steps': seq<Step>)
    requires Legal(s, steps)
    requires var e := Exec(s, steps);
      && t !in e.txs && e.clock == s.clock
      && forall id <- e.rows :: !Unused(e, k, id)
    ensures Legal(s, steps')
    ensures var (e, e') := (Exec(s, steps), Exec(s, steps'));
      && t in e'.txs && e' == e.(txs := e.txs[t := e'.txs[t]])
      && e'.txs[t] == Tx(StoreChallenge(k.tenant, k.employee, k.ceremony), e.clock, Active, 1, false, {}, {}, {}, {}, None)
      && forall id <- e'.rows :: !Unused(e', k, id)
  {
    hide Matches, Candidates, Unused, Marked, Released, AuditOf;
    var e := Exec(s, steps);
    var op := StoreChallenge(k.tenant, k.employee, k.ceremony);
    steps' := Extended(s, steps, Begin(t, op, e.clock));
    var e1 := Exec(s, steps');
    forall id <- e1.rows ensures !Unused(e1, k, id) {
      UnusedReadsRows(e, e1, k, id);
    }
    NothingToMark(e1, e1.txs[t], k);
    steps' := Extended(s, steps', OpenStatement(t, {}));
    steps' := Extended(s, steps', CloseStatement(t));
    forall id <- e.rows ensures !Unused(Exec(s, steps'), k, id) {
      UnusedReadsRows(e, Exec(s, steps'), k, id);
    }
  }

  lemma OtherMayCommit(s: State, t: Id, a: Id, u: Id, b: Id)
    requires Enabled(s, Commit(t, a)) && Enabled(s, Commit(u, b)) && t != u && a != b
    ensures Enabled(AfterCommit(s, t, a), Commit(u, b)) && AfterCommit(s, t, a).txs[u] == s.txs[u]
  {
    hide AuditOf;
  }

  /** Two stores that overlap leave two unused challenges, because the second to commit does not cover the first. */
  lemma OverlappingStoresLeaveTwo(s: State, k: Key, t: Id, u: Id, a: Id, b: Id) returns (steps: seq<Step>)
    requires Init(s) && (forall id <- s.rows :: !Unused(s, k, id))
    requires t != u && a != b && a !in s.rows && b !in s.rows
    ensures Legal(s, steps) && Unused(Exec(s, steps), k, a) && Unused(Exec(s, steps), k, b)
    ensures !Covering(s, steps, k)
  {
    hide Inv, Unused, AtMostOne, Covers, AuditOf, Marked, Released, Inserts, Matches, Candidates;
    steps := [];
    assert s.txs == map[] by {
      StartsEmpty(s);
    }
    steps := StoreFindsNothing(s, steps, t, k);
    steps := StoreFindsNothing(s, steps, u, k);
    StoreCommits(Exec(s, steps), t, a, k);
    OtherMayCommit(Exec(s, steps), t, a, u, b);
    steps := Extended(s, steps, Commit(t, a));
    var e, before := Exec(s, steps), steps;
    StoreCommits(e, u, b, k);
    steps := Extended(s, steps, Commit(u, b));
    assert steps[..|before|] == before;
    BlindCommit(e, u, a, b, k);
  }

  lemma StartsEmpty(s: State)
    requires Init(s)
    ensures s.txs == map[]
  {
  }

  lemma BlindCommit(s: State, u: Id, a: Id, b: Id, k: Key)
    requires Enabled(s, Commit(u, b)) && Stores(s.txs[u].op, k) && Unused(s, k, a) && a !in s.txs[u].writes
    ensures !Covers(s, Commit(u, b), k)
  {
  }
}
