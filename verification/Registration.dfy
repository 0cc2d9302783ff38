/** Concurrent tenant registrations behind a transaction-scoped advisory lock. */
module Registration {
  import opened Locks

  datatype Phase = Begun | LockHeld | Checked | Inserted | Committed | Aborted

  datatype Attempt = Attempt(email: string, phase: Phase)

  /**
    `accounts` are the committed login emails. `hash` and `lower` stand for hashtext and for lower-casing;
    nothing is assumed of them, so hashes may collide. A registration's email is lower-case already, a hired
    candidate's may not be; both lock the lower-case form.
   */
  datatype State = State(
    hash: string -> int,
    lower: string -> string,
    accounts: seq<string>,
    locks: map<int, nat>,
    attempts: map<nat, Attempt>
  )

  datatype Step =
    | Begin(tx: nat, email: string)
    | Lock(tx: nat)
    | Check(tx: nat)
    | Insert(tx: nat)
    | Commit(tx: nat)
    | Abort(tx: nat)

  function LockKey(s: State, t: nat): int
    requires t in s.attempts
  {
    s.hash(s.lower(s.attempts[t].email))
  }

  predicate Taken(s: State, email: string) {
    exists account <- s.accounts :: s.lower(account) == s.lower(email)
  }

  predicate In(s: State, t: nat, phase: Phase) {
    t in s.attempts && s.attempts[t].phase == phase
  }

  predicate Enabled(s: State, step: Step) {
    match step
    case Begin(t, _) => t !in s.attempts
    case Lock(t) => In(s, t, Begun) && LockKey(s, t) !in s.locks
    case Check(t) => In(s, t, LockHeld) && !Taken(s, s.attempts[t].email)
    case Insert(t) => In(s, t, Checked)
    case Commit(t) => In(s, t, Inserted)
    case Abort(t) => t in s.attempts && s.attempts[t].phase !in {Committed, Aborted}
  }

  function To(s: State, t: nat, phase: Phase): State
    requires t in s.attempts
  {
    s.(attempts := s.attempts[t := s.attempts[t].(phase := phase)])
  }

  function Apply(s: State, step: Step): State
    requires Enabled(s, step)
  {
    match step
    case Begin(t, email) => s.(attempts := s.attempts[t := Attempt(email, Begun)])
    case Lock(t) => To(s, t, LockHeld).(locks := s.locks[LockKey(s, t) := t])
    case Check(t) => To(s, t, Checked)
    case Insert(t) => To(s, t, Inserted)
    case Commit(t) =>
      To(s, t, Committed).(locks := Released(s.locks, t), accounts := s.accounts + [s.attempts[t].email])
    case Abort(t) => To(s, t, Aborted).(locks := Released(s.locks, t))
  }

  /** A run from a state without registrations: each state follows from the one before by an enabled step. */
  ghost predicate Run(states: seq<State>, steps: seq<Step>) {
    && |states| == |steps| + 1 && states[0].locks == map[] && states[0].attempts == map[]
    && forall i :: 0 <= i < |steps| ==> Enabled(states[i], steps[i]) && states[i + 1] == Apply(states[i], steps[i])
  }

  /** Whoever is past its lock still holds it; whoever is past its check still finds its email free. */
  ghost predicate AttemptOk(s: State, t: nat)
    requires t in s.attempts
  {
    var a := s.attempts[t];
    && (a.phase in {LockHeld, Checked, Inserted} ==> LockKey(s, t) in s.locks && s.locks[LockKey(s, t)] == t)
    && (a.phase in {Checked, Inserted} ==> !Taken(s, a.email))
    && (a.phase == Committed ==> a.email in s.accounts)
  }

  ghost predicate Guarded(s: State) {
    forall t <- s.attempts :: AttemptOk(s, t)
  }

  predicate BothCommitted(s: State, t: nat, u: nat) {
    In(s, t, Committed) && In(s, u, Committed) && s.lower(s.attempts[t].email) == s.lower(s.attempts[u].email)
  }

  /** Two committed attempts never share a login email, and no account of before the run has it. */
  ghost predicate Unique(s: State, initial: seq<string>) {
    && initial <= s.accounts
    && (forall t, u :: BothCommitted(s, t, u) ==> t == u)
    && (forall t, k :: In(s, t, Committed) && 0 <= k < |initial| ==>
          s.lower(initial[k]) != s.lower(s.attempts[t].email))
  }

  lemma CommitKeepsGuarded(s: State, t: nat)
    requires Guarded(s) && Enabled(s, Commit(t))
    ensures Guarded(Apply(s, Commit(t)))
  {
    var s' := Apply(s, Commit(t));
    assert AttemptOk(s, t);
    forall u <- s'.attempts ensures AttemptOk(s', u) {
      assert AttemptOk(s, u);
      if s'.attempts[u].phase in {Checked, Inserted} {
        assert s.lower(s.attempts[u].email) != s.lower(s.attempts[t].email);
        assert forall account <- s'.accounts :: account in s.accounts || account == s.attempts[t].email;
      }
    }
  }

  lemma CommitKeepsUnique(s: State, t: nat, initial: seq<string>)
    requires Guarded(s) && Unique(s, initial) && Enabled(s, Commit(t))
    ensures Unique(Apply(s, Commit(t)), initial)
  {
    assert AttemptOk(s, t) && !Taken(s, s.attempts[t].email);
    forall u | In(s, u, Committed) ensures s.lower(s.attempts[u].email) != s.lower(s.attempts[t].email) {
      assert AttemptOk(s, u);
    }
    forall k | 0 <= k < |initial| ensures s.lower(initial[k]) != s.lower(s.attempts[t].email) {
      assert initial[k] in s.accounts;
    }
    assert forall u, v :: BothCommitted(Apply(s, Commit(t)), u, v) && u != t && v != t ==> BothCommitted(s, u, v);
  }

  lemma OtherStepsKeep(s: State, step: Step, initial: seq<string>)
    requires Guarded(s) && Unique(s, initial) && Enabled(s, step) && !step.Commit?
    ensures Guarded(Apply(s, step)) && Unique(Apply(s, step), initial)
  {
    var s' := Apply(s, step);
    assert forall t :: In(s', t, Committed) <==> In(s, t, Committed);
    hide Unique;
    forall u <- s'.attempts ensures AttemptOk(s', u) {
      assert u in s.attempts ==> AttemptOk(s, u);
      if u in s.attempts {
        assert Taken(s', s'.attempts[u].email) == Taken(s, s.attempts[u].email);
      }
    }
    assert Unique(s', initial) by {
      OtherStepsKeepUnique(s, s', initial);
    }
  }

  lemma OtherStepsKeepUnique(s: State, s': State, initial: seq<string>)
    requires Unique(s, initial) && s'.accounts == s.accounts && s'.lower == s.lower
    requires forall t :: In(s', t, Committed) ==> In(s, t, Committed) && s'.attempts[t] == s.attempts[t]
    ensures Unique(s', initial)
  {
    assert forall t, u :: BothCommitted(s', t, u) ==> BothCommitted(s, t, u);
  }

  lemma {:induction false} RunKeeps(states: seq<State>, steps: seq<Step>, n: nat)
    requires Run(states, steps) && n <= |steps|
    ensures Guarded(states[n]) && Unique(states[n], states[0].accounts)
  {
    hide Guarded, Unique, Enabled, Apply;
    if n > 0 {
      RunKeeps(states, steps, n - 1);
      var (s, step) := (states[n - 1], steps[n - 1]);
      if step.Commit? {
        CommitKeepsGuarded(s, step.tx);
        CommitKeepsUnique(s, step.tx, states[0].accounts);
      } else {
        OtherStepsKeep(s, step, states[0].accounts);
      }
    } else {
      StartsUnique(states[0]);
    }
  }

  lemma StartsUnique(s: State)
    requires s.attempts == map[]
    ensures Guarded(s) && Unique(s, s.accounts)
  {
  }

  /** At most one attempt commits per login email, whatever collisions the hash has. */
  lemma OneRegistrationPerEmail(states: seq<State>, steps: seq<Step>, t: nat, u: nat)
    requires Run(states, steps)
    requires BothCommitted(states[|steps|], t, u)
    ensures t == u
    ensures var s := states[|steps|];
      forall k :: 0 <= k < |states[0].accounts| ==> s.lower(states[0].accounts[k]) != s.lower(s.attempts[t].email)
  {
    RunKeeps(states, steps, |steps|);
  }

  /**
    A registration that finds its lock free can run to its commit exactly when no account has its login email, and then
    adds this one account, whatever other registrations are under way; another holder of the lock makes it wait.
   */
  lemma FreeEmailRegisters(s: State, t: nat, email: string)
    requires t !in s.attempts
    ensures var begun := Apply(s, Begin(t, email));
      && (Enabled(begun, Lock(t)) <==> s.hash(s.lower(email)) !in s.locks)
      && (Enabled(begun, Lock(t)) ==>
            var locked := Apply(begun, Lock(t));
            && (Enabled(locked, Check(t)) <==> forall account <- s.accounts :: s.lower(account) != s.lower(email))
            && (Enabled(locked, Check(t)) ==>
                  var checked := Apply(locked, Check(t));
                  && Enabled(checked, Insert(t)) && Enabled(Apply(checked, Insert(t)), Commit(t))
                  && var done := Apply(Apply(checked, Insert(t)), Commit(t));
                  && done.accounts == s.accounts + [email] && In(done, t, Committed)
                  && s.hash(s.lower(email)) !in done.locks))
  {
  }

  /** An attempt may fail at any moment before its commit, which frees its lock and adds no account. */
  lemma AttemptMayFail(s: State, t: nat)
    requires t in s.attempts && s.attempts[t].phase != Committed && s.attempts[t].phase != Aborted
    ensures Enabled(s, Abort(t))
    ensures var s' := Apply(s, Abort(t));
      s'.accounts == s.accounts && In(s', t, Aborted) && forall k: int :: k in s'.locks <==> k in s.locks && s.locks[k] != t
  {
  }
}
