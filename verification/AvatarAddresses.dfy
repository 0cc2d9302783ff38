/** Which address an employee ends up with, and what one undisturbed request does. */
module AvatarAddresses {
  import opened Avatar
  import opened Options

  /** The step commits a request for this employee. */
  predicate CommitsFor(s: State, step: Step, e: Id) {
    step.Commit? && step.r in s.requests && s.requests[step.r].employee == e
  }

  ghost predicate NoCommitBetween(states: seq<State>, steps: seq<Step>, m: nat, n: nat, e: Id)
    requires |states| == |steps| + 1 && n <= |steps|
  {
    forall k :: m <= k < n ==> !CommitsFor(states[k], steps[k], e)
  }

  lemma StepKeepsAddress(s: State, step: Step, e: Id)
    requires Enabled(s, step) && !CommitsFor(s, step, e)
    ensures var s' := Apply(s, step);
      (e in s'.urls <==> e in s.urls) && (e in s.urls ==> s'.urls[e] == s.urls[e])
  {
  }

  /** Nothing but the commit of a request for the employee changes the address. */
  lemma {:induction false} AddressStays(states: seq<State>, steps: seq<Step>, m: nat, n: nat, e: Id)
    requires Run(states, steps) && m <= n <= |steps| && NoCommitBetween(states, steps, m, n, e)
    ensures e in states[n].urls <==> e in states[m].urls
    ensures e in states[m].urls ==> states[n].urls[e] == states[m].urls[e]
    decreases n
  {
    hide Enabled, Apply, CommitsFor, Init;
    if m < n {
      AddressStays(states, steps, m, n - 1, e);
      StepKeepsAddress(states[n - 1], steps[n - 1], e);
    }
  }

  /** The request arrived as what it is, and its new file, if it has one, is the one it wrote. */
  ghost predicate ComesFrom(s: State, before: seq<Step>, r: Id) {
    r in s.requests ==>
      var q := s.requests[r];
      Arrive(r, q.kind, q.employee) in before && (q.newFile.Some? ==> Write(r, q.newFile.value) in before)
  }

  lemma StepComesFrom(s: State, before: seq<Step>, step: Step, r: Id)
    requires Enabled(s, step) && ComesFrom(s, before, r)
    ensures ComesFrom(Apply(s, step), before + [step], r)
  {
    assert forall x: Step :: x in before ==> x in before + [step];
    assert step in before + [step];
  }

  lemma {:induction false} RequestsComeFrom(states: seq<State>, steps: seq<Step>, n: nat, r: Id)
    requires Run(states, steps) && n <= |steps|
    ensures ComesFrom(states[n], steps[..n], r)
  {
    hide Enabled, Apply, ComesFrom;
    if n == 0 {
      NobodyYet(states[0], r);
    } else {
      RequestsComeFrom(states, steps, n - 1, r);
      StepComesFrom(states[n - 1], steps[..n - 1], steps[n - 1], r);
      assert steps[..n] == steps[..n - 1] + [steps[n - 1]];
    }
  }

  lemma NobodyYet(s: State, r: Id)
    requires Init(s)
    ensures ComesFrom(s, [], r)
  {
  }

  lemma CommitSetsAddress(s: State, r: Id)
    requires Inv(s) && Enabled(s, Commit(r))
    ensures var (q, s') := (s.requests[r], Apply(s, Commit(r)));
      && q.employee in s'.urls && (q.kind == Upload ==> q.newFile.Some?)
      && s'.urls[q.employee] == (if q.kind == Upload then Some(Stored(q.newFile.value)) else None)
  {
    assert RequestOk(s, s.requests[r], r);
  }

  /**
    In every run the request that committed last for an employee decides: an upload leaves the address of the file that
    it wrote, a delete leaves none.
   */
  lemma LastCommitDecides(states: seq<State>, steps: seq<Step>, m: nat, n: nat, r: Id)
    requires Run(states, steps) && m < n <= |steps| && steps[m] == Commit(r) && r in states[m].requests
    requires NoCommitBetween(states, steps, m + 1, n, states[m].requests[r].employee)
    ensures var (kind, e) := (states[m].requests[r].kind, states[m].requests[r].employee);
      && Arrive(r, kind, e) in steps[..m] && e in states[n].urls
      && match kind
         case Upload => exists f :: Write(r, f) in steps[..m] && states[n].urls[e] == Some(Stored(f))
         case Delete => states[n].urls[e] == None
  {
    hide Enabled, Apply, Inv, Init, CommitsFor, NoCommitBetween;
    var e := states[m].requests[r].employee;
    RunKeeps(states, steps, m);
    RequestsComeFrom(states, steps, m, r);
    CommitSetsAddress(states[m], r);
    AddressStays(states, steps, m + 1, n, e);
  }

  // One request alone.

  ghost predicate Performs(s: State, steps: seq<Step>, s': State)
    decreases |steps|
  {
    if steps == [] then s' == s else Enabled(s, steps[0]) && Performs(Apply(s, steps[0]), steps[1..], s')
  }

  lemma OneMoreStep(s: State, steps: seq<Step>, s': State)
    requires steps != [] && Enabled(s, steps[0]) && Performs(Apply(s, steps[0]), steps[1..], s')
    ensures Performs(s, steps, s')
  {
  }

  function Ending(r: Id): seq<Step> {
    [LockRow(r), Commit(r), RemovePrevious(r, true)]
  }

  lemma LockingReads(s: State, r: Id)
    requires Inv(s) && Enabled(s, LockRow(r))
    ensures var (q, a) := (s.requests[r], Apply(s, LockRow(r)));
      && (q.kind == Upload ==> q.newFile.Some?)
      && a == s.(requests := a.requests, locks := s.locks[q.employee := r]) && r in a.requests
      && a.requests[r] == q.(phase := RowLocked, previous := s.urls[q.employee])
  {
    assert RequestOk(s, s.requests[r], r);
  }

  /** The locks of other requests are still there. */
  ghost predicate OthersKeepLocks(s: State, s': State, r: Id) {
    forall d <- s.locks :: s.locks[d] != r ==> d in s'.locks && s'.locks[d] == s.locks[d]
  }

  lemma CommittingReleases(a: State, r: Id)
    requires Enabled(a, Commit(r)) && r in a.requests
    ensures var (q, b) := (a.requests[r], Apply(a, Commit(r)));
      && b == a.(requests := b.requests, locks := b.locks, handed := b.handed,
                 urls := a.urls[q.employee := if q.kind == Upload && q.newFile.Some? then Some(Stored(q.newFile.value)) else None])
      && r in b.requests && b.requests[r] == q.(phase := Replaced)
      && (forall d :: d in b.locks ==> b.locks[d] != r)
      && OthersKeepLocks(a, b, r)
  {
  }

  lemma RequestEnds(s: State, r: Id) returns (s': State)
    requires Inv(s) && Enabled(s, LockRow(r))
    ensures Performs(s, Ending(r), s')
    ensures var q := s.requests[r];
      && (q.kind == Upload ==> q.newFile.Some?)
      && s'.urls == s.urls[q.employee := if q.kind == Upload then Some(Stored(q.newFile.value)) else None]
      && s'.files == s.files - (set f | Refers(s, q.employee, f) && f in s.files)
      && s'.lost == s.lost && q.employee !in s'.locks && OthersKeepLocks(s, s', r)
  {
    var steps := Ending(r);
    LockingReads(s, r);
    var a := Apply(s, LockRow(r));
    CommittingReleases(a, r);
    var b := Apply(a, Commit(r));
    s' := Apply(b, RemovePrevious(r, true));
    hide Inv, Committed;
    LastStep(b, RemovePrevious(r, true));
    assert steps[1..] == [Commit(r), RemovePrevious(r, true)] && steps[1..][1..] == [RemovePrevious(r, true)];
    OneMoreStep(a, steps[1..], s');
    OneMoreStep(s, steps, s');
  }

  lemma LastStep(s: State, step: Step)
    requires Enabled(s, step)
    ensures Performs(s, [step], Apply(s, step))
  {
    assert [step][1..] == [];
  }

  /**
    Where nobody holds the employee's row an upload can run to its end, whatever other requests are under way: the address
    names the new file, the previous file of the store is gone, and no other file or address is touched.
   */
  lemma UploadReplaces(s: State, r: Id, e: Id, f: File) returns (s': State)
    requires Inv(s) && r !in s.requests && e in s.urls && e !in s.locks && f !in s.names
    ensures Performs(s, [Arrive(r, Upload, e), Write(r, f)] + Ending(r), s')
    ensures s'.urls == s.urls[e := Some(Stored(f))]
    ensures s'.files == s.files - (set g | Refers(s, e, g) && g in s.files) + {f}
    ensures s'.lost == s.lost && e !in s'.locks && OthersKeepLocks(s, s', r)
  {
    hide Inv, Performs;
    var steps := [Arrive(r, Upload, e), Write(r, f)] + Ending(r);
    StepKeeps(s, steps[0]);
    var a := Apply(s, steps[0]);
    StepKeeps(a, steps[1]);
    var b := Apply(a, steps[1]);
    s' := RequestEnds(b, r);
    assert steps[1..][1..] == Ending(r);
    assert steps[1..][0] == Write(r, f);
    OneMoreStep(a, steps[1..], s');
    OneMoreStep(s, steps, s');
    NamesCover(s);
    assert forall g :: Refers(b, e, g) <==> Refers(s, e, g);
  }

  lemma NamesCover(s: State)
    requires Inv(s)
    ensures s.files <= s.names && forall e, f :: Refers(s, e, f) ==> f in s.files
  {
  }

  /** In the same way a delete leaves no address and removes the file. */
  lemma DeleteClears(s: State, r: Id, e: Id) returns (s': State)
    requires Inv(s) && r !in s.requests && e in s.urls && e !in s.locks
    ensures Performs(s, [Arrive(r, Delete, e)] + Ending(r), s')
    ensures s'.urls == s.urls[e := None]
    ensures s'.files == s.files - (set g | Refers(s, e, g) && g in s.files)
    ensures s'.lost == s.lost && e !in s'.locks && OthersKeepLocks(s, s', r)
  {
    hide Inv, Performs;
    var steps := [Arrive(r, Delete, e)] + Ending(r);
    StepKeeps(s, steps[0]);
    var a := Apply(s, steps[0]);
    s' := RequestEnds(a, r);
    assert steps[1..] == Ending(r);
    OneMoreStep(s, steps, s');
    assert forall g :: Refers(a, e, g) <==> Refers(s, e, g);
  }

  // Failures.

  /**
    Every unfinished request may crash, one before its commit may throw, a write may fail and leave a part of a file or
    none, and so may a removal.
   */
  lemma FailsAnytime(s: State, r: Id, f: File)
    requires r in s.requests && s.requests[r].phase != Ended
    ensures var phase := s.requests[r].phase;
      && Enabled(s, Crash(r)) && Apply(s, Crash(r)).requests[r].phase == Ended
      && (phase in {Arrived, Written, RowLocked} ==> Enabled(s, Throw(r)))
      && (phase == Arrived && s.requests[r].kind == Upload ==>
            Enabled(s, FailWrite(r, None)) && (f !in s.names ==> Enabled(s, FailWrite(r, Some(f)))))
      && (phase == Replaced ==> Enabled(s, RemovePrevious(r, true)) && Enabled(s, RemovePrevious(r, false)))
      && (phase == Failing ==> Enabled(s, RemoveNew(r, true)) && Enabled(s, RemoveNew(r, false)))
  {
  }

  /** An upload that throws behind its write frees the row and then removes the file it wrote; no address changes. */
  lemma ThrownUploadCleansUp(s: State, r: Id) returns (s': State)
    requires Inv(s) && (At(s, r, Written) || At(s, r, RowLocked)) && s.requests[r].kind == Upload
    ensures Performs(s, [Throw(r), RemoveNew(r, true)], s')
    ensures s.requests[r].newFile.Some? && s'.files == s.files - {s.requests[r].newFile.value}
    ensures s'.urls == s.urls && s'.lost == s.lost && forall d <- s'.locks :: s'.locks[d] != r
  {
    assert RequestOk(s, s.requests[r], r);
    hide Inv;
    var thrown := Apply(s, Throw(r));
    s' := Apply(thrown, RemoveNew(r, true));
    LastStep(thrown, RemoveNew(r, true));
    assert [Throw(r), RemoveNew(r, true)][1..] == [RemoveNew(r, true)];
  }
}
