/** Replacing and removing profile photos: a file store and a database row without a common transaction. */
module Avatar {
  import opened Locks
  import opened Options

  type Id = nat
  type File = nat

  /** A file of this store, or an address that the store does not own and never removes. */
  datatype Url = Stored(file: File) | Foreign

  datatype Kind = Upload | Delete

  /** `RowLocked`: inside the transaction. `Replaced`: committed, the previous file still to go. `Failing`: the new file still to go. */
  datatype Phase = Arrived | Written | RowLocked | Replaced | Failing | Ended

  datatype Request = Request(kind: Kind, employee: Id, phase: Phase, newFile: Option<File>, previous: Option<Url>)

  datatype Cause = Crashed | RemovalFailed | WriteFailed | Earlier

  /**
    `urls` is the committed column, `names` every file name ever used, `lost` the files nobody will remove
    and why, `handed` the files of the previous addresses in the order in which they were handed to a request.
   */
  datatype State = State(
    files: set<File>,
    names: set<File>,
    urls: map<Id, Option<Url>>,
    locks: map<Id, Id>,
    requests: map<Id, Request>,
    lost: map<File, Cause>,
    handed: seq<File>
  )

  datatype Step =
    | Arrive(r: Id, kind: Kind, employee: Id)
    | Write(r: Id, file: File)
    | FailWrite(r: Id, left: Option<File>)
    | LockRow(r: Id)
    | Commit(r: Id)
    | Throw(r: Id)
    | RemovePrevious(r: Id, ok: bool)
    | RemoveNew(r: Id, ok: bool)
    | Crash(r: Id)

  predicate At(s: State, r: Id, phase: Phase) {
    r in s.requests && s.requests[r].phase == phase
  }

  predicate Enabled(s: State, step: Step) {
    match step
    case Arrive(r, _, _) => r !in s.requests
    case Write(r, f) => At(s, r, Arrived) && s.requests[r].kind == Upload && f !in s.names
    case FailWrite(r, left) =>
      At(s, r, Arrived) && s.requests[r].kind == Upload && (left.Some? ==> left.value !in s.names)
    case LockRow(r) =>
      && (At(s, r, Written) || (At(s, r, Arrived) && s.requests[r].kind == Delete))
      && s.requests[r].employee in s.urls && s.requests[r].employee !in s.locks
    case Commit(r) => At(s, r, RowLocked)
    case Throw(r) => At(s, r, RowLocked) || At(s, r, Written) || At(s, r, Arrived)
    case RemovePrevious(r, _) => At(s, r, Replaced)
    case RemoveNew(r, _) => At(s, r, Failing)
    case Crash(r) => r in s.requests && s.requests[r].phase != Ended
  }

  function FileOf(url: Option<Url>): Option<File> {
    if url.Some? && url.value.Stored? then Some(url.value.file) else None
  }

  /** The file that the request still answers for. */
  function Held(q: Request): Option<File> {
    match q.phase
    case Written | RowLocked | Failing => q.newFile
    case Replaced => FileOf(q.previous)
    case Arrived | Ended => None
  }

  function With(s: State, r: Id, q: Request): State {
    s.(requests := s.requests[r := q])
  }

  /** `remove(url)`: it may fail, and then the file stays without an owner. */
  function Removed(s: State, file: Option<File>, ok: bool): State {
    if file.None? then s
    else if ok then s.(files := s.files - {file.value})
    else s.(lost := s.lost[file.value := RemovalFailed])
  }

  function Committed(s: State, r: Id): State
    requires At(s, r, RowLocked)
  {
    var q := s.requests[r];
    var url := if q.kind == Upload && q.newFile.Some? then Some(Stored(q.newFile.value)) else None;
    var previous := FileOf(q.previous);
    With(s, r, q.(phase := Replaced)).(
      urls := s.urls[q.employee := url],
      locks := Released(s.locks, r),
      handed := s.handed + if previous.Some? then [previous.value] else [])
  }

  function Apply(s: State, step: Step): State
    requires Enabled(s, step)
  {
    match step
    case Arrive(r, kind, e) => With(s, r, Request(kind, e, Arrived, None, None))
    case Write(r, f) =>
      With(s, r, s.requests[r].(phase := Written, newFile := Some(f))).(files := s.files + {f}, names := s.names + {f})
    case FailWrite(r, left) =>
      var s' := With(s, r, s.requests[r].(phase := Ended));
      if left.None? then s'
      else s'.(files := s.files + {left.value}, names := s.names + {left.value}, lost := s.lost[left.value := WriteFailed])
    case LockRow(r) =>
      var q := s.requests[r];
      With(s, r, q.(phase := RowLocked, previous := s.urls[q.employee])).(locks := s.locks[q.employee := r])
    case Commit(r) => Committed(s, r)
    case Throw(r) =>
      var q := s.requests[r];
      With(s, r, q.(phase := if q.newFile.Some? then Failing else Ended)).(locks := Released(s.locks, r))
    case RemovePrevious(r, ok) =>
      Removed(With(s, r, s.requests[r].(phase := Ended)), FileOf(s.requests[r].previous), ok)
    case RemoveNew(r, ok) =>
      Removed(With(s, r, s.requests[r].(phase := Ended)), s.requests[r].newFile, ok)
    case Crash(r) =>
      var held := Held(s.requests[r]);
      With(s, r, s.requests[r].(phase := Ended)).(
        locks := Released(s.locks, r),
        lost := if held.Some? then s.lost[held.value := Crashed] else s.lost)
  }

  predicate Refers(s: State, e: Id, f: File) {
    e in s.urls && s.urls[e] == Some(Stored(f))
  }

  predicate Holds(s: State, r: Id, f: File) {
    r in s.requests && Held(s.requests[r]) == Some(f)
  }

  /** A file has exactly one owner: an employee's address, an unfinished request, or nobody any more. */
  ghost predicate OneOwner(s: State) {
    && (forall e, f :: Refers(s, e, f) ==> f in s.files && f !in s.lost)
    && (forall r, f :: Holds(s, r, f) ==> f in s.files && f !in s.lost)
    && (forall f <- s.lost :: f in s.files)
    && (forall e, d, f :: Refers(s, e, f) && Refers(s, d, f) ==> e == d)
    && (forall r, q, f :: Holds(s, r, f) && Holds(s, q, f) ==> r == q)
    && (forall e, r, f :: Refers(s, e, f) && Holds(s, r, f) ==> false)
  }

  ghost predicate AllOwned(s: State) {
    forall f <- s.files :: (exists e :: Refers(s, e, f)) || (exists r :: Holds(s, r, f)) || f in s.lost
  }

  /** A request inside its transaction knows the committed address. */
  ghost predicate InTransaction(s: State) {
    && s.files <= s.names
    && (forall r <- s.requests :: RequestOk(s, s.requests[r], r))
  }

  ghost predicate RequestOk(s: State, q: Request, r: Id) {
    && (q.phase == RowLocked ==>
          q.employee in s.locks && s.locks[q.employee] == r && q.employee in s.urls && q.previous == s.urls[q.employee])
    && (q.kind == Upload && q.phase in {Written, RowLocked, Failing} ==> q.newFile.Some?)
    && (q.kind == Delete || q.phase == Arrived ==> q.newFile.None?)
  }

  /** A file handed to a request for removal is never referred to again. */
  ghost predicate HandedOnce(s: State) {
    && (forall i, j :: 0 <= i < j < |s.handed| ==> s.handed[i] != s.handed[j])
    && (forall f <- s.handed :: f in s.names && forall e :: !Refers(s, e, f))
    && (forall r, f :: Holds(s, r, f) && f in s.handed ==> s.requests[r].phase == Replaced)
  }

  ghost predicate Inv(s: State) {
    OneOwner(s) && AllOwned(s) && InTransaction(s) && HandedOnce(s)
  }

  /** Nothing runs; no two employees share a file; files without a reference are left-overs of before. */
  ghost predicate Init(s: State) {
    && s.requests == map[] && s.locks == map[] && s.handed == [] && s.files == s.names
    && (forall e, f :: Refers(s, e, f) ==> f in s.files)
    && (forall e, d, f :: Refers(s, e, f) && Refers(s, d, f) ==> e == d)
    && (forall f :: f in s.lost <==> f in s.files && forall e :: !Refers(s, e, f))
  }

  lemma StepKeepsNames(s: State, step: Step)
    requires s.files <= s.names && (forall r, f :: Holds(s, r, f) ==> f in s.files) && Enabled(s, step)
    ensures Apply(s, step).files <= Apply(s, step).names
  {
  }

  lemma StepKeepsOther(s: State, step: Step, r: Id)
    requires Enabled(s, step) && r in s.requests && r != step.r && RequestOk(s, s.requests[r], r)
    requires step.r in s.requests ==> RequestOk(s, s.requests[step.r], step.r)
    ensures r in Apply(s, step).requests && RequestOk(Apply(s, step), Apply(s, step).requests[r], r)
  {
    var s' := Apply(s, step);
    assert s'.requests[r] == s.requests[r];
    assert forall e: Id :: e in s.locks && s.locks[e] == r ==> e in s'.locks && s'.locks[e] == r;
  }

  lemma StepKeepsOwn(s: State, step: Step)
    requires Enabled(s, step) && step.r in s.requests && RequestOk(s, s.requests[step.r], step.r)
    ensures step.r in Apply(s, step).requests && RequestOk(Apply(s, step), Apply(s, step).requests[step.r], step.r)
  {
  }

  lemma StepKeepsRequest(s: State, step: Step, r: Id)
    requires Enabled(s, step) && r in s.requests && RequestOk(s, s.requests[r], r)
    requires step.r in s.requests ==> RequestOk(s, s.requests[step.r], step.r)
    ensures r in Apply(s, step).requests && RequestOk(Apply(s, step), Apply(s, step).requests[r], r)
  {
    hide Enabled, Apply, RequestOk;
    if r == step.r {
      StepKeepsOwn(s, step);
    } else {
      StepKeepsOther(s, step, r);
    }
  }

  lemma StepKeepsRequests(s: State, step: Step)
    requires InTransaction(s) && OneOwner(s) && Enabled(s, step)
    ensures InTransaction(Apply(s, step))
  {
    var s' := Apply(s, step);
    StepKeepsNames(s, step);
    assert step.Arrive? ==> RequestOk(s', s'.requests[step.r], step.r);
    hide OneOwner, Refers, Holds, RequestOk;
    forall r <- s'.requests ensures RequestOk(s', s'.requests[r], r) {
      if r in s.requests {
        StepKeepsRequest(s, step, r);
      }
    }
  }

  /** A commit hands the reference from the previous file to the new one, and the previous file to the request. */
  lemma CommitMovesOwners(s: State, r: Id)
    requires Inv(s) && Enabled(s, Commit(r))
    ensures var (q, s') := (s.requests[r], Committed(s, r));
      && (forall e: Id, f: File :: Refers(s', e, f) <==>
            if e == q.employee then q.kind == Upload && q.newFile == Some(f) else Refers(s, e, f))
      && (forall p: Id, f: File :: Holds(s', p, f) <==> if p == r then Refers(s, q.employee, f) else Holds(s, p, f))
  {
    assert RequestOk(s, s.requests[r], r);
  }

  lemma CommitKeepsOwners(s: State, r: Id)
    requires Inv(s) && Enabled(s, Commit(r))
    ensures OneOwner(Committed(s, r)) && AllOwned(Committed(s, r))
  {
    var (q, s') := (s.requests[r], Committed(s, r));
    CommitMovesOwners(s, r);
    assert RequestOk(s, q, r);
    assert forall f :: q.newFile == Some(f) ==> Holds(s, r, f);
    hide Refers, Holds, RequestOk;
    forall f <- s'.files ensures (exists e :: Refers(s', e, f)) || (exists p :: Holds(s', p, f)) || f in s'.lost {
      if e :| Refers(s, e, f) {
        assert Refers(s', e, f) || Holds(s', r, f);
      } else if p :| Holds(s, p, f) {
        assert Holds(s', p, f) || Refers(s', q.employee, f);
      }
    }
  }

  lemma CommitKeepsHanded(s: State, r: Id)
    requires Inv(s) && Enabled(s, Commit(r))
    ensures HandedOnce(Committed(s, r))
  {
    var (q, s') := (s.requests[r], Committed(s, r));
    CommitMovesOwners(s, r);
    assert RequestOk(s, q, r);
    assert forall f :: q.newFile == Some(f) ==> Holds(s, r, f);
    assert forall f :: FileOf(q.previous) == Some(f) ==> Refers(s, q.employee, f);
    assert forall p :: p in s.requests && p != r ==> s'.requests[p] == s.requests[p];
    hide Refers, Holds, RequestOk, AllOwned;
    assert forall f <- s'.handed :: f in s.handed || Refers(s, q.employee, f);
  }

  /** Every other step leaves the references alone. */
  lemma OthersKeepReferences(s: State, step: Step)
    requires Enabled(s, step) && !step.Commit?
    ensures Apply(s, step).urls == s.urls && Apply(s, step).handed == s.handed
  {
  }

  lemma OthersMoveHolders(s: State, step: Step)
    requires InTransaction(s) && Enabled(s, step) && !step.Commit?
    ensures var s' := Apply(s, step);
      forall p: Id, f: File :: Holds(s', p, f) <==>
        if p == step.r && !step.LockRow? && !step.Throw? then step == Write(p, f) else Holds(s, p, f)
  {
    if step.r in s.requests {
      assert RequestOk(s, s.requests[step.r], step.r);
    }
  }

  /** What becomes of the files: new ones get an owner, dropped ones had the request as theirs. */
  lemma OthersMoveFiles(s: State, step: Step)
    requires Inv(s) && Enabled(s, step) && !step.Commit?
    ensures var s' := Apply(s, step);
      && (forall f <- s'.files :: f in s.files || (f !in s.files && (Holds(s', step.r, f) || f in s'.lost)))
      && (forall f <- s.files :: f in s'.files || Holds(s, step.r, f))
      && (forall f <- s'.lost :: f in s'.files && (f in s.lost || Holds(s, step.r, f) || f !in s.files))
      && (forall f <- s.lost :: f in s'.lost)
      && (forall f: File :: Holds(s, step.r, f) && f in s'.files ==> Holds(s', step.r, f) != (f in s'.lost))
      && (forall f: File :: step == Write(step.r, f) ==> f in s'.files && f !in s.files && f !in s'.lost)
  {
    hide AllOwned, HandedOnce, Refers, RequestOk;
    assert step.r in s.requests ==> RequestOk(s, s.requests[step.r], step.r);
    if step.r in s.requests && (step.RemoveNew? || step.Throw?) {
      PhaseHoldsNew(s, step.r);
    }
    assert step.r in s.requests && Held(s.requests[step.r]).Some? ==>
      Holds(s, step.r, Held(s.requests[step.r]).value) && Held(s.requests[step.r]).value !in s.lost;
  }

  lemma PhaseHoldsNew(s: State, r: Id)
    requires r in s.requests && RequestOk(s, s.requests[r], r) && s.requests[r].phase != Replaced && s.requests[r].phase != Ended
    ensures Held(s.requests[r]) == s.requests[r].newFile
  {
  }

  lemma OthersKeepOneOwner(s: State, step: Step)
    requires Inv(s) && Enabled(s, step) && !step.Commit?
    ensures OneOwner(Apply(s, step))
  {
    var s' := Apply(s, step);
    OthersMoveHolders(s, step);
    OthersMoveFiles(s, step);
    OthersKeepReferences(s, step);
    assert forall e, f :: Refers(s', e, f) <==> Refers(s, e, f);
    hide Refers, Holds, AllOwned, HandedOnce, InTransaction, Enabled, Apply;
    assert forall e, f :: Refers(s', e, f) ==> f in s'.files && f !in s'.lost;
    assert forall r, f :: Holds(s', r, f) ==> f in s'.files && f !in s'.lost;
  }

  lemma OthersKeepAllOwned(s: State, step: Step)
    requires Inv(s) && Enabled(s, step) && !step.Commit?
    ensures AllOwned(Apply(s, step))
  {
    var s' := Apply(s, step);
    OthersMoveHolders(s, step);
    OthersMoveFiles(s, step);
    OthersKeepReferences(s, step);
    assert forall e, f :: Refers(s', e, f) <==> Refers(s, e, f);
    hide Refers, Holds, OneOwner, HandedOnce, InTransaction, Enabled, Apply;
    forall f <- s'.files ensures (exists e :: Refers(s', e, f)) || (exists p :: Holds(s', p, f)) || f in s'.lost {
      if f in s.files {
        if e :| Refers(s, e, f) {
          assert Refers(s', e, f);
        } else if p :| Holds(s, p, f) {
          assert Holds(s', p, f) || p == step.r;
        }
      }
    }
  }

  lemma OthersKeepHanded(s: State, step: Step)
    requires Inv(s) && Enabled(s, step) && !step.Commit?
    ensures HandedOnce(Apply(s, step))
  {
    var s' := Apply(s, step);
    OthersMoveHolders(s, step);
    OthersKeepReferences(s, step);
    assert forall e, f :: Refers(s', e, f) <==> Refers(s, e, f);
    hide Refers, Holds, OneOwner, AllOwned;
  }

  lemma StepKeeps(s: State, step: Step)
    requires Inv(s) && Enabled(s, step)
    ensures Inv(Apply(s, step))
  {
    StepKeepsRequests(s, step);
    hide OneOwner, AllOwned, InTransaction, HandedOnce;
    if step.Commit? {
      CommitKeepsOwners(s, step.r);
      CommitKeepsHanded(s, step.r);
    } else {
      OthersKeepOneOwner(s, step);
      OthersKeepAllOwned(s, step);
      OthersKeepHanded(s, step);
    }
  }

  ghost predicate Run(states: seq<State>, steps: seq<Step>) {
    && |states| == |steps| + 1 && Init(states[0])
    && forall i :: 0 <= i < |steps| ==> Enabled(states[i], steps[i]) && states[i + 1] == Apply(states[i], steps[i])
  }

  lemma StartsOwned(s: State)
    requires Init(s)
    ensures Inv(s)
  {
  }

  lemma {:induction false} RunKeeps(states: seq<State>, steps: seq<Step>, n: nat)
    requires Run(states, steps) && n <= |steps|
    ensures Inv(states[n])
  {
    hide Inv, Init, Enabled, Apply;
    if n == 0 {
      StartsOwned(states[0]);
    } else {
      RunKeeps(states, steps, n - 1);
      StepKeeps(states[n - 1], steps[n - 1]);
    }
  }

  /** At every moment of every run, crashes included, an address of this store names an existing file. */
  lemma AddressNamesFile(states: seq<State>, steps: seq<Step>, n: nat, e: Id, f: File)
    requires Run(states, steps) && n <= |steps| && Refers(states[n], e, f)
    ensures f in states[n].files
  {
    RunKeeps(states, steps, n);
  }

  /** Every stored file is referred to, in the hands of one unfinished request, or lost to a crash or a failure. */
  lemma FilesAreAccountedFor(states: seq<State>, steps: seq<Step>, n: nat, f: File)
    requires Run(states, steps) && n <= |steps| && f in states[n].files
    ensures (exists e :: Refers(states[n], e, f)) || (exists r :: Holds(states[n], r, f)) || f in states[n].lost
    ensures f in states[n].lost ==> !(exists e :: Refers(states[n], e, f)) && !(exists r :: Holds(states[n], r, f))
  {
    RunKeeps(states, steps, n);
  }

  /** No previous file is handed to two requests. */
  lemma PreviousHandedOnce(states: seq<State>, steps: seq<Step>, n: nat, i: nat, j: nat)
    requires Run(states, steps) && n <= |steps| && i < j < |states[n].handed|
    ensures states[n].handed[i] != states[n].handed[j]
  {
    RunKeeps(states, steps, n);
  }

  /** Without crashes and failures, the store holds exactly the referred files once no request is under way. */
  lemma QuietStoreHasNoWaste(states: seq<State>, steps: seq<Step>, f: File)
    requires Run(states, steps)
    requires var s := states[|steps|]; s.lost == map[] && forall r <- s.requests :: s.requests[r].phase == Ended
    ensures f in states[|steps|].files <==> exists e :: Refers(states[|steps|], e, f)
  {
    RunKeeps(states, steps, |steps|);
  }
}
