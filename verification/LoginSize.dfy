/** How large the limiter's store gets when logins overlap. */
module LoginSize {
  import opened LoginLimiter

  /** The limiter and the keys of the logins that were admitted and have not ended. */
  datatype Logins = Logins(limiter: Limiter, inFlight: map<nat, seq<string>>)

  /**
    What a login does to the limiter, at one go each: its two checks, and later any failures and clears. A passkey
    login may clear its keys and then fail, and a login that is given up does neither.
   */
  datatype Step =
    | Arrive(id: nat, check0: nat, check1: nat, email: string, ip: string)
    | Fail(id: nat, fail0: nat, fail1: nat)
    | Clear(id: nat)
    | End(id: nat)

  const START := Logins(EMPTY, map[])

  predicate WellKeyed(w: Logins) {
    forall id <- w.inFlight :: |w.inFlight[id]| == 2
  }

  predicate Enabled(w: Logins, step: Step) {
    WellKeyed(w) && if step.Arrive? then step.id !in w.inFlight else step.id in w.inFlight
  }

  function Apply(w: Logins, step: Step): (w': Logins)
    requires Enabled(w, step)
    ensures WellKeyed(w')
  {
    match step
    case Arrive(id, check0, check1, email, ip) =>
      var keys := LoginKeys(email, ip);
      var (checked, answer) := CheckAll(w.limiter, [check0, check1], keys);
      Logins(checked, if answer.Locked? then w.inFlight else w.inFlight[id := keys])
    case Fail(id, fail0, fail1) => w.(limiter := FailAll(w.limiter, [fail0, fail1], w.inFlight[id]))
    case Clear(id) => w.(limiter := ClearAll(w.limiter, w.inFlight[id]))
    case End(id) => w.(inFlight := w.inFlight - {id})
  }

  /** A login in flight may fail, clear its keys or end at any moment, and a new one may arrive. */
  lemma AnythingMayHappen(w: Logins, id: nat, t0: nat, t1: nat, email: string, ip: string)
    requires WellKeyed(w)
    ensures id in w.inFlight ==> Enabled(w, Fail(id, t0, t1)) && Enabled(w, Clear(id)) && Enabled(w, End(id))
    ensures id !in w.inFlight ==> Enabled(w, Arrive(id, t0, t1, email, ip))
    ensures id in w.inFlight ==> Apply(w, End(id)) == w.(inFlight := w.inFlight - {id})
  {
  }

  /** A run in which no more than `most` logins are ever in flight. */
  ghost predicate Legal(steps: seq<Step>, most: nat)
    decreases |steps|, 0
  {
    steps == [] ||
    var (before, last) := (steps[..|steps| - 1], steps[|steps| - 1]);
    Legal(before, most) && Enabled(Run(before, most), last) && |Apply(Run(before, most), last).inFlight| <= most
  }

  ghost function Run(steps: seq<Step>, most: nat): Logins
    requires Legal(steps, most)
    decreases |steps|, 1
  {
    if steps == [] then START else Apply(Run(steps[..|steps| - 1], most), steps[|steps| - 1])
  }

  /** Unfolds the two checks, the two records and the two clears of a login. */
  lemma BothKeys(l: Limiter, t0: nat, t1: nat, keys: seq<string>)
    requires |keys| == 2
    ensures CheckAll(l, [t0, t1], keys) ==
      if CheckAnswer(l, t0, keys[0]).Locked? then (AfterCheck(l, t0, keys[0]), CheckAnswer(l, t0, keys[0]))
      else
        var l1 := AfterCheck(l, t0, keys[0]);
        (AfterCheck(l1, t1, keys[1]), CheckAnswer(l1, t1, keys[1]))
    ensures FailAll(l, [t0, t1], keys) == AfterFailure(AfterFailure(l, t0, keys[0]), t1, keys[1])
    ensures ClearAll(l, keys) == AfterClear(AfterClear(l, keys[0]), keys[1])
  {
    assert keys[1..] == [keys[1]] && [keys[1]][1..] == [];
    assert [t0, t1][1..] == [t1] && [t1][1..] == [];
    var l1 := AfterCheck(l, t0, keys[0]);
    assert CheckAll(l1, [t1], [keys[1]]) == (AfterCheck(l1, t1, keys[1]), CheckAnswer(l1, t1, keys[1]));
    var f1 := AfterFailure(l, t0, keys[0]);
    assert FailAll(f1, [t1], [keys[1]]) == AfterFailure(f1, t1, keys[1]);
    var c1 := AfterClear(l, keys[0]);
    assert ClearAll(c1, [keys[1]]) == AfterClear(c1, keys[1]);
  }

  lemma SubsetSize<T>(a: set<T>, b: set<T>)
    requires a <= b
    ensures |a| <= |b| && (a != b ==> |a| < |b|)
  {
    assert a + (b - a) == b;
  }

  lemma UnionSize<T>(a: set<T>, b: set<T>)
    ensures |a + b| <= |a| + |b|
  {
    assert a + b == a + (b - a);
    SubsetSize(b - a, b);
  }

  /** The keys that the logins in flight may still add. */
  function OpenKeys(inFlight: map<nat, seq<string>>): set<string> {
    set id, i | id in inFlight && 0 <= i < |inFlight[id]| :: inFlight[id][i]
  }

  lemma OneMoreOpen(inFlight: map<nat, seq<string>>, id: nat, keys: seq<string>)
    requires id !in inFlight && |keys| == 2
    ensures OpenKeys(inFlight[id := keys]) == OpenKeys(inFlight) + {keys[0], keys[1]}
  {
    var after := inFlight[id := keys];
    forall k ensures k in OpenKeys(after) <==> k in OpenKeys(inFlight) + {keys[0], keys[1]} {
      if k in OpenKeys(inFlight) {
        var d, i :| d in inFlight && 0 <= i < |inFlight[d]| && inFlight[d][i] == k;
        assert after[d][i] == k;
      }
      assert after[id][0] == keys[0] && after[id][1] == keys[1];
    }
  }

  lemma {:induction false} OpenKeysSize(inFlight: map<nat, seq<string>>)
    requires forall id <- inFlight :: |inFlight[id]| == 2
    ensures |OpenKeys(inFlight)| <= 2 * |inFlight|
    decreases |inFlight|
  {
    if inFlight == map[] {
      assert OpenKeys(inFlight) == {};
    } else {
      hide OpenKeys;
      var id :| id in inFlight;
      var (rest, keys) := (inFlight - {id}, inFlight[id]);
      assert rest.Keys == inFlight.Keys - {id} && rest[id := keys] == inFlight;
      OpenKeysSize(rest);
      OneMoreOpen(rest, id, keys);
      UnionSize(OpenKeys(rest), {keys[0], keys[1]});
    }
  }

  /** Every key that the store has or may get without a new admission. */
  function Reach(w: Logins): set<string> {
    w.limiter.store.Keys + OpenKeys(w.inFlight)
  }

  lemma CheckShrinks(l: Limiter, now: nat, key: string)
    ensures AfterCheck(l, now, key).store.Keys <= Swept(l, now).store.Keys <= l.store.Keys
    ensures CheckAnswer(l, now, key) == Allowed && key !in Swept(l, now).store ==> |Swept(l, now).store| < CAPACITY
  {
  }

  /** Whoever is admitted with a key that is not stored is admitted below capacity. */
  lemma AdmittedBelowCapacity(l: Limiter, t0: nat, t1: nat, keys: seq<string>)
    requires |keys| == 2 && CheckAll(l, [t0, t1], keys).1 == Allowed
    ensures var after := CheckAll(l, [t0, t1], keys).0.store;
      after.Keys <= l.store.Keys && (keys[0] !in l.store || keys[1] !in l.store ==> |after| < CAPACITY)
  {
    hide AfterCheck, Swept, CheckAnswer, CheckAll;
    BothKeys(l, t0, t1, keys);
    var l1 := AfterCheck(l, t0, keys[0]);
    CheckShrinks(l, t0, keys[0]);
    CheckShrinks(l1, t1, keys[1]);
    SubsetSize(AfterCheck(l1, t1, keys[1]).store.Keys, Swept(l, t0).store.Keys);
    SubsetSize(AfterCheck(l1, t1, keys[1]).store.Keys, Swept(l1, t1).store.Keys);
  }

  lemma RefusedShrinks(l: Limiter, t0: nat, t1: nat, keys: seq<string>)
    requires |keys| == 2
    ensures CheckAll(l, [t0, t1], keys).0.store.Keys <= l.store.Keys
  {
    hide AfterCheck, Swept, CheckAnswer, CheckAll;
    BothKeys(l, t0, t1, keys);
    CheckShrinks(l, t0, keys[0]);
    CheckShrinks(AfterCheck(l, t0, keys[0]), t1, keys[1]);
  }

  lemma RefusalShrinksReach(w: Logins, step: Step)
    requires Enabled(w, step) && step.Arrive? && step.id !in Apply(w, step).inFlight
    ensures Reach(Apply(w, step)) <= Reach(w)
  {
    hide CheckAll, LoginKeys, OpenKeys;
    RefusedShrinks(w.limiter, step.check0, step.check1, LoginKeys(step.email, step.ip));
  }

  /** An admission either is below capacity or brings no new key. */
  lemma AdmissionKeepsReach(w: Logins, step: Step)
    requires Enabled(w, step) && step.Arrive? && step.id in Apply(w, step).inFlight
    ensures var w' := Apply(w, step);
      |w'.limiter.store| < CAPACITY || Reach(w') <= Reach(w)
  {
    hide CheckAll, LoginKeys, OpenKeys;
    var keys := LoginKeys(step.email, step.ip);
    AdmittedBelowCapacity(w.limiter, step.check0, step.check1, keys);
    OneMoreOpen(w.inFlight, step.id, keys);
  }

  lemma ArrivalKeepsReach(w: Logins, step: Step, most: nat)
    requires Enabled(w, step) && step.Arrive? && |Apply(w, step).inFlight| <= most
    requires |Reach(w)| <= CAPACITY - 1 + 2 * most
    ensures |Reach(Apply(w, step))| <= CAPACITY - 1 + 2 * most
  {
    hide Apply, OpenKeys;
    var w' := Apply(w, step);
    if step.id in w'.inFlight {
      AdmissionKeepsReach(w, step);
    } else {
      RefusalShrinksReach(w, step);
    }
    if Reach(w') <= Reach(w) {
      SubsetSize(Reach(w'), Reach(w));
    } else {
      OpenKeysSize(w'.inFlight);
      UnionSize(w'.limiter.store.Keys, OpenKeys(w'.inFlight));
    }
  }

  lemma OthersShrinkReach(w: Logins, step: Step)
    requires Enabled(w, step) && !step.Arrive?
    ensures Reach(Apply(w, step)) <= Reach(w)
  {
    if step.End? {
      assert forall id <- Apply(w, step).inFlight :: Apply(w, step).inFlight[id] == w.inFlight[id];
    } else {
      var keys := w.inFlight[step.id];
      assert keys[0] in OpenKeys(w.inFlight) && keys[1] in OpenKeys(w.inFlight);
      if step.Fail? {
        BothKeys(w.limiter, step.fail0, step.fail1, keys);
      } else {
        BothKeys(w.limiter, 0, 0, keys);
      }
    }
  }

  lemma {:induction false} ReachIsBounded(steps: seq<Step>, most: nat)
    requires Legal(steps, most)
    ensures |Reach(Run(steps, most))| <= CAPACITY - 1 + 2 * most
  {
    hide Enabled, Apply, Reach;
    if steps == [] {
      NothingReached();
    } else {
      var (before, last) := (steps[..|steps| - 1], steps[|steps| - 1]);
      ReachIsBounded(before, most);
      if last.Arrive? {
        ArrivalKeepsReach(Run(before, most), last, most);
      } else {
        OthersShrinkReach(Run(before, most), last);
        SubsetSize(Reach(Run(steps, most)), Reach(Run(before, most)));
      }
    }
  }

  lemma NothingReached()
    ensures Reach(START) == {}
  {
  }

  /**
    In every interleaving of logins the store stays below its capacity plus two entries for each login that may be
    in flight: 20001 when they come one after another, whatever their outcomes.
   */
  lemma SizeBound(steps: seq<Step>, most: nat)
    requires Legal(steps, most)
    ensures |Run(steps, most).limiter.store| <= CAPACITY - 1 + 2 * most
  {
    hide Run, Legal;
    ReachIsBounded(steps, most);
    SubsetSize(Run(steps, most).limiter.store.Keys, Reach(Run(steps, most)));
  }

  // The bound is reached.

  function Name(n: nat): string {
    seq(n, _ => 'x')
  }

  function Key(n: nat, account: bool): string {
    LoginKeys(Name(n), Name(n))[if account then 0 else 1]
  }

  lemma KeysDiffer(m: nat, a: bool, n: nat, b: bool)
    ensures Key(m, a) == Key(n, b) <==> m == n && a == b
  {
    assert |"account:"| == 8 && |"ip:"| == 3;
    assert Key(m, a)[0] == (if a then 'a' else 'i') && Key(n, b)[0] == (if b then 'a' else 'i');
    assert |Key(m, a)| == m + (if a then 8 else 3) && |Key(n, b)| == n + (if b then 8 else 3);
  }

  /** Nothing has been swept, and only the names below `n` have been used. */
  ghost predicate Filled(l: Limiter, n: nat, size: nat) {
    && l.lastPrune == 0 && |l.store| == size
    && forall key <- l.store :: exists i: nat, account :: i < n && key == Key(i, account)
  }

  lemma NewName(l: Limiter, n: nat, size: nat, account: bool)
    requires Filled(l, n, size)
    ensures Key(n, account) !in l.store
  {
    if Key(n, account) in l.store {
      var i: nat, a :| i < n && Key(n, account) == Key(i, a);
      KeysDiffer(n, account, i, a);
    }
  }

  lemma NewKeyPasses(l: Limiter, key: string)
    requires l.lastPrune == 0 && key !in l.store && |l.store| < CAPACITY
    ensures CheckAnswer(l, 0, key) == Allowed && AfterCheck(l, 0, key) == l
  {
  }

  lemma FailureAddsKey(l: Limiter, now: nat, key: string)
    requires key !in l.store
    ensures var l' := AfterFailure(l, now, key);
      l'.lastPrune == l.lastPrune && l'.store.Keys == l.store.Keys + {key} && |l'.store| == |l.store| + 1
  {
    hide Failed;
    var l' := AfterFailure(l, now, key);
    assert l'.store.Keys == l.store.Keys + {key};
    assert |l'.store.Keys| == |l.store.Keys| + 1;
  }

  lemma Extended(steps: seq<Step>, step: Step, most: nat)
    requires Legal(steps, most) && Enabled(Run(steps, most), step) && |Apply(Run(steps, most), step).inFlight| <= most
    ensures Legal(steps + [step], most) && Run(steps + [step], most) == Apply(Run(steps, most), step)
  {
    hide Enabled, Apply;
    assert (steps + [step])[..|steps|] == steps;
  }

  /** A login at the very start, of the account and from the address with these names. */
  function Arrival(id: nat, email: nat, ip: nat): Step {
    Arrive(id, 0, 0, Name(email), Name(ip))
  }

  lemma NewNamePasses(w: Logins, id: nat, n: nat, size: nat)
    requires Filled(w.limiter, n, size) && size < CAPACITY && Enabled(w, Arrival(id, n, n))
    ensures Apply(w, Arrival(id, n, n)) == w.(inFlight := w.inFlight[id := LoginKeys(Name(n), Name(n))])
  {
    hide CheckAll, CheckAnswer, AfterCheck, LoginKeys;
    NewName(w.limiter, n, size, true);
    NewName(w.limiter, n, size, false);
    BothKeys(w.limiter, 0, 0, LoginKeys(Name(n), Name(n)));
    NewKeyPasses(w.limiter, Key(n, true));
    NewKeyPasses(w.limiter, Key(n, false));
  }

  lemma NewNameAdds(l: Limiter, n: nat, size: nat)
    requires Filled(l, n, size)
    ensures Filled(FailAll(l, [0, 0], LoginKeys(Name(n), Name(n))), n + 1, size + 2)
  {
    var keys := LoginKeys(Name(n), Name(n));
    var l1 := AfterFailure(l, 0, keys[0]);
    var l2 := AfterFailure(l1, 0, keys[1]);
    NewName(l, n, size, true);
    NewName(l, n, size, false);
    BothKeys(l, 0, 0, keys);
    FailureAddsKey(l, 0, keys[0]);
    FailureAddsKey(l1, 0, keys[1]);
    hide AfterFailure, LoginKeys;
    forall key <- l2.store ensures exists i: nat, account :: i < n + 1 && key == Key(i, account) {
      if key in l.store {
        var i: nat, account :| i < n && key == Key(i, account);
      } else {
        assert key == Key(n, true) || key == Key(n, false);
      }
    }
  }

  /** One after another, with `n` new names below which all have been used. */
  lemma OneLogin(steps: seq<Step>, most: nat, n: nat, size: nat) returns (steps': seq<Step>)
    requires Legal(steps, most) && most >= 1 && size < CAPACITY
    requires Run(steps, most).inFlight == map[] && Filled(Run(steps, most).limiter, n, size)
    ensures Legal(steps', most) && Run(steps', most).inFlight == map[]
    ensures Filled(Run(steps', most).limiter, n + 1, size + 2)
  {
    hide Legal, Run, Filled, CheckAll, FailAll, LoginKeys;
    var w := Run(steps, most);
    NewNamePasses(w, 0, n, size);
    steps' := steps + [Arrival(0, n, n)];
    Extended(steps, Arrival(0, n, n), most);
    NewNameAdds(w.limiter, n, size);
    Extended(steps', Fail(0, 0, 0), most);
    steps' := steps' + [Fail(0, 0, 0)];
    Extended(steps', End(0), most);
    steps' := steps' + [End(0)];
  }

  /** Two accounts fail from one address: three entries. */
  lemma SharedAddress(w: Logins)
    requires w == Logins(FailAll(EMPTY, [0, 0], LoginKeys(Name(0), Name(0))), map[])
    ensures Enabled(w, Arrival(0, 1, 0))
    ensures Apply(w, Arrival(0, 1, 0)) == w.(inFlight := map[0 := LoginKeys(Name(1), Name(0))])
    ensures Filled(FailAll(w.limiter, [0, 0], LoginKeys(Name(1), Name(0))), 2, 3)
  {
    NewNameAdds(EMPTY, 0, 0);
    NewName(w.limiter, 1, 2, true);
    var (l, keys) := (w.limiter, LoginKeys(Name(1), Name(0)));
    BothKeys(EMPTY, 0, 0, LoginKeys(Name(0), Name(0)));
    BothKeys(l, 0, 0, keys);
    KnownKeyPasses(l, keys[1]);
    NewKeyPasses(l, keys[0]);
    OneNewKey(l, keys);
  }

  lemma KnownKeyPasses(l: Limiter, key: string)
    requires l.lastPrune == 0 && key in l.store && l.store[key].lock.None? && l.store[key].first == 0
    ensures CheckAnswer(l, 0, key) == Allowed && AfterCheck(l, 0, key) == l
  {
  }

  lemma OneNewKey(l: Limiter, keys: seq<string>)
    requires Filled(l, 1, 2) && keys == LoginKeys(Name(1), Name(0)) && keys[0] !in l.store && keys[1] in l.store
    ensures Filled(FailAll(l, [0, 0], keys), 2, 3)
  {
    hide FailAll, Failed;
    BothKeys(l, 0, 0, keys);
    FailureAddsKey(l, 0, keys[0]);
    var (l1, l2) := (AfterFailure(l, 0, keys[0]), FailAll(l, [0, 0], keys));
    assert l2.store.Keys == l1.store.Keys;
    assert |l2.store.Keys| == |l1.store.Keys|;
    forall key <- l2.store ensures exists i: nat, account :: i < 2 && key == Key(i, account) {
      if key in l.store {
        var i: nat, account :| i < 1 && key == Key(i, account);
      } else {
        assert key == Key(1, true);
      }
    }
  }

  lemma FirstThree(most: nat) returns (steps: seq<Step>)
    requires most >= 1
    ensures Legal(steps, most) && Run(steps, most).inFlight == map[] && Filled(Run(steps, most).limiter, 2, 3)
  {
    hide Filled, CheckAll, FailAll, LoginKeys;
    steps := [];
    NothingFilled();
    assert Legal(steps, most) && Run(steps, most) == START;
    hide Legal, Run;
    NewNamePasses(START, 0, 0, 0);
    Extended(steps, Arrival(0, 0, 0), most);
    steps := steps + [Arrival(0, 0, 0)];
    Extended(steps, Fail(0, 0, 0), most);
    steps := steps + [Fail(0, 0, 0)];
    Extended(steps, End(0), most);
    steps := steps + [End(0)];
    SharedAddress(Run(steps, most));
    Extended(steps, Arrival(0, 1, 0), most);
    steps := steps + [Arrival(0, 1, 0)];
    Extended(steps, Fail(0, 0, 0), most);
    steps := steps + [Fail(0, 0, 0)];
    Extended(steps, End(0), most);
    steps := steps + [End(0)];
  }

  lemma NothingFilled()
    ensures Filled(EMPTY, 0, 0)
  {
  }

  lemma {:induction false} Fill(n: nat, most: nat) returns (steps: seq<Step>)
    requires n <= 9998 && most >= 1
    ensures Legal(steps, most) && Run(steps, most).inFlight == map[]
    ensures Filled(Run(steps, most).limiter, n + 2, 2 * n + 3)
  {
    hide Legal, Run, Filled;
    if n == 0 {
      steps := FirstThree(most);
    } else {
      var before := Fill(n - 1, most);
      steps := OneLogin(before, most, n + 1, 2 * n + 1);
    }
  }

  /** The first `i` of the logins with the names from `n` on. */
  function Waiting(n: nat, i: nat): (inFlight: map<nat, seq<string>>)
    ensures |inFlight| == i && forall j: nat :: j in inFlight <==> j < i
    ensures forall j <- inFlight :: |inFlight[j]| == 2
  {
    if i == 0 then map[]
    else
      var before := Waiting(n, i - 1);
      before[i - 1 := LoginKeys(Name(n + i - 1), Name(n + i - 1))]
  }

  lemma {:induction false} WaitingAt(n: nat, i: nat, j: nat)
    requires j < i
    ensures Waiting(n, i)[j] == LoginKeys(Name(n + j), Name(n + j))
    decreases i
  {
    hide LoginKeys;
    if j < i - 1 {
      WaitingAt(n, i - 1, j);
    }
  }

  lemma HigherNames(l: Limiter, n: nat, m: nat, size: nat)
    requires Filled(l, n, size) && n <= m
    ensures Filled(l, m, size)
  {
    forall key <- l.store ensures exists i: nat, account :: i < m && key == Key(i, account) {
      var i: nat, account :| i < n && key == Key(i, account);
    }
  }

  lemma {:induction false} AllArrive(steps: seq<Step>, most: nat, n: nat, size: nat, i: nat) returns (steps': seq<Step>)
    requires Legal(steps, most) && i <= most && size < CAPACITY
    requires Run(steps, most).inFlight == map[] && Filled(Run(steps, most).limiter, n, size)
    ensures Legal(steps', most) && Run(steps', most) == Logins(Run(steps, most).limiter, Waiting(n, i))
    decreases i
  {
    hide Legal, Run, Filled, CheckAll, LoginKeys;
    if i == 0 {
      steps' := steps;
    } else {
      var before := AllArrive(steps, most, n, size, i - 1);
      var w := Run(before, most);
      steps' := before + [Arrival(i - 1, n + i - 1, n + i - 1)];
      HigherNames(w.limiter, n, n + i - 1, size);
      NewNamePasses(w, i - 1, n + i - 1, size);
      Extended(before, Arrival(i - 1, n + i - 1, n + i - 1), most);
    }
  }

  lemma {:induction false} AllFail(steps: seq<Step>, most: nat, n: nat, size: nat, i: nat) returns (steps': seq<Step>)
    requires Legal(steps, most) && i <= most
    requires Run(steps, most).inFlight == Waiting(n, most) && Filled(Run(steps, most).limiter, n, size)
    ensures Legal(steps', most) && Run(steps', most).inFlight == Waiting(n, most)
    ensures Filled(Run(steps', most).limiter, n + i, size + 2 * i)
    decreases i
  {
    hide Legal, Run, Filled, FailAll, LoginKeys;
    if i == 0 {
      steps' := steps;
    } else {
      var before := AllFail(steps, most, n, size, i - 1);
      steps' := before + [Fail(i - 1, 0, 0)];
      WaitingAt(n, most, i - 1);
      NewNameAdds(Run(before, most).limiter, n + i - 1, size + 2 * (i - 1));
      Extended(before, Fail(i - 1, 0, 0), most);
    }
  }

  /** With any number of logins in flight the bound is reached: all are admitted one entry short of capacity, and then fail. */
  lemma SizeBoundIsReached(most: nat) returns (steps: seq<Step>)
    requires most >= 1
    ensures Legal(steps, most) && |Run(steps, most).limiter.store| == CAPACITY - 1 + 2 * most
  {
    hide Legal, Run;
    steps := Fill(9998, most);
    steps := AllArrive(steps, most, 10000, 19999, most);
    steps := AllFail(steps, most, 10000, 19999, most);
  }
}
