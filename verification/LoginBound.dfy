/** How many failures of one key the limiter lets through, whatever other events come between. */
module LoginBound {
  import opened Options
  import opened LoginLimiter
  import opened LoginHistory

  /** When the failures of `key` were recorded, since its last clear if there was one. */
  function FailTimes(history: seq<Event>, key: string): seq<nat> {
    if history == [] then []
    else
      var (before, last) := (history[..|history| - 1], history[|history| - 1]);
      if last.key != key || last.Check? then FailTimes(before, key)
      else if last.Clear? then []
      else FailTimes(before, key) + [last.now]
  }

  /** Every failure of `key` is recorded when the key has no lock, live or run out. */
  ghost predicate MeetsNoLock(history: seq<Event>, key: string) {
    forall i :: 0 <= i < |history| && history[i].Fail? && history[i].key == key ==> Unlocked(Run(history[..i]), key)
  }

  predicate Unlocked(l: Limiter, key: string) {
    key in l.store ==> l.store[key].lock.None?
  }

  /** Failures in the half-open interval of one lock time that begins at `from`. */
  function Within(times: seq<nat>, from: nat): nat {
    if times == [] then 0
    else
      var t := times[|times| - 1];
      Within(times[..|times| - 1], from) + if from <= t < from + LOGIN_LOCK_MS then 1 else 0
  }

  lemma {:induction false} WithinSplits(s: seq<nat>, t: seq<nat>, from: nat)
    ensures Within(s + t, from) == Within(s, from) + Within(t, from)
  {
    if t == [] {
      assert s + t == s;
    } else {
      assert (s + t)[..|s + t| - 1] == s + t[..|t| - 1];
      WithinSplits(s, t[..|t| - 1], from);
    }
  }

  lemma {:induction false} WithinAtMost(s: seq<nat>, from: nat)
    ensures Within(s, from) <= |s|
    ensures (forall t <- s :: t < from || from + LOGIN_LOCK_MS <= t) ==> Within(s, from) == 0
  {
    if s != [] {
      var (before, last) := (s[..|s| - 1], s[|s| - 1]);
      WithinAtMost(before, from);
      assert last in s && forall t <- before :: t in s;
      assert Within(s, from) == Within(before, from) + if from <= last < from + LOGIN_LOCK_MS then 1 else 0;
    }
  }

  /** Whenever an interval reaches beyond `at`, at most this many of these failures lie in it. */
  ghost predicate Cleared(times: seq<nat>, at: nat, most: nat) {
    forall from: nat :: from + LOGIN_LOCK_MS > at ==> Within(times, from) <= most
  }

  ghost predicate Bounded(times: seq<nat>) {
    forall from: nat :: Within(times, from) <= 8
  }

  /** How many failures that found no lock the entry counts; `late` if the one that began it found one. */
  function Own(s: Attempts, late: bool): (n: int)
    ensures s.failed >= 1 ==> 0 <= n <= MAX_LOGIN_ATTEMPTS
  {
    (if s.failed < MAX_LOGIN_ATTEMPTS then s.failed else MAX_LOGIN_ATTEMPTS) - if late then 1 else 0
  }

  /** The failures counted by the current entry are the last ones of the history. */
  ghost predicate Current(times: seq<nat>, s: Attempts, late: bool) {
    && s.failed >= 1 && Own(s, late) <= |times|
    && var prior := times[..|times| - Own(s, late)];
    && Cleared(prior, s.first, if late then 4 else 3)
    && (forall t <- prior :: t <= s.first)
    && (!late ==> times[|prior|] == s.first)
    && (forall i :: |prior| <= i < |times| ==> s.first <= times[i])
    && (s.failed >= MAX_LOGIN_ATTEMPTS <==> s.lock.Some?)
    && (s.lock.Some? ==> forall t <- times :: t + LOGIN_LOCK_MS <= s.lock.value)
  }

  /** `e` is what the limiter keeps at `now` for a key whose failures that found no lock are `times`. */
  ghost predicate Tracks(times: seq<nat>, e: Option<Attempts>, late: bool, now: nat) {
    && (forall t <- times :: t <= now)
    && Bounded(times)
    && if e.Some? then e.value.first <= now && Current(times, e.value, late) else Cleared(times, now, 3)
  }

  /** No live lock, and a failure now would start a new count. */
  predicate Spent(s: Attempts, now: nat) {
    if s.lock.Some? then s.lock.value <= now else s.first + LOGIN_WINDOW_MS < now
  }

  /** When the window of an entry is over, only its later failures lie in an interval that reaches beyond. */
  lemma OverWindow(times: seq<nat>, s: Attempts, late: bool, now: nat, from: nat)
    requires Current(times, s, late) && s.first + LOGIN_WINDOW_MS < now < from + LOGIN_LOCK_MS
    ensures Within(times, from) <= if late then Own(s, late) else Own(s, late) - 1
  {
    hide Cleared;
    var start := |times| - Own(s, late);
    var (prior, own) := (times[..start], times[start..]);
    assert times == prior + own;
    WithinSplits(prior, own, from);
    WithinAtMost(prior, from);
    WithinAtMost(own, from);
    if !late {
      assert own == [s.first] + own[1..];
      WithinSplits([s.first], own[1..], from);
      WithinAtMost([s.first], from);
      WithinAtMost(own[1..], from);
    }
  }

  lemma SpentIsCleared(times: seq<nat>, s: Attempts, late: bool, now: nat)
    requires Current(times, s, late) && Spent(s, now)
    ensures Cleared(times, now, 3)
  {
    forall from: nat | from + LOGIN_LOCK_MS > now ensures Within(times, from) <= 3 {
      if s.lock.Some? {
        WithinAtMost(times, from);
      } else {
        OverWindow(times, s, late, now, from);
      }
    }
  }

  /** A failure on a lock whose window is over starts a new count with at most four failures in reach. */
  lemma LateFailureStarts(times: seq<nat>, s: Attempts, late: bool, at: nat, now: nat)
    requires Tracks(times, Some(s), late, at) && at <= now && now - s.first > LOGIN_WINDOW_MS
    ensures Tracks(times, Some(Attempts(1, now, None)), true, now)
  {
    hide Bounded;
    forall from: nat | from + LOGIN_LOCK_MS > now ensures Within(times, from) <= 4 {
      OverWindow(times, s, late, now, from);
    }
    assert times[..|times|] == times;
  }

  lemma LateFailureAdds(times: seq<nat>, s: Attempts, late: bool, at: nat, now: nat)
    requires Tracks(times, Some(s), late, at) && at <= now && s.lock.Some? && now - s.first <= LOGIN_WINDOW_MS
    ensures Tracks(times, Some(Failed(Some(s), now)), late, now)
  {
    hide Bounded, Cleared;
  }

  lemma FailureStarts(times: seq<nat>, e: Option<Attempts>, late: bool, at: nat, now: nat)
    requires Tracks(times, e, late, at) && at <= now && (e.None? || Spent(e.value, now))
    ensures Tracks(times + [now], Some(Attempts(1, now, None)), false, now)
  {
    if e.Some? {
      SpentIsCleared(times, e.value, late, now);
    }
    var times' := times + [now];
    assert times'[..|times'| - 1] == times;
    forall from: nat ensures Within(times', from) <= 8 {
      WithinSplits(times, [now], from);
      WithinAtMost([now], from);
    }
  }

  lemma FailureAddsBounded(times: seq<nat>, s: Attempts, late: bool, now: nat)
    requires Bounded(times) && Current(times, s, late) && s.lock.None? && s.first <= now
    ensures Bounded(times + [now])
  {
    var prior, current := times[..|times| - Own(s, late)], times[|times| - Own(s, late)..];
    assert times == prior + current;
    forall from: nat ensures Within(times + [now], from) <= 8 {
      WithinSplits(times, [now], from);
      WithinSplits(prior, current, from);
      WithinAtMost(current, from);
      WithinAtMost([now], from);
      assert from + LOGIN_LOCK_MS > s.first ==> Within(prior, from) <= if late then 4 else 3;
      assert Within(times, from) <= 8;
    }
  }

  lemma FailureAdds(times: seq<nat>, s: Attempts, late: bool, at: nat, now: nat)
    requires Tracks(times, Some(s), late, at) && at <= now && s.lock.None? && now - s.first <= LOGIN_WINDOW_MS
    ensures Tracks(times + [now], Some(Failed(Some(s), now)), late, now)
  {
    FailureAddsBounded(times, s, late, now);
    hide Bounded, Cleared;
    var times', s' := times + [now], Failed(Some(s), now);
    assert times'[..|times'| - Own(s', late)] == times[..|times| - Own(s, late)];
    assert forall t <- times' :: t in times || t == now;
    assert Current(times', s', late);
  }

  lemma TracksLater(times: seq<nat>, e: Option<Attempts>, late: bool, at: nat, now: nat)
    requires Tracks(times, e, late, at) && at <= now
    ensures Tracks(times, e, late, now)
  {
  }

  /** A check of any key may drop an entry only once it is spent, and admits a key only without a lock. */
  lemma CheckForgetsSpent(l: Limiter, now: nat, checked: string, key: string)
    ensures var e, e' := Entry(l, key), Entry(AfterCheck(l, now, checked), key);
      && (e' == e || (e'.None? && Spent(e.value, now)))
      && (checked == key && CheckAnswer(l, now, key) == Allowed && e'.Some? ==>
            e'.value.lock.None? && now - e'.value.first <= LOGIN_WINDOW_MS)
  {
  }

  lemma CheckKeepsTracks(times: seq<nat>, l: Limiter, late: bool, at: nat, now: nat, checked: string, key: string)
    requires Tracks(times, Entry(l, key), late, at) && at <= now
    ensures Tracks(times, Entry(AfterCheck(l, now, checked), key), late, now)
  {
    CheckForgetsSpent(l, now, checked, key);
    if Entry(AfterCheck(l, now, checked), key) != Entry(l, key) {
      SpentIsCleared(times, Entry(l, key).value, late, now);
    }
  }

  /** A failure adds itself to what is tracked of its key if it finds no lock. */
  lemma FailureKeepsTracks(times: seq<nat>, e: Option<Attempts>, late: bool, at: nat, now: nat) returns (late': bool)
    requires Tracks(times, e, late, at) && at <= now
    ensures Tracks(if e.Some? && e.value.lock.Some? then times else times + [now], Some(Failed(e, now)), late', now)
  {
    late' := late;
    if e.Some? && e.value.lock.Some? {
      if now - e.value.first > LOGIN_WINDOW_MS {
        LateFailureStarts(times, e.value, late, at, now);
        late' := true;
      } else {
        LateFailureAdds(times, e.value, late, at, now);
      }
    } else if e.None? || now - e.value.first > LOGIN_WINDOW_MS {
      FailureStarts(times, e, late, at, now);
      late' := false;
    } else {
      FailureAdds(times, e.value, late, at, now);
    }
  }

  /** When the failures of `key` that found it without a lock were recorded, since its last clear. */
  function UnlockedTimes(history: seq<Event>, key: string): seq<nat> {
    if history == [] then []
    else
      var (before, last) := (history[..|history| - 1], history[|history| - 1]);
      NextTimes(UnlockedTimes(before, key), last, key, Unlocked(Run(before), key))
  }

  /** When those that found a lock, live or run out, were recorded. */
  function LockedTimes(history: seq<Event>, key: string): seq<nat> {
    if history == [] then []
    else
      var (before, last) := (history[..|history| - 1], history[|history| - 1]);
      NextTimes(LockedTimes(before, key), last, key, !Unlocked(Run(before), key))
  }

  function NextTimes(times: seq<nat>, e: Event, key: string, counts: bool): seq<nat> {
    if e.key != key || e.Check? then times else if e.Clear? then [] else if counts then times + [e.now] else times
  }

  lemma EventKeepsTracks(times: seq<nat>, l: Limiter, late: bool, at: nat, e: Event, key: string) returns (late': bool)
    requires Tracks(times, Entry(l, key), late, at) && at <= e.now
    ensures Tracks(NextTimes(times, e, key, Unlocked(l, key)), Entry(After(l, e), key), late', e.now)
  {
    late' := late;
    if e.Check? {
      CheckKeepsTracks(times, l, late, at, e.now, e.key, key);
    } else if e.key != key {
      TracksLater(times, Entry(l, key), late, at, e.now);
    } else if e.Fail? {
      late' := FailureKeepsTracks(times, Entry(l, key), late, at, e.now);
    }
  }

  lemma {:induction false} RunTracks(history: seq<Event>, key: string) returns (late: bool)
    requires InOrder(history)
    ensures Tracks(UnlockedTimes(history, key), Entry(Run(history), key), late, Clock(history))
  {
    hide Tracks, After, Unlocked;
    if history == [] {
      late := false;
      StartsTracked();
    } else {
      var (before, last) := (history[..|history| - 1], history[|history| - 1]);
      late := RunTracks(before, key);
      late := EventKeepsTracks(UnlockedTimes(before, key), Run(before), late, Clock(before), last, key);
    }
  }

  lemma StartsTracked()
    ensures Tracks([], None, false, 0)
  {
  }

  lemma {:induction false} TimesSplit(history: seq<Event>, key: string, from: nat)
    ensures Within(FailTimes(history, key), from) ==
      Within(UnlockedTimes(history, key), from) + Within(LockedTimes(history, key), from)
  {
    hide Run, Unlocked;
    if history != [] {
      var (before, last) := (history[..|history| - 1], history[|history| - 1]);
      TimesSplit(before, key, from);
      WithinSplits(FailTimes(before, key), [last.now], from);
      WithinSplits(UnlockedTimes(before, key), [last.now], from);
      WithinSplits(LockedTimes(before, key), [last.now], from);
    }
  }

  /**
    In every interleaving, no interval as long as a lock holds more than eight failures of a key that find it
    without a lock, counting from the last success if there was one. Any more were recorded on a lock.
   */
  lemma AtMostEightFailures(history: seq<Event>, key: string, from: nat)
    requires InOrder(history)
    ensures Within(UnlockedTimes(history, key), from) <= 2 * MAX_LOGIN_ATTEMPTS - 2
    ensures Within(FailTimes(history, key), from) <=
      2 * MAX_LOGIN_ATTEMPTS - 2 + Within(LockedTimes(history, key), from)
  {
    var late := RunTracks(history, key);
    TimesSplit(history, key, from);
  }

  lemma {:induction false} NoneOnALock(history: seq<Event>, key: string)
    requires MeetsNoLock(history, key)
    ensures LockedTimes(history, key) == []
  {
    hide Run, Unlocked;
    if history != [] {
      var before := history[..|history| - 1];
      forall i | 0 <= i < |before| && before[i].Fail? && before[i].key == key ensures Unlocked(Run(before[..i]), key) {
        assert before[..i] == history[..i];
      }
      NoneOnALock(before, key);
    }
  }

  /** If the failures of a key find it without a lock, all of them keep the bound. */
  lemma WithoutLocksAtMostEight(history: seq<Event>, key: string, from: nat)
    requires InOrder(history) && MeetsNoLock(history, key)
    ensures Within(FailTimes(history, key), from) <= 2 * MAX_LOGIN_ATTEMPTS - 2
  {
    AtMostEightFailures(history, key, from);
    NoneOnALock(history, key);
  }

  /** So it is when nothing else of the same key comes between a check and its record, whatever other keys do. */
  lemma BackToBackIsBounded(history: seq<Event>, key: string, from: nat)
    requires InOrder(history) && BackToBack(history, key)
    ensures Within(FailTimes(history, key), from) <= 2 * MAX_LOGIN_ATTEMPTS - 2
  {
    forall i | 0 <= i < |history| && history[i].Fail? && history[i].key == key
      ensures Unlocked(Run(history[..i]), key)
    {
      var j :| AdmittedLast(history, j, i, key);
      AdmittedHasNoLock(history, j, i, key);
    }
    WithoutLocksAtMostEight(history, key, from);
  }

  // One count.

  /** No entry of the key ever counts more failures than it takes to lock. */
  ghost predicate CountsStop(history: seq<Event>, key: string) {
    forall i :: 0 <= i <= |history| ==> CountOf(Run(history[..i]), key) <= MAX_LOGIN_ATTEMPTS
  }

  function CountOf(l: Limiter, key: string): nat {
    if key in l.store then l.store[key].failed else 0
  }

  /** A failure now would be counted on top of a lock. */
  predicate IsLate(l: Limiter, now: nat, key: string) {
    key in l.store && l.store[key].lock.Some? && now - l.store[key].first <= LOGIN_WINDOW_MS
  }

  ghost predicate NoLateFailure(history: seq<Event>, key: string) {
    forall i :: 0 <= i < |history| && history[i].Fail? && history[i].key == key ==>
      !IsLate(Run(history[..i]), history[i].now, key)
  }

  lemma EventCounts(l: Limiter, e: Event, key: string)
    requires key in l.store ==> (l.store[key].lock.Some? <==> l.store[key].failed >= MAX_LOGIN_ATTEMPTS)
    requires CountOf(l, key) <= MAX_LOGIN_ATTEMPTS
    ensures CountOf(After(l, e), key) > MAX_LOGIN_ATTEMPTS <==>
      e.Fail? && e.key == key && IsLate(l, e.now, key)
  {
  }

  lemma {:induction false} CountUpTo(history: seq<Event>, key: string, n: nat)
    requires InOrder(history) && NoLateFailure(history, key) && n <= |history|
    ensures CountOf(Run(history[..n]), key) <= MAX_LOGIN_ATTEMPTS
  {
    hide After, CountOf, IsLate;
    if n == 0 {
      NothingCounted(key);
    } else {
      CountUpTo(history, key, n - 1);
      assert history[..n][..n - 1] == history[..n - 1];
      RunIsWellFormed(history[..n - 1], key);
      EventCounts(Run(history[..n - 1]), history[n - 1], key);
    }
  }

  lemma NothingCounted(key: string)
    ensures CountOf(EMPTY, key) == 0
  {
  }

  /** One window counts at most five failures exactly when none is recorded on a lock within the window. */
  lemma CountsStopExactly(history: seq<Event>, key: string)
    requires InOrder(history)
    ensures CountsStop(history, key) <==> NoLateFailure(history, key)
  {
    hide After, CountOf, IsLate;
    if NoLateFailure(history, key) {
      forall i | 0 <= i <= |history| ensures CountOf(Run(history[..i]), key) <= MAX_LOGIN_ATTEMPTS {
        CountUpTo(history, key, i);
      }
    } else if CountsStop(history, key) {
      var i :| 0 <= i < |history| && history[i].Fail? && history[i].key == key &&
        IsLate(Run(history[..i]), history[i].now, key);
      assert history[..i + 1][..i] == history[..i];
      RunIsWellFormed(history[..i], key);
      EventCounts(Run(history[..i]), history[i], key);
    }
  }

  // The bound is reached.

  /** A login whose two keys are checked and then fail at the same moment. */
  function LoginEvents(now: nat, keys: seq<string>): seq<Event>
    requires |keys| == 2
  {
    [Check(now, keys[0]), Check(now, keys[1]), Fail(now, keys[0]), Fail(now, keys[1])]
  }

  /** The limiter holds nothing but `e` under both keys of the login. */
  ghost predicate Holds(l: Limiter, keys: seq<string>, e: Option<Attempts>)
    requires |keys| == 2
  {
    l.store.Keys <= {keys[0], keys[1]} && Entry(l, keys[0]) == e && Entry(l, keys[1]) == e
  }

  lemma SmallStore(store: map<string, Attempts>, keys: seq<string>)
    requires |keys| == 2 && store.Keys <= {keys[0], keys[1]}
    ensures |store| <= 2
  {
    var rest := {keys[0], keys[1]} - store.Keys;
    assert store.Keys + rest == {keys[0], keys[1]};
  }

  /** A lone login without a lock is admitted, and both of its entries take the failure. */
  lemma LoneLogin(l: Limiter, now: nat, keys: seq<string>, e: Option<Attempts>)
    requires |keys| == 2 && keys[0] != keys[1] && Holds(l, keys, e) && (e.Some? ==> e.value.lock.None?)
    ensures CheckAnswer(l, now, keys[0]) == Allowed
    ensures CheckAnswer(AfterCheck(l, now, keys[0]), now, keys[1]) == Allowed
    ensures var l2 := AfterCheck(AfterCheck(l, now, keys[0]), now, keys[1]);
      Holds(AfterFailure(AfterFailure(l2, now, keys[0]), now, keys[1]), keys, Some(Failed(e, now)))
  {
    var l1 := AfterCheck(l, now, keys[0]);
    SmallStore(Swept(l, now).store, keys);
    SmallStore(Swept(l1, now).store, keys);
    CheckForgetsSpent(l, now, keys[0], keys[0]);
    CheckForgetsSpent(l, now, keys[0], keys[1]);
    CheckForgetsSpent(l1, now, keys[1], keys[0]);
    CheckForgetsSpent(l1, now, keys[1], keys[1]);
  }

  lemma Appended(history: seq<Event>, e: Event, key: string)
    ensures Run(history + [e]) == After(Run(history), e)
    ensures FailTimes(history + [e], key) ==
      if e.key != key || e.Check? then FailTimes(history, key)
      else if e.Clear? then []
      else FailTimes(history, key) + [e.now]
  {
    assert (history + [e])[..|history + [e]| - 1] == history;
  }

  /** A history of whole logins, up to `clock`, with `count` failures of the first key in the interval. */
  ghost predicate Reaches(history: seq<Event>, keys: seq<string>, e: Option<Attempts>, clock: nat, from: nat, count: nat)
    requires |keys| == 2
  {
    && InOrder(history) && Clock(history) == clock && BackToBack(history, keys[0])
    && Holds(Run(history), keys, e)
    && Within(FailTimes(history, keys[0]), from) == count
  }

  lemma LoginAppended(history: seq<Event>, now: nat, keys: seq<string>)
    requires |keys| == 2 && keys[0] != keys[1]
    ensures var (h, l) := (history + LoginEvents(now, keys), Run(history));
      && Run(h) == AfterFailure(AfterFailure(AfterCheck(AfterCheck(l, now, keys[0]), now, keys[1]), now, keys[0]), now, keys[1])
      && FailTimes(h, keys[0]) == FailTimes(history, keys[0]) + [now]
  {
    var (h1, h2) := (history + [Check(now, keys[0])], history + [Check(now, keys[0])] + [Check(now, keys[1])]);
    var h3 := h2 + [Fail(now, keys[0])];
    Appended(history, Check(now, keys[0]), keys[0]);
    Appended(h1, Check(now, keys[1]), keys[0]);
    Appended(h2, Fail(now, keys[0]), keys[0]);
    Appended(h3, Fail(now, keys[1]), keys[0]);
    assert h3 + [Fail(now, keys[1])] == history + LoginEvents(now, keys);
  }

  lemma LoginKeepsOrder(history: seq<Event>, now: nat, keys: seq<string>)
    requires |keys| == 2 && InOrder(history) && Clock(history) <= now
    ensures InOrder(history + LoginEvents(now, keys)) && Clock(history + LoginEvents(now, keys)) == now
  {
  }

  lemma LoginIsBackToBack(history: seq<Event>, now: nat, keys: seq<string>)
    requires |keys| == 2 && keys[0] != keys[1] && BackToBack(history, keys[0])
    requires CheckAnswer(Run(history), now, keys[0]) == Allowed
    ensures BackToBack(history + LoginEvents(now, keys), keys[0])
  {
    hide Run, CheckAnswer;
    var (h, n) := (history + LoginEvents(now, keys), |history|);
    assert h[n] == Check(now, keys[0]) && h[n + 1] == Check(now, keys[1]);
    assert h[n + 2] == Fail(now, keys[0]) && h[n + 3] == Fail(now, keys[1]);
    forall i | 0 <= i < |h| && h[i].Fail? && h[i].key == keys[0] ensures exists j :: AdmittedLast(h, j, i, keys[0]) {
      if i < n {
        assert history[i] == h[i];
        var j :| AdmittedLast(history, j, i, keys[0]);
        assert h[..j] == history[..j];
        assert AdmittedLast(h, j, i, keys[0]);
      } else {
        assert i == n + 2 && h[..n] == history;
        assert AdmittedLast(h, n, i, keys[0]);
      }
    }
  }

  lemma OneMore(history: seq<Event>, now: nat, keys: seq<string>, e: Option<Attempts>, clock: nat, from: nat, count: nat)
    returns (history': seq<Event>)
    requires |keys| == 2 && keys[0] != keys[1] && Reaches(history, keys, e, clock, from, count)
    requires clock <= now && (e.Some? ==> e.value.lock.None?)
    ensures Reaches(history', keys, Some(Failed(e, now)), now, from,
                    count + if from <= now < from + LOGIN_LOCK_MS then 1 else 0)
  {
    history' := history + LoginEvents(now, keys);
    hide Holds, FailTimes, Run, InOrder, Failed, BackToBack, LoginEvents, CheckAnswer, AfterCheck, AfterFailure;
    LoneLogin(Run(history), now, keys, e);
    LoginAppended(history, now, keys);
    LoginKeepsOrder(history, now, keys);
    LoginIsBackToBack(history, now, keys);
    WithinSplits(FailTimes(history, keys[0]), [now], from);
    assert Within([now], from) == if from <= now < from + LOGIN_LOCK_MS then 1 else 0;
  }

  /** Eight is reached by whole logins: three failures at the end of one window and five at the start of the next. */
  lemma EightFailuresHappen(email: string, ip: string) returns (history: seq<Event>, from: nat)
    ensures InOrder(history) && BackToBack(history, LoginKeys(email, ip)[0])
    ensures Within(FailTimes(history, LoginKeys(email, ip)[0]), from) == 8
  {
    var keys := LoginKeys(email, ip);
    from := LOGIN_WINDOW_MS;
    var last := from + 2;
    history := [];
    assert Reaches(history, keys, None, 0, from, 0);
    hide Reaches, LoginKeys;
    history := OneMore(history, 1, keys, None, 0, from, 0);
    history := OneMore(history, from, keys, Some(Attempts(1, 1, None)), 1, from, 0);
    history := OneMore(history, from, keys, Some(Attempts(2, 1, None)), from, from, 1);
    history := OneMore(history, from, keys, Some(Attempts(3, 1, None)), from, from, 2);
    history := OneMore(history, last, keys, Some(Attempts(4, 1, None)), from, from, 3);
    history := OneMore(history, last, keys, Some(Attempts(1, last, None)), last, from, 4);
    history := OneMore(history, last, keys, Some(Attempts(2, last, None)), last, from, 5);
    history := OneMore(history, last, keys, Some(Attempts(3, last, None)), last, from, 6);
    history := OneMore(history, last, keys, Some(Attempts(4, last, None)), last, from, 7);
    ReachedCount(history, keys, Some(Failed(Some(Attempts(4, last, None)), last)), last, from, 8);
  }

  lemma ReachedCount(history: seq<Event>, keys: seq<string>, e: Option<Attempts>, clock: nat, from: nat, count: nat)
    requires |keys| == 2 && Reaches(history, keys, e, clock, from, count)
    ensures InOrder(history) && BackToBack(history, keys[0]) && Within(FailTimes(history, keys[0]), from) == count
  {
  }

  // The bound fails when requests overlap.

  /** `n` requests that all check before any of them records. */
  function Rush(key: string, now: nat, n: nat): seq<Event> {
    seq(n, i => Check(now, key)) + seq(n, i => Fail(now, key))
  }

  lemma {:induction false} RushIsAdmitted(key: string, now: nat, n: nat, i: nat)
    requires i <= n
    ensures Run(Rush(key, now, n)[..i]).store == map[]
    ensures CheckAnswer(Run(Rush(key, now, n)[..i]), now, key) == Allowed
    ensures FailTimes(Rush(key, now, n)[..i], key) == []
  {
    var h := Rush(key, now, n)[..i];
    if i > 0 {
      RushIsAdmitted(key, now, n, i - 1);
      assert h[..|h| - 1] == Rush(key, now, n)[..i - 1];
    }
  }

  lemma OneIsWithin(now: nat)
    ensures Within([now], now) == 1
  {
    assert [now][..0] == [];
  }

  lemma FailureIsListed(h: seq<Event>, key: string, now: nat)
    requires h != [] && h[|h| - 1] == Fail(now, key)
    ensures FailTimes(h, key) == FailTimes(h[..|h| - 1], key) + [now]
  {
  }

  lemma FailureIsWithin(h: seq<Event>, key: string, now: nat)
    requires h != [] && h[|h| - 1] == Fail(now, key)
    ensures Within(FailTimes(h, key), now) == Within(FailTimes(h[..|h| - 1], key), now) + 1
  {
    hide FailTimes, Within;
    FailureIsListed(h, key, now);
    WithinSplits(FailTimes(h[..|h| - 1], key), [now], now);
    OneIsWithin(now);
  }

  lemma {:induction false} RushFails(key: string, now: nat, n: nat, i: nat)
    requires i <= n
    ensures Within(FailTimes(Rush(key, now, n)[..n + i], key), now) == i
  {
    hide FailTimes, Within;
    var h := Rush(key, now, n)[..n + i];
    if i == 0 {
      RushIsAdmitted(key, now, n, n);
      NothingIsWithin(now);
    } else {
      RushFails(key, now, n, i - 1);
      assert h[..|h| - 1] == Rush(key, now, n)[..n + i - 1];
      assert h[|h| - 1] == Fail(now, key);
      FailureIsWithin(h, key, now);
    }
  }

  lemma NothingIsWithin(now: nat)
    ensures Within([], now) == 0
  {
  }

  /** However many requests overlap, all their checks are admitted and one moment holds all their failures. */
  lemma RushBreaksTheBound(key: string, now: nat, n: nat)
    ensures InOrder(Rush(key, now, n))
    ensures forall i :: 0 <= i < n ==>
      && Rush(key, now, n)[i] == Check(now, key)
      && CheckAnswer(Run(Rush(key, now, n)[..i]), now, key) == Allowed
    ensures Within(FailTimes(Rush(key, now, n), key), now) == n
  {
    hide Run, CheckAnswer, FailTimes, Within;
    forall i | 0 <= i < n ensures CheckAnswer(Run(Rush(key, now, n)[..i]), now, key) == Allowed {
      RushIsAdmitted(key, now, n, i);
    }
    RushFails(key, now, n, n);
    assert Rush(key, now, n)[..n + n] == Rush(key, now, n);
  }
}
