/** The limiter under interleaved requests, where checks, failures and clears of any keys come in any order. */
module LoginHistory {
  import opened Options
  import opened LoginLimiter

  datatype Event =
    | Check(now: nat, key: string)
    | Fail(now: nat, key: string)
    | Clear(now: nat, key: string)

  function After(l: Limiter, e: Event): Limiter {
    match e
    case Check(now, key) => AfterCheck(l, now, key)
    case Fail(now, key) => AfterFailure(l, now, key)
    case Clear(_, key) => AfterClear(l, key)
  }

  function Run(history: seq<Event>): Limiter {
    if history == [] then EMPTY else After(Run(history[..|history| - 1]), history[|history| - 1])
  }

  function Clock(history: seq<Event>): nat {
    if history == [] then 0 else history[|history| - 1].now
  }

  ghost predicate InOrder(history: seq<Event>) {
    forall i, j :: 0 <= i < j < |history| ==> history[i].now <= history[j].now
  }

  // The limiter that never deletes.

  /** No live lock, and nothing left of the window or of the lock. */
  predicate Over(s: Attempts, now: nat) {
    if s.lock.Some? then s.lock.value <= now else s.first + LOGIN_WINDOW_MS < now
  }

  /** What is known of `key` from its own failures and clears alone: an entry stays until a clear drops it. */
  function Remembered(history: seq<Event>, key: string): Option<Attempts> {
    if history == [] then None
    else
      var (e, last) := (Remembered(history[..|history| - 1], key), history[|history| - 1]);
      if last.key != key || last.Check? then e
      else if last.Clear? then None
      else Some(Failed(if e.Some? && Over(e.value, last.now) then None else e, last.now))
  }

  function RememberedAnswer(e: Option<Attempts>, now: nat): Answer {
    if e.Some? && e.value.lock.Some? && e.value.lock.value > now then Locked(SecondsLeft(e.value.lock.value, now))
    else Allowed
  }

  /** The store never fills up. */
  ghost predicate BelowCapacity(history: seq<Event>) {
    forall i :: 0 <= i <= |history| ==> |Run(history[..i]).store| < CAPACITY
  }

  /** A failure finds no entry whose lock has run out while its window still lasts. */
  predicate NoLingeringLock(l: Limiter, now: nat, key: string) {
    var e := Entry(l, key);
    e.Some? && e.value.lock.Some? && e.value.lock.value <= now ==> now - e.value.first > LOGIN_WINDOW_MS
  }

  ghost predicate Guarded(history: seq<Event>, key: string) {
    forall i :: 0 <= i < |history| && history[i].Fail? && history[i].key == key ==>
      NoLingeringLock(Run(history[..i]), history[i].now, key)
  }

  /** After each event, a check of `key` at that moment or any later one is answered alike by both limiters. */
  ghost predicate AnsweredAlike(history: seq<Event>, key: string) {
    forall i, now: nat :: 0 <= i <= |history| && Clock(history[..i]) <= now ==> AnswersAgree(history[..i], now, key)
  }

  ghost predicate AnswersAgree(history: seq<Event>, now: nat, key: string) {
    CheckAnswer(Run(history), now, key) == RememberedAnswer(Remembered(history, key), now)
  }

  /** The store holds what is remembered, or has dropped it once it was over. */
  ghost predicate Agree(e: Option<Attempts>, remembered: Option<Attempts>, now: nat) {
    e == remembered || (e.None? && Over(remembered.value, now))
  }

  ghost predicate WellFormed(e: Option<Attempts>, now: nat) {
    e.Some? ==>
      && e.value.first <= now
      && (e.value.lock.Some? <==> e.value.failed >= MAX_LOGIN_ATTEMPTS)
      && (e.value.lock.Some? ==> e.value.lock.value <= now + LOGIN_LOCK_MS)
  }

  lemma {:induction false} RunIsWellFormed(history: seq<Event>, key: string)
    requires InOrder(history)
    ensures WellFormed(Entry(Run(history), key), Clock(history))
  {
    if history != [] {
      RunIsWellFormed(history[..|history| - 1], key);
    }
  }

  lemma AgreeGivesAnswer(l: Limiter, e: Option<Attempts>, at: nat, now: nat, key: string)
    requires Agree(Entry(l, key), e, at) && at <= now && |l.store| < CAPACITY
    ensures CheckAnswer(l, now, key) == RememberedAnswer(e, now)
  {
    SweptShrinks(l, now);
  }

  lemma SweptShrinks(l: Limiter, now: nat)
    ensures |Swept(l, now).store| <= |l.store|
  {
    var rest := l.store.Keys - Swept(l, now).store.Keys;
    assert Swept(l, now).store.Keys + rest == l.store.Keys;
  }

  lemma StepKeepsAgree(l: Limiter, e: Option<Attempts>, at: nat, event: Event, key: string)
    requires Agree(Entry(l, key), e, at) && at <= event.now
    requires event.Fail? && event.key == key ==> NoLingeringLock(l, event.now, key)
    ensures var e' :=
      if event.key != key || event.Check? then e
      else if event.Clear? then None
      else Some(Failed(if e.Some? && Over(e.value, event.now) then None else e, event.now));
      Agree(Entry(After(l, event), key), e', event.now)
  {
  }

  lemma {:induction false} GuardedAgrees(history: seq<Event>, key: string)
    requires InOrder(history) && Guarded(history, key)
    ensures Agree(Entry(Run(history), key), Remembered(history, key), Clock(history))
  {
    if history != [] {
      var (before, last) := (history[..|history| - 1], history[|history| - 1]);
      PrefixGuarded(history, |before|, key);
      GuardedAgrees(before, key);
      StepKeepsAgree(Run(before), Remembered(before, key), Clock(before), last, key);
    }
  }

  lemma PrefixGuarded(history: seq<Event>, n: nat, key: string)
    requires n <= |history| && Guarded(history, key)
    ensures Guarded(history[..n], key)
  {
    forall i | 0 <= i < n && history[i].Fail? && history[i].key == key
      ensures NoLingeringLock(Run(history[..n][..i]), history[i].now, key)
    {
      assert history[..n][..i] == history[..i];
    }
  }

  /** Below capacity the sweep and the lazy deletions are invisible exactly while no failure meets a lingering lock. */
  lemma SweepIsInvisible(history: seq<Event>, key: string)
    requires InOrder(history) && BelowCapacity(history)
    ensures AnsweredAlike(history, key) <==> Guarded(history, key)
  {
    if Guarded(history, key) {
      forall i, now: nat | 0 <= i <= |history| && Clock(history[..i]) <= now ensures AnswersAgree(history[..i], now, key) {
        PrefixGuarded(history, i, key);
        GuardedAgrees(history[..i], key);
        AgreeGivesAnswer(Run(history[..i]), Remembered(history[..i], key), Clock(history[..i]), now, key);
      }
    } else {
      assert history[..|history|] == history;
      var i := FirstUnguarded(history, |history|, key);
      LingeringLockShows(history, i, key);
    }
  }

  lemma {:induction false} FirstUnguarded(history: seq<Event>, n: nat, key: string) returns (i: nat)
    requires n <= |history| && !Guarded(history[..n], key)
    ensures i < n && Guarded(history[..i], key)
    ensures history[i].Fail? && history[i].key == key && !NoLingeringLock(Run(history[..i]), history[i].now, key)
  {
    i :| 0 <= i < n && history[i].Fail? && history[i].key == key &&
      !NoLingeringLock(Run(history[..n][..i]), history[i].now, key);
    assert history[..n][..i] == history[..i];
    if !Guarded(history[..i], key) {
      i := FirstUnguarded(history, i, key);
    }
  }

  /** A failure that meets a lingering lock locks the key again; the limiter that never deletes starts a new count. */
  lemma LingeringLockShows(history: seq<Event>, i: nat, key: string)
    requires InOrder(history) && BelowCapacity(history) && i < |history| && Guarded(history[..i], key)
    requires history[i].Fail? && history[i].key == key && !NoLingeringLock(Run(history[..i]), history[i].now, key)
    ensures CheckAnswer(Run(history[..i + 1]), history[i].now, key).Locked?
    ensures RememberedAnswer(Remembered(history[..i + 1], key), history[i].now) == Allowed
    ensures !AnsweredAlike(history, key)
  {
    var (before, now) := (history[..i], history[i].now);
    assert history[..i + 1][..i] == before;
    RunIsWellFormed(before, key);
    GuardedAgrees(before, key);
    LockedAgain(Run(before), now, key);
    assert Clock(history[..i + 1]) == now && !AnswersAgree(history[..i + 1], now, key);
  }

  lemma LockedAgain(l: Limiter, now: nat, key: string)
    requires !NoLingeringLock(l, now, key) && l.store[key].failed >= MAX_LOGIN_ATTEMPTS
    ensures CheckAnswer(AfterFailure(l, now, key), now, key).Locked?
  {
    LiveLockIsRefused(AfterFailure(l, now, key), now, key);
  }

  /** The check at `j` admitted `key`, and no other event of that key came before `i`. */
  ghost predicate AdmittedLast(history: seq<Event>, j: int, i: nat, key: string)
    requires i <= |history|
  {
    && 0 <= j < i && history[j].Check? && history[j].key == key
    && CheckAnswer(Run(history[..j]), history[j].now, key) == Allowed
    && forall k :: j < k < i ==> history[k].key != key
  }

  /** Each failure follows its own check with no other event of the key between the two. */
  ghost predicate BackToBack(history: seq<Event>, key: string) {
    forall i :: 0 <= i < |history| && history[i].Fail? && history[i].key == key ==>
      exists j :: AdmittedLast(history, j, i, key)
  }

  lemma AdmissionOrOtherKey(l: Limiter, event: Event, key: string)
    ensures var e, e' := Entry(l, key), Entry(After(l, event), key);
      && (event.key != key ==> e'.None? || e' == e)
      && (event.key == key && event.Check? && CheckAnswer(l, event.now, key) == Allowed ==> e'.None? || e'.value.lock.None?)
  {
  }

  lemma {:induction false} AdmittedHasNoLock(history: seq<Event>, j: int, i: nat, key: string)
    requires i <= |history| && AdmittedLast(history, j, i, key)
    ensures var e := Entry(Run(history[..i]), key); e.Some? ==> e.value.lock.None?
    decreases i
  {
    assert history[..i][..i - 1] == history[..i - 1];
    AdmissionOrOtherKey(Run(history[..i - 1]), history[i - 1], key);
    assert Run(history[..i]) == After(Run(history[..i - 1]), history[i - 1]);
    hide Run, After, CheckAnswer;
    if j < i - 1 {
      AdmittedHasNoLock(history, j, i - 1, key);
    }
  }

  /** Such runs never meet a lingering lock: they are answered exactly as if nothing were ever deleted. */
  lemma BackToBackIsAnsweredAlike(history: seq<Event>, key: string)
    requires InOrder(history) && BelowCapacity(history) && BackToBack(history, key)
    ensures AnsweredAlike(history, key)
  {
    forall i | 0 <= i < |history| && history[i].Fail? && history[i].key == key
      ensures NoLingeringLock(Run(history[..i]), history[i].now, key)
    {
      var j :| AdmittedLast(history, j, i, key);
      AdmittedHasNoLock(history, j, i, key);
    }
    SweepIsInvisible(history, key);
  }

  // Live locks.

  predicate LiveLock(l: Limiter, now: nat, key: string) {
    var e := Entry(l, key);
    e.Some? && e.value.lock.Some? && e.value.lock.value > now
  }

  /** The two events that may drop a live lock before its time. */
  predicate Drops(l: Limiter, e: Event, key: string) {
    && e.key == key && key in l.store
    && (e.Clear? || (e.Fail? && e.now - l.store[key].first > LOGIN_WINDOW_MS))
  }

  /** A live lock goes exactly by a clear or by a failure outside its window, and otherwise never gets shorter. */
  lemma LiveLockStep(history: seq<Event>, i: nat, key: string)
    requires InOrder(history) && i < |history| && LiveLock(Run(history[..i]), history[i].now, key)
    ensures Run(history[..i + 1]) == After(Run(history[..i]), history[i])
    ensures var (e, l, l') := (history[i], Run(history[..i]), Run(history[..i + 1]));
      && (Drops(l, e, key) ==> !LiveLock(l', e.now, key))
      && (!Drops(l, e, key) ==>
            && key in l'.store && l'.store[key].lock.Some? && l'.store[key].first == l.store[key].first
            && l.store[key].lock.value <= l'.store[key].lock.value
            && (l'.store[key] != l.store[key] ==> e.Fail? && e.key == key && l'.store[key].lock.value == e.now + LOGIN_LOCK_MS))
  {
    assert history[..i + 1][..i] == history[..i];
    RunIsWellFormed(history[..i], key);
    assert Clock(history[..i]) <= history[i].now;
  }

  /** Until a live lock runs out, every check of its key is refused, whatever else happens, unless an event drops it. */
  lemma {:induction false} LockHolds(history: seq<Event>, start: nat, end: nat, key: string, until: nat)
    requires InOrder(history) && start <= end <= |history|
    requires var e := Entry(Run(history[..start]), key); e.Some? && e.value.lock.Some? && until <= e.value.lock.value
    requires forall i :: start <= i < end ==> history[i].now < until && !Drops(Run(history[..i]), history[i], key)
    ensures var e := Entry(Run(history[..end]), key); e.Some? && e.value.lock.Some? && until <= e.value.lock.value
    ensures forall i :: start <= i < end ==> CheckAnswer(Run(history[..i]), history[i].now, key).Locked?
    decreases end
  {
    hide Run, After, Drops, CheckAnswer, InOrder;
    if start < end {
      LockHolds(history, start, end - 1, key, until);
      LiveLockStep(history, end - 1, key);
      LiveLockIsRefused(Run(history[..end - 1]), history[end - 1].now, key);
    }
  }

  lemma LiveLockIsRefused(l: Limiter, now: nat, key: string)
    ensures LiveLock(l, now, key) ==> CheckAnswer(l, now, key).Locked?
  {
  }
}
