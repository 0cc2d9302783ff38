/** What the limiter promises in numbers: five failures in ten minutes lock a key for five minutes. */
module LoginLocks {
  import opened Options
  import opened LoginLimiter
  import opened LoginHistory
  import opened LoginBound

  // One call.

  /** The entry is still there after a sweep at `now`. */
  predicate Lasts(s: Attempts, now: nat) {
    match s.lock
    case Some(until) => now <= until
    case None => now <= s.first + 600000
  }

  /** The keys that a check at `now` still finds: it sweeps if more than a minute has passed since the last sweep. */
  function Found(l: Limiter, now: nat): set<string> {
    set key | key in l.store && (now <= l.lastPrune + 60000 || Lasts(l.store[key], now))
  }

  lemma FoundAreSwept(l: Limiter, now: nat)
    ensures Swept(l, now).store.Keys == Found(l, now)
    ensures forall key <- Found(l, now) :: Swept(l, now).store[key] == l.store[key]
    ensures Swept(l, now).lastPrune == if now > l.lastPrune + 60000 then now else l.lastPrune
  {
    assert forall key :: key in Swept(l, now).store <==> key in Found(l, now);
  }

  /** The least number of whole seconds that covers this many milliseconds. */
  predicate RoundsUp(seconds: int, ms: int) {
    1000 * (seconds - 1) < ms <= 1000 * seconds
  }

  /**
    A key is refused for the rest of a live lock, rounded up to seconds, or for a minute if it is unknown and 20000 keys
    are known; otherwise it is admitted.
   */
  lemma CheckIsExact(l: Limiter, now: nat, key: string)
    ensures var live := key in l.store && l.store[key].lock.Some? && now < l.store[key].lock.value;
      var full := key !in Found(l, now) && |Found(l, now)| >= 20000;
      match CheckAnswer(l, now, key)
      case Locked(seconds) => if live then RoundsUp(seconds, l.store[key].lock.value - now) else full && seconds == 60
      case Allowed => !live && !full
  {
    FoundAreSwept(l, now);
  }

  /** A check drops what the sweep drops, and its own entry once the lock or the window is over; it changes no other. */
  lemma CheckDropsExactly(l: Limiter, now: nat, key: string)
    ensures var after := AfterCheck(l, now, key).store;
      && (forall k: string :: k in after <==>
            && k in Found(l, now)
            && (k == key ==> if l.store[k].lock.Some? then now < l.store[k].lock.value else now <= l.store[k].first + 600000))
      && (forall k <- after :: after[k] == l.store[k])
  {
    FoundAreSwept(l, now);
  }

  /** Two logins share a counter exactly if they have the same email or the same address; the two kinds never mix. */
  lemma KeysAreApart(email: string, ip: string, email': string, ip': string)
    ensures var (keys, keys') := (LoginKeys(email, ip), LoginKeys(email', ip'));
      && (keys[0] == keys'[0] <==> email == email')
      && (keys[1] == keys'[1] <==> ip == ip')
      && keys[0] != keys'[1]
  {
    var (keys, keys') := (LoginKeys(email, ip), LoginKeys(email', ip'));
    assert keys[0][8..] == email && keys'[0][8..] == email' && keys[1][3..] == ip && keys'[1][3..] == ip';
    assert keys[0][0] == 'a' && keys'[1][0] == 'i';
  }

  // Every interleaving.

  /** One to five failures, all within ten minutes of the first. */
  predicate InOneWindow(times: seq<nat>) {
    1 <= |times| <= 5 && forall i :: 0 <= i < |times| ==> times[0] <= times[i] <= times[0] + 600000
  }

  function Counted(times: seq<nat>): Option<Attempts> {
    if times == [] then None
    else Some(Attempts(|times|, times[0], if |times| == 5 then Some(times[4] + 300000) else None))
  }

  /** The window of these failures is over, or the lock if there are five. */
  predicate IsOver(times: seq<nat>, now: nat) {
    times != [] && if |times| == 5 then times[4] + 300000 <= now else times[0] + 600000 < now
  }

  predicate Counts(e: Option<Attempts>, times: seq<nat>, now: nat) {
    e == Counted(times) || (e.None? && IsOver(times, now))
  }

  lemma FailureCounts(l: Limiter, times: seq<nat>, at: nat, now: nat, key: string)
    requires Counts(Entry(l, key), times, at) && at <= now && InOneWindow(times + [now])
    ensures Entry(AfterFailure(l, now, key), key) == Counted(times + [now])
  {
    var more := times + [now];
    assert more[|times|] == now && (times != [] ==> more[0] == times[0]);
  }

  lemma OtherKeepsCount(l: Limiter, times: seq<nat>, at: nat, e: Event, key: string)
    requires Counts(Entry(l, key), times, at) && at <= e.now && (e.key != key || e.Check?)
    ensures Counts(Entry(After(l, e), key), times, e.now)
  {
    if e.Check? {
      CheckDropsExactly(l, e.now, e.key);
    }
  }

  lemma {:induction false} FailuresAreCounted(history: seq<Event>, key: string)
    requires InOrder(history) && (FailTimes(history, key) == [] || InOneWindow(FailTimes(history, key)))
    ensures Counts(Entry(Run(history), key), FailTimes(history, key), Clock(history))
  {
    hide After, InOneWindow, Counts;
    if history == [] {
      NothingCounts(key);
    } else {
      var (before, last) := (history[..|history| - 1], history[|history| - 1]);
      var times := FailTimes(before, key);
      assert Clock(before) <= last.now;
      if last.key != key || last.Check? {
        FailuresAreCounted(before, key);
        OtherKeepsCount(Run(before), times, Clock(before), last, key);
      } else if last.Clear? {
        ClearForgets(Run(before), last, key);
      } else {
        FewerInWindow(times, last.now);
        FailuresAreCounted(before, key);
        FailureIsApplied(Run(before), last);
        FailureCounts(Run(before), times, Clock(before), last.now, key);
        CountedCounts(times + [last.now], last.now);
      }
    }
  }

  lemma NothingCounts(key: string)
    ensures Counts(Entry(EMPTY, key), [], 0)
  {
  }

  lemma CountedCounts(times: seq<nat>, now: nat)
    ensures Counts(Counted(times), times, now)
  {
  }

  lemma ClearForgets(l: Limiter, e: Event, key: string)
    requires e.Clear? && e.key == key
    ensures Counts(Entry(After(l, e), key), [], e.now)
  {
  }

  lemma FailureIsApplied(l: Limiter, e: Event)
    requires e.Fail?
    ensures After(l, e) == AfterFailure(l, e.now, e.key)
  {
  }

  lemma FewerInWindow(times: seq<nat>, now: nat)
    requires InOneWindow(times + [now])
    ensures times == [] || InOneWindow(times)
  {
    var more := times + [now];
    assert forall i :: 0 <= i < |times| ==> more[i] == times[i];
  }

  /**
    In every interleaving: a key whose failures since its last success are five within ten minutes is refused for five
    minutes after the fifth, and told how long; otherwise, or with fewer, it is admitted unless the store is full of others.
   */
  lemma FifthFailureLocks(history: seq<Event>, key: string, now: nat)
    requires InOrder(history) && Clock(history) <= now && InOneWindow(FailTimes(history, key))
    ensures var (times, l) := (FailTimes(history, key), Run(history));
      var live := |times| == 5 && now < times[4] + 300000;
      match CheckAnswer(l, now, key)
      case Locked(seconds) =>
        if live then RoundsUp(seconds, times[4] + 300000 - now)
        else seconds == 60 && |Found(l, now)| >= 20000 && IsOver(times, now)
      case Allowed => !live
  {
    hide Run, FailTimes, CheckAnswer, InOrder;
    FailuresAreCounted(history, key);
    CheckIsExact(Run(history), now, key);
  }

  /** A failure that comes more than ten minutes after the first one of its count begins a new count. */
  lemma NewWindowStarts(l: Limiter, now: nat, key: string)
    requires key in l.store && now > l.store[key].first + 600000
    ensures Entry(AfterFailure(l, now, key), key) == Counted([now])
  {
  }
}
