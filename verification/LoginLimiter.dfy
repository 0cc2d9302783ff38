/** The in-memory login limiter: what each call does to the store, and the class that does it. */
module LoginLimiter {
  import opened Options

  const MAX_LOGIN_ATTEMPTS := 5
  const LOGIN_WINDOW_MS := 10 * 60 * 1000
  const LOGIN_LOCK_MS := 5 * 60 * 1000
  const SWEEP_INTERVAL_MS := 60000
  const CAPACITY := 20000

  datatype Attempts = Attempts(failed: nat, first: nat, lock: Option<nat>)

  datatype Answer = Allowed | Locked(retryAfterSeconds: nat)

  datatype Limiter = Limiter(store: map<string, Attempts>, lastPrune: nat)

  const EMPTY := Limiter(map[], 0)

  function Entry(l: Limiter, key: string): Option<Attempts> {
    if key in l.store then Some(l.store[key]) else None
  }

  predicate Stale(s: Attempts, now: nat) {
    match s.lock
    case Some(until) => until < now
    case None => s.first + LOGIN_WINDOW_MS < now
  }

  function Swept(l: Limiter, now: nat): Limiter {
    if now - l.lastPrune > SWEEP_INTERVAL_MS then
      Limiter(map key | key in l.store && !Stale(l.store[key], now) :: l.store[key], now)
    else
      l
  }

  function SecondsLeft(until: nat, now: nat): nat
    requires now < until
  {
    (until - now + 999) / 1000
  }

  function CheckAnswer(l: Limiter, now: nat, key: string): Answer {
    var swept := Swept(l, now);
    match Entry(swept, key)
    case None => if |swept.store| >= CAPACITY then Locked(60) else Allowed
    case Some(s) => if s.lock.Some? && s.lock.value > now then Locked(SecondsLeft(s.lock.value, now)) else Allowed
  }

  function AfterCheck(l: Limiter, now: nat, key: string): Limiter {
    var swept := Swept(l, now);
    match Entry(swept, key)
    case None => swept
    case Some(s) =>
      if s.lock.Some? && s.lock.value > now then swept
      else if s.lock.Some? || now - s.first > LOGIN_WINDOW_MS then swept.(store := swept.store - {key})
      else swept
  }

  /** What one more failure makes of a key's entry. */
  function Failed(e: Option<Attempts>, now: nat): Attempts {
    if e.None? || now - e.value.first > LOGIN_WINDOW_MS then
      Attempts(1, now, None)
    else
      var failed := e.value.failed + 1;
      Attempts(failed, e.value.first, if failed >= MAX_LOGIN_ATTEMPTS then Some(now + LOGIN_LOCK_MS) else e.value.lock)
  }

  function AfterFailure(l: Limiter, now: nat, key: string): Limiter {
    l.(store := l.store[key := Failed(Entry(l, key), now)])
  }

  function AfterClear(l: Limiter, key: string): Limiter {
    l.(store := l.store - {key})
  }

  /** The keys in order until one is refused; each check reads the clock for itself. */
  function CheckAll(l: Limiter, times: seq<nat>, keys: seq<string>): (Limiter, Answer)
    requires |times| == |keys|
    decreases keys
  {
    if keys == [] then (l, Allowed)
    else
      var answer := CheckAnswer(l, times[0], keys[0]);
      var l' := AfterCheck(l, times[0], keys[0]);
      if answer.Locked? then (l', answer) else CheckAll(l', times[1..], keys[1..])
  }

  function FailAll(l: Limiter, times: seq<nat>, keys: seq<string>): Limiter
    requires |times| == |keys|
    decreases keys
  {
    if keys == [] then l else FailAll(AfterFailure(l, times[0], keys[0]), times[1..], keys[1..])
  }

  function ClearAll(l: Limiter, keys: seq<string>): Limiter
    decreases keys
  {
    if keys == [] then l else ClearAll(AfterClear(l, keys[0]), keys[1..])
  }

  function LoginKeys(email: string, ip: string): (keys: seq<string>)
    ensures |keys| == 2 && keys[0] != keys[1]
  {
    var keys := ["account:" + email, "ip:" + ip];
    assert keys[0][0] == 'a' && keys[1][0] == 'i';
    keys
  }

  /** `loginAttemptStore` and `lastLoginPrune` with the functions that update them. */
  class LoginAttemptStore {
    var attempts: map<string, Attempts>
    var lastPrune: nat

    function Now(): Limiter
      reads this
    {
      Limiter(attempts, lastPrune)
    }

    constructor ()
      ensures Now() == EMPTY
    {
      attempts, lastPrune := map[], 0;
    }

    method Sweep(now: nat)
      modifies this
      ensures Now() == Swept(old(Now()), now)
    {
      if now - lastPrune > SWEEP_INTERVAL_MS {
        lastPrune := now;
        var pending := attempts.Keys;
        while pending != {}
          invariant lastPrune == now && pending <= attempts.Keys
          invariant attempts ==
            map key | key in old(attempts) && (key in pending || !Stale(old(attempts)[key], now)) :: old(attempts)[key]
          decreases pending
        {
          var key :| key in pending;
          pending := pending - {key};
          if Stale(attempts[key], now) {
            attempts := attempts - {key};
          }
        }
        assert attempts == Swept(old(Now()), now).store;
      }
    }

    method CheckLoginRateLimit(now: nat, key: string) returns (answer: Answer)
      modifies this
      ensures Now() == AfterCheck(old(Now()), now, key)
      ensures answer == CheckAnswer(old(Now()), now, key)
    {
      Sweep(now);
      if key !in attempts && |attempts| >= CAPACITY {
        return Locked(60);
      }
      if key !in attempts {
        return Allowed;
      }
      var state := attempts[key];
      if state.lock.Some? && state.lock.value > now {
        return Locked(SecondsLeft(state.lock.value, now));
      }
      if state.lock.Some? || now - state.first > LOGIN_WINDOW_MS {
        attempts := attempts - {key};
      }
      return Allowed;
    }

    method RecordFailedLogin(now: nat, key: string)
      modifies this`attempts
      ensures Now() == AfterFailure(old(Now()), now, key)
    {
      if key !in attempts || now - attempts[key].first > LOGIN_WINDOW_MS {
        attempts := attempts[key := Attempts(1, now, None)];
        return;
      }
      var failed := attempts[key].failed + 1;
      var lock := if failed >= MAX_LOGIN_ATTEMPTS then Some(now + LOGIN_LOCK_MS) else attempts[key].lock;
      attempts := attempts[key := Attempts(failed, attempts[key].first, lock)];
    }

    method ClearFailedLogins(key: string)
      modifies this`attempts
      ensures Now() == AfterClear(old(Now()), key)
    {
      attempts := attempts - {key};
    }

    method CheckLoginRateLimits(times: seq<nat>, keys: seq<string>) returns (answer: Answer)
      requires |times| == |keys|
      modifies this
      ensures (Now(), answer) == CheckAll(old(Now()), times, keys)
    {
      for i := 0 to |keys|
        invariant CheckAll(Now(), times[i..], keys[i..]) == CheckAll(old(Now()), times, keys)
      {
        assert keys[i..][1..] == keys[i + 1..] && times[i..][1..] == times[i + 1..];
        answer := CheckLoginRateLimit(times[i], keys[i]);
        if answer.Locked? {
          return;
        }
      }
      return Allowed;
    }

    method RecordLoginFailures(times: seq<nat>, keys: seq<string>)
      requires |times| == |keys|
      modifies this`attempts
      ensures Now() == FailAll(old(Now()), times, keys)
    {
      for i := 0 to |keys|
        invariant lastPrune == old(lastPrune)
        invariant FailAll(Now(), times[i..], keys[i..]) == FailAll(old(Now()), times, keys)
      {
        assert keys[i..][1..] == keys[i + 1..] && times[i..][1..] == times[i + 1..];
        RecordFailedLogin(times[i], keys[i]);
      }
    }

    method ClearLoginRateLimits(keys: seq<string>)
      modifies this`attempts
      ensures Now() == ClearAll(old(Now()), keys)
    {
      for i := 0 to |keys|
        invariant ClearAll(Now(), keys[i..]) == ClearAll(old(Now()), keys)
      {
        assert keys[i..][1..] == keys[i + 1..];
        ClearFailedLogins(keys[i]);
      }
    }
  }
}
