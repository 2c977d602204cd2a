/** Kraken's request gate: `_await_throttle` and `_set_backoff`. Both run under one lock, so each pass through
  * a lock body is one event; a refused request changes nothing, sleeps and tries again. The gate keeps only
  * five fields, while its promises are about the whole history of grants and backoffs.
  */
module KrakenGate {
  import opened Basics
  import opened Wrappers

  datatype Key = Key(endpoint: string, pair: string)

  datatype Event =
    | Granted(at: real, key: Option<Key>)
    | Backoff(at: real, until: real, strong: bool)

  const BASE_INTERVAL_MS := 200.0
  const PAIR_INTERVAL_MS := 1100.0
  const EXTRA_INTERVAL_MS := 1000.0
  const SLOWDOWN_S := 60.0

  // ----- What the gate promises, told from the history -----------------------------------------------------

  /** Clock readings are positive and never go back. */
  ghost predicate Ordered(log: seq<Event>) {
    && (forall i :: 0 <= i < |log| ==> log[i].at > 0.0)
    && (forall i, j :: 0 <= i < j < |log| ==> log[i].at <= log[j].at)
  }

  ghost predicate NotBefore(log: seq<Event>, now: real) {
    now > 0.0 && forall i :: 0 <= i < |log| ==> log[i].at <= now
  }

  ghost predicate OutsideBackoffs(log: seq<Event>, now: real) {
    forall i :: 0 <= i < |log| && log[i].Backoff? ==> now >= log[i].until
  }

  ghost predicate Slowed(log: seq<Event>, now: real) {
    exists i :: 0 <= i < |log| && log[i].Backoff? && log[i].strong && now < log[i].at + 60.0
  }

  ghost predicate ApartFromGrants(log: seq<Event>, now: real, gap: real) {
    forall i :: 0 <= i < |log| && log[i].Granted? ==> now - log[i].at >= gap
  }

  ghost predicate ApartFromKey(log: seq<Event>, now: real, key: Option<Key>, gap: real) {
    forall i :: 0 <= i < |log| && log[i].Granted? && key.Some? && log[i].key == key ==> now - log[i].at >= gap
  }

  ghost predicate Allowed(log: seq<Event>, now: real, key: Option<Key>) {
    && OutsideBackoffs(log, now)
    && ApartFromGrants(log, now, if Slowed(log, now) then 1.2 else 0.2)
    && ApartFromKey(log, now, key, 1.1)
  }

  // ----- What the gate remembers ------------------------------------------------------------------------------

  datatype Memory = Memory(lastRequestAt: real, lastPairCallAt: map<Key, real>, backoffUntil: real,
                           slowdownUntil: real, extraIntervalMs: real)

  function Noted(m: Memory, e: Event): Memory {
    match e
    case Granted(at, key) =>
      m.(lastRequestAt := at, lastPairCallAt := if key.Some? then m.lastPairCallAt[key.value := at] else m.lastPairCallAt)
    case Backoff(at, until, strong) =>
      var n := m.(backoffUntil := RealMax(m.backoffUntil, until));
      if strong then n.(slowdownUntil := RealMax(m.slowdownUntil, at + SLOWDOWN_S),
                        extraIntervalMs := RealMax(m.extraIntervalMs, EXTRA_INTERVAL_MS))
      else n
  }

  function Remembered(log: seq<Event>): Memory {
    if log == [] then Memory(0.0, map[], 0.0, 0.0, 0.0)
    else Noted(Remembered(log[..|log| - 1]), log[|log| - 1])
  }

  function IntervalS(m: Memory, now: real): real {
    (BASE_INTERVAL_MS + if now < m.slowdownUntil then m.extraIntervalMs else 0.0) / 1000.0
  }

  function LastOn(m: Memory, key: Option<Key>): real {
    if key.Some? && key.value in m.lastPairCallAt then m.lastPairCallAt[key.value] else 0.0
  }

  predicate Spaced(last: real, now: real, interval: real) {
    last > 0.0 ==> now - last >= interval
  }

  predicate Open(m: Memory, now: real, key: Option<Key>) {
    && now >= m.backoffUntil
    && Spaced(m.lastRequestAt, now, IntervalS(m, now))
    && Spaced(LastOn(m, key), now, PAIR_INTERVAL_MS / 1000.0)
  }

  // ----- The five fields are enough ------------------------------------------------------------------------------

  lemma {:induction false} BackoffFaithful(log: seq<Event>, now: real)
    requires now > 0.0
    ensures now >= Remembered(log).backoffUntil <==> OutsideBackoffs(log, now)
  {
    if log != [] {
      var n := |log| - 1;
      BackoffFaithful(log[..n], now);
      assert OutsideBackoffs(log, now) <==> OutsideBackoffs(log[..n], now) && (log[n].Backoff? ==> now >= log[n].until);
    }
  }

  lemma {:induction false} SlowdownFaithful(log: seq<Event>, now: real)
    requires now > 0.0
    ensures now < Remembered(log).slowdownUntil <==> Slowed(log, now)
    ensures Remembered(log).slowdownUntil > 0.0 ==> Remembered(log).extraIntervalMs == EXTRA_INTERVAL_MS
    ensures Remembered(log).extraIntervalMs in {0.0, EXTRA_INTERVAL_MS}
  {
    if log != [] {
      var n := |log| - 1;
      SlowdownFaithful(log[..n], now);
      SlowedGrows(log, now);
    }
  }

  lemma SlowedGrows(log: seq<Event>, now: real)
    requires log != []
    ensures var n := |log| - 1;
            Slowed(log, now) <==> Slowed(log[..n], now) || (log[n].Backoff? && log[n].strong && now < log[n].at + SLOWDOWN_S)
  {
    var n := |log| - 1;
    if Slowed(log[..n], now) {
      var i :| 0 <= i < n && log[..n][i].Backoff? && log[..n][i].strong && now < log[..n][i].at + SLOWDOWN_S;
      assert log[i] == log[..n][i];
    }
    if Slowed(log, now) {
      var i :| 0 <= i < |log| && log[i].Backoff? && log[i].strong && now < log[i].at + SLOWDOWN_S;
      assert i < n ==> log[..n][i] == log[i];
    }
  }

  lemma {:induction false} RequestsFaithful(log: seq<Event>, now: real, gap: real)
    requires Ordered(log) && NotBefore(log, now)
    ensures Spaced(Remembered(log).lastRequestAt, now, gap) <==> ApartFromGrants(log, now, gap)
  {
    if log != [] {
      var n := |log| - 1;
      RequestsFaithful(log[..n], now, gap);
      assert ApartFromGrants(log, now, gap)
        <==> ApartFromGrants(log[..n], now, gap) && (log[n].Granted? ==> now - log[n].at >= gap);
    }
  }

  lemma {:induction false} PairFaithful(log: seq<Event>, now: real, key: Option<Key>, gap: real)
    requires Ordered(log) && NotBefore(log, now)
    ensures Spaced(LastOn(Remembered(log), key), now, gap) <==> ApartFromKey(log, now, key, gap)
  {
    if log != [] {
      var n := |log| - 1;
      PairFaithful(log[..n], now, key, gap);
      assert ApartFromKey(log, now, key, gap)
        <==> ApartFromKey(log[..n], now, key, gap)
             && (log[n].Granted? && key.Some? && log[n].key == key ==> now - log[n].at >= gap);
    }
  }

  /** The five fields decide exactly what the whole history decides. */
  lemma OpenIffAllowed(log: seq<Event>, now: real, key: Option<Key>)
    requires Ordered(log) && NotBefore(log, now)
    ensures Open(Remembered(log), now, key) <==> Allowed(log, now, key)
  {
    BackoffFaithful(log, now);
    SlowdownFaithful(log, now);
    RequestsFaithful(log, now, IntervalS(Remembered(log), now));
    PairFaithful(log, now, key, PAIR_INTERVAL_MS / 1000.0);
  }

  // ----- The wait a refused request is told -----------------------------------------------------------------------

  /** How long until `until`, 0 when it has passed. */
  function Remaining(until: real, now: real): real {
    RealMax(until - now, 0.0)
  }

  function Shortfall(last: real, now: real, interval: real): real {
    if last > 0.0 then RealMax(interval - (now - last), 0.0) else 0.0
  }

  /** The longest of the delays in force. */
  function Wait(m: Memory, now: real, key: Option<Key>): real {
    RealMax(Remaining(m.backoffUntil, now),
        RealMax(Shortfall(m.lastRequestAt, now, IntervalS(m, now)),
            Shortfall(LastOn(m, key), now, PAIR_INTERVAL_MS / 1000.0)))
  }

  /** Waiting that long is enough, and nothing shorter is while the slowdown in force stays what it is. */
  lemma WaitIsExact(m: Memory, now: real, key: Option<Key>, later: real)
    requires later >= now && m.extraIntervalMs >= 0.0
    ensures Wait(m, now, key) == 0.0 <==> Open(m, now, key)
    ensures later == now + Wait(m, now, key) ==> Open(m, later, key)
    ensures later < now + Wait(m, now, key) && IntervalS(m, later) == IntervalS(m, now) ==> !Open(m, later, key)
  {
  }

  // ----- The gate ---------------------------------------------------------------------------------------------------

  /** The clock never went back, and every grant in the log was allowed by what had happened before it. */
  ghost predicate Legal(log: seq<Event>) {
    log == []
    || var front, e := log[..|log| - 1], log[|log| - 1];
       Legal(front) && NotBefore(front, e.at) && (e.Granted? ==> Allowed(front, e.at, e.key))
  }

  lemma {:induction false} LegalIsOrdered(log: seq<Event>)
    requires Legal(log)
    ensures Ordered(log)
  {
    if log != [] {
      LegalIsOrdered(log[..|log| - 1]);
    }
  }

  lemma {:induction false} LegalAt(log: seq<Event>, i: nat)
    requires Legal(log) && i < |log|
    ensures NotBefore(log[..i], log[i].at) && (log[i].Granted? ==> Allowed(log[..i], log[i].at, log[i].key))
  {
    var n := |log| - 1;
    if i < n {
      LegalAt(log[..n], i);
      assert log[..n][..i] == log[..i];
    }
  }

  lemma AppendKeepsLegal(log: seq<Event>, e: Event)
    requires Legal(log) && NotBefore(log, e.at) && (e.Granted? ==> Allowed(log, e.at, e.key))
    ensures Legal(log + [e])
    ensures Remembered(log + [e]) == Noted(Remembered(log), e)
  {
    assert (log + [e])[..|log|] == log;
  }

  /** What happens at the gate: a request that comes to the lock, or a backoff that is announced. */
  datatype Call = Request(now: real, key: Option<Key>) | Announce(now: real, until: real, strong: bool)

  /** The five fields, and for the record everything the gate did. */
  datatype Run = Run(memory: Memory, log: seq<Event>)

  /** One call, decided on the five fields alone. */
  function Took(r: Run, c: Call): Run {
    match c
    case Request(now, key) =>
      if Open(r.memory, now, key) then Run(Noted(r.memory, Granted(now, key)), r.log + [Granted(now, key)]) else r
    case Announce(now, until, strong) =>
      Run(Noted(r.memory, Backoff(now, until, strong)), r.log + [Backoff(now, until, strong)])
  }

  function Play(calls: seq<Call>): Run {
    if calls == [] then Run(Remembered([]), []) else Took(Play(calls[..|calls| - 1]), calls[|calls| - 1])
  }

  /** Clock readings are positive and never go back. */
  ghost predicate Clocked(calls: seq<Call>) {
    && (forall i :: 0 <= i < |calls| ==> calls[i].now > 0.0)
    && (forall i, j :: 0 <= i < j < |calls| ==> calls[i].now <= calls[j].now)
  }

  /** The fields are what the log makes them, and the log is legal. */
  ghost predicate Records(m: Memory, log: seq<Event>) {
    m == Remembered(log) && Legal(log)
  }

  lemma AttemptRecorded(m: Memory, log: seq<Event>, now: real, key: Option<Key>)
    requires Records(m, log) && NotBefore(log, now)
    ensures Wait(m, now, key) <= 0.0 <==> Allowed(log, now, key)
    ensures Wait(m, now, key) <= 0.0 <==> Open(m, now, key)
    ensures Wait(m, now, key) <= 0.0 ==> Records(Noted(m, Granted(now, key)), log + [Granted(now, key)])
    ensures Allowed(log, now + Wait(m, now, key), key)
  {
    var later := now + Wait(m, now, key);
    LegalIsOrdered(log);
    OpenIffAllowed(log, now, key);
    SlowdownFaithful(log, now);
    WaitIsExact(m, now, key, later);
    OpenIffAllowed(log, later, key);
    if Wait(m, now, key) <= 0.0 {
      AppendKeepsLegal(log, Granted(now, key));
    }
  }

  lemma AnnounceRecorded(r: Run, now: real, until: real, strong: bool)
    requires Records(r.memory, r.log) && NotBefore(r.log, now)
    ensures Records(Took(r, Announce(now, until, strong)).memory, Took(r, Announce(now, until, strong)).log)
  {
    AppendKeepsLegal(r.log, Backoff(now, until, strong));
  }

  /** The exponential backoff in seconds: doubled with every attempt, capped at a minute, then jittered. */
  function Exponential(attempt: nat): real {
    if attempt == 0 then 1.0 else 2.0 * Exponential(attempt - 1)
  }

  function JitteredWait(attempt: nat, jitter: real): real {
    var power := Exponential(attempt);
    (if power > 60.0 then 60.0 else power) * (0.5 + jitter)
  }

  lemma {:induction false} ExponentialGrows(attempt: nat)
    ensures Exponential(attempt) >= 1.0
    ensures attempt >= 6 ==> Exponential(attempt) > 60.0
  {
    if attempt > 6 {
      ExponentialGrows(attempt - 1);
    } else if attempt > 0 {
      ExponentialGrows(attempt - 1);
      assert attempt == 6 ==> Exponential(attempt) == 64.0 by {
        assert Exponential(1) == 2.0 && Exponential(2) == 4.0 && Exponential(3) == 8.0;
        assert Exponential(4) == 16.0 && Exponential(5) == 32.0;
      }
    }
  }

  /** Every backoff lasts between half a second and a minute and a half, from the sixth attempt on at least
    * half a minute.
    */
  lemma WaitIsBounded(attempt: nat, jitter: real)
    requires 0.0 <= jitter < 1.0
    ensures 0.5 <= JitteredWait(attempt, jitter) < 90.0
    ensures attempt >= 6 ==> JitteredWait(attempt, jitter) >= 30.0
  {
    ExponentialGrows(attempt);
    var power, factor := Exponential(attempt), 0.5 + jitter;
    var capped := if power > 60.0 then 60.0 else power;
    assert JitteredWait(attempt, jitter) == capped * factor;
    Scaled(1.0, capped, factor);
    assert capped * (1.5 - factor) > 0.0;
    assert capped * factor < capped * 1.5;
    assert attempt >= 6 ==> capped == 60.0;
  }

  /** The wait starts at a second, doubles with every attempt, and is capped at a minute, each time jittered by the
    * same factor.
    */
  lemma WaitDoublesUpToTheCap(attempt: nat, jitter: real)
    requires 0.0 <= jitter < 1.0
    ensures JitteredWait(0, jitter) == 0.5 + jitter
    ensures JitteredWait(attempt + 1, jitter) == RealMin(2.0 * JitteredWait(attempt, jitter), 60.0 * (0.5 + jitter))
  {
    ExponentialGrows(attempt);
    var factor, power := 0.5 + jitter, Exponential(attempt);
    var capped := if power > 60.0 then 60.0 else power;
    assert 2.0 * (capped * factor) == (2.0 * capped) * factor;
    if power > 30.0 {
      Scaled(60.0, 2.0 * capped, factor);
    } else {
      Scaled(2.0 * capped, 60.0, factor);
    }
  }

  lemma Scaled(low: real, high: real, factor: real)
    requires low <= high && factor >= 0.0
    ensures low * factor <= high * factor
  {
    assert (high - low) * factor >= 0.0;
  }

  /** The wait lasts until an announced time that lies ahead, else it is jittered. */
  ghost predicate BacksOff(now: real, attempt: nat, retryUntil: Option<real>, jitter: real, wait: real) {
    if retryUntil.Some? && retryUntil.value > now then now + wait == retryUntil.value
    else wait == JitteredWait(attempt, jitter)
  }

  class Gate {
    var lastRequestAt: real
    var lastPairCallAt: map<Key, real>
    var backoffUntil: real
    var slowdownUntil: real
    var extraIntervalMs: real
    ghost var log: seq<Event>

    ghost function Memorised(): Memory reads this {
      Memory(lastRequestAt, lastPairCallAt, backoffUntil, slowdownUntil, extraIntervalMs)
    }

    ghost function SoFar(): Run reads this {
      Run(Memorised(), log)
    }

    ghost predicate Valid() reads this {
      Records(Memorised(), log)
    }

    constructor ()
      ensures Valid() && SoFar() == Play([])
    {
      lastRequestAt, lastPairCallAt := 0.0, map[];
      backoffUntil, slowdownUntil, extraIntervalMs := 0.0, 0.0, 0.0;
      log := [];
    }

    /** The delays `_await_throttle` collects, of which only the longest matters. */
    method LongestDelay(now: real, key: Option<Key>) returns (wait: real)
      ensures wait == Wait(Memorised(), now, key)
    {
      wait := 0.0;
      if now < backoffUntil {
        wait := backoffUntil - now;
      }
      var globalIntervalMs := BASE_INTERVAL_MS;
      if now < slowdownUntil {
        globalIntervalMs := globalIntervalMs + extraIntervalMs;
      }
      if lastRequestAt > 0.0 {
        var since, intervalS := now - lastRequestAt, globalIntervalMs / 1000.0;
        if since < intervalS {
          wait := RealMax(wait, intervalS - since);
        }
      }
      if key.Some? {
        var last := if key.value in lastPairCallAt then lastPairCallAt[key.value] else 0.0;
        if last > 0.0 {
          var since, pairIntervalS := now - last, PAIR_INTERVAL_MS / 1000.0;
          if since < pairIntervalS {
            wait := RealMax(wait, pairIntervalS - since);
          }
        }
      }
    }

    method Record(now: real, key: Option<Key>)
      modifies this
      ensures Memorised() == Noted(old(Memorised()), Granted(now, key))
      ensures log == old(log) + [Granted(now, key)]
    {
      lastRequestAt := now;
      if key.Some? {
        lastPairCallAt := lastPairCallAt[key.value := now];
      }
      log := log + [Granted(now, key)];
    }

    /** One pass through the lock body of `_await_throttle` at time `now`. */
    method Attempt(now: real, key: Option<Key>) returns (granted: bool, wait: real)
      requires Valid() && NotBefore(log, now)
      modifies this
      ensures Valid() && SoFar() == Took(old(SoFar()), Request(now, key))
      ensures granted <==> Allowed(old(log), now, key)
      ensures log == if granted then old(log) + [Granted(now, key)] else old(log)
      ensures !granted ==> wait > 0.0 && Allowed(log, now + wait, key)
    {
      AttemptRecorded(Memorised(), log, now, key);
      wait := LongestDelay(now, key);
      granted := wait <= 0.0;
      if granted {
        Record(now, key);
      }
    }

    /** The end of `_set_backoff`: the backoff is announced. */
    method Extend(now: real, wait: real, strong: bool)
      modifies this
      ensures SoFar() == Took(old(SoFar()), Announce(now, now + wait, strong))
    {
      backoffUntil := RealMax(backoffUntil, now + wait);
      if strong {
        slowdownUntil := RealMax(slowdownUntil, now + SLOWDOWN_S);
        extraIntervalMs := RealMax(extraIntervalMs, EXTRA_INTERVAL_MS);
      }
      log := log + [Backoff(now, now + wait, strong)];
    }

    /** How long to back off; `jitter` is the random draw in [0, 1). */
    static method ChooseWait(now: real, attempt: nat, retryUntil: Option<real>, jitter: real) returns (wait: real)
      requires 0.0 <= jitter < 1.0
      ensures BacksOff(now, attempt, retryUntil, jitter, wait)
    {
      if retryUntil.Some? && retryUntil.value > now {
        wait := retryUntil.value - now;
      } else {
        wait := JitteredWait(attempt, jitter);
      }
    }

    /** The lock body of `_set_backoff`. */
    method SetBackoff(now: real, attempt: nat, retryUntil: Option<real>, strong: bool, jitter: real) returns (wait: real)
      requires Valid() && NotBefore(log, now)
      requires 0.0 <= jitter < 1.0
      modifies this
      ensures Valid() && SoFar() == Took(old(SoFar()), Announce(now, now + wait, strong))
      ensures log == old(log) + [Backoff(now, now + wait, strong)]
      ensures if retryUntil.Some? && retryUntil.value > now then now + wait == retryUntil.value
              else wait == JitteredWait(attempt, jitter)
    {
      wait := ChooseWait(now, attempt, retryUntil, jitter);
      AnnounceRecorded(SoFar(), now, now + wait, strong);
      Extend(now, wait, strong);
    }
  }

  /** One call leaves a log that is legal and no later than the call. */
  lemma RequestIsLegal(r: Run, now: real, key: Option<Key>)
    requires Records(r.memory, r.log) && NotBefore(r.log, now)
    ensures var g := Took(r, Request(now, key)); Records(g.memory, g.log) && NotBefore(g.log, now)
  {
    AttemptRecorded(r.memory, r.log, now, key);
  }

  lemma AnnounceIsLegal(r: Run, now: real, until: real, strong: bool)
    requires Records(r.memory, r.log) && NotBefore(r.log, now)
    ensures var g := Took(r, Announce(now, until, strong)); Records(g.memory, g.log) && NotBefore(g.log, now)
  {
    AnnounceRecorded(r, now, until, strong);
  }

  lemma CallIsLegal(r: Run, c: Call)
    requires Records(r.memory, r.log) && NotBefore(r.log, c.now)
    ensures Records(Took(r, c).memory, Took(r, c).log) && NotBefore(Took(r, c).log, c.now)
  {
    match c
    case Request(now, key) => RequestIsLegal(r, now, key);
    case Announce(now, until, strong) => AnnounceIsLegal(r, now, until, strong);
  }

  lemma StaysNotBefore(log: seq<Event>, now: real, later: real)
    requires NotBefore(log, now) && now <= later
    ensures NotBefore(log, later)
  {
  }

  /** Over every interleaving of requests and backoffs the gate, which looks at its five fields only, gives
    * just the grants that the history allows.
    */
  lemma {:induction false} PlayIsLegal(calls: seq<Call>)
    requires Clocked(calls)
    ensures Records(Play(calls).memory, Play(calls).log)
    ensures calls != [] ==> NotBefore(Play(calls).log, calls[|calls| - 1].now)
  {
    if calls != [] {
      var n := |calls| - 1;
      var front, c := calls[..n], calls[n];
      PlayIsLegal(front);
      if n > 0 {
        StaysNotBefore(Play(front).log, calls[n - 1].now, c.now);
      }
      CallIsLegal(Play(front), c);
    }
  }

  // ----- Every run -----------------------------------------------------------------------------------------------------

  /** The times of the grants on one (endpoint, pair), or of all grants when `key` is `None`. */
  function GrantTimes(log: seq<Event>, key: Option<Key>): seq<real> {
    if log == [] then []
    else
      var before, e := GrantTimes(log[..|log| - 1], key), log[|log| - 1];
      if e.Granted? && (key.None? || e.key == key) then before + [e.at] else before
  }

  lemma {:induction false} EveryGrantIsLogged(log: seq<Event>, key: Option<Key>, k: nat) returns (i: nat)
    requires k < |GrantTimes(log, key)|
    ensures i < |log| && log[i].Granted? && (key.None? || log[i].key == key) && log[i].at == GrantTimes(log, key)[k]
  {
    var n := |log| - 1;
    if k < |GrantTimes(log[..n], key)| {
      i := EveryGrantIsLogged(log[..n], key, k);
    } else {
      i := n;
    }
  }

  function Gap(key: Option<Key>): real {
    if key.Some? then PAIR_INTERVAL_MS / 1000.0 else BASE_INTERVAL_MS / 1000.0
  }

  lemma {:induction false} NextGrantIsApart(log: seq<Event>, key: Option<Key>, k: nat)
    requires Legal(log) && 0 < k < |GrantTimes(log, key)|
    ensures GrantTimes(log, key)[k] - GrantTimes(log, key)[k - 1] >= Gap(key)
  {
    var n := |log| - 1;
    if k < |GrantTimes(log[..n], key)| {
      NextGrantIsApart(log[..n], key, k);
    } else {
      var i := EveryGrantIsLogged(log[..n], key, k - 1);
    }
  }

  lemma {:induction false} LegalGrantsAreSpread(log: seq<Event>, key: Option<Key>, a: nat, b: nat)
    requires Legal(log) && a <= b < |GrantTimes(log, key)|
    ensures GrantTimes(log, key)[b] - GrantTimes(log, key)[a] >= (b - a) as real * Gap(key)
  {
    if a < b {
      LegalGrantsAreSpread(log, key, a, b - 1);
      NextGrantIsApart(log, key, b);
      assert (b - a) as real == (b - 1 - a) as real + 1.0;
    }
  }

  /** Over every run n + 1 consecutive grants span at least n * 200 ms, and n + 1 consecutive grants on one
    * (endpoint, pair) at least n * 1100 ms, whatever backoffs and other grants come between.
    */
  lemma GrantsAreSpread(calls: seq<Call>, key: Option<Key>, a: nat, b: nat)
    requires Clocked(calls) && a <= b < |GrantTimes(Play(calls).log, key)|
    ensures var times := GrantTimes(Play(calls).log, key);
            times[b] - times[a] >= (b - a) as real * Gap(key)
  {
    PlayIsLegal(calls);
    LegalGrantsAreSpread(Play(calls).log, key, a, b);
  }

  lemma LegalHonoursBackoffs(log: seq<Event>, backoff: nat, grant: nat)
    requires Legal(log) && backoff < grant < |log| && log[backoff].Backoff? && log[grant].Granted?
    ensures log[grant].at >= log[backoff].until
    ensures log[backoff].strong && log[grant].at < log[backoff].at + SLOWDOWN_S
            ==> forall i :: 0 <= i < grant && log[i].Granted? ==> log[grant].at - log[i].at >= 1.2
  {
    var past := log[..grant];
    assert past[backoff] == log[backoff];
    LegalAt(log, grant);
    forall i | 0 <= i < grant && log[i].Granted? && Slowed(past, log[grant].at)
      ensures log[grant].at - log[i].at >= 1.2
    {
      assert past[i] == log[i];
    }
  }

  /** Over every run no grant comes inside any backoff announced before it, and for 60 s after a strong one
    * each grant is at least 1200 ms after every grant before it.
    */
  lemma BackoffsAreHonoured(calls: seq<Call>, backoff: nat, grant: nat)
    requires Clocked(calls) && backoff < grant < |Play(calls).log|
    requires Play(calls).log[backoff].Backoff? && Play(calls).log[grant].Granted?
    ensures var log := Play(calls).log;
            && log[grant].at >= log[backoff].until
            && (log[backoff].strong && log[grant].at < log[backoff].at + SLOWDOWN_S
                ==> forall i :: 0 <= i < grant && log[i].Granted? ==> log[grant].at - log[i].at >= 1.2)
  {
    PlayIsLegal(calls);
    LegalHonoursBackoffs(Play(calls).log, backoff, grant);
  }
}
