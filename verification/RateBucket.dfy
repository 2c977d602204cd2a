/** OKX's sliding-window rate bucket. One attempt is one pass through the lock body of `acquire`; a
  * refused coroutine sleeps and attempts again, so a run is a sequence of attempt times, whoever makes them.
  */
module RateBucket {
  // ----- One attempt -----------------------------------------------------------------------------------

  /** `popleft` while the oldest grant lies before `cutoff`. */
  function Pruned(deque: seq<real>, cutoff: real): seq<real> {
    if deque != [] && deque[0] < cutoff then Pruned(deque[1..], cutoff) else deque
  }

  function Attempted(deque: seq<real>, max: nat, window: real, now: real): seq<real> {
    var alive := Pruned(deque, now - window);
    if |alive| < max then alive + [now] else alive
  }

  predicate Grants(deque: seq<real>, max: nat, window: real, now: real) {
    |Pruned(deque, now - window)| < max
  }

  lemma {:induction false} PrunedIsNoLonger(deque: seq<real>, cutoff: real)
    ensures |Pruned(deque, cutoff)| <= |deque|
  {
    if deque != [] && deque[0] < cutoff {
      PrunedIsNoLonger(deque[1..], cutoff);
    }
  }

  /** If nothing comes between, attempts are refused up to the time `at` and granted at any time after it. */
  ghost predicate ReopensAfter(deque: seq<real>, max: nat, window: real, at: real) {
    forall later :: Grants(deque, max, window, later) <==> later > at
  }

  /** A full bucket refuses until its oldest grant is more than `window` ago. */
  lemma FullReopens(deque: seq<real>, max: nat, window: real)
    requires |deque| == max >= 1
    ensures ReopensAfter(deque, max, window, deque[0] + window)
  {
    forall later
      ensures Grants(deque, max, window, later) <==> later > deque[0] + window
    {
      if later > deque[0] + window {
        PrunedIsNoLonger(deque[1..], later - window);
      }
    }
  }

  /** One bucket; the lock is held for the whole of `Attempt`. */
  class Bucket {
    const max: nat
    const window: real
    var timestamps: seq<real>

    ghost predicate Valid() reads this {
      max >= 1 && |timestamps| <= max
    }

    constructor (maxRequests: nat, windowS: real)
      requires maxRequests >= 1
      ensures Valid() && max == maxRequests && window == windowS && timestamps == []
    {
      max, window, timestamps := maxRequests, windowS, [];
    }

    /** The lock body of `acquire` at time `now`: granted, or how long until the oldest grant is `window` ago.
      * An undisturbed attempt is granted at any time after that, and not at that time: pruning is strict.
      */
    method Attempt(now: real) returns (granted: bool, wait: real)
      requires Valid()
      modifies this
      ensures Valid()
      ensures granted == Grants(old(timestamps), max, window, now)
      ensures timestamps == Attempted(old(timestamps), max, window, now)
      ensures !granted ==> timestamps != [] && now + wait == timestamps[0] + window
      ensures !granted ==> ReopensAfter(timestamps, max, window, now + wait)
    {
      PrunedIsNoLonger(timestamps, now - window);
      while timestamps != [] && timestamps[0] < now - window
        invariant Pruned(old(timestamps), now - window) == Pruned(timestamps, now - window)
        decreases |timestamps|
      {
        timestamps := timestamps[1..];
      }
      if |timestamps| < max {
        timestamps := timestamps + [now];
        return true, 0.0;
      }
      FullReopens(timestamps, max, window);
      granted, wait := false, timestamps[0] + window - now;
    }
  }

  // ----- Runs ----------------------------------------------------------------------------------------------

  datatype History = History(deque: seq<real>, grants: seq<real>)

  function Step(h: History, max: nat, window: real, now: real): History {
    History(Attempted(h.deque, max, window, now),
            if Grants(h.deque, max, window, now) then h.grants + [now] else h.grants)
  }

  function Play(max: nat, window: real, times: seq<real>): History {
    if times == [] then History([], [])
    else Step(Play(max, window, times[..|times| - 1]), max, window, times[|times| - 1])
  }

  ghost predicate NonDecreasing(s: seq<real>) {
    forall i, j :: 0 <= i < j < |s| ==> s[i] <= s[j]
  }

  /** The grants of the run that are not yet expired at `cutoff`, in order. */
  function Alive(grants: seq<real>, cutoff: real): seq<real> {
    if grants == [] then []
    else
      var before, g := Alive(grants[..|grants| - 1], cutoff), grants[|grants| - 1];
      if g >= cutoff then before + [g] else before
  }

  lemma {:induction false} AliveOfSorted(grants: seq<real>, cutoff: real, k: nat)
    requires k <= |grants|
    requires forall i :: 0 <= i < k ==> grants[i] < cutoff
    requires forall i :: k <= i < |grants| ==> grants[i] >= cutoff
    ensures Alive(grants, cutoff) == grants[k..]
  {
    if |grants| > k {
      var n := |grants| - 1;
      AliveOfSorted(grants[..n], cutoff, k);
      assert grants[k..] == grants[..n][k..] + [grants[n]];
    } else if grants != [] {
      AliveOfSorted(grants[..|grants| - 1], cutoff, |grants| - 1);
    }
  }

  lemma SortedTailIsAlive(grants: seq<real>, before: seq<real>, tail: seq<real>, cutoff: real)
    requires grants == before + tail && NonDecreasing(grants) && Below(before, cutoff)
    requires tail != [] ==> tail[0] >= cutoff
    ensures Alive(grants, cutoff) == tail
  {
    var k := |before|;
    forall i | k <= i < |grants|
      ensures grants[i] >= cutoff
    {
      assert grants[k] == tail[0] && (k < i ==> grants[k] <= grants[i]);
    }
    forall i | 0 <= i < k
      ensures grants[i] < cutoff
    {
      assert grants[i] == before[i];
    }
    AliveOfSorted(grants, cutoff, k);
  }

  /** Any two grants `max` apart in number are more than `window` apart in time. */
  ghost predicate Spread(max: nat, window: real, grants: seq<real>) {
    forall i, j :: 0 <= i && i + max == j < |grants| ==> grants[j] - grants[i] > window
  }

  ghost predicate Below(s: seq<real>, bound: real) {
    forall i :: 0 <= i < |s| ==> s[i] < bound
  }

  ghost predicate AtMost(s: seq<real>, bound: real) {
    forall i :: 0 <= i < |s| ==> s[i] <= bound
  }

  /** The grants are the expired ones followed by the deque. */
  ghost predicate Split(window: real, h: History, expired: seq<real>, last: real) {
    h.grants == expired + h.deque && Below(expired, last - window)
  }

  ghost predicate Inv(max: nat, window: real, h: History, expired: seq<real>, last: real) {
    && Split(window, h, expired, last)
    && |h.deque| <= max
    && NonDecreasing(h.grants) && AtMost(h.grants, last)
    && Spread(max, window, h.grants)
  }

  /** Pruning drops a prefix, all of it before the cutoff, and stops at the first grant that is not. */
  lemma {:induction false} PrunedDropsAPrefix(deque: seq<real>, cutoff: real) returns (gone: seq<real>)
    ensures deque == gone + Pruned(deque, cutoff) && Below(gone, cutoff)
    ensures Pruned(deque, cutoff) != [] ==> Pruned(deque, cutoff)[0] >= cutoff
  {
    gone := [];
    if deque != [] && deque[0] < cutoff {
      var rest := PrunedDropsAPrefix(deque[1..], cutoff);
      gone := [deque[0]] + rest;
    }
  }

  /** Pruning moves a prefix of the deque over to the expired grants. */
  lemma ExpiredGrow(window: real, h: History, expired: seq<real>, last: real, now: real, gone: seq<real>, alive: seq<real>)
    requires Split(window, h, expired, last) && last <= now
    requires h.deque == gone + alive && Below(gone, now - window)
    ensures h.grants == (expired + gone) + alive
    ensures Below(expired + gone, now - window)
  {
  }

  /** A grant given while fewer than `max` are unexpired is far enough from the grant `max` before it. */
  lemma GrantKeepsSpread(max: nat, window: real, expired: seq<real>, alive: seq<real>, now: real)
    requires Spread(max, window, expired + alive) && Below(expired, now - window) && |alive| < max
    ensures Spread(max, window, expired + alive + [now])
  {
    var grants := expired + alive;
    forall i, j | 0 <= i && i + max == j < |grants + [now]|
      ensures (grants + [now])[j] - (grants + [now])[i] > window
    {
      if j == |grants| {
        assert grants[i] == expired[i];
      } else {
        assert grants[j] - grants[i] > window;
      }
    }
  }

  lemma AppendKeepsOrder(grants: seq<real>, last: real, now: real)
    requires NonDecreasing(grants) && AtMost(grants, last) && last <= now
    ensures NonDecreasing(grants + [now]) && AtMost(grants + [now], now)
  {
  }

  lemma AttemptKeepsInv(max: nat, window: real, h: History, expired: seq<real>, last: real, now: real)
    returns (expired': seq<real>)
    requires Inv(max, window, h, expired, last) && last <= now
    ensures Inv(max, window, Step(h, max, window, now), expired', now)
  {
    var alive := Pruned(h.deque, now - window);
    var gone := PrunedDropsAPrefix(h.deque, now - window);
    ExpiredGrow(window, h, expired, last, now, gone, alive);
    expired' := expired + gone;
    if |alive| < max {
      GrantKeepsSpread(max, window, expired', alive, now);
      AppendKeepsOrder(h.grants, last, now);
      Reassociate(expired', alive, [now]);
    }
  }

  lemma Reassociate(a: seq<real>, b: seq<real>, c: seq<real>)
    ensures a + b + c == a + (b + c)
  {
  }

  lemma {:induction false} PlayKeepsInv(max: nat, window: real, times: seq<real>, last: real)
    returns (expired: seq<real>)
    requires NonDecreasing(times) && (times != [] ==> last == times[|times| - 1])
    ensures Inv(max, window, Play(max, window, times), expired, last)
  {
    expired := [];
    if times != [] {
      var n := |times| - 1;
      var before := if n == 0 then last else times[n - 1];
      expired := PlayKeepsInv(max, window, times[..n], before);
      expired := AttemptKeepsInv(max, window, Play(max, window, times[..n]), expired, before, last);
    }
  }

  /** What survives pruning is what was granted in the window that ends now. */
  lemma PrunedIsAlive(max: nat, window: real, h: History, expired: seq<real>, last: real, now: real)
    requires Inv(max, window, h, expired, last) && last <= now
    ensures Pruned(h.deque, now - window) == Alive(h.grants, now - window)
  {
    var alive := Pruned(h.deque, now - window);
    var gone := PrunedDropsAPrefix(h.deque, now - window);
    ExpiredGrow(window, h, expired, last, now, gone, alive);
    SortedTailIsAlive(h.grants, expired + gone, alive, now - window);
  }

  /** An attempt is granted exactly when fewer than `max` grants lie in the window that ends now, and it
    * leaves the deque holding, in order, exactly the grants in that window.
    */
  lemma GrantedIffWindowHasRoom(max: nat, window: real, times: seq<real>, now: real)
    requires NonDecreasing(times) && (times != [] ==> times[|times| - 1] <= now) && window >= 0.0
    ensures var h := Play(max, window, times);
            && (Grants(h.deque, max, window, now) <==> |Alive(h.grants, now - window)| < max)
            && Step(h, max, window, now).deque == Alive(Step(h, max, window, now).grants, now - window)
  {
    var h := Play(max, window, times);
    var last := if times == [] then now else times[|times| - 1];
    var expired := PlayKeepsInv(max, window, times, last);
    PrunedIsAlive(max, window, h, expired, last, now);
    assert (h.grants + [now])[..|h.grants|] == h.grants;
  }

  // ----- Every window of every run ---------------------------------------------------------------------------

  /** How many grants lie in the closed interval from `a` to `b`. */
  function CountIn(grants: seq<real>, a: real, b: real): nat {
    if grants == [] then 0
    else
      var g := grants[|grants| - 1];
      CountIn(grants[..|grants| - 1], a, b) + if a <= g <= b then 1 else 0
  }

  lemma {:induction false} CountedApart(grants: seq<real>, a: real, b: real) returns (i: nat, j: nat)
    requires CountIn(grants, a, b) > 0
    ensures i <= j < |grants| && a <= grants[i] && grants[j] <= b && j - i >= CountIn(grants, a, b) - 1
  {
    var n := |grants| - 1;
    var front := grants[..n];
    if CountIn(front, a, b) == 0 {
      i, j := n, n;
    } else {
      i, j := CountedApart(front, a, b);
      if a <= grants[n] <= b {
        j := n;
      }
    }
  }

  lemma SpreadBoundsTheCount(max: nat, window: real, grants: seq<real>, a: real)
    requires NonDecreasing(grants) && Spread(max, window, grants)
    ensures CountIn(grants, a, a + window) <= max
  {
    forall i, j | 0 <= i && i + max <= j < |grants|
      ensures grants[j] - grants[i] > window
    {
      assert grants[i + max] <= grants[j];
    }
    if CountIn(grants, a, a + window) > 0 {
      var i, j := CountedApart(grants, a, a + window);
    }
  }

  /** Over any run with a clock that never goes back, the grant `max` after another comes strictly more
    * than `window` later, and every closed interval of length `window` holds at most `max` grants.
    */
  lemma NoWindowHoldsMoreThanMax(max: nat, window: real, times: seq<real>, a: real)
    requires NonDecreasing(times) && max >= 1
    ensures Spread(max, window, Play(max, window, times).grants)
    ensures CountIn(Play(max, window, times).grants, a, a + window) <= max
  {
    var grants := Play(max, window, times).grants;
    var expired := PlayKeepsInv(max, window, times, if times == [] then 0.0 else times[|times| - 1]);
    SpreadBoundsTheCount(max, window, grants, a);
  }
}
