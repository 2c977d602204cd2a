/** `get_funding_rate` of Binance: the recent page, the loop that walks back, and the final slice. */
module BinanceCall {
  import opened Basics
  import opened Histories
  import opened BinanceFunding

  /** `min(r.timestamp for r in collected)`. */
  method Oldest(collected: seq<Record>) returns (t: int)
    requires collected != []
    ensures IsOldest(collected, t)
  {
    t := collected[0].timestamp;
    for i := 1 to |collected|
      invariant t in Times(collected) && forall j :: 0 <= j < i ==> t <= collected[j].timestamp
    {
      if collected[i].timestamp < t { t := collected[i].timestamp; }
    }
  }

  /** `[r for r in batch if r.timestamp not in seen]`. */
  method NotSeen(batch: seq<Record>, seen: set<int>) returns (new_: seq<Record>)
    ensures new_ == AtNewTimes(batch, seen)
  {
    new_ := [];
    for i := 0 to |batch|
      invariant new_ == AtNewTimes(batch[..i], seen)
    {
      assert batch[..i + 1][..i] == batch[..i];
      if batch[i].timestamp !in seen { new_ := new_ + [batch[i]]; }
    }
    assert batch[..|batch|] == batch;
  }

  // ----- The loop ----------------------------------------------------------------------------------------------

  /** What the loop keeps: `all` is what the walk will have collected in the end. */
  ghost predicate Walking(h: seq<Record>, next: seq<nat>, limit: nat, all: seq<Record>, start: nat, sorted: seq<Record>,
                          collected: seq<Record>, seen: set<int>, oldests: seq<int>, pages: nat) {
    && pages == |oldests| <= SAFETY_PAGES && FallsTo(oldests, h, start)
    && Tracks(h, start, sorted, collected, seen)
    && LeadsTo(h, next, limit, start, sorted, pages, all)
  }

  lemma WalkStarts(h: seq<Record>, next: seq<nat>, limit: nat, first: nat, recent: seq<Record>)
    requires StrictlyAscending(h) && first < |h| == |next| && recent == h[first..]
    ensures Walking(h, next, limit, Walked(h, next, limit, first, recent, 0), first, recent, recent, Times(recent), [], 0)
  {
  }

  /** A page that brings nothing ends the walk. */
  lemma EmptyTurnEnds(h: seq<Record>, next: seq<nat>, limit: nat, all: seq<Record>, start: nat, sorted: seq<Record>,
                      collected: seq<Record>, seen: set<int>, oldests: seq<int>, pages: nat)
    requires Walking(h, next, limit, all, start, sorted, collected, seen, oldests, pages)
    requires |collected| < limit && pages < SAFETY_PAGES && next[start] == start
    ensures SortByTime(collected) == all
  {
    TracksAll(h, start, sorted, collected, seen);
    WalkEnds(h, start, sorted, collected, seen);
    WalkedOn(h, next, limit, start, sorted, pages, all, start, Page(h, start, start));
  }

  /** Any other page is one turn of the loop, which goes on from `a`. */
  lemma TurnKeepsWalking(h: seq<Record>, next: seq<nat>, limit: nat, all: seq<Record>, start: nat, sorted: seq<Record>,
                         collected: seq<Record>, seen: set<int>, oldests: seq<int>, pages: nat, batch: seq<Record>, a: nat)
    requires StrictlyAscending(h) && Walking(h, next, limit, all, start, sorted, collected, seen, oldests, pages)
    requires |collected| < limit && pages < SAFETY_PAGES
    requires a == next[start] < start && batch == Page(h, a, start)
    ensures Walking(h, next, limit, all, a, batch + sorted, collected + batch, seen + Times(batch), oldests + [h[start].timestamp], pages + 1)
  {
    PageMovesBack(h, a, start, sorted, collected, seen, batch);
    TracksAll(h, start, sorted, collected, seen);
    FallsFurther(oldests, h, start, a);
    WalkedOn(h, next, limit, start, sorted, pages, all, a, batch);
  }

  lemma TurnGoesOnOrEnds(h: seq<Record>, next: seq<nat>, limit: nat, all: seq<Record>, start: nat, sorted: seq<Record>,
                         collected: seq<Record>, seen: set<int>, oldests: seq<int>, pages: nat, batch: seq<Record>, a: nat)
    requires StrictlyAscending(h) && Walking(h, next, limit, all, start, sorted, collected, seen, oldests, pages)
    requires |collected| < limit && pages < SAFETY_PAGES
    requires a == next[start] <= start && batch == Page(h, a, start)
    ensures AtNewTimes(batch, seen) == batch && Falling(oldests + [h[start].timestamp])
    ensures batch == [] ==> SortByTime(collected) == all
    ensures batch != [] ==> Walking(h, next, limit, all, a, batch + sorted,
                                    collected + batch, seen + Times(batch), oldests + [h[start].timestamp], pages + 1)
  {
    PageMovesBack(h, a, start, sorted, collected, seen, batch);
    FallsFurther(oldests, h, start, a);
    if a == start {
      EmptyTurnEnds(h, next, limit, all, start, sorted, collected, seen, oldests, pages);
    } else {
      TurnKeepsWalking(h, next, limit, all, start, sorted, collected, seen, oldests, pages, batch, a);
    }
  }

  lemma WalkingStops(h: seq<Record>, next: seq<nat>, limit: nat, all: seq<Record>, start: nat, sorted: seq<Record>,
                     collected: seq<Record>, seen: set<int>, oldests: seq<int>, pages: nat)
    requires Walking(h, next, limit, all, start, sorted, collected, seen, oldests, pages)
    requires |collected| >= limit || pages == SAFETY_PAGES
    ensures SortByTime(collected) == all && Falling(oldests)
  {
    TracksAll(h, start, sorted, collected, seen);
    WalkEnds(h, start, sorted, collected, seen);
  }

  /** The `while` loop: at most ten windowed pages, requested in front of an oldest timestamp that falls from
    * page to page.
    */
  method WalkBack(recent: seq<Record>, call: WindowCall, limit: nat, cadence: int, ghost h: seq<Record>, ghost first: nat)
      returns (collected: seq<Record>, ghost oldests: seq<int>)
    requires Settlements(h) && ServesWindows(call, h) && cadence > 0 && recent != []
    requires first < |h| && recent == h[first..]
    ensures SortByTime(collected) == Walked(h, Starts(h, cadence), limit, first, recent, 0)
    ensures |oldests| <= SAFETY_PAGES && Falling(oldests)
  {
    collected, oldests := recent, [];
    var seen := Times(recent);
    var safetyPages := SAFETY_PAGES;
    ghost var next, start, sorted, pages := Starts(h, cadence), first, recent, 0;
    ghost var all := Walked(h, next, limit, first, recent, 0);
    WalkStarts(h, next, limit, first, recent);
    while |collected| < limit && safetyPages > 0
      invariant safetyPages == SAFETY_PAGES - pages
      invariant Walking(h, next, limit, all, start, sorted, collected, seen, oldests, pages)
      decreases safetyPages
    {
      var oldestTs := Oldest(collected);
      var batch := call(Max(0, oldestTs - PER_REQ * cadence), oldestTs - 1);
      RequestBringsPage(h, cadence, start, sorted, collected, seen, oldestTs, batch);
      TurnGoesOnOrEnds(h, next, limit, all, start, sorted, collected, seen, oldests, pages, batch, next[start]);
      oldests := oldests + [oldestTs];
      var fresh_ := NotSeen(batch, seen);
      if fresh_ == [] { return; }
      seen := seen + Times(fresh_);
      collected := collected + fresh_;
      safetyPages := safetyPages - 1;
      start, sorted, pages := next[start], batch + sorted, pages + 1;
    }
    WalkingStops(h, next, limit, all, start, sorted, collected, seen, oldests, pages);
  }

  // ----- The whole call ----------------------------------------------------------------------------------------

  /** The `ValueError` of `min` over nothing, or the rows. */
  datatype Outcome = Raises | Rows(rows: seq<Record>)

  /** From the cadence to the rows. */
  method RowsOf(recent: seq<Record>, call: WindowCall, limit: nat, cadence: int, ghost h: seq<Record>, ghost first: nat)
      returns (rows: seq<Record>)
    requires Settlements(h) && ServesWindows(call, h) && cadence > 0
    requires first < |h| && recent == h[first..]
    ensures rows == FundingRows(h, Starts(h, cadence), first, recent, limit)
  {
    if limit <= |recent| {
      RecentIsEnough(h, Starts(h, cadence), first, recent, limit);
      rows := Tail(recent, limit);
    } else {
      ghost var oldests;
      rows, oldests := WalkBack(recent, call, limit, cadence, h, first);
      rows := SortByTime(rows);
      rows := Tail(rows, limit);
    }
  }

  /** `get_funding_rate` without a start time; it raises exactly when Binance has no settlement at all. */
  method GetFundingRate(recent: seq<Record>, call: WindowCall, limit: nat, ghost h: seq<Record>) returns (out: Outcome)
    requires limit >= 1 && Settlements(h) && ServesWindows(call, h)
    requires recent == Last(h, Min(limit, RECENT_MAX))
    ensures out.Raises? <==> h == []
    ensures out.Rows? ==> Answered(h, Cadence(recent), |h| - |recent|, recent, limit, out.rows)
  {
    RecentIsEnd(h, limit, recent);
    if recent == [] { return Raises; }
    ghost var first := |h| - |recent|;
    var cadence := Cadence(recent);
    var rows := RowsOf(recent, call, limit, cadence, h, first);
    RowsAnswer(h, cadence, first, recent, limit);
    out := Rows(rows);
  }
}
