/** Binance's funding history: a recent page, then a windowed walk back over at most ten pages. */
module BinanceFunding {
  import opened Basics
  import opened Wrappers
  import opened Histories

  const PER_REQ := 1000
  const RECENT_MAX := 200
  const SAFETY_PAGES := 10
  const DEFAULT_CADENCE_MS := 28_800_000
  const MIN_CADENCE_MS := 60_000

  // ----- What Binance serves ---------------------------------------------------------------------------

  /** Index of the first record at or after `lo`. */
  function From(h: seq<Record>, lo: int): nat {
    UpTo(h, Some(lo - 1))
  }

  /** The first `n` records of the window from `lo` to `hi`, both inclusive. */
  function WindowPage(h: seq<Record>, lo: int, hi: int, n: nat): seq<Record> {
    var a, b := From(h, lo), UpTo(h, Some(hi));
    if a <= b then h[a..Min(b, a + n)] else []
  }

  type WindowCall = (int, int) -> seq<Record>

  ghost predicate ServesWindows(call: WindowCall, h: seq<Record>) {
    forall lo, hi :: call(lo, hi) == WindowPage(h, lo, hi, PER_REQ)
  }

  // ----- The cadence -------------------------------------------------------------------------------------

  function InsertInt(s: seq<int>, x: int): seq<int> {
    if s == [] || s[|s| - 1] <= x then s + [x] else InsertInt(s[..|s| - 1], x) + [s[|s| - 1]]
  }

  function Sorted(s: seq<int>): (r: seq<int>)
    ensures |r| == |s|
  {
    if s == [] then [] else
      SizeOfInsert(Sorted(s[..|s| - 1]), s[|s| - 1]);
      InsertInt(Sorted(s[..|s| - 1]), s[|s| - 1])
  }

  lemma {:induction false} SizeOfInsert(s: seq<int>, x: int)
    ensures |InsertInt(s, x)| == |s| + 1
  {
    if s != [] && s[|s| - 1] > x { SizeOfInsert(s[..|s| - 1], x); }
  }

  function Intervals(s: seq<Record>): seq<int>
    requires |s| >= 1
  {
    seq(|s| - 1, i requires 0 <= i < |s| - 1 => s[i + 1].timestamp - s[i].timestamp)
  }

  /** The median interval of the recent page, at least a minute; eight hours when there is none. */
  function Cadence(recent: seq<Record>): (c: int)
    ensures c >= 60_000
    ensures |recent| < 2 ==> c == 8 * 60 * 60 * 1000
  {
    if |recent| >= 2 then
      var intervals := Sorted(Intervals(recent));
      Max(intervals[|intervals| / 2], MIN_CADENCE_MS)
    else DEFAULT_CADENCE_MS
  }

  ghost predicate InOrder(s: seq<int>) {
    forall i, j :: 0 <= i < j < |s| ==> s[i] <= s[j]
  }

  lemma {:induction false} InsertIntBelow(s: seq<int>, x: int, top: int)
    requires x <= top && forall i :: 0 <= i < |s| ==> s[i] <= top
    ensures forall i :: 0 <= i < |InsertInt(s, x)| ==> InsertInt(s, x)[i] <= top
  {
    if s != [] && s[|s| - 1] > x { InsertIntBelow(s[..|s| - 1], x, top); }
  }

  lemma {:induction false} InsertIntOrders(s: seq<int>, x: int)
    requires InOrder(s)
    ensures InOrder(InsertInt(s, x))
  {
    if s != [] && s[|s| - 1] > x {
      InsertIntOrders(s[..|s| - 1], x);
      InsertIntBelow(s[..|s| - 1], x, s[|s| - 1]);
    }
  }

  lemma {:induction false} InsertIntKeeps(s: seq<int>, x: int)
    ensures multiset(InsertInt(s, x)) == multiset(s) + multiset{x}
  {
    if s != [] && s[|s| - 1] > x {
      InsertIntKeeps(s[..|s| - 1], x);
      assert s == s[..|s| - 1] + [s[|s| - 1]];
    }
  }

  /** `sorted` puts the intervals in order and keeps each of them, so the middle one is their median. */
  lemma {:induction false} SortedOrders(s: seq<int>)
    ensures InOrder(Sorted(s)) && multiset(Sorted(s)) == multiset(s)
  {
    if s != [] {
      SortedOrders(s[..|s| - 1]);
      InsertIntOrders(Sorted(s[..|s| - 1]), s[|s| - 1]);
      InsertIntKeeps(Sorted(s[..|s| - 1]), s[|s| - 1]);
      assert s == s[..|s| - 1] + [s[|s| - 1]];
    }
  }

  /** How many of `s` are less than `m`. */
  function CountLess(s: seq<int>, m: int): nat {
    if s == [] then 0 else CountLess(s[..|s| - 1], m) + if s[|s| - 1] < m then 1 else 0
  }

  lemma {:induction false} InsertIntCounts(s: seq<int>, x: int, m: int)
    ensures CountLess(InsertInt(s, x), m) == CountLess(s, m) + if x < m then 1 else 0
  {
    if s != [] && s[|s| - 1] > x {
      InsertIntCounts(s[..|s| - 1], x, m);
    }
  }

  lemma {:induction false} SortedCounts(s: seq<int>, m: int)
    ensures CountLess(Sorted(s), m) == CountLess(s, m)
  {
    if s != [] {
      SortedCounts(s[..|s| - 1], m);
      InsertIntCounts(Sorted(s[..|s| - 1]), s[|s| - 1], m);
    }
  }

  lemma {:induction false} InOrderCounts(s: seq<int>, k: nat, m: int)
    requires InOrder(s) && k <= |s|
    ensures (forall i :: k <= i < |s| ==> s[i] >= m) ==> CountLess(s, m) <= k
    ensures (forall i :: 0 <= i < k ==> s[i] < m) ==> CountLess(s, m) >= k
  {
    if s != [] {
      InOrderCounts(s[..|s| - 1], if k < |s| then k else |s| - 1, m);
    }
  }

  /** `sorted` is `s` in order. */
  ghost predicate Ordering(s: seq<int>, sorted: seq<int>) {
    InOrder(sorted) && |sorted| == |s| && forall m :: CountLess(sorted, m) == CountLess(s, m)
  }

  lemma SortedIsOrdering(s: seq<int>)
    ensures Ordering(s, Sorted(s))
  {
    SortedOrders(s);
    forall m
      ensures CountLess(Sorted(s), m) == CountLess(s, m)
    {
      SortedCounts(s, m);
    }
  }

  /** The middle of the sorted list is a median: no more than half are less, and more than half are not
    * greater.
    */
  lemma MiddleIsMedian(s: seq<int>, sorted: seq<int>, k: nat)
    requires Ordering(s, sorted) && k < |s|
    ensures CountLess(s, sorted[k]) <= k < CountLess(s, sorted[k] + 1)
  {
    InOrderCounts(sorted, k, sorted[k]);
    InOrderCounts(sorted, k + 1, sorted[k] + 1);
  }

  /** The cadence is the median interval of the recent page, at least a minute. */
  lemma CadenceIsTheMedian(recent: seq<Record>, intervals: seq<int>) returns (m: int)
    requires |recent| >= 2 && intervals == Intervals(recent)
    ensures Cadence(recent) == Max(m, MIN_CADENCE_MS)
    ensures CountLess(intervals, m) <= |intervals| / 2 < CountLess(intervals, m + 1)
  {
    m := Sorted(intervals)[|intervals| / 2];
    SortedIsOrdering(intervals);
    MiddleIsMedian(intervals, Sorted(intervals), |intervals| / 2);
  }

  lemma {:induction false} SortedConstant(s: seq<int>, c: int)
    requires forall i :: 0 <= i < |s| ==> s[i] == c
    ensures Sorted(s) == s
  {
    if s != [] {
      SortedConstant(s[..|s| - 1], c);
    }
  }

  // ----- Spacing -----------------------------------------------------------------------------------------

  /** Consecutive settlements among the first `n` of `h` are at least `c` apart. */
  ghost predicate Spaced(h: seq<Record>, n: int, c: int) {
    n <= |h| && forall i :: 0 <= i < n - 1 ==> h[i + 1].timestamp - h[i].timestamp >= c
  }

  /** Consecutive settlements of `h` are exactly `c` apart. */
  ghost predicate Uniform(h: seq<Record>, c: int) {
    forall i :: 0 <= i < |h| - 1 ==> h[i + 1].timestamp - h[i].timestamp == c
  }

  lemma {:induction false} SpacedApart(h: seq<Record>, n: nat, c: int, i: nat, j: nat)
    requires Spaced(h, n, c) && i <= j < n
    ensures h[j].timestamp - h[i].timestamp >= (j - i) * c
    decreases j
  {
    if i < j {
      SpacedApart(h, n, c, i, j - 1);
      assert (j - i) * c == (j - 1 - i) * c + c;
    }
  }

  lemma {:induction false} UniformApart(h: seq<Record>, c: int, i: nat, j: nat)
    requires Uniform(h, c) && i <= j < |h|
    ensures h[j].timestamp - h[i].timestamp == (j - i) * c
    decreases j
  {
    if i < j {
      UniformApart(h, c, i, j - 1);
      assert (j - i) * c == (j - 1 - i) * c + c;
    }
  }

  // ----- One page ------------------------------------------------------------------------------------------

  /** The window in front of the record at `start`. */
  function Low(h: seq<Record>, start: nat, c: int): int
    requires start < |h|
  {
    Max(0, h[start].timestamp - PER_REQ * c)
  }

  function PageInFront(h: seq<Record>, start: nat, c: int): seq<Record>
    requires start < |h|
  {
    WindowPage(h, Low(h, start, c), h[start].timestamp - 1, PER_REQ)
  }

  /** The page is what lies directly in front of `start` exactly when its window holds at most a
    * thousand records: a fuller window would leave a gap, because a page starts at the window's old end.
    */
  lemma PageTouchesIffWindowFits(h: seq<Record>, start: nat, c: int)
    requires StrictlyAscending(h) && start < |h| && c > 0 && h[start].timestamp >= 0
    ensures From(h, Low(h, start, c)) <= start
    ensures var a := From(h, Low(h, start, c));
            PageInFront(h, start, c) == h[a..Min(start, a + PER_REQ)]
            && (IsSuffix(PageInFront(h, start, c), h[..start]) <==> start - a <= PER_REQ)
  {
    UpToSplits(h, Some(Low(h, start, c) - 1));
    UpToSplits(h, Some(h[start].timestamp - 1));
    var a, b := From(h, Low(h, start, c)), UpTo(h, Some(h[start].timestamp - 1));
    assert b == start by {
      assert !AtOrBefore(h[start], Some(h[start].timestamp - 1));
      assert b > 0 ==> AtOrBefore(h[b - 1], Some(h[start].timestamp - 1));
      assert start > 0 ==> AtOrBefore(h[start - 1], Some(h[start].timestamp - 1));
    }
    if start - a > PER_REQ {
      var page := h[a..a + PER_REQ];
      assert page[0] == h[a] && h[..start][start - PER_REQ] == h[start - PER_REQ];
      assert h[a].timestamp < h[start - PER_REQ].timestamp;
    }
  }

  lemma FewerPeriods(x: int, y: int, c: int)
    requires c > 0
    ensures x * c < y * c <==> x < y
  {
    if x < y {
      assert (y - x) * c > 0;
    } else {
      assert (x - y) * c >= 0;
    }
  }

  /** Settlements at least the cadence apart never overfill a window. */
  lemma SpacedWindowsFit(h: seq<Record>, start: nat, c: int)
    requires StrictlyAscending(h) && start < |h| && c > 0 && Spaced(h, start, c)
    ensures start - From(h, Low(h, start, c)) <= PER_REQ
  {
    var lo := Low(h, start, c);
    var a := From(h, lo);
    UpToSplits(h, Some(lo - 1));
    if a < start {
      SpacedApart(h, start, c, a, start - 1);
      FewerPeriods(start - 1 - a, PER_REQ, c);
    }
  }

  /** On a regular schedule a page is full, or reaches the beginning of the history. */
  lemma UniformPagesAreFull(h: seq<Record>, start: nat, c: int)
    requires StrictlyAscending(h) && start < |h| && c > 0 && Uniform(h, c)
    requires forall i :: 0 <= i < |h| ==> h[i].timestamp >= 0
    ensures From(h, Low(h, start, c)) == Max(0, start - PER_REQ)
  {
    var lo := Low(h, start, c);
    var a, want := From(h, lo), Max(0, start - PER_REQ);
    UniformWindowHolds(h, start, c, want);
    UniformWindowEnds(h, start, c, want);
    UpToSplits(h, Some(lo - 1));
    assert !AtOrBefore(h[want], Some(lo - 1));
    assert want > 0 ==> AtOrBefore(h[want - 1], Some(lo - 1));
  }

  lemma UniformWindowHolds(h: seq<Record>, start: nat, c: int, i: nat)
    requires start < |h| && c > 0 && Uniform(h, c)
    requires i <= start && start - i <= PER_REQ && h[i].timestamp >= 0
    ensures h[i].timestamp >= Low(h, start, c)
  {
    UniformApart(h, c, i, start);
    FewerPeriods(PER_REQ, start - i, c);
  }

  lemma UniformWindowEnds(h: seq<Record>, start: nat, c: int, i: nat)
    requires start < |h| && c > 0 && Uniform(h, c) && i == Max(0, start - PER_REQ)
    ensures i > 0 ==> h[i - 1].timestamp < Low(h, start, c)
  {
    if i > 0 {
      UniformApart(h, c, i - 1, start);
      FewerPeriods(PER_REQ, start - i + 1, c);
    }
  }

  // ----- The walk ----------------------------------------------------------------------------------------------

  function Times(s: seq<Record>): set<int> {
    set r | r in s :: r.timestamp
  }

  /** The records of a batch at timestamps not seen, in order. */
  function AtNewTimes(batch: seq<Record>, seen: set<int>): seq<Record> {
    if batch == [] then []
    else
      var before, r := AtNewTimes(batch[..|batch| - 1], seen), batch[|batch| - 1];
      if r.timestamp in seen then before else before + [r]
  }

  lemma {:induction false} AllNewTimes(batch: seq<Record>, seen: set<int>)
    requires forall r :: r in batch ==> r.timestamp !in seen
    ensures AtNewTimes(batch, seen) == batch
  {
    if batch != [] {
      AllNewTimes(batch[..|batch| - 1], seen);
      assert batch[|batch| - 1] in batch;
    }
  }

  /** A history of settlements: distinct times, none negative. */
  ghost predicate Settlements(h: seq<Record>) {
    StrictlyAscending(h) && forall i :: 0 <= i < |h| ==> h[i].timestamp >= 0
  }

  /** Where the window in front of `start` begins. */
  function NextStart(h: seq<Record>, start: nat, c: int): nat
    requires start < |h|
  {
    From(h, Low(h, start, c))
  }

  /** Where the window in front of every settlement begins. */
  function Starts(h: seq<Record>, c: int): (next: seq<nat>)
    ensures |next| == |h|
  {
    seq(|h|, i requires 0 <= i < |h| => NextStart(h, i, c))
  }

  /** The page read in front of `start` when its window begins at `a`. */
  function Page(h: seq<Record>, a: nat, start: nat): seq<Record>
    requires a <= start <= |h|
  {
    h[a..Min(start, a + PER_REQ)]
  }

  /** Everything the walk collects, in order of time: the settlements `sorted`, the oldest of which is
    * `h[start]`, and page after page in front of them.
    */
  function Walked(h: seq<Record>, next: seq<nat>, limit: nat, start: nat, sorted: seq<Record>, pages: nat): seq<Record>
    requires start < |h| == |next|
    decreases SAFETY_PAGES - pages
  {
    if |sorted| >= limit || pages >= SAFETY_PAGES || next[start] >= start then sorted
    else Walked(h, next, limit, next[start], Page(h, next[start], start) + sorted, pages + 1)
  }

  /** Every window the walk requests holds at most a page, `count` being what is collected so far. */
  predicate WindowsFit(next: seq<nat>, limit: nat, start: nat, count: nat, pages: nat)
    requires start < |next|
    decreases SAFETY_PAGES - pages
  {
    count >= limit || pages >= SAFETY_PAGES || next[start] >= start
    || (start - next[start] <= PER_REQ
        && WindowsFit(next, limit, next[start], count + (start - next[start]), pages + 1))
  }

  /** The walk ends with enough or at the beginning of the history, each window it requests holding at least
    * one settlement and at most a thousand.
    */
  predicate ReachesBack(next: seq<nat>, limit: nat, start: nat, count: nat, pages: nat)
    requires start < |next|
    decreases SAFETY_PAGES - pages
  {
    count >= limit || start == 0
    || (pages < SAFETY_PAGES && next[start] < start && start - next[start] <= PER_REQ
        && ReachesBack(next, limit, next[start], count + (start - next[start]), pages + 1))
  }

  /** The rows of a call whose recent page `recent` begins with `h[first]`. */
  function FundingRows(h: seq<Record>, next: seq<nat>, first: nat, recent: seq<Record>, limit: nat): seq<Record>
    requires first < |h| == |next|
  {
    Tail(Walked(h, next, limit, first, recent, 0), limit)
  }

  lemma PageIsSlice(h: seq<Record>, start: nat, c: int)
    requires Settlements(h) && start < |h| && c > 0
    ensures Starts(h, c)[start] <= start
    ensures PageInFront(h, start, c) == Page(h, Starts(h, c)[start], start)
  {
    PageTouchesIffWindowFits(h, start, c);
  }

  // ----- Gap-free exactly when every window fits --------------------------------------------------------------

  lemma FullPageTouches(h: seq<Record>, a: nat, start: nat)
    requires a <= start <= |h| && start - a <= PER_REQ
    ensures Page(h, a, start) + h[start..] == h[a..]
  {
  }

  /** While the windows fit the walk collects the history from some settlement on, and that is enough, or all,
    * exactly if the walk reaches back.
    */
  lemma {:induction false} FittingWalk(h: seq<Record>, next: seq<nat>, limit: nat, start: nat, pages: nat) returns (s: nat)
    requires start < |h| == |next| && WindowsFit(next, limit, start, |h| - start, pages)
    ensures s <= start && Walked(h, next, limit, start, h[start..], pages) == h[s..]
    ensures ReachesBack(next, limit, start, |h| - start, pages) <==> s == 0 || |h| - s >= limit
    decreases SAFETY_PAGES - pages
  {
    s := start;
    if |h| - start < limit && pages < SAFETY_PAGES && next[start] < start {
      FullPageTouches(h, next[start], start);
      s := FittingWalk(h, next, limit, next[start], pages + 1);
    }
  }

  /** The walk only ever adds in front. */
  lemma {:induction false} WalkAddsInFront(h: seq<Record>, next: seq<nat>, limit: nat, start: nat, sorted: seq<Record>, pages: nat)
    returns (front: seq<Record>)
    requires start < |h| == |next|
    ensures Walked(h, next, limit, start, sorted, pages) == front + sorted
    decreases SAFETY_PAGES - pages
  {
    front := [];
    if |sorted| < limit && pages < SAFETY_PAGES && next[start] < start {
      var page := Page(h, next[start], start);
      front := WalkAddsInFront(h, next, limit, next[start], page + sorted, pages + 1);
      assert front + (page + sorted) == front + page + sorted;
      front := front + page;
    }
  }

  /** `r` ends with `h[g]` and then the fewer than `limit` settlements from `s` on: those between are missing. */
  ghost predicate Gapped(h: seq<Record>, limit: nat, r: seq<Record>, g: nat, s: nat) {
    && g + 1 < s <= |h| && |h| - s < limit && |r| > |h| - s
    && r[|r| - (|h| - s)..] == h[s..] && r[|r| - (|h| - s) - 1] == h[g]
  }

  lemma InFrontStaysGapped(h: seq<Record>, limit: nat, r: seq<Record>, g: nat, s: nat, front: seq<Record>)
    requires Gapped(h, limit, r, g, s)
    ensures Gapped(h, limit, front + r, g, s)
  {
    var k := |r| - (|h| - s);
    assert (front + r)[|front| + k..] == r[k..];
  }

  lemma OverfullPageGaps(h: seq<Record>, a: nat, start: nat, limit: nat)
    requires a <= start <= |h| && start - a > PER_REQ && |h| - start < limit
    ensures Gapped(h, limit, Page(h, a, start) + h[start..], a + PER_REQ - 1, start)
  {
    assert (Page(h, a, start) + h[start..])[PER_REQ..] == h[start..];
  }

  /** The first window that does not fit leaves a gap behind its page, and the gap stays. */
  lemma {:induction false} UnfitWalk(h: seq<Record>, next: seq<nat>, limit: nat, start: nat, pages: nat) returns (g: nat, s: nat)
    requires start < |h| == |next| && !WindowsFit(next, limit, start, |h| - start, pages)
    ensures Gapped(h, limit, Walked(h, next, limit, start, h[start..], pages), g, s)
    decreases SAFETY_PAGES - pages
  {
    var a := next[start];
    if start - a <= PER_REQ {
      FullPageTouches(h, a, start);
      g, s := UnfitWalk(h, next, limit, a, pages + 1);
    } else {
      var r := Page(h, a, start) + h[start..];
      g, s := a + PER_REQ - 1, start;
      OverfullPageGaps(h, a, start, limit);
      var front := WalkAddsInFront(h, next, limit, a, r, pages + 1);
      InFrontStaysGapped(h, limit, r, g, s, front);
    }
  }

  lemma SuffixAt(rows: seq<Record>, h: seq<Record>, s: nat)
    ensures IsSuffix(rows, h) && 0 < s <= |h| && |rows| > |h| - s ==> rows[|rows| - (|h| - s) - 1] == h[s - 1]
  {
  }

  lemma GappedIsNoSuffix(h: seq<Record>, limit: nat, r: seq<Record>, g: nat, s: nat)
    requires StrictlyAscending(h) && Gapped(h, limit, r, g, s)
    ensures !IsSuffix(Tail(r, limit), h)
  {
    var rows := Tail(r, limit);
    assert |rows| > |h| - s && rows[|rows| - (|h| - s) - 1] == h[g];
    assert h[g].timestamp < h[s - 1].timestamp;
    SuffixAt(rows, h, s);
  }

  lemma EndOfSliceIsSuffix(h: seq<Record>, s: nat, limit: nat)
    requires s <= |h| && limit >= 1
    ensures IsSuffix(Tail(h[s..], limit), h)
  {
  }

  /** The rows are a contiguous end of the history exactly when every window the walk requested held at most
    * a thousand settlements.
    */
  lemma GapFreeIffWindowsFit(h: seq<Record>, next: seq<nat>, first: nat, recent: seq<Record>, limit: nat)
    requires StrictlyAscending(h) && first < |h| == |next| && recent == h[first..] && limit >= 1
    ensures IsSuffix(FundingRows(h, next, first, recent, limit), h) <==> WindowsFit(next, limit, first, |recent|, 0)
  {
    if WindowsFit(next, limit, first, |h| - first, 0) {
      var s := FittingWalk(h, next, limit, first, 0);
      EndOfSliceIsSuffix(h, s, limit);
    } else {
      var g, s := UnfitWalk(h, next, limit, first, 0);
      GappedIsNoSuffix(h, limit, Walked(h, next, limit, first, h[first..], 0), g, s);
    }
  }

  /** No window in front of the first `n` settlements, or of the one after them, is overfull. */
  ghost predicate NoneOverfull(next: seq<nat>, n: nat) {
    forall i :: 0 <= i <= n && i < |next| ==> i - next[i] <= PER_REQ
  }

  lemma {:induction false} NoneOverfullFits(next: seq<nat>, limit: nat, start: nat, count: nat, pages: nat)
    requires start < |next| && NoneOverfull(next, start)
    ensures WindowsFit(next, limit, start, count, pages)
    decreases SAFETY_PAGES - pages
  {
    if count < limit && pages < SAFETY_PAGES && next[start] < start {
      NoneOverfullFits(next, limit, next[start], count + (start - next[start]), pages + 1);
    }
  }

  /** Settlements at least the cadence apart never overfill a window. */
  lemma SpacedNoneOverfull(h: seq<Record>, n: nat, c: int)
    requires Settlements(h) && n < |h| && c > 0 && Spaced(h, n, c)
    ensures NoneOverfull(Starts(h, c), n)
  {
    forall i | 0 <= i <= n
      ensures i - Starts(h, c)[i] <= PER_REQ
    {
      SpacedWindowsFit(h, i, c);
    }
  }

  // ----- A regular schedule ---------------------------------------------------------------------------------

  /** Every page is full, or reaches the beginning. */
  ghost predicate Regular(next: seq<nat>) {
    forall i :: 0 <= i < |next| ==> next[i] == Max(0, i - PER_REQ)
  }

  lemma UniformIsRegular(h: seq<Record>, c: int)
    requires Settlements(h) && c > 0 && Uniform(h, c)
    ensures Regular(Starts(h, c))
  {
    forall i | 0 <= i < |h|
      ensures Starts(h, c)[i] == Max(0, i - PER_REQ)
    {
      UniformPagesAreFull(h, i, c);
    }
  }

  /** How far back the pages left reach on a regular schedule. */
  function ReachFrom(start: nat, pages: nat): int {
    Max(0, start - PER_REQ * (SAFETY_PAGES - pages))
  }

  /** On a regular schedule the walk ends with enough, or as far back as its pages reach. */
  lemma {:induction false} RegularWalk(h: seq<Record>, next: seq<nat>, limit: nat, start: nat, pages: nat) returns (s: nat)
    requires start < |h| == |next| && Regular(next) && pages <= SAFETY_PAGES
    ensures ReachFrom(start, pages) <= s <= start && Walked(h, next, limit, start, h[start..], pages) == h[s..]
    ensures |h| - s < limit ==> s == ReachFrom(start, pages)
    decreases SAFETY_PAGES - pages
  {
    s := start;
    if |h| - start < limit && pages < SAFETY_PAGES && start > 0 {
      FullPageTouches(h, next[start], start);
      s := RegularWalk(h, next, limit, next[start], pages + 1);
    }
  }

  /** How many records the walk can reach on a regular schedule. */
  function Reach(n: nat): nat {
    n + 10_000
  }

  lemma EndOfReach(h: seq<Record>, n: nat, first: nat, limit: nat, s: nat)
    requires 0 < n == |h| - first && n <= limit
    requires ReachFrom(first, 0) <= s <= first && (|h| - s < limit ==> s == ReachFrom(first, 0))
    ensures Tail(h[s..], limit) == Last(h, Min(limit, Reach(n)))
  {
  }

  lemma RegularRows(h: seq<Record>, next: seq<nat>, first: nat, recent: seq<Record>, limit: nat)
    requires first < |h| == |next| && recent == h[first..] && |recent| <= limit && Regular(next)
    ensures FundingRows(h, next, first, recent, limit) == Last(h, Min(limit, Reach(|recent|)))
  {
    var s := RegularWalk(h, next, limit, first, 0);
    EndOfReach(h, |recent|, first, limit, s);
  }

  // ----- Exactly the last settlements ------------------------------------------------------------------------

  lemma {:induction false} ReachingFits(next: seq<nat>, limit: nat, start: nat, count: nat, pages: nat)
    requires start < |next| && ReachesBack(next, limit, start, count, pages)
    ensures WindowsFit(next, limit, start, count, pages)
    decreases SAFETY_PAGES - pages
  {
    if count < limit && start > 0 {
      ReachingFits(next, limit, next[start], count + (start - next[start]), pages + 1);
    }
  }

  lemma EndIsLast(h: seq<Record>, s: nat, limit: nat)
    requires s <= |h| && limit >= 1
    ensures Tail(h[s..], limit) == Last(h, limit) <==> s == 0 || |h| - s >= limit
  {
    if s > 0 && |h| - s < limit {
      assert |Tail(h[s..], limit)| < |Last(h, limit)|;
    }
  }

  /** For any history the rows are exactly the last `limit` settlements, or all of them, exactly when the walk
    * reaches back: an empty window, an overfull one and the end of its pages are what may stop it.
    */
  lemma LastIffReachesBack(h: seq<Record>, next: seq<nat>, first: nat, recent: seq<Record>, limit: nat)
    requires StrictlyAscending(h) && first < |h| == |next| && recent == h[first..] && limit >= 1
    ensures FundingRows(h, next, first, recent, limit) == Last(h, limit) <==> ReachesBack(next, limit, first, |recent|, 0)
  {
    GapFreeIffWindowsFit(h, next, first, recent, limit);
    LastIsSuffix(h, limit);
    if WindowsFit(next, limit, first, |h| - first, 0) {
      var s := FittingWalk(h, next, limit, first, 0);
      EndIsLast(h, s, limit);
    } else if ReachesBack(next, limit, first, |recent|, 0) {
      ReachingFits(next, limit, first, |recent|, 0);
    }
  }

  // ----- In order of time ----------------------------------------------------------------------------------------

  lemma InFrontStaysAscending(page: seq<Record>, sorted: seq<Record>)
    requires StrictlyAscending(page) && StrictlyAscending(sorted)
    requires page != [] && sorted != [] ==> page[|page| - 1].timestamp < sorted[0].timestamp
    ensures StrictlyAscending(page + sorted)
  {
  }

  lemma PageAscends(h: seq<Record>, a: nat, start: nat, sorted: seq<Record>)
    requires StrictlyAscending(h) && a < start < |h| && StrictlyAscending(sorted) && sorted != [] && sorted[0] == h[start]
    ensures StrictlyAscending(Page(h, a, start) + sorted) && (Page(h, a, start) + sorted)[0] == h[a]
  {
    InFrontStaysAscending(Page(h, a, start), sorted);
  }

  /** What is collected stays in strict order of time. */
  lemma {:induction false} WalkAscends(h: seq<Record>, next: seq<nat>, limit: nat, start: nat, sorted: seq<Record>, pages: nat)
    requires StrictlyAscending(h) && start < |h| == |next|
    requires StrictlyAscending(sorted) && sorted != [] && sorted[0] == h[start]
    ensures StrictlyAscending(Walked(h, next, limit, start, sorted, pages))
    decreases SAFETY_PAGES - pages
  {
    if |sorted| < limit && pages < SAFETY_PAGES && next[start] < start {
      PageAscends(h, next[start], start, sorted);
      WalkAscends(h, next, limit, next[start], Page(h, next[start], start) + sorted, pages + 1);
    }
  }

  // ----- What is collected ------------------------------------------------------------------------------------------

  ghost predicate Falling(s: seq<int>) {
    forall i, j :: 0 <= i < j < |s| ==> s[i] > s[j]
  }

  /** What the loop keeps: `collected`, in whatever order, is `sorted`, whose oldest is `h[start]`. */
  ghost predicate Tracks(h: seq<Record>, start: nat, sorted: seq<Record>, collected: seq<Record>, seen: set<int>) {
    && start < |h| && sorted != [] && sorted[0] == h[start] && StrictlyAscending(sorted)
    && multiset(collected) == multiset(sorted) && seen == Times(sorted)
  }

  /** `oldest` is the least timestamp collected. */
  ghost predicate IsOldest(collected: seq<Record>, oldest: int) {
    oldest in Times(collected) && forall r :: r in collected ==> oldest <= r.timestamp
  }

  lemma OldestIsFirst(h: seq<Record>, start: nat, sorted: seq<Record>, collected: seq<Record>, seen: set<int>, oldest: int)
    requires Tracks(h, start, sorted, collected, seen) && IsOldest(collected, oldest)
    ensures oldest == h[start].timestamp
  {
    var r :| r in collected && r.timestamp == oldest;
    assert r in multiset(sorted) && sorted[0] in multiset(collected);
    var i :| 0 <= i < |sorted| && sorted[i] == r;
  }

  /** A page in front of `start` holds no timestamp collected so far. */
  lemma PageIsNew(h: seq<Record>, a: nat, start: nat, sorted: seq<Record>)
    requires StrictlyAscending(h) && a <= start < |h| && StrictlyAscending(sorted) && sorted != [] && sorted[0] == h[start]
    ensures forall r :: r in Page(h, a, start) ==> r.timestamp !in Times(sorted)
  {
    forall r | r in Page(h, a, start)
      ensures r.timestamp !in Times(sorted)
    {
      assert r.timestamp < h[start].timestamp;
      assert forall j :: 0 <= j < |sorted| ==> sorted[0].timestamp <= sorted[j].timestamp;
    }
  }

  lemma TimesAdd(s: seq<Record>, t: seq<Record>)
    ensures Times(s + t) == Times(s) + Times(t)
  {
    assert forall r :: r in s + t <==> r in s || r in t;
    assert forall x :: x in Times(s + t) <==> x in Times(s) + Times(t);
  }

  lemma SwappedIsSame(collected: seq<Record>, sorted: seq<Record>, page: seq<Record>)
    requires multiset(collected) == multiset(sorted)
    ensures multiset(collected + page) == multiset(page + sorted)
  {
  }

  /** One page: all of it is new, and the walk goes on from its oldest record; an empty one ends the walk. */
  lemma PageMovesBack(h: seq<Record>, a: nat, start: nat, sorted: seq<Record>, collected: seq<Record>, seen: set<int>, batch: seq<Record>)
    requires StrictlyAscending(h) && Tracks(h, start, sorted, collected, seen) && a <= start && batch == Page(h, a, start)
    ensures AtNewTimes(batch, seen) == batch && (batch == [] <==> a == start)
    ensures batch != [] ==> Tracks(h, a, batch + sorted, collected + batch, seen + Times(batch))
  {
    PageIsNew(h, a, start, sorted);
    AllNewTimes(batch, seen);
    if a < start {
      PageAscends(h, a, start, sorted);
      SwappedIsSame(collected, sorted, batch);
      TimesAdd(batch, sorted);
    }
  }

  lemma SameSize(collected: seq<Record>, sorted: seq<Record>)
    requires multiset(collected) == multiset(sorted)
    ensures |collected| == |sorted|
  {
    assert |multiset(collected)| == |collected| && |multiset(sorted)| == |sorted|;
  }

  lemma TracksAll(h: seq<Record>, start: nat, sorted: seq<Record>, collected: seq<Record>, seen: set<int>)
    requires Tracks(h, start, sorted, collected, seen)
    ensures |collected| == |sorted|
  {
    SameSize(collected, sorted);
  }

  /** What is collected, put in order. */
  lemma WalkEnds(h: seq<Record>, start: nat, sorted: seq<Record>, collected: seq<Record>, seen: set<int>)
    requires Tracks(h, start, sorted, collected, seen)
    ensures SortByTime(collected) == sorted
  {
    AnyOrderSorts(collected, sorted);
  }

  /** The timestamps requested fall, and the one in turn falls below them. */
  ghost predicate FallsTo(oldests: seq<int>, h: seq<Record>, start: nat) {
    Falling(oldests) && start < |h| && forall i :: 0 <= i < |oldests| ==> oldests[i] > h[start].timestamp
  }

  lemma FallsFurther(oldests: seq<int>, h: seq<Record>, start: nat, a: nat)
    requires StrictlyAscending(h) && FallsTo(oldests, h, start) && a <= start
    ensures Falling(oldests + [h[start].timestamp])
    ensures a < start ==> FallsTo(oldests + [h[start].timestamp], h, a)
  {
  }

  /** The walk on from `h[start]` ends with `all`. */
  ghost predicate LeadsTo(h: seq<Record>, next: seq<nat>, limit: nat, start: nat, sorted: seq<Record>, pages: nat, all: seq<Record>) {
    |next| == |h| && start < |h| && Walked(h, next, limit, start, sorted, pages) == all
  }

  /** The request in front of the oldest timestamp brings the page in front of `h[start]`. */
  lemma RequestBringsPage(h: seq<Record>, c: int, start: nat, sorted: seq<Record>, collected: seq<Record>, seen: set<int>,
                          oldest: int, batch: seq<Record>)
    requires Settlements(h) && c > 0 && Tracks(h, start, sorted, collected, seen) && IsOldest(collected, oldest)
    requires batch == WindowPage(h, Max(0, oldest - PER_REQ * c), oldest - 1, PER_REQ)
    ensures oldest == h[start].timestamp && Starts(h, c)[start] <= start && batch == Page(h, Starts(h, c)[start], start)
  {
    OldestIsFirst(h, start, sorted, collected, seen, oldest);
    PageIsSlice(h, start, c);
  }

  /** What is left of the walk after one page. */
  lemma WalkedOn(h: seq<Record>, next: seq<nat>, limit: nat, start: nat, sorted: seq<Record>, pages: nat, all: seq<Record>,
                 a: nat, batch: seq<Record>)
    requires LeadsTo(h, next, limit, start, sorted, pages, all) && |sorted| < limit && pages < SAFETY_PAGES
    requires a == next[start] <= start && batch == Page(h, a, start)
    ensures a < start ==> LeadsTo(h, next, limit, a, batch + sorted, pages + 1, all)
    ensures a == start ==> sorted == all
  {
  }

  // ----- The whole call ------------------------------------------------------------------------------------------

  /** What the call promises of its rows, the recent page beginning with `h[first]` and `c` being the cadence
    * in it: at most `limit` in strict order of time; a contiguous end of the history exactly when every window
    * that was requested held at most a thousand settlements, which spaced settlements see to; the last `limit`
    * of the history exactly when the walk reaches back that far or to its beginning, which on a regular
    * schedule only the end of the ten pages can prevent.
    */
  ghost predicate Answered(h: seq<Record>, c: int, first: nat, recent: seq<Record>, limit: nat, rows: seq<Record>) {
    && first < |h| && recent == h[first..] && rows == FundingRows(h, Starts(h, c), first, recent, limit)
    && |rows| <= limit && StrictlyAscending(rows)
    && (IsSuffix(rows, h) <==> WindowsFit(Starts(h, c), limit, first, |recent|, 0))
    && (rows == Last(h, limit) <==> ReachesBack(Starts(h, c), limit, first, |recent|, 0))
    && (Spaced(h, first, c) ==> IsSuffix(rows, h))
    && (Uniform(h, c) ==> rows == Last(h, Min(limit, Reach(|recent|))))
  }

  lemma EndAscends(h: seq<Record>, a: nat)
    requires StrictlyAscending(h) && a < |h|
    ensures StrictlyAscending(h[a..])
  {
  }

  lemma TailAscends(s: seq<Record>, limit: nat)
    requires StrictlyAscending(s) && limit >= 1
    ensures StrictlyAscending(Tail(s, limit)) && |Tail(s, limit)| <= limit
  {
  }

  lemma RowsAscend(h: seq<Record>, next: seq<nat>, first: nat, recent: seq<Record>, limit: nat)
    requires StrictlyAscending(h) && first < |h| == |next| && recent == h[first..] && limit >= 1
    ensures StrictlyAscending(FundingRows(h, next, first, recent, limit)) && |FundingRows(h, next, first, recent, limit)| <= limit
  {
    EndAscends(h, first);
    WalkAscends(h, next, limit, first, recent, 0);
    TailAscends(Walked(h, next, limit, first, recent, 0), limit);
  }

  lemma SpacedRowsFit(h: seq<Record>, c: int, first: nat, count: nat, limit: nat)
    requires Settlements(h) && first < |h| && c > 0 && Spaced(h, first, c)
    ensures WindowsFit(Starts(h, c), limit, first, count, 0)
  {
    SpacedNoneOverfull(h, first, c);
    NoneOverfullFits(Starts(h, c), limit, first, count, 0);
  }

  lemma RowsAnswer(h: seq<Record>, c: int, first: nat, recent: seq<Record>, limit: nat)
    requires Settlements(h) && first < |h| && recent == h[first..] && |recent| <= limit && c > 0
    ensures Answered(h, c, first, recent, limit, FundingRows(h, Starts(h, c), first, recent, limit))
  {
    var next := Starts(h, c);
    RowsAscend(h, next, first, recent, limit);
    GapFreeIffWindowsFit(h, next, first, recent, limit);
    LastIffReachesBack(h, next, first, recent, limit);
    if Spaced(h, first, c) {
      SpacedRowsFit(h, c, first, |recent|, limit);
    }
    if Uniform(h, c) {
      UniformIsRegular(h, c);
      RegularRows(h, next, first, recent, limit);
    }
  }

  /** A recent page that is enough is all of the rows. */
  lemma RecentIsEnough(h: seq<Record>, next: seq<nat>, first: nat, recent: seq<Record>, limit: nat)
    requires first < |h| == |next| && limit <= |recent|
    ensures FundingRows(h, next, first, recent, limit) == Tail(recent, limit)
  {
  }

  /** The recent page is an end of the history, empty exactly when there is no settlement. */
  lemma RecentIsEnd(h: seq<Record>, limit: nat, recent: seq<Record>)
    requires limit >= 1 && recent == Last(h, Min(limit, RECENT_MAX))
    ensures |recent| <= |h| && |recent| <= limit && recent == h[|h| - |recent|..] && (recent == [] <==> h == [])
  {
  }

  /** On a regular schedule the median of the recent page is the schedule. */
  lemma RegularScheduleIsTheCadence(h: seq<Record>, limit: nat, c: int)
    requires Uniform(h, c) && c >= MIN_CADENCE_MS && limit >= 2 && |h| >= 2
    ensures Cadence(Last(h, Min(limit, RECENT_MAX))) == c
  {
    UniformLast(h, Min(limit, RECENT_MAX), c);
    UniformCadence(Last(h, Min(limit, RECENT_MAX)), c);
  }

  lemma UniformLast(h: seq<Record>, n: nat, c: int)
    requires Uniform(h, c)
    ensures Uniform(Last(h, n), c)
  {
    var s := Last(h, n);
    var d := |h| - |s|;
    forall i | 0 <= i < |s| - 1
      ensures s[i + 1].timestamp - s[i].timestamp == c
    {
      assert s[i] == h[d + i] && s[i + 1] == h[(d + i) + 1];
    }
  }

  lemma UniformCadence(recent: seq<Record>, c: int)
    requires Uniform(recent, c) && |recent| >= 2 && c >= MIN_CADENCE_MS
    ensures Cadence(recent) == c
  {
    SortedConstant(Intervals(recent), c);
  }

  // ----- A gap ---------------------------------------------------------------------------------------------------

  /** Eleven hundred settlements a millisecond apart, then two hundred a minute apart. */
  function Bunched(): seq<Record> {
    seq(1300, i requires 0 <= i < 1300 => Record(if i < 1100 then i else 2000 + (i - 1100) * MIN_CADENCE_MS, 0))
  }

  lemma BunchedIsAHistory()
    ensures Settlements(Bunched()) && Uniform(Last(Bunched(), 200), MIN_CADENCE_MS)
  {
    var h := Bunched();
    forall i, j | 0 <= i < j < |h|
      ensures h[i].timestamp < h[j].timestamp
    {
    }
    var s := Last(h, 200);
    forall i | 0 <= i < |s| - 1
      ensures s[i + 1].timestamp - s[i].timestamp == MIN_CADENCE_MS
    {
      assert s[i] == h[1100 + i] && s[i + 1] == h[1100 + (i + 1)];
    }
  }

  lemma FirstWindowIsOverfull()
    ensures |Bunched()| == 1300 && Starts(Bunched(), MIN_CADENCE_MS)[1100] == 0
  {
    var h := Bunched();
    assert Low(h, 1100, MIN_CADENCE_MS) == 0;
    BunchedIsAHistory();
    UpToSplits(h, Some(-1));
    assert h[0].timestamp == 0 && !AtOrBefore(h[0], Some(-1));
  }

  lemma OverfullAtOnce(next: seq<nat>, limit: nat, start: nat, count: nat)
    requires start < |next| && next[start] == 0 && start > PER_REQ && count < limit
    ensures !WindowsFit(next, limit, start, count, 0)
  {
  }

  /** The old settlements lie closer together than the recent cadence; the first window holds all eleven
    * hundred of them, its page only the oldest thousand, and the rows are no end of the history.
    */
  lemma BunchedHistoryLeavesAGap()
    ensures Settlements(Bunched()) && |Bunched()| == 1300 && Cadence(Last(Bunched(), 200)) == MIN_CADENCE_MS
    ensures !IsSuffix(FundingRows(Bunched(), Starts(Bunched(), MIN_CADENCE_MS), 1100, Last(Bunched(), 200), 1300), Bunched())
  {
    BunchedIsAHistory();
    UniformCadence(Last(Bunched(), 200), MIN_CADENCE_MS);
    FirstWindowIsOverfull();
    OverfullAtOnce(Starts(Bunched(), MIN_CADENCE_MS), 1300, 1100, 200);
    GapFreeIffWindowsFit(Bunched(), Starts(Bunched(), MIN_CADENCE_MS), 1100, Last(Bunched(), 200), 1300);
  }
}
