/** Backward pagination over an inclusive cursor, with de-duplication and a cap on the pages. */
module Pagination {
  import opened Basics
  import opened Wrappers
  import opened Histories

  const MAX_REQUESTS := 100

  /** The records of `batch` that are neither in `seen` nor earlier in the batch. */
  function Unseen(batch: seq<Record>, seen: set<Record>): seq<Record> {
    if batch == [] then []
    else
      var front, x := batch[..|batch| - 1], batch[|batch| - 1];
      Unseen(front, seen) + if x in seen || x in front then [] else [x]
  }

  /** The loop that keys every record and keeps the new ones; it adds them to `seen`. */
  method TakeNew(batch: seq<Record>, seen: set<Record>) returns (newItems: seq<Record>, seen': set<Record>)
    ensures newItems == Unseen(batch, seen)
    ensures seen' == seen + Elements(batch)
  {
    newItems, seen' := [], seen;
    for i := 0 to |batch|
      invariant newItems == Unseen(batch[..i], seen)
      invariant seen' == seen + Elements(batch[..i])
    {
      var x := batch[i];
      assert batch[..i + 1][..i] == batch[..i];
      if x !in seen' {
        seen' := seen' + {x};
        newItems := newItems + [x];
      }
    }
    assert batch[..|batch|] == batch;
  }

  /** Chunks are collected newest first. */
  function Joined(chunks: seq<seq<Record>>): seq<Record> {
    if chunks == [] then [] else chunks[|chunks| - 1] + Joined(chunks[..|chunks| - 1])
  }

  /** `chunks.reverse()` and the flattening comprehension. */
  method Flatten(chunks: seq<seq<Record>>) returns (out: seq<Record>)
    ensures out == Joined(chunks)
  {
    out := [];
    var i := |chunks|;
    assert chunks[..i] == chunks;
    while i > 0
      invariant 0 <= i <= |chunks| && out + Joined(chunks[..i]) == Joined(chunks)
    {
      i := i - 1;
      assert chunks[..i + 1][..i] == chunks[..i];
      out := out + chunks[i];
    }
  }

  // ----- One page over a partly covered history ----------------------------------------------------

  /** Everything from `start` on is collected and the cursor is the timestamp of the oldest of it. */
  ghost predicate Covered(h: seq<Record>, start: nat, end: Option<int>) {
    start <= |h| && if start == |h| then end == None else end == Some(h[start].timestamp)
  }

  /** Where the next page begins. */
  function PageStart(h: seq<Record>, end: Option<int>, l: nat): nat {
    if UpTo(h, end) <= l then 0 else UpTo(h, end) - l
  }

  lemma NextPage(h: seq<Record>, start: nat, end: Option<int>, l: nat)
    requires Ascending(h) && Covered(h, start, end)
    ensures PageOf(h, end, l) == h[PageStart(h, end, l)..UpTo(h, end)]
    ensures UpTo(h, end) >= start && (start < |h| ==> UpTo(h, end) > start)
    ensures StrictlyAscending(h) && start < |h| ==> UpTo(h, end) == start + 1
  {
    UpToSplits(h, end);
  }

  function Elements(s: seq<Record>): set<Record> {
    set x | x in s
  }

  lemma WhereSeen(h: seq<Record>, i: nat, start: nat)
    requires NoRepeats(h) && i < |h| && start <= |h|
    ensures h[i] in h[start..] <==> i >= start
  {
    if i >= start { assert h[start..][i - start] == h[i]; }
  }

  lemma NotEarlier(h: seq<Record>, a: nat, i: nat)
    requires NoRepeats(h) && a <= i < |h|
    ensures h[i] !in h[a..i]
  {
  }

  /** The part of the page from `a` to `b` that lies in front of `start`. */
  function Gap(h: seq<Record>, a: nat, b: nat, start: nat): seq<Record>
    requires a <= b <= |h|
  {
    if a < start then h[a..Min(b, start)] else []
  }

  lemma GapGrows(h: seq<Record>, a: nat, b: nat, start: nat)
    requires a < b <= |h|
    ensures Gap(h, a, b, start) == Gap(h, a, b - 1, start) + if b - 1 >= start then [] else [h[b - 1]]
  {
  }

  lemma UnseenStep(h: seq<Record>, a: nat, b: nat, start: nat, seen: set<Record>)
    requires NoRepeats(h) && a < b <= |h| && start <= |h|
    requires seen == Elements(h[start..])
    ensures Unseen(h[a..b], seen) == Unseen(h[a..b - 1], seen) + if b - 1 >= start then [] else [h[b - 1]]
  {
    var batch, x := h[a..b], h[b - 1];
    assert batch[..|batch| - 1] == h[a..b - 1] && batch[|batch| - 1] == x;
    NotEarlier(h, a, b - 1);
    WhereSeen(h, b - 1, start);
    assert x in seen <==> x in h[start..];
  }

  lemma EmptyPageHasNoGap(h: seq<Record>, a: nat, start: nat, seen: set<Record>)
    requires a <= |h|
    ensures Unseen(h[a..a], seen) == Gap(h, a, a, start)
  {
  }

  lemma GapByGap(h: seq<Record>, a: nat, b: nat, start: nat, seen: set<Record>, front: seq<Record>)
    requires NoRepeats(h) && a < b <= |h| && start <= |h| && seen == Elements(h[start..])
    requires front == Unseen(h[a..b - 1], seen) && front == Gap(h, a, b - 1, start)
    ensures Unseen(h[a..b], seen) == Gap(h, a, b, start)
  {
    UnseenStep(h, a, b, start, seen);
    GapGrows(h, a, b, start);
  }

  /** Of a page that overlaps what is covered only the part in front of it is new. */
  lemma {:induction false} UnseenIsTheGap(h: seq<Record>, a: nat, b: nat, start: nat, seen: set<Record>)
    requires NoRepeats(h) && a <= b <= |h| && start <= |h|
    requires seen == Elements(h[start..])
    ensures Unseen(h[a..b], seen) == Gap(h, a, b, start)
    decreases b - a
  {
    if a < b {
      UnseenIsTheGap(h, a, b - 1, start, seen);
      GapByGap(h, a, b, start, seen, Unseen(h[a..b - 1], seen));
    } else {
      EmptyPageHasNoGap(h, a, start, seen);
    }
  }

  /** After `k` productive pages of `l` records each, one of them repeated per page. */
  function Reach(l: nat, k: nat): (r: int)
    requires k >= 1
    ensures l >= 1 ==> r >= l
  {
    if k == 1 then l else Reach(l, k - 1) + l - 1
  }

  lemma {:induction false} ReachIsLinear(l: nat, k: nat)
    requires k >= 1
    ensures Reach(l, k) == l + (k - 1) * (l - 1)
  {
    if k > 1 { ReachIsLinear(l, k - 1); }
  }

  lemma {:induction false} ReachGrows(l: nat, j: nat, k: nat)
    requires l >= 1 && 1 <= j <= k
    ensures Reach(l, j) <= Reach(l, k)
    decreases k
  {
    if j < k { ReachGrows(l, j, k - 1); }
  }

  /** How far back the page cap lets pagination go. */
  function Limit(l: nat): int {
    MAX_REQUESTS * l - (MAX_REQUESTS - 1)
  }

  lemma ReachWithinLimit(l: nat, k: nat)
    requires l >= 1 && 1 <= k <= MAX_REQUESTS
    ensures Reach(l, k) <= Limit(l) && Reach(l, MAX_REQUESTS) == Limit(l)
  {
    ReachIsLinear(l, MAX_REQUESTS);
    ReachGrows(l, k, MAX_REQUESTS);
  }

  // ----- The loop ------------------------------------------------------------------------------------

  /** Timestamps are positive and distinct. */
  ghost predicate Timely(h: seq<Record>) {
    StrictlyAscending(h) && forall i :: 0 <= i < |h| ==> h[i].timestamp > 0
  }

  /** How far back `k` answered requests reach. */
  function ReachAfter(l: nat, k: nat): int {
    if k == 0 then 0 else Reach(l, k)
  }

  /** What is collected after `k` productive pages. */
  function Collected(h: seq<Record>, l: nat, k: nat): int {
    Min(|h|, ReachAfter(l, k))
  }

  /** The cursor of request `k` when all before it were answered: the oldest timestamp collected. */
  function CursorAt(h: seq<Record>, l: nat, k: nat): Option<int>
    requires l >= 1
  {
    if k == 0 || h == [] then None else Some(h[|h| - Collected(h, l, k)].timestamp)
  }

  ghost predicate AnswersAt(fetch: Upstream, h: seq<Record>, l: nat, k: nat)
    requires l >= 1
  {
    fetch(k, CursorAt(h, l, k), l).Batch?
  }

  ghost predicate AllAnswered(fetch: Upstream, h: seq<Record>, l: nat, k: nat)
    requires l >= 1
  {
    forall i :: 0 <= i < k ==> AnswersAt(fetch, h, l, i)
  }

  /** The first `k` requests are answered, and the next one fails unless the page cap comes first. */
  ghost predicate FailsAfter(fetch: Upstream, h: seq<Record>, l: nat, k: nat)
    requires l >= 1
  {
    k <= MAX_REQUESTS && AllAnswered(fetch, h, l, k) && (k < MAX_REQUESTS ==> !AnswersAt(fetch, h, l, k))
  }

  lemma {:induction false} SomeFailureIsFirst(fetch: Upstream, h: seq<Record>, l: nat, k: nat)
    requires l >= 1 && k <= MAX_REQUESTS && AllAnswered(fetch, h, l, k)
    ensures exists n :: k <= n && FailsAfter(fetch, h, l, n)
    decreases MAX_REQUESTS - k
  {
    if k < MAX_REQUESTS && AnswersAt(fetch, h, l, k) {
      SomeFailureIsFirst(fetch, h, l, k + 1);
    } else {
      assert FailsAfter(fetch, h, l, k);
    }
  }

  /** How many requests are answered until one fails, or the page cap ends the walk. */
  ghost function Answered(fetch: Upstream, h: seq<Record>, l: nat): (n: nat)
    requires l >= 1
    ensures FailsAfter(fetch, h, l, n)
  {
    SomeFailureIsFirst(fetch, h, l, 0);
    var n: nat :| FailsAfter(fetch, h, l, n);
    n
  }

  lemma NotLater(fetch: Upstream, h: seq<Record>, l: nat, k: nat, n: nat)
    requires l >= 1 && k <= MAX_REQUESTS && AllAnswered(fetch, h, l, k) && FailsAfter(fetch, h, l, n)
    ensures k <= n
  {
  }

  /** The first request that fails decides, and nothing after it. */
  lemma FirstFailureCounts(fetch: Upstream, h: seq<Record>, l: nat, k: nat)
    requires l >= 1 && FailsAfter(fetch, h, l, k)
    ensures Answered(fetch, h, l) == k
  {
    NotLater(fetch, h, l, Answered(fetch, h, l), k);
    NotLater(fetch, h, l, k, Answered(fetch, h, l));
  }

  lemma AnsweredAtLeast(fetch: Upstream, h: seq<Record>, l: nat, k: nat)
    requires l >= 1 && k <= MAX_REQUESTS && AllAnswered(fetch, h, l, k)
    ensures k <= Answered(fetch, h, l) <= MAX_REQUESTS
  {
    NotLater(fetch, h, l, k, Answered(fetch, h, l));
  }

  lemma NoFailureReachesTheCap(fetch: Upstream, h: seq<Record>, l: nat)
    requires l >= 1 && NeverFails(fetch, l)
    ensures Answered(fetch, h, l) == MAX_REQUESTS && ReachAfter(l, Answered(fetch, h, l)) == Limit(l)
  {
    ReachWithinLimit(l, MAX_REQUESTS);
    FirstFailureCounts(fetch, h, l, MAX_REQUESTS);
  }

  lemma MoreReachesFurther(h: seq<Record>, l: nat, j: nat, k: nat)
    requires l >= 1 && j <= k
    ensures ReachAfter(l, j) <= ReachAfter(l, k) && Collected(h, l, j) <= Collected(h, l, k)
  {
    if j > 0 { ReachGrows(l, j, k); }
  }

  /** A productive page moves the start to the next reach and the cursor goes on back; an unproductive one has
    * nothing left to reach, however many pages follow.
    */
  lemma NextReach(h: seq<Record>, start: nat, end: Option<int>, l: nat, k: nat, n: nat)
    requires Timely(h) && Covered(h, start, end) && l >= 1 && k < n
    requires |h| - start == Collected(h, l, k) && end == CursorAt(h, l, k) && (k == 0 <==> end == None)
    ensures var a := PageStart(h, end, l);
            a < start ==>
              && |h| - a == Collected(h, l, k + 1) && Some(h[a].timestamp) == CursorAt(h, l, k + 1)
              && h[a].timestamp > 0 && (end.Some? ==> h[a].timestamp < end.value)
    ensures PageStart(h, end, l) >= start ==> |h| - start == Collected(h, l, n)
  {
    NextPage(h, start, end, l);
    MoreReachesFurther(h, l, k, n);
    if k > 0 && l == 1 {
      ReachIsLinear(1, k);
      ReachIsLinear(1, n);
    }
  }

  ghost predicate Descending(s: seq<int>) {
    forall i, j :: 0 <= i < j < |s| ==> s[j] < s[i]
  }

  /** What one request brings: nothing when it fails, is empty or repeats, else the part of the history
    * just in front of what is covered.
    */
  ghost predicate Extends(h: seq<Record>, start: nat, a: nat, newItems: seq<Record>, seen: set<Record>, oldest: int) {
    a < start <= |h| && newItems == h[a..start] && seen == Elements(h[a..]) && oldest == h[a].timestamp
  }

  lemma SeenGrows(h: seq<Record>, a: nat, b: nat, start: nat)
    requires a <= start <= b <= |h|
    ensures Elements(h[start..]) + Elements(h[a..b]) == Elements(h[a..])
  {
    assert h[a..] == h[a..b] + h[b..] && h[start..] == h[start..b] + h[b..] && h[a..b] == h[a..start] + h[start..b];
  }

  ghost predicate Brings(h: seq<Record>, start: nat, end: Option<int>, l: nat, newItems: seq<Record>, seen: set<Record>, oldest: int) {
    var a := PageStart(h, end, l);
    if newItems == [] then a >= start else Extends(h, start, a, newItems, seen, oldest)
  }

  /** What a page that is not empty brings. */
  lemma PageBrings(h: seq<Record>, start: nat, end: Option<int>, l: nat, seen: set<Record>, batch: seq<Record>)
    requires Ascending(h) && NoRepeats(h) && Covered(h, start, end) && seen == Elements(h[start..])
    requires batch != [] && batch == PageOf(h, end, l)
    ensures Brings(h, start, end, l, Unseen(batch, seen), seen + Elements(batch), batch[0].timestamp)
  {
    NextPage(h, start, end, l);
    var a, b := PageStart(h, end, l), UpTo(h, end);
    UnseenIsTheGap(h, a, b, start, seen);
    if a < start { SeenGrows(h, a, b, start); }
  }

  /** The middle of the loop body, for a batch that is not empty: sort it and keep the new records. */
  method KeepNew(records: seq<Record>, seen: set<Record>, ghost h: seq<Record>, ghost start: nat, ghost end: Option<int>, ghost l: nat)
      returns (newItems: seq<Record>, seen': set<Record>, oldest: int)
    requires Ascending(h) && NoRepeats(h) && Covered(h, start, end) && seen == Elements(h[start..])
    requires records != [] && SortByTime(records) == PageOf(h, end, l)
    ensures Brings(h, start, end, l, newItems, seen', oldest)
  {
    var batch := SortByTime(records);
    assert batch != [] by {
      assert |batch| == |records|;
    }
    PageBrings(h, start, end, l, seen, batch);
    newItems, seen' := TakeNew(batch, seen);
    oldest := batch[0].timestamp;
  }

  /** While all requests were answered, the walk is where so many pages reach. */
  ghost predicate OnCourse(fetch: Upstream, h: seq<Record>, l: nat, start: nat, k: nat, end: Option<int>)
    requires l >= 1 && k <= MAX_REQUESTS
  {
    |h| - start == Collected(h, l, k) && end == CursorAt(h, l, k) && AllAnswered(fetch, h, l, k)
  }

  /** What the loop keeps about its counters. */
  ghost predicate Progress(fetch: Upstream, h: seq<Record>, l: nat, start: nat, reqCount: nat, end: Option<int>, cursors: seq<int>)
    requires l >= 1
  {
    && Covered(h, start, end) && |cursors| == reqCount <= MAX_REQUESTS
    && (reqCount == 0 <==> end == None)
    && (end.Some? ==> cursors[|cursors| - 1] == end.value)
    && Descending(cursors)
    && (Timely(h) ==> OnCourse(fetch, h, l, start, reqCount, end))
  }

  /** What is known when the loop ends: it got enough, or exactly as much as the answered requests reach. */
  ghost predicate Ended(fetch: Upstream, h: seq<Record>, l: nat, total: int, collected: int)
    requires l >= 1
  {
    Timely(h) ==>
      collected <= Collected(h, l, Answered(fetch, h, l))
      && (total <= collected || collected == Collected(h, l, Answered(fetch, h, l)))
  }

  /** A failed request ends the walk with what the requests before it reached. */
  lemma FailureEnds(fetch: Upstream, h: seq<Record>, l: nat, start: nat, k: nat, end: Option<int>, cursors: seq<int>, total: int)
    requires l >= 1 && k < MAX_REQUESTS && Progress(fetch, h, l, start, k, end, cursors) && fetch(k, end, l).Failed?
    ensures Ended(fetch, h, l, total, |h| - start)
  {
    if Timely(h) {
      assert !AnswersAt(fetch, h, l, k);
      FirstFailureCounts(fetch, h, l, k);
    }
  }

  /** So does an answer without anything new: there is nothing left to reach. */
  lemma NoNewRecordsEnds(fetch: Upstream, h: seq<Record>, l: nat, start: nat, k: nat, end: Option<int>, cursors: seq<int>, total: int)
    requires l >= 1 && k < MAX_REQUESTS && Progress(fetch, h, l, start, k, end, cursors) && fetch(k, end, l).Batch?
    requires PageStart(h, end, l) >= start
    ensures Ended(fetch, h, l, total, |h| - start)
  {
    if Timely(h) {
      assert AnswersAt(fetch, h, l, k);
      AnsweredAtLeast(fetch, h, l, k + 1);
      NextReach(h, start, end, l, k, Answered(fetch, h, l));
    }
  }

  lemma StaysOnCourse(fetch: Upstream, h: seq<Record>, l: nat, start: nat, k: nat, end: Option<int>, a: nat)
    requires l >= 1 && k < MAX_REQUESTS && Timely(h) && Covered(h, start, end) && (k == 0 <==> end == None)
    requires OnCourse(fetch, h, l, start, k, end) && fetch(k, end, l).Batch? && a == PageStart(h, end, l) < start
    ensures OnCourse(fetch, h, l, a, k + 1, Some(h[a].timestamp))
    ensures h[a].timestamp > 0 && (end.Some? ==> h[a].timestamp < end.value)
  {
    assert AnswersAt(fetch, h, l, k);
    NextReach(h, start, end, l, k, k + 1);
  }

  /** A productive page: the cursor moves strictly back, or the loop stops there, which it never does on distinct
    * positive timestamps.
    */
  lemma NewRecordsProgress(fetch: Upstream, h: seq<Record>, l: nat, start: nat, k: nat, end: Option<int>, cursors: seq<int>)
    requires l >= 1 && k < MAX_REQUESTS && Progress(fetch, h, l, start, k, end, cursors) && fetch(k, end, l).Batch?
    requires PageStart(h, end, l) < start
    ensures var a := PageStart(h, end, l); var oldest := h[a].timestamp;
            if oldest <= 0 || (end.Some? && oldest >= end.value) then !Timely(h)
            else Progress(fetch, h, l, a, k + 1, Some(oldest), cursors + [oldest])
  {
    if Timely(h) {
      StaysOnCourse(fetch, h, l, start, k, end, PageStart(h, end, l));
    }
  }

  lemma CapEnds(fetch: Upstream, h: seq<Record>, l: nat, start: nat, k: nat, end: Option<int>, cursors: seq<int>, total: int)
    requires l >= 1 && Progress(fetch, h, l, start, k, end, cursors)
    requires total <= |h| - start || k == MAX_REQUESTS
    ensures Ended(fetch, h, l, total, |h| - start)
  {
    if Timely(h) {
      AnsweredAtLeast(fetch, h, l, k);
      MoreReachesFurther(h, l, k, Answered(fetch, h, l));
    }
  }

  lemma CursorPage(fetch: Upstream, h: seq<Record>, l: nat, start: nat, i: nat, end: Option<int>)
    requires Covered(h, start, end) && Serves(fetch, h, l)
    ensures fetch(i, end, l).Batch? ==> SortByTime(fetch(i, end, l).records) == PageOf(h, end, l)
  {
    assert IsCursor(h, end);
  }

  lemma EmptyPage(fetch: Upstream, h: seq<Record>, l: nat, start: nat, i: nat, end: Option<int>)
    requires Ascending(h) && Covered(h, start, end) && l >= 1 && Serves(fetch, h, l)
    requires fetch(i, end, l).Batch? && fetch(i, end, l).records == []
    ensures PageStart(h, end, l) >= start
  {
    CursorPage(fetch, h, l, start, i, end);
    NextPage(h, start, end, l);
  }

  lemma JoinedGrows(h: seq<Record>, chunks: seq<seq<Record>>, start: nat, newItems: seq<Record>, a: nat)
    requires a <= start <= |h| && Joined(chunks) == h[start..] && newItems == h[a..start]
    ensures Joined(chunks + [newItems]) == h[a..]
  {
    assert (chunks + [newItems])[..|chunks|] == chunks;
  }

  /** One request and what the loop keeps of it: nothing when it fails, is empty or repeats, else the part of
    * the history just in front of what is covered.
    */
  method NextChunk(fetch: Upstream, totalLimit: int, l: nat, k: nat, end: Option<int>, seen: set<Record>,
                   ghost h: seq<Record>, ghost start: nat, ghost cursors: seq<int>)
      returns (newItems: seq<Record>, seen': set<Record>, oldest: int)
    requires Ascending(h) && NoRepeats(h) && l >= 1 && Serves(fetch, h, l) && k < MAX_REQUESTS
    requires Progress(fetch, h, l, start, k, end, cursors) && seen == Elements(h[start..])
    ensures newItems == [] ==> Ended(fetch, h, l, totalLimit, |h| - start)
    ensures newItems != [] ==> fetch(k, end, l).Batch? && Extends(h, start, PageStart(h, end, l), newItems, seen', oldest)
  {
    newItems, seen', oldest := [], seen, 0;
    var response := fetch(k, end, l);
    if response.Failed? {
      FailureEnds(fetch, h, l, start, k, end, cursors, totalLimit);
      return;
    }
    if response.records == [] {
      EmptyPage(fetch, h, l, start, k, end);
    } else {
      CursorPage(fetch, h, l, start, k, end);
      newItems, seen', oldest := KeepNew(response.records, seen, h, start, end, l);
    }
    if newItems == [] {
      NoNewRecordsEnds(fetch, h, l, start, k, end, cursors, totalLimit);
    }
  }

  /** The loop of `_paginate_backwards`: chunks newest first, covering a suffix of the history. `cursors`
    * are the cursors it moved to, strictly decreasing.
    */
  method Walk(fetch: Upstream, totalLimit: int, limitPerReq: nat, ghost h: seq<Record>)
      returns (chunks: seq<seq<Record>>, collected: int, ghost start: nat, ghost cursors: seq<int>)
    requires Ascending(h) && NoRepeats(h) && limitPerReq >= 1 && Serves(fetch, h, limitPerReq)
    ensures start <= |h| && collected == |h| - start && Joined(chunks) == h[start..]
    ensures Ended(fetch, h, limitPerReq, totalLimit, collected)
    ensures |cursors| <= MAX_REQUESTS && Descending(cursors)
    ensures totalLimit <= 0 ==> chunks == []
  {
    var seen: set<Record>, reqCount, currentEnd := {}, 0, None;
    chunks, collected, start, cursors := [], 0, |h|, [];
    while collected < totalLimit && reqCount < MAX_REQUESTS
      invariant Progress(fetch, h, limitPerReq, start, reqCount, currentEnd, cursors)
      invariant collected == |h| - start && Joined(chunks) == h[start..] && seen == Elements(h[start..])
      invariant totalLimit <= 0 ==> chunks == []
      decreases MAX_REQUESTS - reqCount
    {
      var newItems, seen', nextEnd :=
        NextChunk(fetch, totalLimit, limitPerReq, reqCount, currentEnd, seen, h, start, cursors);
      if newItems == [] { return; }
      ghost var a := PageStart(h, currentEnd, limitPerReq);
      NewRecordsProgress(fetch, h, limitPerReq, start, reqCount, currentEnd, cursors);
      JoinedGrows(h, chunks, start, newItems, a);
      start, chunks, seen := a, chunks + [newItems], seen';
      collected := collected + |newItems|;
      reqCount := reqCount + 1;
      if nextEnd <= 0 || (currentEnd.Some? && nextEnd >= currentEnd.value) { return; }
      currentEnd := Some(nextEnd);
      cursors := cursors + [nextEnd];
    }
    CapEnds(fetch, h, limitPerReq, start, reqCount, currentEnd, cursors, totalLimit);
  }

  /** The final slice of a covered suffix. */
  lemma FinalSlice(fetch: Upstream, h: seq<Record>, l: nat, start: nat, total: int)
    requires l >= 1 && start <= |h| && (total <= 0 ==> start == |h|)
    requires Ended(fetch, h, l, total, |h| - start)
    ensures var out := Tail(h[start..], total); IsSuffix(out, h) && |out| <= Max(total, 0)
    ensures Timely(h) ==> Tail(h[start..], total) == Last(h, Min(Max(total, 0), ReachAfter(l, Answered(fetch, h, l))))
  {
    assert ReachAfter(l, Answered(fetch, h, l)) >= 0;
  }

  /** `_paginate_backwards` over a history `h`. Whatever fails and wherever it stops, the result is a gap-free,
    * duplicate-free, sorted suffix of the history. With distinct positive timestamps it is exactly the last
    * `totalLimit` records, as far as the requests reach that were answered before one failed or the page cap
    * ended the walk: what was collected before a failure is kept.
    */
  method PaginateBackwards(fetch: Upstream, totalLimit: int, limitPerReq: nat, ghost h: seq<Record>)
      returns (out: seq<Record>, ghost cursors: seq<int>)
    requires Ascending(h) && NoRepeats(h) && limitPerReq >= 1 && Serves(fetch, h, limitPerReq)
    ensures IsSuffix(out, h) && |out| <= Max(totalLimit, 0)
    ensures Timely(h) ==>
              out == Last(h, Min(Max(totalLimit, 0), ReachAfter(limitPerReq, Answered(fetch, h, limitPerReq))))
    ensures |cursors| <= MAX_REQUESTS && Descending(cursors)
  {
    var chunks;
    ghost var start;
    var collected;
    chunks, collected, start, cursors := Walk(fetch, totalLimit, limitPerReq, h);
    out := Flatten(chunks);
    assert Ascending(h[start..]);
    SortedIsUnchanged(h[start..]);
    out := SortByTime(out);
    FinalSlice(fetch, h, limitPerReq, start, totalLimit);
    out := Tail(out, totalLimit);
  }
}
