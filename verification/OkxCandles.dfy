/** OKX candles: recent rows from one endpoint stitched to paginated history from another. */
module OkxCandles {
  import opened Basics
  import opened Wrappers
  import opened Histories
  import opened Pagination

  const PER_REQ := 300
  const HISTORY_PAGE := 100

  /** `if anchor:` sends no bound for an anchor of 0. */
  function Bound(anchor: Option<int>): Option<int> {
    if anchor == Some(0) then None else anchor
  }

  /** `{c.timestamp: c for c in s}.values()`, up to order: of equal timestamps the last row stays. */
  function LastPerTime(s: seq<Record>): seq<Record> {
    if s == [] then []
    else if exists j :: 1 <= j < |s| && s[j].timestamp == s[0].timestamp then LastPerTime(s[1..])
    else [s[0]] + LastPerTime(s[1..])
  }

  lemma {:induction false} DistinctTimesStay(s: seq<Record>)
    requires StrictlyAscending(s)
    ensures LastPerTime(s) == s
  {
    if s != [] {
      DistinctTimesStay(s[1..]);
    }
  }

  /** Timestamps as the adapter parses them: normalised to milliseconds, and none at or below zero. */
  ghost predicate Parsed(h: seq<Record>) {
    StrictlyAscending(h) && forall i :: 0 <= i < |h| ==> h[i].timestamp >= 1000
  }

  /** `v` is what a caller asks for: without an anchor, or with one of 0, the whole history, else its beginning up
    * to the last record at or before the anchor.
    */
  ghost predicate Visible(h: seq<Record>, startTime: Option<int>, v: seq<Record>) {
    if startTime.None? || startTime.value == 0 then v == h
    else
      && |v| <= |h| && v == h[..|v|]
      && (forall i :: 0 <= i < |v| ==> v[i].timestamp <= startTime.value)
      && (|v| < |h| ==> h[|v|].timestamp > startTime.value)
  }

  lemma BoundShowsTheVisible(h: seq<Record>, startTime: Option<int>)
    requires StrictlyAscending(h)
    ensures Visible(h, startTime, Before(h, Bound(startTime)))
  {
    var end := Bound(startTime);
    UpToSplits(h, end);
    var n := UpTo(h, end);
    if end.Some? {
      assert forall i :: 0 <= i < n ==> AtOrBefore(h[i], end);
      assert n < |h| ==> !AtOrBefore(h[n], end);
    }
  }

  /** `out` are the last `limit` rows of the visible history, as far as `reach` goes. */
  ghost predicate Answers(out: seq<Record>, visible: seq<Record>, limit: int, reach: nat) {
    IsSuffix(out, visible) && out == Last(visible, Min(Max(limit, 0), reach))
  }

  /** How far back the history requests reach that are answered before one fails, or the page cap ends them. */
  ghost function HistoryReach(history: Upstream, h: seq<Record>, cut: Option<int>): nat {
    ReachAfter(HISTORY_PAGE, Answered(Narrowed(history, cut), Before(h, cut), HISTORY_PAGE))
  }

  /** Without a failure the history requests reach as far as the page cap lets them. */
  lemma NoFailureReachesFar(history: Upstream, h: seq<Record>, cut: Option<int>)
    requires NeverFails(history, HISTORY_PAGE)
    ensures HistoryReach(history, h, cut) == Limit(HISTORY_PAGE) == 9901
  {
    NoFailureReachesTheCap(Narrowed(history, cut), Before(h, cut), HISTORY_PAGE);
  }

  lemma PartIsTimely(h: seq<Record>, cut: Option<int>)
    requires Parsed(h)
    ensures Timely(Before(h, cut)) && Ascending(Before(h, cut)) && NoRepeats(Before(h, cut))
  {
    var part := Before(h, cut);
    assert forall i :: 0 <= i < |part| ==> part[i] == h[i];
  }

  lemma ReachedAnswers(history: Upstream, h: seq<Record>, cut: Option<int>, total: int, part: seq<Record>, n: nat, out: seq<Record>)
    requires part == Before(h, cut) && n == Answered(Narrowed(history, cut), part, HISTORY_PAGE)
    requires out == Last(part, Min(Max(total, 0), ReachAfter(HISTORY_PAGE, n)))
    ensures Answers(out, part, total, HistoryReach(history, h, cut))
  {
    LastIsSuffix(part, Min(Max(total, 0), ReachAfter(HISTORY_PAGE, n)));
  }

  /** `_paginate_backwards` on the history endpoint, with `cut` standing in for a missing cursor. */
  method PaginateHistory(history: Upstream, cut: Option<int>, total: int, ghost h: seq<Record>) returns (out: seq<Record>)
    requires Parsed(h) && ServesAnywhere(history, h, HISTORY_PAGE)
    ensures Answers(out, Before(h, cut), total, HistoryReach(history, h, cut))
  {
    NarrowedServesPart(history, h, cut, HISTORY_PAGE);
    PartIsTimely(h, cut);
    ghost var part := Before(h, cut);
    ghost var cursors;
    out, cursors := PaginateBackwards(Narrowed(history, cut), total, HISTORY_PAGE, part);
    ReachedAnswers(history, h, cut, total, part, Answered(Narrowed(history, cut), part, HISTORY_PAGE), out);
  }

  lemma CutOfSuffix(h: seq<Record>, r: seq<Record>, cut: Option<int>)
    requires StrictlyAscending(h) && IsSuffix(r, h) && UpTo(r, cut) > 0
    ensures UpTo(h, cut) == |h| - |r| + UpTo(r, cut)
  {
    var d, m := |h| - |r|, UpTo(r, cut);
    UpToSplits(h, cut);
    UpToSplits(r, cut);
    assert h[d + m - 1] == r[m - 1] && AtOrBefore(r[m - 1], cut);
    assert m < |r| ==> h[d + m] == r[m] && !AtOrBefore(r[m], cut);
  }

  /** The records the recent endpoint can serve at or before the anchor are what the visible history ends with. */
  lemma RecentIsSuffixOfVisible(h: seq<Record>, r: seq<Record>, cut: Option<int>)
    requires StrictlyAscending(h) && IsSuffix(r, h)
    ensures IsSuffix(Before(r, cut), Before(h, cut))
  {
    if UpTo(r, cut) > 0 {
      CutOfSuffix(h, r, cut);
    }
  }

  /** The history in front of a suffix is what lies before the oldest timestamp of the suffix. */
  lemma InFrontOfSuffix(h: seq<Record>, cut: Option<int>, recent: seq<Record>)
    requires StrictlyAscending(h) && IsSuffix(recent, Before(h, cut)) && recent != []
    ensures Before(h, Some(recent[0].timestamp - 1)) == Before(h, cut)[..|Before(h, cut)| - |recent|]
  {
    var visible, end := Before(h, cut), Some(recent[0].timestamp - 1);
    var k := |visible| - |recent|;
    assert recent[0] == visible[k] == h[k];
    UpToSplits(h, end);
    var n := UpTo(h, end);
    assert !AtOrBefore(h[k], end);
    assert k > 0 ==> AtOrBefore(h[k - 1], end);
    assert n == k;
  }

  /** A suffix in front of a suffix, with nothing between them. */
  lemma NoGapAtTheSeam(visible: seq<Record>, recent: seq<Record>, front: seq<Record>)
    requires StrictlyAscending(visible) && IsSuffix(recent, visible)
    requires IsSuffix(front, visible[..|visible| - |recent|])
    ensures IsSuffix(front + recent, visible) && StrictlyAscending(front + recent)
  {
    var k := |visible| - |recent|;
    assert visible == visible[..k] + recent;
    assert front + recent == visible[k - |front|..];
  }

  lemma SuffixOfSuffix(s: seq<Record>, t: seq<Record>, u: seq<Record>)
    requires IsSuffix(s, t) && IsSuffix(t, u)
    ensures IsSuffix(s, u)
  {
  }

  /** `sorted({...}.values())[-limit:]` of the history rows and the recent rows. */
  function Stitched(front: seq<Record>, recent: seq<Record>, limit: nat): seq<Record> {
    Tail(SortByTime(LastPerTime(front + recent)), limit)
  }

  lemma StitchedIsBoth(visible: seq<Record>, recent: seq<Record>, front: seq<Record>, limit: nat)
    requires StrictlyAscending(visible) && IsSuffix(recent, visible)
    requires IsSuffix(front, visible[..|visible| - |recent|])
    requires |recent| < limit && |front| <= limit - |recent|
    ensures Stitched(front, recent, limit) == front + recent
    ensures IsSuffix(front + recent, visible)
  {
    NoGapAtTheSeam(visible, recent, front);
    DistinctTimesStay(front + recent);
    SortedIsUnchanged(front + recent);
  }

  lemma StitchedReaches(visible: seq<Record>, recent: seq<Record>, front: seq<Record>, m: nat)
    requires IsSuffix(recent, visible) && front == Last(visible[..|visible| - |recent|], m)
    ensures front + recent == Last(visible, m + |recent|)
  {
  }

  /** An answer for what lies in front of the recent rows, with those rows, answers for the whole. */
  lemma FrontAndRecentAnswer(visible: seq<Record>, older: seq<Record>, recent: seq<Record>, front: seq<Record>,
                             limit: nat, reach: nat)
    requires IsSuffix(recent, visible) && older == visible[..|visible| - |recent|] && |recent| < limit
    requires Answers(front, older, limit - |recent|, reach) && IsSuffix(front + recent, visible)
    ensures Answers(front + recent, visible, limit, |recent| + reach)
  {
    StitchedReaches(visible, recent, front, Min(limit - |recent|, reach));
  }

  lemma StitchAnswers(h: seq<Record>, cut: Option<int>, recent: seq<Record>, front: seq<Record>, limit: nat, reach: nat)
    requires Parsed(h) && recent != [] && |recent| < limit && IsSuffix(recent, Before(h, cut))
    requires Answers(front, Before(h, Some(recent[0].timestamp - 1)), limit - |recent|, reach)
    ensures Answers(Stitched(front, recent, limit), Before(h, cut), limit, |recent| + reach)
  {
    var visible, older := Before(h, cut), Before(h, Some(recent[0].timestamp - 1));
    InFrontOfSuffix(h, cut, recent);
    StitchedIsBoth(visible, recent, front, limit);
    FrontAndRecentAnswer(visible, older, recent, front, limit, reach);
  }

  /** The first request's rows alone are enough. */
  lemma RecentAnswers(visible: seq<Record>, recent: seq<Record>, limit: nat, reach: nat)
    requires IsSuffix(recent, visible) && limit >= 1 && |recent| >= limit && reach >= limit
    ensures Answers(Tail(recent, limit), visible, limit, reach)
  {
  }

  /** The bound below which the history requests look. */
  function Older(cut: Option<int>, recent: seq<Record>): Option<int> {
    if recent == [] then cut else Some(recent[0].timestamp - 1)
  }

  /** `out` are the last `limit` rows at or before `cut`, as far as the recent rows and the history in front of them
    * reach.
    */
  ghost predicate Stitches(out: seq<Record>, history: Upstream, h: seq<Record>, cut: Option<int>, recent: seq<Record>, limit: nat) {
    Answers(out, Before(h, cut), limit, |recent| + HistoryReach(history, h, Older(cut, recent)))
  }

  /** The rest of `get_candles` when the recent rows do not suffice; `front` are the history rows. */
  lemma HistoryAnswers(h: seq<Record>, cut: Option<int>, recent: seq<Record>, front: seq<Record>, limit: nat, reach: nat)
    requires Parsed(h) && |recent| < limit && IsSuffix(recent, Before(h, cut))
    requires Answers(front, Before(h, Older(cut, recent)), limit - |recent|, reach)
    ensures Answers(if recent == [] then front else Stitched(front, recent, limit), Before(h, cut), limit, |recent| + reach)
  {
    if recent != [] {
      StitchAnswers(h, cut, recent, front, limit, reach);
    }
  }

  lemma StitchesWhatReaches(out: seq<Record>, history: Upstream, h: seq<Record>, cut: Option<int>, recent: seq<Record>,
                            limit: nat, reach: nat)
    requires reach == HistoryReach(history, h, Older(cut, recent)) && Answers(out, Before(h, cut), limit, |recent| + reach)
    ensures Stitches(out, history, h, cut, recent, limit)
  {
  }

  /** The history in front of recent rows that do not suffice, stitched to them. */
  method StitchHistory(history: Upstream, recentBatch: seq<Record>, cut: Option<int>, limit: nat, ghost h: seq<Record>)
      returns (out: seq<Record>)
    requires Parsed(h) && ServesAnywhere(history, h, HISTORY_PAGE)
    requires recentBatch != [] && |recentBatch| < limit && IsSuffix(recentBatch, Before(h, cut))
    ensures Stitches(out, history, h, cut, recentBatch, limit)
  {
    var oldestRecent := recentBatch[0].timestamp;
    ghost var reach := HistoryReach(history, h, Some(oldestRecent - 1));
    var historyBatch := PaginateHistory(history, Some(oldestRecent - 1), limit - |recentBatch|, h);
    HistoryAnswers(h, cut, recentBatch, historyBatch, limit, reach);
    out := Stitched(historyBatch, recentBatch, limit);
    StitchesWhatReaches(out, history, h, cut, recentBatch, limit, reach);
  }

  /** `get_candles` after its first branch: `h` is the whole history, `recentBatch` the sorted rows of the first
    * request.
    */
  method AddHistory(history: Upstream, recentBatch: seq<Record>, cut: Option<int>, limit: nat, ghost h: seq<Record>)
      returns (out: seq<Record>)
    requires limit >= 1 && Parsed(h) && ServesAnywhere(history, h, HISTORY_PAGE)
    requires IsSuffix(recentBatch, Before(h, cut))
    ensures Stitches(out, history, h, cut, recentBatch, limit)
  {
    ghost var reach := HistoryReach(history, h, Older(cut, recentBatch));
    if recentBatch == [] {
      out := PaginateHistory(history, cut, limit, h);
      StitchesWhatReaches(out, history, h, cut, recentBatch, limit, reach);
    } else if |recentBatch| >= limit {
      RecentAnswers(Before(h, cut), recentBatch, limit, |recentBatch| + reach);
      out := Tail(recentBatch, limit);
      StitchesWhatReaches(out, history, h, cut, recentBatch, limit, reach);
    } else {
      out := StitchHistory(history, recentBatch, cut, limit, h);
    }
  }

  lemma RecentIsVisible(h: seq<Record>, r: seq<Record>, cut: Option<int>, n: nat)
    requires StrictlyAscending(h) && IsSuffix(r, h)
    ensures IsSuffix(PageOf(r, cut, n), Before(h, cut))
    ensures cut == None ==> PageOf(r, cut, n) == Last(r, n)
  {
    RecentIsSuffixOfVisible(h, r, cut);
    LastIsSuffix(Before(r, cut), n);
    SuffixOfSuffix(PageOf(r, cut, n), Before(r, cut), Before(h, cut));
  }

  /** What the first request brings, sorted; without an anchor it is the end of what the endpoint keeps. */
  lemma FirstRequest(recent: Upstream, r: seq<Record>, cut: Option<int>, l: nat)
    requires ServesAnywhere(recent, r, l) && recent(0, cut, l).Batch?
    ensures SortByTime(recent(0, cut, l).records) == PageOf(r, cut, l)
  {
  }

  lemma LastStaysLast(r: seq<Record>, limit: nat)
    requires limit >= 1
    ensures Tail(Last(r, limit), limit) == Last(r, limit)
  {
  }

  lemma VisibleRows(h: seq<Record>, startTime: Option<int>, rows: seq<Record>)
    requires Visible(h, startTime, Before(h, Bound(startTime))) && IsSuffix(rows, Before(h, Bound(startTime)))
    requires startTime.Some? && startTime.value != 0
    ensures forall i :: 0 <= i < |rows| ==> rows[i].timestamp <= startTime.value
  {
  }

  /** `get_candles`. The rows are the last `limit` candles at or before the anchor, as far as the recent rows and
    * the answered history requests reach: a failure of the history requests shortens the result and keeps what
    * they brought before it, and a failure of the recent request is raised to the caller. Without an anchor and
    * up to 300 rows the recent endpoint answers alone.
    */
  method GetCandles(recent: Upstream, history: Upstream, startTime: Option<int>, limit: nat, ghost h: seq<Record>, ghost r: seq<Record>)
      returns (out: Response)
    requires limit >= 1 && Parsed(h) && IsSuffix(r, h)
    requires ServesAnywhere(recent, r, Min(limit, PER_REQ)) && ServesAnywhere(history, h, HISTORY_PAGE)
    ensures out.Batch? <==> recent(0, Bound(startTime), Min(limit, PER_REQ)).Batch?
    ensures Visible(h, startTime, Before(h, Bound(startTime)))
    ensures out.Batch? && startTime.Some? && startTime.value != 0 ==>
              forall i :: 0 <= i < |out.records| ==> out.records[i].timestamp <= startTime.value
    ensures out.Batch? && startTime == None && limit <= PER_REQ ==> out.records == Last(r, limit)
    ensures out.Batch? && !(startTime == None && limit <= PER_REQ) ==>
              Stitches(out.records, history, h, Bound(startTime), PageOf(r, Bound(startTime), Min(limit, PER_REQ)), limit)
  {
    var cut := Bound(startTime);
    BoundShowsTheVisible(h, startTime);
    var response := recent(0, cut, Min(limit, PER_REQ));
    if response.Failed? { return Failed; }
    var recentBatch := SortByTime(response.records);
    FirstRequest(recent, r, cut, Min(limit, PER_REQ));
    RecentIsVisible(h, r, cut, Min(limit, PER_REQ));
    if startTime == None && limit <= PER_REQ {
      LastStaysLast(r, limit);
      return Batch(Tail(recentBatch, limit));
    }
    var rows := AddHistory(history, recentBatch, cut, limit, h);
    if startTime.Some? && startTime.value != 0 { VisibleRows(h, startTime, rows); }
    out := Batch(rows);
  }

  /** Answered by the recent endpoint alone the rows are the last `limit` of the history exactly when the
    * endpoint keeps that many.
    */
  lemma RecentAloneIsExact(h: seq<Record>, r: seq<Record>, limit: nat)
    requires IsSuffix(r, h)
    ensures IsSuffix(Last(r, limit), h)
    ensures Last(r, limit) == Last(h, limit) <==> |r| >= Min(limit, |h|)
  {
  }
}
