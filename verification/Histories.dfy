/** Time-ordered histories of records, what an upstream serves of them, and Python's list idioms on them. */
module Histories {
  import opened Wrappers

  datatype Record = Record(timestamp: int, payload: int)

  ghost predicate Ascending(h: seq<Record>) {
    forall i, j :: 0 <= i < j < |h| ==> h[i].timestamp <= h[j].timestamp
  }

  ghost predicate StrictlyAscending(h: seq<Record>) {
    forall i, j :: 0 <= i < j < |h| ==> h[i].timestamp < h[j].timestamp
  }

  /** The last `n` elements, or all of them when there are fewer. */
  function Last<T>(s: seq<T>, n: nat): seq<T> {
    s[if |s| <= n then 0 else |s| - n..]
  }

  /** Python's `s[-n:]`, which is the whole list for `n == 0` and drops from the front for `n < 0`. */
  function Tail<T>(s: seq<T>, n: int): seq<T> {
    if n > 0 then Last(s, n)
    else if -n <= |s| then s[-n..] else []
  }

  /** `s` is what `h` ends with: no gap, no repeat, the order of `h`. */
  ghost predicate IsSuffix<T>(s: seq<T>, h: seq<T>) {
    |s| <= |h| && s == h[|h| - |s|..]
  }

  lemma LastIsSuffix<T>(s: seq<T>, n: nat)
    ensures IsSuffix(Last(s, n), s) && |Last(s, n)| == if |s| <= n then |s| else n
  {
  }

  // ----- Stable sorting by timestamp -------------------------------------------------------------

  function Insert(s: seq<Record>, x: Record): (r: seq<Record>)
    ensures multiset(r) == multiset(s) + multiset{x}
  {
    if s == [] || s[|s| - 1].timestamp <= x.timestamp then s + [x]
    else
      var front, back := s[..|s| - 1], s[|s| - 1];
      assert s == front + [back];
      Insert(front, x) + [back]
  }

  /** Python's `list.sort(key=lambda x: x.timestamp)`. */
  function SortByTime(s: seq<Record>): (r: seq<Record>)
    ensures multiset(r) == multiset(s) && |r| == |s|
  {
    if s == [] then []
    else
      assert s == s[..|s| - 1] + [s[|s| - 1]];
      var r := Insert(SortByTime(s[..|s| - 1]), s[|s| - 1]);
      assert |multiset(r)| == |r| && |multiset(s)| == |s|;
      r
  }

  lemma {:induction false} SortedIsUnchanged(s: seq<Record>)
    requires Ascending(s)
    ensures SortByTime(s) == s
  {
    if s != [] {
      SortedIsUnchanged(s[..|s| - 1]);
    }
  }

  lemma {:induction false} InsertKeepsAscending(s: seq<Record>, x: Record)
    requires Ascending(s)
    ensures Ascending(Insert(s, x))
  {
    if s != [] && s[|s| - 1].timestamp > x.timestamp {
      var front, back := s[..|s| - 1], s[|s| - 1];
      InsertKeepsAscending(front, x);
      var r := Insert(front, x);
      forall i | 0 <= i < |r|
        ensures r[i].timestamp <= back.timestamp
      {
        assert r[i] in multiset(r);
        assert r[i] in front || r[i] == x;
      }
    }
  }

  lemma {:induction false} SortByTimeAscends(s: seq<Record>)
    ensures Ascending(SortByTime(s))
  {
    if s != [] {
      SortByTimeAscends(s[..|s| - 1]);
      InsertKeepsAscending(SortByTime(s[..|s| - 1]), s[|s| - 1]);
    }
  }

  /** With distinct timestamps the order in which records arrive does not matter. */
  lemma AnyOrderSorts(batch: seq<Record>, page: seq<Record>)
    requires StrictlyAscending(page) && multiset(batch) == multiset(page)
    ensures SortByTime(batch) == page
  {
    SortByTimeAscends(batch);
    SameAscending(SortByTime(batch), page);
  }

  lemma SameLast(a: seq<Record>, b: seq<Record>)
    requires Ascending(a) && StrictlyAscending(b) && multiset(a) == multiset(b) && a != []
    ensures |a| == |b| && a[|a| - 1] == b[|b| - 1]
  {
    assert |multiset(a)| == |a| && |multiset(b)| == |b|;
    var x, y := a[|a| - 1], b[|b| - 1];
    assert x in multiset(b) && y in multiset(a);
    var i :| 0 <= i < |b| && b[i] == x;
    var j :| 0 <= j < |a| && a[j] == y;
  }

  lemma WithoutLast(a: seq<Record>)
    requires a != []
    ensures multiset(a[..|a| - 1]) == multiset(a) - multiset{a[|a| - 1]}
  {
    assert a == a[..|a| - 1] + [a[|a| - 1]];
  }

  lemma {:induction false} SameAscending(a: seq<Record>, b: seq<Record>)
    requires Ascending(a) && StrictlyAscending(b) && multiset(a) == multiset(b)
    ensures a == b
    decreases |a|
  {
    if a == [] {
      assert |multiset(b)| == |b|;
    } else {
      SameLast(a, b);
      WithoutLast(a);
      WithoutLast(b);
      SameAscending(a[..|a| - 1], b[..|b| - 1]);
      SameBack(a, b);
    }
  }

  lemma SameBack(a: seq<Record>, b: seq<Record>)
    requires |a| == |b| > 0 && a[|a| - 1] == b[|b| - 1] && a[..|a| - 1] == b[..|b| - 1]
    ensures a == b
  {
    assert a == a[..|a| - 1] + [a[|a| - 1]] && b == b[..|b| - 1] + [b[|b| - 1]];
  }

  // ----- What an upstream serves -------------------------------------------------------------------

  predicate AtOrBefore(r: Record, end: Option<int>) {
    end.None? || r.timestamp <= end.value
  }

  /** How many records of `h` lie at or before `end`; no bound means all of them. */
  function UpTo(h: seq<Record>, end: Option<int>): (n: nat)
    ensures n <= |h|
  {
    if h == [] || AtOrBefore(h[|h| - 1], end) then |h| else UpTo(h[..|h| - 1], end)
  }

  lemma {:induction false} UpToSplits(h: seq<Record>, end: Option<int>)
    requires Ascending(h)
    ensures forall i :: 0 <= i < |h| ==> (i < UpTo(h, end) <==> AtOrBefore(h[i], end))
  {
    if h != [] && !AtOrBefore(h[|h| - 1], end) {
      UpToSplits(h[..|h| - 1], end);
      assert forall i :: 0 <= i < |h| - 1 ==> h[..|h| - 1][i] == h[i];
    }
  }

  /** The part of the history at or before `end`. */
  function Before(h: seq<Record>, end: Option<int>): seq<Record> {
    h[..UpTo(h, end)]
  }

  /** An inclusive backward page: the last `l` records at or before `end`. */
  function PageOf(h: seq<Record>, end: Option<int>, l: nat): seq<Record> {
    Last(Before(h, end), l)
  }

  /** A request fails the way pagination expects, or returns a batch. */
  datatype Response = Failed | Batch(records: seq<Record>)

  /** Request number, inclusive end, page size: what the upstream answers. */
  type Upstream = (nat, Option<int>, nat) -> Response

  /** A cursor pagination can come to: none yet, or the timestamp of a record. */
  ghost predicate IsCursor(h: seq<Record>, end: Option<int>) {
    end.None? || exists j :: 0 <= j < |h| && h[j].timestamp == end.value
  }

  /** Whenever it answers at all, the upstream serves pages of `h`, in an order that sorting restores. */
  ghost predicate Serves(fetch: Upstream, h: seq<Record>, l: nat) {
    forall i: nat, end :: IsCursor(h, end) && fetch(i, end, l).Batch? ==>
      SortByTime(fetch(i, end, l).records) == PageOf(h, end, l)
  }

  ghost predicate NeverFails(fetch: Upstream, l: nat) {
    forall i: nat, end :: fetch(i, end, l).Batch?
  }

  /** An endpoint that serves pages of `h` at any bound. */
  ghost predicate ServesAnywhere(fetch: Upstream, h: seq<Record>, l: nat) {
    forall i: nat, end :: fetch(i, end, l).Batch? ==> SortByTime(fetch(i, end, l).records) == PageOf(h, end, l)
  }

  /** The first request, which has no cursor, is sent with the bound `cut` instead. */
  function Narrowed(fetch: Upstream, cut: Option<int>): Upstream {
    (i: nat, end: Option<int>, l: nat) => fetch(i, if end.Some? then end else cut, l)
  }

  lemma UpToOfPart(h: seq<Record>, cut: Option<int>, end: Option<int>)
    requires Ascending(h) && end.Some? && IsCursor(Before(h, cut), end)
    ensures UpTo(Before(h, cut), end) == UpTo(h, end)
  {
    var part := Before(h, cut);
    UpToSplits(h, cut);
    UpToSplits(h, end);
    UpToSplits(part, end);
    var j :| 0 <= j < |part| && part[j].timestamp == end.value;
    assert AtOrBefore(h[j], cut);
    var m, n := UpTo(part, end), UpTo(h, end);
    assert m > 0 ==> AtOrBefore(part[m - 1], end) && part[m - 1] == h[m - 1];
    assert n > 0 ==> AtOrBefore(h[n - 1], end) && AtOrBefore(h[n - 1], cut) && n - 1 < |part| && part[n - 1] == h[n - 1];
  }

  lemma NarrowedPage(h: seq<Record>, cut: Option<int>, end: Option<int>, l: nat)
    requires Ascending(h) && IsCursor(Before(h, cut), end)
    ensures PageOf(h, if end.Some? then end else cut, l) == PageOf(Before(h, cut), end, l)
  {
    var part := Before(h, cut);
    if end.Some? {
      UpToOfPart(h, cut, end);
      assert Before(part, end) == Before(h, end);
    } else {
      assert Before(part, None) == part;
    }
  }

  /** Narrowed to a bound, an endpoint serves exactly the part of the history up to that bound. */
  lemma NarrowedServesPart(fetch: Upstream, h: seq<Record>, cut: Option<int>, l: nat)
    requires Ascending(h) && ServesAnywhere(fetch, h, l)
    ensures Serves(Narrowed(fetch, cut), Before(h, cut), l)
    ensures NeverFails(fetch, l) ==> NeverFails(Narrowed(fetch, cut), l)
  {
    var part := Before(h, cut);
    forall i: nat, end | IsCursor(part, end) && Narrowed(fetch, cut)(i, end, l).Batch?
      ensures SortByTime(Narrowed(fetch, cut)(i, end, l).records) == PageOf(part, end, l)
    {
      NarrowedPage(h, cut, end, l);
    }
  }
}
