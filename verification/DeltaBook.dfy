/** Order books rebuilt from snapshots and sequenced deltas.
  *
  * Bybit and OKX number their frames differently but run the same machine: a snapshot replaces the
  * book, a delta is accepted only when it links to the last accepted number, and anything else ends
  * the stream. This module is that machine, its meaning, and its composition with the hub's lossy
  * queue; the two venues' loops are proved against it in their own modules.
  */
module DeltaBook {
  import opened Basics
  import opened Wrappers
  import opened BoundedQueue

  /** One side of a book: quantity by price. */
  type Side = map<real, real>

  datatype Sides = Sides(bids: Side, asks: Side)

  /** One entry of a frame; `Malformed` is any entry whose numbers do not parse. */
  datatype Entry = Level(price: real, qty: real) | Malformed

  /** `prev` is the number this frame says it follows, `number` its own; either may be missing. */
  datatype Frame = Frame(snapshot: bool, prev: Option<int>, number: Option<int>,
                         bids: seq<Entry>, asks: seq<Entry>, stamp: Option<int>)

  datatype Quote = Quote(bids: seq<(real, real)>, asks: seq<(real, real)>, timestamp: int)

  /** The loop's local variables, or `Dead` once the generator has returned. */
  datatype Book = Live(sides: Sides, last: Option<int>, bootstrapped: bool) | Dead

  const EMPTY: Sides := Sides(map[], map[])
  const START: Book := Live(EMPTY, None, false)

  // ----- Applying entries ------------------------------------------------------------------

  /** A zero quantity removes the level, any other sets it. */
  function ApplyEntry(side: Side, e: Entry): Side
    requires e.Level?
  {
    if e.qty == 0.0 then side - {e.price} else side[e.price := e.qty]
  }

  predicate Parses(entries: seq<Entry>) {
    forall i :: 0 <= i < |entries| ==> entries[i].Level?
  }

  function ApplyAll(side: Side, entries: seq<Entry>): (r: Side)
    requires Parses(entries)
    ensures NoZero(side) ==> NoZero(r)
  {
    if entries == [] then side
    else ApplyEntry(ApplyAll(side, entries[..|entries| - 1]), entries[|entries| - 1])
  }

  ghost predicate NoZero(side: Side) {
    forall p :: p in side ==> side[p] != 0.0
  }

  /** Entry `i` is the last that names price `p`. */
  ghost predicate LastNaming(entries: seq<Entry>, p: real, i: int) {
    && 0 <= i < |entries| && entries[i].Level? && entries[i].price == p
    && forall j :: i < j < |entries| && entries[j].Level? ==> entries[j].price != p
  }

  ghost predicate Unnamed(entries: seq<Entry>, p: real) {
    forall j :: 0 <= j < |entries| && entries[j].Level? ==> entries[j].price != p
  }

  /** What applying the entries to `side` has to come to, level by level: a price nobody names stays as it is, any
    * other is there exactly if the last entry that names it gives a quantity, and then with that quantity.
    */
  ghost predicate Updates(side: Side, entries: seq<Entry>, r: Side) {
    && (forall p :: Unnamed(entries, p) ==> (p in r <==> p in side) && (p in r ==> r[p] == side[p]))
    && (forall p, i :: LastNaming(entries, p, i) ==>
          (p in r <==> entries[i].qty != 0.0) && (p in r ==> r[p] == entries[i].qty))
  }

  lemma {:induction false} ApplyAllUpdates(side: Side, entries: seq<Entry>)
    requires Parses(entries)
    ensures Updates(side, entries, ApplyAll(side, entries))
  {
    if entries != [] {
      var n := |entries| - 1;
      var front, r := entries[..n], ApplyAll(side, entries);
      ApplyAllUpdates(side, front);
      forall p | Unnamed(entries, p)
        ensures (p in r <==> p in side) && (p in r ==> r[p] == side[p])
      {
        assert entries[n].price != p && Unnamed(front, p);
      }
      forall p, i | LastNaming(entries, p, i)
        ensures (p in r <==> entries[i].qty != 0.0) && (p in r ==> r[p] == entries[i].qty)
      {
        if i < n {
          assert entries[n].price != p && LastNaming(front, p, i);
        }
      }
    }
  }

  /** That description leaves no freedom. */
  lemma UpdatesIsUnique(side: Side, entries: seq<Entry>, r: Side, t: Side)
    requires Updates(side, entries, r) && Updates(side, entries, t)
    ensures r == t
  {
    forall p
      ensures (p in r <==> p in t) && (p in r && p in t ==> r[p] == t[p])
    {
      if !Unnamed(entries, p) {
        var i := FindLast(entries, p);
      }
    }
  }

  lemma {:induction false} FindLast(entries: seq<Entry>, p: real) returns (i: int)
    requires !Unnamed(entries, p)
    ensures LastNaming(entries, p, i)
  {
    var n := |entries| - 1;
    if entries[n].Level? && entries[n].price == p {
      i := n;
    } else {
      assert !Unnamed(entries[..n], p) by {
        var j :| 0 <= j < |entries| && entries[j].Level? && entries[j].price == p;
        assert entries[..n][j] == entries[j];
      }
      i := FindLast(entries[..n], p);
    }
  }

  function ApplyFrame(sides: Sides, f: Frame): Sides
    requires Clean(f)
  {
    Sides(ApplyAll(sides.bids, f.bids), ApplyAll(sides.asks, f.asks))
  }

  /** The frame parses: every entry and the timestamp. */
  predicate Clean(f: Frame) {
    Parses(f.bids) && Parses(f.asks) && f.stamp.Some?
  }

  // ----- The machine -----------------------------------------------------------------------

  predicate Gap(last: Option<int>, f: Frame) {
    !f.snapshot && last.Some? && f.prev.Some? && f.prev != last
  }

  function Advance(b: Book, f: Frame): Book {
    if b.Dead? || Gap(b.last, f) then Dead
    else if !b.bootstrapped && !f.snapshot then b.(last := f.number)
    else if !Clean(f) then Dead
    else Live(ApplyFrame(if f.snapshot then EMPTY else b.sides, f), f.number, true)
  }

  /** The timestamp is read last, when the book is about to be shown. */
  lemma StampIsReadLast(b: Book, f: Frame)
    ensures var next := Advance(b, f.(stamp := Some(0)));
            Advance(b, f) == if next.Live? && next.bootstrapped && f.stamp.None? then Dead else next
  {
  }

  function After(frames: seq<Frame>): Book {
    if frames == [] then START
    else Advance(After(frames[..|frames| - 1]), frames[|frames| - 1])
  }

  /** Frame `i` makes the generator yield: it was processed and the book is bootstrapped. */
  predicate Shown(frames: seq<Frame>, i: int)
    requires 0 <= i < |frames|
  {
    var b := After(frames[..i + 1]);
    b.Live? && b.bootstrapped
  }

  lemma ShownIsClean(frames: seq<Frame>, i: int)
    requires 0 <= i < |frames| && Shown(frames, i)
    ensures Clean(frames[i])
  {
    assert frames[..i + 1][..i] == frames[..i];
  }

  // ----- Best-first order ------------------------------------------------------------------

  predicate Ahead(desc: bool, a: real, b: real) {
    if desc then a > b else a < b
  }

  predicate IsBest(keys: set<real>, desc: bool, p: real) {
    p in keys && forall k :: k in keys && k != p ==> Ahead(desc, p, k)
  }

  lemma Member<T>(s: set<T>) returns (x: T)
    requires s != {}
    ensures x in s
  {
    x :| x in s;
  }

  lemma {:induction false} BestExists(keys: set<real>, desc: bool)
    requires keys != {}
    ensures exists p :: IsBest(keys, desc, p)
    decreases |keys|
  {
    var k := Member(keys);
    var rest := keys - {k};
    assert forall q :: q in keys && q != k ==> q in rest;
    if rest == {} {
      assert IsBest(keys, desc, k);
    } else {
      BestExists(rest, desc);
      var p :| IsBest(rest, desc, p);
      assert IsBest(keys, desc, if Ahead(desc, k, p) then k else p);
    }
  }

  function Best(keys: set<real>, desc: bool): (p: real)
    requires keys != {}
    ensures IsBest(keys, desc, p)
  {
    BestExists(keys, desc);
    var p :| IsBest(keys, desc, p);
    p
  }

  /** Python's `sorted(side.items(), ...)`: bids from the highest price, asks from the lowest. */
  function Ranked(side: Side, desc: bool): (r: seq<(real, real)>)
    ensures |r| == |side|
    decreases |side|
  {
    if side == map[] then []
    else
      var p := Best(side.Keys, desc);
      var rest := side - {p};
      assert rest.Keys == side.Keys - {p};
      [(p, side[p])] + Ranked(rest, desc)
  }

  function Top(side: Side, desc: bool, depth: nat): seq<(real, real)> {
    Ranked(side, desc)[..Min(depth, |side|)]
  }

  /** What "the top `depth` levels" means, without naming any way to compute it. */
  ghost predicate IsTop(top: seq<(real, real)>, side: Side, desc: bool, depth: nat) {
    && |top| == Min(depth, |side|)
    && (forall i :: 0 <= i < |top| ==> top[i].0 in side && side[top[i].0] == top[i].1)
    && (forall i, j :: 0 <= i < j < |top| ==> Ahead(desc, top[i].0, top[j].0))
    && (forall p :: p in side ==> Listed(top, p) || Beyond(top, desc, p))
  }

  ghost predicate Listed(top: seq<(real, real)>, p: real) {
    exists j :: 0 <= j < |top| && top[j].0 == p
  }

  ghost predicate Beyond(top: seq<(real, real)>, desc: bool, p: real) {
    forall i :: 0 <= i < |top| ==> Ahead(desc, top[i].0, p)
  }

  lemma {:induction false} RankedIsTop(side: Side, desc: bool)
    ensures IsTop(Ranked(side, desc), side, desc, |side|)
    ensures forall p :: p in side ==> Listed(Ranked(side, desc), p)
    decreases |side|
  {
    if side != map[] {
      var p := Best(side.Keys, desc);
      var rest := side - {p};
      assert rest.Keys == side.Keys - {p};
      RankedIsTop(rest, desc);
      var r, tail := Ranked(side, desc), Ranked(rest, desc);
      assert r == [(p, side[p])] + tail;
      forall q | q in side
        ensures Listed(r, q)
      {
        if q == p {
          assert r[0].0 == p;
        } else {
          assert q in rest && Listed(tail, q);
          var j :| 0 <= j < |tail| && tail[j].0 == q;
          assert r[j + 1].0 == q;
        }
      }
    }
  }

  lemma TopIsTop(side: Side, desc: bool, depth: nat)
    ensures IsTop(Top(side, desc, depth), side, desc, depth)
  {
    RankedIsTop(side, desc);
    var all, n := Ranked(side, desc), Min(depth, |side|);
    forall p | p in side
      ensures Listed(all[..n], p) || Beyond(all[..n], desc, p)
    {
      var j :| 0 <= j < |all| && all[j].0 == p;
      if j < n {
        assert all[..n][j].0 == p;
      }
    }
  }

  /** `IsTop` leaves no freedom: it determines the list. */
  lemma TopIsUnique(s: seq<(real, real)>, t: seq<(real, real)>, side: Side, desc: bool, depth: nat)
    requires IsTop(s, side, desc, depth) && IsTop(t, side, desc, depth)
    ensures s == t
  {
    SamePrefix(s, t, side, desc, depth, |s|);
    assert s[..|s|] == s && t[..|s|] == t;
  }

  lemma {:induction false} SamePrefix(s: seq<(real, real)>, t: seq<(real, real)>, side: Side, desc: bool, depth: nat, n: nat)
    requires IsTop(s, side, desc, depth) && IsTop(t, side, desc, depth) && n <= |s|
    ensures forall i :: 0 <= i < n ==> s[i] == t[i]
  {
    if n > 0 {
      SamePrefix(s, t, side, desc, depth, n - 1);
      NotAhead(s, t, side, desc, depth, n - 1);
      NotAhead(t, s, side, desc, depth, n - 1);
    }
  }

  lemma NotAhead(s: seq<(real, real)>, t: seq<(real, real)>, side: Side, desc: bool, depth: nat, n: nat)
    requires IsTop(s, side, desc, depth) && IsTop(t, side, desc, depth) && n < |s|
    requires forall i :: 0 <= i < n ==> s[i] == t[i]
    ensures !Ahead(desc, s[n].0, t[n].0)
  {
    var p := s[n].0;
    assert p in side;
    assert forall j :: 0 <= j < n ==> Ahead(desc, t[j].0, p);
    assert forall j :: n < j < |t| ==> Ahead(desc, t[n].0, t[j].0);
  }

  // ----- Meaning: the exchange's own book ----------------------------------------------------

  /** The exchange's book at a frame's own number. */
  ghost function BookOf(truth: int -> Sides, f: Frame): Sides {
    if f.number.Some? then truth(f.number.value) else EMPTY
  }

  /** `truth(n)` is the exchange's book at number `n`. A genuine frame is numbered, and unless it is
    * damaged it carries that book (a snapshot) or leads to it from the book it links to (a delta).
    */
  ghost predicate Genuine(truth: int -> Sides, f: Frame) {
    && f.number.Some?
    && (!f.snapshot ==> f.prev.Some?)
    && (Clean(f) ==> ApplyFrame(if f.snapshot then EMPTY else truth(f.prev.value), f) == truth(f.number.value))
  }

  ghost predicate Faithful(truth: int -> Sides, b: Book) {
    b.Live? && b.bootstrapped ==>
      b.last.Some? && b.sides == truth(b.last.value) && NoZero(b.sides.bids) && NoZero(b.sides.asks)
  }

  lemma {:induction false} AfterIsFaithful(truth: int -> Sides, frames: seq<Frame>)
    requires forall k :: 0 <= k < |frames| ==> Genuine(truth, frames[k])
    ensures Faithful(truth, After(frames))
    ensures After(frames).Live? && frames != [] ==> After(frames).last == frames[|frames| - 1].number
    ensures After(frames).Live? && After(frames).bootstrapped ==> exists j :: 0 <= j < |frames| && frames[j].snapshot
  {
    if frames != [] {
      AfterIsFaithful(truth, frames[..|frames| - 1]);
    }
  }

  function QuoteOf(sides: Sides, f: Frame, depth: nat): Quote
    requires f.stamp.Some?
  {
    Quote(Top(sides.bids, true, depth), Top(sides.asks, false, depth), f.stamp.value)
  }

  /** What frame `i` makes the generator yield. */
  function QuoteAt(frames: seq<Frame>, i: int, depth: nat): Quote
    requires 0 <= i < |frames| && Shown(frames, i)
  {
    ShownIsClean(frames, i);
    QuoteOf(After(frames[..i + 1]).sides, frames[i], depth)
  }

  /** Everything the generator yields, in order. */
  function Yields(frames: seq<Frame>, depth: nat): seq<Quote> {
    if frames == [] then []
    else
      var i := |frames| - 1;
      var before := Yields(frames[..i], depth);
      if Shown(frames, i) then before + [QuoteAt(frames, i, depth)] else before
  }

  /** One more frame: the step every generator loop takes. */
  lemma Extend(before: seq<Frame>, f: Frame, depth: nat)
    ensures After(before + [f]) == Advance(After(before), f)
    ensures var b := Advance(After(before), f);
            Yields(before + [f], depth)
              == Yields(before, depth) + if b.Live? && b.bootstrapped then [QuoteOf(b.sides, f, depth)] else []
  {
    var frames, i := before + [f], |before|;
    assert frames[..i] == before && frames[..i + 1] == frames && frames[i] == f;
    assert Shown(frames, i) <==> Advance(After(before), f).Live? && Advance(After(before), f).bootstrapped;
  }

  /** The quote lists the top `depth` levels, bids from the highest price and asks from the lowest. */
  ghost predicate ShowsBest(q: Quote, sides: Sides, depth: nat) {
    && IsTop(q.bids, sides.bids, true, depth)
    && IsTop(q.asks, sides.asks, false, depth)
    && (forall i, j :: 0 <= i < j < |q.bids| ==> q.bids[i].0 > q.bids[j].0)
    && (forall i, j :: 0 <= i < j < |q.asks| ==> q.asks[i].0 < q.asks[j].0)
  }

  lemma QuoteShowsBest(sides: Sides, f: Frame, depth: nat)
    requires f.stamp.Some?
    ensures ShowsBest(QuoteOf(sides, f, depth), sides, depth)
  {
    TopIsTop(sides.bids, true, depth);
    TopIsTop(sides.asks, false, depth);
  }

  /** A quote is true when it is exactly the top `depth` of the exchange's book, without zero levels. */
  ghost predicate TrueQuote(q: Quote, sides: Sides, depth: nat) {
    && ShowsBest(q, sides, depth)
    && (forall i :: 0 <= i < |q.bids| ==> q.bids[i].1 != 0.0)
    && (forall i :: 0 <= i < |q.asks| ==> q.asks[i].1 != 0.0)
  }

  /** Whatever genuine frames arrive, in whatever order and with whatever losses and repeats, the
    * book shown at frame `i` is the exchange's book at that frame's number, and a snapshot came first.
    */
  lemma ShownBookIsTrue(truth: int -> Sides, frames: seq<Frame>, i: int, depth: nat)
    requires forall k :: 0 <= k < |frames| ==> Genuine(truth, frames[k])
    requires 0 <= i < |frames| && Shown(frames, i)
    ensures TrueQuote(QuoteAt(frames, i, depth), BookOf(truth, frames[i]), depth)
    ensures exists j :: 0 <= j <= i && frames[j].snapshot
  {
    AfterIsFaithful(truth, frames[..i + 1]);
    QuoteShowsBest(After(frames[..i + 1]).sides, frames[i], depth);
    var j :| 0 <= j < i + 1 && frames[..i + 1][j].snapshot;
    assert frames[j].snapshot;
  }

  /** The k-th yielded book comes from frame `i` and is true at its number. */
  ghost predicate YieldedTruly(truth: int -> Sides, frames: seq<Frame>, depth: nat, k: nat, i: int) {
    && 0 <= i < |frames| && Shown(frames, i)
    && k < |Yields(frames, depth)| && Yields(frames, depth)[k] == QuoteAt(frames, i, depth)
    && TrueQuote(QuoteAt(frames, i, depth), BookOf(truth, frames[i]), depth)
  }

  lemma PrefixOfPrefix(frames: seq<Frame>, n: nat, i: nat)
    requires i < n <= |frames|
    ensures frames[..n][..i + 1] == frames[..i + 1] && frames[..n][i] == frames[i]
  {
  }

  lemma QuoteStays(frames: seq<Frame>, n: nat, i: nat, depth: nat)
    requires i < n <= |frames| && Shown(frames[..n], i)
    ensures Shown(frames, i) && QuoteAt(frames, i, depth) == QuoteAt(frames[..n], i, depth)
  {
    PrefixOfPrefix(frames, n, i);
  }

  lemma YieldStays(frames: seq<Frame>, n: nat, depth: nat, k: nat)
    requires |frames| == n + 1 && k < |Yields(frames[..n], depth)|
    ensures k < |Yields(frames, depth)| && Yields(frames, depth)[k] == Yields(frames[..n], depth)[k]
  {
  }

  lemma YieldedStays(truth: int -> Sides, frames: seq<Frame>, n: nat, depth: nat, k: nat, i: int)
    requires |frames| == n + 1 && YieldedTruly(truth, frames[..n], depth, k, i)
    ensures YieldedTruly(truth, frames, depth, k, i)
  {
    QuoteStays(frames, n, i, depth);
    YieldStays(frames, n, depth, k);
    assert frames[..n][i] == frames[i];
  }

  /** Every book in the yielded list comes from one of the received frames and is true at its number. */
  lemma {:induction false} EveryYieldIsTrue(truth: int -> Sides, frames: seq<Frame>, depth: nat, k: nat) returns (i: nat)
    requires forall j :: 0 <= j < |frames| ==> Genuine(truth, frames[j])
    requires k < |Yields(frames, depth)|
    ensures YieldedTruly(truth, frames, depth, k, i)
  {
    var n := |frames| - 1;
    if k < |Yields(frames[..n], depth)| {
      i := EveryYieldIsTrue(truth, frames[..n], depth, k);
      YieldedStays(truth, frames, n, depth, k, i);
    } else {
      i := n;
      ShownBookIsTrue(truth, frames, n, depth);
    }
  }

  /** A generator that has returned yields nothing more. */
  lemma {:induction false} DeadYieldsNothing(frames: seq<Frame>, n: nat, depth: nat)
    requires n <= |frames| && After(frames[..n]).Dead?
    ensures After(frames).Dead? && Yields(frames, depth) == Yields(frames[..n], depth)
    decreases |frames|
  {
    if n < |frames| {
      var i := |frames| - 1;
      assert frames[..i][..n] == frames[..n];
      DeadYieldsNothing(frames[..i], n, depth);
      assert frames[..i + 1] == frames;
    } else {
      assert frames[..n] == frames;
    }
  }

  // ----- The generators' inner loops -----------------------------------------------------------

  /** The loop over one side of a frame; `None` is the parse error that ends the stream. */
  method ApplyEntries(side: Side, entries: seq<Entry>) returns (r: Option<Side>)
    ensures r == if Parses(entries) then Some(ApplyAll(side, entries)) else None
    ensures r.Some? ==> Updates(side, entries, r.value)
  {
    if Parses(entries) { ApplyAllUpdates(side, entries); }
    var levels := side;
    for i := 0 to |entries|
      invariant Parses(entries[..i]) && levels == ApplyAll(side, entries[..i])
    {
      if entries[i].Malformed? { return None; }
      assert entries[..i + 1][..i] == entries[..i];
      if entries[i].qty == 0.0 {
        levels := levels - {entries[i].price};
      } else {
        levels := levels[entries[i].price := entries[i].qty];
      }
    }
    assert entries[..|entries|] == entries;
    r := Some(levels);
  }

  lemma LastIsLastRead(frames: seq<Frame>, k: nat)
    requires 0 < k <= |frames| && After(frames[..k]).Live?
    ensures After(frames[..k]).last == frames[k - 1].number
  {
    assert frames[..k][..k - 1] == frames[..k - 1];
  }

  lemma AfterNext(frames: seq<Frame>, k: nat)
    requires k < |frames|
    ensures After(frames[..k + 1]) == Advance(After(frames[..k]), frames[k])
  {
    assert frames[..k + 1][..k] == frames[..k];
  }

  // ----- No loss, nothing missing ------------------------------------------------------------

  /** Consecutive frames as the exchange sends them: each delta links to the frame before it, wherever the
    * link and that frame's number are there at all.
    */
  ghost predicate Chained(frames: seq<Frame>) {
    forall j :: 0 < j < |frames| && !frames[j].snapshot && frames[j].prev.Some? && frames[j - 1].number.Some? ==>
      frames[j].prev == frames[j - 1].number
  }

  /** Lossless delivery from a snapshot on shows a book at every frame: the gap check never misfires. */
  lemma {:induction false} LosslessStreamShowsEveryFrame(frames: seq<Frame>, i: int)
    requires Chained(frames) && (forall k :: 0 <= k < |frames| ==> Clean(frames[k]))
    requires 0 <= i < |frames| && frames[0].snapshot
    ensures Shown(frames, i) && After(frames[..i + 1]).last == frames[i].number
    decreases i
  {
    assert frames[..i + 1][..i] == frames[..i];
    if i > 0 {
      LosslessStreamShowsEveryFrame(frames, i - 1);
    }
  }
}
