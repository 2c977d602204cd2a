/** Bybit's two book streams: the order book and the book ticker. */
module BybitBook {
  import opened Wrappers
  import opened BoundedQueue
  import opened DeltaBook
  import opened PlainBook
  import opened BybitMessages

  /** A Bybit delta numbered `u` follows the frame numbered `u - 1`. */
  function FrameOf(m: Message): Frame {
    Frame(m.snapshot, if m.u.Some? then Some(m.u.value - 1) else None, m.u, m.b, m.a, m.ts)
  }

  function Frames(msgs: seq<Message>): seq<Frame> {
    seq(|msgs|, i requires 0 <= i < |msgs| => FrameOf(msgs[i]))
  }

  // ----- The machine yields what the messages say ------------------------------------------------------------

  lemma ShownIffShowable(msgs: seq<Message>, s: nat, k: nat)
    requires StartsAt(msgs, s) && s <= k < |msgs|
    ensures Shown(Frames(msgs), k) <==> Showable(msgs, s, k)
  {
    var frames := Frames(msgs);
    ShownInPlainWords(frames, k);
    assert frames[s].snapshot;
    assert forall j :: 0 < j <= k ==> (Breaks(frames[j - 1], frames[j]) <==> Skips(msgs[j - 1], msgs[j]));
    forall j | 0 <= j <= k
      ensures Started(frames, j + 1) <==> s <= j
      ensures Clean(frames[j]) <==> Legible(msgs[j])
    {
      assert frames[j] == FrameOf(msgs[j]);
      assert forall i :: 0 <= i <= j ==> frames[i].snapshot == msgs[i].snapshot;
    }
  }

  lemma SameLists(msgs: seq<Message>, r: nat, k: nat)
    requires r <= k < |msgs|
    ensures BidLists(Frames(msgs)[r..k + 1]) == Bids(msgs[r..k + 1]) && AskLists(Frames(msgs)[r..k + 1]) == Asks(msgs[r..k + 1])
  {
  }

  lemma SaidInMessages(msgs: seq<Message>, r: nat, k: nat, since: seq<Message>, sides: Sides)
    requires ResetAt(msgs, r, k) && since == msgs[r..k + 1]
    requires Shown(Frames(msgs), k) && sides == After(Frames(msgs)[..k + 1]).sides
    ensures Parses(Words(Bids(since))) && Parses(Words(Asks(since)))
    ensures sides == Sides(ApplyAll(map[], Words(Bids(since))), ApplyAll(map[], Words(Asks(since))))
  {
    assert forall j :: 0 <= j <= k ==> Frames(msgs)[j].snapshot == msgs[j].snapshot;
    BookInPlainWords(Frames(msgs), r, k);
    SameLists(msgs, r, k);
  }

  lemma ShownAtItsTime(msgs: seq<Message>, k: nat, depth: nat, q: Quote)
    requires k < |msgs| && Shown(Frames(msgs), k) && q == QuoteAt(Frames(msgs), k, depth)
    ensures ShowsBest(q, After(Frames(msgs)[..k + 1]).sides, depth) && msgs[k].ts == Some(q.timestamp)
  {
    ShownQuote(Frames(msgs), k, depth);
  }

  lemma QuotesWhatWasSaid(msgs: seq<Message>, r: nat, k: nat, depth: nat, q: Quote, since: seq<Message>, sides: Sides)
    requires ResetAt(msgs, r, k) && since == msgs[r..k + 1]
    requires Shown(Frames(msgs), k) && sides == After(Frames(msgs)[..k + 1]).sides
    requires ShowsBest(q, sides, depth) && msgs[k].ts == Some(q.timestamp)
    ensures Quotes(q, since, depth)
  {
    SaidInMessages(msgs, r, k, since, sides);
    LastSince(msgs, r, k, since);
    MakesQuotes(q, since, depth, sides);
  }

  lemma YieldsAsReceived(msgs: seq<Message>, depth: nat)
    ensures AsReceived(msgs, depth, Yields(Frames(msgs), depth))
  {
    var frames := Frames(msgs);
    assert frames[..|msgs|] == frames;
    var out := Yields(frames, depth);
    forall s: nat | StartsAt(msgs, s)
      ensures |out| <= |msgs| - s
      ensures forall k: nat :: s <= k < |msgs| ==> (k - s < |out| <==> Showable(msgs, s, k))
      ensures forall k: nat, r: nat :: s <= k && ResetAt(msgs, r, k) && k - s < |out| ==> Quotes(out[k - s], msgs[r..k + 1], depth)
    {
      YieldsInOrder(frames, depth, s, |frames|);
      forall k: nat | s <= k < |msgs|
        ensures k - s < |out| <==> Showable(msgs, s, k)
      {
        assert Fits(frames, depth, s, k, out);
        ShownIffShowable(msgs, s, k);
      }
      forall k: nat, r: nat | s <= k && ResetAt(msgs, r, k) && k - s < |out|
        ensures Quotes(out[k - s], msgs[r..k + 1], depth)
      {
        assert Fits(frames, depth, s, k, out);
        ShownAtItsTime(msgs, k, depth, out[k - s]);
        QuotesWhatWasSaid(msgs, r, k, depth, out[k - s], msgs[r..k + 1], After(frames[..k + 1]).sides);
      }
    }
  }

  // ----- The order book --------------------------------------------------------------------------------------

  /** One turn of either stream's loop, up to the updated book; the timestamp is not read yet. */
  method Absorb(book: Book, m: Message) returns (next: Book)
    requires book.Live?
    ensures next == Advance(book, FrameOf(m).(stamp := Some(0)))
  {
    var bids, asks := book.sides.bids, book.sides.asks;
    var lastU, bootstrapped := book.last, book.bootstrapped;
    if m.snapshot {
      bids, asks := map[], map[];
      bootstrapped := true;
    } else if lastU.Some? && m.u.Some? && m.u.value != lastU.value + 1 {
      return Dead;
    }
    lastU := m.u;
    if !bootstrapped {
      return Live(Sides(bids, asks), lastU, bootstrapped);
    }
    var newBids := ApplyEntries(bids, m.b);
    var newAsks := ApplyEntries(asks, m.a);
    if newBids.None? || newAsks.None? {
      return Dead;
    }
    next := Live(Sides(newBids.value, newAsks.value), lastU, bootstrapped);
  }

  /** `stream_orderbook`: everything the generator yields for the received messages. */
  method StreamOrderbook(msgs: seq<Message>, depth: nat) returns (out: seq<Quote>)
    ensures out == Yields(Frames(msgs), depth)
    ensures AsReceived(msgs, depth, out)
  {
    YieldsAsReceived(msgs, depth);
    ghost var frames := Frames(msgs);
    var book := START;
    out := [];
    for n := 0 to |msgs|
      invariant book == After(frames[..n]) && book.Live?
      invariant out == Yields(frames[..n], depth)
    {
      var m := msgs[n];
      assert frames[n] == FrameOf(m) && frames[..n + 1] == frames[..n] + [frames[n]];
      Extend(frames[..n], frames[n], depth);
      StampIsReadLast(book, frames[n]);
      book := Absorb(book, m);
      if book.Dead? || (book.bootstrapped && m.ts.None?) {
        DeadYieldsNothing(frames, n + 1, depth);
        return;
      }
      if !book.bootstrapped { continue; }
      out := out + [Quote(Top(book.sides.bids, true, depth), Top(book.sides.asks, false, depth), m.ts.value)];
    }
    assert frames[..|msgs|] == frames;
  }

  /** End to end: the hub routes Bybit's genuine messages to this stream's bounded queue, which drops
    * what it must, and the generator folds what is read. Every book yielded is still exactly the top
    * `depth` of Bybit's book at the update number of one of the messages read.
    */
  lemma EveryBookThroughTheHubIsTrue(truth: int -> Sides, maxsize: int, events: seq<Event<Message>>, depth: nat, k: nat)
    requires forall j :: 0 <= j < |Offered(events)| ==> Genuine(truth, FrameOf(Offered(events)[j]))
    requires k < |Yields(Frames(Play(maxsize, events).Read()), depth)|
    ensures var read := Play(maxsize, events).Read();
            exists i :: 0 <= i < |read| && TrueQuote(Yields(Frames(read), depth)[k], BookOf(truth, FrameOf(read[i])), depth)
  {
    QueueInvariant(maxsize, events);
    var read := Play(maxsize, events).Read();
    var frames := Frames(read);
    forall j | 0 <= j < |frames|
      ensures Genuine(truth, frames[j])
    {
      assert frames[j] == FrameOf(Offered(events)[Play(maxsize, events).taken[j]]);
    }
    var i := EveryYieldIsTrue(truth, frames, depth, k);
    assert frames[i] == FrameOf(read[i]);
  }

  // ----- The book ticker -------------------------------------------------------------------

  datatype Ticker = Ticker(bidPrice: real, bidQty: real, askPrice: real, askQty: real, timestamp: int)

  predicate TwoSided(s: Sides) {
    s.bids != map[] && s.asks != map[]
  }

  /** The ticker reads the timestamp only when it has a level on both sides to show. */
  function TickerAdvance(b: Book, f: Frame): Book {
    var next := Advance(b, f.(stamp := Some(0)));
    if next.Live? && next.bootstrapped && TwoSided(next.sides) && f.stamp.None? then Dead else next
  }

  function TickerAfter(frames: seq<Frame>): Book {
    if frames == [] then START
    else TickerAdvance(TickerAfter(frames[..|frames| - 1]), frames[|frames| - 1])
  }

  function TickerOf(s: Sides, stamp: int): Ticker
    requires TwoSided(s)
  {
    var bid, ask := Best(s.bids.Keys, true), Best(s.asks.Keys, false);
    Ticker(bid, s.bids[bid], ask, s.asks[ask], stamp)
  }

  function Tick(b: Book, f: Frame): seq<Ticker> {
    if b.Live? && b.bootstrapped && TwoSided(b.sides) && f.stamp.Some?
    then [TickerOf(b.sides, f.stamp.value)]
    else []
  }

  function Tickers(frames: seq<Frame>): seq<Ticker> {
    if frames == [] then []
    else Tickers(frames[..|frames| - 1]) + Tick(TickerAfter(frames), frames[|frames| - 1])
  }

  lemma ExtendTicker(before: seq<Frame>, f: Frame)
    ensures TickerAfter(before + [f]) == TickerAdvance(TickerAfter(before), f)
    ensures Tickers(before + [f]) == Tickers(before) + Tick(TickerAdvance(TickerAfter(before), f), f)
  {
    assert (before + [f])[..|before|] == before;
  }

  lemma {:induction false} DeadTicksNothing(frames: seq<Frame>, n: nat)
    requires n <= |frames| && TickerAfter(frames[..n]).Dead?
    ensures TickerAfter(frames).Dead? && Tickers(frames) == Tickers(frames[..n])
    decreases |frames|
  {
    if n < |frames| {
      var i := |frames| - 1;
      assert frames[..i][..n] == frames[..n];
      DeadTicksNothing(frames[..i], n);
    } else {
      assert frames[..n] == frames;
    }
  }

  /** `max(bids)` for `desc`, `min(asks)` otherwise. */
  method Extreme(side: Side, desc: bool) returns (p: real)
    requires side != map[]
    ensures p == Best(side.Keys, desc)
  {
    var rest := side.Keys;
    ghost var _ := Member(rest);
    p :| p in rest;
    rest := rest - {p};
    while rest != {}
      invariant p in side && rest <= side.Keys
      invariant forall k :: k in side && k !in rest && k != p ==> Ahead(desc, p, k)
      decreases |rest|
    {
      ghost var _ := Member(rest);
      var k :| k in rest;
      rest := rest - {k};
      if Ahead(desc, k, p) { p := k; }
    }
    assert IsBest(side.Keys, desc, p);
  }

  /** The extreme is the highest bid or the lowest ask. */
  lemma ExtremeIsHighestOrLowest(side: Side, desc: bool)
    requires side != map[]
    ensures var p := Best(side.Keys, desc); p in side && forall k :: k in side ==> if desc then k <= p else p <= k
  {
  }

  /** The best level of each side. */
  method BestOf(sides: Sides, stamp: int) returns (t: Ticker)
    requires TwoSided(sides)
    ensures t == TickerOf(sides, stamp)
  {
    var bidPrice := Extreme(sides.bids, true);
    var askPrice := Extreme(sides.asks, false);
    t := Ticker(bidPrice, sides.bids[bidPrice], askPrice, sides.asks[askPrice], stamp);
  }

  /** After the first `n` frames the book is `book` and the generator yielded `out`. */
  ghost predicate Ticked(frames: seq<Frame>, n: nat, book: Book, out: seq<Ticker>)
    requires n <= |frames|
  {
    book == TickerAfter(frames[..n]) && out == Tickers(frames[..n])
  }

  lemma TickedNext(frames: seq<Frame>, n: nat, book: Book, out: seq<Ticker>)
    requires n < |frames| && Ticked(frames, n, book, out)
    ensures Ticked(frames, n + 1, TickerAdvance(book, frames[n]), out + Tick(TickerAdvance(book, frames[n]), frames[n]))
  {
    assert frames[..n + 1] == frames[..n] + [frames[n]];
    ExtendTicker(frames[..n], frames[n]);
  }

  lemma TickedForGood(frames: seq<Frame>, n: nat, out: seq<Ticker>)
    requires n <= |frames| && Ticked(frames, n, Dead, out)
    ensures out == Tickers(frames)
  {
    DeadTicksNothing(frames, n);
  }

  /** `stream_book_ticker`: everything the generator yields for the received messages. */
  method StreamBookTicker(msgs: seq<Message>) returns (out: seq<Ticker>)
    ensures out == Tickers(Frames(msgs))
  {
    ghost var frames := Frames(msgs);
    var book := START;
    out := [];
    for n := 0 to |msgs|
      invariant book.Live? && Ticked(frames, n, book, out)
    {
      var m := msgs[n];
      TickedNext(frames, n, book, out);
      assert out + [] == out;
      book := Absorb(book, m);
      if book.Dead? {
        TickedForGood(frames, n + 1, out);
        return;
      }
      if !book.bootstrapped || book.sides.bids == map[] || book.sides.asks == map[] { continue; }
      if m.ts.None? {
        TickedForGood(frames, n + 1, out);
        return;
      }
      var t := BestOf(book.sides, m.ts.value);
      out := out + [t];
    }
    assert frames[..|msgs|] == frames;
  }

  /** The first level of each side of the quotes that have both sides. */
  function Heads(quotes: seq<Quote>): seq<Ticker> {
    if quotes == [] then []
    else
      var before, q := Heads(quotes[..|quotes| - 1]), quotes[|quotes| - 1];
      if q.bids == [] || q.asks == [] then before
      else before + [Ticker(q.bids[0].0, q.bids[0].1, q.asks[0].0, q.asks[0].1, q.timestamp)]
  }

  lemma HeadsOfAppend(quotes: seq<Quote>, q: Quote)
    ensures Heads(quotes + [q]) == Heads(quotes) +
              if q.bids == [] || q.asks == [] then []
              else [Ticker(q.bids[0].0, q.bids[0].1, q.asks[0].0, q.asks[0].1, q.timestamp)]
  {
    assert (quotes + [q])[..|quotes|] == quotes;
  }

  lemma FirstOfTop(side: Side, desc: bool, depth: nat)
    requires depth >= 1
    ensures Top(side, desc, depth) == [] <==> side == map[]
    ensures side != map[] ==> Top(side, desc, depth)[0] == (Best(side.Keys, desc), side[Best(side.Keys, desc)])
  {
    TopIsTop(side, desc, depth);
    if side != map[] {
      var p, t := Best(side.Keys, desc), Top(side, desc, depth);
      assert |side| != 0;
      assert t[0].0 in side;
      assert Listed(t, p) || Beyond(t, desc, p);
    }
  }

  /** The ticker and the book agree, frame by frame, until the book ends for want of a timestamp that a
    * one-sided ticker does not read.
    */
  ghost predicate InStep(frames: seq<Frame>, depth: nat) {
    TickerAfter(frames) == After(frames) && Tickers(frames) == Heads(Yields(frames, depth))
  }

  lemma StepTogether(before: seq<Frame>, f: Frame, depth: nat)
    requires depth >= 1 && InStep(before, depth)
    requires f.stamp.Some? || After(before + [f]).Live?
    ensures InStep(before + [f], depth)
  {
    Extend(before, f, depth);
    StampIsReadLast(After(before), f);
    ExtendTicker(before, f);
    var b := Advance(After(before), f);
    if b.Live? && b.bootstrapped {
      HeadsOfAppend(Yields(before, depth), QuoteOf(b.sides, f, depth));
      FirstOfTop(b.sides.bids, true, depth);
      FirstOfTop(b.sides.asks, false, depth);
    }
  }

  lemma BookIsBehind(before: seq<Frame>, f: Frame, depth: nat)
    requires Heads(Yields(before, depth)) <= Tickers(before) && After(before + [f]).Dead?
    ensures Heads(Yields(before + [f], depth)) <= Tickers(before + [f])
  {
    Extend(before, f, depth);
    ExtendTicker(before, f);
    assert Yields(before, depth) + [] == Yields(before, depth);
  }

  /** For any frames the tickers begin with the first level of each side of the book folded from the same
    * frames, at any depth, and are exactly those while the book lives and whenever the timestamps are
    * readable: max and min over the maps refine sort-and-truncate.
    */
  lemma {:induction false} TickerIsFirstLevelOfTheBook(frames: seq<Frame>, depth: nat)
    requires depth >= 1
    ensures Heads(Yields(frames, depth)) <= Tickers(frames)
    ensures After(frames).Live? ==> InStep(frames, depth)
    ensures (forall k :: 0 <= k < |frames| ==> frames[k].stamp.Some?) ==> InStep(frames, depth)
  {
    if frames != [] {
      var i := |frames| - 1;
      var before, f := frames[..i], frames[i];
      TickerIsFirstLevelOfTheBook(before, depth);
      assert frames == before + [f];
      if InStep(before, depth) && (f.stamp.Some? || After(frames).Live?) {
        StepTogether(before, f, depth);
      } else {
        BookIsBehind(before, f, depth);
      }
    }
  }
}
