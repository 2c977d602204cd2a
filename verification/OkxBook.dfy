/** OKX's order book stream: several blocks per message, quantities in contracts. */
module OkxBook {
  import opened Wrappers
  import opened BoundedQueue
  import opened DeltaBook
  import opened PlainBook
  import opened OkxMessages

  /** Only the `books` channel, used above depth 5, sends deltas. */
  predicate SendsDeltas(depth: nat) {
    depth > 5
  }

  // ----- Contracts to base units -----------------------------------------------------------

  /** Scaling the entries is scaling the book: folding in base units loses nothing. */
  lemma {:induction false} ScalingCommutes(side: Side, entries: seq<Entry>, mult: real)
    requires Parses(entries) && mult != 0.0
    ensures Parses(ScaleEntries(entries, mult))
    ensures ApplyAll(Scale(side, mult), ScaleEntries(entries, mult)) == Scale(ApplyAll(side, entries), mult)
  {
    if entries != [] {
      var n := |entries| - 1;
      ScalingCommutes(side, entries[..n], mult);
      assert ScaleEntries(entries, mult)[..n] == ScaleEntries(entries[..n], mult);
      ScaleStep(ApplyAll(side, entries[..n]), entries[n], mult);
    } else {
      assert ScaleEntries(entries, mult) == [];
    }
  }

  lemma ScaleRemoves(side: Side, p: real, mult: real)
    ensures Scale(side - {p}, mult) == Scale(side, mult) - {p}
  {
    var l, r := Scale(side - {p}, mult), Scale(side, mult) - {p};
    assert forall k :: k in l <==> k in r;
    assert forall k :: k in l ==> l[k] == r[k];
  }

  lemma ScaleSets(side: Side, p: real, q: real, mult: real)
    ensures Scale(side[p := q], mult) == Scale(side, mult)[p := InUnits(q, mult)]
  {
    var l, r := Scale(side[p := q], mult), Scale(side, mult)[p := InUnits(q, mult)];
    assert forall k :: k in l <==> k in r;
    assert forall k :: k in l ==> l[k] == r[k];
  }

  lemma ScaleStep(side: Side, e: Entry, mult: real)
    requires e.Level? && mult != 0.0
    ensures ApplyEntry(Scale(side, mult), ScaleEntry(e, mult)) == Scale(ApplyEntry(side, e), mult)
  {
    NonZeroProduct(e.qty, mult);
    if e.qty == 0.0 {
      ScaleRemoves(side, e.price, mult);
    } else {
      ScaleSets(side, e.price, e.qty, mult);
    }
  }

  lemma NonZeroProduct(a: real, b: real)
    requires b != 0.0
    ensures InUnits(a, b) == 0.0 <==> a == 0.0
  {
    if a * b == 0.0 {
      assert a == (a * b) / b;
    }
  }

  // ----- The stream --------------------------------------------------------------------------

  function FrameOf(update: bool, b: Block, deltas: bool, mult: real): Frame {
    Frame(!deltas || !update, b.prevSeqId, b.seqId, ScaleEntries(b.bids, mult), ScaleEntries(b.asks, mult), b.ts)
  }

  function BlockFrames(m: Message, n: nat, deltas: bool, mult: real): seq<Frame>
    requires n <= |m.data|
  {
    seq(n, i requires 0 <= i < n => FrameOf(m.update, m.data[i], deltas, mult))
  }

  function Frames(msgs: seq<Message>, deltas: bool, mult: real): seq<Frame> {
    if msgs == [] then []
    else
      var m := msgs[|msgs| - 1];
      Frames(msgs[..|msgs| - 1], deltas, mult) + BlockFrames(m, |m.data|, deltas, mult)
  }

  lemma {:induction false} FramesPrefix(msgs: seq<Message>, n: nat, deltas: bool, mult: real)
    requires n <= |msgs|
    ensures Frames(msgs[..n], deltas, mult) <= Frames(msgs, deltas, mult)
    decreases |msgs|
  {
    if n < |msgs| {
      assert msgs[..|msgs| - 1][..n] == msgs[..n];
      FramesPrefix(msgs[..|msgs| - 1], n, deltas, mult);
    } else {
      assert msgs[..n] == msgs;
    }
  }

  /** What the entries of a block, in contracts, have to make of a side in base units, level by level: a price nobody
    * names stays as it is, any other is there exactly if the last entry that names it gives a quantity, and then
    * with that quantity times the multiplier.
    */
  ghost predicate UpdatesTimes(side: Side, entries: seq<Entry>, mult: real, r: Side) {
    && (forall p :: Unnamed(entries, p) ==> (p in r <==> p in side) && (p in r ==> r[p] == side[p]))
    && (forall p, i :: LastNaming(entries, p, i) ==>
          (p in r <==> entries[i].qty != 0.0) && (p in r ==> r[p] == entries[i].qty * mult))
  }

  lemma ScaledNamesTheSame(entries: seq<Entry>, mult: real, p: real)
    ensures Unnamed(entries, p) ==> Unnamed(ScaleEntries(entries, mult), p)
    ensures forall i :: LastNaming(entries, p, i) ==> LastNaming(ScaleEntries(entries, mult), p, i)
  {
    var scaled := ScaleEntries(entries, mult);
    assert forall j :: 0 <= j < |entries| ==> scaled[j] == ScaleEntry(entries[j], mult);
  }

  lemma ScaledUpdates(side: Side, entries: seq<Entry>, mult: real, r: Side)
    requires mult != 0.0 && Updates(side, ScaleEntries(entries, mult), r)
    ensures UpdatesTimes(side, entries, mult, r)
  {
    var scaled := ScaleEntries(entries, mult);
    forall p | Unnamed(entries, p)
      ensures (p in r <==> p in side) && (p in r ==> r[p] == side[p])
    {
      ScaledNamesTheSame(entries, mult, p);
    }
    forall p, i | LastNaming(entries, p, i)
      ensures (p in r <==> entries[i].qty != 0.0) && (p in r ==> r[p] == entries[i].qty * mult)
    {
      ScaledNamesTheSame(entries, mult, p);
      NonZeroProduct(entries[i].qty, mult);
      assert LastNaming(scaled, p, i) && scaled[i].qty == InUnits(entries[i].qty, mult);
    }
  }

  /** The loop over one side of a block: zero removes, anything else is stored times the multiplier. */
  method ApplyScaled(side: Side, entries: seq<Entry>, mult: real) returns (r: Option<Side>)
    requires mult != 0.0
    ensures Parses(ScaleEntries(entries, mult)) <==> Parses(entries)
    ensures r == if Parses(entries) then Some(ApplyAll(side, ScaleEntries(entries, mult))) else None
    ensures r.Some? ==> UpdatesTimes(side, entries, mult, r.value)
  {
    ghost var scaled := ScaleEntries(entries, mult);
    assert forall i :: 0 <= i < |entries| ==> (scaled[i].Level? <==> entries[i].Level?);
    if Parses(entries) {
      ApplyAllUpdates(side, scaled);
      ScaledUpdates(side, entries, mult, ApplyAll(side, scaled));
    }
    var levels := side;
    for i := 0 to |entries|
      invariant Parses(entries[..i]) && Parses(scaled[..i]) && levels == ApplyAll(side, scaled[..i])
    {
      if entries[i].Malformed? { return None; }
      assert scaled[..i + 1][..i] == scaled[..i];
      NonZeroProduct(entries[i].qty, mult);
      assert scaled[i] == Level(entries[i].price, InUnits(entries[i].qty, mult));
      if entries[i].qty == 0.0 {
        levels := levels - {entries[i].price};
      } else {
        levels := levels[entries[i].price := InUnits(entries[i].qty, mult)];
      }
    }
    assert entries[..|entries|] == entries && scaled[..|entries|] == scaled;
    r := Some(levels);
  }

  /** One turn of the inner loop: one block of a message. */
  method Absorb(book: Book, update: bool, b: Block, deltas: bool, mult: real) returns (next: Book)
    requires book.Live? && mult != 0.0
    ensures next == Advance(book, FrameOf(update, b, deltas, mult))
  {
    var bids, asks := book.sides.bids, book.sides.asks;
    var lastSeq, bootstrapped := book.last, book.bootstrapped;
    if !deltas || !update {
      bids, asks := map[], map[];
      lastSeq := b.seqId;
      bootstrapped := true;
    } else {
      if lastSeq.Some? && b.prevSeqId.Some? && b.prevSeqId != lastSeq {
        return Dead;
      }
      lastSeq := b.seqId;
    }
    if !bootstrapped {
      return Live(Sides(bids, asks), lastSeq, bootstrapped);
    }
    var newBids := ApplyScaled(bids, b.bids, mult);
    var newAsks := ApplyScaled(asks, b.asks, mult);
    if newBids.None? || newAsks.None? || b.ts.None? {
      return Dead;
    }
    next := Live(Sides(newBids.value, newAsks.value), lastSeq, bootstrapped);
  }

  lemma Assoc<T>(a: seq<T>, b: seq<T>, c: seq<T>)
    ensures (a + b) + c == a + (b + c)
  {
  }

  lemma NextBlock(done: seq<Frame>, m: Message, k: nat, deltas: bool, mult: real)
    requires k < |m.data|
    ensures (done + BlockFrames(m, k, deltas, mult)) + [FrameOf(m.update, m.data[k], deltas, mult)]
              == done + BlockFrames(m, k + 1, deltas, mult)
  {
  }

  lemma DeadInMessage(done: seq<Frame>, m: Message, k: nat, deltas: bool, mult: real, depth: nat)
    requires k <= |m.data| && After(done + BlockFrames(m, k, deltas, mult)).Dead?
    ensures After(done + BlockFrames(m, |m.data|, deltas, mult)).Dead?
    ensures Yields(done + BlockFrames(m, |m.data|, deltas, mult), depth)
              == Yields(done + BlockFrames(m, k, deltas, mult), depth)
  {
    var all, upTo := done + BlockFrames(m, |m.data|, deltas, mult), done + BlockFrames(m, k, deltas, mult);
    assert all[..|upTo|] == upTo;
    DeadYieldsNothing(all, |upTo|, depth);
  }

  /** After `k` blocks of the message the book is `book`, and since `done` the generator yielded `quotes`. */
  ghost predicate Absorbed(done: seq<Frame>, m: Message, k: nat, deltas: bool, mult: real, depth: nat, book: Book, quotes: seq<Quote>)
    requires k <= |m.data|
  {
    var seen := done + BlockFrames(m, k, deltas, mult);
    book == After(seen) && Yields(seen, depth) == Yields(done, depth) + quotes
  }

  lemma NothingAbsorbed(done: seq<Frame>, m: Message, deltas: bool, mult: real, depth: nat)
    ensures Absorbed(done, m, 0, deltas, mult, depth, After(done), [])
  {
    assert done + BlockFrames(m, 0, deltas, mult) == done;
  }

  /** One more block. */
  lemma BlockAbsorbed(done: seq<Frame>, m: Message, k: nat, deltas: bool, mult: real, depth: nat, book: Book, quotes: seq<Quote>)
    requires k < |m.data| && Absorbed(done, m, k, deltas, mult, depth, book, quotes)
    ensures var f := FrameOf(m.update, m.data[k], deltas, mult);
            var b := Advance(book, f);
            Absorbed(done, m, k + 1, deltas, mult, depth, b,
                     if b.Live? && b.bootstrapped then quotes + [QuoteOf(b.sides, f, depth)] else quotes)
  {
    var seen, f := done + BlockFrames(m, k, deltas, mult), FrameOf(m.update, m.data[k], deltas, mult);
    var b := Advance(book, f);
    Extend(seen, f, depth);
    NextBlock(done, m, k, deltas, mult);
    if b.Live? && b.bootstrapped {
      Assoc(Yields(done, depth), quotes, [QuoteOf(b.sides, f, depth)]);
    } else {
      Assoc(Yields(done, depth), quotes, []);
      assert quotes + [] == quotes;
    }
  }

  /** A dead generator absorbs the rest of the message without a yield. */
  lemma DeadAbsorbsTheRest(done: seq<Frame>, m: Message, k: nat, deltas: bool, mult: real, depth: nat, quotes: seq<Quote>)
    requires k <= |m.data| && Absorbed(done, m, k, deltas, mult, depth, Dead, quotes)
    ensures Absorbed(done, m, |m.data|, deltas, mult, depth, Dead, quotes)
  {
    DeadInMessage(done, m, k, deltas, mult, depth);
  }

  /** The loop over one message's `data`, after the frames `done`: the new book and what it yields. */
  method AbsorbMessage(book: Book, m: Message, deltas: bool, mult: real, depth: nat, ghost done: seq<Frame>)
      returns (next: Book, quotes: seq<Quote>)
    requires mult != 0.0 && book.Live? && book == After(done)
    ensures Absorbed(done, m, |m.data|, deltas, mult, depth, next, quotes)
  {
    next, quotes := book, [];
    NothingAbsorbed(done, m, deltas, mult, depth);
    for k := 0 to |m.data|
      invariant next.Live? && Absorbed(done, m, k, deltas, mult, depth, next, quotes)
    {
      var b := m.data[k];
      BlockAbsorbed(done, m, k, deltas, mult, depth, next, quotes);
      next := Absorb(next, m.update, b, deltas, mult);
      if next.Dead? {
        DeadAbsorbsTheRest(done, m, k + 1, deltas, mult, depth, quotes);
        return;
      }
      if !next.bootstrapped { continue; }
      quotes := quotes + [Quote(Top(next.sides.bids, true, depth), Top(next.sides.asks, false, depth), b.ts.value)];
    }
  }

  /** After the first `n` messages the book is `book` and the generator yielded `out`. */
  ghost predicate Streamed(msgs: seq<Message>, n: nat, deltas: bool, mult: real, depth: nat, book: Book, out: seq<Quote>)
    requires n <= |msgs|
  {
    var seen := Frames(msgs[..n], deltas, mult);
    book == After(seen) && out == Yields(seen, depth)
  }

  lemma MessageStreamed(msgs: seq<Message>, n: nat, deltas: bool, mult: real, depth: nat, book: Book, out: seq<Quote>,
                        next: Book, quotes: seq<Quote>)
    requires n < |msgs| && Streamed(msgs, n, deltas, mult, depth, book, out)
    requires Absorbed(Frames(msgs[..n], deltas, mult), msgs[n], |msgs[n].data|, deltas, mult, depth, next, quotes)
    ensures Streamed(msgs, n + 1, deltas, mult, depth, next, out + quotes)
  {
    assert msgs[..n + 1][..n] == msgs[..n];
  }

  lemma DeadStreamsNothing(msgs: seq<Message>, n: nat, deltas: bool, mult: real, depth: nat, out: seq<Quote>)
    requires n <= |msgs| && Streamed(msgs, n, deltas, mult, depth, Dead, out)
    ensures out == Yields(Frames(msgs, deltas, mult), depth)
  {
    var upTo, all := Frames(msgs[..n], deltas, mult), Frames(msgs, deltas, mult);
    FramesPrefix(msgs, n, deltas, mult);
    assert all[..|upTo|] == upTo;
    DeadYieldsNothing(all, |upTo|, depth);
  }

  // ----- The machine yields what the blocks say ------------------------------------------------------------------

  /** Frame for frame the pieces. */
  ghost predicate FromPieces(frames: seq<Frame>, pieces: seq<Piece>, deltas: bool, mult: real) {
    |frames| == |pieces| && forall i :: 0 <= i < |frames| ==> frames[i] == FrameOf(pieces[i].update, pieces[i].block, deltas, mult)
  }

  lemma {:induction false} FramesAreThePieces(msgs: seq<Message>, deltas: bool, mult: real)
    ensures FromPieces(Frames(msgs, deltas, mult), Pieces(msgs), deltas, mult)
  {
    if msgs != [] {
      FramesAreThePieces(msgs[..|msgs| - 1], deltas, mult);
    }
  }

  lemma ParsesScaled(entries: seq<Entry>, mult: real)
    ensures Parses(ScaleEntries(entries, mult)) <==> Parses(entries)
  {
    var scaled := ScaleEntries(entries, mult);
    assert forall i :: 0 <= i < |entries| ==> (scaled[i].Level? <==> entries[i].Level?);
  }

  function ScaleLists(lists: seq<seq<Entry>>, mult: real): seq<seq<Entry>> {
    seq(|lists|, i requires 0 <= i < |lists| => ScaleEntries(lists[i], mult))
  }

  lemma {:induction false} WordsScale(lists: seq<seq<Entry>>, mult: real)
    ensures Words(ScaleLists(lists, mult)) == ScaleEntries(Words(lists), mult)
  {
    if lists != [] {
      var n := |lists| - 1;
      WordsScale(lists[..n], mult);
      assert ScaleLists(lists, mult)[..n] == ScaleLists(lists[..n], mult);
      assert ScaleEntries(Words(lists[..n]) + lists[n], mult)
          == ScaleEntries(Words(lists[..n]), mult) + ScaleEntries(lists[n], mult);
    }
  }

  lemma SideScales(lists: seq<seq<Entry>>, mult: real)
    requires mult != 0.0 && Parses(Words(ScaleLists(lists, mult)))
    ensures Parses(Words(lists)) && ApplyAll(map[], Words(ScaleLists(lists, mult))) == Scale(ApplyAll(map[], Words(lists)), mult)
  {
    WordsScale(lists, mult);
    ParsesScaled(Words(lists), mult);
    ScalingCommutes(map[], Words(lists), mult);
    assert Scale(map[], mult) == map[];
  }

  lemma ShownIffShowable(frames: seq<Frame>, pieces: seq<Piece>, depth: nat, mult: real, s: nat, k: nat)
    requires FromPieces(frames, pieces, SendsDeltas(depth), mult) && StartsAt(pieces, depth, s) && s <= k < |pieces|
    ensures Shown(frames, k) <==> Showable(pieces, depth, s, k)
  {
    ShownInPlainWords(frames, k);
    assert frames[s].snapshot;
    assert forall j :: 0 < j <= k ==> (Breaks(frames[j - 1], frames[j]) <==> Skips(pieces[j - 1], pieces[j], depth));
    forall j | 0 <= j <= k
      ensures Started(frames, j + 1) <==> s <= j
      ensures Clean(frames[j]) <==> Legible(pieces[j])
    {
      assert forall i :: 0 <= i <= j ==> frames[i].snapshot == Replaces(pieces[i], depth);
      ParsesScaled(pieces[j].block.bids, mult);
      ParsesScaled(pieces[j].block.asks, mult);
    }
  }

  lemma SameLists(frames: seq<Frame>, pieces: seq<Piece>, deltas: bool, mult: real, r: nat, k: nat)
    requires FromPieces(frames, pieces, deltas, mult) && r <= k < |pieces|
    ensures BidLists(frames[r..k + 1]) == ScaleLists(Bids(pieces[r..k + 1]), mult)
    ensures AskLists(frames[r..k + 1]) == ScaleLists(Asks(pieces[r..k + 1]), mult)
  {
  }

  /** What was said, in contracts. */
  lemma SaidInContracts(frames: seq<Frame>, pieces: seq<Piece>, depth: nat, mult: real, r: nat, k: nat) returns (b: Side, a: Side)
    requires mult != 0.0 && FromPieces(frames, pieces, SendsDeltas(depth), mult)
    requires ResetAt(pieces, depth, r, k) && Shown(frames, k)
    ensures Parses(Words(Bids(pieces[r..k + 1]))) && Parses(Words(Asks(pieces[r..k + 1])))
    ensures b == ApplyAll(map[], Words(Bids(pieces[r..k + 1]))) && a == ApplyAll(map[], Words(Asks(pieces[r..k + 1])))
    ensures After(frames[..k + 1]).Live? && After(frames[..k + 1]).sides == ScaleSides(Sides(b, a), mult)
  {
    assert forall j :: 0 <= j <= k ==> frames[j].snapshot == Replaces(pieces[j], depth);
    BookInPlainWords(frames, r, k);
    SameLists(frames, pieces, SendsDeltas(depth), mult, r, k);
    SideScales(Bids(pieces[r..k + 1]), mult);
    SideScales(Asks(pieces[r..k + 1]), mult);
    b, a := ApplyAll(map[], Words(Bids(pieces[r..k + 1]))), ApplyAll(map[], Words(Asks(pieces[r..k + 1])));
  }

  lemma ShownQuoteOf(frames: seq<Frame>, k: nat, depth: nat, q: Quote)
    requires k < |frames| && Shown(frames, k) && q == QuoteAt(frames, k, depth)
    ensures frames[k].stamp.Some? && q == QuoteOf(After(frames[..k + 1]).sides, frames[k], depth)
  {
    ShownIsClean(frames, k);
  }

  lemma QuotesWhatWasSaid(frames: seq<Frame>, pieces: seq<Piece>, depth: nat, mult: real, r: nat, k: nat,
                          q: Quote, since: seq<Piece>, sides: Sides)
    requires mult != 0.0 && FromPieces(frames, pieces, SendsDeltas(depth), mult)
    requires ResetAt(pieces, depth, r, k) && since == pieces[r..k + 1]
    requires Shown(frames, k) && sides == After(frames[..k + 1]).sides
    requires frames[k].stamp.Some? && q == QuoteOf(sides, frames[k], depth)
    ensures Quotes(q, since, depth, mult)
  {
    var b, a := SaidInContracts(frames, pieces, depth, mult, r, k);
    LastSince(pieces, r, k, since);
    MakesQuotes(q, since, depth, mult, b, a, frames[k]);
  }

  lemma YieldsAsReceived(msgs: seq<Message>, depth: nat, mult: real)
    requires mult != 0.0
    ensures AsReceived(Pieces(msgs), depth, mult, Yields(Frames(msgs, SendsDeltas(depth), mult), depth))
  {
    var frames, pieces := Frames(msgs, SendsDeltas(depth), mult), Pieces(msgs);
    FramesAreThePieces(msgs, SendsDeltas(depth), mult);
    assert frames[..|frames|] == frames;
    var out := Yields(frames, depth);
    forall s: nat | StartsAt(pieces, depth, s)
      ensures |out| <= |pieces| - s
      ensures forall k: nat :: s <= k < |pieces| ==> (k - s < |out| <==> Showable(pieces, depth, s, k))
      ensures forall k: nat, r: nat :: s <= k && ResetAt(pieces, depth, r, k) && k - s < |out| ==>
                Quotes(out[k - s], pieces[r..k + 1], depth, mult)
    {
      FirstReplaces(frames, pieces, depth, mult, s);
      YieldsInOrder(frames, depth, s, |frames|);
      forall k: nat | s <= k < |pieces|
        ensures k - s < |out| <==> Showable(pieces, depth, s, k)
      {
        assert Fits(frames, depth, s, k, out);
        ShownIffShowable(frames, pieces, depth, mult, s, k);
      }
      forall k: nat, r: nat | s <= k && ResetAt(pieces, depth, r, k) && k - s < |out|
        ensures Quotes(out[k - s], pieces[r..k + 1], depth, mult)
      {
        assert Fits(frames, depth, s, k, out);
        ShownQuoteOf(frames, k, depth, out[k - s]);
        QuotesWhatWasSaid(frames, pieces, depth, mult, r, k, out[k - s], pieces[r..k + 1], After(frames[..k + 1]).sides);
      }
    }
  }

  lemma FirstReplaces(frames: seq<Frame>, pieces: seq<Piece>, depth: nat, mult: real, s: nat)
    requires FromPieces(frames, pieces, SendsDeltas(depth), mult) && StartsAt(pieces, depth, s)
    ensures FirstSnapshot(frames, s)
  {
    assert forall i :: 0 <= i < |frames| ==> frames[i].snapshot == Replaces(pieces[i], depth);
  }

  // ----- The generator -----------------------------------------------------------------------------------------

  /** `stream_orderbook`: everything the generator yields for the received messages. */
  method StreamOrderbook(msgs: seq<Message>, depth: nat, mult: real) returns (out: seq<Quote>)
    requires mult != 0.0
    ensures out == Yields(Frames(msgs, SendsDeltas(depth), mult), depth)
    ensures AsReceived(Pieces(msgs), depth, mult, out)
  {
    YieldsAsReceived(msgs, depth, mult);
    var deltas := depth > 5;
    var book := START;
    out := [];
    for n := 0 to |msgs|
      invariant book.Live? && Streamed(msgs, n, deltas, mult, depth, book, out)
    {
      ghost var before, shown := book, out;
      var quotes;
      book, quotes := AbsorbMessage(book, msgs[n], deltas, mult, depth, Frames(msgs[..n], deltas, mult));
      out := out + quotes;
      MessageStreamed(msgs, n, deltas, mult, depth, before, shown, book, quotes);
      if book.Dead? {
        DeadStreamsNothing(msgs, n + 1, deltas, mult, depth, out);
        return;
      }
    }
    assert msgs[..|msgs|] == msgs;
  }

  /** `contracts(n)` is OKX's own book, in contracts, at sequence id `n`. */
  ghost predicate GenuineBlock(contracts: int -> Sides, update: bool, b: Block, deltas: bool) {
    Genuine(contracts, FrameOf(update, b, deltas, 1.0))
  }

  /** OKX's book converted to base units. */
  ghost function BaseUnits(contracts: int -> Sides, mult: real): int -> Sides {
    n => ScaleSides(contracts(n), mult)
  }

  /** A genuine block in contracts is a genuine frame of the book in base units, so everything proved
    * of genuine frames holds of the scaled book the generator keeps.
    */
  lemma GenuineBlockScales(contracts: int -> Sides, update: bool, b: Block, deltas: bool, mult: real)
    requires mult != 0.0 && GenuineBlock(contracts, update, b, deltas)
    ensures Genuine(BaseUnits(contracts, mult), FrameOf(update, b, deltas, mult))
  {
    var raw, f := FrameOf(update, b, deltas, 1.0), FrameOf(update, b, deltas, mult);
    if Clean(f) {
      assert forall i :: 0 <= i < |b.bids| ==> f.bids[i].Level? && raw.bids[i] == b.bids[i];
      assert forall i :: 0 <= i < |b.asks| ==> f.asks[i].Level? && raw.asks[i] == b.asks[i];
      assert raw.bids == b.bids && raw.asks == b.asks;
      var base := if f.snapshot then EMPTY else contracts(f.prev.value);
      ScalingCommutes(base.bids, b.bids, mult);
      ScalingCommutes(base.asks, b.asks, mult);
      assert ScaleSides(EMPTY, mult) == EMPTY;
      var truth, start := BaseUnits(contracts, mult), if f.snapshot then EMPTY else BaseUnits(contracts, mult)(f.prev.value);
      assert start == ScaleSides(base, mult);
      assert ApplyFrame(start, f) == ScaleSides(ApplyFrame(base, raw), mult) == truth(f.number.value);
    }
  }

  ghost predicate GenuineMessage(contracts: int -> Sides, m: Message, deltas: bool) {
    forall k :: 0 <= k < |m.data| ==> GenuineBlock(contracts, m.update, m.data[k], deltas)
  }

  lemma {:induction false} GenuineMessagesScale(contracts: int -> Sides, msgs: seq<Message>, deltas: bool, mult: real)
    requires mult != 0.0 && forall n :: 0 <= n < |msgs| ==> GenuineMessage(contracts, msgs[n], deltas)
    ensures forall f :: f in Frames(msgs, deltas, mult) ==> Genuine(BaseUnits(contracts, mult), f)
  {
    if msgs != [] {
      GenuineMessagesScale(contracts, msgs[..|msgs| - 1], deltas, mult);
      var m := msgs[|msgs| - 1];
      var blocks := BlockFrames(m, |m.data|, deltas, mult);
      forall f | f in blocks
        ensures Genuine(BaseUnits(contracts, mult), f)
      {
        var k :| 0 <= k < |blocks| && blocks[k] == f;
        GenuineBlockScales(contracts, m.update, m.data[k], deltas, mult);
      }
    }
  }

  /** End to end: whatever the bounded queue drops of OKX's genuine messages, every book yielded is
    * exactly the top `depth` of OKX's book, in base units, at the sequence id of one received block.
    */
  lemma EveryBookThroughTheHubIsTrue(contracts: int -> Sides, maxsize: int, events: seq<Event<Message>>, depth: nat, mult: real, k: nat)
    requires mult != 0.0
    requires forall j :: 0 <= j < |Offered(events)| ==> GenuineMessage(contracts, Offered(events)[j], SendsDeltas(depth))
    requires k < |Yields(Frames(Play(maxsize, events).Read(), SendsDeltas(depth), mult), depth)|
    ensures var frames := Frames(Play(maxsize, events).Read(), SendsDeltas(depth), mult);
            exists i :: 0 <= i < |frames| && TrueQuote(Yields(frames, depth)[k], BookOf(BaseUnits(contracts, mult), frames[i]), depth)
  {
    QueueInvariant(maxsize, events);
    var read := Play(maxsize, events).Read();
    forall j | 0 <= j < |read|
      ensures GenuineMessage(contracts, read[j], SendsDeltas(depth))
    {
      assert read[j] == Offered(events)[Play(maxsize, events).taken[j]];
    }
    GenuineMessagesScale(contracts, read, SendsDeltas(depth), mult);
    var i := EveryYieldIsTrue(BaseUnits(contracts, mult), Frames(read, SendsDeltas(depth), mult), depth, k);
  }
}
