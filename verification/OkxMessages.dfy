/** OKX's book messages, and what an order book generator has to yield for them, told from their blocks alone. */
module OkxMessages {
  import opened Wrappers
  import opened DeltaBook
  import opened PlainBook

  /** One element of a message's `data` list. */
  datatype Block = Block(seqId: Option<int>, prevSeqId: Option<int>, bids: seq<Entry>, asks: seq<Entry>, ts: Option<int>)

  /** `update` is true when the message's action is "update". */
  datatype Message = Message(update: bool, data: seq<Block>)

  // ----- Contracts to base units ---------------------------------------------------------------------------

  function InUnits(contracts: real, mult: real): real {
    contracts * mult
  }

  function ScaleEntry(e: Entry, mult: real): Entry {
    if e.Level? then Level(e.price, InUnits(e.qty, mult)) else Malformed
  }

  function ScaleEntries(entries: seq<Entry>, mult: real): seq<Entry> {
    seq(|entries|, i requires 0 <= i < |entries| => ScaleEntry(entries[i], mult))
  }

  function Scale(side: Side, mult: real): Side {
    map p | p in side :: InUnits(side[p], mult)
  }

  function ScaleSides(s: Sides, mult: real): Sides {
    Sides(Scale(s.bids, mult), Scale(s.asks, mult))
  }

  // ----- What the generator has to yield, told from the blocks ---------------------------------------------------

  /** A block and the action of its message. */
  datatype Piece = Piece(update: bool, block: Block)

  function PiecesOf(m: Message): seq<Piece> {
    seq(|m.data|, i requires 0 <= i < |m.data| => Piece(m.update, m.data[i]))
  }

  /** All blocks of all messages, in order. */
  function Pieces(msgs: seq<Message>): seq<Piece> {
    if msgs == [] then [] else Pieces(msgs[..|msgs| - 1]) + PiecesOf(msgs[|msgs| - 1])
  }

  /** Whether the block replaces the book: any does on the channel of five levels. */
  predicate Replaces(p: Piece, depth: nat) {
    depth <= 5 || !p.update
  }

  /** An update whose predecessor, by its own account, is another block than the one before it. */
  predicate Skips(before: Piece, p: Piece, depth: nat) {
    !Replaces(p, depth) && before.block.seqId.Some? && p.block.prevSeqId.Some? && p.block.prevSeqId != before.block.seqId
  }

  predicate Legible(p: Piece) {
    Parses(p.block.bids) && Parses(p.block.asks) && p.block.ts.Some?
  }

  /** Piece `s` is the first that replaces the book; without one `s` is the end. */
  ghost predicate StartsAt(pieces: seq<Piece>, depth: nat, s: nat) {
    s <= |pieces| && (s < |pieces| ==> Replaces(pieces[s], depth)) && forall j :: 0 <= j < s ==> !Replaces(pieces[j], depth)
  }

  /** Piece `r` is the last up to piece `k` that replaces the book. */
  ghost predicate ResetAt(pieces: seq<Piece>, depth: nat, r: nat, k: nat) {
    r <= k < |pieces| && Replaces(pieces[r], depth) && forall j :: r < j <= k ==> !Replaces(pieces[j], depth)
  }

  ghost predicate Showable(pieces: seq<Piece>, depth: nat, s: nat, k: nat)
    requires s <= k < |pieces|
  {
    && (forall j :: 0 < j <= k ==> !Skips(pieces[j - 1], pieces[j], depth))
    && (forall j :: s <= j <= k ==> Legible(pieces[j]))
  }

  function Bids(pieces: seq<Piece>): seq<seq<Entry>> {
    seq(|pieces|, i requires 0 <= i < |pieces| => pieces[i].block.bids)
  }

  function Asks(pieces: seq<Piece>): seq<seq<Entry>> {
    seq(|pieces|, i requires 0 <= i < |pieces| => pieces[i].block.asks)
  }

  /** Every level is one of `side`, in contracts, with its quantity times the multiplier. */
  ghost predicate InBaseUnits(levels: seq<(real, real)>, side: Side, mult: real) {
    forall i :: 0 <= i < |levels| ==> levels[i].0 in side && levels[i].1 == side[levels[i].0] * mult
  }

  /** The quote for the last of `pieces`, which begin with one that replaces the book: the best levels of what their
    * entries come to, converted to base units.
    */
  ghost predicate Quotes(q: Quote, pieces: seq<Piece>, depth: nat, mult: real) {
    && Parses(Words(Bids(pieces))) && Parses(Words(Asks(pieces)))
    && ShowsBest(q, ScaleSides(Sides(ApplyAll(map[], Words(Bids(pieces))), ApplyAll(map[], Words(Asks(pieces)))), mult), depth)
    && InBaseUnits(q.bids, ApplyAll(map[], Words(Bids(pieces))), mult)
    && InBaseUnits(q.asks, ApplyAll(map[], Words(Asks(pieces))), mult)
    && pieces != [] && pieces[|pieces| - 1].block.ts == Some(q.timestamp)
  }

  /** From the first piece that replaces the book on one quote for every piece, in order, up to the first update
    * that does not follow the piece before it or piece that does not parse; each shows the best levels of what
    * was said since the last piece that replaced the book.
    */
  ghost predicate AsReceived(pieces: seq<Piece>, depth: nat, mult: real, out: seq<Quote>) {
    forall s: nat :: StartsAt(pieces, depth, s) ==>
      && |out| <= |pieces| - s
      && (forall k: nat :: s <= k < |pieces| ==> (k - s < |out| <==> Showable(pieces, depth, s, k)))
      && (forall k: nat, r: nat :: s <= k && ResetAt(pieces, depth, r, k) && k - s < |out| ==>
            Quotes(out[k - s], pieces[r..k + 1], depth, mult))
  }

  lemma TopInBaseUnits(side: Side, desc: bool, depth: nat, mult: real)
    ensures InBaseUnits(Top(Scale(side, mult), desc, depth), side, mult)
  {
    TopIsTop(Scale(side, mult), desc, depth);
  }

  /** A quote of the scaled sides `b` and `a`, in contracts. */
  lemma MakesQuotes(q: Quote, pieces: seq<Piece>, depth: nat, mult: real, b: Side, a: Side, f: Frame)
    requires Parses(Words(Bids(pieces))) && Parses(Words(Asks(pieces)))
    requires b == ApplyAll(map[], Words(Bids(pieces))) && a == ApplyAll(map[], Words(Asks(pieces)))
    requires f.stamp.Some? && q == QuoteOf(ScaleSides(Sides(b, a), mult), f, depth)
    requires pieces != [] && pieces[|pieces| - 1].block.ts == f.stamp
    ensures Quotes(q, pieces, depth, mult)
  {
    QuoteShowsBest(ScaleSides(Sides(b, a), mult), f, depth);
    TopInBaseUnits(b, true, depth, mult);
    TopInBaseUnits(a, false, depth, mult);
  }
}
