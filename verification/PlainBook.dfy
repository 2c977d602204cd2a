/** The book machine in plain words: which frames are shown, in which order, and what every level of a shown book is,
  * said of the received frames themselves and not of the machine's steps.
  */
module PlainBook {
  import opened Wrappers
  import opened DeltaBook

  // ----- What is said of a price -------------------------------------------------------------------------

  /** One list after the other. */
  function Words(lists: seq<seq<Entry>>): seq<Entry> {
    if lists == [] then [] else Words(lists[..|lists| - 1]) + lists[|lists| - 1]
  }

  function BidLists(frames: seq<Frame>): seq<seq<Entry>> {
    seq(|frames|, i requires 0 <= i < |frames| => frames[i].bids)
  }

  function AskLists(frames: seq<Frame>): seq<seq<Entry>> {
    seq(|frames|, i requires 0 <= i < |frames| => frames[i].asks)
  }

  lemma WordsGrow(lists: seq<seq<Entry>>, l: seq<Entry>)
    ensures Words(lists + [l]) == Words(lists) + l
  {
    assert (lists + [l])[..|lists|] == lists;
  }

  lemma WordsOfOne(l: seq<Entry>)
    ensures Words([l]) == l
  {
    assert [l][..0] == [];
    assert Words([l]) == [] + l;
  }

  /** Applying one list and then another is applying both as one. */
  lemma {:induction false} ApplyBoth(side: Side, a: seq<Entry>, b: seq<Entry>)
    requires Parses(a) && Parses(b)
    ensures Parses(a + b) && ApplyAll(ApplyAll(side, a), b) == ApplyAll(side, a + b)
  {
    if b == [] {
      assert a + b == a;
    } else {
      var n := |b| - 1;
      ApplyBoth(side, a, b[..n]);
      assert (a + b)[..|a + b| - 1] == a + b[..n];
    }
  }

  // ----- Which frames are shown ----------------------------------------------------------------------------

  /** The delta does not follow the frame before it, and both carry the number that tells. */
  predicate Breaks(before: Frame, f: Frame) {
    !f.snapshot && before.number.Some? && f.prev.Some? && f.prev != before.number
  }

  ghost predicate Unbroken(frames: seq<Frame>, n: nat) {
    forall j :: 0 < j < n && j < |frames| ==> !Breaks(frames[j - 1], frames[j])
  }

  ghost predicate Started(frames: seq<Frame>, n: nat) {
    exists s :: 0 <= s < n && s < |frames| && frames[s].snapshot
  }

  /** From the first snapshot on everything parses. */
  ghost predicate Readable(frames: seq<Frame>, n: nat) {
    forall j :: 0 <= j < n && j < |frames| && Started(frames, j + 1) ==> Clean(frames[j])
  }

  lemma OneMoreFrame(frames: seq<Frame>, n: nat)
    requires 0 < n <= |frames|
    ensures Unbroken(frames, n) <==> Unbroken(frames, n - 1) && (n > 1 ==> !Breaks(frames[n - 2], frames[n - 1]))
    ensures Started(frames, n) <==> Started(frames, n - 1) || frames[n - 1].snapshot
    ensures Readable(frames, n) <==> Readable(frames, n - 1) && (Started(frames, n) ==> Clean(frames[n - 1]))
  {
  }

  lemma AdvanceInPlainWords(b: Book, f: Frame)
    ensures b.Dead? ==> Advance(b, f).Dead?
    ensures b.Live? ==> (Advance(b, f).Live? <==> !Gap(b.last, f) && (b.bootstrapped || f.snapshot ==> Clean(f)))
    ensures Advance(b, f).Live? ==>
              b.Live? && Advance(b, f).bootstrapped == (b.bootstrapped || f.snapshot) && Advance(b, f).last == f.number
  {
  }

  /** The generator is alive exactly while no delta broke the chain and everything since the first snapshot
    * parsed, and it has a book exactly once a snapshot came.
    */
  lemma {:induction false} AliveInPlainWords(frames: seq<Frame>, n: nat)
    requires n <= |frames|
    ensures After(frames[..n]).Live? <==> Unbroken(frames, n) && Readable(frames, n)
    ensures After(frames[..n]).Live? ==> (After(frames[..n]).bootstrapped <==> Started(frames, n))
    ensures After(frames[..n]).Live? ==> After(frames[..n]).last == if n == 0 then None else frames[n - 1].number
  {
    if n > 0 {
      AliveInPlainWords(frames, n - 1);
      AfterNext(frames, n - 1);
      AdvanceInPlainWords(After(frames[..n - 1]), frames[n - 1]);
      OneMoreFrame(frames, n);
    }
  }

  /** Frame `k` is shown exactly if a snapshot came, no delta up to it broke the chain, and everything since
    * the first snapshot parsed.
    */
  lemma ShownInPlainWords(frames: seq<Frame>, k: nat)
    requires k < |frames|
    ensures Shown(frames, k) <==> Started(frames, k + 1) && Unbroken(frames, k + 1) && Readable(frames, k + 1)
  {
    AliveInPlainWords(frames, k + 1);
  }

  // ----- What a shown book is --------------------------------------------------------------------------------

  /** Frame `r` is the last snapshot up to frame `k`. */
  ghost predicate LastSnapshot(frames: seq<Frame>, r: nat, k: nat) {
    && r <= k < |frames| && frames[r].snapshot
    && forall j :: r < j <= k ==> !frames[j].snapshot
  }

  /** What both sides come to when all that was said since is applied to nothing. */
  ghost predicate SaidSince(frames: seq<Frame>, r: nat, k: nat, sides: Sides)
    requires r <= k < |frames|
  {
    var since := frames[r..k + 1];
    && Parses(Words(BidLists(since))) && Parses(Words(AskLists(since)))
    && sides == Sides(ApplyAll(map[], Words(BidLists(since))), ApplyAll(map[], Words(AskLists(since))))
  }

  lemma SaidAtSnapshot(frames: seq<Frame>, r: nat)
    requires r < |frames| && Clean(frames[r])
    ensures SaidSince(frames, r, r, ApplyFrame(EMPTY, frames[r]))
  {
    var f := frames[r];
    assert frames[r..r + 1] == [f];
    assert BidLists([f]) == [f.bids] && AskLists([f]) == [f.asks];
    WordsOfOne(f.bids);
    WordsOfOne(f.asks);
  }

  lemma SaidOneMore(frames: seq<Frame>, r: nat, k: nat, sides: Sides)
    requires r < k < |frames| && SaidSince(frames, r, k - 1, sides) && Clean(frames[k])
    ensures SaidSince(frames, r, k, ApplyFrame(sides, frames[k]))
  {
    var f, before := frames[k], frames[r..k];
    assert frames[r..k + 1] == before + [f];
    assert BidLists(before + [f]) == BidLists(before) + [f.bids] && AskLists(before + [f]) == AskLists(before) + [f.asks];
    WordsGrow(BidLists(before), f.bids);
    WordsGrow(AskLists(before), f.asks);
    ApplyBoth(map[], Words(BidLists(before)), f.bids);
    ApplyBoth(map[], Words(AskLists(before)), f.asks);
  }

  /** A shown book is what was said since the last snapshot, and nothing else: with `Updates`, a price is in it
    * exactly if the last entry since then that names it gives a quantity, which is the one shown.
    */
  lemma {:induction false} BookInPlainWords(frames: seq<Frame>, r: nat, k: nat)
    requires LastSnapshot(frames, r, k) && Shown(frames, k)
    ensures SaidSince(frames, r, k, After(frames[..k + 1]).sides)
    decreases k
  {
    AfterNext(frames, k);
    ShownIsClean(frames, k);
    if k == r {
      SaidAtSnapshot(frames, r);
    } else {
      AliveInPlainWords(frames, k);
      assert Started(frames, k);
      BookInPlainWords(frames, r, k - 1);
      SaidOneMore(frames, r, k, After(frames[..k]).sides);
    }
  }

  lemma ShownQuote(frames: seq<Frame>, k: nat, depth: nat)
    requires k < |frames| && Shown(frames, k)
    ensures ShowsBest(QuoteAt(frames, k, depth), After(frames[..k + 1]).sides, depth)
    ensures frames[k].stamp == Some(QuoteAt(frames, k, depth).timestamp)
  {
    ShownIsClean(frames, k);
    QuoteShowsBest(After(frames[..k + 1]).sides, frames[k], depth);
  }

  lemma LastSince<T>(msgs: seq<T>, r: nat, k: nat, since: seq<T>)
    requires r <= k < |msgs| && since == msgs[r..k + 1]
    ensures since != [] && since[|since| - 1] == msgs[k]
  {
  }

  // ----- The order of what is yielded ------------------------------------------------------------------------

  /** Frame `s` is the first snapshot; without one `s` is the end. */
  ghost predicate FirstSnapshot(frames: seq<Frame>, s: nat) {
    s <= |frames| && (s < |frames| ==> frames[s].snapshot) && forall j :: 0 <= j < s ==> !frames[j].snapshot
  }

  lemma ShownStopsForGood(frames: seq<Frame>, s: nat, k: nat)
    requires FirstSnapshot(frames, s) && s < k < |frames| && Shown(frames, k)
    ensures Shown(frames, k - 1)
  {
    AfterNext(frames, k);
    AliveInPlainWords(frames, k);
    assert Started(frames, k);
  }

  lemma NotShownBefore(frames: seq<Frame>, s: nat, k: nat)
    requires FirstSnapshot(frames, s) && k < s
    ensures !Shown(frames, k)
  {
    AliveInPlainWords(frames, k + 1);
  }

  /** The quotes `y` of the first `n` frames: from the first snapshot on every frame that is shown yields one, in
    * order, and no other frame does.
    */
  ghost predicate InOrder(frames: seq<Frame>, depth: nat, s: nat, n: nat, y: seq<Quote>)
    requires n <= |frames|
  {
    && |y| <= (if n < s then 0 else n - s)
    && forall k :: s <= k < n ==> Fits(frames, depth, s, k, y)
  }

  /** There is a quote for frame `k` exactly if it is shown, and it is the frame's. */
  ghost predicate Fits(frames: seq<Frame>, depth: nat, s: nat, k: nat, y: seq<Quote>)
    requires s <= k < |frames|
  {
    (k - s < |y| <==> Shown(frames, k)) && QuotedAt(frames, depth, s, k, y)
  }

  ghost predicate QuotedAt(frames: seq<Frame>, depth: nat, s: nat, k: nat, y: seq<Quote>)
    requires s <= k < |frames|
  {
    k - s < |y| && Shown(frames, k) ==> y[k - s] == QuoteAt(frames, k, depth)
  }

  lemma YieldsNext(frames: seq<Frame>, n: nat, depth: nat)
    requires n < |frames|
    ensures Yields(frames[..n + 1], depth)
         == Yields(frames[..n], depth) + if Shown(frames, n) then [QuoteAt(frames, n, depth)] else []
  {
    var upTo := frames[..n + 1];
    assert upTo[..n] == frames[..n] && upTo[..n + 1] == upTo && upTo[n] == frames[n];
    assert Yields(frames[..n], depth) + [] == Yields(frames[..n], depth);
  }

  lemma SkipInOrder(frames: seq<Frame>, depth: nat, s: nat, n: nat, y: seq<Quote>)
    requires n < |frames| && InOrder(frames, depth, s, n, y) && !Shown(frames, n)
    ensures InOrder(frames, depth, s, n + 1, y)
  {
  }

  lemma FitsStill(frames: seq<Frame>, depth: nat, s: nat, k: nat, y: seq<Quote>, q: Quote)
    requires s <= k < |frames| && Fits(frames, depth, s, k, y) && k - s < |y|
    ensures Fits(frames, depth, s, k, y + [q])
  {
    assert (y + [q])[k - s] == y[k - s];
  }

  lemma FitsAtTheEnd(frames: seq<Frame>, depth: nat, s: nat, n: nat, y: seq<Quote>, q: Quote)
    requires s <= n < |frames| && |y| == n - s && Shown(frames, n) && q == QuoteAt(frames, n, depth)
    ensures Fits(frames, depth, s, n, y + [q])
  {
  }

  lemma FitsAppended(frames: seq<Frame>, depth: nat, s: nat, n: nat, k: nat, y: seq<Quote>, q: Quote)
    requires s <= k <= n < |frames| && |y| == n - s && (k < n ==> Fits(frames, depth, s, k, y))
    requires Shown(frames, n) && q == QuoteAt(frames, n, depth)
    ensures Fits(frames, depth, s, k, y + [q])
  {
    if k < n {
      FitsStill(frames, depth, s, k, y, q);
    } else {
      FitsAtTheEnd(frames, depth, s, n, y, q);
    }
  }

  lemma AppendInOrder(frames: seq<Frame>, depth: nat, s: nat, n: nat, y: seq<Quote>, q: Quote)
    requires s <= n < |frames| && InOrder(frames, depth, s, n, y) && |y| == n - s
    requires Shown(frames, n) && q == QuoteAt(frames, n, depth)
    ensures InOrder(frames, depth, s, n + 1, y + [q])
  {
    forall k | s <= k < n + 1
      ensures Fits(frames, depth, s, k, y + [q])
    {
      FitsAppended(frames, depth, s, n, k, y, q);
    }
  }

  lemma OneMoreInOrder(frames: seq<Frame>, depth: nat, s: nat, n: nat, y: seq<Quote>)
    requires FirstSnapshot(frames, s) && n < |frames| && InOrder(frames, depth, s, n, y)
    ensures InOrder(frames, depth, s, n + 1, y + if Shown(frames, n) then [QuoteAt(frames, n, depth)] else [])
  {
    if n < s {
      NotShownBefore(frames, s, n);
    }
    if Shown(frames, n) {
      if n > s {
        ShownStopsForGood(frames, s, n);
        assert Fits(frames, depth, s, n - 1, y);
      }
      AppendInOrder(frames, depth, s, n, y, QuoteAt(frames, n, depth));
    } else {
      assert y + [] == y;
      SkipInOrder(frames, depth, s, n, y);
    }
  }

  lemma {:induction false} YieldsInOrder(frames: seq<Frame>, depth: nat, s: nat, n: nat)
    requires FirstSnapshot(frames, s) && n <= |frames|
    ensures InOrder(frames, depth, s, n, Yields(frames[..n], depth))
  {
    if n > 0 {
      YieldsInOrder(frames, depth, s, n - 1);
      YieldsNext(frames, n - 1, depth);
      OneMoreInOrder(frames, depth, s, n - 1, Yields(frames[..n - 1], depth));
    }
  }
}
