/** The book machine behind the hub's lossy queue: which losses the gap check notices, and exactly when a book
  * that is shown can be trusted although frames were dropped.
  */
module LossyBook {
  import opened Wrappers
  import opened BoundedQueue
  import opened DeltaBook

  // ----- What the gap check notices ----------------------------------------------------------------------

  /** A delta that repeats the number it follows and changes nothing: OKX sends these to keep a stream alive. */
  predicate Idle(f: Frame) {
    !f.snapshot && f.prev.Some? && f.number == f.prev && f.bids == [] && f.asks == [] && f.stamp.Some?
  }

  /** Between two places there is nothing, or nothing but idle frames. */
  ghost predicate IdleBetween(frames: seq<Frame>, i: int, j: int) {
    forall p :: i < p < j && 0 <= p < |frames| ==> Idle(frames[p])
  }

  /** The delta names the other frame's number. */
  predicate LinksTo(delta: Frame, f: Frame) {
    !delta.snapshot && delta.prev.Some? && f.number == delta.prev
  }

  /** The number a delta links to names its predecessor, and an earlier frame only if what came between them
    * was idle.
    */
  ghost predicate LinksAreExact(frames: seq<Frame>) {
    && Chained(frames)
    && (forall i, j :: 0 <= i < j < |frames| && LinksTo(frames[j], frames[i]) ==> IdleBetween(frames, i, j))
  }

  lemma {:induction false} IdleKeepsNumber(frames: seq<Frame>, i: nat, j: nat)
    requires Chained(frames) && i < j <= |frames| && IdleBetween(frames, i, j) && frames[i].number.Some?
    ensures frames[j - 1].number == frames[i].number
  {
    if i < j - 1 {
      IdleKeepsNumber(frames, i, j - 1);
      assert Idle(frames[j - 1]);
    }
  }

  /** The gap check compares nothing: the delta names no predecessor, or the frame read before it no number. */
  predicate Unarmed(read: seq<Frame>, k: nat)
    requires 0 < k < |read|
  {
    read[k].prev.None? || read[k - 1].number.None?
  }

  /** No frame that matters was dropped between the two reads. */
  ghost predicate NothingLost(f: Feed<Frame>, k: nat)
    requires 0 < k < |f.taken|
  {
    IdleBetween(f.routed, f.taken[k - 1], f.taken[k])
  }

  /** Of two frames read one after the other the delta is survived exactly when nothing that matters was
    * dropped between them or the check is unarmed: an armed check ends the stream on every loss in front of a
    * delta, and on nothing else.
    */
  lemma DropBeforeDeltaEndsTheStream(f: Feed<Frame>, maxsize: int, k: nat)
    requires Sound(f, maxsize) && LinksAreExact(f.routed)
    requires 0 < k < |f.taken| && !f.Read()[k].snapshot && Clean(f.Read()[k])
    requires After(f.Read()[..k]).Live?
    ensures After(f.Read()[..k + 1]).Live? <==> NothingLost(f, k) || Unarmed(f.Read(), k)
  {
    var r := f.Read();
    AfterNext(r, k);
    LastIsLastRead(r, k);
    var p, q := f.taken[k - 1], f.taken[k];
    assert r[k - 1] == f.routed[p] && r[k] == f.routed[q];
    LinkNamesTheFrame(f.routed, p, q);
  }

  lemma LinkNamesTheFrame(frames: seq<Frame>, p: nat, q: nat)
    requires LinksAreExact(frames) && p < q < |frames| && !frames[q].snapshot
    ensures frames[q].prev.Some? && frames[p].number.Some? ==>
              (frames[q].prev == frames[p].number <==> IdleBetween(frames, p, q))
  {
    if frames[p].number.Some? && IdleBetween(frames, p, q) {
      IdleKeepsNumber(frames, p, q);
    }
    assert frames[q].prev.Some? && frames[q].prev == frames[p].number ==> LinksTo(frames[q], frames[p]);
  }

  // ----- What a shown book is worth ------------------------------------------------------------------------

  /** `books(p)` is the exchange's book after the frame routed at place `p`, whatever number that frame
    * carries: a snapshot holds it and a delta leads to it from the book before.
    */
  ghost predicate GenuineInPlace(books: int -> Sides, routed: seq<Frame>) {
    forall p :: 0 <= p < |routed| ==> LeadsTo(books, p, routed[p])
  }

  ghost predicate LeadsTo(books: int -> Sides, p: int, f: Frame) {
    Clean(f) ==> ApplyFrame(if f.snapshot then EMPTY else books(p - 1), f) == books(p)
  }

  lemma {:induction false} IdleKeepsBook(books: int -> Sides, routed: seq<Frame>, i: nat, j: nat)
    requires GenuineInPlace(books, routed) && i < j <= |routed| && IdleBetween(routed, i, j)
    ensures books(j - 1) == books(i)
  {
    if i < j - 1 {
      IdleKeepsBook(books, routed, i, j - 1);
      assert Idle(routed[j - 1]) && LeadsTo(books, j - 1, routed[j - 1]);
    }
  }

  /** The reads from `j` to `k` are all deltas. */
  ghost predicate DeltasFrom(read: seq<Frame>, j: int, k: int) {
    forall i :: j <= i <= k && 0 <= i < |read| ==> !read[i].snapshot
  }

  /** Since the last snapshot read up to `k` nothing was lost in front of an unarmed delta. */
  ghost predicate NoUnarmedLossSince(f: Feed<Frame>, maxsize: int, k: nat)
    requires Sound(f, maxsize) && k < |f.taken|
  {
    forall j :: 0 < j <= k && DeltasFrom(f.Read(), j, k) && Unarmed(f.Read(), j) ==> NothingLost(f, j)
  }

  lemma OneReadEarlier(f: Feed<Frame>, maxsize: int, k: nat)
    requires Sound(f, maxsize) && 0 < k < |f.taken| && NoUnarmedLossSince(f, maxsize, k) && !f.Read()[k].snapshot
    ensures NoUnarmedLossSince(f, maxsize, k - 1)
  {
    forall j | 0 < j <= k - 1 && DeltasFrom(f.Read(), j, k - 1) && Unarmed(f.Read(), j)
      ensures NothingLost(f, j)
    {
      assert DeltasFrom(f.Read(), j, k);
    }
  }

  /** In front of a delta that is shown the book has stayed what it was at the read before. */
  lemma BookHasStayed(books: int -> Sides, f: Feed<Frame>, maxsize: int, k: nat)
    requires Sound(f, maxsize) && LinksAreExact(f.routed) && GenuineInPlace(books, f.routed)
    requires 0 < k < |f.taken| && f.taken[k - 1] < f.taken[k] && NoUnarmedLossSince(f, maxsize, k)
    requires After(f.Read()[..k]).Live? && Shown(f.Read(), k) && !f.Read()[k].snapshot
    ensures books(f.taken[k] - 1) == books(f.taken[k - 1])
  {
    DropBeforeDeltaEndsTheStream(f, maxsize, k);
    assert DeltasFrom(f.Read(), k, k);
    IdleKeepsBook(books, f.routed, f.taken[k - 1], f.taken[k]);
  }

  /** Numbers or not, a book that is shown is the exchange's book at the place of its frame unless, since the
    * last snapshot read, a frame was lost in front of a delta for which the check was unarmed.
    */
  lemma {:induction false} WrongBookNeedsUnarmedLoss(books: int -> Sides, f: Feed<Frame>, maxsize: int, k: nat)
    requires Sound(f, maxsize) && LinksAreExact(f.routed) && GenuineInPlace(books, f.routed)
    requires k < |f.taken| && NoUnarmedLossSince(f, maxsize, k)
    requires Shown(f.Read(), k)
    ensures After(f.Read()[..k + 1]).sides == books(f.taken[k])
  {
    var r := f.Read();
    AfterNext(r, k);
    assert r[k] == f.routed[f.taken[k]];
    ShownIsClean(r, k);
    if !r[k].snapshot {
      assert After(r[..k]).Live? && After(r[..k]).bootstrapped;
      assert k > 0;
      OneReadEarlier(f, maxsize, k);
      WrongBookNeedsUnarmedLoss(books, f, maxsize, k - 1);
      BookHasStayed(books, f, maxsize, k);
      assert After(r[..k]).sides == books(f.taken[k] - 1);
    }
    assert LeadsTo(books, f.taken[k], r[k]);
  }

  // ----- The other half: a book nobody can vouch for --------------------------------------------------------

  /** `other` numbers and links its frames as `routed` does and is idle wherever that is; what its frames carry
    * may differ.
    */
  ghost predicate SameShape(other: seq<Frame>, routed: seq<Frame>) {
    |other| == |routed| && forall p :: 0 <= p < |routed| ==> SameLinks(other[p], routed[p])
  }

  ghost predicate SameLinks(g: Frame, f: Frame) {
    g.snapshot == f.snapshot && g.prev == f.prev && g.number == f.number && (Idle(f) ==> Idle(g))
  }

  /** The same reads of other frames. */
  ghost function Reread(f: Feed<Frame>, maxsize: int, other: seq<Frame>): Feed<Frame>
    requires Sound(f, maxsize) && |other| == |f.routed|
  {
    Feed(other, other[f.Gone()..], f.taken)
  }

  /** Whatever genuine content the frames have, the book shown at read `k` is the exchange's. */
  ghost predicate RightWhateverTheyCarry(f: Feed<Frame>, maxsize: int, k: nat)
    requires Sound(f, maxsize) && k < |f.taken|
  {
    forall other, books :: SameShape(other, f.routed) && GenuineInPlace(books, other) ==>
      TrustedAt(Reread(f, maxsize, other), maxsize, books, k)
  }

  ghost predicate TrustedAt(g: Feed<Frame>, maxsize: int, books: int -> Sides, k: nat)
    requires Sound(g, maxsize) && k < |g.taken|
  {
    Shown(g.Read(), k) ==> After(g.Read()[..k + 1]).sides == books(g.taken[k])
  }

  lemma ShapeKeepsLinksExact(other: seq<Frame>, routed: seq<Frame>)
    requires SameShape(other, routed) && LinksAreExact(routed)
    ensures LinksAreExact(other)
  {
    forall i, j | 0 <= i < j < |other| && LinksTo(other[j], other[i])
      ensures IdleBetween(other, i, j)
    {
      assert SameLinks(other[i], routed[i]) && SameLinks(other[j], routed[j]);
      assert LinksTo(routed[j], routed[i]);
      assert IdleBetween(routed, i, j);
      forall p | i < p < j
        ensures Idle(other[p])
      {
        assert SameLinks(other[p], routed[p]);
      }
    }
    forall j | 0 < j < |other| && !other[j].snapshot && other[j].prev.Some? && other[j - 1].number.Some?
      ensures other[j].prev == other[j - 1].number
    {
      assert SameLinks(other[j], routed[j]) && SameLinks(other[j - 1], routed[j - 1]);
    }
  }

  lemma RereadsTheSame(f: Feed<Frame>, maxsize: int, other: seq<Frame>)
    requires Sound(f, maxsize) && SameShape(other, f.routed)
    ensures Sound(Reread(f, maxsize, other), maxsize)
    ensures forall i :: 0 <= i < |f.taken| ==> SameLinks(Reread(f, maxsize, other).Read()[i], f.Read()[i])
  {
  }

  lemma ShapeKeepsUnarmedLoss(f: Feed<Frame>, maxsize: int, k: nat, other: seq<Frame>)
    requires Sound(f, maxsize) && SameShape(other, f.routed) && k < |f.taken| && NoUnarmedLossSince(f, maxsize, k)
    ensures Sound(Reread(f, maxsize, other), maxsize) && NoUnarmedLossSince(Reread(f, maxsize, other), maxsize, k)
  {
    RereadsTheSame(f, maxsize, other);
    var g := Reread(f, maxsize, other);
    forall j | 0 < j <= k && DeltasFrom(g.Read(), j, k) && Unarmed(g.Read(), j)
      ensures NothingLost(g, j)
    {
      assert SameLinks(g.Read()[j], f.Read()[j]) && SameLinks(g.Read()[j - 1], f.Read()[j - 1]);
      forall i | j <= i <= k
        ensures !f.Read()[i].snapshot
      {
        assert SameLinks(g.Read()[i], f.Read()[i]);
      }
      assert NothingLost(f, j);
      forall p | f.taken[j - 1] < p < f.taken[j]
        ensures Idle(other[p])
      {
        assert SameLinks(other[p], f.routed[p]);
      }
    }
  }

  lemma TrustedWithoutUnarmedLoss(f: Feed<Frame>, maxsize: int, k: nat)
    requires Sound(f, maxsize) && LinksAreExact(f.routed) && k < |f.taken| && NoUnarmedLossSince(f, maxsize, k)
    ensures RightWhateverTheyCarry(f, maxsize, k)
  {
    forall other, books | SameShape(other, f.routed) && GenuineInPlace(books, other)
      ensures Sound(Reread(f, maxsize, other), maxsize) && TrustedAt(Reread(f, maxsize, other), maxsize, books, k)
    {
      var g := Reread(f, maxsize, other);
      ShapeKeepsLinksExact(other, f.routed);
      ShapeKeepsUnarmedLoss(f, maxsize, k, other);
      if Shown(g.Read(), k) {
        WrongBookNeedsUnarmedLoss(books, g, maxsize, k);
      }
    }
  }

  /** A frame that matters and was dropped. */
  ghost predicate Lost(f: Feed<Frame>, p: int) {
    0 <= p < |f.routed| && !Idle(f.routed[p]) && p !in f.taken
  }

  lemma BetweenReadsIsDropped(f: Feed<Frame>, maxsize: int, j: nat, p: int)
    requires Sound(f, maxsize) && 0 < j < |f.taken| && f.taken[j - 1] < p < f.taken[j]
    ensures p !in f.taken
  {
    assert forall i :: 0 <= i < j ==> f.taken[i] <= f.taken[j - 1];
    assert forall i :: j <= i < |f.taken| ==> f.taken[j] <= f.taken[i];
  }

  lemma ReadsInOrder(f: Feed<Frame>, maxsize: int, i: nat, j: nat)
    requires Sound(f, maxsize) && i < |f.taken| && j < |f.taken|
    ensures i < j <==> f.taken[i] < f.taken[j]
  {
  }

  lemma {:induction false} LastLost(f: Feed<Frame>, low: int, high: int) returns (p: int)
    requires Lost(f, low) && low < high
    ensures low <= p < high && Lost(f, p) && forall q :: p < q < high ==> !Lost(f, q)
    decreases high - low
  {
    if low == high - 1 || Lost(f, high - 1) {
      p := high - 1;
    } else {
      p := LastLost(f, low, high - 1);
    }
  }

  /** If something was lost in front of an unarmed delta there is a last lost place in front of read `k`, and
    * no snapshot was routed between that place and the read.
    */
  lemma LossWithoutSnapshot(f: Feed<Frame>, maxsize: int, k: nat) returns (p: nat)
    requires Sound(f, maxsize) && k < |f.taken| && !NoUnarmedLossSince(f, maxsize, k)
    ensures p < f.taken[k] && Lost(f, p) && forall q :: p < q <= f.taken[k] ==> !f.routed[q].snapshot
  {
    var j :| 0 < j <= k && DeltasFrom(f.Read(), j, k) && Unarmed(f.Read(), j) && !NothingLost(f, j);
    var low :| f.taken[j - 1] < low < f.taken[j] && 0 <= low < |f.routed| && !Idle(f.routed[low]);
    BetweenReadsIsDropped(f, maxsize, j, low);
    assert f.taken[j] <= f.taken[k];
    p := LastLost(f, low, f.taken[k]);
    forall q | p < q <= f.taken[k]
      ensures !f.routed[q].snapshot
    {
      if q in f.taken {
        var i :| 0 <= i < |f.taken| && f.taken[i] == q;
        ReadsInOrder(f, maxsize, j - 1, i);
        ReadsInOrder(f, maxsize, k, i);
        assert f.Read()[i] == f.routed[q];
      } else {
        assert !Lost(f, q);
      }
    }
  }

  /** The frame with nothing in it, or with one bid. */
  function Blank(f: Frame, bid: bool): Frame {
    Frame(f.snapshot, f.prev, f.number, if bid then [Level(1.0, 1.0)] else [], [], Some(0))
  }

  /** Empty frames, but for one bid at place `p`. */
  ghost function OneBidAt(routed: seq<Frame>, p: int): seq<Frame> {
    seq(|routed|, q requires 0 <= q < |routed| => Blank(routed[q], q == p))
  }

  /** The exchange's book after place `p` when the frames carry what they carry. */
  ghost function BookAt(frames: seq<Frame>, p: int): Sides
    decreases if p < 0 then 0 else p + 1
  {
    if p < 0 || p >= |frames| || !Clean(frames[p]) then EMPTY
    else ApplyFrame(if frames[p].snapshot then EMPTY else BookAt(frames, p - 1), frames[p])
  }

  ghost function HistoryOf(frames: seq<Frame>): int -> Sides {
    p => BookAt(frames, p)
  }

  lemma HistoryIsGenuine(frames: seq<Frame>)
    ensures GenuineInPlace(HistoryOf(frames), frames)
  {
    forall p | 0 <= p < |frames|
      ensures LeadsTo(HistoryOf(frames), p, frames[p])
    {
    }
  }

  lemma {:induction false} BidStays(routed: seq<Frame>, p: nat, q: nat)
    requires p <= q < |routed| && forall i :: p < i <= q ==> !routed[i].snapshot
    ensures 1.0 in BookAt(OneBidAt(routed, p), q).bids
    decreases q
  {
    var frames := OneBidAt(routed, p);
    if p < q {
      BidStays(routed, p, q - 1);
      assert frames[q].bids == [];
    } else {
      assert frames[q].bids == [Level(1.0, 1.0)];
      OneEntry(if frames[q].snapshot then map[] else BookAt(frames, q - 1).bids, Level(1.0, 1.0));
    }
  }

  ghost predicate Empty(f: Frame) {
    f.bids == [] && f.asks == [] && f.stamp.Some?
  }

  /** Empty frames of the same numbers and links live where the others live, and the book stays empty. */
  lemma {:induction false} EmptyReadsLive(read: seq<Frame>, blank: seq<Frame>, n: nat)
    requires |blank| == |read| && n <= |read| && (forall i :: 0 <= i < |read| ==> SameLinks(blank[i], read[i]) && Empty(blank[i]))
    requires After(read[..n]).Live?
    ensures After(blank[..n]).Live? && After(blank[..n]).sides == EMPTY
    ensures After(blank[..n]).last == After(read[..n]).last && After(blank[..n]).bootstrapped == After(read[..n]).bootstrapped
  {
    if n > 0 {
      AfterNext(read, n - 1);
      AfterNext(blank, n - 1);
      EmptyReadsLive(read, blank, n - 1);
      assert SameLinks(blank[n - 1], read[n - 1]) && Empty(blank[n - 1]);
    }
  }

  lemma OneBidIsNotRead(f: Feed<Frame>, maxsize: int, p: nat)
    requires Sound(f, maxsize) && Lost(f, p)
    ensures SameShape(OneBidAt(f.routed, p), f.routed)
    ensures forall i :: 0 <= i < |f.taken| ==> Empty(Reread(f, maxsize, OneBidAt(f.routed, p)).Read()[i])
  {
    var other := OneBidAt(f.routed, p);
    forall q | 0 <= q < |other|
      ensures SameLinks(other[q], f.routed[q])
    {
    }
    forall i | 0 <= i < |f.taken|
      ensures Empty(Reread(f, maxsize, other).Read()[i])
    {
      assert f.taken[i] != p;
    }
  }

  /** Reread with one bid in a frame nobody read, the book is shown empty. */
  lemma ShownEmpty(f: Feed<Frame>, maxsize: int, k: nat, p: nat, g: Feed<Frame>)
    requires Sound(f, maxsize) && k < |f.taken| && Shown(f.Read(), k) && Lost(f, p)
    requires g == Reread(f, maxsize, OneBidAt(f.routed, p))
    ensures Sound(g, maxsize) && Shown(g.Read(), k) && After(g.Read()[..k + 1]).sides == EMPTY
  {
    OneBidIsNotRead(f, maxsize, p);
    RereadsTheSame(f, maxsize, OneBidAt(f.routed, p));
    EmptyReadsLive(f.Read(), g.Read(), k + 1);
  }

  /** After an unarmed loss some genuine content of the very same frames makes the shown book wrong. */
  lemma UntrustedAfterUnarmedLoss(f: Feed<Frame>, maxsize: int, k: nat)
    requires Sound(f, maxsize) && k < |f.taken| && Shown(f.Read(), k) && !NoUnarmedLossSince(f, maxsize, k)
    ensures !RightWhateverTheyCarry(f, maxsize, k)
  {
    var p := LossWithoutSnapshot(f, maxsize, k);
    var other := OneBidAt(f.routed, p);
    HistoryIsGenuine(other);
    OneBidIsNotRead(f, maxsize, p);
    BidStays(f.routed, p, f.taken[k]);
    ShownEmpty(f, maxsize, k, p, Reread(f, maxsize, other));
    assert HistoryOf(other)(f.taken[k]) != EMPTY;
    assert !TrustedAt(Reread(f, maxsize, other), maxsize, HistoryOf(other), k);
  }

  /** A book shown behind the lossy queue can be trusted, whatever the frames carry, exactly when since the last
    * snapshot read nothing that matters was lost in front of a delta for which the check was unarmed.
    */
  lemma TrustedIffNoUnarmedLoss(f: Feed<Frame>, maxsize: int, k: nat)
    requires Sound(f, maxsize) && LinksAreExact(f.routed) && k < |f.taken| && Shown(f.Read(), k)
    ensures RightWhateverTheyCarry(f, maxsize, k) <==> NoUnarmedLossSince(f, maxsize, k)
  {
    if NoUnarmedLossSince(f, maxsize, k) {
      TrustedWithoutUnarmedLoss(f, maxsize, k);
    } else {
      UntrustedAfterUnarmedLoss(f, maxsize, k);
    }
  }

  // ----- Two runs that show a wrong book ---------------------------------------------------------------------

  /** A queue of one: the reader takes `first`, then `lost` and `late` arrive before it reads again. */
  function LosesTheSecond(first: Frame, lost: Frame, late: Frame): seq<Event<Frame>> {
    [Put(first), Get, Put(lost), Put(late), Get]
  }

  lemma SecondIsLost(first: Frame, lost: Frame, late: Frame)
    ensures Play(1, LosesTheSecond(first, lost, late)) == Feed([first, lost, late], [], [0, 2])
    ensures Play(1, LosesTheSecond(first, lost, late)).Read() == [first, late]
  {
    var e := LosesTheSecond(first, lost, late);
    assert e[..4][..3] == e[..3] && e[..3][..2] == e[..2] && e[..2][..1] == e[..1] && e[..1][..0] == [];
    assert Play(1, e[..0]) == Feed([], [], []);
    assert Play(1, e[..1]) == Feed([first], [first], []);
    assert Play(1, e[..2]) == Feed([first], [], [0]);
    assert Play(1, e[..3]) == Feed([first, lost], [lost], [0]);
    assert Play(1, e[..4]) == Feed([first, lost, late], [late], [0]);
    assert Play(1, e) == Feed([first, lost, late], [], [0, 2]);
    assert Play(1, e).Read() == [first, late];
  }

  /** The wrong book is shown at the second frame read. */
  ghost predicate ShowsAWrongBook(books: int -> Sides, events: seq<Event<Frame>>) {
    var f := Play(1, events);
    && LinksAreExact(f.routed) && GenuineInPlace(books, f.routed) && |f.routed| == 3 && f.taken == [0, 2]
    && Shown(f.Read(), 1) && After(f.Read()[..2]).sides != books(2)
  }

  /** The gap check is skipped for a frame without a number: here the second frame is dropped, the third, a
    * delta without numbers, is accepted, and a wrong book is shown.
    */
  lemma UnnumberedDeltaDefeatsTheGapCheck() returns (books: int -> Sides, events: seq<Event<Frame>>)
    ensures ShowsAWrongBook(books, events) && |Offered(events)| == 3
    ensures Offered(events)[0].number == Some(1) && Offered(events)[2].prev == None
  {
    books, events := DroppedDelta(Some(1), None);
  }

  /** It is skipped as well when the frame read before carries no number, however well the delta is numbered:
    * here it is the snapshot that has none.
    */
  lemma UnnumberedSnapshotDefeatsTheGapCheck() returns (books: int -> Sides, events: seq<Event<Frame>>)
    ensures ShowsAWrongBook(books, events) && |Offered(events)| == 3
    ensures Offered(events)[0].number == None && Offered(events)[2].prev == Offered(events)[1].number == Some(2)
  {
    books, events := DroppedDelta(None, Some(2));
  }

  const ONE_BID: Sides := Sides(map[1.0 := 1.0], map[])
  const TWO_BIDS: Sides := Sides(map[1.0 := 1.0, 2.0 := 1.0], map[])

  /** One bid at first, two from place 1 on. */
  ghost function SecondBidAtOne(): int -> Sides {
    p => if p < 1 then ONE_BID else TWO_BIDS
  }

  lemma SecondBidIsGenuine(snap: Frame, lost: Frame, late: Frame)
    requires snap.snapshot && snap.bids == [Level(1.0, 1.0)] && snap.asks == []
    requires !lost.snapshot && lost.bids == [Level(2.0, 1.0)] && lost.asks == []
    requires !late.snapshot && late.bids == [] && late.asks == []
    ensures GenuineInPlace(SecondBidAtOne(), [snap, lost, late])
    ensures ApplyFrame(EMPTY, snap.(stamp := Some(0))) == ONE_BID
  {
    OneEntry(map[], Level(1.0, 1.0));
    OneEntry(ONE_BID.bids, Level(2.0, 1.0));
    assert ONE_BID.bids[2.0 := 1.0] == TWO_BIDS.bids;
    var books := SecondBidAtOne();
    assert LeadsTo(books, 0, snap) && LeadsTo(books, 1, lost) && LeadsTo(books, 2, late);
  }

  /** A snapshot with one bid, a delta that adds a second and is dropped, and a delta that changes nothing. */
  lemma DroppedDelta(number: Option<int>, prev: Option<int>) returns (books: int -> Sides, events: seq<Event<Frame>>)
    requires (number == Some(1) && prev == None) || (number == None && prev == Some(2))
    ensures ShowsAWrongBook(books, events) && |Offered(events)| == 3
    ensures Offered(events)[0].number == number && Offered(events)[1].number == Some(2) && Offered(events)[2].prev == prev
  {
    books := SecondBidAtOne();
    var snap := Frame(true, None, number, [Level(1.0, 1.0)], [], Some(0));
    var lost := Frame(false, Some(1), Some(2), [Level(2.0, 1.0)], [], Some(0));
    var late := Frame(false, prev, if prev == None then None else Some(3), [], [], Some(0));
    events := LosesTheSecond(snap, lost, late);
    SecondIsLost(snap, lost, late);
    QueueInvariant(1, events);
    SecondBidIsGenuine(snap, lost, late);
    AcceptsTheLate(snap, late, ONE_BID);
    assert 2.0 in TWO_BIDS.bids && 2.0 !in ONE_BID.bids;
  }

  lemma AcceptsTheLate(snap: Frame, late: Frame, sides: Sides)
    requires snap.snapshot && Clean(snap) && ApplyFrame(EMPTY, snap) == sides
    requires !late.snapshot && late.bids == [] && late.asks == [] && late.stamp.Some?
    requires late.prev.None? || snap.number.None?
    ensures Shown([snap, late], 1) && After([snap, late][..2]).sides == sides
  {
    var r := [snap, late];
    assert r[..2] == r && r[..1] == [snap] && r[..1][..0] == [];
    assert After(r[..1]) == Live(sides, snap.number, true);
  }

  lemma OneEntry(side: Side, e: Entry)
    requires e.Level?
    ensures Parses([e]) && ApplyAll(side, [e]) == ApplyEntry(side, e)
  {
    assert [e][..0] == [];
  }
}
