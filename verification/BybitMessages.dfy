/** Bybit's book messages, and what an order book generator has to yield for them, told from the messages alone. */
module BybitMessages {
  import opened Wrappers
  import opened DeltaBook
  import opened PlainBook

  /** A Bybit frame: `u` is its update number, `b` and `a` its bid and ask entries. */
  datatype Message = Message(snapshot: bool, u: Option<int>, b: seq<Entry>, a: seq<Entry>, ts: Option<int>)

  /** A delta whose update number is not the one after its predecessor's. */
  predicate Skips(before: Message, m: Message) {
    !m.snapshot && before.u.Some? && m.u.Some? && m.u.value != before.u.value + 1
  }

  predicate Legible(m: Message) {
    Parses(m.b) && Parses(m.a) && m.ts.Some?
  }

  /** Message `s` is the first snapshot; without one `s` is the end. */
  ghost predicate StartsAt(msgs: seq<Message>, s: nat) {
    s <= |msgs| && (s < |msgs| ==> msgs[s].snapshot) && forall j :: 0 <= j < s ==> !msgs[j].snapshot
  }

  /** Message `r` is the last snapshot up to message `k`. */
  ghost predicate ResetAt(msgs: seq<Message>, r: nat, k: nat) {
    r <= k < |msgs| && msgs[r].snapshot && forall j :: r < j <= k ==> !msgs[j].snapshot
  }

  ghost predicate Showable(msgs: seq<Message>, s: nat, k: nat)
    requires s <= k < |msgs|
  {
    && (forall j :: 0 < j <= k ==> !Skips(msgs[j - 1], msgs[j]))
    && (forall j :: s <= j <= k ==> Legible(msgs[j]))
  }

  function Bids(msgs: seq<Message>): seq<seq<Entry>> {
    seq(|msgs|, i requires 0 <= i < |msgs| => msgs[i].b)
  }

  function Asks(msgs: seq<Message>): seq<seq<Entry>> {
    seq(|msgs|, i requires 0 <= i < |msgs| => msgs[i].a)
  }

  /** The quote for the last of `msgs`, which begin with a snapshot: the best levels of what their entries come to. */
  ghost predicate Quotes(q: Quote, msgs: seq<Message>, depth: nat) {
    && Parses(Words(Bids(msgs))) && Parses(Words(Asks(msgs)))
    && ShowsBest(q, Sides(ApplyAll(map[], Words(Bids(msgs))), ApplyAll(map[], Words(Asks(msgs)))), depth)
    && msgs != [] && msgs[|msgs| - 1].ts == Some(q.timestamp)
  }

  /** From the first snapshot on one quote for every message, in order, up to the first delta that skips a number
    * or message that does not parse; each shows the best levels of what was said since the last snapshot.
    */
  ghost predicate AsReceived(msgs: seq<Message>, depth: nat, out: seq<Quote>) {
    forall s: nat :: StartsAt(msgs, s) ==>
      && |out| <= |msgs| - s
      && (forall k: nat :: s <= k < |msgs| ==> (k - s < |out| <==> Showable(msgs, s, k)))
      && (forall k: nat, r: nat :: s <= k && ResetAt(msgs, r, k) && k - s < |out| ==> Quotes(out[k - s], msgs[r..k + 1], depth))
  }

  lemma MakesQuotes(q: Quote, msgs: seq<Message>, depth: nat, sides: Sides)
    requires Parses(Words(Bids(msgs))) && Parses(Words(Asks(msgs))) && ShowsBest(q, sides, depth)
    requires sides == Sides(ApplyAll(map[], Words(Bids(msgs))), ApplyAll(map[], Words(Asks(msgs))))
    requires msgs != [] && msgs[|msgs| - 1].ts == Some(q.timestamp)
    ensures Quotes(q, msgs, depth)
  {
  }
}
