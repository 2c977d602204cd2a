/** The fan-out law over every sequence of hub calls: what each subscriber's queue was given since it joined. A
  * delivery is the loop over the topic's queues, in which every queue takes one `Offer`.
  */
module FanOut {
  import opened BoundedQueue

  type Topic = string
  type Queue = nat

  /** One queue: its topic, its place in the log when it joined, and its whole history. */
  datatype Slot<T> = Slot(topic: Topic, since: nat, feed: Feed<T>)

  /** The queues in the table, and every message the hub routed, with its topic. */
  datatype Fan<T> = Fan(slots: map<Queue, Slot<T>>, routed: seq<(Topic, T)>)

  datatype Action<T> =
    | Join(q: Queue, topic: Topic)
    | Leave(q: Queue)
    | Deliver(topic: Topic, msg: T)
    | Read(q: Queue)

  function Delivered<T>(s: Slot<T>, maxsize: int, topic: Topic, msg: T): Slot<T> {
    if s.topic == topic then s.(feed := Offer(s.feed, maxsize, msg)) else s
  }

  function Step<T>(f: Fan<T>, maxsize: int, a: Action<T>): Fan<T> {
    match a
    case Join(q, topic) =>
      if q in f.slots then f else f.(slots := f.slots[q := Slot(topic, |f.routed|, Feed([], [], []))])
    case Leave(q) => f.(slots := f.slots - {q})
    case Deliver(topic, msg) =>
      Fan(map q | q in f.slots :: Delivered(f.slots[q], maxsize, topic, msg), f.routed + [(topic, msg)])
    case Read(q) =>
      if q in f.slots && f.slots[q].feed.buffer != [] && |f.slots[q].feed.buffer| <= |f.slots[q].feed.routed| then
        f.(slots := f.slots[q := f.slots[q].(feed := Take(f.slots[q].feed))])
      else f
  }

  function After<T>(acts: seq<Action<T>>, maxsize: int): Fan<T> {
    if acts == [] then Fan(map[], []) else Step(After(acts[..|acts| - 1], maxsize), maxsize, acts[|acts| - 1])
  }

  /** The messages routed to `t` from place `from` of the log on. */
  function RoutedSince<T>(routed: seq<(Topic, T)>, from: nat, t: Topic): seq<T> {
    if |routed| <= from then []
    else
      var before, last := RoutedSince(routed[..|routed| - 1], from, t), routed[|routed| - 1];
      if last.0 == t then before + [last.1] else before
  }

  lemma RoutedOneMore<T>(routed: seq<(Topic, T)>, from: nat, t: Topic, topic: Topic, msg: T)
    requires from <= |routed|
    ensures RoutedSince(routed + [(topic, msg)], from, t)
         == RoutedSince(routed, from, t) + if topic == t then [msg] else []
  {
    assert (routed + [(topic, msg)])[..|routed|] == routed;
  }

  /** The queue is sound and was given exactly the messages routed to its topic since it joined, in order. */
  ghost predicate Fed<T>(s: Slot<T>, maxsize: int, routed: seq<(Topic, T)>) {
    Sound(s.feed, maxsize) && s.since <= |routed| && s.feed.routed == RoutedSince(routed, s.since, s.topic)
  }

  ghost predicate AllFed<T>(f: Fan<T>, maxsize: int) {
    forall q :: q in f.slots ==> Fed(f.slots[q], maxsize, f.routed)
  }

  lemma DeliveryFeeds<T>(s: Slot<T>, maxsize: int, routed: seq<(Topic, T)>, topic: Topic, msg: T)
    requires Fed(s, maxsize, routed)
    ensures Fed(Delivered(s, maxsize, topic, msg), maxsize, routed + [(topic, msg)])
  {
    RoutedOneMore(routed, s.since, s.topic, topic, msg);
    if s.topic == topic {
      OfferKeepsSound(s.feed, maxsize, msg);
    }
  }

  lemma ReadingKeepsFed<T>(s: Slot<T>, maxsize: int, routed: seq<(Topic, T)>)
    requires Fed(s, maxsize, routed) && s.feed.buffer != []
    ensures Fed(s.(feed := Take(s.feed)), maxsize, routed)
  {
    TakeKeepsSound(s.feed, maxsize);
  }

  lemma DeliveryKeepsFed<T>(f: Fan<T>, maxsize: int, topic: Topic, msg: T)
    requires AllFed(f, maxsize)
    ensures AllFed(Step(f, maxsize, Deliver(topic, msg)), maxsize)
  {
    forall q | q in f.slots
      ensures Fed(Delivered(f.slots[q], maxsize, topic, msg), maxsize, f.routed + [(topic, msg)])
    {
      DeliveryFeeds(f.slots[q], maxsize, f.routed, topic, msg);
    }
  }

  lemma StepKeepsFed<T>(f: Fan<T>, maxsize: int, a: Action<T>)
    requires AllFed(f, maxsize)
    ensures AllFed(Step(f, maxsize, a), maxsize)
  {
    match a
    case Join(q, topic) => assert RoutedSince(f.routed, |f.routed|, topic) == [];
    case Leave(q) =>
    case Deliver(topic, msg) => DeliveryKeepsFed(f, maxsize, topic, msg);
    case Read(q) =>
      if q in f.slots && f.slots[q].feed.buffer != [] {
        ReadingKeepsFed(f.slots[q], maxsize, f.routed);
      }
  }

  /** Over every interleaving of joins, leaves, deliveries and reads, every queue in the table was given
    * exactly the messages routed to its topic since it joined, in order; its buffer is a contiguous suffix
    * of them within the bound, and what its consumer read is an in-order selection of the rest.
    */
  lemma {:induction false} EveryQueueIsFed<T>(acts: seq<Action<T>>, maxsize: int)
    ensures AllFed(After(acts, maxsize), maxsize)
  {
    if acts != [] {
      EveryQueueIsFed(acts[..|acts| - 1], maxsize);
      StepKeepsFed(After(acts[..|acts| - 1], maxsize), maxsize, acts[|acts| - 1]);
    }
  }

  /** A delivery leaves its message newest in every queue of its topic and touches no other queue. */
  lemma DeliveryIsNewest<T>(acts: seq<Action<T>>, maxsize: int, topic: Topic, msg: T, q: Queue)
    requires q in After(acts, maxsize).slots
    ensures var before, after := After(acts, maxsize).slots[q], After(acts + [Deliver(topic, msg)], maxsize).slots;
            && q in after
            && (before.topic == topic ==>
                  after[q].feed.buffer != [] && after[q].feed.buffer[|after[q].feed.buffer| - 1] == msg)
            && (before.topic != topic ==> after[q] == before)
  {
    EveryQueueIsFed(acts, maxsize);
    assert (acts + [Deliver(topic, msg)])[..|acts|] == acts;
    OfferKeepsSound(After(acts, maxsize).slots[q].feed, maxsize, msg);
  }

  // ----- One queue at a time -------------------------------------------------------------------------------

  /** What a run means for one queue: nothing while it is not in the table, else its topic and what happened to it
    * since it joined, deliveries to its topic and reads of its own, in order.
    */
  datatype Life<T> = Out | In(topic: Topic, events: seq<Event<T>>)

  function LifeOf<T>(acts: seq<Action<T>>, q: Queue): Life<T> {
    if acts == [] then Out
    else
      var before := LifeOf(acts[..|acts| - 1], q);
      match acts[|acts| - 1]
      case Join(p, topic) => if p == q && before.Out? then In(topic, []) else before
      case Leave(p) => if p == q then Out else before
      case Deliver(topic, msg) => if before.In? && before.topic == topic then before.(events := before.events + [Put(msg)]) else before
      case Read(p) => if p == q && before.In? then before.(events := before.events + [Get]) else before
  }

  /** The table shows the queue's life, and its slot is that of a queue of its own. */
  ghost predicate Lives<T>(slots: map<Queue, Slot<T>>, maxsize: int, q: Queue, life: Life<T>) {
    && (q in slots <==> life.In?)
    && (life.In? && q in slots ==> slots[q].topic == life.topic && slots[q].feed == Play(maxsize, life.events))
  }

  lemma PlayOneMore<T>(maxsize: int, events: seq<Event<T>>, e: Event<T>)
    ensures var f := Play(maxsize, events);
            Play(maxsize, events + [e]) ==
              match e
              case Put(m) => Offer(f, maxsize, m)
              case Get => if f.buffer == [] then f else Take(f)
  {
    assert (events + [e])[..|events|] == events;
  }

  lemma StepKeepsLives<T>(f: Fan<T>, maxsize: int, a: Action<T>, q: Queue, before: Life<T>, after: Life<T>, acts: seq<Action<T>>)
    requires Lives(f.slots, maxsize, q, before) && before == LifeOf(acts, q) && after == LifeOf(acts + [a], q)
    ensures Lives(Step(f, maxsize, a).slots, maxsize, q, after)
  {
    assert (acts + [a])[..|acts|] == acts;
    match a
    case Deliver(topic, msg) =>
      if before.In? && before.topic == topic { PlayOneMore(maxsize, before.events, Put(msg)); }
    case Read(p) =>
      if p == q && before.In? { PlayOneMore(maxsize, before.events, Get); }
    case _ =>
  }

  /** Over every interleaving a queue is in the table exactly from its joining until it leaves, under the topic it
    * joined, and it holds what a queue of its own would hold that was given the deliveries to that topic and asked
    * for the reads of its consumer: the fan-out is one such queue per subscriber.
    */
  lemma {:induction false} FanIsOneQueuePerSubscriber<T>(acts: seq<Action<T>>, maxsize: int, q: Queue)
    ensures Lives(After(acts, maxsize).slots, maxsize, q, LifeOf(acts, q))
  {
    if acts != [] {
      var front, a := acts[..|acts| - 1], acts[|acts| - 1];
      FanIsOneQueuePerSubscriber(front, maxsize, q);
      assert acts == front + [a];
      StepKeepsLives(After(front, maxsize), maxsize, a, q, LifeOf(front, q), LifeOf(acts, q), front);
    }
  }
}
