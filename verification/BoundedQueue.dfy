/** The bounded, drop-oldest subscriber queue of the stream hub.
  *
  * A `Feed` is the whole history of one queue: every message routed to it since it was created,
  * what is still buffered, and the positions (in `routed`) of the messages its consumer has read.
  */
module BoundedQueue {
  import opened Wrappers

  datatype Feed<T> = Feed(routed: seq<T>, buffer: seq<T>, taken: seq<nat>) {
    /** The messages the consumer has read, in the order it read them. */
    function Read(): seq<T>
      requires forall i :: 0 <= i < |taken| ==> taken[i] < |routed|
    {
      seq(|taken|, i requires 0 <= i < |taken| => routed[taken[i]])
    }

    /** How many routed messages have left the buffer, read or dropped. */
    function Gone(): int {
      |routed| - |buffer|
    }
  }

  /** A queue created with `maxsize <= 0` has no bound. */
  predicate Full(maxsize: int, size: nat) {
    maxsize > 0 && size >= maxsize
  }

  /** The buffer after `m` was offered: the oldest message makes room when the queue is full. */
  function Pushed<T>(maxsize: int, buffer: seq<T>, m: T): seq<T> {
    if Full(maxsize, |buffer|) then
      var rest := if buffer == [] then [] else buffer[1..];
      if Full(maxsize, |rest|) then rest else rest + [m]
    else
      buffer + [m]
  }

  function Offer<T>(f: Feed<T>, maxsize: int, m: T): Feed<T> {
    f.(routed := f.routed + [m], buffer := Pushed(maxsize, f.buffer, m))
  }

  function Take<T>(f: Feed<T>): Feed<T>
    requires f.buffer != [] && |f.buffer| <= |f.routed|
  {
    f.(buffer := f.buffer[1..], taken := f.taken + [f.Gone()])
  }

  /** The buffer is a contiguous suffix of what was routed and within the bound; reads happened in
    * order, each message at most once, and everything read is older than everything buffered.
    */
  ghost predicate Sound<T>(f: Feed<T>, maxsize: int) {
    && |f.buffer| <= |f.routed|
    && f.buffer == f.routed[f.Gone()..]
    && (maxsize > 0 ==> |f.buffer| <= maxsize)
    && (forall i :: 0 <= i < |f.taken| ==> f.taken[i] < f.Gone())
    && (forall i, j :: 0 <= i < j < |f.taken| ==> f.taken[i] < f.taken[j])
  }

  lemma OfferKeepsSound<T>(f: Feed<T>, maxsize: int, m: T)
    requires Sound(f, maxsize)
    ensures Sound(Offer(f, maxsize, m), maxsize)
    ensures Offer(f, maxsize, m).buffer != []
    ensures var b := Offer(f, maxsize, m).buffer; b[|b| - 1] == m
    ensures Offer(f, maxsize, m).Gone() == f.Gone() + if maxsize > 0 && |f.buffer| == maxsize then 1 else 0
  {
    var g := Offer(f, maxsize, m);
    if Full(maxsize, |f.buffer|) {
      assert f.buffer[1..] == f.routed[f.Gone() + 1..];
    }
    assert g.buffer == g.routed[g.Gone()..];
  }

  lemma TakeKeepsSound<T>(f: Feed<T>, maxsize: int)
    requires Sound(f, maxsize) && f.buffer != []
    ensures Sound(Take(f), maxsize)
    ensures Take(f).Read() == f.Read() + [f.buffer[0]]
  {
    var g := Take(f);
    assert g.buffer == g.routed[g.Gone()..];
    assert g.Read() == f.Read() + [f.buffer[0]];
  }

  /** What can happen to one queue: the hub routes a message to it, or its consumer asks for one.
    * A consumer that finds the queue empty stays suspended, so such a `Get` changes nothing.
    */
  datatype Event<T> = Put(m: T) | Get

  function Play<T>(maxsize: int, events: seq<Event<T>>): (f: Feed<T>)
    ensures |f.buffer| <= |f.routed|
    ensures forall i :: 0 <= i < |f.taken| ==> f.taken[i] < |f.routed|
  {
    if events == [] then Feed([], [], [])
    else
      var f := Play(maxsize, events[..|events| - 1]);
      match events[|events| - 1]
      case Put(m) => Offer(f, maxsize, m)
      case Get => if f.buffer == [] then f else Take(f)
  }

  /** The messages offered in a run, in order. */
  function Offered<T>(events: seq<Event<T>>): seq<T> {
    if events == [] then []
    else
      var before := Offered(events[..|events| - 1]);
      match events[|events| - 1]
      case Put(m) => before + [m]
      case Get => before
  }

  /** How many messages were offered to a queue that was at its bound. */
  function Overflows<T>(maxsize: int, events: seq<Event<T>>): nat {
    if events == [] then 0
    else
      var front := events[..|events| - 1];
      Overflows(maxsize, front)
        + if events[|events| - 1].Put? && maxsize > 0 && |Play(maxsize, front).buffer| == maxsize then 1 else 0
  }

  /** Fan-out law: after any interleaving of pushes and reads the buffer is a contiguous suffix of
    * the messages routed to the queue, within `maxsize`, and the reads form an in-order selection
    * of the rest; what is missing from (read + buffered) is one message for every one that met a queue at its
    * bound, and an unbounded queue never is.
    */
  lemma {:induction false} QueueInvariant<T>(maxsize: int, events: seq<Event<T>>)
    ensures Sound(Play(maxsize, events), maxsize)
    ensures Play(maxsize, events).routed == Offered(events)
    ensures Play(maxsize, events).Gone() == |Play(maxsize, events).taken| + Overflows(maxsize, events)
    ensures maxsize <= 0 ==> Overflows(maxsize, events) == 0
  {
    if events != [] {
      var before := events[..|events| - 1];
      QueueInvariant(maxsize, before);
      var f := Play(maxsize, before);
      match events[|events| - 1]
      case Put(m) => OfferKeepsSound(f, maxsize, m);
      case Get => if f.buffer != [] { TakeKeepsSound(f, maxsize); }
    }
  }

  /** An `asyncio.Queue` as the hub uses it. */
  class DropOldestQueue<T> {
    const maxsize: int
    var items: seq<T>
    ghost var feed: Feed<T>

    ghost predicate Valid()
      reads this
    {
      items == feed.buffer && Sound(feed, maxsize)
    }

    constructor (maxsize: int)
      ensures Valid() && this.maxsize == maxsize
      ensures feed == Feed([], [], [])
    {
      this.maxsize := maxsize;
      items := [];
      feed := Feed([], [], []);
    }

    /** `put_nowait`: refuses (`QueueFull`) when the queue is at its bound. */
    method PutNowait(m: T) returns (ok: bool)
      modifies this`items
      ensures ok == (maxsize <= 0 || |old(items)| < maxsize)
      ensures items == if ok then old(items) + [m] else old(items)
    {
      ok := !Full(maxsize, |items|);
      if ok { items := items + [m]; }
    }

    /** `get_nowait`: refuses (`QueueEmpty`) on an empty queue. */
    method GetNowait() returns (m: Option<T>)
      modifies this`items
      ensures old(items) == [] ==> m == None && items == []
      ensures old(items) != [] ==> m == Some(old(items)[0]) && items == old(items)[1..]
    {
      if items == [] { return None; }
      m := Some(items[0]);
      items := items[1..];
    }

    /** The hub's push: on `QueueFull` drop the oldest message and try once more. */
    method Push(m: T)
      requires Valid()
      modifies this
      ensures Valid() && feed == Offer(old(feed), maxsize, m)
      ensures items != [] && items[|items| - 1] == m
    {
      OfferKeepsSound(feed, maxsize, m);
      var ok := PutNowait(m);
      if !ok {
        var _ := GetNowait();
        ok := PutNowait(m);
      }
      feed := Offer(feed, maxsize, m);
    }

    /** The consumer's read of a non-empty queue. */
    method Pop() returns (m: T)
      requires Valid() && items != []
      modifies this
      ensures Valid() && feed == Take(old(feed))
      ensures feed.Read() == old(feed.Read()) + [m]
    {
      TakeKeepsSound(feed, maxsize);
      m := items[0];
      items := items[1..];
      feed := Take(feed);
    }
  }
}
