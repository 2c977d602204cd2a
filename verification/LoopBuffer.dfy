/** The buffer as the two threads use it: every method is one queue operation, atomic under the queue's own
  * lock, and one step of `SyncStream`.
  */
module LoopBuffer {
  import opened SyncStream

  const STREAM_BUFFER_MAX := 1024

  class StreamBuffer<M> {
    var items: seq<Item<M>>
    var pump: Pump<M>
    var reader: Reader
    var dropped: nat
    ghost var yielded: seq<M>
    ghost var placed: seq<Item<M>>
    ghost var removed: seq<Removal<M>>

    ghost function Snapshot(): State<M> reads this {
      State(items, pump, reader, dropped, yielded, placed, removed)
    }

    ghost predicate Valid() reads this {
      Inv(STREAM_BUFFER_MAX, Snapshot())
    }

    constructor ()
      ensures Valid() && Snapshot() == Initial()
    {
      items, pump, reader, dropped := [], Awaiting, Reading, 0;
      yielded, placed, removed := [], [], [];
    }

    /** `put_nowait`; a full queue sends the pump on to evict. */
    method PutNowait()
      requires Valid() && pump.Putting?
      modifies this
      ensures Valid() && Snapshot() == Step(STREAM_BUFFER_MAX, old(Snapshot()), PumpStep)
      ensures items == if |old(items)| < STREAM_BUFFER_MAX then old(items) + [old(pump).item] else old(items)
      ensures reader == old(reader) && dropped == old(dropped) && yielded == old(yielded)
    {
      PutKeepsInv(STREAM_BUFFER_MAX, Snapshot());
      if |items| < STREAM_BUFFER_MAX {
        items := items + [pump.item];
        placed := placed + [pump.item];
        pump := AfterPut(pump.item);
      } else {
        pump := Evicting(pump.item, pump.round);
      }
    }

    /** `get_nowait` on the pump's side; an empty queue is ignored. */
    method GetNowait()
      requires Valid() && pump.Evicting?
      modifies this
      ensures Valid() && Snapshot() == Step(STREAM_BUFFER_MAX, old(Snapshot()), PumpStep)
      ensures items == if old(items) == [] then [] else old(items)[1..]
      ensures dropped == old(dropped) + |old(items)| - |items| && pump == Putting(old(pump).item, old(pump).round + 1)
      ensures reader == old(reader) && yielded == old(yielded)
    {
      EvictKeepsInv(STREAM_BUFFER_MAX, Snapshot());
      if items != [] {
        removed := removed + [Removal(items[0], false)];
        items := items[1..];
        dropped := dropped + 1;
      }
      pump := Putting(pump.item, pump.round + 1);
    }

    /** The reader's blocking `get`, at the moment it returns, and what the reader's loop does with the item. */
    method Read() returns (item: Item<M>)
      requires Valid() && reader.Reading? && items != []
      modifies this
      ensures Valid() && Snapshot() == Step(STREAM_BUFFER_MAX, old(Snapshot()), Get)
      ensures item == old(items)[0] && items == old(items)[1..]
      ensures yielded == if item.Message? then old(yielded) + [item.m] else old(yielded)
      ensures reader == match item case Message(_) => Reading case Failure => Raised case Sentinel => Ended
      ensures pump == old(pump) && dropped == old(dropped)
    {
      TakenKeepsInv(STREAM_BUFFER_MAX, Snapshot());
      item := items[0];
      items := items[1..];
      removed := removed + [Removal(item, true)];
      match item
      case Sentinel => reader := Ended;
      case Failure => reader := Raised;
      case Message(m) => yielded := yielded + [m];
    }
  }
}
