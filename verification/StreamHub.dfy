/** The stream hub as a mutable object: its queue table, its subscription bookkeeping and its fan-out.
  *
  * Each method is one atomic step of `HubProtocol`, on the very fields the hub updates in place. The
  * ghost field `view` is the protocol state the step functions describe, so what is proved there of
  * every run holds of every sequence of calls here.
  */
module StreamHub {
  import opened Basics
  import opened BoundedQueue
  import opened HubProtocol
  import opened HubTable

  class StreamHub<M> {
    const queueSize: int
    var queues: map<Topic, seq<DropOldestQueue<M>>>
    var subscribed: set<Topic>
    var running: bool
    var wsOpen: bool
    var connected: bool
    ghost var view: Hub<DropOldestQueue<M>>

    ghost predicate Valid()
      reads this
    {
      Mirrors(queues, subscribed, running, wsOpen, connected, view)
    }

    constructor (queueSize: int)
      ensures Valid() && view == Initial() && this.queueSize == queueSize
    {
      this.queueSize := queueSize;
      queues := map[];
      subscribed := {};
      running, wsOpen, connected := false, false, false;
      view := Initial();
    }

    /** `q` joins the list of `topic`. */
    method Enlist(topic: Topic, q: DropOldestQueue<M>, ghost home: map<DropOldestQueue<M>, Topic>) returns (isNewTopic: bool)
      requires Listed(queues, home) && q !in home
      modifies this`queues
      ensures Listed(queues, home[q := topic]) && isNewTopic == (topic !in old(queues))
      ensures queues == old(queues)[topic := ListOf(old(queues), topic) + [q]]
    {
      AppendStaysListed(queues, home, topic, q);
      isNewTopic := topic !in queues;
      var qs := if isNewTopic then [] else queues[topic];
      queues := queues[topic := qs + [q]];
    }

    /** `subscribe` up to its first suspension: a fresh empty queue joins the topic's list, and the
      * opener of a new topic goes on to wait for the connected event.
      */
    method Subscribe(topic: Topic) returns (q: DropOldestQueue<M>, isNewTopic: bool)
      requires Valid()
      modifies this
      ensures Valid() && view == SubscribeStep(old(view), topic, q)
      ensures fresh(q) && q.Valid() && q.maxsize == queueSize && q.items == []
      ensures isNewTopic == (topic !in old(queues))
      ensures queues == old(queues)[topic := ListOf(old(queues), topic) + [q]]
      ensures running && subscribed == old(subscribed) && wsOpen == old(wsOpen) && connected == old(connected)
    {
      q := new DropOldestQueue<M>(queueSize);
      isNewTopic := Enlist(topic, q, view.home);
      running := true;
      view := SubscribeStep(view, topic, q);
    }

    /** The opener's second lock body; `sendNow` tells whether a subscribe payload follows. */
    method Wake(q: DropOldestQueue<M>, topic: Topic, sent: bool) returns (sendNow: bool)
      requires Valid() && Enabled(view, HubProtocol.Wake(q, sent)) && view.home[q] == topic
      modifies this
      ensures Valid() && view == WakeStep(old(view), q, sent)
      ensures queues == old(queues) && subscribed == old(subscribed) + {topic} && sendNow == (topic !in old(subscribed))
    {
      WokenMirrors(queues, subscribed, running, wsOpen, connected, view, q, sent);
      assert topic in subscribed ==> subscribed + {topic} == subscribed;
      view := WakeStep(view, q, sent);
      sendNow := false;
      if topic !in subscribed {
        subscribed := subscribed + {topic};
        sendNow := true;
      }
    }

    /** The opener's wait runs into its time limit; it returns its queue without sending anything. */
    ghost method TimeOut(q: DropOldestQueue<M>)
      requires Valid() && Enabled(view, HubProtocol.TimeOut(q))
      modifies this`view
      ensures Valid() && view == TimeOutStep(old(view), q)
      ensures q !in view.waiting && view.returned == old(view.returned)[q := TimedOut]
      ensures view.home == old(view.home) && view.upstream == old(view.upstream) && view.outbox == old(view.outbox)
    {
      view := TimeOutStep(view, q);
    }

    /** The list comprehension of `unsubscribe`: every queue but `q`. */
    method Without(qs: seq<DropOldestQueue<M>>, q: DropOldestQueue<M>) returns (rest: seq<DropOldestQueue<M>>)
      requires NoRepeats(qs)
      ensures NoRepeats(rest) && forall x :: x in rest <==> x in qs && x != q
      ensures IsWithout(rest, qs, q)
    {
      rest := [];
      for i := 0 to |qs|
        invariant NoRepeats(rest) && forall x :: x in rest <==> x in qs[..i] && x != q
        invariant IsWithout(rest, qs[..i], q)
      {
        assert qs[i] !in qs[..i];
        assert qs[..i + 1] == qs[..i] + [qs[i]];
        WithoutOneMore(rest, qs[..i], q, qs[i]);
        if qs[i] != q { rest := rest + [qs[i]]; }
      }
      assert qs[..|qs|] == qs;
    }

    /** `q` leaves the list of `topic`, and an empty list leaves the table. */
    method Delist(topic: Topic, q: DropOldestQueue<M>, ghost home: map<DropOldestQueue<M>, Topic>, ghost left: map<DropOldestQueue<M>, Topic>)
        returns (dropTopic: bool)
      requires Listed(queues, home) && LeftBy(home, topic, q, left)
      modifies this`queues
      ensures Listed(queues, left) && dropTopic == (topic !in queues)
      ensures queues.Keys == if dropTopic then old(queues).Keys - {topic} else old(queues).Keys
      ensures dropTopic <==> !Homed(left, topic)
      ensures queues - {topic} == old(queues) - {topic} && IsWithout(ListOf(queues, topic), ListOf(old(queues), topic), q)
    {
      var qs := ListOf(queues, topic);
      assert NoRepeats(qs);
      qs := Without(qs, q);
      if qs != [] {
        RemoveStaysListed(queues, home, topic, q, qs, left);
        queues := queues[topic := qs];
        dropTopic := false;
      } else {
        DropStaysListed(queues, home, topic, q, left) by {
          assert forall x :: x in ListOf(queues, topic) && x != q ==> x in qs;
        }
        queues := queues - {topic};
        dropTopic := true;
      }
    }

    /** The lock body of `unsubscribe`. */
    method Leave(topic: Topic, q: DropOldestQueue<M>, ghost home: map<DropOldestQueue<M>, Topic>, ghost left: map<DropOldestQueue<M>, Topic>)
        returns (dropTopic: bool)
      requires Listed(queues, home) && LeftBy(home, topic, q, left)
      modifies this`queues, this`subscribed
      ensures Listed(queues, left) && dropTopic == (topic !in queues) && (dropTopic <==> !Homed(left, topic))
      ensures queues.Keys == if dropTopic then old(queues).Keys - {topic} else old(queues).Keys
      ensures subscribed == if dropTopic then old(subscribed) - {topic} else old(subscribed)
      ensures queues - {topic} == old(queues) - {topic} && IsWithout(ListOf(queues, topic), ListOf(old(queues), topic), q)
    {
      dropTopic := Delist(topic, q, home, left);
      if dropTopic {
        subscribed := subscribed - {topic};
      }
    }

    /** `unsubscribe`: the lock body and, told by `tells`, whether an unsubscribe payload follows. */
    method Unsubscribe(topic: Topic, q: DropOldestQueue<M>, sent: bool) returns (dropTopic: bool, tells: bool)
      requires Valid() && Enabled(view, HubProtocol.Unsubscribe(topic, q, sent))
      modifies this
      ensures Valid() && view == UnsubscribeStep(old(view), topic, q, sent)
      ensures dropTopic == (topic !in queues) && tells == (dropTopic && connected)
      ensures queues - {topic} == old(queues) - {topic} && IsWithout(ListOf(queues, topic), ListOf(old(queues), topic), q)
      ensures subscribed == if dropTopic then old(subscribed) - {topic} else old(subscribed)
    {
      ghost var before, subscribedBefore, home := queues, subscribed, UnsubscribeStep(view, topic, q, sent).home;
      UnsubscribeLeaves(view, topic, q, sent);
      dropTopic := Leave(topic, q, view.home, home);
      UnsubscribedMirrors(before, subscribedBefore, subscribed, running, wsOpen, connected, view, topic, q, sent, queues, dropTopic);
      view := UnsubscribeStep(view, topic, q, sent);
      tells := dropTopic && connected;
    }

    /** `_run` after a successful connect: publish the socket and snapshot the topics. */
    method Connect() returns (topics: set<Topic>)
      requires Valid() && Enabled(view, HubProtocol.Connect)
      modifies this
      ensures Valid() && view == ConnectStep(old(view)) && topics == queues.Keys == subscribed && queues == old(queues)
    {
      view := ConnectStep(view);
      wsOpen := true;
      topics := queues.Keys;
      subscribed := topics;
    }

    /** One payload of the handshake. */
    ghost method SendNext(topic: Topic, sent: bool)
      requires Valid() && Enabled(view, HubProtocol.SendNext(topic, sent))
      modifies this`view
      ensures Valid() && view == SendNextStep(old(view), topic, sent)
      ensures view.upstream == if sent then old(view.upstream) + {topic} else old(view.upstream)
      ensures if sent then view.outbox == old(view.outbox) - {topic} else view.outbox == {} && view.broken
      ensures view.home == old(view.home) && view.waiting == old(view.waiting)
    {
      view := SendNextStep(view, topic, sent);
    }

    method SetConnected()
      requires Valid() && Enabled(view, HubProtocol.SetConnected)
      modifies this
      ensures Valid() && view == SetConnectedStep(old(view)) && queues == old(queues)
      ensures connected && subscribed == old(subscribed)
    {
      view := SetConnectedStep(view);
      connected := true;
    }

    /** The `finally` of `_run`. */
    method Disconnect()
      requires Valid() && Enabled(view, HubProtocol.Disconnect)
      modifies this
      ensures Valid() && view == DisconnectStep(old(view)) && queues == old(queues)
      ensures !connected && !wsOpen && subscribed == old(subscribed)
    {
      view := DisconnectStep(view);
      connected := false;
      wsOpen := false;
    }

    /** The loop over a topic's queues. */
    method PushAll(qs: seq<DropOldestQueue<M>>, msg: M)
      requires NoRepeats(qs) && forall q :: q in qs ==> q.Valid()
      modifies set q | q in qs
      ensures forall q :: q in qs ==> q.Valid() && q.feed == Offer(old(q.feed), q.maxsize, msg)
    {
      for i := 0 to |qs|
        invariant forall j :: i <= j < |qs| ==> qs[j].Valid() && qs[j].feed == old(qs[j].feed)
        invariant forall j :: 0 <= j < i ==> qs[j].Valid() && qs[j].feed == Offer(old(qs[j].feed), qs[j].maxsize, msg)
      {
        qs[i].Push(msg);
      }
    }

    /** The fan-out of one routed message: every queue of the topic gets it exactly once, dropping its
      * oldest message when full, and no other object changes.
      */
    method Deliver(topic: Topic, msg: M)
      requires Valid()
      requires forall q :: q in ListOf(queues, topic) ==> q.Valid()
      modifies set q | q in ListOf(queues, topic)
      ensures forall q :: q in ListOf(queues, topic) ==> q.Valid() && q.feed == Offer(old(q.feed), q.maxsize, msg)
    {
      PushAll(ListOf(queues, topic), msg);
    }
  }
}
