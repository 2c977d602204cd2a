/** One of Hyperliquid's hubs together with the allocator that gives it its topics: how much its connection carries.
  *
  * The hub is the one in `slot`. A holder's queue enters and leaves it in the same step in which the holder
  * counts as queued; every other step belongs to the allocator or to the hub alone.
  */
module TopicBudget {
  import A = AllocatorProtocol
  import H = HubProtocol

  type Topic = A.Topic
  type Holder = A.Holder

  /** A holder may come back, so its queues are numbered. */
  datatype Queue = Queue(holder: Holder, serial: nat)

  /** `queueOf` are the queues of the hub by holder; `snapshot` is what the handshake in turn, or the last
    * one, set out to subscribe.
    */
  datatype State = State(alloc: A.Alloc, hub: H.Hub<Queue>, queueOf: map<Holder, Queue>, snapshot: set<Topic>)

  datatype Action =
    | Allot(alloc: A.Action)
    | Join(holder: Holder, serial: nat)
    | Leave(holder: Holder, sent: bool)
    | Connection(hub: H.Action<Queue>)

  ghost function Initial(): State {
    State(A.INITIAL, H.Initial(), map[], {})
  }

  ghost predicate Enabled(slot: nat, s: State, a: Action) {
    match a
    case Allot(b) => A.Enabled(s.alloc, b) && (b.Enqueue? || b.Dequeue? ==> s.alloc.holders[b.holder].hub != slot)
    case Join(x, n) =>
      && A.Enabled(s.alloc, A.Enqueue(x)) && s.alloc.holders[x].hub == slot
      && H.Enabled(s.hub, H.Subscribe(s.alloc.holders[x].topic, Queue(x, n)))
    case Leave(x, sent) =>
      && A.Enabled(s.alloc, A.Dequeue(x)) && s.alloc.holders[x].hub == slot && x in s.queueOf
      && H.Enabled(s.hub, H.Unsubscribe(s.alloc.holders[x].topic, s.queueOf[x], sent))
    case Connection(b) => !b.Subscribe? && !b.Unsubscribe? && H.Enabled(s.hub, b)
  }

  ghost function Next(slot: nat, s: State, a: Action): State
    requires Enabled(slot, s, a)
  {
    match a
    case Allot(b) => s.(alloc := A.Next(s.alloc, b))
    case Join(x, n) =>
      s.(alloc := A.Next(s.alloc, A.Enqueue(x)), queueOf := s.queueOf[x := Queue(x, n)],
         hub := H.Next(s.hub, H.Subscribe(s.alloc.holders[x].topic, Queue(x, n))))
    case Leave(x, sent) =>
      s.(alloc := A.Next(s.alloc, A.Dequeue(x)), queueOf := s.queueOf - {x},
         hub := H.Next(s.hub, H.Unsubscribe(s.alloc.holders[x].topic, s.queueOf[x], sent)))
    case Connection(b) => s.(hub := H.Next(s.hub, b), snapshot := if b.Connect? then s.hub.topics else s.snapshot)
  }

  // ----- What every step keeps ---------------------------------------------------------------------------------

  predicate QueuedAt(holders: map<Holder, A.Hold>, slot: nat, x: Holder) {
    x in holders && holders[x].queued && holders[x].hub == slot
  }

  /** The hub's queues are those of the holders queued in the slot, each under its holder's topic. */
  ghost predicate Linked(slot: nat, holders: map<Holder, A.Hold>, queueOf: map<Holder, Queue>, home: map<Queue, Topic>) {
    && (forall x :: x in queueOf <==> QueuedAt(holders, slot, x))
    && (forall x :: x in queueOf ==> queueOf[x].holder == x && queueOf[x] in home && home[queueOf[x]] == holders[x].topic)
    && (forall q :: q in home ==> q.holder in queueOf && queueOf[q.holder] == q)
  }

  ghost predicate LinkedIn(slot: nat, s: State) {
    Linked(slot, s.alloc.holders, s.queueOf, s.hub.home)
  }

  /** An opener the event already woke is one of a topic in the snapshot, until the next event. */
  ghost predicate WokenAreSubscribed(h: H.Hub<Queue>) {
    && (forall q :: q in h.signalled ==> q in h.waiting || q in h.returned)
    && (h.wsOpen && !h.connected ==>
          forall q :: q in h.waiting && q in h.signalled && q in h.home ==> h.home[q] in h.subscribed)
  }

  /** Only topics of the snapshot are sent before the event, and only they can leak. */
  ghost predicate FromSnapshot(h: H.Hub<Queue>, snapshot: set<Topic>) {
    && (h.wsOpen && !h.connected ==> h.upstream + h.outbox <= snapshot)
    && h.leaked <= snapshot
  }

  ghost predicate Inv(slot: nat, s: State) {
    && A.Inv(s.alloc) && H.Inv(s.hub)
    && LinkedIn(slot, s)
    && WokenAreSubscribed(s.hub) && FromSnapshot(s.hub, s.snapshot) && |s.snapshot| <= A.MAX_SUBS_PER_HUB
  }

  lemma AllotKeepsLinked(slot: nat, s: State, b: A.Action)
    requires LinkedIn(slot, s) && Enabled(slot, s, Allot(b))
    ensures Linked(slot, A.Next(s.alloc, b).holders, s.queueOf, s.hub.home)
  {
    var after := A.Next(s.alloc, b).holders;
    forall x
      ensures QueuedAt(after, slot, x) <==> QueuedAt(s.alloc.holders, slot, x)
      ensures QueuedAt(after, slot, x) ==> after[x].topic == s.alloc.holders[x].topic
    {
    }
  }

  lemma JoiningStaysLinked(slot: nat, holders: map<Holder, A.Hold>, queueOf: map<Holder, Queue>, home: map<Queue, Topic>,
                           x: Holder, q: Queue)
    requires Linked(slot, holders, queueOf, home)
    requires x in holders && !holders[x].queued && holders[x].hub == slot && q.holder == x
    ensures Linked(slot, holders[x := holders[x].(queued := true)], queueOf[x := q], home[q := holders[x].topic])
  {
    var after := holders[x := holders[x].(queued := true)];
    assert !QueuedAt(holders, slot, x) && QueuedAt(after, slot, x);
    forall y | y != x
      ensures QueuedAt(after, slot, y) <==> QueuedAt(holders, slot, y)
    {
    }
  }

  lemma LeavingStaysLinked(slot: nat, holders: map<Holder, A.Hold>, queueOf: map<Holder, Queue>, home: map<Queue, Topic>, x: Holder)
    requires Linked(slot, holders, queueOf, home) && x in queueOf && x in holders
    ensures Linked(slot, holders[x := holders[x].(queued := false)], queueOf - {x}, home - {queueOf[x]})
  {
    var after := holders[x := holders[x].(queued := false)];
    assert !QueuedAt(after, slot, x);
    forall y | y != x
      ensures QueuedAt(after, slot, y) <==> QueuedAt(holders, slot, y)
    {
    }
  }

  lemma UnsubscribedHome(h: H.Hub<Queue>, t: Topic, q: Queue, sent: bool)
    requires q in h.home && h.home[q] == t
    ensures H.UnsubscribeStep(h, t, q, sent).home == h.home - {q}
  {
  }

  lemma ConnectionKeepsHome(h: H.Hub<Queue>, b: H.Action<Queue>)
    requires !b.Subscribe? && !b.Unsubscribe? && H.Enabled(h, b)
    ensures H.Next(h, b).home == h.home
  {
  }

  lemma JoinKeepsLinked(slot: nat, s: State, x: Holder, n: nat)
    requires LinkedIn(slot, s) && Enabled(slot, s, Join(x, n))
    ensures LinkedIn(slot, Next(slot, s, Join(x, n)))
  {
    JoiningStaysLinked(slot, s.alloc.holders, s.queueOf, s.hub.home, x, Queue(x, n));
  }

  lemma LeaveKeepsLinked(slot: nat, s: State, x: Holder, sent: bool)
    requires LinkedIn(slot, s) && Enabled(slot, s, Leave(x, sent))
    ensures LinkedIn(slot, Next(slot, s, Leave(x, sent)))
  {
    LeavingStaysLinked(slot, s.alloc.holders, s.queueOf, s.hub.home, x);
    UnsubscribedHome(s.hub, s.alloc.holders[x].topic, s.queueOf[x], sent);
  }

  lemma StepKeepsLinked(slot: nat, s: State, a: Action)
    requires LinkedIn(slot, s) && Enabled(slot, s, a)
    ensures LinkedIn(slot, Next(slot, s, a))
  {
    match a
    case Allot(b) => AllotKeepsLinked(slot, s, b);
    case Join(x, n) => JoinKeepsLinked(slot, s, x, n);
    case Leave(x, sent) => LeaveKeepsLinked(slot, s, x, sent);
    case Connection(b) => ConnectionKeepsHome(s.hub, b);
  }

  /** The hub's topics are the topics queued in its slot. */
  lemma TopicsAreQueued(slot: nat, s: State)
    requires H.Shape(s.hub) && LinkedIn(slot, s)
    ensures s.hub.topics == A.QueuedIn(s.alloc, slot)
  {
    var h := s.hub;
    forall t | t in h.topics
      ensures t in A.QueuedIn(s.alloc, slot)
    {
      assert H.HasQueue(h, t);
      var q :| q in h.home && h.home[q] == t;
      assert QueuedAt(s.alloc.holders, slot, q.holder);
    }
    forall t | t in A.QueuedIn(s.alloc, slot)
      ensures t in h.topics
    {
      var x :| QueuedAt(s.alloc.holders, slot, x) && s.alloc.holders[x].topic == t;
      assert h.home[s.queueOf[x]] == t;
    }
  }

  lemma TopicsFitTheSlot(slot: nat, s: State)
    requires A.Inv(s.alloc) && H.Shape(s.hub) && LinkedIn(slot, s)
    ensures |s.hub.topics| <= A.MAX_SUBS_PER_HUB
  {
    TopicsAreQueued(slot, s);
    A.QueuedFit(s.alloc, slot);
  }

  lemma DroppingKeepsSnapshot(h: H.Hub<Queue>, t: Topic, sent: bool, snapshot: set<Topic>)
    requires FromSnapshot(h, snapshot)
    ensures FromSnapshot(H.Dropped(h, t, sent), snapshot)
  {
  }

  lemma StepKeepsSnapshot(h: H.Hub<Queue>, b: H.Action<Queue>, snapshot: set<Topic>)
    requires FromSnapshot(h, snapshot) && WokenAreSubscribed(h) && H.Enabled(h, b)
    ensures FromSnapshot(H.Next(h, b), if b.Connect? then h.topics else snapshot)
  {
    match b
    case Unsubscribe(t, q, sent) => DroppingKeepsSnapshot(H.Left(h, t, q), t, sent, snapshot);
    case _ =>
  }

  lemma LeavingKeepsWoken(h: H.Hub<Queue>, t: Topic, q: Queue)
    requires WokenAreSubscribed(h)
    ensures WokenAreSubscribed(H.Left(h, t, q))
  {
  }

  lemma DroppingKeepsWoken(h: H.Hub<Queue>, t: Topic, sent: bool)
    requires WokenAreSubscribed(h) && !H.HasQueue(h, t)
    ensures WokenAreSubscribed(H.Dropped(h, t, sent))
  {
  }

  lemma SubscribingKeepsWoken(h: H.Hub<Queue>, t: Topic, q: Queue)
    requires WokenAreSubscribed(h) && q !in h.waiting && q !in h.returned
    ensures WokenAreSubscribed(H.SubscribeStep(h, t, q))
  {
  }

  lemma ReturningKeepsWoken(h: H.Hub<Queue>, b: H.Action<Queue>)
    requires WokenAreSubscribed(h) && H.Waiters(h) && H.Enabled(h, b) && (b.Wake? || b.TimeOut?)
    ensures WokenAreSubscribed(H.Next(h, b))
  {
  }

  lemma ConnectionKeepsWoken(h: H.Hub<Queue>, b: H.Action<Queue>)
    requires WokenAreSubscribed(h) && H.Shape(h) && H.Enabled(h, b)
    requires b.Connect? || b.SendNext? || b.SetConnected? || b.Disconnect?
    ensures WokenAreSubscribed(H.Next(h, b))
  {
  }

  lemma StepKeepsWoken(h: H.Hub<Queue>, b: H.Action<Queue>)
    requires WokenAreSubscribed(h) && H.Inv(h) && H.Enabled(h, b)
    ensures WokenAreSubscribed(H.Next(h, b))
  {
    match b
    case Subscribe(t, q) => SubscribingKeepsWoken(h, t, q);
    case Unsubscribe(t, q, sent) =>
      LeavingKeepsWoken(h, t, q);
      if !H.HasQueue(H.Left(h, t, q), t) {
        DroppingKeepsWoken(H.Left(h, t, q), t, sent);
      }
    case Wake(_, _) => ReturningKeepsWoken(h, b);
    case TimeOut(_) => ReturningKeepsWoken(h, b);
    case _ => ConnectionKeepsWoken(h, b);
  }

  lemma HubStepKeepsInv(h: H.Hub<Queue>, b: H.Action<Queue>, snapshot: set<Topic>)
    requires H.Inv(h) && WokenAreSubscribed(h) && FromSnapshot(h, snapshot) && H.Enabled(h, b)
    ensures H.Inv(H.Next(h, b)) && WokenAreSubscribed(H.Next(h, b))
    ensures FromSnapshot(H.Next(h, b), if b.Connect? then h.topics else snapshot)
  {
    H.StepKeepsInv(h, b);
    StepKeepsWoken(h, b);
    StepKeepsSnapshot(h, b, snapshot);
  }

  lemma StepKeepsHub(slot: nat, s: State, a: Action)
    requires Inv(slot, s) && Enabled(slot, s, a)
    ensures var g := Next(slot, s, a);
            H.Inv(g.hub) && WokenAreSubscribed(g.hub) && FromSnapshot(g.hub, g.snapshot)
  {
    match a
    case Allot(_) =>
    case Join(x, n) => HubStepKeepsInv(s.hub, H.Subscribe(s.alloc.holders[x].topic, Queue(x, n)), s.snapshot);
    case Leave(x, sent) => HubStepKeepsInv(s.hub, H.Unsubscribe(s.alloc.holders[x].topic, s.queueOf[x], sent), s.snapshot);
    case Connection(b) => HubStepKeepsInv(s.hub, b, s.snapshot);
  }

  lemma StepKeepsAlloc(slot: nat, s: State, a: Action)
    requires A.Inv(s.alloc) && Enabled(slot, s, a)
    ensures A.Inv(Next(slot, s, a).alloc)
  {
    match a
    case Allot(b) => A.StepKeepsInv(s.alloc, b);
    case Join(x, _) => A.StepKeepsInv(s.alloc, A.Enqueue(x));
    case Leave(x, _) => A.StepKeepsInv(s.alloc, A.Dequeue(x));
    case Connection(_) =>
  }

  lemma StepKeepsInv(slot: nat, s: State, a: Action)
    requires Inv(slot, s) && Enabled(slot, s, a)
    ensures Inv(slot, Next(slot, s, a))
  {
    StepKeepsLinked(slot, s, a);
    StepKeepsHub(slot, s, a);
    StepKeepsAlloc(slot, s, a);
    TopicsFitTheSlot(slot, s);
  }

  // ----- Runs --------------------------------------------------------------------------------------------------

  /** `ss[i]` is the state after the first `i` actions of the interleaving `acts`. */
  ghost predicate IsRun(slot: nat, ss: seq<State>, acts: seq<Action>) {
    && |ss| == |acts| + 1
    && ss[0] == Initial()
    && forall i :: 0 <= i < |acts| ==> StepAt(slot, ss, acts, i)
  }

  ghost predicate StepAt(slot: nat, ss: seq<State>, acts: seq<Action>, i: nat)
    requires i < |acts| && |ss| == |acts| + 1
  {
    Enabled(slot, ss[i], acts[i]) && ss[i + 1] == Next(slot, ss[i], acts[i])
  }

  lemma {:induction false} RunKeepsInv(slot: nat, ss: seq<State>, acts: seq<Action>, n: nat)
    requires IsRun(slot, ss, acts) && n <= |acts|
    ensures Inv(slot, ss[n])
  {
    if n > 0 {
      RunKeepsInv(slot, ss, acts, n - 1);
      assert StepAt(slot, ss, acts, n - 1);
      StepKeepsInv(slot, ss[n - 1], acts[n - 1]);
    }
  }

  lemma UnionIsSmaller<T>(u: set<T>, a: set<T>, b: set<T>)
    requires u <= a + b
    ensures |u| <= |a| + |b - a|
  {
    A.SubsetIsSmaller(u, a + (b - a));
  }

  /** However the holders and the connection interleave, the hub's topics are those queued in its slot, at most
    * nine hundred. An unbroken connection carries those of them that are not late and what leaked, and so at
    * most nine hundred more than the allocator means it to.
    */
  lemma ConnectionsStayWithinTwiceTheCap(slot: nat, ss: seq<State>, acts: seq<Action>, n: nat)
    requires IsRun(slot, ss, acts) && n <= |acts|
    ensures ss[n].hub.topics == A.QueuedIn(ss[n].alloc, slot) && |ss[n].hub.topics| <= 900
    ensures var h := ss[n].hub;
            h.wsOpen && !h.broken ==>
              && |h.upstream| <= 900 + |h.leaked - h.topics| <= 1800
              && (h.connected ==> h.upstream == (h.topics - h.late) + h.leaked)
  {
    RunKeepsInv(slot, ss, acts, n);
    var s := ss[n];
    TopicsAreQueued(slot, s);
    TopicsFitTheSlot(slot, s);
    if s.hub.wsOpen && !s.hub.broken {
      H.CarriesTopicsAndLeaks(s.hub);
      UnionIsSmaller(s.hub.upstream, s.hub.topics, s.hub.leaked);
      A.SubsetIsSmaller(s.hub.leaked - s.hub.topics, s.snapshot);
    }
  }
}
