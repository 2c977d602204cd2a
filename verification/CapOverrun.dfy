/** A run that takes one of Hyperliquid's connections over the allocator's cap. */
module CapOverrun {
  import opened TopicBudget
  import A = AllocatorProtocol
  import H = HubProtocol

  ghost predicate Reachable(slot: nat, s: State) {
    exists ss, acts :: IsRun(slot, ss, acts) && ss[|acts|] == s
  }

  lemma InitialIsReachable(slot: nat)
    ensures Reachable(slot, Initial())
  {
    assert IsRun(slot, [Initial()], []);
  }

  lemma NextIsReachable(slot: nat, s: State, a: Action)
    requires Reachable(slot, s) && Enabled(slot, s, a)
    ensures Reachable(slot, Next(slot, s, a))
  {
    var ss, acts :| IsRun(slot, ss, acts) && ss[|acts|] == s;
    var ts, bs := ss + [Next(slot, s, a)], acts + [a];
    forall i: nat | i < |bs|
      ensures StepAt(slot, ts, bs, i)
    {
      if i < |acts| {
        assert StepAt(slot, ss, acts, i);
      }
    }
    assert IsRun(slot, ts, bs) && ts[|bs|] == Next(slot, s, a);
  }

  lemma ReachableKeepsInv(slot: nat, s: State)
    requires Reachable(slot, s)
    ensures Inv(slot, s)
  {
    var ss, acts :| IsRun(slot, ss, acts) && ss[|acts|] == s;
    RunKeepsInv(slot, ss, acts, |acts|);
  }

  /** One topic for every number. */
  function Name(k: nat): Topic {
    seq(k, _ => 'x')
  }

  function Names(n: nat): set<Topic> {
    set k: nat | k < n :: Name(k)
  }

  lemma NamesGrow(n: nat)
    ensures Names(n + 1) == Names(n) + {Name(n)} && Name(n) !in Names(n)
  {
    assert forall k: nat :: k < n ==> |Name(k)| == k;
    assert |Name(n)| == n;
  }

  lemma {:induction false} CountNames(n: nat)
    ensures |Names(n)| == n
  {
    if n > 0 {
      CountNames(n - 1);
      NamesGrow(n - 1);
    } else {
      assert Names(0) == {};
    }
  }

  /** The first `n` numbers hold their topics, queued in the first hub, and wait for it to connect. */
  ghost predicate Filled(s: State, n: nat) {
    && s.alloc.hubs == (if n == 0 then [] else [Names(n)])
    && (forall x: Holder :: x in s.alloc.holders <==> x < n)
    && (forall x :: 0 <= x < n ==> s.alloc.holders[x] == A.Hold(Name(x), 0, true))
    && (forall x :: 0 <= x < n ==> x in s.queueOf && s.queueOf[x] == Queue(x, 0) && Queue(x, 0) in s.hub.waiting)
    && (n > 0 ==> s.hub.running) && !s.hub.wsOpen && !s.hub.connected && s.hub.topics == Names(n)
  }

  /** A topic no slot has goes to the first slot, if that has room. */
  lemma AcquireFirst(a: A.Alloc, x: Holder, t: Topic)
    requires A.Inv(a) && |a.hubs| <= 1 && !A.In(a.hubs, 0, t) && (a.hubs != [] ==> |a.hubs[0]| < A.MAX_SUBS_PER_HUB)
    ensures var g := A.AcquireStep(a, x, t, "");
            && g.hubs == [if a.hubs == [] then {t} else a.hubs[0] + {t}]
            && g.holders == a.holders[x := A.Hold(t, 0, false)]
  {
    assert t in a.hubOf ==> A.In(a.hubs, a.hubOf[t], t);
    A.AcquireTables(a, x, t, "");
  }

  lemma AllotTo(s: State, a: A.Action)
    requires Reachable(0, s) && !a.Enqueue? && !a.Dequeue? && A.Enabled(s.alloc, a)
    ensures Reachable(0, s.(alloc := A.Next(s.alloc, a)))
  {
    NextIsReachable(0, s, Allot(a));
  }

  lemma ConnectTo(s: State, b: H.Action<Queue>)
    requires Reachable(0, s) && !b.Subscribe? && !b.Unsubscribe? && H.Enabled(s.hub, b)
    ensures Reachable(0, s.(hub := H.Next(s.hub, b), snapshot := if b.Connect? then s.hub.topics else s.snapshot))
  {
    NextIsReachable(0, s, Connection(b));
  }

  /** A holder's queue joins the first hub. */
  lemma JoinTo(s: State, x: Holder, t: Topic) returns (g: State)
    requires Reachable(0, s) && x in s.alloc.holders && s.alloc.holders[x] == A.Hold(t, 0, false)
    requires Queue(x, 0) !in s.hub.waiting && Queue(x, 0) !in s.hub.returned
    ensures Reachable(0, g) && g.hub == H.SubscribeStep(s.hub, t, Queue(x, 0)) && g.queueOf == s.queueOf[x := Queue(x, 0)]
    ensures g.alloc.hubs == s.alloc.hubs && g.alloc.holders == s.alloc.holders[x := A.Hold(t, 0, true)]
  {
    NextIsReachable(0, s, Join(x, 0));
    g := Next(0, s, Join(x, 0));
  }

  /** Room for a topic nobody has in the first hub, or in no hub yet. */
  ghost predicate Roomy(a: A.Alloc, x: Holder, t: Topic) {
    && x !in a.holders && |a.hubs| <= 1 && !A.In(a.hubs, 0, t)
    && (a.hubs != [] ==> |a.hubs[0]| < A.MAX_SUBS_PER_HUB)
  }

  ghost predicate Entered(s: State, x: Holder, t: Topic, g: State) {
    && g.hub == H.SubscribeStep(s.hub, t, Queue(x, 0)) && g.queueOf == s.queueOf[x := Queue(x, 0)]
    && g.alloc.hubs == [if s.alloc.hubs == [] then {t} else s.alloc.hubs[0] + {t}]
    && g.alloc.holders == s.alloc.holders[x := A.Hold(t, 0, true)]
  }

  /** A new holder takes a topic nobody has. */
  lemma AllotFirst(s: State, x: Holder, t: Topic) returns (g: State)
    requires Reachable(0, s) && Roomy(s.alloc, x, t)
    ensures Reachable(0, g) && g.hub == s.hub && g.queueOf == s.queueOf
    ensures g.alloc.hubs == [if s.alloc.hubs == [] then {t} else s.alloc.hubs[0] + {t}]
    ensures g.alloc.holders == s.alloc.holders[x := A.Hold(t, 0, false)]
  {
    ReachableKeepsInv(0, s);
    AcquireFirst(s.alloc, x, t);
    AllotTo(s, A.Acquire(x, t, ""));
    g := s.(alloc := A.AcquireStep(s.alloc, x, t, ""));
  }

  /** It then queues in the first hub. */
  lemma Enter(s: State, x: Holder, t: Topic) returns (g: State)
    requires Reachable(0, s) && Roomy(s.alloc, x, t)
    requires Queue(x, 0) !in s.hub.waiting && Queue(x, 0) !in s.hub.returned
    ensures Reachable(0, g) && Entered(s, x, t, g)
  {
    var s1 := AllotFirst(s, x, t);
    g := JoinTo(s1, x, t);
    var holders: map<Holder, A.Hold> := s.alloc.holders;
    assert s1.alloc.holders[x := A.Hold(t, 0, true)] == holders[x := A.Hold(t, 0, true)];
  }

  lemma NobodyElseWaits(s: State, n: nat)
    requires Inv(0, s) && Filled(s, n)
    ensures forall q :: q in s.hub.waiting ==> q.holder < n
  {
    forall q | q in s.hub.waiting
      ensures q.holder < n
    {
      assert q in s.hub.home;
    }
  }

  lemma EnteringFills(s: State, n: nat, g: State)
    requires Filled(s, n) && Entered(s, n, Name(n), g)
    ensures Filled(g, n + 1)
  {
    NamesGrow(n);
    assert n == 0 ==> {Name(n)} == Names(n) + {Name(n)};
  }

  lemma FilledIsRoomy(s: State, n: nat)
    requires Filled(s, n) && n < A.MAX_SUBS_PER_HUB
    ensures Roomy(s.alloc, n, Name(n))
  {
    NamesGrow(n);
    CountNames(n);
  }

  lemma FillOne(s: State, n: nat) returns (g: State)
    requires Reachable(0, s) && Filled(s, n) && s.hub.returned == map[] && n < A.MAX_SUBS_PER_HUB
    ensures Reachable(0, g) && Filled(g, n + 1) && g.hub.returned == map[]
  {
    ReachableKeepsInv(0, s);
    NobodyElseWaits(s, n);
    FilledIsRoomy(s, n);
    g := Enter(s, n, Name(n));
    EnteringFills(s, n, g);
  }

  lemma {:induction false} Fill(n: nat) returns (s: State)
    requires n <= A.MAX_SUBS_PER_HUB
    ensures Reachable(0, s) && Filled(s, n) && s.hub.returned == map[]
  {
    if n == 0 {
      InitialIsReachable(0);
      s := Initial();
      assert s.alloc.holders == map[];
    } else {
      s := Fill(n - 1);
      s := FillOne(s, n - 1);
    }
  }

  /** The handshake has begun and nothing is sent yet. */
  ghost predicate Shaking(h: H.Hub<Queue>, outbox: set<Topic>, topics: set<Topic>) {
    h.wsOpen && !h.connected && !h.broken && h.upstream == {} && h.outbox == outbox && h.topics == topics
  }

  /** The first opener gives up waiting. */
  lemma GiveUp(s: State) returns (g: State)
    requires Reachable(0, s) && s.hub.returned == map[] && Queue(0, 0) in s.hub.waiting && Queue(0, 0) in s.hub.home
    ensures Reachable(0, g) && g == s.(hub := H.TimeOutStep(s.hub, Queue(0, 0)))
    ensures g.hub.waiting == s.hub.waiting - {Queue(0, 0)} && g.hub.returned.Keys == {Queue(0, 0)}
  {
    ConnectTo(s, H.TimeOut(Queue(0, 0)));
    g := s.(hub := H.TimeOutStep(s.hub, Queue(0, 0)));
  }

  /** The connection opens and takes its snapshot. */
  lemma Snap(s: State) returns (g: State)
    requires Reachable(0, s) && s.hub.running && !s.hub.wsOpen && !s.hub.connected
    ensures Reachable(0, g) && g.alloc == s.alloc && g.queueOf == s.queueOf && Shaking(g.hub, s.hub.topics, s.hub.topics)
    ensures g.hub.waiting == s.hub.waiting && g.hub.returned == s.hub.returned
  {
    ConnectTo(s, H.Connect);
    g := s.(hub := H.ConnectStep(s.hub), snapshot := s.hub.topics);
  }

  /** A filled hub whose first opener gave up, in its handshake. */
  lemma BeginHandshake(s: State, n: nat) returns (g: State)
    requires Reachable(0, s) && Filled(s, n) && n > 0 && s.hub.returned == map[]
    ensures Reachable(0, g) && g.alloc == s.alloc && g.queueOf == s.queueOf && Shaking(g.hub, Names(n), Names(n))
    ensures Queue(0, 0) !in g.hub.waiting && Queue(n, 0) !in g.hub.waiting && Queue(n, 0) !in g.hub.returned
  {
    ReachableKeepsInv(0, s);
    NobodyElseWaits(s, n);
    assert Queue(0, 0) in s.hub.home;
    g := GiveUp(s);
    g := Snap(g);
  }

  /** Holder 0 has the only queue of its topic in the hub. */
  ghost predicate Alone(s: State) {
    && 0 in s.queueOf && 0 in s.alloc.holders && s.queueOf[0] == Queue(0, 0)
    && s.alloc.holders[0] == A.Hold(Name(0), 0, true)
    && forall x: Holder :: x in s.alloc.holders && x != 0 ==> s.alloc.holders[x].topic != Name(0)
  }

  lemma FilledIsAlone(s: State, n: nat)
    requires Filled(s, n) && n > 0
    ensures Alone(s)
  {
    forall x: Holder | x in s.alloc.holders && x != 0
      ensures s.alloc.holders[x].topic != Name(0)
    {
      assert |Name(x)| == x && |Name(0)| == 0;
    }
  }

  /** What the dropping of its topic leaves of the hub. */
  lemma LastQueueLeaves(s: State, n: nat)
    requires Inv(0, s) && Alone(s) && Shaking(s.hub, Names(n), Names(n)) && n > 0 && Queue(0, 0) !in s.hub.waiting
    ensures var h := H.UnsubscribeStep(s.hub, Name(0), Queue(0, 0), true);
            && Shaking(h, Names(n), Names(n) - {Name(0)}) && h.waiting == s.hub.waiting && h.returned == s.hub.returned
  {
    var h := s.hub;
    assert Name(0) in Names(n);
    assert Queue(0, 0) in h.home && h.home[Queue(0, 0)] == Name(0);
    forall q | q in h.home && q != Queue(0, 0)
      ensures h.home[q] != Name(0)
    {
      assert QueuedAt(s.alloc.holders, 0, q.holder);
    }
    assert !H.HasQueue(H.Left(h, Name(0), Queue(0, 0)), Name(0));
  }

  /** Holder 0 leaves during the handshake; its subscription stays on its way. */
  lemma LeaveDuringHandshake(s: State, n: nat) returns (g: State)
    requires Reachable(0, s) && Alone(s) && Shaking(s.hub, Names(n), Names(n)) && n > 0 && Queue(0, 0) !in s.hub.waiting
    ensures Reachable(0, g) && Shaking(g.hub, Names(n), Names(n) - {Name(0)})
    ensures g.hub.waiting == s.hub.waiting && g.hub.returned == s.hub.returned && g.alloc.hubs == s.alloc.hubs
    ensures g.alloc.holders == s.alloc.holders[0 := A.Hold(Name(0), 0, false)]
  {
    ReachableKeepsInv(0, s);
    LastQueueLeaves(s, n);
    NextIsReachable(0, s, Leave(0, true));
    g := Next(0, s, Leave(0, true));
  }

  lemma OnlyHolderReleases(a: A.Alloc, x: Holder, t: Topic)
    requires A.Inv(a) && x in a.holders && a.holders[x].topic == t && |a.hubs| == 1
    requires forall y :: y in a.holders && y != x ==> a.holders[y].topic != t
    ensures A.ReleaseStep(a, x).hubs == [a.hubs[0] - {t}] && A.ReleaseStep(a, x).holders == a.holders - {x}
  {
    A.ReleaseTables(a, x);
    assert A.HoldersOf(a.holders, t) == {x};
    assert A.In(a.hubs, a.hubOf[t], t);
  }

  /** It releases its topic, and its place in the slot is free. */
  lemma FreePlace(s: State, n: nat) returns (g: State)
    requires Reachable(0, s) && s.alloc.hubs == [Names(n)]
    requires 0 in s.alloc.holders && s.alloc.holders[0] == A.Hold(Name(0), 0, false)
    requires forall x: Holder :: x in s.alloc.holders && x != 0 ==> s.alloc.holders[x].topic != Name(0)
    ensures Reachable(0, g) && g.hub == s.hub && g.alloc.hubs == [Names(n) - {Name(0)}] && g.alloc.holders == s.alloc.holders - {0}
  {
    ReachableKeepsInv(0, s);
    OnlyHolderReleases(s.alloc, 0, Name(0));
    AllotTo(s, A.Release(0));
    g := s.(alloc := A.ReleaseStep(s.alloc, 0));
  }

  /** The handshake sends what is left of it. */
  lemma {:induction false} SendAll(s: State) returns (g: State)
    requires Reachable(0, s) && s.hub.wsOpen && !s.hub.connected && !s.hub.broken
    ensures Reachable(0, g) && g.hub == s.hub.(outbox := {}, upstream := s.hub.upstream + s.hub.outbox)
    decreases |s.hub.outbox|
  {
    var h := s.hub;
    if h.outbox == {} {
      g := s;
      assert h.upstream + h.outbox == h.upstream;
    } else {
      var t :| t in h.outbox;
      ConnectTo(s, H.SendNext(t, true));
      g := SendAll(s.(hub := h.(outbox := h.outbox - {t}, upstream := h.upstream + {t})));
      assert h.upstream + {t} + (h.outbox - {t}) == h.upstream + h.outbox;
    }
  }

  /** The event is set and wakes the opener of `t`, which sends its subscription. */
  lemma WakeLast(s: State, q: Queue, t: Topic) returns (g: State)
    requires Reachable(0, s) && s.hub.wsOpen && !s.hub.connected && !s.hub.broken && s.hub.outbox == {}
    requires q in s.hub.waiting && q in s.hub.home && s.hub.home[q] == t && t !in s.hub.subscribed
    ensures Reachable(0, g) && g.hub.connected && !g.hub.broken
    ensures g.hub.topics == s.hub.topics && g.hub.upstream == s.hub.upstream + {t}
  {
    ConnectTo(s, H.SetConnected);
    var s1 := s.(hub := H.SetConnectedStep(s.hub));
    ConnectTo(s1, H.Wake(q, true));
    g := s1.(hub := H.WakeStep(s1.hub, q, true));
  }

  /** What joins a topic without queues during the handshake leaves it to the opener to send it. */
  lemma OpenedIsDark(s: State, q: Queue, t: Topic, outbox: set<Topic>, topics: set<Topic>)
    requires Shaking(s.hub, outbox, topics) && t !in topics && s.hub.subscribed <= s.hub.topics
    ensures var h := H.SubscribeStep(s.hub, t, q);
            && Shaking(h, outbox, topics + {t}) && q in h.waiting && q in h.home && h.home[q] == t && t !in h.subscribed
  {
  }

  lemma NamesWithoutFirst(n: nat)
    requires n > 0
    ensures Names(n + 1) - {Name(0)} == (Names(n) - {Name(0)}) + {Name(n)} && Name(n) !in Names(n)
  {
    NamesGrow(n);
    assert |Name(n)| == n && |Name(0)| == 0;
  }

  /** A new holder takes the free place during the handshake. */
  lemma EnterDuringHandshake(s: State, n: nat) returns (g: State)
    requires Reachable(0, s) && Shaking(s.hub, Names(n), Names(n) - {Name(0)}) && Roomy(s.alloc, n, Name(n))
    requires Queue(n, 0) !in s.hub.waiting && Queue(n, 0) !in s.hub.returned && n > 0
    ensures Reachable(0, g) && Shaking(g.hub, Names(n), Names(n + 1) - {Name(0)})
    ensures Queue(n, 0) in g.hub.waiting && Queue(n, 0) in g.hub.home && g.hub.home[Queue(n, 0)] == Name(n)
    ensures Name(n) !in g.hub.subscribed
  {
    SubscribedHaveQueues(s);
    NamesWithoutFirst(n);
    g := Enter(s, n, Name(n));
    OpenedIsDark(s, Queue(n, 0), Name(n), Names(n), Names(n) - {Name(0)});
  }

  lemma SubscribedHaveQueues(s: State)
    requires Reachable(0, s)
    ensures s.hub.subscribed <= s.hub.topics
  {
    ReachableKeepsInv(0, s);
  }

  /** The place of holder 0 is free again, while its subscription is on its way. */
  lemma MakeRoom(s: State, n: nat) returns (g: State)
    requires Reachable(0, s) && Filled(s, n) && 0 < n <= A.MAX_SUBS_PER_HUB && s.hub.returned == map[]
    ensures Reachable(0, g) && Shaking(g.hub, Names(n), Names(n) - {Name(0)}) && Roomy(g.alloc, n, Name(n))
    ensures Queue(n, 0) !in g.hub.waiting && Queue(n, 0) !in g.hub.returned
  {
    FilledIsAlone(s, n);
    var s1 := BeginHandshake(s, n);
    var s2 := LeaveDuringHandshake(s1, n);
    g := FreePlace(s2, n);
    RoomAgain(n);
  }

  lemma RoomAgain(n: nat)
    requires 0 < n <= A.MAX_SUBS_PER_HUB
    ensures |Names(n) - {Name(0)}| < A.MAX_SUBS_PER_HUB && Name(n) !in Names(n)
  {
    CountNames(n);
    NamesGrow(n);
    assert Name(0) in Names(n);
  }

  /** With nine hundred topics in a hub one leaves during the handshake, and another takes its place: the
    * connection carries nine hundred and one subscriptions.
    */
  lemma HandshakeDropOverrunsTheCap() returns (ss: seq<State>, acts: seq<Action>)
    ensures IsRun(0, ss, acts)
    ensures var h := ss[|acts|].hub;
            h.connected && !h.broken && |h.topics| == 900 && |h.upstream| == 901
  {
    var n := A.MAX_SUBS_PER_HUB;
    var s := Fill(n);
    s := MakeRoom(s, n);
    s := EnterDuringHandshake(s, n);
    s := SendAll(s);
    s := WakeLast(s, Queue(n, 0), Name(n));
    NamesGrow(n);
    CountNames(n + 1);
    assert Name(0) in Names(n + 1);
    ss, acts :| IsRun(0, ss, acts) && ss[|acts|] == s;
  }
}
