/** The subscription protocol of one stream hub: topics with queues on this side, subscriptions on the
  * upstream connection on the other, and the atomic steps between two suspensions of its coroutines.
  *
  * Nothing inside a lock body suspends, so a lock body together with the code up to the next real
  * suspension, including the call that hands a payload to the socket, is one step.
  */
module HubProtocol {
  type Topic = string

  /** How a call of `subscribe` came back: on a topic that already had queues, as the opener of a new
    * topic that got past the wait, or as an opener whose wait timed out.
    */
  datatype Return = Joined | Opened | TimedOut

  /** `topics` are the keys of the hub's queue table and `home` says in which topic's list a queue is.
    * An opener in `waiting` is suspended until the connected event; it is `signalled` once the event
    * was set meanwhile. `outbox` holds the topics of the handshake whose payload is not sent yet.
    * `upstream` is what the current connection was told to send, under first-in first-out delivery;
    * `broken` is set once a send failed on it. `late` are the topics opened since the connection's
    * snapshot whose opener has not passed its send step, `missed` those of them whose opener timed
    * out, `leaked` the topics dropped during the handshake with their subscription on its way.
    */
  datatype Hub<Q(==)> = Hub(
    topics: set<Topic>, home: map<Q, Topic>, subscribed: set<Topic>,
    running: bool, wsOpen: bool, connected: bool, outbox: set<Topic>,
    waiting: set<Q>, signalled: set<Q>, returned: map<Q, Return>,
    upstream: set<Topic>, broken: bool, late: set<Topic>, missed: set<Topic>, leaked: set<Topic>)

  /** `sent` says whether the socket accepted the payload of the step, if it sends one. */
  datatype Action<Q> =
    | Subscribe(topic: Topic, q: Q)
    | Wake(q: Q, sent: bool)
    | TimeOut(q: Q)
    | Unsubscribe(topic: Topic, q: Q, sent: bool)
    | Connect
    | SendNext(topic: Topic, sent: bool)
    | SetConnected
    | Disconnect

  function Initial<Q>(): Hub<Q> {
    Hub({}, map[], {}, false, false, false, {}, {}, {}, map[], {}, false, {}, {}, {})
  }

  // ----- The steps ---------------------------------------------------------------------------------

  /** A payload handed to the socket: a subscribe or an unsubscribe of one topic. */
  ghost function Told<Q>(h: Hub<Q>, on: bool, t: Topic, sent: bool): Hub<Q> {
    if !h.wsOpen then h
    else if !sent then h.(broken := true)
    else if on then h.(upstream := h.upstream + {t})
    else h.(upstream := h.upstream - {t}, leaked := h.leaked - {t})
  }

  ghost function SubscribeStep<Q>(h: Hub<Q>, t: Topic, q: Q): Hub<Q> {
    var joined := h.(home := h.home[q := t], running := true);
    if t in h.topics then joined.(returned := h.returned[q := Joined])
    else joined.(topics := h.topics + {t}, waiting := h.waiting + {q}, late := h.late + {t},
                 signalled := if h.connected then h.signalled + {q} else h.signalled)
  }

  ghost function WakeStep<Q>(h: Hub<Q>, q: Q, sent: bool): Hub<Q>
    requires q in h.home
  {
    var t := h.home[q];
    var woken := h.(subscribed := h.subscribed + {t}, waiting := h.waiting - {q},
                    returned := h.returned[q := Opened], late := h.late - {t});
    if t in h.subscribed then woken else Told(woken, true, t, sent)
  }

  ghost function TimeOutStep<Q>(h: Hub<Q>, q: Q): Hub<Q>
    requires q in h.home
  {
    h.(waiting := h.waiting - {q}, returned := h.returned[q := TimedOut],
       missed := if h.home[q] in h.late then h.missed + {h.home[q]} else h.missed)
  }

  ghost predicate Homed<Q>(home: map<Q, Topic>, t: Topic) {
    exists q :: q in home && home[q] == t
  }

  ghost predicate HasQueue<Q>(h: Hub<Q>, t: Topic) {
    Homed(h.home, t)
  }

  /** `q` leaves the list of `t`, if it is there. */
  ghost function Left<Q>(h: Hub<Q>, t: Topic, q: Q): Hub<Q> {
    if q in h.home && h.home[q] == t then h.(home := h.home - {q}) else h
  }

  /** The last queue of `t` is gone. */
  ghost function Dropped<Q>(h: Hub<Q>, t: Topic, sent: bool): Hub<Q> {
    var g := h.(topics := h.topics - {t}, subscribed := h.subscribed - {t}, late := h.late - {t}, missed := h.missed - {t});
    if h.connected then Told(g, false, t, sent)
    else if h.wsOpen && (t in h.upstream || t in h.outbox) then g.(leaked := h.leaked + {t})
    else g
  }

  ghost function UnsubscribeStep<Q>(h: Hub<Q>, t: Topic, q: Q, sent: bool): Hub<Q> {
    var left := Left(h, t, q);
    if HasQueue(left, t) then left else Dropped(left, t, sent)
  }

  /** The connection opens and `_run` takes its snapshot of the topics. */
  ghost function ConnectStep<Q>(h: Hub<Q>): Hub<Q> {
    h.(wsOpen := true, subscribed := h.topics, outbox := h.topics,
       upstream := {}, broken := false, late := {}, missed := {}, leaked := {})
  }

  /** A failed send abandons the rest of the handshake. */
  ghost function SendNextStep<Q>(h: Hub<Q>, t: Topic, sent: bool): Hub<Q> {
    Told(h.(outbox := if sent then h.outbox - {t} else {}), true, t, sent)
  }

  ghost function SetConnectedStep<Q>(h: Hub<Q>): Hub<Q> {
    h.(connected := true, signalled := h.signalled + h.waiting)
  }

  ghost function DisconnectStep<Q>(h: Hub<Q>): Hub<Q> {
    h.(connected := false, wsOpen := false, outbox := {}, upstream := {}, leaked := {})
  }

  ghost predicate Enabled<Q>(h: Hub<Q>, a: Action<Q>) {
    match a
    case Subscribe(t, q) => q !in h.waiting && q !in h.returned
    case Wake(q, _) => q in h.waiting && q in h.signalled && q in h.home
    case TimeOut(q) => q in h.waiting && q in h.home
    case Unsubscribe(t, q, _) => q !in h.waiting
    case Connect => h.running && !h.wsOpen
    case SendNext(t, _) => h.wsOpen && !h.connected && t in h.outbox
    case SetConnected => h.wsOpen && !h.connected && h.outbox == {}
    case Disconnect => h.wsOpen
  }

  ghost function Next<Q>(h: Hub<Q>, a: Action<Q>): Hub<Q>
    requires Enabled(h, a)
  {
    match a
    case Subscribe(t, q) => SubscribeStep(h, t, q)
    case Wake(q, sent) => WakeStep(h, q, sent)
    case TimeOut(q) => TimeOutStep(h, q)
    case Unsubscribe(t, q, sent) => UnsubscribeStep(h, t, q, sent)
    case Connect => ConnectStep(h)
    case SendNext(t, sent) => SendNextStep(h, t, sent)
    case SetConnected => SetConnectedStep(h)
    case Disconnect => DisconnectStep(h)
  }

  // ----- What every step keeps -----------------------------------------------------------------

  /** Every queue in a list belongs to a call that waits or returned, and no topic's list is empty. */
  ghost predicate Shape<Q>(h: Hub<Q>) {
    && (forall q :: q in h.home ==> h.home[q] in h.topics && (q in h.waiting || q in h.returned))
    && (forall t :: t in h.topics ==> HasQueue(h, t))
  }

  /** An opener that waits still has its queue and cannot miss the event. */
  ghost predicate Waiters<Q>(h: Hub<Q>) {
    && (h.connected ==> h.wsOpen && h.outbox == {})
    && (forall q :: q in h.waiting ==> q !in h.returned && q in h.home)
    && (h.connected ==> h.waiting <= h.signalled)
  }

  /** A topic with queues is subscribed, on its way, or late; an opener that returned is not late. */
  ghost predicate Coverage<Q>(h: Hub<Q>) {
    && h.subscribed <= h.topics
    && h.late <= h.topics
    && h.late !! h.subscribed
    && (h.wsOpen && !h.broken ==> forall t :: t in h.topics ==> t in h.late || t in h.upstream || t in h.outbox)
    && (forall q :: q in h.home && q in h.returned && h.returned[q] == Opened ==> h.home[q] !in h.late)
  }

  /** A late topic's opener waits or timed out. */
  ghost predicate LateHaveWaiters<Q>(h: Hub<Q>) {
    forall t :: t in h.late ==> t in h.missed || HasWaiter(h, t)
  }

  ghost predicate HasWaiter<Q>(h: Hub<Q>, t: Topic) {
    exists q :: q in h.waiting && q in h.home && h.home[q] == t
  }

  /** What upstream still sends for nobody is exactly what was dropped during the handshake. */
  ghost predicate Leaks<Q>(h: Hub<Q>) {
    h.wsOpen && !h.broken ==>
      && (forall t :: t in h.leaked ==> t in h.upstream || t in h.outbox)
      && (forall t :: t !in h.topics && (t in h.upstream || t in h.outbox) ==> t in h.leaked)
  }

  /** A late topic is not sent, nor about to be, unless it is one whose subscription leaked. */
  ghost predicate LateAreDark<Q>(h: Hub<Q>) {
    h.wsOpen && !h.broken ==> forall t :: t in h.late && t !in h.leaked ==> t !in h.upstream && t !in h.outbox
  }

  ghost predicate Inv<Q>(h: Hub<Q>) {
    Shape(h) && Waiters(h) && Coverage(h) && LateHaveWaiters(h) && Leaks(h) && LateAreDark(h)
  }

  /** Topics keep their queues and late topics their waiters as long as those stay where they are. */
  lemma QueueStays<Q>(h: Hub<Q>, g: Hub<Q>, t: Topic)
    requires HasQueue(h, t)
    requires forall q :: q in h.home && h.home[q] == t ==> q in g.home && g.home[q] == t
    ensures HasQueue(g, t)
  {
    var q :| q in h.home && h.home[q] == t;
    assert g.home[q] == t;
  }

  lemma WaiterStays<Q>(h: Hub<Q>, g: Hub<Q>, t: Topic)
    requires HasWaiter(h, t)
    requires forall q :: q in h.waiting && q in h.home && h.home[q] == t ==> q in g.waiting && q in g.home && g.home[q] == t
    ensures HasWaiter(g, t)
  {
    var q :| q in h.waiting && q in h.home && h.home[q] == t;
    assert g.home[q] == t;
  }

  /** The invariants that say a queue or a waiter exists. */
  ghost predicate Inhabited<Q>(h: Hub<Q>) {
    Shape(h) && LateHaveWaiters(h)
  }

  /** The invariants about which topics are in which set. */
  ghost predicate Accounted<Q>(h: Hub<Q>) {
    Waiters(h) && Coverage(h) && Leaks(h)
  }

  lemma SubscribeKeepsShape<Q>(h: Hub<Q>, t: Topic, q: Q)
    requires Shape(h) && q !in h.waiting && q !in h.returned
    ensures Shape(SubscribeStep(h, t, q))
  {
    var g := SubscribeStep(h, t, q);
    forall u | u in g.topics
      ensures HasQueue(g, u)
    {
      if u == t { assert g.home[q] == u; } else { QueueStays(h, g, u); }
    }
  }

  lemma SubscribeKeepsInhabited<Q>(h: Hub<Q>, t: Topic, q: Q)
    requires Inv(h) && q !in h.waiting && q !in h.returned
    ensures Inhabited(SubscribeStep(h, t, q))
  {
    SubscribeKeepsShape(h, t, q);
    var g := SubscribeStep(h, t, q);
    forall u | u in g.late && u !in g.missed
      ensures HasWaiter(g, u)
    {
      if u in h.late { WaiterStays(h, g, u); } else { assert g.home[q] == u; }
    }
  }

  lemma SubscribeKeepsAccounted<Q>(h: Hub<Q>, t: Topic, q: Q)
    requires Inv(h) && q !in h.waiting && q !in h.returned
    ensures Accounted(SubscribeStep(h, t, q))
  {
  }

  /** Queues that stay where they are, of calls that go on waiting or have returned. */
  lemma ShapeStays<Q>(h: Hub<Q>, g: Hub<Q>)
    requires Shape(h) && g.home == h.home && g.topics == h.topics
    requires forall q :: q in h.waiting || q in h.returned ==> q in g.waiting || q in g.returned
    ensures Shape(g)
  {
    forall u | u in g.topics
      ensures HasQueue(g, u)
    {
      QueueStays(h, g, u);
    }
  }

  lemma WakeKeepsShape<Q>(h: Hub<Q>, q: Q, sent: bool)
    requires Shape(h) && q in h.waiting && q in h.home
    ensures Shape(WakeStep(h, q, sent))
  {
    WakeFields(h, q, sent);
    ShapeStays(h, WakeStep(h, q, sent));
  }

  lemma WakeKeepsLateHaveWaiters<Q>(h: Hub<Q>, q: Q, sent: bool)
    requires LateHaveWaiters(h) && q in h.waiting && q in h.home
    ensures LateHaveWaiters(WakeStep(h, q, sent))
  {
    var g := WakeStep(h, q, sent);
    assert g.home == h.home && g.late == h.late - {h.home[q]} && g.waiting == h.waiting - {q} && g.missed == h.missed;
    forall u | u in g.late && u !in g.missed
      ensures HasWaiter(g, u)
    {
      WaiterStays(h, g, u);
    }
  }

  lemma WakeKeepsWaiters<Q>(h: Hub<Q>, q: Q, sent: bool)
    requires Waiters(h) && q in h.waiting
    ensures Waiters(WakeStep(h, q, sent))
  {
  }

  /** A subscriber that wakes leaves no topic uncovered, unless its send failed. */
  lemma WakeCovers<Q>(h: Hub<Q>, q: Q, sent: bool)
    requires Coverage(h) && q in h.home && h.home[q] in h.topics
    ensures var g := WakeStep(h, q, sent);
            g.wsOpen && !g.broken ==> forall t :: t in g.topics ==> t in g.late || t in g.upstream || t in g.outbox
  {
  }

  lemma WakeFields<Q>(h: Hub<Q>, q: Q, sent: bool)
    requires q in h.home
    ensures var g := WakeStep(h, q, sent);
            && g.home == h.home && g.topics == h.topics && g.late == h.late - {h.home[q]}
            && g.subscribed == h.subscribed + {h.home[q]} && g.returned == h.returned[q := Opened]
            && g.waiting == h.waiting - {q}
  {
  }

  lemma WokenAreNotLate<Q>(h: Hub<Q>, g: Hub<Q>, q: Q)
    requires Coverage(h) && q in h.home && h.home[q] in h.topics
    requires g.home == h.home && g.topics == h.topics && g.late == h.late - {h.home[q]}
    requires g.subscribed == h.subscribed + {h.home[q]} && g.returned == h.returned[q := Opened]
    ensures g.subscribed <= g.topics && g.late <= g.topics && g.late !! g.subscribed
    ensures forall x :: x in g.home && x in g.returned && g.returned[x] == Opened ==> g.home[x] !in g.late
  {
  }

  lemma WakeKeepsCoverage<Q>(h: Hub<Q>, q: Q, sent: bool)
    requires Shape(h) && Coverage(h) && q in h.waiting && q in h.home
    ensures Coverage(WakeStep(h, q, sent))
  {
    WakeFields(h, q, sent);
    WakeCovers(h, q, sent);
    WokenAreNotLate(h, WakeStep(h, q, sent), q);
  }

  lemma WakeKeepsAccounted<Q>(h: Hub<Q>, q: Q, sent: bool)
    requires Inv(h) && q in h.waiting
    ensures Accounted(WakeStep(h, q, sent))
  {
    WakeKeepsWaiters(h, q, sent);
    WakeKeepsCoverage(h, q, sent);
    WakeKeepsLeaks(h, q, sent);
  }

  lemma WakeKeepsLeaks<Q>(h: Hub<Q>, q: Q, sent: bool)
    requires Shape(h) && Leaks(h) && q in h.waiting && q in h.home
    ensures Leaks(WakeStep(h, q, sent))
  {
  }

  lemma TimeOutKeepsInv<Q>(h: Hub<Q>, q: Q)
    requires Inv(h) && q in h.waiting
    ensures Inv(TimeOutStep(h, q))
  {
    var g := TimeOutStep(h, q);
    forall u | u in g.topics
      ensures HasQueue(g, u)
    {
      QueueStays(h, g, u);
    }
    forall u | u in g.late && u !in g.missed
      ensures HasWaiter(g, u)
    {
      WaiterStays(h, g, u);
    }
  }

  lemma LeavingKeepsAccounted<Q>(h: Hub<Q>, t: Topic, q: Q)
    requires Accounted(h) && q !in h.waiting
    ensures Accounted(Left(h, t, q))
  {
  }

  lemma LeavingKeepsLateHaveWaiters<Q>(h: Hub<Q>, t: Topic, q: Q)
    requires LateHaveWaiters(h) && q !in h.waiting
    ensures LateHaveWaiters(Left(h, t, q))
  {
    var g := Left(h, t, q);
    forall u | u in g.late && u !in g.missed
      ensures HasWaiter(g, u)
    {
      WaiterStays(h, g, u);
    }
  }

  lemma LeavingKeepsQueues<Q>(h: Hub<Q>, t: Topic, q: Q)
    requires Shape(h)
    ensures var g := Left(h, t, q);
            && (forall u :: u in g.topics && u != t ==> HasQueue(g, u))
            && (forall x :: x in g.home ==> g.home[x] in g.topics && (x in g.waiting || x in g.returned))
  {
    var g := Left(h, t, q);
    forall u | u in g.topics && u != t
      ensures HasQueue(g, u)
    {
      QueueStays(h, g, u);
    }
  }

  lemma DroppingKeepsAccounted<Q>(h: Hub<Q>, t: Topic, sent: bool)
    requires Accounted(h) && !HasQueue(h, t)
    requires forall x :: x in h.home ==> h.home[x] in h.topics
    ensures Accounted(Dropped(h, t, sent))
  {
  }

  lemma DroppingKeepsInhabited<Q>(h: Hub<Q>, t: Topic, sent: bool)
    requires Waiters(h) && LateHaveWaiters(h) && !HasQueue(h, t)
    requires forall u :: u in h.topics && u != t ==> HasQueue(h, u)
    requires forall x :: x in h.home ==> h.home[x] in h.topics && (x in h.waiting || x in h.returned)
    ensures Inhabited(Dropped(h, t, sent))
  {
    var g := Dropped(h, t, sent);
    assert g.home == h.home && g.waiting == h.waiting && g.returned == h.returned;
    forall u | u in g.topics
      ensures HasQueue(g, u)
    {
      QueueStays(h, g, u);
    }
    forall u | u in g.late && u !in g.missed
      ensures HasWaiter(g, u)
    {
      WaiterStays(h, g, u);
    }
  }

  lemma UnsubscribeKeepsRest<Q>(h: Hub<Q>, t: Topic, q: Q, sent: bool)
    requires Inv(h) && q !in h.waiting
    ensures Inhabited(UnsubscribeStep(h, t, q, sent)) && Accounted(UnsubscribeStep(h, t, q, sent))
  {
    LeavingKeepsAccounted(h, t, q);
    LeavingKeepsLateHaveWaiters(h, t, q);
    LeavingKeepsQueues(h, t, q);
    var left := Left(h, t, q);
    if !HasQueue(left, t) {
      DroppingKeepsAccounted(left, t, sent);
      DroppingKeepsInhabited(left, t, sent);
    }
  }

  lemma ConnectionKeepsInv<Q>(h: Hub<Q>, a: Action<Q>)
    requires Inv(h) && Enabled(h, a) && (a.Connect? || a.SendNext? || a.SetConnected? || a.Disconnect?)
    ensures Inv(Next(h, a))
  {
    var g := Next(h, a);
    forall u | u in g.topics
      ensures HasQueue(g, u)
    {
      QueueStays(h, g, u);
    }
    forall u | u in g.late && u !in g.missed
      ensures HasWaiter(g, u)
    {
      WaiterStays(h, g, u);
    }
  }

  lemma DroppingKeepsLateDark<Q>(h: Hub<Q>, t: Topic, sent: bool)
    requires LateAreDark(h)
    ensures LateAreDark(Dropped(h, t, sent))
  {
  }

  lemma StepKeepsLateDark<Q>(h: Hub<Q>, a: Action<Q>)
    requires LateAreDark(h) && Leaks(h) && Enabled(h, a)
    ensures LateAreDark(Next(h, a))
  {
    match a
    case Unsubscribe(t, q, sent) => DroppingKeepsLateDark(Left(h, t, q), t, sent);
    case _ =>
  }

  lemma StepKeepsInv<Q>(h: Hub<Q>, a: Action<Q>)
    requires Inv(h) && Enabled(h, a)
    ensures Inv(Next(h, a))
  {
    StepKeepsLateDark(h, a);
    match a
    case Subscribe(t, q) =>
      SubscribeKeepsInhabited(h, t, q);
      SubscribeKeepsAccounted(h, t, q);
    case Wake(q, sent) =>
      WakeKeepsShape(h, q, sent);
      WakeKeepsLateHaveWaiters(h, q, sent);
      WakeKeepsAccounted(h, q, sent);
    case TimeOut(q) => TimeOutKeepsInv(h, q);
    case Unsubscribe(t, q, sent) =>
      UnsubscribeKeepsRest(h, t, q, sent);
    case _ => ConnectionKeepsInv(h, a);
  }

  // ----- Runs ------------------------------------------------------------------------------------

  /** `hs[i]` is the hub after the first `i` actions of the interleaving `acts`. */
  ghost predicate IsRun<Q>(hs: seq<Hub<Q>>, acts: seq<Action<Q>>) {
    && |hs| == |acts| + 1
    && hs[0] == Initial()
    && forall i :: 0 <= i < |acts| ==> StepAt(hs, acts, i)
  }

  ghost predicate StepAt<Q>(hs: seq<Hub<Q>>, acts: seq<Action<Q>>, i: nat)
    requires i < |acts| && |hs| == |acts| + 1
  {
    Enabled(hs[i], acts[i]) && hs[i + 1] == Next(hs[i], acts[i])
  }

  lemma {:induction false} RunKeepsInv<Q>(hs: seq<Hub<Q>>, acts: seq<Action<Q>>, n: nat)
    requires IsRun(hs, acts) && n <= |acts|
    ensures Inv(hs[n])
  {
    if n > 0 {
      RunKeepsInv(hs, acts, n - 1);
      assert StepAt(hs, acts, n - 1);
      StepKeepsInv(hs[n - 1], acts[n - 1]);
    }
  }

  /** A queue that was handed out is never handed out again. */
  ghost predicate HandedOut<Q>(h: Hub<Q>, q: Q) {
    q in h.waiting || q in h.returned
  }

  lemma HomeAfter<Q>(h: Hub<Q>, a: Action<Q>)
    requires Enabled(h, a)
    ensures Next(h, a).home ==
              match a
              case Subscribe(t, q) => h.home[q := t]
              case Unsubscribe(t, q, _) => Left(h, t, q).home
              case _ => h.home
  {
    match a
    case Subscribe(t, q) => HomeAfterJoining(h, t, q);
    case Unsubscribe(t, q, sent) => HomeAfterLeaving(h, t, q, sent);
    case _ =>
  }

  lemma HomeAfterJoining<Q>(h: Hub<Q>, t: Topic, q: Q)
    ensures SubscribeStep(h, t, q).home == h.home[q := t]
  {
  }

  lemma HomeAfterLeaving<Q>(h: Hub<Q>, t: Topic, q: Q, sent: bool)
    ensures UnsubscribeStep(h, t, q, sent).home == Left(h, t, q).home
  {
  }

  lemma StaysHandedOut<Q>(h: Hub<Q>, a: Action<Q>, q: Q)
    requires Enabled(h, a) && HandedOut(h, q)
    ensures HandedOut(Next(h, a), q)
  {
    match a
    case Unsubscribe(t, x, sent) => LeavingHandsOutNothing(h, t, x, sent);
    case _ =>
  }

  lemma LeavingHandsOutNothing<Q>(h: Hub<Q>, t: Topic, q: Q, sent: bool)
    ensures UnsubscribeStep(h, t, q, sent).waiting == h.waiting && UnsubscribeStep(h, t, q, sent).returned == h.returned
  {
    var left := Left(h, t, q);
    assert left.waiting == h.waiting && left.returned == h.returned;
    DroppingHandsOutNothing(left, t, sent);
    assert UnsubscribeStep(h, t, q, sent) == left || UnsubscribeStep(h, t, q, sent) == Dropped(left, t, sent);
  }

  lemma DroppingHandsOutNothing<Q>(h: Hub<Q>, t: Topic, sent: bool)
    ensures Dropped(h, t, sent).waiting == h.waiting && Dropped(h, t, sent).returned == h.returned
  {
  }

  lemma StepKeepsHandedOut<Q>(h: Hub<Q>, a: Action<Q>, q: Q)
    requires Enabled(h, a) && HandedOut(h, q)
    ensures HandedOut(Next(h, a), q)
    ensures q in Next(h, a).home <==> q in h.home && !(a.Unsubscribe? && a.q == q && a.topic == h.home[q])
    ensures q in h.home && q in Next(h, a).home ==> Next(h, a).home[q] == h.home[q]
  {
    StaysHandedOut(h, a, q);
    HomeAfter(h, a);
  }

  lemma SubscribedIsHandedOut<Q>(h: Hub<Q>, t: Topic, q: Q)
    ensures HandedOut(SubscribeStep(h, t, q), q) && q in SubscribeStep(h, t, q).home && SubscribeStep(h, t, q).home[q] == t
  {
  }

  /** A queue is in the list of the topic it subscribed to from then on exactly until it unsubscribes from it. */
  lemma {:induction false} ListedUntilItLeaves<Q>(hs: seq<Hub<Q>>, acts: seq<Action<Q>>, n: nat, m: nat, t: Topic, q: Q)
    requires IsRun(hs, acts) && n < m <= |acts| && acts[n] == Subscribe(t, q)
    ensures HandedOut(hs[m], q)
    ensures q in hs[m].home <==> forall i :: n < i < m ==> !(acts[i].Unsubscribe? && acts[i].q == q && acts[i].topic == t)
    ensures q in hs[m].home ==> hs[m].home[q] == t
  {
    assert StepAt(hs, acts, m - 1);
    if n < m - 1 {
      ListedUntilItLeaves(hs, acts, n, m - 1, t, q);
      StepKeepsHandedOut(hs[m - 1], acts[m - 1], q);
    } else {
      SubscribedIsHandedOut(hs[n], t, q);
    }
  }

  /** While connected and no send failed, a topic with queues goes unserved exactly when it was opened since
    * the snapshot, its opener has not taken its send step, and its subscription is not one that leaked.
    */
  lemma StarvedIffLate<Q>(hs: seq<Hub<Q>>, acts: seq<Action<Q>>, n: nat, t: Topic)
    requires IsRun(hs, acts) && n <= |acts|
    requires hs[n].connected && !hs[n].broken && t in hs[n].topics
    ensures t !in hs[n].upstream <==> t in hs[n].late && t !in hs[n].leaked
  {
    RunKeepsInv(hs, acts, n);
  }

  /** In every reachable state a topic marked subscribed has queues, and while the hub is connected and
    * no send failed a subscriber, opener or not, is served exactly when its topic is not late or leaked;
    * that of an opener that returned without timing out never is late.
    */
  lemma OpenedSubscribersAreServed<Q>(hs: seq<Hub<Q>>, acts: seq<Action<Q>>, n: nat)
    requires IsRun(hs, acts) && n <= |acts|
    ensures hs[n].subscribed <= hs[n].topics
    ensures hs[n].connected && !hs[n].broken ==>
              forall q :: q in hs[n].home ==>
                (hs[n].home[q] in hs[n].upstream <==> hs[n].home[q] !in hs[n].late || hs[n].home[q] in hs[n].leaked)
    ensures hs[n].connected && !hs[n].broken ==>
              forall q :: q in hs[n].home && q in hs[n].returned && hs[n].returned[q] == Opened ==> hs[n].home[q] in hs[n].upstream
  {
    RunKeepsInv(hs, acts, n);
    var h := hs[n];
    forall q | h.connected && !h.broken && q in h.home
      ensures h.home[q] in h.upstream <==> h.home[q] !in h.late || h.home[q] in h.leaked
    {
      StarvedIffLate(hs, acts, n, h.home[q]);
    }
  }

  /** While connected, a topic with queues that upstream does not send is one whose opener is ready to
    * take its send step, or timed out on this connection: there is no other way to starve.
    */
  lemma StarvedOnlyByTimeout<Q>(hs: seq<Hub<Q>>, acts: seq<Action<Q>>, n: nat, t: Topic)
    requires IsRun(hs, acts) && n <= |acts|
    requires hs[n].connected && !hs[n].broken && t in hs[n].topics && t !in hs[n].upstream
    ensures t in hs[n].missed
         || exists q :: q in hs[n].waiting && Enabled(hs[n], Wake(q, true)) && t in Next(hs[n], Wake(q, true)).upstream
  {
    RunKeepsInv(hs, acts, n);
    var h := hs[n];
    if t !in h.missed {
      var q :| q in h.waiting && q in h.home && h.home[q] == t;
      assert Enabled(h, Wake(q, true)) && t in Next(h, Wake(q, true)).upstream;
    }
  }

  /** A reconnect serves everybody who was there, openers that had timed out included: a queue present
    * at the snapshot and still present later on the same connection is subscribed once connected.
    */
  lemma ReconnectServesEveryone<Q>(hs: seq<Hub<Q>>, acts: seq<Action<Q>>, n: nat, m: nat, q: Q)
    requires IsRun(hs, acts) && n < m <= |acts|
    requires acts[n].Connect? && (forall i :: n < i < m ==> !acts[i].Connect?)
    requires q in hs[n].home && q in hs[m].home
    requires hs[m].connected && !hs[m].broken
    ensures hs[m].home[q] in hs[m].upstream
  {
    StaysCovered(hs, acts, n, m, q);
    RunKeepsInv(hs, acts, m);
  }

  lemma {:induction false} StaysCovered<Q>(hs: seq<Hub<Q>>, acts: seq<Action<Q>>, n: nat, m: nat, q: Q)
    requires IsRun(hs, acts) && n < m <= |acts|
    requires acts[n].Connect? && (forall i :: n < i < m ==> !acts[i].Connect?)
    requires q in hs[n].home
    ensures Settled(hs[m], q)
  {
    assert StepAt(hs, acts, m - 1);
    if m > n + 1 {
      StaysCovered(hs, acts, n, m - 1, q);
      RunKeepsInv(hs, acts, m - 1);
      StaysSettled(hs[m - 1], acts[m - 1], q);
    } else {
      RunKeepsInv(hs, acts, n);
    }
  }

  /** A queue that was handed out, whose topic, if it still has one, is not late. */
  ghost predicate Settled<Q>(h: Hub<Q>, q: Q) {
    (q in h.waiting || q in h.returned) && (q in h.home ==> h.home[q] !in h.late)
  }

  lemma StaysSettled<Q>(h: Hub<Q>, a: Action<Q>, q: Q)
    requires Shape(h) && Enabled(h, a) && !a.Connect? && Settled(h, q)
    ensures Settled(Next(h, a), q)
  {
    match a
    case Subscribe(t, x) => SubscribeStaysSettled(h, t, x, q);
    case Unsubscribe(t, x, sent) => UnsubscribeStaysSettled(h, t, x, sent, q);
    case _ =>
  }

  lemma SubscribeStaysSettled<Q>(h: Hub<Q>, t: Topic, x: Q, q: Q)
    requires Shape(h) && x !in h.waiting && x !in h.returned && Settled(h, q)
    ensures Settled(SubscribeStep(h, t, x), q)
  {
  }

  lemma UnsubscribeStaysSettled<Q>(h: Hub<Q>, t: Topic, x: Q, sent: bool, q: Q)
    requires Settled(h, q)
    ensures Settled(UnsubscribeStep(h, t, x, sent), q)
  {
    LeavingStaysSettled(h, t, x, q);
    DroppingStaysSettled(Left(h, t, x), t, sent, q);
  }

  lemma LeavingStaysSettled<Q>(h: Hub<Q>, t: Topic, x: Q, q: Q)
    requires Settled(h, q)
    ensures Settled(Left(h, t, x), q)
  {
  }

  lemma DroppingStaysSettled<Q>(h: Hub<Q>, t: Topic, sent: bool, q: Q)
    requires Settled(h, q)
    ensures Settled(Dropped(h, t, sent), q)
  {
  }

  /** While connected and no send failed, upstream sends for nobody exactly the topics that were dropped
    * between the snapshot and the connected event and have no queue again.
    */
  lemma LeaksExactlyHandshakeDrops<Q>(hs: seq<Hub<Q>>, acts: seq<Action<Q>>, n: nat)
    requires IsRun(hs, acts) && n <= |acts| && hs[n].connected && !hs[n].broken
    ensures hs[n].upstream - hs[n].topics == hs[n].leaked - hs[n].topics
  {
    RunKeepsInv(hs, acts, n);
  }

  /** What an unbroken connection carries: at most the topics with queues and those that leaked, and once
    * connected exactly the topics that are not late together with those that leaked.
    */
  lemma UpstreamIsTopicsAndLeaks<Q>(hs: seq<Hub<Q>>, acts: seq<Action<Q>>, n: nat)
    requires IsRun(hs, acts) && n <= |acts| && hs[n].wsOpen && !hs[n].broken
    ensures hs[n].upstream <= hs[n].topics + hs[n].leaked
    ensures hs[n].connected ==> hs[n].upstream == (hs[n].topics - hs[n].late) + hs[n].leaked
  {
    RunKeepsInv(hs, acts, n);
    CarriesTopicsAndLeaks(hs[n]);
  }

  lemma CarriesTopicsAndLeaks<Q>(h: Hub<Q>)
    requires Inv(h) && h.wsOpen && !h.broken
    ensures h.upstream <= h.topics + h.leaked
    ensures h.connected ==> h.upstream == (h.topics - h.late) + h.leaked
  {
  }

  // ----- Where the naive claims fail -----------------------------------------------------------------

  lemma RunGrows<Q>(hs: seq<Hub<Q>>, acts: seq<Action<Q>>, a: Action<Q>)
    requires IsRun(hs, acts) && Enabled(hs[|acts|], a)
    ensures IsRun(hs + [Next(hs[|acts|], a)], acts + [a])
  {
    var gs, bs := hs + [Next(hs[|acts|], a)], acts + [a];
    forall i: nat | i < |bs|
      ensures StepAt(gs, bs, i)
    {
      if i < |acts| {
        assert StepAt(hs, acts, i);
      }
    }
  }

  /** A topic opened after the snapshot whose opener times out before the connected event stays
    * unsubscribed on a healthy connection, although it has a queue and nobody waits any more.
    */
  lemma TimedOutSubscriberStarves() returns (hs: seq<Hub<nat>>, acts: seq<Action<nat>>)
    ensures IsRun(hs, acts)
    ensures var h := hs[|acts|];
            && h.connected && !h.broken && h.waiting == {} && 2 !in h.returned
            && 1 in h.home && h.home[1] == "b" && "b" in h.topics && "b" !in h.upstream
  {
    var h0 := Initial<nat>();
    var h1 := SubscribeStep(h0, "a", 0);
    var h2 := TimeOutStep(h1, 0);
    var h3 := ConnectStep(h2);
    var h4 := SubscribeStep(h3, "b", 1);
    var h5 := TimeOutStep(h4, 1);
    var h6 := SendNextStep(h5, "a", true);
    var h7 := SetConnectedStep(h6);
    acts := [Subscribe("a", 0), TimeOut(0), Connect, Subscribe("b", 1), TimeOut(1), SendNext("a", true), SetConnected];
    hs := [h0, h1, h2, h3, h4, h5, h6, h7];
    assert h6.outbox == {} && h7.upstream == {"a"} && h7.waiting == {} && h7.home[1] == "b";
    forall i: nat | i < |acts|
      ensures StepAt(hs, acts, i)
    {
    }
  }

  /** A subscriber that joins such a topic returns at once, without any time limit, and starves with it:
    * nobody waits, and nobody is going to send.
    */
  lemma JoinedSubscriberStarves() returns (hs: seq<Hub<nat>>, acts: seq<Action<nat>>)
    ensures IsRun(hs, acts)
    ensures var h := hs[|acts|];
            && h.connected && !h.broken && h.waiting == {}
            && 2 in h.home && 2 in h.returned && h.returned[2] == Joined && h.home[2] !in h.upstream
  {
    hs, acts := TimedOutSubscriberStarves();
    var a := Subscribe("b", 2);
    RunGrows(hs, acts, a);
    hs, acts := hs + [Next(hs[|acts|], a)], acts + [a];
  }

  /** An unsubscribe between the snapshot and the connected event sends nothing, so upstream goes on
    * sending a topic nobody has a queue for.
    */
  lemma HandshakeDropLeaks() returns (hs: seq<Hub<nat>>, acts: seq<Action<nat>>)
    ensures IsRun(hs, acts)
    ensures var h := hs[|acts|]; h.connected && !h.broken && h.topics == {} && h.upstream != {}
  {
    var h0 := Initial<nat>();
    var h1 := SubscribeStep(h0, "a", 0);
    var h2 := TimeOutStep(h1, 0);
    var h3 := ConnectStep(h2);
    var h4 := UnsubscribeStep(h3, "a", 0, true);
    var h5 := SendNextStep(h4, "a", true);
    var h6 := SetConnectedStep(h5);
    acts := [Subscribe("a", 0), TimeOut(0), Connect, Unsubscribe("a", 0, true), SendNext("a", true), SetConnected];
    hs := [h0, h1, h2, h3, h4, h5, h6];
    assert !HasQueue(Left(h3, "a", 0), "a");
    assert h4.topics == {} && h5.outbox == {} && "a" in h6.upstream;
    forall i: nat | i < |acts|
      ensures StepAt(hs, acts, i)
    {
    }
  }
}
