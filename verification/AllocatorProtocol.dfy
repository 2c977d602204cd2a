/** Hyperliquid's topic allocator: at most ten hubs of at most nine hundred topics, reference-counted.
  *
  * A holder is one running `_ws_connect` generator. It acquires its topic, puts a queue into the hub it
  * was given, takes the queue out again and releases the topic; other holders' steps fall in between.
  */
module AllocatorProtocol {
  type Topic = string
  type Arg = string
  type Holder = nat

  const MAX_SUBS_PER_HUB := 900
  const MAX_HUBS := 10

  /** What a live holder holds; `queued` while its queue is in the hub. */
  datatype Hold = Hold(topic: Topic, hub: nat, queued: bool)

  /** `hubs[i]` are the topics of slot `i`. */
  datatype Alloc = Alloc(hubs: seq<set<Topic>>, hubOf: map<Topic, nat>, args: map<Topic, Arg>, refs: map<Topic, int>,
                         holders: map<Holder, Hold>)

  datatype Action =
    | Acquire(holder: Holder, topic: Topic, arg: Arg)
    | Enqueue(holder: Holder)
    | Dequeue(holder: Holder)
    | Release(holder: Holder)

  const INITIAL: Alloc := Alloc([], map[], map[], map[], map[])

  /** The first slot with room, or the number of slots. */
  function FirstFree(hubs: seq<set<Topic>>): (i: nat)
    ensures i <= |hubs|
    ensures i < |hubs| ==> |hubs[i]| < MAX_SUBS_PER_HUB
    ensures forall j :: 0 <= j < i ==> |hubs[j]| >= MAX_SUBS_PER_HUB
  {
    if hubs == [] || |hubs[0]| < MAX_SUBS_PER_HUB then 0 else 1 + FirstFree(hubs[1..])
  }

  /** No slot has room and no hub may be added: the capacity error. */
  predicate Rejects(s: Alloc, t: Topic) {
    t !in s.hubOf && FirstFree(s.hubs) == |s.hubs| && |s.hubs| >= MAX_HUBS
  }

  /** The topic in a slot: an old slot with room, or a new one. */
  function Placed(s: Alloc, t: Topic): Alloc {
    var i := FirstFree(s.hubs);
    if t in s.hubOf then s
    else if i < |s.hubs| then s.(hubs := s.hubs[i := s.hubs[i] + {t}], hubOf := s.hubOf[t := i])
    else s.(hubs := s.hubs + [{t}], hubOf := s.hubOf[t := i])
  }

  function RefCount(s: Alloc, t: Topic): int {
    if t in s.refs then s.refs[t] else 0
  }

  function AcquireStep(s: Alloc, x: Holder, t: Topic, arg: Arg): Alloc {
    if Rejects(s, t) then s
    else
      var p := Placed(s, t);
      if t !in p.hubOf then p
      else p.(args := s.args[t := arg], refs := s.refs[t := RefCount(s, t) + 1],
              holders := s.holders[x := Hold(t, p.hubOf[t], false)])
  }

  function QueueStep(s: Alloc, x: Holder, queued: bool): Alloc
    requires x in s.holders
  {
    s.(holders := s.holders[x := s.holders[x].(queued := queued)])
  }

  function ReleaseStep(s: Alloc, x: Holder): Alloc
    requires x in s.holders
  {
    var t, n := s.holders[x].topic, RefCount(s, s.holders[x].topic) - 1;
    var left := s.(holders := s.holders - {x}, refs := s.refs[t := n]);
    if n > 0 then left
    else if t in s.hubOf && s.hubOf[t] < |s.hubs| then
      left.(refs := s.refs - {t}, args := s.args - {t}, hubOf := s.hubOf - {t},
            hubs := s.hubs[s.hubOf[t] := s.hubs[s.hubOf[t]] - {t}])
    else left.(refs := s.refs - {t}, args := s.args - {t}, hubOf := s.hubOf - {t})
  }

  predicate Enabled(s: Alloc, a: Action) {
    match a
    case Acquire(x, _, _) => x !in s.holders
    case Enqueue(x) => x in s.holders && !s.holders[x].queued
    case Dequeue(x) => x in s.holders && s.holders[x].queued
    case Release(x) => x in s.holders && !s.holders[x].queued
  }

  function Next(s: Alloc, a: Action): Alloc
    requires Enabled(s, a)
  {
    match a
    case Acquire(x, t, arg) => AcquireStep(s, x, t, arg)
    case Enqueue(x) => QueueStep(s, x, true)
    case Dequeue(x) => QueueStep(s, x, false)
    case Release(x) => ReleaseStep(s, x)
  }

  // ----- What every step keeps ---------------------------------------------------------------------------

  ghost predicate Capped(hubs: seq<set<Topic>>) {
    |hubs| <= MAX_HUBS && forall i :: 0 <= i < |hubs| ==> |hubs[i]| <= MAX_SUBS_PER_HUB
  }

  predicate In(hubs: seq<set<Topic>>, i: int, t: Topic) {
    0 <= i < |hubs| && t in hubs[i]
  }

  /** A topic is in the slot it is assigned to and in no other. */
  ghost predicate Assigned(hubs: seq<set<Topic>>, hubOf: map<Topic, nat>) {
    forall i, t :: In(hubs, i, t) <==> t in hubOf && hubOf[t] == i
  }

  function HoldersOf(holders: map<Holder, Hold>, t: Topic): set<Holder> {
    set x | x in holders && holders[x].topic == t
  }

  /** The reference count is the number of live holders, and it is never zero. */
  ghost predicate Counted(refs: map<Topic, int>, holders: map<Holder, Hold>) {
    && (forall t :: t in refs ==> refs[t] == |HoldersOf(holders, t)| && refs[t] >= 1)
    && (forall x :: x in holders ==> holders[x].topic in refs)
  }

  /** Every live holder's hub is the one its topic is assigned to. */
  ghost predicate Fixed(hubOf: map<Topic, nat>, holders: map<Holder, Hold>) {
    forall x :: x in holders ==> holders[x].topic in hubOf && hubOf[holders[x].topic] == holders[x].hub
  }

  ghost predicate Inv(s: Alloc) {
    && Capped(s.hubs) && Assigned(s.hubs, s.hubOf) && Counted(s.refs, s.holders) && Fixed(s.hubOf, s.holders)
    && s.hubOf.Keys == s.refs.Keys && s.args.Keys == s.refs.Keys
  }

  lemma PlacingKeepsCap(s: Alloc, t: Topic)
    requires Capped(s.hubs) && !Rejects(s, t)
    ensures Capped(Placed(s, t).hubs)
  {
  }

  lemma PlacingKeepsAssigned(s: Alloc, t: Topic)
    requires Assigned(s.hubs, s.hubOf)
    ensures Assigned(Placed(s, t).hubs, Placed(s, t).hubOf)
    ensures Placed(s, t).hubOf == if t in s.hubOf then s.hubOf else s.hubOf[t := FirstFree(s.hubs)]
  {
    var g, f := Placed(s, t), FirstFree(s.hubs);
    forall i, u
      ensures In(g.hubs, i, u) <==> u in g.hubOf && g.hubOf[u] == i
    {
      if t !in s.hubOf {
        assert In(g.hubs, i, u) <==> In(s.hubs, i, u) || (u == t && i == f);
        assert In(s.hubs, i, u) <==> u in s.hubOf && s.hubOf[u] == i;
      }
    }
  }

  lemma AddingCounts(refs: map<Topic, int>, holders: map<Holder, Hold>, x: Holder, hold: Hold)
    requires Counted(refs, holders) && x !in holders
    ensures Counted(refs[hold.topic := (if hold.topic in refs then refs[hold.topic] else 0) + 1], holders[x := hold])
  {
    var t, after := hold.topic, holders[x := hold];
    assert HoldersOf(after, t) == HoldersOf(holders, t) + {x};
    forall u | u != t
      ensures HoldersOf(after, u) == HoldersOf(holders, u)
    {
    }
    assert t !in refs ==> HoldersOf(holders, t) == {};
  }

  lemma AddingStaysFixed(hubOf: map<Topic, nat>, holders: map<Holder, Hold>, after: map<Topic, nat>, x: Holder, hold: Hold)
    requires Fixed(hubOf, holders) && forall t :: t in hubOf ==> t in after && after[t] == hubOf[t]
    requires hold.topic in after && after[hold.topic] == hold.hub
    ensures Fixed(after, holders[x := hold])
  {
  }

  /** An acquisition in terms of the tables it changes. */
  lemma AcquireTables(s: Alloc, x: Holder, t: Topic, arg: Arg)
    requires !Rejects(s, t)
    ensures var p, g := Placed(s, t), AcquireStep(s, x, t, arg);
            && t in p.hubOf && g.hubs == p.hubs && g.hubOf == p.hubOf
            && g.hubOf.Keys == s.hubOf.Keys + {t}
            && g.args == s.args[t := arg] && g.refs == s.refs[t := RefCount(s, t) + 1]
            && g.holders == s.holders[x := Hold(t, p.hubOf[t], false)]
  {
  }

  lemma AcquireKeepsInv(s: Alloc, x: Holder, t: Topic, arg: Arg)
    requires Inv(s) && x !in s.holders
    ensures Inv(AcquireStep(s, x, t, arg))
  {
    if !Rejects(s, t) {
      PlacingKeepsCap(s, t);
      PlacingKeepsAssigned(s, t);
      AcquireTables(s, x, t, arg);
      var hubOf := Placed(s, t).hubOf;
      AddingCounts(s.refs, s.holders, x, Hold(t, hubOf[t], false));
      AddingStaysFixed(s.hubOf, s.holders, hubOf, x, Hold(t, hubOf[t], false));
    }
  }

  /** A release in terms of the tables it changes. */
  lemma ReleaseTables(s: Alloc, x: Holder)
    requires Inv(s) && x in s.holders
    ensures var t, g := s.holders[x].topic, ReleaseStep(s, x);
            && t in s.refs && t in s.hubOf && s.hubOf[t] < |s.hubs| && g.holders == s.holders - {x}
            && (if s.refs[t] > 1 then
                  g.refs == s.refs[t := s.refs[t] - 1] && g.args == s.args && g.hubOf == s.hubOf && g.hubs == s.hubs
                else
                  g.refs == s.refs - {t} && g.args == s.args - {t} && g.hubOf == s.hubOf - {t}
                  && g.hubs == s.hubs[s.hubOf[t] := s.hubs[s.hubOf[t]] - {t}])
  {
    var t := s.holders[x].topic;
    assert In(s.hubs, s.hubOf[t], t);
  }

  lemma QueueKeepsInv(s: Alloc, x: Holder, queued: bool)
    requires Inv(s) && x in s.holders
    ensures Inv(QueueStep(s, x, queued))
  {
    QueueCounts(s.refs, s.holders, x, queued);
  }

  lemma QueueCounts(refs: map<Topic, int>, holders: map<Holder, Hold>, x: Holder, queued: bool)
    requires Counted(refs, holders) && x in holders
    ensures Counted(refs, holders[x := holders[x].(queued := queued)])
  {
    var after := holders[x := holders[x].(queued := queued)];
    forall u
      ensures HoldersOf(after, u) == HoldersOf(holders, u)
    {
    }
  }

  lemma RemovingCounts(refs: map<Topic, int>, holders: map<Holder, Hold>, x: Holder)
    requires Counted(refs, holders) && x in holders
    ensures var t := holders[x].topic;
            Counted(if refs[t] > 1 then refs[t := refs[t] - 1] else refs - {t}, holders - {x})
  {
    var t, after := holders[x].topic, holders - {x};
    assert x in HoldersOf(holders, t);
    assert HoldersOf(after, t) == HoldersOf(holders, t) - {x};
    forall u | u != t
      ensures HoldersOf(after, u) == HoldersOf(holders, u)
    {
    }
    if refs[t] == 1 {
      assert HoldersOf(after, t) == {};
      assert forall y :: y in after && after[y].topic == t ==> y in HoldersOf(after, t);
    }
  }

  lemma ReleasingKeepsAssigned(hubs: seq<set<Topic>>, hubOf: map<Topic, nat>, t: Topic)
    requires Assigned(hubs, hubOf) && Capped(hubs) && t in hubOf
    ensures hubOf[t] < |hubs|
    ensures Assigned(hubs[hubOf[t] := hubs[hubOf[t]] - {t}], hubOf - {t})
    ensures Capped(hubs[hubOf[t] := hubs[hubOf[t]] - {t}])
  {
    var k := hubOf[t];
    assert In(hubs, k, t);
    var after := hubs[k := hubs[k] - {t}];
    forall i, u
      ensures In(after, i, u) <==> u in hubOf - {t} && (hubOf - {t})[u] == i
    {
      assert In(hubs, i, u) <==> u in hubOf && hubOf[u] == i;
    }
    assert |hubs[k] - {t}| <= |hubs[k]|;
  }

  lemma ReleaseKeepsInv(s: Alloc, x: Holder)
    requires Inv(s) && x in s.holders
    ensures Inv(ReleaseStep(s, x))
  {
    var t := s.holders[x].topic;
    RemovingCounts(s.refs, s.holders, x);
    ReleasingKeepsAssigned(s.hubs, s.hubOf, t);
    if s.refs[t] == 1 {
      var after := s.holders - {x};
      assert forall y :: y in after ==> after[y].topic in s.refs - {t};
    }
  }

  lemma StepKeepsInv(s: Alloc, a: Action)
    requires Inv(s) && Enabled(s, a)
    ensures Inv(Next(s, a))
  {
    match a
    case Acquire(x, t, arg) => AcquireKeepsInv(s, x, t, arg);
    case Enqueue(x) => QueueKeepsInv(s, x, true);
    case Dequeue(x) => QueueKeepsInv(s, x, false);
    case Release(x) => ReleaseKeepsInv(s, x);
  }

  // ----- Runs ------------------------------------------------------------------------------------------------

  /** `ss[i]` is the allocator after the first `i` actions of the interleaving `acts`. */
  ghost predicate IsRun(ss: seq<Alloc>, acts: seq<Action>) {
    && |ss| == |acts| + 1
    && ss[0] == INITIAL
    && forall i :: 0 <= i < |acts| ==> StepAt(ss, acts, i)
  }

  ghost predicate StepAt(ss: seq<Alloc>, acts: seq<Action>, i: nat)
    requires i < |acts| && |ss| == |acts| + 1
  {
    Enabled(ss[i], acts[i]) && ss[i + 1] == Next(ss[i], acts[i])
  }

  lemma {:induction false} RunKeepsInv(ss: seq<Alloc>, acts: seq<Action>, n: nat)
    requires IsRun(ss, acts) && n <= |acts|
    ensures Inv(ss[n])
  {
    if n > 0 {
      RunKeepsInv(ss, acts, n - 1);
      assert StepAt(ss, acts, n - 1);
      StepKeepsInv(ss[n - 1], acts[n - 1]);
    }
  }

  /** The topics that have a queue in hub `i`. */
  function QueuedIn(s: Alloc, i: nat): set<Topic> {
    set x | x in s.holders && s.holders[x].queued && s.holders[x].hub == i :: s.holders[x].topic
  }

  /** In every reachable state there are at most ten hubs of at most nine hundred topics each, no topic
    * is in two of them, and a topic's reference count is the number of its live holders.
    */
  lemma HubsStayWithinTheCaps(ss: seq<Alloc>, acts: seq<Action>, n: nat)
    requires IsRun(ss, acts) && n <= |acts|
    ensures |ss[n].hubs| <= 10 && forall i :: 0 <= i < |ss[n].hubs| ==> |ss[n].hubs[i]| <= 900
    ensures forall i, j :: 0 <= i < j < |ss[n].hubs| ==> ss[n].hubs[i] !! ss[n].hubs[j]
    ensures forall t :: t in ss[n].refs <==> HoldersOf(ss[n].holders, t) != {}
    ensures forall t :: t in ss[n].refs ==> ss[n].refs[t] == |HoldersOf(ss[n].holders, t)|
  {
    RunKeepsInv(ss, acts, n);
    var s := ss[n];
    forall i, j | 0 <= i < j < |s.hubs|
      ensures s.hubs[i] !! s.hubs[j]
    {
      forall t | t in s.hubs[i]
        ensures t !in s.hubs[j]
      {
        assert In(s.hubs, i, t);
        assert !In(s.hubs, j, t);
      }
    }
    forall t
      ensures t in s.refs <==> HoldersOf(s.holders, t) != {}
    {
      if t !in s.refs {
        assert forall x :: x in s.holders ==> s.holders[x].topic != t;
      }
    }
  }

  /** Composed with the hubs: a topic with a queue in a hub has its payload argument and is one of that
    * slot's topics, so no hub has more than nine hundred topics with queues.
    */
  lemma QueuedTopicsHavePayloads(ss: seq<Alloc>, acts: seq<Action>, n: nat, i: nat)
    requires IsRun(ss, acts) && n <= |acts|
    ensures forall t :: t in QueuedIn(ss[n], i) ==> t in ss[n].args
    ensures i < |ss[n].hubs| ==> QueuedIn(ss[n], i) <= ss[n].hubs[i] && |QueuedIn(ss[n], i)| <= MAX_SUBS_PER_HUB
    ensures i >= |ss[n].hubs| ==> QueuedIn(ss[n], i) == {}
  {
    RunKeepsInv(ss, acts, n);
    QueuedFit(ss[n], i);
  }

  lemma QueuedFit(s: Alloc, i: nat)
    requires Inv(s)
    ensures forall t :: t in QueuedIn(s, i) ==> t in s.args
    ensures i < |s.hubs| ==> QueuedIn(s, i) <= s.hubs[i]
    ensures i >= |s.hubs| ==> QueuedIn(s, i) == {}
    ensures |QueuedIn(s, i)| <= MAX_SUBS_PER_HUB
  {
    forall t | t in QueuedIn(s, i)
      ensures t in s.args && In(s.hubs, i, t)
    {
    }
    if i < |s.hubs| {
      SubsetIsSmaller(QueuedIn(s, i), s.hubs[i]);
    }
  }

  lemma SubsetIsSmaller<T>(a: set<T>, b: set<T>)
    requires a <= b
    ensures |a| <= |b|
  {
    assert b == a + (b - a);
  }

  /** While a holder lives its topic stays in the hub it was given, whatever the others do. */
  lemma {:induction false} HeldTopicKeepsItsHub(ss: seq<Alloc>, acts: seq<Action>, n: nat, m: nat, x: Holder)
    requires IsRun(ss, acts) && n <= m <= |acts|
    requires x in ss[n].holders && forall i :: n <= i < m ==> acts[i] != Release(x)
    ensures x in ss[m].holders && ss[m].holders[x].topic == ss[n].holders[x].topic && ss[m].holders[x].hub == ss[n].holders[x].hub
    ensures ss[n].holders[x].topic in ss[m].hubOf && ss[m].hubOf[ss[n].holders[x].topic] == ss[n].holders[x].hub
  {
    if n < m {
      HeldTopicKeepsItsHub(ss, acts, n, m - 1, x);
      assert StepAt(ss, acts, m - 1);
    }
    RunKeepsInv(ss, acts, m);
  }

  // ----- Capacity ----------------------------------------------------------------------------------------------

  /** The topics assigned to the first `k` slots. */
  function InFirst(s: Alloc, k: nat): set<Topic> {
    set t | t in s.hubOf && s.hubOf[t] < k
  }

  lemma {:induction false} FirstSlotsHold(s: Alloc, k: nat)
    requires Capped(s.hubs) && Assigned(s.hubs, s.hubOf) && k <= |s.hubs|
    ensures |InFirst(s, k)| <= k * MAX_SUBS_PER_HUB
    ensures |InFirst(s, k)| == k * MAX_SUBS_PER_HUB <==> forall i :: 0 <= i < k ==> |s.hubs[i]| == MAX_SUBS_PER_HUB
  {
    if k > 0 {
      FirstSlotsHold(s, k - 1);
      SlotsAdd(s, k - 1);
    } else {
      assert InFirst(s, 0) == {};
    }
  }

  lemma SlotsAdd(s: Alloc, k: nat)
    requires Assigned(s.hubs, s.hubOf) && k < |s.hubs|
    ensures |InFirst(s, k + 1)| == |InFirst(s, k)| + |s.hubs[k]|
  {
    assert forall t :: t in s.hubs[k] <==> In(s.hubs, k, t);
    assert InFirst(s, k + 1) == InFirst(s, k) + s.hubs[k];
    assert InFirst(s, k) !! s.hubs[k];
  }

  /** The capacity error is raised exactly for a topic nobody holds while nine thousand distinct topics
    * are held.
    */
  lemma CapacityErrorOnlyWhenFull(ss: seq<Alloc>, acts: seq<Action>, n: nat, t: Topic)
    requires IsRun(ss, acts) && n <= |acts|
    ensures |ss[n].hubOf| <= 9000
    ensures Rejects(ss[n], t) <==> t !in ss[n].refs && |ss[n].hubOf| == 9000
  {
    RunKeepsInv(ss, acts, n);
    var s := ss[n];
    FirstSlotsHold(s, |s.hubs|);
    AllInFirst(s);
    FreeSlots(s.hubs);
  }

  lemma AllInFirst(s: Alloc)
    requires Assigned(s.hubs, s.hubOf)
    ensures |InFirst(s, |s.hubs|)| == |s.hubOf|
  {
    forall t | t in s.hubOf
      ensures s.hubOf[t] < |s.hubs|
    {
      assert In(s.hubs, s.hubOf[t], t);
    }
    assert InFirst(s, |s.hubs|) == s.hubOf.Keys;
  }

  lemma FreeSlots(hubs: seq<set<Topic>>)
    requires Capped(hubs)
    ensures FirstFree(hubs) == |hubs| <==> forall i :: 0 <= i < |hubs| ==> |hubs[i]| == MAX_SUBS_PER_HUB
  {
  }
}
