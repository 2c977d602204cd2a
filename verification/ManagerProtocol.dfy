/** The service's stream manager: one upstream handler per stream key, many clients per handler.
  *
  * A step is what runs between two suspensions: a lock body never suspends, `task.cancel()` follows
  * its lock body at once, and a cancelled handler resumes only with the cancellation, so the block
  * that removes dead clients runs only in a handler nobody cancelled. Shutdown is not a step.
  */
module ManagerProtocol {
  type Key = string
  type Client = nat
  type Task = nat

  /** Where a handler coroutine is suspended. `Sending` remembers the clients it is sending to. */
  datatype Phase = Created | Streaming | Sending(audience: set<Client>) | Finished

  datatype Handler = Handler(key: Key, phase: Phase, cancelled: bool)

  /** `active` and `tasks` are the manager's two tables. `handlers` are all handlers ever created,
    * `owner` the handler in whose bucket a client was put, `closing` the clients a close was issued
    * for, `gone` those that unsubscribed.
    */
  datatype Manager = Manager(active: map<Key, set<Client>>, tasks: map<Key, Task>, handlers: map<Task, Handler>,
                             owner: map<Client, Task>, closing: set<Client>, gone: set<Client>)

  datatype Action =
    | Subscribe(key: Key, client: Client, task: Task)
    | Unsubscribe(key: Key, client: Client)
    | Start(task: Task)
    | NeverStarts(task: Task)
    | Item(task: Task)
    | Sent(task: Task, dead: set<Client>)
    | End(task: Task)

  const INITIAL: Manager := Manager(map[], map[], map[], map[], {}, {})

  // ----- The steps -----------------------------------------------------------------------------------

  /** `task` is the fresh handler the call creates if it has to. */
  function SubscribeStep(m: Manager, k: Key, c: Client, t: Task): Manager {
    if k in m.active && k in m.tasks then
      m.(active := m.active[k := m.active[k] + {c}], owner := m.owner[c := m.tasks[k]])
    else
      m.(active := m.active[k := {c}], tasks := m.tasks[k := t],
         handlers := m.handlers[t := Handler(k, Created, false)], owner := m.owner[c := t])
  }

  function Cancel(handlers: map<Task, Handler>, t: Task): map<Task, Handler> {
    if t in handlers then handlers[t := handlers[t].(cancelled := true)] else handlers
  }

  function UnsubscribeStep(m: Manager, k: Key, c: Client): Manager {
    var left := m.(gone := m.gone + {c});
    if k !in m.active then left
    else if m.active[k] - {c} != {} then left.(active := m.active[k := m.active[k] - {c}])
    else left.(active := m.active - {k}, tasks := m.tasks - {k},
               handlers := if k in m.tasks then Cancel(m.handlers, m.tasks[k]) else m.handlers)
  }

  function Moved(m: Manager, t: Task, phase: Phase): Manager
    requires t in m.handlers
  {
    m.(handlers := m.handlers[t := m.handlers[t].(phase := phase)])
  }

  /** The handler's `finally`: only the registered handler tears its bucket down and closes it. */
  function Finalised(m: Manager, t: Task): Manager
    requires t in m.handlers
  {
    var k, done := m.handlers[t].key, Moved(m, t, Finished);
    if k in m.tasks && m.tasks[k] == t then
      done.(tasks := m.tasks - {k}, active := m.active - {k},
            closing := m.closing + if k in m.active then m.active[k] else {})
    else done
  }

  function ItemStep(m: Manager, t: Task): Manager
    requires t in m.handlers
  {
    var k := m.handlers[t].key;
    if k !in m.active || m.active[k] == {} then Finalised(m, t) else Moved(m, t, Sending(m.active[k]))
  }

  /** The sends are done; `dead` are those that failed. */
  function SentStep(m: Manager, t: Task, dead: set<Client>): Manager
    requires t in m.handlers
  {
    var k, closed := m.handlers[t].key, m.(closing := m.closing + dead);
    if dead == {} || k !in m.active then Moved(closed, t, Streaming)
    else if m.active[k] - dead != {} then Moved(closed.(active := m.active[k := m.active[k] - dead]), t, Streaming)
    else Finalised(closed.(active := m.active - {k}, tasks := m.tasks - {k}), t)
  }

  predicate At(m: Manager, t: Task, cancelled: bool) {
    t in m.handlers && m.handlers[t].cancelled == cancelled
  }

  predicate Enabled(m: Manager, a: Action) {
    match a
    case Subscribe(k, c, t) => t !in m.handlers && c !in m.owner
    case Unsubscribe(k, c) => c in m.owner && m.owner[c] in m.handlers && m.handlers[m.owner[c]].key == k
    case Start(t) => At(m, t, false) && m.handlers[t].phase == Created
    case NeverStarts(t) => At(m, t, true) && m.handlers[t].phase == Created
    case Item(t) => At(m, t, false) && m.handlers[t].phase == Streaming
    case Sent(t, dead) => At(m, t, false) && m.handlers[t].phase.Sending? && dead <= m.handlers[t].phase.audience
    // the stream ends or raises, the channel is unknown, or the cancellation arrives
    case End(t) => t in m.handlers && m.handlers[t].phase != Finished &&
                   (m.handlers[t].cancelled ==> m.handlers[t].phase != Created) &&
                   (m.handlers[t].phase.Sending? ==> m.handlers[t].cancelled)
  }

  function Next(m: Manager, a: Action): Manager
    requires Enabled(m, a)
  {
    match a
    case Subscribe(k, c, t) => SubscribeStep(m, k, c, t)
    case Unsubscribe(k, c) => UnsubscribeStep(m, k, c)
    case Start(t) => Moved(m, t, Streaming)
    case NeverStarts(t) => Moved(m, t, Finished)
    case Item(t) => ItemStep(m, t)
    case Sent(t, dead) => SentStep(m, t, dead)
    case End(t) => Finalised(m, t)
  }

  // ----- What every step keeps -------------------------------------------------------------------------

  /** The handler can still send. */
  predicate Live(m: Manager, t: Task) {
    t in m.handlers && !m.handlers[t].cancelled && m.handlers[t].phase != Finished
  }

  /** One table entry per live handler and no empty bucket. */
  ghost predicate Registered(m: Manager) {
    && m.active.Keys == m.tasks.Keys
    && (forall k :: k in m.active ==> m.active[k] != {})
    && (forall k :: k in m.tasks ==> Live(m, m.tasks[k]) && m.handlers[m.tasks[k]].key == k)
    && (forall t :: Live(m, t) ==> m.handlers[t].key in m.tasks && m.tasks[m.handlers[t].key] == t)
  }

  /** Buckets and audiences hold only clients of their own handler. */
  ghost predicate Owned(m: Manager) {
    && (forall k, c :: k in m.active && c in m.active[k] ==> c in m.owner && k in m.tasks && m.owner[c] == m.tasks[k])
    && (forall t, c :: t in m.handlers && m.handlers[t].phase.Sending? && c in m.handlers[t].phase.audience
          ==> c in m.owner && m.owner[c] == t)
    && (forall c :: c in m.owner ==> m.owner[c] in m.handlers)
  }

  /** A client is in the bucket of its own handler's key. */
  predicate InBucket(m: Manager, c: Client) {
    c in m.owner && m.owner[c] in m.handlers &&
    var k := m.handlers[m.owner[c]].key;
    k in m.active && c in m.active[k]
  }

  ghost predicate NoOrphans(m: Manager) {
    forall c :: c in m.owner ==> c in m.gone || c in m.closing || InBucket(m, c)
  }

  ghost predicate Inv(m: Manager) {
    Registered(m) && Owned(m) && NoOrphans(m)
  }

  lemma SubscribeKeepsRegistered(m: Manager, k: Key, c: Client, t: Task)
    requires Registered(m) && t !in m.handlers
    ensures Registered(SubscribeStep(m, k, c, t))
  {
  }

  lemma SubscribeKeepsOwned(m: Manager, k: Key, c: Client, t: Task)
    requires Registered(m) && Owned(m) && t !in m.handlers && c !in m.owner
    ensures Owned(SubscribeStep(m, k, c, t))
  {
  }

  lemma SubscribeKeepsNoOrphans(m: Manager, k: Key, c: Client, t: Task)
    requires Inv(m) && t !in m.handlers && c !in m.owner
    ensures NoOrphans(SubscribeStep(m, k, c, t))
    ensures InBucket(SubscribeStep(m, k, c, t), c)
  {
    var g := SubscribeStep(m, k, c, t);
    assert forall x :: InBucket(m, x) ==> InBucket(g, x);
  }

  lemma UnsubscribeKeepsRegistered(m: Manager, k: Key, c: Client)
    requires Registered(m)
    ensures Registered(UnsubscribeStep(m, k, c))
  {
  }

  lemma UnsubscribeKeepsOwned(m: Manager, k: Key, c: Client)
    requires Registered(m) && Owned(m)
    ensures Owned(UnsubscribeStep(m, k, c))
  {
  }

  /** Clients that keep their bucket or were taken care of leave nobody orphaned. */
  lemma StillNoOrphans(m: Manager, g: Manager)
    requires NoOrphans(m) && g.owner == m.owner && m.gone <= g.gone && m.closing <= g.closing
    requires forall x :: InBucket(m, x) ==> x in g.gone || x in g.closing || InBucket(g, x)
    ensures NoOrphans(g)
  {
  }

  lemma UnsubscribeKeepsNoOrphans(m: Manager, k: Key, c: Client)
    requires Inv(m)
    ensures NoOrphans(UnsubscribeStep(m, k, c))
  {
    var g := UnsubscribeStep(m, k, c);
    forall x | InBucket(m, x)
      ensures x in g.gone || InBucket(g, x)
    {
      if x != c { UnsubscribeKeepsOthers(m, k, c, x); }
    }
    StillNoOrphans(m, g);
  }

  lemma UnsubscribeKeepsOthers(m: Manager, k: Key, c: Client, x: Client)
    requires Registered(m) && InBucket(m, x) && x != c
    ensures InBucket(UnsubscribeStep(m, k, c), x)
  {
    assert k in m.active && x in m.active[k] ==> x in m.active[k] - {c};
  }

  lemma FinalisingKeepsOwned(m: Manager, t: Task)
    requires Owned(m) && t in m.handlers
    ensures Owned(Finalised(m, t))
  {
  }

  lemma FinalisingKeepsInv(m: Manager, t: Task)
    requires Inv(m) && t in m.handlers
    ensures Inv(Finalised(m, t))
  {
    var g := Finalised(m, t);
    FinalisingKeepsRegistered(m, t);
    FinalisingKeepsOwned(m, t);
    assert forall x :: InBucket(m, x) ==> InBucket(g, x) || x in g.closing;
    StillNoOrphans(m, g);
  }

  lemma FinalisingKeepsRegistered(m: Manager, t: Task)
    requires Registered(m) && t in m.handlers
    ensures Registered(Finalised(m, t))
  {
  }

  lemma MovingKeepsOwned(m: Manager, t: Task, phase: Phase)
    requires Registered(m) && Owned(m) && t in m.handlers
    requires phase.Sending? ==> Live(m, t) && phase.audience == m.active[m.handlers[t].key]
    ensures Owned(Moved(m, t, phase))
  {
  }

  lemma MovingKeepsInv(m: Manager, t: Task, phase: Phase)
    requires Inv(m) && t in m.handlers && m.handlers[t].phase != Finished
    requires phase != Finished || m.handlers[t].cancelled
    requires phase.Sending? ==> Live(m, t) && phase.audience == m.active[m.handlers[t].key]
    ensures Inv(Moved(m, t, phase))
  {
    var g := Moved(m, t, phase);
    MovingKeepsRegistered(m, t, phase);
    MovingKeepsOwned(m, t, phase);
    assert forall x :: InBucket(m, x) ==> InBucket(g, x);
    StillNoOrphans(m, g);
  }

  lemma MovingKeepsRegistered(m: Manager, t: Task, phase: Phase)
    requires Registered(m) && t in m.handlers && m.handlers[t].phase != Finished
    requires phase != Finished || m.handlers[t].cancelled
    ensures Registered(Moved(m, t, phase))
  {
    assert forall x :: Live(m, x) <==> Live(Moved(m, t, phase), x);
  }

  /** Closes were issued for `dead`, and they leave a bucket that keeps somebody. */
  function Shrunk(m: Manager, k: Key, dead: set<Client>): Manager
    requires k in m.active
  {
    m.(closing := m.closing + dead, active := m.active[k := m.active[k] - dead])
  }

  lemma ShrinkingKeepsRegistered(m: Manager, k: Key, dead: set<Client>)
    requires Registered(m) && k in m.active && m.active[k] - dead != {}
    ensures Registered(Shrunk(m, k, dead))
  {
    assert forall x :: Live(Shrunk(m, k, dead), x) <==> Live(m, x);
  }

  lemma ShrinkingKeepsOwned(m: Manager, k: Key, dead: set<Client>)
    requires Owned(m) && k in m.active
    ensures Owned(Shrunk(m, k, dead))
  {
  }

  lemma ShrinkingKeepsInv(m: Manager, k: Key, dead: set<Client>)
    requires Inv(m) && k in m.active && m.active[k] - dead != {}
    ensures Inv(Shrunk(m, k, dead))
  {
    var g := Shrunk(m, k, dead);
    ShrinkingKeepsRegistered(m, k, dead);
    ShrinkingKeepsOwned(m, k, dead);
    forall x | InBucket(m, x)
      ensures x in g.closing || InBucket(g, x)
    {
      assert x in m.active[k] && x !in dead ==> x in g.active[k];
    }
    StillNoOrphans(m, g);
  }

  lemma ClosingKeepsInv(m: Manager, dead: set<Client>)
    requires Inv(m)
    ensures Inv(m.(closing := m.closing + dead))
  {
    var g := m.(closing := m.closing + dead);
    assert forall x :: Live(g, x) <==> Live(m, x);
    assert forall x :: InBucket(m, x) ==> InBucket(g, x);
  }

  /** When every client of the bucket is dead the block's two unguarded pops remove the handler's own
    * entries, so the block does what the `finally` would have done.
    */
  lemma EmptyingIsFinalising(m: Manager, t: Task, dead: set<Client>)
    requires Registered(m) && Live(m, t)
    requires var k := m.handlers[t].key; dead != {} && m.active[k] - dead == {}
    ensures SentStep(m, t, dead) == Finalised(m.(closing := m.closing + dead), t)
  {
    var bucket := m.active[m.handlers[t].key];
    assert forall c :: c in bucket ==> c in dead || c in bucket - dead;
    assert m.closing + dead + bucket == m.closing + dead;
  }

  lemma SentKeepsInv(m: Manager, t: Task, dead: set<Client>)
    requires Inv(m) && Live(m, t)
    ensures Inv(SentStep(m, t, dead))
  {
    var k := m.handlers[t].key;
    ClosingKeepsInv(m, dead);
    var closed := m.(closing := m.closing + dead);
    if dead == {} {
      MovingKeepsInv(closed, t, Streaming);
    } else if m.active[k] - dead != {} {
      ShrinkingKeepsInv(m, k, dead);
      MovingKeepsInv(closed.(active := m.active[k := m.active[k] - dead]), t, Streaming);
    } else {
      EmptyingIsFinalising(m, t, dead);
      FinalisingKeepsInv(closed, t);
    }
  }

  lemma StepKeepsInv(m: Manager, a: Action)
    requires Inv(m) && Enabled(m, a)
    ensures Inv(Next(m, a))
  {
    match a
    case Subscribe(k, c, t) =>
      SubscribeKeepsRegistered(m, k, c, t);
      SubscribeKeepsOwned(m, k, c, t);
      SubscribeKeepsNoOrphans(m, k, c, t);
    case Unsubscribe(k, c) =>
      UnsubscribeKeepsRegistered(m, k, c);
      UnsubscribeKeepsOwned(m, k, c);
      UnsubscribeKeepsNoOrphans(m, k, c);
    case Start(t) => MovingKeepsInv(m, t, Streaming);
    case NeverStarts(t) => MovingKeepsInv(m, t, Finished);
    case Item(t) => MovingKeepsInv(m, t, Sending(m.active[m.handlers[t].key]));
    case Sent(t, dead) => SentKeepsInv(m, t, dead);
    case End(t) => FinalisingKeepsInv(m, t);
  }

  // ----- Who is served -----------------------------------------------------------------------------------

  /** None of `out` is in a bucket. */
  ghost predicate OutOf(active: map<Key, set<Client>>, out: set<Client>) {
    forall k, c :: k in active && c in active[k] ==> c !in out
  }

  /** Whoever left, or had a close issued, was admitted once and is in no bucket. */
  ghost predicate GoneAreOut(m: Manager) {
    m.gone <= m.owner.Keys && m.closing <= m.owner.Keys && OutOf(m.active, m.gone) && OutOf(m.active, m.closing)
  }

  /** A client is only in the bucket of its own handler's key. */
  lemma OnlyInOwnBucket(m: Manager, k: Key, c: Client)
    requires Registered(m) && Owned(m) && k in m.active && c in m.active[k]
    ensures c in m.owner && m.owner[c] in m.handlers && m.handlers[m.owner[c]].key == k
    ensures k in m.tasks && m.owner[c] == m.tasks[k]
  {
  }

  lemma SubscribeKeepsGoneOut(m: Manager, k: Key, c: Client, t: Task)
    requires GoneAreOut(m) && c !in m.owner
    ensures GoneAreOut(SubscribeStep(m, k, c, t))
  {
  }

  /** What a client that leaves changes: its own bucket, and a bucket it empties goes with its entry. */
  lemma UnsubscribeTables(m: Manager, k: Key, c: Client)
    ensures var g := UnsubscribeStep(m, k, c);
            && g.gone == m.gone + {c} && g.closing == m.closing && g.owner == m.owner
            && if k !in m.active then g.active == m.active && g.tasks == m.tasks
               else if m.active[k] <= {c} then g.active == m.active - {k} && g.tasks == m.tasks - {k}
               else g.active == m.active[k := m.active[k] - {c}] && g.tasks == m.tasks
  {
    if k in m.active && m.active[k] - {c} == {} {
      assert forall d :: d in m.active[k] && d != c ==> d in m.active[k] - {c};
    }
  }

  lemma LeavingABucket(active: map<Key, set<Client>>, k: Key, c: Client, after: map<Key, set<Client>>, j: Key, d: Client)
    requires if k !in active then after == active
             else if active[k] <= {c} then after == active - {k} else after == active[k := active[k] - {c}]
    requires j in after && d in after[j]
    ensures j in active && d in active[j] && (j == k ==> d != c)
  {
  }

  /** Whoever is still in a bucket is not the one that left: a client is only ever in its own key's bucket. */
  lemma StillInABucket(m: Manager, k: Key, c: Client, j: Key, d: Client)
    requires Registered(m) && Owned(m) && GoneAreOut(m) && j in m.active && d in m.active[j] && (j == k ==> d != c)
    requires c in m.owner && m.owner[c] in m.handlers && m.handlers[m.owner[c]].key == k
    ensures d !in m.gone + {c} && d !in m.closing
  {
    OnlyInOwnBucket(m, j, d);
  }

  lemma LeaverIsOut(m: Manager, k: Key, c: Client, after: map<Key, set<Client>>)
    requires Registered(m) && Owned(m) && GoneAreOut(m)
    requires c in m.owner && m.owner[c] in m.handlers && m.handlers[m.owner[c]].key == k
    requires if k !in m.active then after == m.active
             else if m.active[k] <= {c} then after == m.active - {k} else after == m.active[k := m.active[k] - {c}]
    ensures OutOf(after, m.gone + {c}) && OutOf(after, m.closing)
  {
    forall j, d | j in after && d in after[j]
      ensures d !in m.gone + {c} && d !in m.closing
    {
      LeavingABucket(m.active, k, c, after, j, d);
      StillInABucket(m, k, c, j, d);
    }
  }

  lemma UnsubscribeKeepsGoneOut(m: Manager, k: Key, c: Client)
    requires Registered(m) && Owned(m) && GoneAreOut(m)
    requires c in m.owner && m.owner[c] in m.handlers && m.handlers[m.owner[c]].key == k
    ensures GoneAreOut(UnsubscribeStep(m, k, c))
  {
    UnsubscribeTables(m, k, c);
    LeaverIsOut(m, k, c, UnsubscribeStep(m, k, c).active);
  }

  lemma MovingKeepsGoneOut(m: Manager, t: Task, phase: Phase)
    requires GoneAreOut(m) && t in m.handlers
    ensures GoneAreOut(Moved(m, t, phase))
  {
  }

  lemma FinalisingKeepsGoneOut(m: Manager, t: Task)
    requires Registered(m) && Owned(m) && GoneAreOut(m) && t in m.handlers
    ensures GoneAreOut(Finalised(m, t))
  {
    var k, g := m.handlers[t].key, Finalised(m, t);
    forall j, d | j in g.active && d in g.active[j]
      ensures d !in g.closing
    {
      OnlyInOwnBucket(m, j, d);
      if k in m.active && d in m.active[k] { OnlyInOwnBucket(m, k, d); }
    }
  }

  lemma ShrinkingKeepsGoneOut(m: Manager, k: Key, dead: set<Client>)
    requires Registered(m) && Owned(m) && GoneAreOut(m) && k in m.tasks && k in m.active
    requires forall c :: c in dead ==> c in m.owner && m.owner[c] == m.tasks[k]
    ensures GoneAreOut(Shrunk(m, k, dead))
  {
    var g := Shrunk(m, k, dead);
    forall j, d | j in g.active && d in g.active[j]
      ensures d !in g.gone && d !in g.closing
    {
      assert d in m.active[j];
      OnlyInOwnBucket(m, j, d);
    }
  }

  /** The dead of a bucket that empties leave with it. */
  lemma EmptyingKeepsGoneOut(m: Manager, t: Task, dead: set<Client>)
    requires Registered(m) && Owned(m) && GoneAreOut(m) && Live(m, t)
    requires forall c :: c in dead ==> c in m.owner && m.owner[c] == t
    requires m.active[m.handlers[t].key] - dead == {}
    ensures GoneAreOut(Finalised(m.(closing := m.closing + dead), t))
  {
    var k, g := m.handlers[t].key, Finalised(m.(closing := m.closing + dead), t);
    forall j, d | j in g.active && d in g.active[j]
      ensures d !in g.closing && d !in g.gone
    {
      OnlyInOwnBucket(m, j, d);
    }
  }

  lemma SentKeepsGoneOut(m: Manager, t: Task, dead: set<Client>)
    requires Registered(m) && Owned(m) && GoneAreOut(m) && Live(m, t)
    requires m.handlers[t].phase.Sending? && dead <= m.handlers[t].phase.audience
    ensures GoneAreOut(SentStep(m, t, dead))
  {
    var k := m.handlers[t].key;
    assert m.tasks[k] == t;
    if dead == {} {
      assert m.closing + dead == m.closing;
      MovingKeepsGoneOut(m, t, Streaming);
    } else if m.active[k] - dead != {} {
      ShrinkingKeepsGoneOut(m, k, dead);
      MovingKeepsGoneOut(Shrunk(m, k, dead), t, Streaming);
    } else {
      EmptyingIsFinalising(m, t, dead);
      EmptyingKeepsGoneOut(m, t, dead);
    }
  }

  lemma StepKeepsGoneOut(m: Manager, a: Action)
    requires Inv(m) && GoneAreOut(m) && Enabled(m, a)
    ensures GoneAreOut(Next(m, a))
  {
    match a
    case Subscribe(k, c, t) => SubscribeKeepsGoneOut(m, k, c, t);
    case Unsubscribe(k, c) => UnsubscribeKeepsGoneOut(m, k, c);
    case Start(t) => MovingKeepsGoneOut(m, t, Streaming);
    case NeverStarts(t) => MovingKeepsGoneOut(m, t, Finished);
    case Item(t) => MovingKeepsGoneOut(m, t, Sending(m.active[m.handlers[t].key]));
    case Sent(t, dead) => SentKeepsGoneOut(m, t, dead);
    case End(t) => FinalisingKeepsGoneOut(m, t);
  }

  // ----- Runs --------------------------------------------------------------------------------------------

  /** `ms[i]` is the manager after the first `i` actions of the interleaving `acts`. */
  ghost predicate IsRun(ms: seq<Manager>, acts: seq<Action>) {
    && |ms| == |acts| + 1
    && ms[0] == INITIAL
    && forall i :: 0 <= i < |acts| ==> StepAt(ms, acts, i)
  }

  ghost predicate StepAt(ms: seq<Manager>, acts: seq<Action>, i: nat)
    requires i < |acts| && |ms| == |acts| + 1
  {
    Enabled(ms[i], acts[i]) && ms[i + 1] == Next(ms[i], acts[i])
  }

  lemma {:induction false} RunKeepsInv(ms: seq<Manager>, acts: seq<Action>, n: nat)
    requires IsRun(ms, acts) && n <= |acts|
    ensures Inv(ms[n])
  {
    if n > 0 {
      RunKeepsInv(ms, acts, n - 1);
      assert StepAt(ms, acts, n - 1);
      StepKeepsInv(ms[n - 1], acts[n - 1]);
    }
  }

  /** In every reachable state the two tables have the same keys, no bucket is empty, and the
    * registered handler is the only one that can still send for its key.
    */
  lemma OneLiveHandlerPerStream(ms: seq<Manager>, acts: seq<Action>, n: nat)
    requires IsRun(ms, acts) && n <= |acts|
    ensures ms[n].active.Keys == ms[n].tasks.Keys
    ensures forall k :: k in ms[n].active ==> ms[n].active[k] != {}
    ensures forall t :: Live(ms[n], t) <==> t in ms[n].tasks.Values
    ensures forall t, u :: Live(ms[n], t) && Live(ms[n], u) && ms[n].handlers[t].key == ms[n].handlers[u].key ==> t == u
  {
    RunKeepsInv(ms, acts, n);
    var m := ms[n];
    forall t | Live(m, t)
      ensures t in m.tasks.Values
    {
      assert m.tasks[m.handlers[t].key] == t;
    }
  }

  /** The client is in the bucket of a live handler, the one it was admitted under. */
  predicate Served(m: Manager, c: Client) {
    && c in m.owner && Live(m, m.owner[c])
    && var k := m.handlers[m.owner[c]].key;
    k in m.tasks && m.tasks[k] == m.owner[c] && k in m.active && c in m.active[k]
  }

  /** Every client that was handed an id and has not unsubscribed is in the bucket of its live handler,
    * or a close was issued for it: neither dead clients nor a stream's end orphan anybody.
    */
  lemma NobodyIsOrphaned(ms: seq<Manager>, acts: seq<Action>, n: nat, c: Client)
    requires IsRun(ms, acts) && n <= |acts|
    requires c in ms[n].owner && c !in ms[n].gone
    ensures c in ms[n].closing || Served(ms[n], c)
  {
    RunKeepsInv(ms, acts, n);
  }

  lemma {:induction false} RunKeepsGoneOut(ms: seq<Manager>, acts: seq<Action>, n: nat)
    requires IsRun(ms, acts) && n <= |acts|
    ensures GoneAreOut(ms[n])
  {
    if n > 0 {
      RunKeepsGoneOut(ms, acts, n - 1);
      RunKeepsInv(ms, acts, n - 1);
      assert StepAt(ms, acts, n - 1);
      StepKeepsGoneOut(ms[n - 1], acts[n - 1]);
    }
  }

  /** In every reachable state the clients served are exactly those that were admitted, have not left and had
    * no close issued, and each of them is in one bucket only, that of the stream it asked for.
    */
  lemma ServedExactly(ms: seq<Manager>, acts: seq<Action>, n: nat, c: Client)
    requires IsRun(ms, acts) && n <= |acts|
    ensures Served(ms[n], c) <==> c in ms[n].owner && c !in ms[n].gone && c !in ms[n].closing
    ensures forall k :: k in ms[n].active && c in ms[n].active[k] ==> Served(ms[n], c) && ms[n].handlers[ms[n].owner[c]].key == k
  {
    RunKeepsInv(ms, acts, n);
    RunKeepsGoneOut(ms, acts, n);
    forall k | k in ms[n].active && c in ms[n].active[k]
      ensures Served(ms[n], c) && ms[n].handlers[ms[n].owner[c]].key == k
    {
      OnlyInOwnBucket(ms[n], k, c);
    }
  }

  /** A client that unsubscribed is recorded as gone from then on. */
  lemma {:induction false} LeaverStaysGone(ms: seq<Manager>, acts: seq<Action>, n: nat, m: nat, k: Key, c: Client)
    requires IsRun(ms, acts) && n < m <= |acts| && acts[n] == Unsubscribe(k, c)
    ensures c in ms[m].gone
  {
    assert StepAt(ms, acts, m - 1);
    if n < m - 1 {
      LeaverStaysGone(ms, acts, n, m - 1, k, c);
    }
  }

  /** Nobody who unsubscribed is in any bucket afterwards, nor among those a later item is sent to; a stream
    * whose clients have all left is gone, with its handler cancelled.
    */
  lemma LeaversAreNotServed(ms: seq<Manager>, acts: seq<Action>, n: nat, m: nat, k: Key, c: Client)
    requires IsRun(ms, acts) && n < m <= |acts| && acts[n] == Unsubscribe(k, c)
    ensures forall j :: j in ms[m].active ==> c !in ms[m].active[j] && exists d :: d in ms[m].active[j] && d !in ms[m].gone
    ensures forall t :: m < |acts| && acts[m] == Item(t) && t in ms[m + 1].handlers && ms[m + 1].handlers[t].phase.Sending? ==>
              c !in ms[m + 1].handlers[t].phase.audience
  {
    LeaverStaysGone(ms, acts, n, m, k, c);
    RunKeepsInv(ms, acts, m);
    RunKeepsGoneOut(ms, acts, m);
    forall j | j in ms[m].active
      ensures exists d :: d in ms[m].active[j] && d !in ms[m].gone
    {
      var d :| d in ms[m].active[j];
    }
    if m < |acts| {
      assert StepAt(ms, acts, m);
    }
  }

  /** Which handler takes the step, if one does. */
  predicate ByHandler(a: Action, t: Task) {
    match a
    case Start(u) => u == t
    case NeverStarts(u) => u == t
    case Item(u) => u == t
    case Sent(u, _) => u == t
    case End(u) => u == t
    case _ => false
  }

  /** Everybody the handler is sending to was admitted under it. */
  ghost predicate SendsToOwn(m: Manager, t: Task) {
    t in m.handlers && m.handlers[t].phase.Sending? ==>
      forall c :: c in m.handlers[t].phase.audience ==> c in m.owner && m.owner[c] == t
  }

  lemma OtherStreamsUntouched(m: Manager, a: Action, t: Task, k: Key)
    requires Registered(m) && Enabled(m, a) && ByHandler(a, t)
    requires k in m.tasks && m.tasks[k] != t
    ensures k in m.active
    ensures var g := Next(m, a); k in g.tasks && g.tasks[k] == m.tasks[k] && k in g.active && g.active[k] == m.active[k]
  {
    assert Live(m, t) ==> m.handlers[t].key != k;
  }

  lemma AlwaysSendsToOwn(ms: seq<Manager>, acts: seq<Action>, n: nat, t: Task)
    requires IsRun(ms, acts) && n <= |acts|
    ensures SendsToOwn(ms[n], t)
  {
    RunKeepsInv(ms, acts, n);
  }

  /** A step of a handler leaves every stream it is not registered for as it is, and it is only ever
    * sending to clients that were admitted under it: an old handler neither tears down nor feeds a
    * successor's bucket.
    */
  lemma HandlersMindTheirOwnBucket(ms: seq<Manager>, acts: seq<Action>, n: nat, t: Task, k: Key)
    requires IsRun(ms, acts) && n < |acts| && ByHandler(acts[n], t)
    requires k in ms[n].tasks && ms[n].tasks[k] != t
    ensures k in ms[n + 1].tasks && ms[n + 1].tasks[k] == ms[n].tasks[k]
    ensures k in ms[n].active && k in ms[n + 1].active && ms[n + 1].active[k] == ms[n].active[k]
    ensures SendsToOwn(ms[n + 1], t)
  {
    RunKeepsInv(ms, acts, n);
    assert StepAt(ms, acts, n);
    OtherStreamsUntouched(ms[n], acts[n], t, k);
    AlwaysSendsToOwn(ms, acts, n + 1, t);
  }

  /** The handler's own look for an empty bucket never fires. */
  lemma BucketIsThereForEveryItem(ms: seq<Manager>, acts: seq<Action>, n: nat, t: Task)
    requires IsRun(ms, acts) && n < |acts| && acts[n] == Item(t)
    ensures t in ms[n + 1].handlers && ms[n + 1].handlers[t].phase.Sending? && ms[n + 1].handlers[t].phase.audience != {}
  {
    RunKeepsInv(ms, acts, n);
    assert StepAt(ms, acts, n);
    assert Live(ms[n], t);
  }
}
