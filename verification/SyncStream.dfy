/** The bounded buffer between the event-loop thread and a synchronous reader in `_LoopThread.iterate`.
  * The two threads interleave between any two queue operations, so `offer`, which tries to put, and on a full
  * queue gets the oldest and tries again, is several steps with the reader free to act in between.
  */
module SyncStream {
  datatype Item<M> = Message(m: M) | Failure | Sentinel

  /** Where the pump stands: awaiting the generator, about to put, about to evict, or done. `round` counts the
    * passes through the loop of `offer`.
    */
  datatype Pump<M> = Awaiting | Putting(item: Item<M>, round: nat) | Evicting(item: Item<M>, round: nat) | Done

  datatype Reader = Reading | Ended | Raised | Left

  /** An item that has left the queue, and whether the reader was the one who took it. */
  datatype Removal<M> = Removal(item: Item<M>, read: bool)

  /** The live state, and after it the two logs: what was put on the queue and what came off it. */
  datatype State<M> = State(items: seq<Item<M>>, pump: Pump<M>, reader: Reader, dropped: nat, yielded: seq<M>,
                            placed: seq<Item<M>>, removed: seq<Removal<M>>)

  datatype Action<M> =
    | Produce(m: M)  // the generator yields
    | Fail           // the generator raises
    | Exhaust        // the generator ends, or the pump is cancelled while it awaits
    | PumpStep       // the pump's next queue operation
    | Get            // the reader's blocking get returns
    | Leave          // the reader stops iterating

  function Initial<M>(): State<M> {
    State([], Awaiting, Reading, 0, [], [], [])
  }

  function AfterPut<M>(item: Item<M>): Pump<M> {
    match item
    case Message(_) => Awaiting
    case Failure => Putting(Sentinel, 1)
    case Sentinel => Done
  }

  function Put<M>(cap: nat, s: State<M>): State<M>
    requires s.pump.Putting?
  {
    if |s.items| < cap then
      s.(items := s.items + [s.pump.item], placed := s.placed + [s.pump.item], pump := AfterPut(s.pump.item))
    else s.(pump := Evicting(s.pump.item, s.pump.round))
  }

  function Evict<M>(s: State<M>): State<M>
    requires s.pump.Evicting?
  {
    var again := s.(pump := Putting(s.pump.item, s.pump.round + 1));
    if s.items == [] then again
    else again.(items := s.items[1..], dropped := s.dropped + 1, removed := s.removed + [Removal(s.items[0], false)])
  }

  function Taken<M>(s: State<M>): State<M>
    requires s.items != []
  {
    var rest := s.(items := s.items[1..], removed := s.removed + [Removal(s.items[0], true)]);
    match s.items[0]
    case Message(m) => rest.(yielded := s.yielded + [m])
    case Failure => rest.(reader := Raised)
    case Sentinel => rest.(reader := Ended)
  }

  /** One step; an action that is not possible in `s` changes nothing. */
  function Step<M>(cap: nat, s: State<M>, a: Action<M>): State<M> {
    match a
    case Produce(m) => if s.pump.Awaiting? then s.(pump := Putting(Message(m), 1)) else s
    case Fail => if s.pump.Awaiting? then s.(pump := Putting(Failure, 1)) else s
    case Exhaust => if s.pump.Awaiting? then s.(pump := Putting(Sentinel, 1)) else s
    case PumpStep => if s.pump.Putting? then Put(cap, s) else if s.pump.Evicting? then Evict(s) else s
    case Get => if s.reader.Reading? && s.items != [] then Taken(s) else s
    case Leave => if s.reader.Reading? then s.(reader := Left) else s
  }

  function Play<M>(cap: nat, acts: seq<Action<M>>): State<M> {
    if acts == [] then Initial() else Step(cap, Play(cap, acts[..|acts| - 1]), acts[|acts| - 1])
  }

  // ----- What every run keeps -----------------------------------------------------------------------------

  function YieldedFrom<M>(removed: seq<Removal<M>>): seq<M> {
    if removed == [] then []
    else
      var before, r := YieldedFrom(removed[..|removed| - 1]), removed[|removed| - 1];
      if r.read && r.item.Message? then before + [r.item.m] else before
  }

  /** Where in `removed` the reader's k-th message stands. */
  function Position<M>(removed: seq<Removal<M>>, k: nat): (i: nat)
    requires k < |YieldedFrom(removed)|
    ensures i < |removed| && removed[i] == Removal(Message(YieldedFrom(removed)[k]), true)
  {
    var n := |removed| - 1;
    if k < |YieldedFrom(removed[..n])| then Position(removed[..n], k) else n
  }

  lemma {:induction false} PositionsIncrease<M>(removed: seq<Removal<M>>, j: nat, k: nat)
    requires j < k < |YieldedFrom(removed)|
    ensures Position(removed, j) < Position(removed, k)
  {
    var n := |removed| - 1;
    if k < |YieldedFrom(removed[..n])| {
      PositionsIncrease(removed[..n], j, k);
    }
  }

  function EvictedFrom<M>(removed: seq<Removal<M>>): nat {
    if removed == [] then 0
    else EvictedFrom(removed[..|removed| - 1]) + if removed[|removed| - 1].read then 0 else 1
  }

  /** What was put is what came off followed by what is still there, in order. */
  ghost predicate Ledger<M>(s: State<M>) {
    && |s.placed| == |s.removed| + |s.items|
    && (forall i :: 0 <= i < |s.removed| ==> s.removed[i].item == s.placed[i])
    && s.items == s.placed[|s.removed|..]
  }

  ghost predicate Accounts<M>(s: State<M>) {
    && s.yielded == YieldedFrom(s.removed) && s.dropped == EvictedFrom(s.removed)
    && |s.yielded| + s.dropped + (if s.reader.Ended? || s.reader.Raised? then 1 else 0) == |s.removed|
  }

  /** `offer` never needs a third round: after an eviction nobody else can refill the queue. */
  ghost predicate TwoRounds<M>(cap: nat, s: State<M>) {
    && |s.items| <= cap
    && (s.pump.Putting? ==> s.pump.round == 1 || (s.pump.round == 2 && |s.items| < cap))
    && (s.pump.Evicting? ==> s.pump.round == 1)
  }

  ghost predicate OnlyMessages<M>(placed: seq<Item<M>>) {
    forall i :: 0 <= i < |placed| ==> placed[i].Message?
  }

  /** Messages, then perhaps a failure. */
  ghost predicate Closing<M>(placed: seq<Item<M>>) {
    forall i :: 0 <= i < |placed| ==> placed[i].Message? || (placed[i].Failure? && i == |placed| - 1)
  }

  /** Messages, then perhaps a failure, then the sentinel. */
  ghost predicate Closed<M>(placed: seq<Item<M>>) {
    && placed != [] && placed[|placed| - 1].Sentinel?
    && forall i :: 0 <= i < |placed| - 1 ==> placed[i].Message? || (placed[i].Failure? && i == |placed| - 2)
  }

  ghost predicate Shaped<M>(s: State<M>) {
    match s.pump
    case Awaiting => OnlyMessages(s.placed)
    case Putting(item, _) => if item.Sentinel? then Closing(s.placed) else OnlyMessages(s.placed)
    case Evicting(item, _) => if item.Sentinel? then Closing(s.placed) else OnlyMessages(s.placed)
    case Done => Closed(s.placed)
  }

  /** The reader has met a failure or the sentinel exactly when it stopped because of one; the sentinel is
    * never evicted.
    */
  ghost predicate Fates<M>(s: State<M>) {
    && (forall i :: 0 <= i < |s.removed| && s.removed[i].item.Sentinel? ==> s.removed[i].read && s.reader.Ended?)
    && (forall i :: 0 <= i < |s.removed| && s.removed[i].item.Failure? && s.removed[i].read ==> s.reader.Raised?)
    && (s.reader.Ended? ==> s.removed != [] && s.removed[|s.removed| - 1].item.Sentinel?)
    && (s.reader.Raised? ==> Removal(Failure, true) in s.removed)
  }

  ghost predicate Inv<M>(cap: nat, s: State<M>) {
    Ledger(s) && Accounts(s) && TwoRounds(cap, s) && Shaped(s) && Fates(s)
  }

  lemma PutKeepsInv<M>(cap: nat, s: State<M>)
    requires Inv(cap, s) && s.pump.Putting?
    ensures Inv(cap, Put(cap, s))
  {
    if |s.items| < cap {
      assert (s.placed + [s.pump.item])[|s.removed|..] == s.items + [s.pump.item];
    }
  }

  lemma RemovalIsLogged<M>(s: State<M>, s': State<M>, read: bool)
    requires Ledger(s) && s.items != []
    requires s'.items == s.items[1..] && s'.placed == s.placed && s'.removed == s.removed + [Removal(s.items[0], read)]
    ensures Ledger(s')
    ensures YieldedFrom(s'.removed) == if read && s.items[0].Message? then YieldedFrom(s.removed) + [s.items[0].m]
                                       else YieldedFrom(s.removed)
    ensures EvictedFrom(s'.removed) == EvictedFrom(s.removed) + if read then 0 else 1
  {
    assert s'.removed[..|s.removed|] == s.removed;
    assert s.items[0] == s.placed[|s.removed|];
    assert s.placed[|s.removed|..][1..] == s.placed[|s.removed| + 1..];
  }

  /** The item an eviction takes: never the sentinel, and the error only when it is alone. */
  lemma HeadOfEviction<M>(s: State<M>)
    requires Ledger(s) && Shaped(s) && s.pump.Evicting? && s.items != []
    ensures !s.items[0].Sentinel? && (s.items[0].Failure? <==> s.items == [Failure])
  {
    assert s.items[0] == s.placed[|s.removed|];
  }

  lemma EvictKeepsInv<M>(cap: nat, s: State<M>)
    requires Inv(cap, s) && s.pump.Evicting? && cap > 0
    ensures Inv(cap, Evict(s))
  {
    if s.items != [] {
      RemovalIsLogged(s, Evict(s), false);
      HeadOfEviction(s);
      EvictKeepsFates(s);
    }
  }

  lemma EvictKeepsFates<M>(s: State<M>)
    requires Fates(s) && s.pump.Evicting? && s.items != [] && !s.items[0].Sentinel?
    requires s.reader.Ended? ==> s.items == []
    ensures Fates(Evict(s))
  {
    if s.reader.Raised? {
      assert Removal(Failure, true) in s.removed + [Removal(s.items[0], false)];
    }
  }

  lemma TakenKeepsInv<M>(cap: nat, s: State<M>)
    requires Inv(cap, s) && s.items != [] && s.reader.Reading?
    ensures Inv(cap, Taken(s))
  {
    RemovalIsLogged(s, Taken(s), true);
    assert Taken(s).removed[|s.removed|] == Removal(s.items[0], true);
  }

  lemma StepKeepsInv<M>(cap: nat, s: State<M>, a: Action<M>)
    requires Inv(cap, s) && cap > 0
    ensures Inv(cap, Step(cap, s, a))
  {
    if a.PumpStep? && s.pump.Putting? {
      PutKeepsInv(cap, s);
    } else if a.PumpStep? && s.pump.Evicting? {
      EvictKeepsInv(cap, s);
    } else if a.Get? && s.reader.Reading? && s.items != [] {
      TakenKeepsInv(cap, s);
    }
  }

  lemma {:induction false} RunKeepsInv<M>(cap: nat, acts: seq<Action<M>>)
    requires cap > 0
    ensures Inv(cap, Play(cap, acts))
  {
    if acts != [] {
      RunKeepsInv(cap, acts[..|acts| - 1]);
      StepKeepsInv(cap, Play(cap, acts[..|acts| - 1]), acts[|acts| - 1]);
    }
  }

  // ----- Nothing is lost but what is dropped -----------------------------------------------------------------

  /** What the generator gave the pump to offer: its messages, its error, and the sentinel when it was over. */
  function Offered<M>(cap: nat, acts: seq<Action<M>>): seq<Item<M>> {
    if acts == [] then []
    else
      var front := acts[..|acts| - 1];
      Offered(cap, front) +
        if !Play(cap, front).pump.Awaiting? then []
        else
          match acts[|acts| - 1]
          case Produce(m) => [Message(m)]
          case Fail => [Failure, Sentinel]
          case Exhaust => [Sentinel]
          case _ => []
  }

  /** What the pump still has to put. */
  function Pending<M>(pump: Pump<M>): seq<Item<M>> {
    match pump
    case Awaiting => []
    case Putting(item, _) => if item.Failure? then [Failure, Sentinel] else [item]
    case Evicting(item, _) => if item.Failure? then [Failure, Sentinel] else [item]
    case Done => []
  }

  lemma Assoc<T>(a: seq<T>, b: seq<T>, c: seq<T>)
    ensures (a + b) + c == a + (b + c)
  {
  }

  lemma StepKeepsPending<M>(cap: nat, s: State<M>, a: Action<M>, fresh_: seq<Item<M>>)
    requires fresh_ == if !s.pump.Awaiting? then []
                       else match a case Produce(m) => [Message(m)] case Fail => [Failure, Sentinel] case Exhaust => [Sentinel] case _ => []
    ensures Step(cap, s, a).placed + Pending(Step(cap, s, a).pump) == s.placed + Pending(s.pump) + fresh_
  {
    if a.PumpStep? && s.pump.Putting? && |s.items| < cap {
      Assoc(s.placed, [s.pump.item], Pending(AfterPut(s.pump.item)));
    }
  }

  /** Every item the generator gave was put on the queue, in order, except those the pump still holds: an offer
    * that meets a full queue makes room and tries again.
    */
  lemma {:induction false} EverythingOfferedIsPlaced<M>(cap: nat, acts: seq<Action<M>>)
    ensures Offered(cap, acts) == Play(cap, acts).placed + Pending(Play(cap, acts).pump)
  {
    if acts != [] {
      var front, a := acts[..|acts| - 1], acts[|acts| - 1];
      EverythingOfferedIsPlaced(cap, front);
      var s := Play(cap, front);
      StepKeepsPending(cap, s, a,
        if !s.pump.Awaiting? then []
        else match a case Produce(m) => [Message(m)] case Fail => [Failure, Sentinel] case Exhaust => [Sentinel] case _ => []);
    }
  }

  /** Yielded, dropped, buffered, the one item that stopped the reader and what the pump still holds add up to what
    * the generator gave; the buffer is bounded; and the k-th yielded message is one that was given, at a place
    * `PositionsIncrease` shows to grow with k.
    */
  lemma EveryItemIsAccountedFor<M>(cap: nat, acts: seq<Action<M>>, k: nat)
    requires cap > 0
    ensures var s := Play(cap, acts);
            && |s.items| <= cap
            && |s.yielded| + s.dropped + |s.items| + (if s.reader.Ended? || s.reader.Raised? then 1 else 0)
                 + |Pending(s.pump)| == |Offered(cap, acts)|
            && s.yielded == YieldedFrom(s.removed) && |s.removed| <= |Offered(cap, acts)|
            && (k < |s.yielded| ==> Offered(cap, acts)[Position(s.removed, k)] == Message(s.yielded[k]))
  {
    RunKeepsInv(cap, acts);
    EverythingOfferedIsPlaced(cap, acts);
  }

  // ----- The error and the sentinel ---------------------------------------------------------------------------

  ghost predicate Lost<M>(s: State<M>) {
    Removal(Failure, false) in s.removed
  }

  /** Between the full queue it met and its eviction, the reader has drained everything but the error. */
  ghost predicate AboutToLose<M>(s: State<M>) {
    s.pump.Evicting? && s.items == [Failure]
  }

  /** An eviction takes the error exactly when the error is alone on the queue; it never takes the sentinel. */
  lemma EvictionTakesTheErrorWhenAlone<M>(cap: nat, s: State<M>)
    requires Inv(cap, s) && cap > 0 && s.pump.Evicting?
    ensures Lost(Evict(s)) <==> Lost(s) || s.items == [Failure]
    ensures Removal(Sentinel, false) !in Evict(s).removed
  {
    assert Removal(Sentinel, false) !in s.removed;
    if s.items != [] {
      HeadOfEviction(s);
      var e := Removal(s.items[0], false);
      assert Evict(s).removed == s.removed + [e];
      assert e in Evict(s).removed;
    }
  }

  lemma OnlyEvictionLoses<M>(cap: nat, s: State<M>, a: Action<M>)
    requires Inv(cap, s) && cap > 0
    ensures Lost(Step(cap, s, a)) <==> Lost(s) || (a.PumpStep? && AboutToLose(s))
  {
    if a.PumpStep? && s.pump.Evicting? {
      EvictionTakesTheErrorWhenAlone(cap, s);
    } else if a.Get? && s.reader.Reading? && s.items != [] {
      assert Taken(s).removed == s.removed + [Removal(s.items[0], true)];
    }
  }

  ghost predicate Raced<M>(cap: nat, acts: seq<Action<M>>) {
    exists i :: 0 <= i < |acts| && acts[i].PumpStep? && AboutToLose(Play(cap, acts[..i]))
  }

  lemma RacedGrows<M>(cap: nat, acts: seq<Action<M>>)
    requires acts != []
    ensures var n := |acts| - 1;
            Raced(cap, acts) <==> Raced(cap, acts[..n]) || (acts[n].PumpStep? && AboutToLose(Play(cap, acts[..n])))
  {
    var n := |acts| - 1;
    forall i | 0 <= i < n
      ensures acts[..n][..i] == acts[..i] && acts[..n][i] == acts[i]
    {
    }
    if Raced(cap, acts) {
      var i :| 0 <= i < |acts| && acts[i].PumpStep? && AboutToLose(Play(cap, acts[..i]));
      assert i < n ==> acts[..n][i].PumpStep? && AboutToLose(Play(cap, acts[..n][..i]));
    }
    if Raced(cap, acts[..n]) {
      var i :| 0 <= i < n && acts[..n][i].PumpStep? && AboutToLose(Play(cap, acts[..n][..i]));
      assert acts[i].PumpStep? && AboutToLose(Play(cap, acts[..i]));
    }
  }

  /** A run loses the error exactly when the pump evicts at a moment when the error is alone on the queue. */
  lemma {:induction false} LostIffRaced<M>(cap: nat, acts: seq<Action<M>>)
    requires cap > 0
    ensures Lost(Play(cap, acts)) <==> Raced(cap, acts)
  {
    if acts != [] {
      var n := |acts| - 1;
      LostIffRaced(cap, acts[..n]);
      RunKeepsInv(cap, acts[..n]);
      OnlyEvictionLoses(cap, Play(cap, acts[..n]), acts[n]);
      RacedGrows(cap, acts);
    }
  }

  // ----- The schedule that loses the error ---------------------------------------------------------------------

  function StateAt<M>(cap: nat, acts: seq<Action<M>>, n: nat): State<M>
    requires n <= |acts|
  {
    Play(cap, acts[..n])
  }

  lemma StateAfter<M>(cap: nat, acts: seq<Action<M>>, n: nat)
    requires n < |acts|
    ensures StateAt(cap, acts, n + 1) == Step(cap, StateAt(cap, acts, n), acts[n])
  {
    assert acts[..n + 1][..n] == acts[..n];
  }

  /** The reader takes an item at action `n`. */
  predicate TakesAt<M>(cap: nat, acts: seq<Action<M>>, n: nat)
    requires n < |acts|
  {
    var s := StateAt(cap, acts, n);
    acts[n].Get? && s.reader.Reading? && s.items != []
  }

  /** How many items the reader takes from action `i` up to, not including, action `j`. */
  function Reads<M>(cap: nat, acts: seq<Action<M>>, i: nat, j: nat): nat
    requires i <= j <= |acts|
    decreases j
  {
    if i == j then 0 else Reads(cap, acts, i, j - 1) + if TakesAt(cap, acts, j - 1) then 1 else 0
  }

  /** At action `i` a put finds the queue full, and the pump takes no step between `i` and `j`. */
  ghost predicate MetFull<M>(cap: nat, acts: seq<Action<M>>, i: nat, j: nat)
    requires i < j <= |acts|
  {
    && acts[i].PumpStep? && StateAt(cap, acts, i).pump.Putting? && |StateAt(cap, acts, i).items| == cap
    && forall n :: i < n < j ==> !acts[n].PumpStep?
  }

  /** Until the pump goes on to evict, only the reader changes the queue, from the front. */
  lemma {:induction false} OnlyReadsSince<M>(cap: nat, acts: seq<Action<M>>, i: nat, j: nat)
    requires i < j <= |acts| && MetFull(cap, acts, i, j)
    ensures StateAt(cap, acts, j).pump == Evicting(StateAt(cap, acts, i).pump.item, StateAt(cap, acts, i).pump.round)
    ensures Reads(cap, acts, i, j) <= cap
    ensures StateAt(cap, acts, j).items == StateAt(cap, acts, i).items[Reads(cap, acts, i, j)..]
    decreases j
  {
    StateAfter(cap, acts, j - 1);
    if i < j - 1 {
      OnlyReadsSince(cap, acts, i, j - 1);
    }
  }

  /** A pump that is about to evict met a full queue at its step before. */
  lemma {:induction false} EvictingMetFull<M>(cap: nat, acts: seq<Action<M>>, j: nat) returns (i: nat)
    requires cap > 0 && j <= |acts| && StateAt(cap, acts, j).pump.Evicting?
    ensures i < j && MetFull(cap, acts, i, j)
  {
    assert j > 0;
    StateAfter(cap, acts, j - 1);
    RunKeepsInv(cap, acts[..j - 1]);
    if StateAt(cap, acts, j - 1).pump.Evicting? {
      i := EvictingMetFull(cap, acts, j - 1);
    } else {
      i := j - 1;
    }
  }

  /** The offer of the sentinel meets a full queue with the error last on it, and the reader takes exactly the
    * `cap - 1` items in front of the error before the pump evicts.
    */
  ghost predicate Drained<M>(cap: nat, acts: seq<Action<M>>, i: nat, j: nat)
    requires i < j < |acts| && cap > 0
  {
    && MetFull(cap, acts, i, j) && acts[j].PumpStep?
    && StateAt(cap, acts, i).pump.item.Sentinel? && StateAt(cap, acts, i).items[cap - 1].Failure?
    && Reads(cap, acts, i, j) == cap - 1
  }

  lemma DrainedIsAboutToLose<M>(cap: nat, acts: seq<Action<M>>, i: nat, j: nat)
    requires i < j < |acts| && cap > 0 && MetFull(cap, acts, i, j) && acts[j].PumpStep?
    ensures AboutToLose(StateAt(cap, acts, j)) <==> Drained(cap, acts, i, j)
  {
    OnlyReadsSince(cap, acts, i, j);
    RunKeepsInv(cap, acts[..i]);
    var s, r := StateAt(cap, acts, i), Reads(cap, acts, i, j);
    if r == cap - 1 {
      assert s.items[r..] == [s.items[cap - 1]];
      if s.items[cap - 1].Failure? {
        assert s.items[cap - 1] in s.items;
        ErrorMeansSentinel(s);
      }
    } else {
      assert |s.items[r..]| != 1;
    }
  }

  lemma ErrorMeansSentinel<M>(s: State<M>)
    requires Ledger(s) && Shaped(s) && s.pump.Putting? && Failure in s.items
    ensures s.pump.item.Sentinel?
  {
    var i :| 0 <= i < |s.items| && s.items[i] == Failure;
    assert s.placed[|s.removed| + i] == Failure;
  }

  /** A run loses the error exactly when the offer of the sentinel meets a full queue with the error last on it
    * and, before the eviction that follows, the reader takes exactly the `cap - 1` items in front of the error.
    */
  lemma LostIffDrained<M>(cap: nat, acts: seq<Action<M>>)
    requires cap > 0
    ensures Lost(Play(cap, acts)) <==> exists i, j :: 0 <= i < j < |acts| && Drained(cap, acts, i, j)
  {
    LostIffRaced(cap, acts);
    if Raced(cap, acts) {
      var j :| 0 <= j < |acts| && acts[j].PumpStep? && AboutToLose(Play(cap, acts[..j]));
      var i := EvictingMetFull(cap, acts, j);
      DrainedIsAboutToLose(cap, acts, i, j);
      assert Drained(cap, acts, i, j);
    }
    if i, j :| 0 <= i < j < |acts| && Drained(cap, acts, i, j) {
      DrainedIsAboutToLose(cap, acts, i, j);
      assert acts[j].PumpStep? && AboutToLose(Play(cap, acts[..j]));
    }
  }

  /** When the reader's loop ends normally, the generator had failed exactly if the error was lost. */
  lemma NormalEndHidesOnlyLostErrors<M>(cap: nat, acts: seq<Action<M>>)
    requires cap > 0 && Play(cap, acts).reader.Ended?
    ensures Failure in Play(cap, acts).placed <==> Lost(Play(cap, acts))
  {
    RunKeepsInv(cap, acts);
    var s := Play(cap, acts);
    var n := |s.removed|;
    assert s.placed[n - 1].Sentinel?;
    if Failure in s.placed {
      var i :| 0 <= i < |s.placed| && s.placed[i] == Failure;
      assert s.removed[i].item == Failure;
      assert s.removed[i] == Removal(Failure, false);
    }
    if Lost(s) {
      var i :| 0 <= i < n && s.removed[i] == Removal(Failure, false);
      assert s.placed[i] == Failure;
    }
  }

  /** The reader takes nothing between a put that found the queue full and the eviction that follows. */
  ghost predicate OffersUndisturbed<M>(cap: nat, acts: seq<Action<M>>) {
    forall i :: 0 <= i < |acts| && acts[i].Get? ==> !Play(cap, acts[..i]).pump.Evicting?
  }

  lemma UndisturbedPrefix<M>(cap: nat, acts: seq<Action<M>>)
    requires acts != [] && OffersUndisturbed(cap, acts)
    ensures OffersUndisturbed(cap, acts[..|acts| - 1])
  {
    var front := acts[..|acts| - 1];
    forall i | 0 <= i < |front| && front[i].Get?
      ensures !Play(cap, front[..i]).pump.Evicting?
    {
      assert front[..i] == acts[..i] && front[i] == acts[i];
    }
  }

  /** An eviction that follows its full queue at once. */
  ghost predicate Fresh<M>(cap: nat, s: State<M>) {
    s.pump.Evicting? ==> |s.items| == cap
  }

  lemma UndisturbedStep<M>(cap: nat, s: State<M>, a: Action<M>)
    requires TwoRounds(cap, s) && Fresh(cap, s) && (a.Get? ==> !s.pump.Evicting?)
    ensures Fresh(cap, Step(cap, s, a))
  {
  }

  /** With room for two, an undisturbed `offer` never evicts the error. */
  lemma {:induction false} UndisturbedOffersKeepTheError<M>(cap: nat, acts: seq<Action<M>>)
    requires cap >= 2 && OffersUndisturbed(cap, acts)
    ensures !Lost(Play(cap, acts))
    ensures Fresh(cap, Play(cap, acts))
  {
    if acts != [] {
      var n := |acts| - 1;
      UndisturbedPrefix(cap, acts);
      UndisturbedOffersKeepTheError(cap, acts[..n]);
      RunKeepsInv(cap, acts[..n]);
      OnlyEvictionLoses(cap, Play(cap, acts[..n]), acts[n]);
      UndisturbedStep(cap, Play(cap, acts[..n]), acts[n]);
    }
  }

  // ----- No capacity rules the race out -----------------------------------------------------------------------

  lemma PlayOneMore<M>(cap: nat, acts: seq<Action<M>>, a: Action<M>)
    ensures Play(cap, acts + [a]) == Step(cap, Play(cap, acts), a)
  {
    assert (acts + [a])[..|acts|] == acts;
  }

  /** The reader is slow: `n` messages wait and nothing has been taken. */
  ghost predicate Waiting<M>(s: State<M>, n: nat) {
    s.pump.Awaiting? && s.reader.Reading? && |s.items| == n && OnlyMessages(s.items) && s.removed == []
  }

  lemma {:induction false} Fill<M>(cap: nat, n: nat, m: M) returns (acts: seq<Action<M>>)
    requires n <= cap
    ensures Waiting(Play(cap, acts), n)
  {
    acts := [];
    if n > 0 {
      var before := Fill(cap, n - 1, m);
      PlayOneMore(cap, before, Produce(m));
      PlayOneMore(cap, before + [Produce(m)], PumpStep);
      acts := before + [Produce(m)] + [PumpStep];
    }
  }

  /** The sentinel's offer has found the queue full, with the error last on it. */
  ghost predicate Cornered<M>(s: State<M>, n: nat) {
    && s.pump == Evicting(Sentinel, 1) && s.reader.Reading? && |s.items| == n + 1
    && s.items[n] == Failure && OnlyMessages(s.items[..n])
  }

  lemma Corner<M>(cap: nat, m: M) returns (acts: seq<Action<M>>)
    requires cap > 0
    ensures Cornered(Play(cap, acts), cap - 1)
  {
    var full := Fill(cap, cap - 1, m);
    PlayOneMore(cap, full, Fail);
    PlayOneMore(cap, full + [Fail], PumpStep);
    PlayOneMore(cap, full + [Fail] + [PumpStep], PumpStep);
    acts := full + [Fail] + [PumpStep] + [PumpStep];
    assert Play(cap, acts).items == Play(cap, full).items + [Failure];
    assert Play(cap, acts).items[..cap - 1] == Play(cap, full).items;
  }

  lemma {:induction false} Drain<M>(cap: nat, acts: seq<Action<M>>, n: nat) returns (more: seq<Action<M>>)
    requires Cornered(Play(cap, acts), n)
    ensures Cornered(Play(cap, more), 0)
    decreases n
  {
    more := acts;
    if n > 0 {
      var s := Play(cap, acts);
      assert s.items[0] == s.items[..n][0];
      assert s.items[1..][..n - 1] == s.items[..n][1..];
      PlayOneMore(cap, acts, Get);
      more := Drain(cap, acts + [Get], n - 1);
    }
  }

  /** Whatever the capacity, there is a run in which the generator fails, the error is evicted, and the reader
    * sees an ordinary end of stream.
    */
  lemma SomeRunLosesTheError<M>(cap: nat, m: M) returns (acts: seq<Action<M>>)
    requires cap > 0
    ensures Lost(Play(cap, acts)) && Play(cap, acts).reader.Ended?
  {
    var cornered := Corner(cap, m);
    var drained := Drain(cap, cornered, cap - 1);
    PlayOneMore(cap, drained, PumpStep);
    PlayOneMore(cap, drained + [PumpStep], PumpStep);
    PlayOneMore(cap, drained + [PumpStep] + [PumpStep], Get);
    acts := drained + [PumpStep] + [PumpStep] + [Get];
    var s := Play(cap, drained);
    assert Play(cap, acts).removed == s.removed + [Removal(Failure, false)] + [Removal(Sentinel, true)];
  }
}
