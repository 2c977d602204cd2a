/** The allocator as a mutable object: the slot list and the three topic tables of the adapter. Every
  * method is one step of `AllocatorProtocol`, whose invariant holds of `view` in every run.
  */
module TopicAllocator {
  import opened Wrappers
  import opened AllocatorProtocol

  class TopicAllocator {
    var hubs: seq<set<Topic>>
    var topicHub: map<Topic, nat>
    var topicArgs: map<Topic, Arg>
    var topicRefs: map<Topic, int>
    ghost var view: Alloc

    ghost predicate Valid()
      reads this
    {
      hubs == view.hubs && topicHub == view.hubOf && topicArgs == view.args && topicRefs == view.refs
    }

    constructor ()
      ensures Valid() && view == INITIAL
    {
      hubs, topicHub, topicArgs, topicRefs := [], map[], map[], map[];
      view := INITIAL;
    }

    /** `next((s for s in self._hubs if len(s["topics"]) < ...), None)`. */
    method FindSlot() returns (slot: Option<nat>)
      ensures slot == if FirstFree(hubs) < |hubs| then Some(FirstFree(hubs)) else None
    {
      var i := 0;
      while i < |hubs|
        invariant i <= |hubs| && FirstFree(hubs) == i + FirstFree(hubs[i..])
      {
        if |hubs[i]| < MAX_SUBS_PER_HUB {
          return Some(i);
        }
        i := i + 1;
      }
      slot := None;
    }

    /** A topic nobody holds gets the first slot with room, or a new slot, or is refused. */
    method Place(topic: Topic, ghost s: Alloc) returns (ok: bool)
      requires hubs == s.hubs && topicHub == s.hubOf && topic !in topicHub
      modifies this`hubs, this`topicHub
      ensures ok <==> !Rejects(s, topic)
      ensures ok ==> hubs == Placed(s, topic).hubs && topicHub == Placed(s, topic).hubOf
      ensures !ok ==> hubs == s.hubs && topicHub == s.hubOf
    {
      var slot := FindSlot();
      var index;
      if slot.None? {
        if |hubs| >= MAX_HUBS { return false; }
        index := |hubs|;
        hubs := hubs + [{}];
      } else {
        index := slot.value;
      }
      hubs := hubs[index := hubs[index] + {topic}];
      topicHub := topicHub[topic := index];
      ok := true;
      assert slot.None? ==> hubs[index] == {topic};
    }

    /** `_acquire_topic`: the index of the hub, or `None` for the capacity error. */
    method Acquire(holder: Holder, topic: Topic, subArg: Arg) returns (hub: Option<nat>)
      requires Valid() && holder !in view.holders
      modifies this
      ensures Valid() && view == AcquireStep(old(view), holder, topic, subArg)
      ensures hub.None? <==> Rejects(old(view), topic)
      ensures hub.None? ==> view == old(view)
      ensures hub.Some? ==> topicArgs == old(topicArgs)[topic := subArg]
      ensures hub.Some? ==> topicRefs == old(topicRefs)[topic := (if topic in old(topicRefs) then old(topicRefs)[topic] else 0) + 1]
      ensures hub.Some? ==> holder in view.holders && view.holders[holder] == Hold(topic, hub.value, false)
      ensures hub.Some? ==> topic in topicArgs && topicArgs[topic] == subArg && topic in topicHub && topicHub[topic] == hub.value
    {
      ghost var before := view;
      if topic !in topicHub {
        var ok := Place(topic, before);
        if !ok { return None; }
      }
      AcquireTables(before, holder, topic, subArg);
      view := AcquireStep(before, holder, topic, subArg);
      hub := Some(topicHub[topic]);
      topicArgs := topicArgs[topic := subArg];
      topicRefs := topicRefs[topic := (if topic in topicRefs then topicRefs[topic] else 0) + 1];
    }

    /** The loop of `_release_topic` over the slots. */
    method Discard(slotOf: nat, topic: Topic)
      requires slotOf < |hubs|
      modifies this`hubs
      ensures hubs == old(hubs)[slotOf := old(hubs)[slotOf] - {topic}]
    {
      for i := 0 to |hubs|
        invariant hubs == old(hubs) && i <= slotOf
      {
        if i == slotOf {
          hubs := hubs[i := hubs[i] - {topic}];
          return;
        }
      }
    }

    /** Nobody holds the topic any more. */
    method Forget(topic: Topic)
      requires topic in topicHub && topicHub[topic] < |hubs|
      modifies this`hubs, this`topicHub, this`topicArgs, this`topicRefs
      ensures topicRefs == old(topicRefs) - {topic} && topicArgs == old(topicArgs) - {topic}
      ensures topicHub == old(topicHub) - {topic}
      ensures var k := old(topicHub)[topic]; hubs == old(hubs)[k := old(hubs)[k] - {topic}]
    {
      topicRefs := topicRefs - {topic};
      topicArgs := topicArgs - {topic};
      var slotOf := topicHub[topic];
      topicHub := topicHub - {topic};
      Discard(slotOf, topic);
    }

    /** The lock body of `_release_topic`, after the holder's queue has left the hub. */
    method Release(holder: Holder, topic: Topic)
      requires Valid() && Inv(view) && Enabled(view, AllocatorProtocol.Release(holder)) && view.holders[holder].topic == topic
      modifies this
      ensures Valid() && view == ReleaseStep(old(view), holder)
      ensures topic in topicRefs <==> HoldersOf(view.holders, topic) != {}
      ensures view.holders == old(view.holders) - {holder} && topic in old(topicRefs)
      ensures topicRefs == if old(topicRefs)[topic] > 1 then old(topicRefs)[topic := old(topicRefs)[topic] - 1]
                           else old(topicRefs) - {topic}
      ensures topic !in topicRefs ==> topicArgs == old(topicArgs) - {topic} && topicHub == old(topicHub) - {topic}
      ensures topic in topicRefs ==> topicArgs == old(topicArgs) && topicHub == old(topicHub) && hubs == old(hubs)
    {
      LastHolderLeaves(view, holder, topic);
      ReleaseTables(view, holder);
      view := ReleaseStep(view, holder);
      topicRefs := topicRefs[topic := topicRefs[topic] - 1];
      if topicRefs[topic] <= 0 {
        Forget(topic);
      }
    }
  }

  lemma LastHolderLeaves(s: Alloc, x: Holder, t: Topic)
    requires Inv(s) && x in s.holders
    ensures var g := ReleaseStep(s, x); t in g.refs <==> HoldersOf(g.holders, t) != {}
  {
    ReleaseKeepsInv(s, x);
    var g := ReleaseStep(s, x);
    if t !in g.refs {
      assert forall y :: y in g.holders ==> g.holders[y].topic != t;
    }
  }
}
