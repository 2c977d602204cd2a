/** The stream manager as a mutable object: its two tables, updated step by step.
  *
  * A websocket is identified with the client id it was given. Every method is one atomic step of
  * `ManagerProtocol`; the ghost field `view` is the protocol state.
  */
module StreamManager {
  import opened Wrappers
  import opened ManagerProtocol

  class StreamManager {
    var activeStreams: map<Key, set<Client>>
    var upstreamTasks: map<Key, Task>
    ghost var view: Manager

    ghost predicate Valid()
      reads this
    {
      activeStreams == view.active && upstreamTasks == view.tasks && Registered(view)
    }

    constructor ()
      ensures Valid() && view == INITIAL
    {
      activeStreams, upstreamTasks := map[], map[];
      view := INITIAL;
    }

    /** `subscribe`; `newTask` is the handler that is created when the key has no stream yet. */
    method Subscribe(key: Key, clientId: Client, newTask: Task) returns (created: bool)
      requires Valid() && Enabled(view, ManagerProtocol.Subscribe(key, clientId, newTask))
      modifies this
      ensures Valid() && view == SubscribeStep(old(view), key, clientId, newTask)
      ensures created == (key !in old(activeStreams))
      ensures activeStreams == old(activeStreams)[key := (if created then {} else old(activeStreams)[key]) + {clientId}]
      ensures upstreamTasks == if created then old(upstreamTasks)[key := newTask] else old(upstreamTasks)
    {
      SubscribeKeepsRegistered(view, key, clientId, newTask);
      SubscribeTables(view, key, clientId, newTask);
      view := SubscribeStep(view, key, clientId, newTask);
      created := false;
      if key !in activeStreams {
        activeStreams := activeStreams[key := {}];
        upstreamTasks := upstreamTasks[key := newTask];
        created := true;
      }
      activeStreams := activeStreams[key := activeStreams[key] + {clientId}];
      assert created ==> activeStreams[key] == {clientId};
    }

    /** `unsubscribe`; the result is the handler it cancels, which it does exactly for the last client. */
    method Unsubscribe(key: Key, clientId: Client) returns (task: Option<Task>)
      requires Valid()
      modifies this
      ensures Valid() && view == UnsubscribeStep(old(view), key, clientId)
      ensures task.Some? <==> key in old(activeStreams) && old(activeStreams)[key] <= {clientId}
      ensures activeStreams == if key !in old(activeStreams) then old(activeStreams)
                               else if task.Some? then old(activeStreams) - {key}
                               else old(activeStreams)[key := old(activeStreams)[key] - {clientId}]
      ensures task.Some? ==> key in old(upstreamTasks) && task.value == old(upstreamTasks)[key] && !Live(view, task.value)
    {
      UnsubscribeKeepsRegistered(view, key, clientId);
      UnsubscribeTables(view, key, clientId);
      view := UnsubscribeStep(view, key, clientId);
      task := None;
      if key in activeStreams {
        activeStreams := activeStreams[key := activeStreams[key] - {clientId}];
        if activeStreams[key] == {} {
          task := Some(upstreamTasks[key]);
          upstreamTasks := upstreamTasks - {key};
          activeStreams := activeStreams - {key};
        }
      }
    }

    /** The handler got an item: whom to send it to, or nothing when it has to stop. */
    method TakeItem(task: Task, key: Key) returns (audience: Option<set<Client>>)
      requires Valid() && Enabled(view, Item(task)) && view.handlers[task].key == key
      modifies this
      ensures Valid() && view == ItemStep(old(view), task)
      ensures audience.Some? && audience.value == old(activeStreams)[key] != {}
      ensures activeStreams == old(activeStreams) && upstreamTasks == old(upstreamTasks)
    {
      assert Live(view, task);
      MovingKeepsRegistered(view, task, Sending(activeStreams[key]));
      view := ItemStep(view, task);
      if key !in activeStreams || activeStreams[key] == {} {
        return None;
      }
      audience := Some(activeStreams[key]);
    }

    /** `current.pop(cid, None)` for every dead client. */
    method PopAll(bucket: set<Client>, dead: seq<Client>) returns (current: set<Client>)
      ensures current == bucket - set c | c in dead
    {
      current := bucket;
      for i := 0 to |dead|
        invariant current == bucket - set c | c in dead[..i]
      {
        current := current - {dead[i]};
      }
      assert dead[..|dead|] == dead;
    }

    /** The block after the sends: drop the dead clients, and the stream when nobody is left. Its two
      * pops at the end are unguarded.
      */
    method DropDead(task: Task, key: Key, dead: seq<Client>) returns (emptied: bool)
      requires Valid() && Enabled(view, Sent(task, set c | c in dead)) && view.handlers[task].key == key
      modifies this
      ensures Valid() && view == SentStep(old(view), task, set c | c in dead)
      ensures emptied ==> key in old(upstreamTasks) && old(upstreamTasks)[key] == task
      ensures activeStreams == if emptied then old(activeStreams) - {key}
                               else old(activeStreams)[key := old(activeStreams)[key] - (set c | c in dead)]
      ensures emptied <==> dead != [] && old(activeStreams)[key] - (set c | c in dead) == {}
    {
      ghost var before, lost := view, set c | c in dead;
      assert Live(before, task) && key in activeStreams;
      assert dead != [] ==> dead[0] in lost;
      assert dead == [] ==> activeStreams[key] - lost == activeStreams[key];
      SentTables(before, task, lost);
      view := SentStep(before, task, lost);
      emptied := false;
      if dead != [] {
        var current := PopAll(activeStreams[key], dead);
        activeStreams := activeStreams[key := current];
        if current == {} {
          activeStreams := activeStreams - {key};
          upstreamTasks := upstreamTasks - {key};
          emptied := true;
        }
      }
    }

    /** The handler's `finally`; the result is the bucket it closes. */
    method Finally(task: Task, key: Key) returns (closed: set<Client>)
      requires Valid() && Enabled(view, End(task)) && view.handlers[task].key == key
      modifies this
      ensures Valid() && view == Finalised(old(view), task)
      ensures view.closing == old(view.closing) + closed
      ensures if key in old(upstreamTasks) && old(upstreamTasks)[key] == task then
                key in old(activeStreams) && closed == old(activeStreams)[key]
                && activeStreams == old(activeStreams) - {key} && upstreamTasks == old(upstreamTasks) - {key}
              else closed == {} && activeStreams == old(activeStreams) && upstreamTasks == old(upstreamTasks)
    {
      FinalisingKeepsRegistered(view, task);
      view := Finalised(view, task);
      closed := {};
      if key in upstreamTasks && upstreamTasks[key] == task {
        upstreamTasks := upstreamTasks - {key};
        closed := activeStreams[key];
        activeStreams := activeStreams - {key};
      }
    }
  }

  /** What `subscribe` makes of the two tables. */
  lemma SubscribeTables(m: Manager, k: Key, c: Client, t: Task)
    requires Registered(m)
    ensures var g := SubscribeStep(m, k, c, t);
            && g.active == m.active[k := (if k in m.active then m.active[k] else {}) + {c}]
            && g.tasks == if k in m.active then m.tasks else m.tasks[k := t]
  {
    assert k !in m.active ==> {} + {c} == {c};
  }

  /** What the block after the sends leaves of the two tables. */
  lemma SentTables(m: Manager, t: Task, dead: set<Client>)
    requires Registered(m) && Live(m, t)
    ensures Registered(SentStep(m, t, dead))
    ensures var k, g := m.handlers[t].key, SentStep(m, t, dead); var rest := m.active[k] - dead;
            if dead == {} then g.active == m.active && g.tasks == m.tasks
            else if rest != {} then g.active == m.active[k := rest] && g.tasks == m.tasks
            else g.active == m.active - {k} && g.tasks == m.tasks - {k} && m.tasks[k] == t
  {
    SentKeepsRegistered(m, t, dead);
  }

  lemma SentKeepsRegistered(m: Manager, t: Task, dead: set<Client>)
    requires Registered(m) && Live(m, t)
    ensures Registered(SentStep(m, t, dead))
  {
    var k := m.handlers[t].key;
    var closed := m.(closing := m.closing + dead);
    assert forall x :: Live(closed, x) <==> Live(m, x);
    if dead == {} {
      MovingKeepsRegistered(closed, t, Streaming);
    } else if m.active[k] - dead != {} {
      ShrinkingKeepsRegistered(m, k, dead);
      MovingKeepsRegistered(Shrunk(m, k, dead), t, Streaming);
    } else {
      EmptyingIsFinalising(m, t, dead);
      FinalisingKeepsRegistered(closed, t);
    }
  }
}
