/** The hub's queue table: which queue is listed under which topic, and how the table follows the protocol. */
module HubTable {
  import opened Basics
  import opened HubProtocol

  function ListOf<Q>(queues: map<Topic, seq<Q>>, t: Topic): seq<Q> {
    if t in queues then queues[t] else []
  }

  /** `rest` is `qs` without `q`, the others in their places. */
  ghost predicate IsWithout<Q>(rest: seq<Q>, qs: seq<Q>, q: Q) {
    (q !in qs ==> rest == qs) && forall i :: 0 <= i < |qs| && qs[i] == q ==> rest == qs[..i] + qs[i + 1..]
  }

  lemma WithoutOneMore<Q>(rest: seq<Q>, qs: seq<Q>, q: Q, x: Q)
    requires NoRepeats(qs + [x]) && IsWithout(rest, qs, q)
    ensures IsWithout(if x == q then rest else rest + [x], qs + [x], q)
  {
    var more := qs + [x];
    assert more[|qs|] == x;
    assert forall i :: 0 <= i < |qs| ==> more[i] == qs[i] && more[..i] == qs[..i] && more[i + 1..] == qs[i + 1..] + [x];
    assert more[..|qs|] == qs && more[|qs| + 1..] == [];
  }

  /** Every queue of `home` is listed under its own topic. */
  ghost predicate AllListed<Q>(queues: map<Topic, seq<Q>>, home: map<Q, Topic>) {
    forall q :: q in home ==> home[q] in queues && q in queues[home[q]]
  }

  /** The table lists exactly the queues of `home`, each once and under its own topic. */
  ghost predicate Listed<Q>(queues: map<Topic, seq<Q>>, home: map<Q, Topic>) {
    && (forall t, i :: t in queues && 0 <= i < |queues[t]| ==> queues[t][i] in home && home[queues[t][i]] == t)
    && AllListed(queues, home)
    && (forall t :: t in queues ==> NoRepeats(queues[t]))
  }

  lemma AppendStaysListed<Q>(queues: map<Topic, seq<Q>>, home: map<Q, Topic>, t: Topic, q: Q)
    requires Listed(queues, home) && q !in home
    ensures Listed(queues[t := ListOf(queues, t) + [q]], home[q := t])
  {
    var g, s := queues[t := ListOf(queues, t) + [q]], ListOf(queues, t);
    assert q !in s;
    assert g[t][|s|] == q;
    forall x | x in home
      ensures home[x] in g && x in g[home[x]]
    {
      if home[x] == t {
        assert x in s;
      }
    }
  }

  /** `left` is `home` without `q`, if `q` was at `t`. */
  ghost predicate LeftBy<Q>(home: map<Q, Topic>, t: Topic, q: Q, left: map<Q, Topic>) {
    left == if q in home && home[q] == t then home - {q} else home
  }

  lemma RemoveListsAll<Q>(queues: map<Topic, seq<Q>>, home: map<Q, Topic>, t: Topic, q: Q, rest: seq<Q>, left: map<Q, Topic>)
    requires AllListed(queues, home) && LeftBy(home, t, q, left)
    requires forall x :: x in rest <==> x in ListOf(queues, t) && x != q
    ensures AllListed(queues[t := rest], left)
  {
    var g := queues[t := rest];
    forall x | x in left
      ensures left[x] in g && x in g[left[x]]
    {
      assert x in home && x in queues[home[x]];
    }
  }

  lemma RemoveStaysListed<Q>(queues: map<Topic, seq<Q>>, home: map<Q, Topic>, t: Topic, q: Q, rest: seq<Q>, left: map<Q, Topic>)
    requires Listed(queues, home) && NoRepeats(rest) && LeftBy(home, t, q, left) && rest != []
    requires forall x :: x in rest <==> x in ListOf(queues, t) && x != q
    ensures Listed(queues[t := rest], left) && Homed(left, t)
  {
    forall i | 0 <= i < |rest|
      ensures rest[i] in left && left[rest[i]] == t
    {
      assert rest[i] in ListOf(queues, t);
    }
    RemoveListsAll(queues, home, t, q, rest, left);
    assert rest[0] in left && left[rest[0]] == t;
  }

  lemma DropStaysListed<Q>(queues: map<Topic, seq<Q>>, home: map<Q, Topic>, t: Topic, q: Q, left: map<Q, Topic>)
    requires Listed(queues, home) && LeftBy(home, t, q, left)
    requires forall x :: x in ListOf(queues, t) ==> x == q
    ensures Listed(queues - {t}, left) && !Homed(left, t)
  {
    forall x | x in left
      ensures left[x] != t
    {
      assert home[x] == t ==> x in ListOf(queues, t);
    }
  }

  /** Dropping a topic changes the tables in two places; what it tells upstream changes none. */
  lemma DroppedFields<Q>(h: Hub<Q>, t: Topic, sent: bool)
    ensures var g := Dropped(h, t, sent);
            && g.home == h.home && g.topics == h.topics - {t} && g.subscribed == h.subscribed - {t}
            && g.running == h.running && g.wsOpen == h.wsOpen && g.connected == h.connected
  {
  }

  /** What a reader of the hub's fields sees of an unsubscribe. */
  lemma UnsubscribeFields<Q>(h: Hub<Q>, t: Topic, q: Q, sent: bool)
    ensures var left, g := Left(h, t, q), UnsubscribeStep(h, t, q, sent);
            && g.home == left.home
            && g.running == h.running && g.wsOpen == h.wsOpen && g.connected == h.connected
            && (HasQueue(g, t) ==> g.topics == h.topics && g.subscribed == h.subscribed)
            && (!HasQueue(g, t) ==> g.topics == h.topics - {t} && g.subscribed == h.subscribed - {t})
  {
    DroppedFields(Left(h, t, q), t, sent);
  }

  lemma UnsubscribeLeaves<Q>(h: Hub<Q>, t: Topic, q: Q, sent: bool)
    ensures LeftBy(h.home, t, q, UnsubscribeStep(h, t, q, sent).home)
  {
    UnsubscribeFields(h, t, q, sent);
  }

  /** The fields agree with the protocol state. */
  ghost predicate Mirrors<Q>(queues: map<Topic, seq<Q>>, subscribed: set<Topic>, running: bool, wsOpen: bool, connected: bool, h: Hub<Q>) {
    && queues.Keys == h.topics && Listed(queues, h.home)
    && subscribed == h.subscribed && running == h.running
    && wsOpen == h.wsOpen && connected == h.connected
  }

  lemma UnsubscribedMirrors<Q>(before: map<Topic, seq<Q>>, subscribed: set<Topic>, subscribed': set<Topic>,
                               running: bool, wsOpen: bool, connected: bool, h: Hub<Q>, t: Topic, q: Q, sent: bool, after: map<Topic, seq<Q>>, drop: bool)
    requires Mirrors(before, subscribed, running, wsOpen, connected, h)
    requires Listed(after, UnsubscribeStep(h, t, q, sent).home)
    requires drop <==> !HasQueue(UnsubscribeStep(h, t, q, sent), t)
    requires after.Keys == if drop then before.Keys - {t} else before.Keys
    requires subscribed' == if drop then subscribed - {t} else subscribed
    ensures Mirrors(after, subscribed', running, wsOpen, connected, UnsubscribeStep(h, t, q, sent))
  {
    UnsubscribeFields(h, t, q, sent);
  }

  lemma WokenMirrors<Q>(queues: map<Topic, seq<Q>>, subscribed: set<Topic>, running: bool, wsOpen: bool, connected: bool,
                        h: Hub<Q>, q: Q, sent: bool)
    requires Mirrors(queues, subscribed, running, wsOpen, connected, h) && q in h.home
    ensures Mirrors(queues, subscribed + {h.home[q]}, running, wsOpen, connected, WakeStep(h, q, sent))
  {
  }
}
