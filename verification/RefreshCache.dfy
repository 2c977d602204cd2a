/** The stale-on-error caches behind exchange info and margin tables: a fetch is tried at most once a day after
  * a success and once an hour after a failure, and a failure is covered by whatever was last fetched.
  */
module RefreshCache {
  import opened Wrappers

  const INFO_REFRESH_S := 86400.0
  const INFO_RETRY_S := 3600.0

  /** One call for one key: its clock reading, and what a fetch would answer now, `None` when it would raise. */
  datatype Request<R> = Request(now: real, answer: Option<R>)

  datatype Slot<R> = Slot(at: real, rows: R)

  /** What a call leaves in the cache, what it returns (`None`: it raises), and whether it fetched. */
  datatype Served<R> = Served(slot: Option<Slot<R>>, result: Option<R>, fetched: bool)

  function Serve<R>(slot: Option<Slot<R>>, q: Request<R>): Served<R> {
    if slot.Some? && q.now - slot.value.at < INFO_REFRESH_S then Served(slot, Some(slot.value.rows), false)
    else if q.answer.Some? then Served(Some(Slot(q.now, q.answer.value)), q.answer, true)
    else if slot.None? then Served(None, None, true)
    else Served(Some(Slot(q.now - INFO_REFRESH_S + INFO_RETRY_S, slot.value.rows)), Some(slot.value.rows), true)
  }

  // ----- Runs ----------------------------------------------------------------------------------------------

  function After<R>(calls: seq<Request<R>>): Option<Slot<R>> {
    if calls == [] then None else Serve(After(calls[..|calls| - 1]), calls[|calls| - 1]).slot
  }

  /** The calls that went out to the exchange. */
  function Fetches<R>(calls: seq<Request<R>>): seq<Request<R>> {
    if calls == [] then []
    else
      var front, q := calls[..|calls| - 1], calls[|calls| - 1];
      if Serve(After(front), q).fetched then Fetches(front) + [q] else Fetches(front)
  }

  /** What the latest successful fetch brought. */
  function Latest<R>(fetches: seq<Request<R>>): Option<R> {
    if fetches == [] then None
    else
      var q := fetches[|fetches| - 1];
      if q.answer.Some? then q.answer else Latest(fetches[..|fetches| - 1])
  }

  /** A fetch is due when nothing was ever fetched, a day after a fetch that worked, an hour after one that
    * did not.
    */
  ghost predicate Due<R>(fetches: seq<Request<R>>, now: real) {
    Latest(fetches).Some? ==>
      var q := fetches[|fetches| - 1];
      now - q.now >= if q.answer.Some? then 86400.0 else 3600.0
  }

  lemma {:induction false} SlotTellsTheFetches<R>(calls: seq<Request<R>>)
    ensures var slot, fetches := After(calls), Fetches(calls);
            && (slot.Some? <==> Latest(fetches).Some?)
            && (slot.Some? ==>
                  && slot.value.rows == Latest(fetches).value
                  && var q := fetches[|fetches| - 1];
                     slot.value.at == if q.answer.Some? then q.now else q.now - INFO_REFRESH_S + INFO_RETRY_S)
  {
    if calls != [] {
      var n := |calls| - 1;
      SlotTellsTheFetches(calls[..n]);
      assert (Fetches(calls[..n]) + [calls[n]])[..|Fetches(calls[..n])|] == Fetches(calls[..n]);
    }
  }

  /** A call fetches exactly when one is due, and it returns what the latest successful fetch, itself included,
    * brought; it raises only if there never was one.
    */
  lemma FetchesWhenDueAndServesTheLatest<R>(calls: seq<Request<R>>, q: Request<R>)
    ensures var served := Serve(After(calls), q);
            && (served.fetched <==> Due(Fetches(calls), q.now))
            && served.result == Latest(Fetches(calls + [q]))
  {
    SlotTellsTheFetches(calls);
    SlotTellsTheFetches(calls + [q]);
    assert (calls + [q])[..|calls|] == calls;
  }

  /** Over every run a fetch that follows a successful one comes at least 24 h after it, and one that follows a
    * failure at least 1 h after it once there is something to serve.
    */
  lemma {:induction false} FetchesAreSpaced<R>(calls: seq<Request<R>>, k: nat)
    requires 0 < k < |Fetches(calls)|
    ensures Due(Fetches(calls)[..k], Fetches(calls)[k].now)
  {
    var n := |calls| - 1;
    var before := Fetches(calls[..n]);
    if k < |before| {
      FetchesAreSpaced(calls[..n], k);
      assert Fetches(calls)[..k] == before[..k];
    } else {
      FetchesWhenDueAndServesTheLatest(calls[..n], calls[n]);
      assert Fetches(calls)[..k] == before;
    }
  }

  /** Once a fetch has succeeded no later call raises, whatever the fetches after it do. */
  lemma {:induction false} NeverRaisesAgain<R>(calls: seq<Request<R>>, later: seq<Request<R>>, q: Request<R>)
    requires Latest(Fetches(calls)).Some?
    ensures Serve(After(calls + later), q).result.Some?
  {
    if later == [] {
      SlotTellsTheFetches(calls);
      assert calls + later == calls;
    } else {
      var n := |later| - 1;
      NeverRaisesAgain(calls, later[..n], later[n]);
      assert (calls + later)[..|calls| + n] == calls + later[..n];
    }
  }

  // ----- The two caches ---------------------------------------------------------------------------------------

  /** `_ensure_info_cache`: rows and clock readings in two dictionaries. */
  class InfoCache<K(==), R> {
    var infoCache: map<K, R>
    var infoCacheAt: map<K, real>

    ghost function SlotOf(key: K): Option<Slot<R>>
      reads this
      requires infoCache.Keys == infoCacheAt.Keys
    {
      if key in infoCache then Some(Slot(infoCacheAt[key], infoCache[key])) else None
    }

    constructor ()
      ensures infoCache == map[] && infoCacheAt == map[]
    {
      infoCache, infoCacheAt := map[], map[];
    }

    method Ensure(key: K, now: real, answer: Option<R>) returns (result: Option<R>, ghost fetched: bool)
      requires infoCache.Keys == infoCacheAt.Keys
      modifies this
      ensures infoCache.Keys == infoCacheAt.Keys
      ensures Served(SlotOf(key), result, fetched) == Serve(old(SlotOf(key)), Request(now, answer))
      ensures infoCache - {key} == old(infoCache) - {key} && infoCacheAt - {key} == old(infoCacheAt) - {key}
    {
      var elapsed := now - if key in infoCacheAt then infoCacheAt[key] else 0.0;
      if key in infoCache && elapsed < INFO_REFRESH_S {
        return Some(infoCache[key]), false;
      }
      fetched := true;
      if answer.None? {
        if key !in infoCache {
          return None, true;
        }
        infoCacheAt := infoCacheAt[key := now - INFO_REFRESH_S + INFO_RETRY_S];
        return Some(infoCache[key]), true;
      }
      infoCache := infoCache[key := answer.value];
      infoCacheAt := infoCacheAt[key := now];
      result := Some(infoCache[key]);
    }
  }

  /** A margin table and the wall-clock time, in milliseconds, at which it was read. */
  datatype Table<R> = Table(rows: R, readAt: int)

  /** `_margin_table`: one dictionary of clock reading, rows and `read_at`. */
  class MarginCache<K(==), R> {
    var marginCache: map<K, (real, R, int)>

    ghost function SlotOf(key: K): Option<Slot<Table<R>>>
      reads this
    {
      if key in marginCache then
        Some(Slot(marginCache[key].0, Table(marginCache[key].1, marginCache[key].2)))
      else None
    }

    constructor ()
      ensures marginCache == map[]
    {
      marginCache := map[];
    }

    /** `wallMs` is the wall clock right after the fetch, so `Table(rows, wallMs)` is what a fetch brings. */
    method Ensure(key: K, now: real, answer: Option<R>, wallMs: int) returns (result: Option<Table<R>>, ghost fetched: bool)
      modifies this
      ensures Served(SlotOf(key), result, fetched)
           == Serve(old(SlotOf(key)), Request(now, if answer.Some? then Some(Table(answer.value, wallMs)) else None))
      ensures marginCache - {key} == old(marginCache) - {key}
    {
      if key in marginCache && now - marginCache[key].0 < INFO_REFRESH_S {
        return Some(Table(marginCache[key].1, marginCache[key].2)), false;
      }
      fetched := true;
      if answer.None? {
        if key !in marginCache {
          return None, true;
        }
        var cached := marginCache[key];
        marginCache := marginCache[key := (now - INFO_REFRESH_S + INFO_RETRY_S, cached.1, cached.2)];
        return Some(Table(cached.1, cached.2)), true;
      }
      marginCache := marginCache[key := (now, answer.value, wallMs)];
      result := Some(Table(answer.value, wallMs));
    }
  }
}
