/**
 * The broker's tunnel registry and request-correlation table (class
 * ClientManager in app/manager.py). Each method is one critical section
 * under the manager's lock, so each is modelled as one atomic step.
 * Wall-clock time is the integer parameter `now`; the randomly generated
 * tunnel id is the parameter `generated`; a connection is any value of the
 * type parameter W, compared by equality.
 */
module Manager {
  import opened Wrappers

  /** Lifetime given to an id that is attached without having been registered. */
  const AttachTtl: int := 21600

  /** What a result slot holds: nothing yet, or the delivered payload. */
  datatype Slot<P> = Pending | Done(payload: P)

  /**
   * A single-assignment result slot, shared between the correlation table
   * and the request handler that awaits it.
   */
  class Future<P> {
    var state: Slot<P>

    constructor ()
      ensures state.Pending?
    {
      state := Pending;
    }

    /** Completing a future that is already done is an error, so callers check first. */
    method SetResult(payload: P)
      requires state.Pending?
      modifies this
      ensures state == Done(payload)
    {
      state := Done(payload);
    }
  }

  /** `exp and exp < now`: an expiry is recorded, is not zero, and lies strictly in the past. */
  predicate Expired(expiry: map<string, int>, tunnelId: string, now: int)
  {
    tunnelId in expiry && expiry[tunnelId] != 0 && expiry[tunnelId] < now
  }

  /** The id register_tunnel_id settles on: the requested one unless it is absent or empty. */
  function ChosenId(requested: Option<string>, generated: string): string
  {
    if requested.Some? && requested.value != "" then requested.value else generated
  }

  class ClientManager<W(==), P> {
    /** tunnel id -> the connection currently attached to it */
    var idToWs: map<string, W>
    /** tunnel id -> expiry timestamp */
    var idExpiry: map<string, int>
    /** request id -> the future its requester awaits */
    var pending: map<string, Future<P>>

    /**
     * Every bound tunnel id has an expiry entry, so a connection handed out
     * by GetWs is always one whose expiry it checked.
     */
    ghost predicate Valid()
      reads this
    {
      idToWs.Keys <= idExpiry.Keys
    }

    constructor ()
      ensures Valid()
      ensures idToWs == map[] && idExpiry == map[] && pending == map[]
    {
      idToWs := map[];
      idExpiry := map[];
      pending := map[];
    }

    /**
     * Records (or overwrites) the expiry of an id and returns the id; an
     * absent or empty request is replaced by the generated id, which is
     * never empty.
     */
    method RegisterTunnelId(tunnelId: Option<string>, ttlSeconds: int, now: int, generated: string)
      returns (id: string)
      requires Valid()
      requires generated != ""
      modifies this
      ensures Valid()
      ensures tunnelId.Some? && tunnelId.value != "" ==> id == tunnelId.value
      ensures tunnelId.None? || tunnelId.value == "" ==> id == generated
      ensures id != ""
      ensures idExpiry == old(idExpiry)[id := now + ttlSeconds]
      ensures idToWs == old(idToWs) && pending == old(pending)
    {
      id := ChosenId(tunnelId, generated);
      idExpiry := idExpiry[id := now + ttlSeconds];
    }

    /**
     * Binds the id to the connection, silently superseding any earlier
     * binding; an expiry already recorded is kept, a missing one is set to
     * `now + AttachTtl`.
     */
    method AddClient(tunnelId: string, ws: W, now: int)
      requires Valid()
      modifies this
      ensures Valid()
      ensures idToWs == old(idToWs)[tunnelId := ws]
      ensures tunnelId in old(idExpiry) ==> idExpiry == old(idExpiry)
      ensures tunnelId !in old(idExpiry) ==> idExpiry == old(idExpiry)[tunnelId := now + AttachTtl]
      ensures pending == old(pending)
    {
      idToWs := idToWs[tunnelId := ws];
      if tunnelId !in idExpiry {
        idExpiry := idExpiry[tunnelId := now + AttachTtl];
      }
    }

    /**
     * Unbinds exactly the ids whose connection is `ws`; every other binding
     * and the whole expiry map stay as they were.
     */
    method RemoveClient(ws: W)
      requires Valid()
      modifies this
      ensures Valid()
      ensures forall t :: t in idToWs <==> t in old(idToWs) && old(idToWs)[t] != ws
      ensures forall t | t in idToWs :: idToWs[t] == old(idToWs)[t]
      ensures idExpiry == old(idExpiry) && pending == old(pending)
    {
      var todo := idToWs.Keys;
      while todo != {}
        invariant todo <= old(idToWs).Keys
        invariant forall t :: t in idToWs <==> t in old(idToWs) && (t in todo || old(idToWs)[t] != ws)
        invariant forall t | t in idToWs :: idToWs[t] == old(idToWs)[t]
        invariant idExpiry == old(idExpiry) && pending == old(pending)
        decreases todo
      {
        var tid :| tid in todo;
        if idToWs[tid] == ws {
          idToWs := idToWs - {tid};
        }
        todo := todo - {tid};
      }
    }

    /**
     * Looks an id up. An expired id is evicted (binding and expiry) and
     * reported as unbound; otherwise the current binding is returned and
     * nothing changes.
     */
    method GetWs(tunnelId: string, now: int) returns (ws: Option<W>)
      requires Valid()
      modifies this
      ensures Valid()
      ensures Expired(old(idExpiry), tunnelId, now) ==>
        ws == None && idToWs == old(idToWs) - {tunnelId} && idExpiry == old(idExpiry) - {tunnelId}
      ensures !Expired(old(idExpiry), tunnelId, now) ==>
        idToWs == old(idToWs) && idExpiry == old(idExpiry) &&
        (tunnelId in idToWs ==> ws == Some(idToWs[tunnelId])) &&
        (tunnelId !in idToWs ==> ws == None)
      ensures ws.Some? ==> tunnelId in idExpiry && !Expired(idExpiry, tunnelId, now)
      ensures pending == old(pending)
    {
      if tunnelId in idExpiry && idExpiry[tunnelId] != 0 && idExpiry[tunnelId] < now {
        idToWs := idToWs - {tunnelId};
        idExpiry := idExpiry - {tunnelId};
        return None;
      }
      ws := if tunnelId in idToWs then Some(idToWs[tunnelId]) else None;
    }

    /** Installs a fresh pending future under `reqId`, overwriting any entry already there. */
    method CreateRequestFuture(reqId: string) returns (fut: Future<P>)
      requires Valid()
      modifies this
      ensures Valid()
      ensures fresh(fut) && fut.state.Pending?
      ensures pending == old(pending)[reqId := fut]
      ensures idToWs == old(idToWs) && idExpiry == old(idExpiry)
    {
      fut := new Future();
      pending := pending[reqId := fut];
    }

    /**
     * Removes the entry for `reqId` and completes its future with `payload`
     * if it was still pending; an unknown id, or a future already done, is
     * left alone without error.
     */
    method ResolveRequest(reqId: string, payload: P)
      requires Valid()
      modifies this, if reqId in pending then {pending[reqId]} else {}
      ensures Valid()
      ensures pending == old(pending) - {reqId}
      ensures reqId in old(pending) && old(pending[reqId].state).Pending? ==>
        old(pending)[reqId].state == Done(payload)
      ensures reqId in old(pending) && !old(pending[reqId].state).Pending? ==>
        unchanged(old(pending)[reqId])
      ensures idToWs == old(idToWs) && idExpiry == old(idExpiry)
    {
      var fut: Future?<P> := null;
      if reqId in pending {
        fut := pending[reqId];
        pending := pending - {reqId};
      }
      if fut != null && fut.state.Pending? {
        fut.SetResult(payload);
      }
    }
  }

  /** A response delivered twice reaches the awaiting future once, with the first payload. */
  method ResolveTwiceDeliversOnce<W(==), P>(m: ClientManager<W, P>, reqId: string, first: P, second: P)
    returns (fut: Future<P>)
    requires m.Valid()
    modifies m
    ensures m.Valid()
    ensures fut.state == Done(first)
    ensures reqId !in m.pending
  {
    fut := m.CreateRequestFuture(reqId);
    m.ResolveRequest(reqId, first);
    m.ResolveRequest(reqId, second);
  }

  /**
   * After a lookup finds an id expired, the id is indistinguishable from one
   * that was never registered: it has neither binding nor expiry, and the
   * next lookup reports it unbound without changing anything.
   */
  method ExpiredIsForgotten<W(==), P>(m: ClientManager<W, P>, tunnelId: string, now: int, later: int)
    returns (first: Option<W>, second: Option<W>)
    requires m.Valid()
    requires Expired(m.idExpiry, tunnelId, now)
    modifies m
    ensures m.Valid()
    ensures first == None && second == None
    ensures tunnelId !in m.idToWs && tunnelId !in m.idExpiry
  {
    first := m.GetWs(tunnelId, now);
    second := m.GetWs(tunnelId, later);
  }

  /**
   * An agent that reconnects under the same id supersedes the old
   * connection; when the orphaned connection is torn down afterwards, the
   * new binding survives.
   */
  method ReconnectSurvivesOldTeardown<W(==), P>(m: ClientManager<W, P>, tunnelId: string, oldWs: W, newWs: W, now: int)
    requires m.Valid()
    requires oldWs != newWs
    modifies m
    ensures m.Valid()
    ensures tunnelId in m.idToWs && m.idToWs[tunnelId] == newWs
    ensures tunnelId in m.idExpiry
  {
    m.AddClient(tunnelId, oldWs, now);
    m.AddClient(tunnelId, newWs, now);
    m.RemoveClient(oldWs);
  }
}
