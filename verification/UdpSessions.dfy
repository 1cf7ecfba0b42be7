/**
 The UDP proxy's session table: one session per client address, guarded by the
 proxy's own mutex.  Each critical section is a function on the table; the class
 updates the table in place.
 */
module UdpSessions {

  import opened ActivatorFields

  const SESSION_TTL: int := 30 * SECOND

  /** `sid` is the identity of the session object (the source's pointer). */
  datatype Session = Session(sid: nat, lastSeen: int)

  type Table = map<string, Session>

  function TouchSpec(t: Table, key: string, now: int): Table {
    if key in t then t[key := t[key].(lastSeen := now)] else t
  }

  function InsertSpec(t: Table, key: string, s: Session): Table {
    if key in t then t else t[key := s]
  }

  function RemoveSpec(t: Table, key: string): Table {
    t - {key}
  }

  /** A reply updates the session object it holds, whether or not the table still holds it. */
  function SeenSpec(t: Table, key: string, sid: nat, now: int): Table {
    if key in t && t[key].sid == sid then t[key := t[key].(lastSeen := now)] else t
  }

  predicate IsStale(t: Table, key: string, now: int) {
    key in t && now - t[key].lastSeen >= SESSION_TTL
  }

  /** `keys` lists exactly the stale keys of `t`, each once, in any order. */
  predicate ListsStale(t: Table, now: int, keys: seq<string>) {
    && (forall k <- t.Keys :: IsStale(t, k, now) ==> k in keys)
    && (forall i | 0 <= i < |keys| :: IsStale(t, keys[i], now))
    && (forall i, j | 0 <= i < j < |keys| :: keys[i] != keys[j])
  }

  /** The number of entries of `t` that are the session `sid`. */
  function Holds(t: Table, sid: nat): nat {
    |set k | k in t && t[k].sid == sid|
  }

  lemma HoldsAdd(t: Table, key: string, s: Session, sid: nat)
    requires key !in t
    ensures Holds(t[key := s], sid) == Holds(t, sid) + if s.sid == sid then 1 else 0
  {
    var u := t[key := s];
    var before := set k | k in t && t[k].sid == sid;
    var after := set k | k in u && u[k].sid == sid;
    assert after == if s.sid == sid then before + {key} else before;
  }

  lemma HoldsRemove(t: Table, key: string, sid: nat)
    requires key in t
    ensures Holds(t - {key}, sid) == Holds(t, sid) - if t[key].sid == sid then 1 else 0
    ensures |t - {key}| == |t| - 1
  {
    var u := t - {key};
    assert t == u[key := t[key]];
    HoldsAdd(u, key, t[key], sid);
    assert t.Keys == u.Keys + {key};
  }

  lemma HoldsEmpty(sid: nat)
    ensures Holds(map[], sid) == 0
  {
    var m: Table := map[];
    assert (set k | k in m && m[k].sid == sid) == {};
  }

  /** Refreshing a session keeps which sessions the table holds. */
  lemma HoldsRefresh(t: Table, key: string, now: int, sid: nat)
    requires key in t
    ensures Holds(t[key := t[key].(lastSeen := now)], sid) == Holds(t, sid)
    ensures |t[key := t[key].(lastSeen := now)]| == |t|
  {
    var u := t[key := t[key].(lastSeen := now)];
    assert u.Keys == t.Keys;
    assert (set k | k in u && u[k].sid == sid) == (set k | k in t && t[k].sid == sid);
  }

  /** The proxy object. */
  class UdpProxy {
    var sessions: Table

    constructor ()
      ensures sessions == map[]
    {
      sessions := map[];
    }

    method Lookup(key: string, now: int) returns (found: bool)
      modifies this
      ensures found == (key in old(sessions)) && sessions == TouchSpec(old(sessions), key, now)
      ensures sessions == if found then old(sessions)[key := Session(old(sessions)[key].sid, now)] else old(sessions)
    {
      found := key in sessions;
      if found {
        sessions := sessions[key := sessions[key].(lastSeen := now)];
      }
    }

    /** Another datagram may have created the session while this one was dialing. */
    method Insert(key: string, s: Session) returns (inserted: bool)
      modifies this
      ensures inserted == (key !in old(sessions)) && sessions == InsertSpec(old(sessions), key, s)
      ensures sessions == if inserted then old(sessions)[key := s] else old(sessions)
    {
      inserted := key !in sessions;
      if inserted {
        sessions := sessions[key := s];
      }
    }

    method MarkSeen(key: string, sid: nat, now: int)
      modifies this
      ensures sessions == SeenSpec(old(sessions), key, sid, now)
      ensures sessions == if key in old(sessions) && old(sessions)[key].sid == sid then old(sessions)[key := Session(sid, now)] else old(sessions)
    {
      if key in sessions && sessions[key].sid == sid {
        sessions := sessions[key := sessions[key].(lastSeen := now)];
      }
    }

    /** The table half of closeSession; the caller releases the returned session. */
    method Remove(key: string) returns (removed: Table)
      modifies this
      ensures sessions == RemoveSpec(old(sessions), key) == old(sessions) - {key}
      ensures removed == if key in old(sessions) then map[key := old(sessions)[key]] else map[]
    {
      if key in sessions {
        removed := map[key := sessions[key]];
        sessions := sessions - {key};
      } else {
        removed := map[];
      }
    }

    /** The table half of closeAllSessions. */
    method TakeAll() returns (taken: Table)
      modifies this
      ensures taken == old(sessions) && sessions == map[]
    {
      taken := sessions;
      sessions := map[];
    }

    /** The scan of expireIdle, in whatever order the map is iterated. */
    method CollectStale(now: int) returns (stale: seq<string>)
      ensures ListsStale(sessions, now, stale)
    {
      stale := [];
      var todo := sessions.Keys;
      while todo != {}
        invariant todo <= sessions.Keys
        invariant forall k <- sessions.Keys - todo :: IsStale(sessions, k, now) ==> k in stale
        invariant forall i | 0 <= i < |stale| :: IsStale(sessions, stale[i], now) && stale[i] !in todo
        invariant forall i, j | 0 <= i < j < |stale| :: stale[i] != stale[j]
        decreases todo
      {
        var key :| key in todo;
        if now - sessions[key].lastSeen >= SESSION_TTL {
          stale := stale + [key];
        }
        todo := todo - {key};
      }
    }
  }
}
