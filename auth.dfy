/**
 * backend/src/services/auth.ts: the in-memory session store with a sliding
 * 24-hour expiry. The clock is a parameter `now` (milliseconds) and the 32
 * random bytes of a new session id are a parameter; password verification
 * (argon2) is a foreign predicate passed to the login handler.
 */
module Auth {
  import opened Base
  import opened Types

  /** `SESSION_EXPIRY`: 24 hours in milliseconds. */
  const SessionExpiry: int := 24 * 60 * 60 * 1000

  /** `now - session.lastActivity > SESSION_EXPIRY`: strict, so exactly 24h is still valid. */
  predicate Expired(s: Session, now: int) {
    now - s.lastActivity > SessionExpiry
  }

  /** Two lower-case hex digits per byte (`buffer.toString('hex')`). */
  function HexOfBytes(bytes: seq<byte>): (r: string)
    ensures |r| == 2 * |bytes|
    ensures forall k :: 0 <= k < |r| ==> ('0' <= r[k] <= '9') || ('a' <= r[k] <= 'f')
    decreases |bytes|
  {
    if bytes == [] then ""
    else
      var b := bytes[0] as int;
      [DigitChar(b / 16), DigitChar(b % 16)] + HexOfBytes(bytes[1..])
  }

  /** `getSession(id)` at `now`: the result and the new map. */
  function Lookup(sessions: map<string, Session>, id: string, now: int): (Option<Session>, map<string, Session>) {
    if id !in sessions then (None, sessions)
    else if Expired(sessions[id], now) then (None, sessions - {id})
    else
      var s := sessions[id].(lastActivity := now);
      (Some(s), sessions[id := s])
  }

  /** `cleanupExpiredSessions()` at `now`: the sessions that have not expired. */
  function Purge(sessions: map<string, Session>, now: int): (r: map<string, Session>)
    ensures forall id :: id in r <==> id in sessions && !Expired(sessions[id], now)
    ensures forall id :: id in r ==> r[id] == sessions[id]
  {
    map id | id in sessions && !Expired(sessions[id], now) :: sessions[id]
  }

  /** Every session is stored under its own id. */
  predicate KeyedById(sessions: map<string, Session>) {
    forall id :: id in sessions ==> sessions[id].id == id
  }

  /** The module-level `sessions` map and the functions over it. */
  class SessionStore {
    var sessions: map<string, Session>

    ghost predicate Valid()
      reads this
    {
      KeyedById(sessions)
    }

    constructor()
      ensures sessions == map[]
      ensures Valid()
    {
      sessions := map[];
    }

    /** `createSession(username)`: the new id is the hex of 32 random bytes. */
    method CreateSession(username: string, random: seq<byte>, now: int) returns (sessionId: string)
      requires Valid()
      requires |random| == 32
      modifies this
      ensures sessionId == HexOfBytes(random) && |sessionId| == 64
      ensures sessions == old(sessions)[sessionId := Session(sessionId, username, now, now)]
      ensures Valid()
    {
      sessionId := HexOfBytes(random);
      var session := Session(sessionId, username, now, now);
      sessions := sessions[sessionId := session];
    }

    /** `getSession(sessionId)`. */
    method GetSession(sessionId: string, now: int) returns (r: Option<Session>)
      requires Valid()
      modifies this
      ensures (r, sessions) == Lookup(old(sessions), sessionId, now)
      ensures Valid()
    {
      if sessionId !in sessions {
        return None;
      }
      var session := sessions[sessionId];
      if now - session.lastActivity > SessionExpiry {
        sessions := sessions - {sessionId};
        return None;
      }
      session := session.(lastActivity := now);
      sessions := sessions[sessionId := session];
      r := Some(session);
    }

    /** `destroySession(sessionId)`. */
    method DestroySession(sessionId: string)
      requires Valid()
      modifies this
      ensures sessions == old(sessions) - {sessionId}
      ensures Valid()
    {
      if sessionId in sessions {
        sessions := sessions - {sessionId};
      } else {
        assert sessions - {sessionId} == sessions;
      }
    }

    /** `cleanupExpiredSessions()`: deletes expired sessions while iterating. */
    method CleanupExpiredSessions(now: int)
      requires Valid()
      modifies this
      ensures sessions == Purge(old(sessions), now)
      ensures Valid()
    {
      var ids := sessions.Keys;
      while ids != {}
        invariant ids <= old(sessions).Keys
        invariant forall id :: id in sessions <==> id in old(sessions) && (id in ids || !Expired(old(sessions)[id], now))
        invariant forall id :: id in sessions ==> sessions[id] == old(sessions)[id]
        decreases ids
      {
        var id :| id in ids;
        if now - sessions[id].lastActivity > SessionExpiry {
          sessions := sessions - {id};
        }
        ids := ids - {id};
      }
    }
  }

  // ---------------------------------------------------------------------
  // Properties of getSession
  // ---------------------------------------------------------------------

  /** An unknown id gives null and leaves the store alone. */
  lemma LookupUnknown(sessions: map<string, Session>, id: string, now: int)
    requires id !in sessions
    ensures Lookup(sessions, id, now) == (None, sessions)
  {
  }

  /**
   * A stored session is returned exactly when it has not expired; an
   * expired one is deleted, a live one is refreshed with `lastActivity :=
   * now` and keeps its id, user name and creation time. Nothing else changes.
   */
  lemma LookupStored(sessions: map<string, Session>, id: string, now: int)
    requires id in sessions
    ensures var (r, after) := Lookup(sessions, id, now);
      var s := sessions[id];
      (r.Some? <==> now - s.lastActivity <= SessionExpiry)
      && (r.None? ==> id !in after)
      && (r.Some? ==> r.value == Session(s.id, s.username, s.createdAt, now) && after[id] == r.value)
      && (forall other :: other != id ==> (other in after <==> other in sessions))
      && (forall other :: other != id && other in after ==> after[other] == sessions[other])
  {
  }

  /** Exactly 24 hours after the last activity a session is still valid; one millisecond later it is not. */
  lemma ExpiryBoundary(sessions: map<string, Session>, id: string)
    requires id in sessions
    ensures Lookup(sessions, id, sessions[id].lastActivity + 86_400_000).0.Some?
    ensures Lookup(sessions, id, sessions[id].lastActivity + 86_400_001).0.None?
  {
  }

  /** `getSession` keeps every session under its own id. */
  lemma LookupKeepsKeyedById(sessions: map<string, Session>, id: string, now: int)
    requires KeyedById(sessions)
    ensures KeyedById(Lookup(sessions, id, now).1)
  {
  }

  /** The results of successive `getSession(id)` calls at the given times. */
  function LookupRun(sessions: map<string, Session>, id: string, times: seq<int>): (r: seq<Option<Session>>)
    ensures |r| == |times|
    decreases |times|
  {
    if times == [] then []
    else
      var (s, after) := Lookup(sessions, id, times[0]);
      [s] + LookupRun(after, id, times[1..])
  }

  /** Each lookup is at most 24 hours after the previous activity (`last`, then the earlier lookups). */
  predicate Chained(last: int, times: seq<int>)
    decreases |times|
  {
    times == [] || (times[0] - last <= SessionExpiry && Chained(times[0], times[1..]))
  }

  /**
   * Sliding expiry: as long as every lookup comes within 24 hours of the
   * previous activity, every lookup succeeds. In particular a session
   * created at t is retrievable at any t' <= t + 24h.
   */
  lemma {:induction false} SlidingWindow(sessions: map<string, Session>, id: string, times: seq<int>)
    requires id in sessions
    requires Chained(sessions[id].lastActivity, times)
    ensures forall i :: 0 <= i < |times| ==> LookupRun(sessions, id, times)[i].Some?
    decreases |times|
  {
    if times != [] {
      assert times[0] - sessions[id].lastActivity <= SessionExpiry;
      LookupStored(sessions, id, times[0]);
      var (s, after) := Lookup(sessions, id, times[0]);
      assert s.Some? && id in after && after[id].lastActivity == times[0];
      SlidingWindow(after, id, times[1..]);
      var rs := LookupRun(sessions, id, times);
      var rest := LookupRun(after, id, times[1..]);
      assert rs == [s] + rest;
      forall i | 1 <= i < |times| ensures rs[i].Some? {
        assert rs[i] == rest[i - 1];
      }
    }
  }

  /** A fresh session is retrievable up to and including 24 hours after its creation. */
  lemma CreatedSessionRetrievable(sessions: map<string, Session>, id: string, username: string, t: int, t': int)
    requires t' <= t + SessionExpiry
    ensures var (r, _) := Lookup(sessions[id := Session(id, username, t, t)], id, t');
      r == Some(Session(id, username, t, t'))
  {
  }

  // ---------------------------------------------------------------------
  // Properties of destroySession and cleanupExpiredSessions
  // ---------------------------------------------------------------------

  /** Destroying is idempotent and touches no other session. */
  lemma DestroyIdempotent(sessions: map<string, Session>, id: string)
    ensures (sessions - {id}) - {id} == sessions - {id}
    ensures forall other :: other != id && other in sessions ==> other in sessions - {id} && (sessions - {id})[other] == sessions[other]
    ensures id !in sessions ==> sessions - {id} == sessions
  {
  }

  /** A destroyed session can no longer be looked up. */
  lemma DestroyedNotFound(sessions: map<string, Session>, id: string, now: int)
    ensures Lookup(sessions - {id}, id, now).0 == None
  {
  }

  /**
   * The periodic sweep is unobservable: a lookup at or after it returns what
   * it would have returned without it.
   */
  lemma PurgeIsUnobservable(sessions: map<string, Session>, id: string, sweptAt: int, now: int)
    requires sweptAt <= now
    ensures Lookup(Purge(sessions, sweptAt), id, now).0 == Lookup(sessions, id, now).0
  {
  }

  /** The sweep keeps every session under its own id. */
  lemma PurgeKeepsKeyedById(sessions: map<string, Session>, now: int)
    requires KeyedById(sessions)
    ensures KeyedById(Purge(sessions, now))
  {
  }
}
