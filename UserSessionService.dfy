/**
 * UserSessionService: the registry from sessionId to user session, with presence queries and
 * the periodic sweep of stale sessions.
 * Its behaviour is first given as pure functions on SessionTable (sessionId to session state);
 * the class UserSessionService holds such a table and is proved to follow those functions.
 */
module SessionServices {

  import opened Wrappers
  import opened SessionModel
  import opened MapFacts

  type SessionTable = map<string, SessionState>

  // ---------------------------------------------------------------- specification on values

  /** Every session is filed under its own sessionId. */
  predicate Keyed(t: SessionTable) {
    forall k :: k in t ==> t[k].sessionId == k
  }

  /** No session was last active after `now`: the clock never runs backwards past a session. */
  predicate NotAfter(t: SessionTable, now: int) {
    forall k :: k in t ==> t[k].lastActivity <= now
  }

  /** Every session has joinedAt <= lastActivity. */
  predicate AllTimeOrdered(t: SessionTable) {
    forall k :: k in t ==> TimeOrdered(t[k])
  }

  /**
   * createOrUpdateSession(sessionId, username): the entry is created when absent; either way it
   * then carries `username` and is touched at `now`. Its joinedAt and isActive are left as they were.
   */
  function CreateOrUpdate(t: SessionTable, sessionId: string, username: string, now: int): (r: (SessionTable, SessionState))
    ensures r.0.Keys == t.Keys + {sessionId} && r.0[sessionId] == r.1
    ensures r.1.username == username && r.1.lastActivity == now
    ensures sessionId !in t ==> r.1 == SessionState(sessionId, username, now, now, true)
    ensures forall k :: k in t && k != sessionId ==> r.0[k] == t[k]
  {
    var s := if sessionId in t then t[sessionId] else SessionState(sessionId, username, now, now, true);
    var s' := Touched(s.(username := username), now);
    (t[sessionId := s'], s')
  }

  /** getSession(sessionId). */
  function Lookup(t: SessionTable, sessionId: string): Option<SessionState> {
    if sessionId in t then Some(t[sessionId]) else None
  }

  /** removeSession(sessionId): the entry goes; what is returned is the removed session, deactivated. */
  function Remove(t: SessionTable, sessionId: string, now: int): (r: (SessionTable, Option<SessionState>))
    ensures r.0.Keys == t.Keys - {sessionId}
    ensures r.1.Some? <==> sessionId in t
    ensures r.1.Some? ==> !r.1.value.isActive && r.1.value.lastActivity == now
  {
    if sessionId in t then (t - {sessionId}, Some(Deactivated(t[sessionId], now)))
    else (t, None)
  }

  /** updateUserActivity(roomId, username): every session of that username is touched; roomId plays no part. */
  function TouchUser(t: SessionTable, username: string, now: int): (r: SessionTable)
    ensures r.Keys == t.Keys
    ensures forall k :: k in r && r[k].username == username ==> r[k].lastActivity == now
  {
    map k | k in t :: if t[k].username == username then Touched(t[k], now) else t[k]
  }

  /** updateSessionActivity(sessionId): no-op for an unknown sessionId. */
  function TouchSession(t: SessionTable, sessionId: string, now: int): SessionTable {
    if sessionId in t then t[sessionId := Touched(t[sessionId], now)] else t
  }

  /** isUserActive(username): some active session carries that username. */
  predicate UserActive(t: SessionTable, username: string) {
    exists k :: k in t && t[k].username == username && t[k].isActive
  }

  /** The sessionIds of the active sessions. */
  function ActiveIds(t: SessionTable): set<string> {
    set k | k in t && t[k].isActive
  }

  /** deactivateSession(sessionId): the result says whether the session was there. */
  function Deactivate(t: SessionTable, sessionId: string, now: int): (SessionTable, bool) {
    if sessionId in t then (t[sessionId := Deactivated(t[sessionId], now)], true) else (t, false)
  }

  /** reactivateSession(sessionId): sets isActive, then touches the session. */
  function Reactivate(t: SessionTable, sessionId: string, now: int): (r: (SessionTable, bool))
    ensures r.0.Keys == t.Keys
    ensures r.1 <==> sessionId in t
    ensures r.1 ==> r.0[sessionId].isActive && r.0[sessionId].lastActivity == now
  {
    if sessionId in t then (t[sessionId := Touched(t[sessionId].(isActive := true), now)], true) else (t, false)
  }

  /** The sessionIds cleanupStaleSessions removes. */
  function StaleKeys(t: SessionTable, now: int, minutes: int): set<string> {
    set k | k in t && Stale(t[k], now, minutes)
  }

  /** cleanupStaleSessions: the table without its stale sessions. */
  function SweepStale(t: SessionTable, now: int, minutes: int): (r: SessionTable)
    ensures r.Keys <= t.Keys
    ensures forall k :: k in r ==> !Stale(r[k], now, minutes)
  {
    map k | k in t && !Stale(t[k], now, minutes) :: t[k]
  }

  datatype UserStats = UserStats(totalSessions: int, activeSessions: int, inactiveSessions: int)

  // ---------------------------------------------------------------- properties of the specification

  /**
   * createOrUpdateSession files the returned session under its sessionId with the new username and
   * `now` as last activity; an existing session keeps its joinedAt and its isActive (an inactive one is
   * not reactivated); a new one is active and joined at `now`. No other entry changes.
   */
  lemma CreateOrUpdateSpec(t: SessionTable, sessionId: string, username: string, now: int)
    ensures var (t', s) := CreateOrUpdate(t, sessionId, username, now);
      && t'.Keys == t.Keys + {sessionId}
      && Lookup(t', sessionId) == Some(s)
      && s.sessionId == (if sessionId in t then t[sessionId].sessionId else sessionId)
      && s.username == username && s.lastActivity == now
      && (sessionId in t ==> s.joinedAt == t[sessionId].joinedAt && s.isActive == t[sessionId].isActive)
      && (sessionId !in t ==> s.joinedAt == now && s.isActive)
      && forall k :: k in t && k != sessionId ==> t'[k] == t[k]
  {
  }

  /** Calling createOrUpdateSession twice at the same moment is the same as calling it once. */
  lemma CreateOrUpdateIdempotent(t: SessionTable, sessionId: string, username: string, now: int)
    ensures var (t1, s1) := CreateOrUpdate(t, sessionId, username, now);
      CreateOrUpdate(t1, sessionId, username, now) == (t1, s1)
  {
    var (t1, s1) := CreateOrUpdate(t, sessionId, username, now);
    assert t1[sessionId := s1] == t1;
  }

  /** removeSession returns the removed session, now inactive; a second removal finds nothing. */
  lemma RemoveSpec(t: SessionTable, sessionId: string, now: int)
    ensures var (t', r) := Remove(t, sessionId, now);
      && t' == t - {sessionId}
      && (r.Some? <==> sessionId in t)
      && (r.Some? ==> !r.value.isActive && r.value.sessionId == t[sessionId].sessionId
                      && r.value.username == t[sessionId].username && r.value.lastActivity == now)
      && Remove(t', sessionId, now) == (t', None)
  {
    if sessionId !in t {
      assert t - {sessionId} == t;
    }
  }

  /** updateUserActivity touches exactly the sessions of that username, whatever room the message was for. */
  lemma TouchUserSpec(t: SessionTable, username: string, now: int, minutes: int)
    requires minutes >= 0
    ensures var t' := TouchUser(t, username, now);
      && t'.Keys == t.Keys
      && (forall k :: k in t && t[k].username == username ==> t'[k] == Touched(t[k], now) && !Stale(t'[k], now, minutes))
      && (forall k :: k in t && t[k].username != username ==> t'[k] == t[k])
      && ActiveIds(t') == ActiveIds(t)
  {
  }

  /** deactivateSession leaves the entry in place, inactive; reactivateSession makes it active again. */
  lemma DeactivateReactivate(t: SessionTable, sessionId: string, now: int, later: int)
    requires sessionId in t
    ensures var (t1, ok1) := Deactivate(t, sessionId, now);
      var (t2, ok2) := Reactivate(t1, sessionId, later);
      && ok1 && ok2
      && t1.Keys == t.Keys && !t1[sessionId].isActive
      && t2 == t[sessionId := Touched(t[sessionId].(isActive := true), later)]
  {
    var (t1, _) := Deactivate(t, sessionId, now);
    assert t1[sessionId := Touched(t1[sessionId].(isActive := true), later)]
      == t[sessionId := Touched(t[sessionId].(isActive := true), later)];
  }

  /** Deactivating and reactivating an unknown session fails and changes nothing. */
  lemma UnknownSessionUnchanged(t: SessionTable, sessionId: string, now: int)
    requires sessionId !in t
    ensures Deactivate(t, sessionId, now) == (t, false)
    ensures Reactivate(t, sessionId, now) == (t, false)
    ensures TouchSession(t, sessionId, now) == t
    ensures Lookup(t, sessionId).None?
  {
  }

  /** A user is active exactly when one of the active sessions carries that name. */
  lemma UserActiveIffActiveSession(t: SessionTable, username: string)
    ensures UserActive(t, username) <==> exists k :: k in ActiveIds(t) && t[k].username == username
  {
  }

  /** Deactivating a session of a user with no other active session makes that user inactive. */
  lemma DeactivatingLastSession(t: SessionTable, sessionId: string, now: int)
    requires sessionId in t
    requires forall k :: k in t && k != sessionId && t[k].username == t[sessionId].username ==> !t[k].isActive
    ensures !UserActive(Deactivate(t, sessionId, now).0, t[sessionId].username)
  {
  }

  /** The active sessions are some of the sessions, so the inactive count of getStats is never negative. */
  lemma ActiveAtMostAll(t: SessionTable)
    ensures ActiveIds(t) <= t.Keys
    ensures |ActiveIds(t)| <= |t|
  {
    SubsetCard(ActiveIds(t), t.Keys);
  }

  /**
   * The sweep splits the sessions in two: the stale ones are removed and counted, the others are
   * kept unchanged, so kept plus removed is all of them, and no session left is stale.
   */
  lemma SweepPartitions(t: SessionTable, now: int, minutes: int)
    ensures var t' := SweepStale(t, now, minutes);
      && t'.Keys == t.Keys - StaleKeys(t, now, minutes)
      && |t'| + |StaleKeys(t, now, minutes)| == |t|
      && (forall k :: k in t' ==> t'[k] == t[k] && !Stale(t'[k], now, minutes))
      && (forall k :: k in t && k !in t' ==> Stale(t[k], now, minutes))
  {
    var t' := SweepStale(t, now, minutes);
    var stale := StaleKeys(t, now, minutes);
    assert t'.Keys == t.Keys - stale;
    assert t.Keys == t'.Keys + stale;
  }

  /** A session that stays untouched while the clock moves on is swept once it is stale. */
  lemma SweptOnceStale(t: SessionTable, k: string, now: int, later: int, minutes: int)
    requires k in t && now <= later && Stale(t[k], now, minutes)
    ensures k !in SweepStale(t, later, minutes)
  {
    StaleStaysStale(t[k], now, later, minutes);
  }

  /** Every operation keeps sessions filed under their own sessionIds. */
  lemma OperationsKeepKeyed(t: SessionTable, sessionId: string, username: string, now: int, minutes: int)
    requires Keyed(t)
    ensures var (t', s) := CreateOrUpdate(t, sessionId, username, now); Keyed(t') && s.sessionId == sessionId
    ensures Keyed(Remove(t, sessionId, now).0)
    ensures Keyed(TouchUser(t, username, now))
    ensures Keyed(TouchSession(t, sessionId, now))
    ensures Keyed(Deactivate(t, sessionId, now).0)
    ensures Keyed(Reactivate(t, sessionId, now).0)
    ensures Keyed(SweepStale(t, now, minutes))
  {
  }

  /**
   * With a clock that does not run backwards, every operation keeps joinedAt <= lastActivity for all
   * sessions, and no session ends up last active after `now`.
   */
  lemma OperationsKeepTimeOrder(t: SessionTable, sessionId: string, username: string, now: int, minutes: int)
    requires AllTimeOrdered(t) && NotAfter(t, now)
    ensures var t' := CreateOrUpdate(t, sessionId, username, now).0; AllTimeOrdered(t') && NotAfter(t', now)
    ensures var t' := Remove(t, sessionId, now).0; AllTimeOrdered(t') && NotAfter(t', now)
    ensures var t' := TouchUser(t, username, now); AllTimeOrdered(t') && NotAfter(t', now)
    ensures var t' := TouchSession(t, sessionId, now); AllTimeOrdered(t') && NotAfter(t', now)
    ensures var t' := Deactivate(t, sessionId, now).0; AllTimeOrdered(t') && NotAfter(t', now)
    ensures var t' := Reactivate(t, sessionId, now).0; AllTimeOrdered(t') && NotAfter(t', now)
    ensures var t' := SweepStale(t, now, minutes); AllTimeOrdered(t') && NotAfter(t', now)
  {
  }

  // ---------------------------------------------------------------- the registry object

  /** The table updateUserActivity has made after visiting the sessionIds in `visited`. */
  ghost function PartialTouch(t: SessionTable, visited: set<string>, username: string, now: int): SessionTable {
    map k | k in t :: if k in visited && t[k].username == username then Touched(t[k], now) else t[k]
  }

  lemma PartialTouchStep(t: SessionTable, visited: set<string>, k: string, username: string, now: int)
    requires k in t
    ensures var p := PartialTouch(t, visited, username, now);
      PartialTouch(t, visited + {k}, username, now)
        == if t[k].username == username then p[k := Touched(t[k], now)] else p
  {
  }

  lemma PartialTouchEnds(t: SessionTable, username: string, now: int)
    ensures PartialTouch(t, {}, username, now) == t
    ensures PartialTouch(t, t.Keys, username, now) == TouchUser(t, username, now)
  {
  }

  class UserSessionService {
    /** The sessions by sessionId, each one as the state of its UserSession. */
    var sessions: SessionTable

    ghost predicate Valid()
      reads this
    {
      Keyed(sessions)
    }

    constructor ()
      ensures Valid() && sessions == map[]
    {
      sessions := map[];
    }

    /** createOrUpdateSession(sessionId, username). */
    method CreateOrUpdateSession(sessionId: string, username: string, now: int) returns (session: SessionState)
      modifies this
      ensures old(Valid()) ==> Valid()
      ensures (sessions, session) == CreateOrUpdate(old(sessions), sessionId, username, now)
    {
      if sessionId in sessions {
        session := sessions[sessionId];
      } else {
        var created := new UserSession(sessionId, username, now);
        session := created.State();
      }
      if username != session.username {
        session := session.(username := username);
      }
      session := Touched(session, now);
      sessions := sessions[sessionId := session];
    }

    /** getSession(sessionId). */
    function GetSession(sessionId: string): (r: Option<SessionState>)
      reads this
      ensures r.Some? <==> sessionId in sessions
      ensures r.Some? ==> r.value == sessions[sessionId]
    {
      if sessionId in sessions then Some(sessions[sessionId]) else None
    }

    /** removeSession(sessionId). */
    method RemoveSession(sessionId: string, now: int) returns (removed: Option<SessionState>)
      modifies this
      ensures old(Valid()) ==> Valid()
      ensures (sessions, removed) == Remove(old(sessions), sessionId, now)
    {
      if sessionId in sessions {
        removed := Some(Deactivated(sessions[sessionId], now));
        sessions := sessions - {sessionId};
      } else {
        removed := None;
      }
    }

    /** updateUserActivity(roomId, username): the sessions are visited one by one; roomId is not used. */
    method UpdateUserActivity(roomId: string, username: string, now: int)
      modifies this
      ensures old(Valid()) ==> Valid()
      ensures sessions == TouchUser(old(sessions), username, now)
    {
      var snapshot := sessions;
      var todo := snapshot.Keys;
      ghost var visited: set<string> := {};
      PartialTouchEnds(snapshot, username, now);
      while todo != {}
        invariant todo <= snapshot.Keys && visited == snapshot.Keys - todo
        invariant sessions == PartialTouch(snapshot, visited, username, now)
        decreases |todo|
      {
        var k :| k in todo;
        PartialTouchStep(snapshot, visited, k, username, now);
        if snapshot[k].username == username {
          sessions := sessions[k := Touched(snapshot[k], now)];
        }
        visited := visited + {k};
        todo := todo - {k};
      }
      if Keyed(snapshot) {
        assert Keyed(sessions) by {
          OperationsKeepKeyed(snapshot, "", username, now, 0);
        }
      }
    }

    /** updateSessionActivity(sessionId). */
    method UpdateSessionActivity(sessionId: string, now: int)
      modifies this
      ensures old(Valid()) ==> Valid()
      ensures sessions == TouchSession(old(sessions), sessionId, now)
    {
      if sessionId in sessions {
        sessions := sessions[sessionId := Touched(sessions[sessionId], now)];
      }
    }

    /** isUserActive(username). */
    predicate IsUserActive(username: string)
      reads this
      ensures IsUserActive(username) <==> exists s :: s in sessions.Values && s.username == username && s.isActive
    {
      exists k :: k in sessions && sessions[k].username == username && sessions[k].isActive
    }

    /** getActiveSessionCount(). */
    function GetActiveSessionCount(): (n: nat)
      reads this
      ensures n == |ActiveIds(sessions)| && n <= |sessions|
    {
      ActiveAtMostAll(sessions);
      |set k | k in sessions && sessions[k].isActive|
    }

    /**
     * getSessionByUsername(username): the first session of that username in the map's iteration
     * order, which is left open here: some session of that name, or none when no session has it.
     */
    method GetSessionByUsername(username: string) returns (r: Option<SessionState>)
      ensures r.Some? <==> exists k :: k in sessions && sessions[k].username == username
      ensures r.Some? ==> r.value in sessions.Values && r.value.username == username
    {
      var todo := sessions.Keys;
      while todo != {}
        invariant todo <= sessions.Keys
        invariant forall k :: k in sessions && k !in todo ==> sessions[k].username != username
        decreases |todo|
      {
        var k :| k in todo;
        if sessions[k].username == username {
          return Some(sessions[k]);
        }
        todo := todo - {k};
      }
      return None;
    }

    /** cleanupStaleSessions(inactiveMinutes): lists the stale sessions, then removes each through removeSession. */
    method CleanupStaleSessions(inactiveMinutes: int, now: int) returns (cleanedUp: int)
      modifies this
      requires Valid()
      ensures Valid()
      ensures sessions == SweepStale(old(sessions), now, inactiveMinutes)
      ensures cleanedUp == |StaleKeys(old(sessions), now, inactiveMinutes)|
    {
      ghost var snapshot := sessions;
      var staleSessions := StaleKeys(sessions, now, inactiveMinutes);
      var todo := staleSessions;
      cleanedUp := 0;
      while todo != {}
        invariant todo <= staleSessions
        invariant sessions == snapshot - (staleSessions - todo)
        invariant cleanedUp + |todo| == |staleSessions|
        decreases |todo|
      {
        var k :| k in todo;
        var _ := RemoveSession(sessions[k].sessionId, now);
        cleanedUp := cleanedUp + 1;
        todo := todo - {k};
      }
      assert sessions == SweepStale(snapshot, now, inactiveMinutes);
    }

    /** deactivateSession(sessionId). */
    method DeactivateSession(sessionId: string, now: int) returns (found: bool)
      modifies this
      ensures old(Valid()) ==> Valid()
      ensures (sessions, found) == Deactivate(old(sessions), sessionId, now)
    {
      found := sessionId in sessions;
      if found {
        sessions := sessions[sessionId := Deactivated(sessions[sessionId], now)];
      }
    }

    /** reactivateSession(sessionId). */
    method ReactivateSession(sessionId: string, now: int) returns (found: bool)
      modifies this
      ensures old(Valid()) ==> Valid()
      ensures (sessions, found) == Reactivate(old(sessions), sessionId, now)
    {
      found := sessionId in sessions;
      if found {
        sessions := sessions[sessionId := Touched(sessions[sessionId].(isActive := true), now)];
      }
    }

    /** getStats(): total, active and inactive sessions; the last two add up to the first. */
    function GetStats(): (stats: UserStats)
      reads this
      ensures stats.totalSessions == |sessions|
      ensures stats.activeSessions == |ActiveIds(sessions)|
      ensures stats.inactiveSessions >= 0
      ensures stats.activeSessions + stats.inactiveSessions == stats.totalSessions
    {
      var active := GetActiveSessionCount();
      UserStats(|sessions|, active, |sessions| - active)
    }
  }
}
