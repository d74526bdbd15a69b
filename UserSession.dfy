/**
 * UserSession: one connected client's identity and activity state.
 * Timestamps are integer milliseconds on one clock; the clock reading is passed in as `now`.
 */
module SessionModel {

  import opened JavaText

  const MillisPerMinute: int := 60000

  /** The value of a UserSession's fields at one moment. */
  datatype SessionState = SessionState(
    sessionId: string,
    username: string,
    joinedAt: int,
    lastActivity: int,
    isActive: bool)

  /** isStale(minutes): the last activity lies strictly before `now` minus `minutes`. */
  predicate Stale(s: SessionState, now: int, minutes: int) {
    s.lastActivity < now - minutes * MillisPerMinute
  }

  /** joinedAt never follows lastActivity. */
  predicate TimeOrdered(s: SessionState) {
    s.joinedAt <= s.lastActivity
  }

  /** updateActivity(): only lastActivity moves, to `now`. */
  function Touched(s: SessionState, now: int): SessionState {
    s.(lastActivity := now)
  }

  /** deactivate(): clears isActive and also touches lastActivity. */
  function Deactivated(s: SessionState, now: int): SessionState {
    Touched(s.(isActive := false), now)
  }

  /** A touch never changes who the session is or whether it is active; with a clock that does not go back it keeps the time order. */
  lemma TouchKeepsIdentity(s: SessionState, now: int)
    ensures Touched(s, now).sessionId == s.sessionId && Touched(s, now).username == s.username
    ensures Touched(s, now).isActive == s.isActive && Touched(s, now).joinedAt == s.joinedAt
    ensures TimeOrdered(s) && s.lastActivity <= now ==> TimeOrdered(Touched(s, now)) && TimeOrdered(Deactivated(s, now))
    ensures !Deactivated(s, now).isActive && Deactivated(s, now).sessionId == s.sessionId
  {
  }

  /** A session touched at `now` is stale for a threshold exactly when the threshold is negative. */
  lemma JustTouchedIsFresh(s: SessionState, now: int, minutes: int)
    requires s.lastActivity == now
    ensures Stale(s, now, minutes) <==> minutes < 0
  {
  }

  /** Staleness is monotone in the clock: once stale, a session stays stale while untouched. */
  lemma StaleStaysStale(s: SessionState, now: int, later: int, minutes: int)
    requires now <= later && Stale(s, now, minutes)
    ensures Stale(s, later, minutes)
  {
  }

  class UserSession {
    var sessionId: string
    var username: string
    var joinedAt: int
    var lastActivity: int
    var isActive: bool

    function State(): SessionState
      reads this
    {
      SessionState(sessionId, username, joinedAt, lastActivity, isActive)
    }

    /** UserSession(sessionId, username): active, joined and last active at `now`. */
    constructor (sessionId: string, username: string, now: int)
      ensures State() == SessionState(sessionId, username, now, now, true)
      ensures TimeOrdered(State())
    {
      this.joinedAt := now;
      this.lastActivity := now;
      this.isActive := true;
      this.sessionId := sessionId;
      this.username := username;
    }

    /** updateActivity(): only lastActivity moves, to `now`. */
    method UpdateActivity(now: int)
      modifies this
      ensures State() == Touched(old(State()), now)
      ensures old(TimeOrdered(State())) && old(lastActivity) <= now ==> TimeOrdered(State())
    {
      lastActivity := now;
    }

    /** deactivate(): clears isActive and also touches lastActivity. */
    method Deactivate(now: int)
      modifies this
      ensures State() == Deactivated(old(State()), now)
      ensures old(TimeOrdered(State())) && old(lastActivity) <= now ==> TimeOrdered(State())
    {
      isActive := false;
      UpdateActivity(now);
    }

    /** setActive(active). */
    method SetActive(active: bool)
      modifies this
      ensures State() == old(State()).(isActive := active)
    {
      isActive := active;
    }

    /** setUsername(username). */
    method SetUsername(username: string)
      modifies this
      ensures State() == old(State()).(username := username)
    {
      this.username := username;
    }

    /** isStale(minutes), read against the clock value `now`. */
    predicate IsStale(now: int, minutes: int)
      reads this
      ensures IsStale(now, minutes) && minutes >= 0 ==> lastActivity < now
      ensures IsStale(now, minutes) ==> forall later :: later >= now ==> Stale(State(), later, minutes)
    {
      Stale(State(), now, minutes)
    }

    /** equals(o): identity, then null, then sessionId; nothing else is compared. */
    predicate Equals(o: UserSession?)
      reads this, o
      ensures Equals(o) <==> o != null && o.sessionId == sessionId
    {
      if this == o then true
      else if o == null then false
      else sessionId == o.sessionId
    }

    /** hashCode(): Objects.hash(sessionId), that is 31 * 1 + sessionId.hashCode() in int arithmetic. */
    function HashCode(): (h: int)
      reads this
      ensures -TwoTo31 <= h < TwoTo31
    {
      Wrap32(31 + StringHash(sessionId))
    }

    /** The equals/hashCode contract: equal sessions hash alike, and equality is symmetric. */
    lemma EqualsAgreesWithHash(o: UserSession)
      ensures Equals(o) ==> HashCode() == o.HashCode()
      ensures Equals(o) <==> o.Equals(this)
    {
    }
  }
}
