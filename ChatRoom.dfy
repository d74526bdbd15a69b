/**
 * ChatRoom: room metadata, the set of active users and the message counter.
 * The Java set of UserSession objects is a map from sessionId to the member; because
 * UserSession equality compares sessionId only, a set of sessions and a map keyed by sessionId
 * hold the same information. A member is held as the state of its UserSession object: the core
 * creates a fresh object per join, shares it with nobody and never changes it afterwards.
 * The room operations are first given as functions on RoomState; the class ChatRoom updates its
 * fields in place and is proved to follow them.
 */
module RoomModel {

  import opened Wrappers
  import opened SessionModel

  /** The value of a ChatRoom's fields, with each member given by its own state. */
  datatype RoomState = RoomState(
    id: string,
    name: Option<string>,
    description: Option<string>,
    createdAt: int,
    members: map<string, SessionState>,
    messageCount: int,
    isPrivate: bool)

  /** The state of a room right after construction: no members, no messages, public. */
  function NewRoomState(id: string, name: Option<string>, description: Option<string>, now: int): RoomState {
    RoomState(id, name, description, now, map[], 0, false)
  }

  /** Every member is filed under its own sessionId, so no two members share one. */
  predicate MembersKeyed(room: RoomState) {
    forall j :: j in room.members ==> room.members[j].sessionId == j
  }

  /** addUser(user): refused, with the room unchanged, when a member has the same sessionId. */
  function AddMember(room: RoomState, user: SessionState): (RoomState, bool) {
    if user.sessionId in room.members then (room, false)
    else (room.(members := room.members[user.sessionId := user]), true)
  }

  /** removeUser(sessionId): the result says whether a member with that sessionId was present. */
  function RemoveMember(room: RoomState, sessionId: string): (RoomState, bool) {
    (room.(members := room.members - {sessionId}), sessionId in room.members)
  }

  /** findUser(sessionId). */
  function FindMember(room: RoomState, sessionId: string): Option<SessionState> {
    if sessionId in room.members then Some(room.members[sessionId]) else None
  }

  /** incrementMessageCount(). */
  function WithMessage(room: RoomState): RoomState {
    room.(messageCount := room.messageCount + 1)
  }

  // ---------------------------------------------------------------- properties of the room operations

  /** Adding succeeds exactly when the sessionId is new; then the member is found under it and nothing else changes. */
  lemma AddMemberSpec(room: RoomState, user: SessionState)
    ensures var (r, added) := AddMember(room, user);
      && (added <==> FindMember(room, user.sessionId).None?)
      && FindMember(r, user.sessionId).Some?
      && (added ==> FindMember(r, user.sessionId) == Some(user) && |r.members| == |room.members| + 1)
      && (!added ==> r == room)
      && r.(members := room.members) == room
      && forall j :: j != user.sessionId ==> FindMember(r, j) == FindMember(room, j)
  {
  }

  /** Removing succeeds exactly when the sessionId is a member; afterwards it is not, and nothing else changes. */
  lemma RemoveMemberSpec(room: RoomState, sessionId: string)
    ensures var (r, removed) := RemoveMember(room, sessionId);
      && (removed <==> FindMember(room, sessionId).Some?)
      && FindMember(r, sessionId).None?
      && |r.members| == (if removed then |room.members| - 1 else |room.members|)
      && r.(members := room.members) == room
      && forall j :: j != sessionId ==> FindMember(r, j) == FindMember(room, j)
  {
  }

  /** Removing a member that was just added gives back the room it was added to. */
  lemma AddThenRemove(room: RoomState, user: SessionState)
    requires AddMember(room, user).1
    ensures RemoveMember(AddMember(room, user).0, user.sessionId) == (room, true)
  {
    assert room.members[user.sessionId := user] - {user.sessionId} == room.members;
  }

  /** A second removal of the same sessionId fails and changes nothing. */
  lemma RemoveTwice(room: RoomState, sessionId: string)
    ensures var r := RemoveMember(room, sessionId).0;
      RemoveMember(r, sessionId) == (r, false)
  {
    var r := RemoveMember(room, sessionId).0;
    assert r.members - {sessionId} == r.members;
  }

  /** Adding and removing keep every member filed under its own sessionId. */
  lemma MembersStayKeyed(room: RoomState, user: SessionState, sessionId: string)
    requires MembersKeyed(room)
    ensures MembersKeyed(AddMember(room, user).0)
    ensures MembersKeyed(RemoveMember(room, sessionId).0)
    ensures MembersKeyed(WithMessage(room))
  {
  }

  /** In a keyed room, findUser finds a member exactly when some member carries that sessionId. */
  lemma FindMemberSearches(room: RoomState, sessionId: string)
    requires MembersKeyed(room)
    ensures FindMember(room, sessionId).Some? <==> exists v :: v in room.members.Values && v.sessionId == sessionId
    ensures FindMember(room, sessionId).Some? ==> FindMember(room, sessionId).value.sessionId == sessionId
  {
    if v :| v in room.members.Values && v.sessionId == sessionId {
      var j :| j in room.members && room.members[j] == v;
      assert j == sessionId;
    }
  }

  /** In a keyed room the member sessions are as many as their sessionIds: getUserCount() counts sessions. */
  lemma {:induction false} KeyedMembersCount(room: RoomState)
    requires MembersKeyed(room)
    ensures |room.members.Values| == |room.members|
    decreases |room.members|
  {
    var m := room.members;
    if m != map[] {
      var k :| k in m;
      var r := m - {k};
      KeyedMembersCount(room.(members := r));
      assert m.Values == r.Values + {m[k]} by {
        forall v | v in m.Values
          ensures v in r.Values + {m[k]}
        {
          var j :| j in m && m[j] == v;
          if j != k {
            assert j in r;
          }
        }
        forall v | v in r.Values
          ensures v in m.Values
        {
          var j :| j in r && r[j] == v;
          assert j in m;
        }
      }
    }
  }

  /** The message counter goes up by one and nothing else changes. */
  lemma WithMessageCountsOne(room: RoomState)
    ensures WithMessage(room).messageCount == room.messageCount + 1
    ensures WithMessage(room).(messageCount := room.messageCount) == room
  {
  }

  class ChatRoom {
    var id: string
    var name: Option<string>
    var description: Option<string>
    var createdAt: int
    var activeUsers: map<string, SessionState>
    var messageCount: int
    var isPrivate: bool

    ghost predicate Valid()
      reads this
    {
      MembersKeyed(State())
    }

    function State(): RoomState
      reads this
    {
      RoomState(id, name, description, createdAt, activeUsers, messageCount, isPrivate)
    }

    /** ChatRoom(): a fresh id, created at `now`, no members, no messages, public; no name or description. */
    constructor Default(freshId: string, now: int)
      ensures Valid() && State() == NewRoomState(freshId, None, None, now)
    {
      id := freshId;
      name := None;
      description := None;
      createdAt := now;
      activeUsers := map[];
      messageCount := 0;
      isPrivate := false;
    }

    /** ChatRoom(name, description): the default room with its name and description set. */
    constructor (freshId: string, name: Option<string>, description: Option<string>, now: int)
      ensures Valid() && State() == NewRoomState(freshId, name, description, now)
    {
      id := freshId;
      createdAt := now;
      activeUsers := map[];
      messageCount := 0;
      isPrivate := false;
      this.name := name;
      this.description := description;
    }

    method AddUser(user: SessionState) returns (added: bool)
      modifies this
      ensures old(Valid()) ==> Valid()
      ensures (State(), added) == AddMember(old(State()), user)
    {
      added := user.sessionId !in activeUsers;
      if added {
        activeUsers := activeUsers[user.sessionId := user];
      }
    }

    method RemoveUser(sessionId: string) returns (removed: bool)
      modifies this
      ensures old(Valid()) ==> Valid()
      ensures (State(), removed) == RemoveMember(old(State()), sessionId)
    {
      removed := sessionId in activeUsers;
      activeUsers := activeUsers - {sessionId};
    }

    function FindUser(sessionId: string): (u: Option<SessionState>)
      reads this
      ensures u == FindMember(State(), sessionId)
    {
      if sessionId in activeUsers then Some(activeUsers[sessionId]) else None
    }

    method IncrementMessageCount()
      modifies this
      ensures old(Valid()) ==> Valid()
      ensures State() == WithMessage(old(State()))
    {
      messageCount := messageCount + 1;
    }

    /** getUserCount(): the number of members. */
    function UserCount(): (n: nat)
      reads this
      ensures n == |State().members|
    {
      |activeUsers|
    }

    /** isEmpty(): no members. */
    predicate IsEmpty()
      reads this
      ensures IsEmpty() <==> UserCount() == 0
      ensures IsEmpty() <==> State().members == map[]
    {
      activeUsers == map[]
    }

    /** setPrivate(isPrivate). */
    method SetPrivate(isPrivate: bool)
      modifies this
      ensures State() == old(State()).(isPrivate := isPrivate)
    {
      this.isPrivate := isPrivate;
    }
  }
}
