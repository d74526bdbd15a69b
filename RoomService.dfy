/**
 * RoomService: the registry from room key to chat room.
 * Its behaviour is first given as pure functions on RoomTable (keys to room states); the class
 * RoomService holds such a table and is proved to follow those functions. Each room object of
 * the service is filed under exactly one key and reached only through the service, so a table of
 * room states carries what the registry of ChatRoom objects does.
 */
module RoomServices {

  import opened Wrappers
  import opened JavaText
  import opened SessionModel
  import opened RoomModel
  import opened MapFacts

  type RoomTable = map<string, RoomState>

  // ---------------------------------------------------------------- specification on values

  /** isDefaultRoom(id): ids starting with "general" or "lobby" are kept when empty. */
  predicate IsDefaultRoom(roomId: string)
    ensures IsDefaultRoom(roomId) <==>
      (|roomId| >= 7 && roomId[..7] == "general") || (|roomId| >= 5 && roomId[..5] == "lobby")
  {
    StartsWith(roomId, "general") || StartsWith(roomId, "lobby")
  }

  /** The display name of an auto-created room: "Room " and the first eight characters of its key. */
  function AutoRoomName(key: string): (name: string)
    ensures |name| == 5 + Min(8, |key|)
    ensures name[..5] == "Room " && name[5..] <= key
  {
    "Room " + key[..Min(8, |key|)]
  }

  /** The room computeIfAbsent inserts for an unknown key: its own id is the fresh one, not the key. */
  function AutoCreated(key: string, freshId: string, now: int): RoomState {
    NewRoomState(freshId, Some(AutoRoomName(key)), Some("Auto-created room"), now)
  }

  /** createRoom(name, description): a new room filed under its own fresh id. */
  function Create(t: RoomTable, freshId: string, name: Option<string>, description: Option<string>, now: int): RoomTable {
    t[freshId := NewRoomState(freshId, name, description, now)]
  }

  /** addUserToRoom: find or auto-create the room for `key`, then add a new session unless one with that id is there. */
  function Join(t: RoomTable, key: string, username: string, sessionId: string, freshId: string, now: int): (r: (RoomTable, bool))
    ensures r.1 <==> key !in t || sessionId !in t[key].members
    ensures r.1 ==> (r.0.Keys == t.Keys + {key} && sessionId in r.0[key].members
      && r.0[key].members[sessionId] == SessionState(sessionId, username, now, now, true))
    ensures !r.1 ==> r.0 == t
  {
    var room := if key in t then t[key] else AutoCreated(key, freshId, now);
    var (joined, added) := AddMember(room, SessionState(sessionId, username, now, now, true));
    if added then (t[key := joined], true) else (t, false)
  }

  /** removeUserFromRoom: remove the session, then drop the room when it is empty and its key is not a default one. */
  function Leave(t: RoomTable, key: string, sessionId: string): (r: (RoomTable, bool))
    ensures r.1 <==> key in t && sessionId in t[key].members
    ensures r.0.Keys <= t.Keys && r.0.Keys >= t.Keys - {key}
    ensures key in r.0 ==> sessionId !in r.0[key].members
  {
    if key !in t then (t, false)
    else
      var (room, removed) := RemoveMember(t[key], sessionId);
      if room.members == map[] && !IsDefaultRoom(key) then (t - {key}, removed)
      else (t[key := room], removed)
  }

  /** incrementMessageCount(key): no-op for an unknown key. */
  function Bump(t: RoomTable, key: string): (r: RoomTable)
    ensures r.Keys == t.Keys
  {
    if key in t then t[key := WithMessage(t[key])] else t
  }

  /** The sessionIds of a room's stale members. */
  function StaleIds(room: RoomState, now: int, minutes: int): set<string> {
    set j | j in room.members && Stale(room.members[j], now, minutes)
  }

  /** A room with its stale members removed. */
  function Clean(room: RoomState, now: int, minutes: int): RoomState {
    room.(members := map j | j in room.members && !Stale(room.members[j], now, minutes) :: room.members[j])
  }

  /** Whether the sweep removes a room once its stale members are gone: it is empty and its own id is not a default one. */
  predicate Emptied(room: RoomState, now: int, minutes: int) {
    Clean(room, now, minutes).members == map[] && !IsDefaultRoom(room.id)
  }

  /** The ids (room.getId(), not map keys) that the sweep removes, for the rooms filed under `among`. */
  function DoomedIds(t: RoomTable, among: set<string>, now: int, minutes: int): set<string> {
    set k | k in t && k in among && Emptied(t[k], now, minutes) :: t[k].id
  }

  /** cleanupInactiveSessions: every room loses its stale members, then map entries are removed by room id. */
  function Sweep(t: RoomTable, now: int, minutes: int): (r: RoomTable)
    ensures r.Keys <= t.Keys
  {
    var doomed := DoomedIds(t, t.Keys, now, minutes);
    map k | k in t && k !in doomed :: Clean(t[k], now, minutes)
  }

  /** Visiting one more room adds at most its own id to the ids the sweep removes. */
  lemma DoomedAdd(t: RoomTable, among: set<string>, k: string, now: int, minutes: int)
    requires k in t
    ensures DoomedIds(t, among + {k}, now, minutes)
      == DoomedIds(t, among, now, minutes) + (if Emptied(t[k], now, minutes) then {t[k].id} else {})
  {
  }

  /** getRoom(key). */
  function Lookup(t: RoomTable, key: string): Option<RoomState> {
    if key in t then Some(t[key]) else None
  }

  /** getRoomUsers(key): the member sessions, none for an unknown key. */
  function UsersOf(t: RoomTable, key: string): set<SessionState> {
    if key in t then t[key].members.Values else {}
  }

  function UserCounts(t: RoomTable): map<string, int> {
    map k | k in t :: |t[k].members|
  }

  function MessageCounts(t: RoomTable): map<string, int> {
    map k | k in t :: t[k].messageCount
  }

  function StaleCounts(t: RoomTable, now: int, minutes: int): map<string, int> {
    map k | k in t :: |StaleIds(t[k], now, minutes)|
  }

  /** totalUsers of getStats. */
  ghost function TotalUsers(t: RoomTable): int {
    Sum(UserCounts(t))
  }

  /** totalMessages of getStats. */
  ghost function TotalMessages(t: RoomTable): int {
    Sum(MessageCounts(t))
  }

  /** The value cleanupInactiveSessions returns: all stale members over all rooms. */
  ghost function SweptCount(t: RoomTable, now: int, minutes: int): int {
    Sum(StaleCounts(t, now, minutes))
  }

  datatype RoomStats = RoomStats(totalRooms: int, totalUsers: int, totalMessages: int)

  // ---------------------------------------------------------------- properties of the specification

  /** createRoom adds exactly one entry, under the fresh id, and changes no other entry. */
  lemma CreateAddsOneRoom(t: RoomTable, freshId: string, name: Option<string>, description: Option<string>, now: int)
    requires freshId !in t
    ensures var t' := Create(t, freshId, name, description, now);
      && t'.Keys == t.Keys + {freshId} && |t'| == |t| + 1
      && t'[freshId].id == freshId && t'[freshId].members == map[] && t'[freshId].messageCount == 0
      && forall k :: k in t ==> t'[k] == t[k]
  {
  }

  /** Joining an unknown key creates exactly one room there, holding just the new session. */
  lemma JoinUnknownKeyCreatesRoom(t: RoomTable, key: string, username: string, sessionId: string, freshId: string, now: int)
    requires key !in t
    ensures var (t', added) := Join(t, key, username, sessionId, freshId, now);
      && added
      && t'.Keys == t.Keys + {key}
      && t'[key].id == freshId
      && t'[key].name == Some(AutoRoomName(key)) && t'[key].description == Some("Auto-created room")
      && t'[key].members == map[sessionId := SessionState(sessionId, username, now, now, true)]
      && forall k :: k in t ==> t'[k] == t[k]
  {
  }

  /** Joining a known key reuses its room: the same id, name and counter, one more member at most. */
  lemma JoinKnownKeyReusesRoom(t: RoomTable, key: string, username: string, sessionId: string, freshId: string, now: int)
    requires key in t
    ensures var (t', added) := Join(t, key, username, sessionId, freshId, now);
      && t'.Keys == t.Keys
      && t'[key] == t[key].(members := t'[key].members)
      && (added <==> sessionId !in t[key].members)
      && t'[key].members.Keys == t[key].members.Keys + {sessionId}
      && forall k :: k in t && k != key ==> t'[k] == t[k]
  {
  }

  /** Re-joining with a sessionId already in the room fails and changes nothing: it is not an update. */
  lemma RejoinChangesNothing(t: RoomTable, key: string, username: string, sessionId: string, freshId: string, now: int)
    requires key in t && sessionId in t[key].members
    ensures Join(t, key, username, sessionId, freshId, now) == (t, false)
  {
  }

  /** A second join with the same key and sessionId, whatever the new name or clock, is refused. */
  lemma JoinTwiceIsRefused(t: RoomTable, key: string, u1: string, u2: string, sessionId: string, f1: string, f2: string, n1: int, n2: int)
    ensures var (t1, _) := Join(t, key, u1, sessionId, f1, n1);
      Join(t1, key, u2, sessionId, f2, n2) == (t1, false)
  {
  }

  /** Every room files each member under the member's own sessionId. */
  predicate AllMembersKeyed(t: RoomTable) {
    forall k :: k in t ==> MembersKeyed(t[k])
  }

  /** No operation of the registry ever files a member under a sessionId other than its own. */
  lemma OperationsKeepMembersKeyed(t: RoomTable, key: string, username: string, sessionId: string, freshId: string,
                                   name: Option<string>, description: Option<string>, now: int, minutes: int)
    requires AllMembersKeyed(t)
    ensures AllMembersKeyed(Create(t, freshId, name, description, now))
    ensures AllMembersKeyed(Join(t, key, username, sessionId, freshId, now).0)
    ensures AllMembersKeyed(Leave(t, key, sessionId).0)
    ensures AllMembersKeyed(Bump(t, key))
    ensures AllMembersKeyed(Sweep(t, now, minutes))
    ensures AllMembersKeyed(t - {key})
  {
  }

  /** getRoomUserCount agrees with the number of sessions getRoomUsers returns. */
  lemma UserCountMatchesUsers(t: RoomTable, key: string)
    requires AllMembersKeyed(t)
    ensures |UsersOf(t, key)| == if key in t then |t[key].members| else 0
  {
    if key in t {
      KeyedMembersCount(t[key]);
    }
  }

  /** After a successful join, getRoom finds the room and getRoomUsers holds the new session besides the old ones. */
  lemma JoinedUserIsListed(t: RoomTable, key: string, username: string, sessionId: string, freshId: string, now: int)
    ensures var (t', added) := Join(t, key, username, sessionId, freshId, now);
      && Lookup(t', key).Some?
      && (added ==> UsersOf(t', key) == UsersOf(t, key) + {SessionState(sessionId, username, now, now, true)})
  {
    var (t', added) := Join(t, key, username, sessionId, freshId, now);
    var user := SessionState(sessionId, username, now, now, true);
    if added {
      var m := if key in t then t[key].members else map[];
      assert sessionId !in m && t'[key].members == m[sessionId := user];
      assert UsersOf(t, key) == m.Values;
      forall v | v in m[sessionId := user].Values
        ensures v in m.Values + {user}
      {
        var j :| j in m[sessionId := user] && m[sessionId := user][j] == v;
        if j != sessionId {
          assert j in m;
        }
      }
      forall v | v in m.Values
        ensures v in m[sessionId := user].Values
      {
        var j :| j in m && m[j] == v;
        assert j in m[sessionId := user] && m[sessionId := user][j] == v;
      }
      assert sessionId in m[sessionId := user];
    }
  }

  /** On a key with no room: leaving fails, counting a message changes nothing, and there are no users. */
  lemma UnknownKeyChangesNothing(t: RoomTable, key: string, sessionId: string)
    requires key !in t
    ensures Leave(t, key, sessionId) == (t, false)
    ensures Bump(t, key) == t
    ensures Lookup(t, key).None? && UsersOf(t, key) == {}
  {
  }

  /** A non-default room left empty is dropped, even when nobody was removed from it. */
  lemma LeaveDropsEmptyRoom(t: RoomTable, key: string, sessionId: string)
    requires key in t && t[key].members.Keys <= {sessionId} && !IsDefaultRoom(key)
    ensures Leave(t, key, sessionId).0 == t - {key}
    ensures Leave(t, key, sessionId).1 <==> sessionId in t[key].members
  {
    assert (t[key].members - {sessionId}).Keys == {};
  }

  /** A default room stays, emptied or not. */
  lemma LeaveKeepsDefaultRoom(t: RoomTable, key: string, sessionId: string)
    requires key in t && IsDefaultRoom(key)
    ensures var (t', removed) := Leave(t, key, sessionId);
      && key in t' && t'[key].members == t[key].members - {sessionId}
      && t'[key].id == t[key].id && t'[key].messageCount == t[key].messageCount
      && (removed <==> sessionId in t[key].members)
  {
  }

  /** The result of leave is exactly whether the session was a member; afterwards it is not one. */
  lemma LeaveRemovesSession(t: RoomTable, key: string, sessionId: string)
    ensures var (t', removed) := Leave(t, key, sessionId);
      && (removed <==> key in t && sessionId in t[key].members)
      && (key in t' ==> sessionId !in t'[key].members)
      && t'.Keys <= t.Keys
      && forall k :: k in t && k != key ==> k in t' && t'[k] == t[k]
  {
  }

  /** An immediate second leave of the same pair fails and changes nothing. */
  lemma LeaveTwiceIsNoop(t: RoomTable, key: string, sessionId: string)
    ensures var (t1, _) := Leave(t, key, sessionId);
      Leave(t1, key, sessionId) == (t1, false)
  {
    var (t1, _) := Leave(t, key, sessionId);
    if key in t1 {
      var room := t1[key];
      assert sessionId !in room.members;
      assert room.(members := room.members - {sessionId}) == room;
      assert room.members != map[] || IsDefaultRoom(key);
      assert t1[key := room] == t1;
    }
  }

  /** The counter of a known room goes up by one; an unknown key changes nothing. */
  lemma BumpCountsOne(t: RoomTable, key: string)
    ensures key !in t ==> Bump(t, key) == t
    ensures key in t ==> (Bump(t, key).Keys == t.Keys && Bump(t, key)[key].messageCount == t[key].messageCount + 1
      && Bump(t, key)[key].members == t[key].members)
    ensures key in t ==> Bump(t, key) == t[key := t[key].(messageCount := t[key].messageCount + 1)]
  {
  }

  /** After the sweep no room holds a stale member, and every entry left is a cleaned entry of the old table. */
  lemma SweepLeavesNoStaleMember(t: RoomTable, now: int, minutes: int)
    ensures var t' := Sweep(t, now, minutes);
      && t'.Keys <= t.Keys
      && (forall k, j :: k in t' && j in t'[k].members ==> !Stale(t'[k].members[j], now, minutes))
      && (forall k :: k in t' ==> t'[k] == Clean(t[k], now, minutes))
  {
  }

  /** The sweep removes map entries by room id: an emptied room whose id is no key of the table stays in it. */
  lemma SweepKeepsRoomWhoseIdIsNoKey(t: RoomTable, key: string, now: int, minutes: int)
    requires key in t
    requires forall k :: k in t ==> t[k].id != key
    ensures key in Sweep(t, now, minutes)
    ensures Sweep(t, now, minutes)[key] == Clean(t[key], now, minutes)
  {
  }

  /** An auto-created room, whose id is a fresh value, is never removed by the sweep even when emptied. */
  lemma SweepKeepsEmptiedAutoCreatedRoom(t: RoomTable, key: string, username: string, sessionId: string, freshId: string,
                                         joinedAt: int, now: int, minutes: int)
    requires key !in t && freshId != key
    requires forall k :: k in t ==> t[k].id != key
    requires joinedAt < now - minutes * MillisPerMinute
    ensures var t' := Join(t, key, username, sessionId, freshId, joinedAt).0;
      && key in Sweep(t', now, minutes)
      && Sweep(t', now, minutes)[key].members == map[]
  {
    var t' := Join(t, key, username, sessionId, freshId, joinedAt).0;
    assert t'[key].id == freshId;
    assert Stale(t'[key].members[sessionId], now, minutes);
    SweepKeepsRoomWhoseIdIsNoKey(t', key, now, minutes);
  }

  /** A room filed under its own id (as createRoom does), emptied by staleness and not default, is removed. */
  lemma SweepRemovesEmptiedRoomById(t: RoomTable, key: string, now: int, minutes: int)
    requires key in t && t[key].id == key && !IsDefaultRoom(key)
    requires forall j :: j in t[key].members ==> Stale(t[key].members[j], now, minutes)
    ensures key !in Sweep(t, now, minutes)
  {
    assert Clean(t[key], now, minutes).members == map[];
    assert key in DoomedIds(t, t.Keys, now, minutes);
  }

  /** The table after `n` messages have been counted in the room under `key`. */
  function Bumped(t: RoomTable, key: string, n: nat): (r: RoomTable)
    ensures r.Keys == t.Keys
    decreases n
  {
    if n == 0 then t else Bump(Bumped(t, key, n - 1), key)
  }

  /** Counting messages changes no room's id or members. */
  lemma {:induction false} BumpedKeepsMembers(t: RoomTable, key: string, n: nat)
    ensures forall k :: k in t ==> Bumped(t, key, n)[k].members == t[k].members && Bumped(t, key, n)[k].id == t[k].id
    decreases n
  {
    if n > 0 {
      BumpedKeepsMembers(t, key, n - 1);
    }
  }

  /**
   * A member's lastActivity is the moment it joined: sending messages counts them in the room and
   * touches only the session registry. So once the threshold has passed since the join, the sweep
   * removes the member however many messages it has sent.
   */
  lemma SweepIgnoresMessages(t: RoomTable, key: string, username: string, sessionId: string, freshId: string,
                             joinedAt: int, messages: nat, now: int, minutes: int)
    requires Join(t, key, username, sessionId, freshId, joinedAt).1
    requires joinedAt < now - minutes * MillisPerMinute
    ensures var t' := Bumped(Join(t, key, username, sessionId, freshId, joinedAt).0, key, messages);
      && key in t' && sessionId in t'[key].members
      && var swept := Sweep(t', now, minutes);
         key in swept ==> sessionId !in swept[key].members
  {
    var t1 := Join(t, key, username, sessionId, freshId, joinedAt).0;
    BumpedKeepsMembers(t1, key, messages);
    assert t1[key].members[sessionId].lastActivity == joinedAt;
  }

  // ---------------------------------------------------------------- the registry object

  /** A room from which the members under the keys `gone` have been removed. */
  ghost function Without(room: RoomState, gone: set<string>): RoomState {
    room.(members := map j | j in room.members && j !in gone :: room.members[j])
  }

  /** Removing one more member, by the sessionId it carries, extends the removed set by its key. */
  lemma WithoutOneMore(room: RoomState, gone: set<string>, j: string)
    requires MembersKeyed(room) && j in room.members
    ensures Without(room, gone + {j}) == RemoveMember(Without(room, gone), room.members[j].sessionId).0
  {
    assert Without(room, gone + {j}).members == Without(room, gone).members - {j};
  }

  /** Removing every stale member is cleaning the room; removing nobody leaves it as it is. */
  lemma WithoutEnds(room: RoomState, now: int, minutes: int)
    ensures Without(room, {}) == room
    ensures Without(room, StaleIds(room, now, minutes)) == Clean(room, now, minutes)
  {
    assert Without(room, {}).members == room.members;
    assert Without(room, StaleIds(room, now, minutes)).members == Clean(room, now, minutes).members;
  }

  /**
   * The loop cleanupInactiveSessions runs over one room: the stale members are listed first and
   * then removed one by one, each removal counted.
   */
  method RemoveStaleMembers(room: RoomState, now: int, minutes: int) returns (cleaned: RoomState, removedCount: int)
    requires MembersKeyed(room)
    ensures cleaned == Clean(room, now, minutes)
    ensures removedCount == |StaleIds(room, now, minutes)|
  {
    var staleUsers := StaleIds(room, now, minutes);
    var todo := staleUsers;
    ghost var gone: set<string> := {};
    cleaned := room;
    removedCount := 0;
    WithoutEnds(room, now, minutes);
    while todo != {}
      invariant todo <= staleUsers && gone == staleUsers - todo
      invariant cleaned == Without(room, gone)
      invariant removedCount + |todo| == |staleUsers|
      decreases |todo|
    {
      var j :| j in todo;
      WithoutOneMore(room, gone, j);
      cleaned := RemoveMember(cleaned, room.members[j].sessionId).0;
      removedCount := removedCount + 1;
      gone := gone + {j};
      todo := todo - {j};
    }
  }

  /**
   * The table cleanupInactiveSessions has made after visiting the rooms under `visited`: those
   * rooms are cleaned, and the entries under the ids of the emptied ones are gone.
   */
  ghost function PartialSweep(t: RoomTable, visited: set<string>, now: int, minutes: int): RoomTable {
    var doomed := DoomedIds(t, visited, now, minutes);
    map k | k in t && k !in doomed :: if k in visited then Clean(t[k], now, minutes) else t[k]
  }

  /** Visiting room k: its entry, if still there, is replaced by the cleaned room, then the entry under its id goes if it is emptied. */
  lemma PartialSweepStep(t: RoomTable, visited: set<string>, k: string, now: int, minutes: int)
    requires k in t && k !in visited
    ensures var p := PartialSweep(t, visited, now, minutes);
      var cleaned := Clean(t[k], now, minutes);
      var p' := if k in p then p[k := cleaned] else p;
      PartialSweep(t, visited + {k}, now, minutes) == if Emptied(t[k], now, minutes) then p' - {cleaned.id} else p'
  {
    DoomedAdd(t, visited, k, now, minutes);
  }

  /** Before the first visit nothing has changed; after the last the table is the sweep's. */
  lemma PartialSweepEnds(t: RoomTable, now: int, minutes: int)
    ensures PartialSweep(t, {}, now, minutes) == t
    ensures PartialSweep(t, t.Keys, now, minutes) == Sweep(t, now, minutes)
  {
    assert DoomedIds(t, {}, now, minutes) == {};
  }

  class RoomService {
    /** The rooms by key, each one as the state of its ChatRoom. */
    var rooms: RoomTable

    ghost predicate Valid()
      reads this
    {
      AllMembersKeyed(rooms)
    }

    constructor ()
      ensures Valid() && rooms == map[]
    {
      rooms := map[];
    }

    /** createRoom(name, description): a new ChatRoom filed under its own fresh id. */
    method CreateRoom(freshId: string, name: Option<string>, description: Option<string>, now: int) returns (room: RoomState)
      modifies this
      ensures old(Valid()) ==> Valid()
      ensures rooms == Create(old(rooms), freshId, name, description, now)
      ensures Lookup(rooms, freshId) == Some(room)
    {
      var r := new ChatRoom(freshId, name, description, now);
      room := r.State();
      rooms := rooms[freshId := room];
    }

    /** getRoom(roomId). */
    function GetRoom(roomId: string): (r: Option<RoomState>)
      reads this
      ensures r.Some? <==> roomId in rooms
      ensures r.Some? ==> r.value == rooms[roomId]
    {
      if roomId in rooms then Some(rooms[roomId]) else None
    }

    /** deleteRoom(roomId): true exactly when an entry was removed. */
    method DeleteRoom(roomId: string) returns (deleted: bool)
      modifies this
      ensures old(Valid()) ==> Valid()
      ensures deleted <==> roomId in old(rooms)
      ensures rooms == old(rooms) - {roomId}
    {
      deleted := roomId in rooms;
      rooms := rooms - {roomId};
    }

    /** roomExists(roomId). */
    predicate RoomExists(roomId: string)
      reads this
      ensures RoomExists(roomId) <==> GetRoom(roomId).Some?
    {
      roomId in rooms
    }

    /** getOrCreateDefaultRoom(roomId): computeIfAbsent with an auto-created room. */
    method GetOrCreateDefaultRoom(roomId: string, freshId: string, now: int) returns (room: RoomState)
      modifies this
      ensures old(Valid()) ==> Valid()
      ensures roomId in old(rooms) ==> rooms == old(rooms) && room == rooms[roomId]
      ensures roomId !in old(rooms) ==> rooms == old(rooms)[roomId := room] && room == AutoCreated(roomId, freshId, now)
    {
      if roomId in rooms {
        room := rooms[roomId];
      } else {
        var r := new ChatRoom(freshId, Some(AutoRoomName(roomId)), Some("Auto-created room"), now);
        room := r.State();
        rooms := rooms[roomId := room];
      }
    }

    /** addUserToRoom(roomId, username, sessionId). */
    method AddUserToRoom(roomId: string, username: string, sessionId: string, freshId: string, now: int) returns (added: bool)
      modifies this
      ensures old(Valid()) ==> Valid()
      ensures (rooms, added) == Join(old(rooms), roomId, username, sessionId, freshId, now)
    {
      var room := GetOrCreateDefaultRoom(roomId, freshId, now);
      var user := new UserSession(sessionId, username, now);
      var joined := AddMember(room, user.State());
      added := joined.1;
      if added {
        rooms := rooms[roomId := joined.0];
        assert rooms == old(rooms)[roomId := joined.0];
      } else {
        assert roomId in old(rooms);
      }
    }

    /** removeUserFromRoom(roomId, sessionId). */
    method RemoveUserFromRoom(roomId: string, sessionId: string) returns (removed: bool)
      modifies this
      ensures old(Valid()) ==> Valid()
      ensures (rooms, removed) == Leave(old(rooms), roomId, sessionId)
    {
      if roomId !in rooms {
        return false;
      }
      var left := RemoveMember(rooms[roomId], sessionId);
      removed := left.1;
      rooms := rooms[roomId := left.0];
      if left.0.members == map[] && !IsDefaultRoom(roomId) {
        rooms := rooms - {roomId};
        assert rooms == old(rooms) - {roomId};
      }
    }

    /** incrementMessageCount(roomId). */
    method IncrementMessageCount(roomId: string)
      modifies this
      ensures old(Valid()) ==> Valid()
      ensures rooms == Bump(old(rooms), roomId)
    {
      if roomId in rooms {
        rooms := rooms[roomId := WithMessage(rooms[roomId])];
      }
    }

    /** getRoomUsers(roomId). */
    function GetRoomUsers(roomId: string): (users: set<SessionState>)
      reads this
      ensures users == UsersOf(rooms, roomId)
    {
      if roomId in rooms then rooms[roomId].members.Values else {}
    }

    /** getRoomUserCount(roomId): the size of the member set, 0 for an unknown key. */
    function GetRoomUserCount(roomId: string): (n: nat)
      reads this
      ensures n == 0 <==> GetRoomUsers(roomId) == {}
    {
      if roomId in rooms then |rooms[roomId].members| else 0
    }

    /** In a valid registry the count is the number of sessions getRoomUsers returns. */
    lemma UserCountCountsUsers(roomId: string)
      requires Valid()
      ensures GetRoomUserCount(roomId) == |GetRoomUsers(roomId)|
    {
      UserCountMatchesUsers(rooms, roomId);
    }

    /**
     * The rest of the visit of the room under k, once its stale members are removed: the cleaned
     * room stays in its entry, if that is still there, and the entry under the room's own id is
     * removed when the room is empty and its id is not a default one.
     */
    method SweepRoom(ghost snapshot: RoomTable, ghost visited: set<string>, k: string, cleaned: RoomState, now: int, minutes: int)
      modifies this
      requires k in snapshot && k !in visited && cleaned == Clean(snapshot[k], now, minutes)
      requires rooms == PartialSweep(snapshot, visited, now, minutes)
      ensures rooms == PartialSweep(snapshot, visited + {k}, now, minutes)
    {
      PartialSweepStep(snapshot, visited, k, now, minutes);
      if k in rooms {
        rooms := rooms[k := cleaned];
      }
      if cleaned.members == map[] && !IsDefaultRoom(cleaned.id) {
        rooms := rooms - {cleaned.id};
      }
    }

    /** cleanupInactiveSessions(inactiveMinutes), over the rooms present when it starts. */
    method CleanupInactiveSessions(inactiveMinutes: int, now: int) returns (cleanedUp: int)
      modifies this
      requires Valid()
      ensures Valid()
      ensures rooms == Sweep(old(rooms), now, inactiveMinutes)
      ensures cleanedUp == SweptCount(old(rooms), now, inactiveMinutes)
    {
      var snapshot := rooms;
      ghost var staleOf := StaleCounts(snapshot, now, inactiveMinutes);
      var todo := snapshot.Keys;
      ghost var visited: set<string> := {};
      cleanedUp := 0;
      RestrictEnds(staleOf, {});
      PartialSweepEnds(snapshot, now, inactiveMinutes);
      while todo != {}
        invariant todo <= snapshot.Keys && visited == snapshot.Keys - todo
        invariant rooms == PartialSweep(snapshot, visited, now, inactiveMinutes)
        invariant cleanedUp == Sum(Restrict(staleOf, visited))
        decreases |todo|
      {
        var k :| k in todo;
        var cleaned, n := RemoveStaleMembers(snapshot[k], now, inactiveMinutes);
        cleanedUp := cleanedUp + n;
        SweepRoom(snapshot, visited, k, cleaned, now, inactiveMinutes);
        RestrictAdd(staleOf, visited, k);
        visited := visited + {k};
        todo := todo - {k};
      }
      RestrictEnds(staleOf, visited);
      OperationsKeepMembersKeyed(snapshot, "", "", "", "", None, None, now, inactiveMinutes);
    }

    /** getStats(): the number of rooms and the sums of their user counts and message counts. */
    method GetStats() returns (stats: RoomStats)
      ensures stats == RoomStats(|rooms|, TotalUsers(rooms), TotalMessages(rooms))
    {
      ghost var usersOf, messagesOf := UserCounts(rooms), MessageCounts(rooms);
      var totalUsers, totalMessages := 0, 0;
      var todo := rooms.Keys;
      ghost var done: set<string> := {};
      RestrictEnds(usersOf, {});
      RestrictEnds(messagesOf, {});
      while todo != {}
        invariant todo <= rooms.Keys && done == rooms.Keys - todo
        invariant totalUsers == Sum(Restrict(usersOf, done))
        invariant totalMessages == Sum(Restrict(messagesOf, done))
        decreases |todo|
      {
        var k :| k in todo;
        totalUsers := totalUsers + |rooms[k].members|;
        totalMessages := totalMessages + rooms[k].messageCount;
        RestrictAdd(usersOf, done, k);
        RestrictAdd(messagesOf, done, k);
        done := done + {k};
        todo := todo - {k};
      }
      RestrictEnds(usersOf, done);
      RestrictEnds(messagesOf, done);
      stats := RoomStats(|rooms|, totalUsers, totalMessages);
    }
  }
}
