# Chat room and session registry, modelled in Dafny

This project models the core of a Spring WebSocket chat backend:

- the user session (`UserSession`);
- the chat room with its member set and message counter (`ChatRoom`);
- the chat message and its factories (`ChatMessage`);
- the room registry (`RoomService`) and the session registry (`UserSessionService`);
- the message pipeline on top of them (`ChatService`), which validates, sanitises, counts and broadcasts;
- the two request validators (`ChatMessageDto`, `CreateRoomDto`).

The model follows the source file by file:

| Dafny file | module | Java file |
|---|---|---|
| `UserSession.dfy` | `SessionModel` | `UserSession` |
| `ChatRoom.dfy` | `RoomModel` | `ChatRoom` |
| `ChatMessage.dfy` | `MessageModel` | `ChatMessage` and `MessageType` |
| `RoomService.dfy` | `RoomServices` | `RoomService` |
| `UserSessionService.dfy` | `SessionServices` | `UserSessionService` |
| `ChatService.dfy` | `ChatServices` | `ChatService` |
| `Dto.dfy` | `Dtos` | both DTOs |

Three helper modules support the rest:

- `Wrappers` holds `Option`.
- `JavaText` holds the pieces of `java.lang.String` the core relies on:
  - `trim()`, which strips characters ≤ U+0020;
  - `startsWith`;
  - `substring(0, k)`;
  - `hashCode()` in 32-bit int arithmetic.
- `MapFacts` holds sums over map values for the statistics.

Each registry is specified first by pure functions on a table of values:

- `RoomServices.Join`, `Leave`, `Bump`, `Sweep`;
- `SessionServices.CreateOrUpdate`, `Remove`, `TouchUser`, `SweepStale`.

The lemmas about those functions state what the source promises.

The classes `UserSession`, `ChatRoom`, `RoomService`, `UserSessionService` and `ChatService` update their fields in place. Their methods are proved to produce exactly the table those functions give:

- `CleanupInactiveSessions` and `CleanupStaleSessions` are loops over a snapshot of the keys.
- So are `UpdateUserActivity`, `GetSessionByUsername` and `RoomService.GetStats`.

The loop invariants of those methods tie the partial state to a ghost function of the keys visited so far.

Inputs from the environment are parameters:

- The clock is one integer `now` in milliseconds; `isStale(minutes)` compares with `now - minutes * 60000`.
- Every UUID the source would draw is a `freshId` parameter.

The outbound side of `SimpMessagingTemplate` is a sequence `outbound` of deliveries, each a destination and a payload:

- The destinations are `"/topic/public/" + roomId` and `"/topic/status/" + roomId`.
- Every broadcast appends one delivery.

A null string is `None`.

The three-argument DTO constructors are the datatype constructors, so they store their arguments unchanged.

Two behaviours of the code are easy to miss:

1. The two stale-session sweeps are independent.
   - `UserSessionService.cleanupStaleSessions` removes sessions from the session registry only.
   - `RoomService.cleanupInactiveSessions` judges room members by the `UserSession` object created when they joined. Nothing touches that object again.
   - So a member who keeps sending messages is still swept from the room once the threshold has passed since the join (`RoomServices.SweepIgnoresMessages`).
2. `isValidMessage` has no lower bound on the sender's length. The 3 to 50 characters of `ChatMessageDto` are therefore not enforced by the service (`Dtos.ShortSenderPassesOnlyTheService`).

## Model

Source paths are under `spring-boot-backend/src/main/java/com/chatapp/`, written here in full.

| member | source | states |
|---|---|---|
| SessionModel.TouchKeepsIdentity | spring-boot-backend/src/main/java/com/chatapp/model/UserSession.java:50-60 | updateActivity moves only lastActivity; deactivate also clears isActive; with a clock that does not go back both keep joinedAt ≤ lastActivity |
| SessionModel.JustTouchedIsFresh | spring-boot-backend/src/main/java/com/chatapp/model/UserSession.java:68-70 | a session last active at `now` is stale exactly for a negative threshold, so never for minutes ≥ 0 |
| SessionModel.StaleStaysStale | spring-boot-backend/src/main/java/com/chatapp/model/UserSession.java:68-70 | once stale, an untouched session stays stale as the clock moves on |
| SessionModel.UserSession.constructor | spring-boot-backend/src/main/java/com/chatapp/model/UserSession.java:29-45 | a new session has the given id and name, is active, and has joinedAt = lastActivity = now |
| SessionModel.UserSession.UpdateActivity | spring-boot-backend/src/main/java/com/chatapp/model/UserSession.java:50-52 | the new state is the old one with lastActivity = now; time order is kept |
| SessionModel.UserSession.Deactivate | spring-boot-backend/src/main/java/com/chatapp/model/UserSession.java:57-60 | isActive becomes false and lastActivity becomes now; nothing else changes |
| SessionModel.UserSession.SetActive | spring-boot-backend/src/main/java/com/chatapp/model/UserSession.java:109-111 | only isActive changes |
| SessionModel.UserSession.SetUsername | spring-boot-backend/src/main/java/com/chatapp/model/UserSession.java:85-87 | only username changes |
| SessionModel.UserSession.Equals | spring-boot-backend/src/main/java/com/chatapp/model/UserSession.java:113-119 | equal exactly when the other object is non-null with the same sessionId |
| SessionModel.UserSession.EqualsAgreesWithHash | spring-boot-backend/src/main/java/com/chatapp/model/UserSession.java:113-124 | equal sessions have equal hash codes, and equality is symmetric |
| SessionModel.UserSession.IsStale | spring-boot-backend/src/main/java/com/chatapp/model/UserSession.java:68-70 | for a threshold of zero or more, a stale session was last active before `now`, and it stays stale at any later clock value |
| SessionModel.UserSession.HashCode | spring-boot-backend/src/main/java/com/chatapp/model/UserSession.java:121-124 | the hash is a 32-bit int |
| RoomModel.AddMemberSpec | spring-boot-backend/src/main/java/com/chatapp/model/ChatRoom.java:57-59 | addUser succeeds exactly when the sessionId is new; on success the member is found under it and the count grows by one; on failure the room is unchanged; other members and fields never change |
| RoomModel.RemoveMemberSpec | spring-boot-backend/src/main/java/com/chatapp/model/ChatRoom.java:67-69 | removeUser returns true exactly when a member had that sessionId; afterwards none has; other members are untouched |
| RoomModel.AddThenRemove | spring-boot-backend/src/main/java/com/chatapp/model/ChatRoom.java:57-69 | removing a just-added member restores the room and reports success |
| RoomModel.RemoveTwice | spring-boot-backend/src/main/java/com/chatapp/model/ChatRoom.java:67-69 | a second removal fails and changes nothing |
| RoomModel.MembersStayKeyed | spring-boot-backend/src/main/java/com/chatapp/model/ChatRoom.java:24-89 | add, remove and increment keep every member filed under its own sessionId, so no two members share one |
| RoomModel.FindMemberSearches | spring-boot-backend/src/main/java/com/chatapp/model/ChatRoom.java:77-82 | findUser finds a member exactly when some member carries that sessionId, and what it finds carries it |
| RoomModel.KeyedMembersCount | spring-boot-backend/src/main/java/com/chatapp/model/ChatRoom.java:96-98 | in a keyed room the number of member sessions equals the number of sessionIds |
| RoomModel.WithMessageCountsOne | spring-boot-backend/src/main/java/com/chatapp/model/ChatRoom.java:87-89 | the counter rises by exactly one and nothing else changes |
| RoomModel.ChatRoom.Default | spring-boot-backend/src/main/java/com/chatapp/model/ChatRoom.java:31-37 | a new room has the fresh id, createdAt = now, no members, count 0, and is public |
| RoomModel.ChatRoom.constructor | spring-boot-backend/src/main/java/com/chatapp/model/ChatRoom.java:45-49 | as the default room, with the given name and description |
| RoomModel.ChatRoom.AddUser | spring-boot-backend/src/main/java/com/chatapp/model/ChatRoom.java:57-59 | the new state and result are those of AddMember; the keyed invariant is kept |
| RoomModel.ChatRoom.RemoveUser | spring-boot-backend/src/main/java/com/chatapp/model/ChatRoom.java:67-69 | the new state and result are those of RemoveMember; the keyed invariant is kept |
| RoomModel.ChatRoom.FindUser | spring-boot-backend/src/main/java/com/chatapp/model/ChatRoom.java:77-82 | the member under that sessionId, or none |
| RoomModel.ChatRoom.IncrementMessageCount | spring-boot-backend/src/main/java/com/chatapp/model/ChatRoom.java:87-89 | the new state has the counter raised by one |
| RoomModel.ChatRoom.UserCount | spring-boot-backend/src/main/java/com/chatapp/model/ChatRoom.java:96-98 | the number of members |
| RoomModel.ChatRoom.IsEmpty | spring-boot-backend/src/main/java/com/chatapp/model/ChatRoom.java:105-107 | holds exactly when the user count is 0, that is when there are no members |
| RoomModel.ChatRoom.SetPrivate | spring-boot-backend/src/main/java/com/chatapp/model/ChatRoom.java:162-164 | only isPrivate changes |
| MessageModel.NewMessage | spring-boot-backend/src/main/java/com/chatapp/model/ChatMessage.java:27-31 | a new message has the fresh id, timestamp now, type CHAT and no room, sender or content |
| MessageModel.Message | spring-boot-backend/src/main/java/com/chatapp/model/ChatMessage.java:41-47 | the default message with roomId, sender, content and type set to the arguments |
| MessageModel.FactoriesKeepRoom | spring-boot-backend/src/main/java/com/chatapp/model/ChatMessage.java:52-75 | every factory keeps the given roomId, the fresh id and the clock |
| MessageModel.ChatMessageSpec | spring-boot-backend/src/main/java/com/chatapp/model/ChatMessage.java:52-54 | type CHAT with sender and content as given |
| MessageModel.CreateChatMessage | spring-boot-backend/src/main/java/com/chatapp/model/ChatMessage.java:52-54 | type CHAT, with roomId, sender and content as given |
| MessageModel.CreateJoinMessage | spring-boot-backend/src/main/java/com/chatapp/model/ChatMessage.java:59-61 | type JOIN with roomId and sender as given and a non-null content |
| MessageModel.CreateLeaveMessage | spring-boot-backend/src/main/java/com/chatapp/model/ChatMessage.java:66-68 | type LEAVE with roomId and sender as given and a non-null content |
| MessageModel.CreateSystemMessage | spring-boot-backend/src/main/java/com/chatapp/model/ChatMessage.java:73-75 | type SYSTEM from sender "System", with roomId and content as given |
| MessageModel.JoinLeaveContent | spring-boot-backend/src/main/java/com/chatapp/model/ChatMessage.java:59-68 | join content is the sender then " joined the room" and type JOIN; leave content is the sender then " left the room" and type LEAVE; a null sender is written "null" |
| MessageModel.JoinLeaveDistinguishable | spring-boot-backend/src/main/java/com/chatapp/model/ChatMessage.java:59-68 | a join content never equals a leave content, and two senders give different join contents |
| MessageModel.SystemMessageSpec | spring-boot-backend/src/main/java/com/chatapp/model/ChatMessage.java:73-75 | sender "System", type SYSTEM, content as given |
| RoomServices.AutoRoomName | spring-boot-backend/src/main/java/com/chatapp/service/RoomService.java:181-182 | "Room " followed by the first min(8, length of key) characters of the key |
| RoomServices.CreateAddsOneRoom | spring-boot-backend/src/main/java/com/chatapp/service/RoomService.java:33-39 | createRoom adds exactly one empty room, under its own fresh id, and leaves every other entry unchanged |
| RoomServices.JoinUnknownKeyCreatesRoom | spring-boot-backend/src/main/java/com/chatapp/service/RoomService.java:179-186 | joining an unknown key creates one room under that key whose id is the fresh id rather than the key, with the auto name and description, and just the new session |
| RoomServices.JoinKnownKeyReusesRoom | spring-boot-backend/src/main/java/com/chatapp/service/RoomService.java:83-96 | joining a known key keeps the room's other fields, adds the session when its id is new, succeeds exactly then, and changes no other entry |
| RoomServices.RejoinChangesNothing | spring-boot-backend/src/main/java/com/chatapp/service/RoomService.java:83-96 | a join with a sessionId already in the room fails and leaves the table as it was |
| RoomServices.JoinTwiceIsRefused | spring-boot-backend/src/main/java/com/chatapp/service/RoomService.java:83-96 | a second join with the same key and sessionId fails, whatever the name or clock |
| RoomServices.OperationsKeepMembersKeyed | spring-boot-backend/src/main/java/com/chatapp/service/RoomService.java:33-233 | create, join, leave, increment, delete and the sweep all keep each member under its own sessionId |
| RoomServices.UserCountMatchesUsers | spring-boot-backend/src/main/java/com/chatapp/service/RoomService.java:146-160 | getRoomUserCount equals the number of sessions getRoomUsers returns, 0 for an unknown key |
| RoomServices.JoinedUserIsListed | spring-boot-backend/src/main/java/com/chatapp/service/RoomService.java:83-96 | after a join the room exists; after a successful one its users are the old ones plus the new session |
| RoomServices.UnknownKeyChangesNothing | spring-boot-backend/src/main/java/com/chatapp/service/RoomService.java:105-160 | on a key with no room, leave fails, increment is a no-op, getRoom is null and getRoomUsers is empty |
| RoomServices.LeaveDropsEmptyRoom | spring-boot-backend/src/main/java/com/chatapp/service/RoomService.java:105-126 | a room left empty under a non-default key is removed, even when nobody was removed from it |
| RoomServices.LeaveKeepsDefaultRoom | spring-boot-backend/src/main/java/com/chatapp/service/RoomService.java:119-123 | a room under a key starting with "general" or "lobby" stays, with the session removed |
| RoomServices.LeaveRemovesSession | spring-boot-backend/src/main/java/com/chatapp/service/RoomService.java:105-126 | leave succeeds exactly when the session was a member; afterwards it is not; no other entry changes |
| RoomServices.LeaveTwiceIsNoop | spring-boot-backend/src/main/java/com/chatapp/service/RoomService.java:105-126 | an immediate second leave of the same pair fails and changes nothing |
| RoomServices.BumpCountsOne | spring-boot-backend/src/main/java/com/chatapp/service/RoomService.java:133-138 | a known room's counter rises by one and that entry becomes the old room with only messageCount changed, every other entry kept; an unknown key changes nothing |
| RoomServices.IsDefaultRoom | spring-boot-backend/src/main/java/com/chatapp/service/RoomService.java:194-196 | holds exactly when the id's first seven characters are "general" or its first five are "lobby" |
| RoomServices.Join | spring-boot-backend/src/main/java/com/chatapp/service/RoomService.java:83-96 | succeeds exactly when the key is unknown or the sessionId is not yet a member; on success the key is filed and the new active session joined at `now` is its member; on failure the table is unchanged |
| RoomServices.Leave | spring-boot-backend/src/main/java/com/chatapp/service/RoomService.java:105-126 | true exactly when the key is known and the session a member; only that key's entry may go, and if it stays the session is no member of it |
| RoomServices.Bump | spring-boot-backend/src/main/java/com/chatapp/service/RoomService.java:133-138 | the keys stay the same |
| RoomServices.Sweep | spring-boot-backend/src/main/java/com/chatapp/service/RoomService.java:205-233 | no key is added |
| RoomServices.SweepLeavesNoStaleMember | spring-boot-backend/src/main/java/com/chatapp/service/RoomService.java:205-233 | after the sweep no room holds a stale member, and every remaining entry is the cleaned old room |
| RoomServices.SweepKeepsRoomWhoseIdIsNoKey | spring-boot-backend/src/main/java/com/chatapp/service/RoomService.java:221-225 | empty rooms are removed by room id: a room whose key is no room's id stays, though emptied |
| RoomServices.SweepKeepsEmptiedAutoCreatedRoom | spring-boot-backend/src/main/java/com/chatapp/service/RoomService.java:221-225 | so an auto-created room, whose id is a fresh value, survives the sweep with no members |
| RoomServices.SweepRemovesEmptiedRoomById | spring-boot-backend/src/main/java/com/chatapp/service/RoomService.java:221-225 | a non-default room under its own id whose members are all stale is removed |
| RoomServices.Bumped | spring-boot-backend/src/main/java/com/chatapp/service/RoomService.java:133-138 | counting messages keeps the table's keys |
| RoomServices.BumpedKeepsMembers | spring-boot-backend/src/main/java/com/chatapp/service/RoomService.java:133-138 | counting messages keeps every room's id and members |
| RoomServices.SweepIgnoresMessages | spring-boot-backend/src/main/java/com/chatapp/service/RoomService.java:205-219 | a member who joined longer ago than the threshold is swept from the room, however many messages were counted there since |
| RoomServices.RemoveStaleMembers | spring-boot-backend/src/main/java/com/chatapp/service/RoomService.java:208-219 | the inner loop: the room loses exactly its stale members, and each removal is counted |
| RoomServices.RoomService.constructor | spring-boot-backend/src/main/java/com/chatapp/service/RoomService.java:24 | the registry starts empty |
| RoomServices.RoomService.CreateRoom | spring-boot-backend/src/main/java/com/chatapp/service/RoomService.java:33-39 | the table becomes Create's, and the returned room is the one filed under the fresh id |
| RoomServices.RoomService.GetRoom | spring-boot-backend/src/main/java/com/chatapp/service/RoomService.java:47-49 | the room under the key, or none exactly when the key is absent |
| RoomServices.RoomService.DeleteRoom | spring-boot-backend/src/main/java/com/chatapp/service/RoomService.java:66-73 | true exactly when the key was present; afterwards it is absent and nothing else changed |
| RoomServices.RoomService.RoomExists | spring-boot-backend/src/main/java/com/chatapp/service/RoomService.java:168-170 | holds exactly when getRoom finds a room |
| RoomServices.RoomService.GetOrCreateDefaultRoom | spring-boot-backend/src/main/java/com/chatapp/service/RoomService.java:179-186 | a known key's room with the table unchanged, or an auto-created room filed under the key |
| RoomServices.RoomService.AddUserToRoom | spring-boot-backend/src/main/java/com/chatapp/service/RoomService.java:83-96 | the new table and result are those of Join |
| RoomServices.RoomService.RemoveUserFromRoom | spring-boot-backend/src/main/java/com/chatapp/service/RoomService.java:105-126 | the new table and result are those of Leave |
| RoomServices.RoomService.IncrementMessageCount | spring-boot-backend/src/main/java/com/chatapp/service/RoomService.java:133-138 | the new table is that of Bump |
| RoomServices.RoomService.GetRoomUsers | spring-boot-backend/src/main/java/com/chatapp/service/RoomService.java:146-149 | the member sessions of the room, empty for an unknown key |
| RoomServices.RoomService.GetRoomUserCount | spring-boot-backend/src/main/java/com/chatapp/service/RoomService.java:157-160 | 0 exactly when getRoomUsers is empty |
| RoomServices.RoomService.UserCountCountsUsers | spring-boot-backend/src/main/java/com/chatapp/service/RoomService.java:146-160 | in a valid registry the count is the number of sessions getRoomUsers returns |
| RoomServices.RoomService.SweepRoom | spring-boot-backend/src/main/java/com/chatapp/service/RoomService.java:221-225 | one visit of the outer loop extends the partial sweep by that room |
| RoomServices.RoomService.CleanupInactiveSessions | spring-boot-backend/src/main/java/com/chatapp/service/RoomService.java:205-233 | the table becomes Sweep's, and the result is the total number of stale members over all rooms |
| RoomServices.RoomService.GetStats | spring-boot-backend/src/main/java/com/chatapp/service/RoomService.java:240-250 | the number of rooms, the sum of the user counts and the sum of the message counts |
| SessionServices.CreateOrUpdateSpec | spring-boot-backend/src/main/java/com/chatapp/service/UserSessionService.java:31-47 | creates the entry when absent (active, joined now) and otherwise keeps joinedAt and isActive; sets the username; touches lastActivity; returns what is filed; no other entry changes |
| SessionServices.CreateOrUpdateIdempotent | spring-boot-backend/src/main/java/com/chatapp/service/UserSessionService.java:31-47 | a second call with the same arguments and clock changes nothing more |
| SessionServices.RemoveSpec | spring-boot-backend/src/main/java/com/chatapp/service/UserSessionService.java:65-73 | the key is absent afterwards; the result is the removed session deactivated at now, or none when absent; a second removal finds nothing |
| SessionServices.TouchUserSpec | spring-boot-backend/src/main/java/com/chatapp/service/UserSessionService.java:81-86 | every session of that username is touched and no longer stale; no other session changes; the active set is unchanged |
| SessionServices.DeactivateReactivate | spring-boot-backend/src/main/java/com/chatapp/service/UserSessionService.java:166-193 | deactivate keeps the entry, now inactive; reactivate then sets it active and touches it; both report success |
| SessionServices.UnknownSessionUnchanged | spring-boot-backend/src/main/java/com/chatapp/service/UserSessionService.java:93-193 | for an absent sessionId, deactivate and reactivate return false and, like updateSessionActivity, change nothing |
| SessionServices.UserActiveIffActiveSession | spring-boot-backend/src/main/java/com/chatapp/service/UserSessionService.java:107-110 | a user is active exactly when one of the active sessions carries that username |
| SessionServices.DeactivatingLastSession | spring-boot-backend/src/main/java/com/chatapp/service/UserSessionService.java:107-175 | deactivating a user's only active session makes isUserActive false for that user |
| SessionServices.ActiveAtMostAll | spring-boot-backend/src/main/java/com/chatapp/service/UserSessionService.java:200-208 | the active sessions are among the sessions, so active ≤ total |
| SessionServices.SweepPartitions | spring-boot-backend/src/main/java/com/chatapp/service/UserSessionService.java:142-158 | the sweep removes exactly the stale sessions, keeps the others unchanged, and kept plus removed is all of them |
| SessionServices.SweptOnceStale | spring-boot-backend/src/main/java/com/chatapp/service/UserSessionService.java:142-158 | a session once stale and left untouched is removed by any later sweep |
| SessionServices.OperationsKeepKeyed | spring-boot-backend/src/main/java/com/chatapp/service/UserSessionService.java:31-193 | every operation keeps each session filed under its own sessionId |
| SessionServices.OperationsKeepTimeOrder | spring-boot-backend/src/main/java/com/chatapp/service/UserSessionService.java:31-193 | with a clock that does not run back, every operation keeps joinedAt ≤ lastActivity ≤ now for all sessions |
| SessionServices.UserSessionService.constructor | spring-boot-backend/src/main/java/com/chatapp/service/UserSessionService.java:22 | the registry starts empty |
| SessionServices.UserSessionService.CreateOrUpdateSession | spring-boot-backend/src/main/java/com/chatapp/service/UserSessionService.java:31-47 | the new table and returned session are those of CreateOrUpdate |
| SessionServices.CreateOrUpdate | spring-boot-backend/src/main/java/com/chatapp/service/UserSessionService.java:31-47 | the entry under sessionId exists afterwards and is the session returned, with the given username and lastActivity = now; an absent id gets a new active session joined at now; no other entry changes |
| SessionServices.Remove | spring-boot-backend/src/main/java/com/chatapp/service/UserSessionService.java:65-73 | the key is gone and no other; a session is returned exactly when the key was there, and it is inactive and touched at now |
| SessionServices.TouchUser | spring-boot-backend/src/main/java/com/chatapp/service/UserSessionService.java:81-86 | the keys stay the same and every session of that username is last active at now |
| SessionServices.SweepStale | spring-boot-backend/src/main/java/com/chatapp/service/UserSessionService.java:142-158 | no key is added and no session left is stale |
| SessionServices.Reactivate | spring-boot-backend/src/main/java/com/chatapp/service/UserSessionService.java:183-193 | the keys stay the same; true exactly when the session exists, which is then active and last active at now |
| SessionServices.UserSessionService.GetSession | spring-boot-backend/src/main/java/com/chatapp/service/UserSessionService.java:55-57 | the session under the id, or none exactly when absent |
| SessionServices.UserSessionService.RemoveSession | spring-boot-backend/src/main/java/com/chatapp/service/UserSessionService.java:65-73 | the new table and result are those of Remove |
| SessionServices.UserSessionService.UpdateUserActivity | spring-boot-backend/src/main/java/com/chatapp/service/UserSessionService.java:81-86 | the new table is TouchUser's, whatever the roomId |
| SessionServices.UserSessionService.UpdateSessionActivity | spring-boot-backend/src/main/java/com/chatapp/service/UserSessionService.java:93-99 | the new table is TouchSession's, which is the old one for an absent id |
| SessionServices.UserSessionService.IsUserActive | spring-boot-backend/src/main/java/com/chatapp/service/UserSessionService.java:107-110 | holds exactly when some session has that username and is active |
| SessionServices.UserSessionService.GetActiveSessionCount | spring-boot-backend/src/main/java/com/chatapp/service/UserSessionService.java:117-121 | the number of active sessions, at most the number of sessions |
| SessionServices.UserSessionService.GetSessionByUsername | spring-boot-backend/src/main/java/com/chatapp/service/UserSessionService.java:129-134 | some session of that username exactly when one exists, otherwise none |
| SessionServices.UserSessionService.CleanupStaleSessions | spring-boot-backend/src/main/java/com/chatapp/service/UserSessionService.java:142-158 | the new table is SweepStale's and the result is the number of stale sessions |
| SessionServices.UserSessionService.DeactivateSession | spring-boot-backend/src/main/java/com/chatapp/service/UserSessionService.java:166-175 | the new table and result are those of Deactivate |
| SessionServices.UserSessionService.ReactivateSession | spring-boot-backend/src/main/java/com/chatapp/service/UserSessionService.java:183-193 | the new table and result are those of Reactivate |
| SessionServices.UserSessionService.GetStats | spring-boot-backend/src/main/java/com/chatapp/service/UserSessionService.java:200-208 | total is the number of sessions, active the number of active ones, and inactive = total - active ≥ 0 |
| ChatServices.ValidMessageCharacters | spring-boot-backend/src/main/java/com/chatapp/service/ChatService.java:168-176 | a message is valid exactly when it is non-null, roomId, sender and content each hold a character above U+0020, and content has at most 1000 characters |
| ChatServices.EscapeStepsOfOne | spring-boot-backend/src/main/java/com/chatapp/service/ChatService.java:187-192 | on one character the five replacements in their order give that character's entity |
| ChatServices.EscapeStepsIsEscapeAll | spring-boot-backend/src/main/java/com/chatapp/service/ChatService.java:187-192 | the five sequential replaceAll calls equal one pass escaping each character |
| ChatServices.EscapeAllLength | spring-boot-backend/src/main/java/com/chatapp/service/ChatService.java:187-192 | escaping makes a string no shorter and at most six times longer |
| ChatServices.SanitizeRemovesMarkup | spring-boot-backend/src/main/java/com/chatapp/service/ChatService.java:184-194 | sanitised content contains none of < > " ' / (null gives "") |
| ChatServices.IsValidMessage | spring-boot-backend/src/main/java/com/chatapp/service/ChatService.java:168-176 | a valid message is non-null with non-null content that is not empty |
| ChatServices.SanitizeContent | spring-boot-backend/src/main/java/com/chatapp/service/ChatService.java:184-194 | null gives ""; the result neither starts nor ends with a character at or below U+0020 |
| ChatServices.SanitizeIdempotent | spring-boot-backend/src/main/java/com/chatapp/service/ChatService.java:184-194 | sanitising sanitised content changes nothing |
| ChatServices.SanitizeKeepsValidContent | spring-boot-backend/src/main/java/com/chatapp/service/ChatService.java:168-194 | content that passes validation is still non-empty after sanitising |
| ChatServices.LimitCheckedBeforeEscaping | spring-boot-backend/src/main/java/com/chatapp/service/ChatService.java:168-194 | 1000 '<' characters pass validation and are broadcast as 4000 characters |
| ChatServices.JoinAnnouncedOnlyOnSuccess | spring-boot-backend/src/main/java/com/chatapp/service/ChatService.java:78-101 | a successful join sends a JOIN message to the public topic, then "joined" to the status topic; a refused join sends nothing |
| ChatServices.SecondLeaveIsSilent | spring-boot-backend/src/main/java/com/chatapp/service/ChatService.java:111-134 | an immediate second leave of the same pair changes nothing, returns false and sends nothing |
| ChatServices.LeaveAnnouncedOnlyOnSuccess | spring-boot-backend/src/main/java/com/chatapp/service/ChatService.java:111-134 | a leave is announced (LEAVE message, then "left") exactly when the session was in the room |
| ChatServices.ProcessedMessageSpec | spring-boot-backend/src/main/java/com/chatapp/service/ChatService.java:47-57 | the broadcast message keeps room, sender, type and id, with non-empty content free of markup |
| ChatServices.ChatService.constructor | spring-boot-backend/src/main/java/com/chatapp/service/ChatService.java:25-31 | holds the two registries given; nothing sent yet |
| ChatServices.ChatService.BroadcastToRoom | spring-boot-backend/src/main/java/com/chatapp/service/ChatService.java:142-146 | appends the message for "/topic/public/" + roomId |
| ChatServices.ChatService.BroadcastUserStatus | spring-boot-backend/src/main/java/com/chatapp/service/ChatService.java:155-160 | appends the (username, status, time) payload for "/topic/status/" + roomId |
| ChatServices.ChatService.ProcessMessage | spring-boot-backend/src/main/java/com/chatapp/service/ChatService.java:39-68 | true exactly for a valid message; an invalid one changes nothing; a valid one counts the message in its room, touches the sender's sessions and sends the sanitised message once to the room's public topic |
| ChatServices.ChatService.HandleUserJoin | spring-boot-backend/src/main/java/com/chatapp/service/ChatService.java:78-101 | the rooms and result are those of Join, the session registry is untouched, and the join events are sent only on success |
| ChatServices.ChatService.HandleUserLeave | spring-boot-backend/src/main/java/com/chatapp/service/ChatService.java:111-134 | the rooms and result are those of Leave, the session registry is untouched, and the leave events are sent only on success |
| Dtos.EmptyChatMessageDto | spring-boot-backend/src/main/java/com/chatapp/dto/ChatMessageDto.java:28-29 | the no-argument DTO has every field null and does not validate |
| Dtos.ChatMessageDtoValid | spring-boot-backend/src/main/java/com/chatapp/dto/ChatMessageDto.java:14-23 | a valid DTO has all three fields, a sender of 3 to 50 characters and a content of 1 to 1000 |
| Dtos.CreateRoomDtoValid | spring-boot-backend/src/main/java/com/chatapp/dto/CreateRoomDto.java:14-19 | a valid request has a non-blank name of 3 to 100 characters |
| Dtos.EmptyCreateRoomDto | spring-boot-backend/src/main/java/com/chatapp/dto/CreateRoomDto.java:21-27 | the no-argument request is not private, has no name and does not validate |
| Dtos.ValidDtoGivesValidMessage | spring-boot-backend/src/main/java/com/chatapp/dto/ChatMessageDto.java:14-23 | a chat message built from a valid DTO's fields passes isValidMessage |
| Dtos.ShortSenderPassesOnlyTheService | spring-boot-backend/src/main/java/com/chatapp/dto/ChatMessageDto.java:17-19 | a non-blank sender shorter than 3 passes isValidMessage but fails the DTO |
| Dtos.WhitespaceSenderRejected | spring-boot-backend/src/main/java/com/chatapp/dto/ChatMessageDto.java:17-19 | a sender of 3 to 50 whitespace characters meets @Size but not @NotBlank |
| Dtos.ValidDtoContentMayGrow | spring-boot-backend/src/main/java/com/chatapp/dto/ChatMessageDto.java:21-23 | a valid DTO's content may sanitise to more than 1000 characters |
| Dtos.DescriptionOnlyBounded | spring-boot-backend/src/main/java/com/chatapp/dto/CreateRoomDto.java:18-19 | with a valid name, a null description is valid and a given one is valid exactly when at most 500 characters long |
| Dtos.ValidRequestNamesRoom | spring-boot-backend/src/main/java/com/chatapp/dto/CreateRoomDto.java:14-19 | a room created from a valid request has a non-blank name of 3 to 100 characters and a description of at most 500 |

## Left out

- Room and session objects: each registry holds the states of its room or session objects, not references to them.
  - Each object is filed under exactly one key and reached only through its service, so the tables carry the same information.
  - Aliasing is not captured. A caller that keeps a returned ChatRoom or UserSession and mutates it (for instance a controller calling setPrivate) is outside the model.
- Counters are unbounded integers: `messageCount++` and the statistics sums do not model 32-bit wrap-around.
  - `hashCode` does model it.
- Characters are Dafny chars; UTF-16 code units and surrogate pairs are not modelled in lengths or `substring`.
- `LocalDateTime.now()` and `System.currentTimeMillis()` are one integer millisecond clock passed in as `now`.
  - UUIDs are `freshId` parameters. No freshness is assumed.
- The no-argument `UserSession()` constructor is not modelled: it is only reached through the two-argument one. Setters with no caller in the core:
  - are modelled for ChatMessage by datatype update;
  - are modelled for ChatRoom only for `setPrivate`;
  - are not modelled otherwise (`setSessionId`, `setJoinedAt`, `setActiveUsers`, `setId`, ...).
- Null arguments to the services and the `try`/`catch` paths of ChatService are not modelled.
  - The services' string arguments are non-null strings.
  - An exception, which would make the handlers return false, cannot arise in the model.
- RoomService.CleanupInactiveSessions: it visits every room present when it starts, including one whose entry an earlier visit removed.
  - An entry is removed when another room's id equals its key.
  - The weakly consistent ConcurrentHashMap iterator may skip such a room, and then its stale members are not counted.
- Concurrency: all operations are atomic and sequential.
- Logging (SLF4J), Jackson formatting and `toString` are not modelled.
- `getAllRooms` returns the live value collection; a view of a map of values has nothing to state beyond the table itself.
- Controllers, configuration and bootstrap are not part of this model.
- ChatServices.ChatService.ProcessMessage: `message.setContent(...)` also changes the caller's message object. The model broadcasts a sanitised copy and leaves the caller's value alone.
- SessionServices.UserSessionService.GetSessionByUsername: the source returns the first match in the map's iteration order. The model returns some match and does not fix which.
- RoomServices.RoomService.GetStats: the stream sums are written as one loop over the keys.
