/**
 * ChatService: validates and sanitises chat messages, updates the room and session registries
 * and broadcasts. The messaging template is modelled as a list of outbound deliveries, each a
 * destination and a payload, to which every broadcast appends one entry.
 */
module ChatServices {

  import opened Wrappers
  import opened JavaText
  import opened SessionModel
  import opened MessageModel
  import opened RoomServices
  import opened SessionServices

  /** The longest message content isValidMessage accepts. */
  const MaxContentLength: int := 1000

  function PublicTopic(roomId: string): string {
    "/topic/public/" + roomId
  }

  function StatusTopic(roomId: string): string {
    "/topic/status/" + roomId
  }

  /** What is sent: a chat message, or a UserStatusMessage(username, status, timestamp). */
  datatype Payload =
    | MessagePayload(message: ChatMessage)
    | StatusPayload(username: string, status: string, timestamp: int)

  datatype Delivery = Delivery(destination: string, payload: Payload)

  // ---------------------------------------------------------------- validation

  /** Not null and not empty after trim(). */
  predicate Present(s: Option<string>) {
    s.Some? && !IsBlank(s.value)
  }

  /** isValidMessage(message). */
  predicate IsValidMessage(message: Option<ChatMessage>)
    ensures IsValidMessage(message) ==> message.Some? && message.value.content.Some? && message.value.content.value != []
  {
    && message.Some?
    && Present(message.value.roomId)
    && Present(message.value.sender)
    && Present(message.value.content)
    && |message.value.content.value| <= MaxContentLength
  }

  /**
   * isValidMessage in terms of characters: roomId, sender and content are all non-null and each
   * holds a character above U+0020, and the content has at most 1000 characters.
   */
  lemma ValidMessageCharacters(m: ChatMessage)
    ensures !IsValidMessage(None)
    ensures IsValidMessage(Some(m)) <==>
      && m.roomId.Some? && (exists i :: 0 <= i < |m.roomId.value| && !IsTrimmable(m.roomId.value[i]))
      && m.sender.Some? && (exists i :: 0 <= i < |m.sender.value| && !IsTrimmable(m.sender.value[i]))
      && m.content.Some? && (exists i :: 0 <= i < |m.content.value| && !IsTrimmable(m.content.value[i]))
      && |m.content.value| <= MaxContentLength
  {
    if m.roomId.Some? {
      BlankIffAllTrimmable(m.roomId.value);
    }
    if m.sender.Some? {
      BlankIffAllTrimmable(m.sender.value);
    }
    if m.content.Some? {
      BlankIffAllTrimmable(m.content.value);
    }
  }

  // ---------------------------------------------------------------- sanitising

  /** String.replaceAll(target, replacement) for a one-character pattern and a replacement with no '$' or '\'. */
  function ReplaceAll(s: string, target: char, replacement: string): string
    decreases |s|
  {
    if s == [] then []
    else (if s[0] == target then replacement else [s[0]]) + ReplaceAll(s[1..], target, replacement)
  }

  /** The five replacements of sanitizeContent, in their order, before the final trim. */
  function EscapeSteps(s: string): string {
    var lt := ReplaceAll(s, '<', "&lt;");
    var gt := ReplaceAll(lt, '>', "&gt;");
    var quot := ReplaceAll(gt, '"', "&quot;");
    var apos := ReplaceAll(quot, '\'', "&#x27;");
    ReplaceAll(apos, '/', "&#x2F;")
  }

  /** sanitizeContent(content): "" for null, otherwise the five replacements followed by trim(). */
  function SanitizeContent(content: Option<string>): (r: string)
    ensures content.None? ==> r == ""
    ensures r == [] || (!IsTrimmable(r[0]) && !IsTrimmable(r[|r| - 1]))
  {
    if content.None? then "" else Trim(EscapeSteps(content.value))
  }

  /** The characters sanitizeContent escapes. */
  predicate IsMarkup(c: char) {
    c == '<' || c == '>' || c == '"' || c == '\'' || c == '/'
  }

  /** The entity one character is escaped to, as a single pass would write it. */
  function Escape(c: char): string {
    match c
    case '<' => "&lt;"
    case '>' => "&gt;"
    case '"' => "&quot;"
    case '\'' => "&#x27;"
    case '/' => "&#x2F;"
    case _ => [c]
  }

  /** Escaping every character in one pass: the reference the five sequential replacements are compared with. */
  function EscapeAll(s: string): string
    decreases |s|
  {
    if s == [] then [] else Escape(s[0]) + EscapeAll(s[1..])
  }

  predicate MarkupFree(s: string) {
    forall i :: 0 <= i < |s| ==> !IsMarkup(s[i])
  }

  lemma {:induction false} ReplaceAllAppend(a: string, b: string, target: char, replacement: string)
    ensures ReplaceAll(a + b, target, replacement) == ReplaceAll(a, target, replacement) + ReplaceAll(b, target, replacement)
    decreases |a|
  {
    if a != [] {
      assert (a + b)[1..] == a[1..] + b;
      ReplaceAllAppend(a[1..], b, target, replacement);
    } else {
      assert a + b == b;
    }
  }

  lemma {:induction false} ReplaceAllAbsent(s: string, target: char, replacement: string)
    requires forall i :: 0 <= i < |s| ==> s[i] != target
    ensures ReplaceAll(s, target, replacement) == s
    decreases |s|
  {
    if s != [] {
      ReplaceAllAbsent(s[1..], target, replacement);
    }
  }

  lemma ReplaceAllOne(c: char, target: char, replacement: string)
    ensures ReplaceAll([c], target, replacement) == if c == target then replacement else [c]
  {
    assert [c][1..] == [];
  }

  /** The remaining replacements leave a string alone when it has none of their characters. */
  lemma AfterLt(s: string)
    requires forall i :: 0 <= i < |s| ==> s[i] != '>' && s[i] != '"' && s[i] != '\'' && s[i] != '/'
    ensures ReplaceAll(ReplaceAll(ReplaceAll(ReplaceAll(s, '>', "&gt;"), '"', "&quot;"), '\'', "&#x27;"), '/', "&#x2F;") == s
  {
    ReplaceAllAbsent(s, '>', "&gt;");
    ReplaceAllAbsent(s, '"', "&quot;");
    ReplaceAllAbsent(s, '\'', "&#x27;");
    ReplaceAllAbsent(s, '/', "&#x2F;");
  }

  lemma AfterGt(s: string)
    requires forall i :: 0 <= i < |s| ==> s[i] != '"' && s[i] != '\'' && s[i] != '/'
    ensures ReplaceAll(ReplaceAll(ReplaceAll(s, '"', "&quot;"), '\'', "&#x27;"), '/', "&#x2F;") == s
  {
    ReplaceAllAbsent(s, '"', "&quot;");
    ReplaceAllAbsent(s, '\'', "&#x27;");
    ReplaceAllAbsent(s, '/', "&#x2F;");
  }

  lemma AfterQuot(s: string)
    requires forall i :: 0 <= i < |s| ==> s[i] != '\'' && s[i] != '/'
    ensures ReplaceAll(ReplaceAll(s, '\'', "&#x27;"), '/', "&#x2F;") == s
  {
    ReplaceAllAbsent(s, '\'', "&#x27;");
    ReplaceAllAbsent(s, '/', "&#x2F;");
  }

  /** On one character the five replacements give that character's entity. */
  lemma EscapeStepsOfOne(c: char)
    ensures EscapeSteps([c]) == Escape(c)
  {
    ReplaceAllOne(c, '<', "&lt;");
    if c == '<' {
      AfterLt("&lt;");
      return;
    }
    ReplaceAllOne(c, '>', "&gt;");
    if c == '>' {
      AfterGt("&gt;");
      return;
    }
    ReplaceAllOne(c, '"', "&quot;");
    if c == '"' {
      AfterQuot("&quot;");
      return;
    }
    ReplaceAllOne(c, '\'', "&#x27;");
    if c == '\'' {
      ReplaceAllAbsent("&#x27;", '/', "&#x2F;");
      return;
    }
    ReplaceAllOne(c, '/', "&#x2F;");
  }

  lemma EscapeStepsAppend(a: string, b: string)
    ensures EscapeSteps(a + b) == EscapeSteps(a) + EscapeSteps(b)
  {
    var a1, b1 := ReplaceAll(a, '<', "&lt;"), ReplaceAll(b, '<', "&lt;");
    ReplaceAllAppend(a, b, '<', "&lt;");
    var a2, b2 := ReplaceAll(a1, '>', "&gt;"), ReplaceAll(b1, '>', "&gt;");
    ReplaceAllAppend(a1, b1, '>', "&gt;");
    var a3, b3 := ReplaceAll(a2, '"', "&quot;"), ReplaceAll(b2, '"', "&quot;");
    ReplaceAllAppend(a2, b2, '"', "&quot;");
    var a4, b4 := ReplaceAll(a3, '\'', "&#x27;"), ReplaceAll(b3, '\'', "&#x27;");
    ReplaceAllAppend(a3, b3, '\'', "&#x27;");
    ReplaceAllAppend(a4, b4, '/', "&#x2F;");
  }

  /**
   * The five replacements in sanitizeContent's order do what one pass escaping every character
   * does: no replacement text contains a character a later step replaces.
   */
  lemma {:induction false} EscapeStepsIsEscapeAll(s: string)
    ensures EscapeSteps(s) == EscapeAll(s)
    decreases |s|
  {
    if s != [] {
      assert s == [s[0]] + s[1..];
      EscapeStepsAppend([s[0]], s[1..]);
      EscapeStepsOfOne(s[0]);
      EscapeStepsIsEscapeAll(s[1..]);
    } else {
      assert EscapeSteps([]) == [];
    }
  }

  /** Escaping leaves no markup character, and leaves a markup-free string as it is. */
  lemma {:induction false} EscapeAllMarkupFree(s: string)
    ensures MarkupFree(EscapeAll(s))
    ensures MarkupFree(s) ==> EscapeAll(s) == s
    decreases |s|
  {
    if s != [] {
      EscapeAllMarkupFree(s[1..]);
      var e := Escape(s[0]);
      assert MarkupFree(e);
      forall i | 0 <= i < |EscapeAll(s)|
        ensures !IsMarkup(EscapeAll(s)[i])
      {
        if i >= |e| {
          assert EscapeAll(s)[i] == EscapeAll(s[1..])[i - |e|];
        }
      }
      if MarkupFree(s) {
        assert MarkupFree(s[1..]) by {
          forall i | 0 <= i < |s[1..]|
            ensures !IsMarkup(s[1..][i])
          {
            assert s[1..][i] == s[i + 1];
          }
        }
        assert !IsMarkup(s[0]);
      }
    }
  }

  /** A kept (non-trimmable) character of a string leads to a kept character of its escaped form. */
  lemma {:induction false} EscapeAllKeepsKept(s: string, i: int)
    requires 0 <= i < |s| && !IsTrimmable(s[i])
    ensures exists j :: 0 <= j < |EscapeAll(s)| && !IsTrimmable(EscapeAll(s)[j])
    decreases i
  {
    var e := Escape(s[0]);
    if i == 0 {
      assert EscapeAll(s)[0] == e[0];
    } else {
      assert s[1..][i - 1] == s[i];
      EscapeAllKeepsKept(s[1..], i - 1);
      var j :| 0 <= j < |EscapeAll(s[1..])| && !IsTrimmable(EscapeAll(s[1..])[j]);
      assert EscapeAll(s)[|e| + j] == EscapeAll(s[1..])[j];
    }
  }

  /** Escaping keeps a non-blank string non-blank. */
  lemma EscapeAllKeepsNonBlank(s: string)
    requires !IsBlank(s)
    ensures !IsBlank(EscapeAll(s))
  {
    BlankIffAllTrimmable(s);
    var i :| 0 <= i < |s| && !IsTrimmable(s[i]);
    EscapeAllKeepsKept(s, i);
    BlankIffAllTrimmable(EscapeAll(s));
  }

  /** Every character becomes between one and six characters. */
  lemma {:induction false} EscapeAllLength(s: string)
    ensures |s| <= |EscapeAll(s)| <= 6 * |s|
    decreases |s|
  {
    if s != [] {
      EscapeAllLength(s[1..]);
    }
  }

  lemma SliceMarkupFree(s: string, i: int, j: int)
    requires MarkupFree(s) && 0 <= i <= j <= |s|
    ensures MarkupFree(s[i..j])
  {
    forall k | 0 <= k < j - i
      ensures !IsMarkup(s[i..j][k])
    {
      assert s[i..j][k] == s[i + k];
    }
  }

  // ---------------------------------------------------------------- properties of sanitising

  /** No sanitised content contains any of the five markup characters. */
  lemma SanitizeRemovesMarkup(content: Option<string>)
    ensures content.None? ==> SanitizeContent(content) == ""
    ensures MarkupFree(SanitizeContent(content))
  {
    if content.Some? {
      var e := EscapeSteps(content.value);
      EscapeStepsIsEscapeAll(content.value);
      EscapeAllMarkupFree(content.value);
      TrimIsInfix(e);
      var i, j :| 0 <= i <= j <= |e| && Trim(e) == e[i..j];
      SliceMarkupFree(e, i, j);
    }
  }

  /** Sanitising sanitised content changes nothing. */
  lemma SanitizeIdempotent(content: Option<string>)
    ensures SanitizeContent(Some(SanitizeContent(content))) == SanitizeContent(content)
  {
    var r := SanitizeContent(content);
    SanitizeRemovesMarkup(content);
    EscapeStepsIsEscapeAll(r);
    EscapeAllMarkupFree(r);
    if content.Some? {
      TrimIdempotent(EscapeSteps(content.value));
    }
  }

  /** Content that isValidMessage accepts is still non-empty once sanitised. */
  lemma SanitizeKeepsValidContent(content: string)
    requires !IsBlank(content)
    ensures SanitizeContent(Some(content)) != []
    ensures |content| <= |EscapeSteps(content)| <= 6 * |content|
  {
    EscapeStepsIsEscapeAll(content);
    EscapeAllKeepsNonBlank(content);
    EscapeAllLength(content);
  }

  /** A string of n '<' characters escapes to n copies of "&lt;". */
  lemma {:induction false} EscapeAllOfAngles(n: nat)
    ensures |EscapeAll(seq(n, _ => '<'))| == 4 * n
    ensures n > 0 ==> EscapeAll(seq(n, _ => '<'))[0] == '&'
    ensures n > 0 ==> EscapeAll(seq(n, _ => '<'))[4 * n - 1] == ';'
  {
    if n > 0 {
      var s := seq(n, _ => '<');
      assert s[1..] == seq(n - 1, _ => '<');
      EscapeAllOfAngles(n - 1);
      assert EscapeAll(s) == "&lt;" + EscapeAll(s[1..]);
    }
  }

  /**
   * The 1000-character limit is checked on the raw content: the longest accepted content of '<'
   * characters is broadcast as 4000 characters.
   */
  lemma LimitCheckedBeforeEscaping(m: ChatMessage)
    requires Present(m.roomId) && Present(m.sender)
    requires m.content == Some(seq(MaxContentLength, _ => '<'))
    ensures IsValidMessage(Some(m))
    ensures |SanitizeContent(m.content)| == 4 * MaxContentLength
  {
    var s := seq(MaxContentLength, _ => '<');
    assert !IsBlank(s) by {
      BlankIffAllTrimmable(s);
      assert !IsTrimmable(s[0]);
    }
    EscapeStepsIsEscapeAll(s);
    EscapeAllOfAngles(MaxContentLength);
    TrimOfTrimmed(EscapeAll(s));
  }

  // ---------------------------------------------------------------- outbound events

  /** The deliveries handleUserJoin appends when the join succeeded: the JOIN message, then the "joined" status. */
  function JoinEvents(joined: bool, roomId: string, username: string, messageId: string, now: int): seq<Delivery> {
    if joined then
      [Delivery(PublicTopic(roomId), MessagePayload(CreateJoinMessage(messageId, now, Some(roomId), Some(username)))),
       Delivery(StatusTopic(roomId), StatusPayload(username, "joined", now))]
    else []
  }

  /** The deliveries handleUserLeave appends when the leave succeeded: the LEAVE message, then the "left" status. */
  function LeaveEvents(left: bool, roomId: string, username: string, messageId: string, now: int): seq<Delivery> {
    if left then
      [Delivery(PublicTopic(roomId), MessagePayload(CreateLeaveMessage(messageId, now, Some(roomId), Some(username)))),
       Delivery(StatusTopic(roomId), StatusPayload(username, "left", now))]
    else []
  }

  /** The message processMessage broadcasts: the same message with its content sanitised. */
  function Sanitized(m: ChatMessage): ChatMessage {
    m.(content := Some(SanitizeContent(m.content)))
  }

  /**
   * A successful join is announced twice, first in the room's public topic and then in its status
   * topic; a refused join is not announced at all. A re-join with a sessionId already in the room
   * is refused.
   */
  lemma JoinAnnouncedOnlyOnSuccess(t: RoomTable, roomId: string, username: string, sessionId: string,
                                   freshRoomId: string, messageId: string, now: int)
    ensures var (_, added) := Join(t, roomId, username, sessionId, freshRoomId, now);
      var ev := JoinEvents(added, roomId, username, messageId, now);
      && (added ==> |ev| == 2 && ev[0].destination == PublicTopic(roomId) && ev[1].destination == StatusTopic(roomId)
                    && ev[0].payload.message.msgType == JOIN && ev[0].payload.message.sender == Some(username)
                    && ev[1].payload.status == "joined")
      && (!added ==> ev == [])
      && (roomId in t && sessionId in t[roomId].members ==> !added)
  {
  }

  /** An immediate second leave of the same session from the same room removes nobody and announces nothing. */
  lemma SecondLeaveIsSilent(t: RoomTable, roomId: string, username: string, sessionId: string, messageId: string, now: int)
    ensures var (t1, _) := Leave(t, roomId, sessionId);
      var (t2, left) := Leave(t1, roomId, sessionId);
      t2 == t1 && !left && LeaveEvents(left, roomId, username, messageId, now) == []
  {
    LeaveTwiceIsNoop(t, roomId, sessionId);
  }

  /** A leave is announced exactly when the session was in the room, with a LEAVE message and a "left" status. */
  lemma LeaveAnnouncedOnlyOnSuccess(t: RoomTable, roomId: string, username: string, sessionId: string, messageId: string, now: int)
    ensures var (_, left) := Leave(t, roomId, sessionId);
      var ev := LeaveEvents(left, roomId, username, messageId, now);
      && (left <==> roomId in t && sessionId in t[roomId].members)
      && (left ==> |ev| == 2 && ev[0].destination == PublicTopic(roomId) && ev[1].destination == StatusTopic(roomId)
                   && ev[0].payload.message.msgType == LEAVE && ev[1].payload.status == "left")
      && (!left ==> ev == [])
  {
    LeaveRemovesSession(t, roomId, sessionId);
  }

  /** What processMessage broadcasts keeps room, sender, type and id, and its content is sanitised and non-empty. */
  lemma ProcessedMessageSpec(m: ChatMessage)
    requires IsValidMessage(Some(m))
    ensures var b := Sanitized(m);
      && b.roomId == m.roomId && b.sender == m.sender && b.msgType == m.msgType && b.id == m.id
      && b.content.Some? && b.content.value != [] && MarkupFree(b.content.value)
  {
    SanitizeKeepsValidContent(m.content.value);
    SanitizeRemovesMarkup(m.content);
  }

  // ---------------------------------------------------------------- the service object

  class ChatService {
    const roomService: RoomService
    const userSessionService: UserSessionService
    /** Everything sent through the messaging template, oldest first. */
    var outbound: seq<Delivery>

    ghost predicate Valid()
      reads this, roomService, userSessionService
    {
      roomService.Valid() && userSessionService.Valid()
    }

    constructor (roomService: RoomService, userSessionService: UserSessionService)
      ensures this.roomService == roomService && this.userSessionService == userSessionService
      ensures outbound == []
    {
      this.roomService := roomService;
      this.userSessionService := userSessionService;
      outbound := [];
    }

    /** broadcastToRoom(roomId, message). */
    method BroadcastToRoom(roomId: string, message: ChatMessage)
      modifies this
      ensures outbound == old(outbound) + [Delivery(PublicTopic(roomId), MessagePayload(message))]
    {
      outbound := outbound + [Delivery(PublicTopic(roomId), MessagePayload(message))];
    }

    /** broadcastUserStatus(roomId, username, status), stamped with the clock reading `now`. */
    method BroadcastUserStatus(roomId: string, username: string, status: string, now: int)
      modifies this
      ensures outbound == old(outbound) + [Delivery(StatusTopic(roomId), StatusPayload(username, status, now))]
    {
      outbound := outbound + [Delivery(StatusTopic(roomId), StatusPayload(username, status, now))];
    }

    /**
     * processMessage(message): an invalid message is refused with nothing changed; a valid one is
     * sanitised, counted in its room, touches every session of its sender and is broadcast.
     */
    method ProcessMessage(message: Option<ChatMessage>, now: int) returns (ok: bool)
      modifies this, roomService, userSessionService
      ensures old(Valid()) ==> Valid()
      ensures ok <==> IsValidMessage(message)
      ensures !ok ==> outbound == old(outbound) && roomService.rooms == old(roomService.rooms)
                      && userSessionService.sessions == old(userSessionService.sessions)
      ensures ok ==>
        && roomService.rooms == Bump(old(roomService.rooms), message.value.roomId.value)
        && userSessionService.sessions == TouchUser(old(userSessionService.sessions), message.value.sender.value, now)
        && outbound == old(outbound) + [Delivery(PublicTopic(message.value.roomId.value), MessagePayload(Sanitized(message.value)))]
    {
      if !IsValidMessage(message) {
        return false;
      }
      ghost var sessions0 := userSessionService.sessions;
      var roomId := message.value.roomId.value;
      var sender := message.value.sender.value;
      var m := Sanitized(message.value);
      roomService.IncrementMessageCount(roomId);
      assert userSessionService.sessions == sessions0;
      userSessionService.UpdateUserActivity(roomId, sender, now);
      BroadcastToRoom(roomId, m);
      return true;
    }

    /** handleUserJoin(roomId, username, sessionId): only the room registry is updated; the session registry is not. */
    method HandleUserJoin(roomId: string, username: string, sessionId: string, freshRoomId: string, messageId: string, now: int)
      returns (ok: bool)
      modifies this, roomService
      ensures old(Valid()) ==> Valid()
      ensures (roomService.rooms, ok) == Join(old(roomService.rooms), roomId, username, sessionId, freshRoomId, now)
      ensures userSessionService.sessions == old(userSessionService.sessions)
      ensures outbound == old(outbound) + JoinEvents(ok, roomId, username, messageId, now)
    {
      var added := roomService.AddUserToRoom(roomId, username, sessionId, freshRoomId, now);
      if added {
        var joinMessage := CreateJoinMessage(messageId, now, Some(roomId), Some(username));
        BroadcastToRoom(roomId, joinMessage);
        BroadcastUserStatus(roomId, username, "joined", now);
        return true;
      }
      return false;
    }

    /** handleUserLeave(roomId, username, sessionId). */
    method HandleUserLeave(roomId: string, username: string, sessionId: string, messageId: string, now: int)
      returns (ok: bool)
      modifies this, roomService
      ensures old(Valid()) ==> Valid()
      ensures (roomService.rooms, ok) == Leave(old(roomService.rooms), roomId, sessionId)
      ensures userSessionService.sessions == old(userSessionService.sessions)
      ensures outbound == old(outbound) + LeaveEvents(ok, roomId, username, messageId, now)
    {
      var removed := roomService.RemoveUserFromRoom(roomId, sessionId);
      if removed {
        var leaveMessage := CreateLeaveMessage(messageId, now, Some(roomId), Some(username));
        BroadcastToRoom(roomId, leaveMessage);
        BroadcastUserStatus(roomId, username, "left", now);
        return true;
      }
      return false;
    }
  }
}
