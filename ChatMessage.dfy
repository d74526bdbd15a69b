/**
 * ChatMessage: one message, with the constructors and the four factories that fix the content
 * and type of chat, join, leave and system messages. A message is a plain record whose setters
 * are field updates, so it is a datatype here. Fields a caller may leave null are Option values;
 * the message id and the timestamp come from the fresh id and the clock reading passed in.
 */
module MessageModel {

  import opened Wrappers

  /** MessageType. */
  datatype MessageType = CHAT | JOIN | LEAVE | SYSTEM

  datatype ChatMessage = ChatMessage(
    id: string,
    roomId: Option<string>,
    sender: Option<string>,
    content: Option<string>,
    msgType: MessageType,
    timestamp: int)

  /** What Java string concatenation writes for a possibly null string. */
  function Text(s: Option<string>): string {
    if s.Some? then s.value else "null"
  }

  /** ChatMessage(): a fresh id, the current time, type CHAT and no room, sender or content. */
  function NewMessage(freshId: string, now: int): (m: ChatMessage)
    ensures m.msgType == CHAT && m.id == freshId && m.timestamp == now
    ensures m.roomId.None? && m.sender.None? && m.content.None?
  {
    ChatMessage(freshId, None, None, None, CHAT, now)
  }

  /** ChatMessage(roomId, sender, content, type): the default message with the four fields set. */
  function Message(freshId: string, now: int, roomId: Option<string>, sender: Option<string>,
                   content: Option<string>, msgType: MessageType): (m: ChatMessage)
    ensures m == NewMessage(freshId, now).(roomId := roomId, sender := sender, content := content, msgType := msgType)
  {
    ChatMessage(freshId, roomId, sender, content, msgType, now)
  }

  /** createChatMessage(roomId, sender, content). */
  function CreateChatMessage(freshId: string, now: int, roomId: Option<string>, sender: Option<string>,
                             content: Option<string>): (m: ChatMessage)
    ensures m.msgType == CHAT && m.roomId == roomId && m.sender == sender && m.content == content
  {
    Message(freshId, now, roomId, sender, content, CHAT)
  }

  /** createJoinMessage(roomId, sender). */
  function CreateJoinMessage(freshId: string, now: int, roomId: Option<string>, sender: Option<string>): (m: ChatMessage)
    ensures m.msgType == JOIN && m.roomId == roomId && m.sender == sender && m.content.Some?
  {
    Message(freshId, now, roomId, sender, Some(Text(sender) + " joined the room"), JOIN)
  }

  /** createLeaveMessage(roomId, sender). */
  function CreateLeaveMessage(freshId: string, now: int, roomId: Option<string>, sender: Option<string>): (m: ChatMessage)
    ensures m.msgType == LEAVE && m.roomId == roomId && m.sender == sender && m.content.Some?
  {
    Message(freshId, now, roomId, sender, Some(Text(sender) + " left the room"), LEAVE)
  }

  /** createSystemMessage(roomId, content). */
  function CreateSystemMessage(freshId: string, now: int, roomId: Option<string>, content: Option<string>): (m: ChatMessage)
    ensures m.msgType == SYSTEM && m.roomId == roomId && m.sender == Some("System") && m.content == content
  {
    Message(freshId, now, roomId, Some("System"), content, SYSTEM)
  }

  // ---------------------------------------------------------------- properties of the factories

  /** Every factory keeps the room it is given, and the message's id and timestamp are the fresh id and the clock. */
  lemma FactoriesKeepRoom(freshId: string, now: int, roomId: Option<string>, sender: Option<string>, content: Option<string>)
    ensures var ms := [CreateChatMessage(freshId, now, roomId, sender, content), CreateJoinMessage(freshId, now, roomId, sender),
                       CreateLeaveMessage(freshId, now, roomId, sender), CreateSystemMessage(freshId, now, roomId, content)];
      forall i :: 0 <= i < |ms| ==> ms[i].roomId == roomId && ms[i].id == freshId && ms[i].timestamp == now
  {
  }

  /** A chat message carries sender and content exactly as given, with type CHAT. */
  lemma ChatMessageSpec(freshId: string, now: int, roomId: Option<string>, sender: Option<string>, content: Option<string>)
    ensures var m := CreateChatMessage(freshId, now, roomId, sender, content);
      m.sender == sender && m.content == content && m.msgType == CHAT
  {
  }

  /**
   * A join message has type JOIN, keeps its sender, and its content is the sender's name followed by
   * " joined the room"; a leave message is the same with LEAVE and " left the room". A null sender is
   * written as "null".
   */
  lemma JoinLeaveContent(freshId: string, now: int, roomId: Option<string>, sender: Option<string>)
    ensures var j := CreateJoinMessage(freshId, now, roomId, sender);
      && j.msgType == JOIN && j.sender == sender
      && j.content.Some? && |j.content.value| == |Text(sender)| + 16
      && j.content.value[..|Text(sender)|] == Text(sender) && j.content.value[|Text(sender)|..] == " joined the room"
    ensures var l := CreateLeaveMessage(freshId, now, roomId, sender);
      && l.msgType == LEAVE && l.sender == sender
      && l.content.Some? && |l.content.value| == |Text(sender)| + 14
      && l.content.value[..|Text(sender)|] == Text(sender) && l.content.value[|Text(sender)|..] == " left the room"
    ensures sender.None? ==> CreateJoinMessage(freshId, now, roomId, sender).content == Some("null joined the room")
  {
    if sender.None? {
      assert Text(sender) + " joined the room" == "null joined the room";
    }
  }

  /** The join and leave messages of the same sender never coincide, nor do those of two different senders. */
  lemma JoinLeaveDistinguishable(freshId: string, now: int, roomId: Option<string>, s1: Option<string>, s2: Option<string>)
    ensures CreateJoinMessage(freshId, now, roomId, s1).content != CreateLeaveMessage(freshId, now, roomId, s2).content
    ensures Text(s1) != Text(s2) ==> CreateJoinMessage(freshId, now, roomId, s1).content != CreateJoinMessage(freshId, now, roomId, s2).content
  {
    var j := Text(s1) + " joined the room";
    var l := Text(s2) + " left the room";
    if |j| == |l| {
      assert j[|j| - 10] == " joined the room"[6] == 'd';
      assert l[|l| - 10] == " left the room"[4] == 't';
    }
    if Text(s1) != Text(s2) {
      var j2 := Text(s2) + " joined the room";
      if |j| == |j2| {
        assert j[..|Text(s1)|] == Text(s1) && j2[..|Text(s2)|] == Text(s2);
      }
    }
  }

  /** A system message is sent by "System", with type SYSTEM and the content as given. */
  lemma SystemMessageSpec(freshId: string, now: int, roomId: Option<string>, content: Option<string>)
    ensures var m := CreateSystemMessage(freshId, now, roomId, content);
      m.sender == Some("System") && m.msgType == SYSTEM && m.content == content
  {
  }
}
