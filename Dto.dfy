/**
 * The two request objects: ChatMessageDto (a message from a WebSocket client) and CreateRoomDto
 * (a room creation request). Their field annotations become validity predicates: @NotBlank is
 * "not null and not empty after trim()", and @Size bounds the length of a non-null string and
 * accepts null. The three-argument constructors are the datatype constructors, which store their
 * arguments unchanged; the no-argument constructors leave every string null.
 */
module Dtos {

  import opened Wrappers
  import opened JavaText
  import opened MessageModel
  import opened RoomModel
  import opened RoomServices
  import opened ChatServices

  datatype ChatMessageDto = ChatMessageDto(roomId: Option<string>, sender: Option<string>, content: Option<string>)

  datatype CreateRoomDto = CreateRoomDto(name: Option<string>, description: Option<string>, isPrivate: bool)

  /** @NotBlank: the same test isValidMessage applies to each field. */
  predicate NotBlank(s: Option<string>) {
    Present(s)
  }

  /** @Size(min, max): null passes; otherwise the length lies in [min, max]. */
  predicate SizeWithin(s: Option<string>, min: int, max: int) {
    s.None? || min <= |s.value| <= max
  }

  /** The constraints on roomId, sender and content. */
  predicate ChatMessageDtoValid(d: ChatMessageDto)
    ensures ChatMessageDtoValid(d) ==>
      && d.roomId.Some? && d.sender.Some? && d.content.Some?
      && 3 <= |d.sender.value| <= 50 && 0 < |d.content.value| <= MaxContentLength
  {
    && NotBlank(d.roomId)
    && NotBlank(d.sender) && SizeWithin(d.sender, 3, 50)
    && NotBlank(d.content) && SizeWithin(d.content, 1, 1000)
  }

  /** The constraints on name and description; isPrivate is unconstrained. */
  predicate CreateRoomDtoValid(d: CreateRoomDto)
    ensures CreateRoomDtoValid(d) ==> d.name.Some? && 3 <= |d.name.value| <= 100 && !IsBlank(d.name.value)
  {
    && NotBlank(d.name) && SizeWithin(d.name, 3, 100)
    && SizeWithin(d.description, 0, 500)
  }

  /** ChatMessageDto(): every field null, so the object does not validate. */
  function EmptyChatMessageDto(): (d: ChatMessageDto)
    ensures d.roomId.None? && d.sender.None? && d.content.None?
    ensures !ChatMessageDtoValid(d)
  {
    ChatMessageDto(None, None, None)
  }

  /** CreateRoomDto(): no name or description and not private; without a name it does not validate. */
  function EmptyCreateRoomDto(): (d: CreateRoomDto)
    ensures d.name.None? && d.description.None? && !d.isPrivate
    ensures !CreateRoomDtoValid(d)
  {
    CreateRoomDto(None, None, false)
  }

  // ---------------------------------------------------------------- the DTO against isValidMessage

  /** A chat message built from the fields of a valid DTO passes isValidMessage. */
  lemma ValidDtoGivesValidMessage(d: ChatMessageDto, freshId: string, now: int)
    requires ChatMessageDtoValid(d)
    ensures IsValidMessage(Some(CreateChatMessage(freshId, now, d.roomId, d.sender, d.content)))
  {
  }

  /**
   * The converse fails: isValidMessage has no lower bound on the sender's length, so a one- or
   * two-character sender passes the service and fails the DTO.
   */
  lemma ShortSenderPassesOnlyTheService(roomId: string, sender: string, content: string, freshId: string, now: int)
    requires !IsBlank(roomId) && !IsBlank(content) && |content| <= MaxContentLength
    requires !IsBlank(sender) && |sender| < 3
    ensures IsValidMessage(Some(CreateChatMessage(freshId, now, Some(roomId), Some(sender), Some(content))))
    ensures !ChatMessageDtoValid(ChatMessageDto(Some(roomId), Some(sender), Some(content)))
  {
  }

  /** @Size alone does not make a field valid: a sender of 3 to 50 whitespace characters is still blank. */
  lemma WhitespaceSenderRejected(d: ChatMessageDto)
    requires d.sender.Some? && 3 <= |d.sender.value| <= 50
    requires forall i :: 0 <= i < |d.sender.value| ==> IsTrimmable(d.sender.value[i])
    ensures SizeWithin(d.sender, 3, 50) && !ChatMessageDtoValid(d)
  {
    BlankIffAllTrimmable(d.sender.value);
  }

  /** The DTO bounds the raw content, so a valid DTO's content may sanitise to more than 1000 characters. */
  lemma ValidDtoContentMayGrow()
    ensures var d := ChatMessageDto(Some("lobby"), Some("alice"), Some(seq(MaxContentLength, _ => '<')));
      ChatMessageDtoValid(d) && |SanitizeContent(d.content)| == 4 * MaxContentLength
  {
    var m := CreateChatMessage("", 0, Some("lobby"), Some("alice"), Some(seq(MaxContentLength, _ => '<')));
    assert !IsBlank("lobby") by {
      BlankIffAllTrimmable("lobby");
      assert !IsTrimmable("lobby"[0]);
    }
    assert !IsBlank("alice") by {
      BlankIffAllTrimmable("alice");
      assert !IsTrimmable("alice"[0]);
    }
    LimitCheckedBeforeEscaping(m);
  }

  // ---------------------------------------------------------------- the room request

  /** A description may be null, empty or blank: only its length is bounded. */
  lemma DescriptionOnlyBounded(name: Option<string>, description: string, isPrivate: bool)
    requires NotBlank(name) && SizeWithin(name, 3, 100)
    ensures CreateRoomDtoValid(CreateRoomDto(name, None, isPrivate))
    ensures CreateRoomDtoValid(CreateRoomDto(name, Some(description), isPrivate)) <==> |description| <= 500
  {
  }

  /** A room created from a valid request has a non-blank name of 3 to 100 characters and a short description. */
  lemma ValidRequestNamesRoom(d: CreateRoomDto, t: RoomTable, freshId: string, now: int)
    requires CreateRoomDtoValid(d)
    ensures var room := Create(t, freshId, d.name, d.description, now)[freshId];
      && room.name == d.name && room.name.Some? && !IsBlank(room.name.value) && 3 <= |room.name.value| <= 100
      && room.description == d.description && (room.description.Some? ==> |room.description.value| <= 500)
  {
  }
}
