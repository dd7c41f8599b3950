/** The chat document (server/src/models/Chat.ts): field defaults, the group-name setter and
    length limit, and the pre-save check that separates group chats from direct chats. */
module ChatModel {
  import opened Common
  import Text

  datatype Chat = Chat(
    id: ChatId,
    participants: seq<UserId>,
    isGroupChat: bool,
    groupName: Option<string>,
    groupAvatar: string,
    groupAdmin: Option<UserId>,
    lastMessage: Option<MessageId>)

  const GroupNameMax: nat := 50

  /** The `trim: true` setter on `groupName`. */
  function NormaliseGroupName(name: Option<string>): (r: Option<string>)
    ensures r.Some? <==> name.Some?
    ensures r.Some? ==> r.value == Text.Trim(name.value)
  {
    match name
    case None => None
    case Some(n) => Some(Text.Trim(n))
  }

  /** A chat document as `Chat.create` builds it: `isGroupChat` defaults to false, the
      avatar to the empty string, and no last message yet. */
  function New(id: ChatId, participants: seq<UserId>, isGroupChat: Option<bool>,
               groupName: Option<string>, groupAdmin: Option<UserId>): (c: Chat)
    ensures c.id == id && c.participants == participants
    ensures c.isGroupChat <==> isGroupChat == Some(true)
    ensures c.groupName == NormaliseGroupName(groupName)
    ensures c.groupAvatar == "" && c.lastMessage.None? && c.groupAdmin == groupAdmin
  {
    Chat(id, participants, isGroupChat.GetOr(false), NormaliseGroupName(groupName), "",
         groupAdmin, None)
  }

  /** The rules a chat must meet to be saved. */
  predicate Saveable(c: Chat) {
    && (c.groupName.Some? ==> |c.groupName.value| <= GroupNameMax)
    && (if c.isGroupChat
        then Truthy(c.groupName) && |c.participants| >= 2 && c.groupAdmin.Some?
        else |c.participants| == 2)
  }

  /** Saving a chat: the schema validator on `groupName` runs first, then the pre-save
      hook's checks in the order name, participant count, admin; the result is the first
      failure's message, or None when the chat is saved. */
  function SaveError(c: Chat): (r: Option<string>)
    ensures r.None? <==> Saveable(c)
    ensures c.groupName.Some? && |c.groupName.value| > GroupNameMax ==>
              r == Some(ValidationFailed("Chat", [("groupName", "Group name cannot exceed 50 characters")]))
    ensures (c.groupName.None? || |c.groupName.value| <= GroupNameMax) && c.isGroupChat ==>
              r == (if !Truthy(c.groupName) then Some("Group name is required for group chats")
                    else if |c.participants| < 2 then Some("Group chat must have at least 2 participants")
                    else if c.groupAdmin.None? then Some("Group admin is required for group chats")
                    else None)
    ensures (c.groupName.None? || |c.groupName.value| <= GroupNameMax) && !c.isGroupChat ==>
              (r.Some? <==> |c.participants| != 2)
  {
    if c.groupName.Some? && |c.groupName.value| > GroupNameMax then
      Some(ValidationFailed("Chat", [("groupName", "Group name cannot exceed 50 characters")]))
    else if c.isGroupChat then
      if !Truthy(c.groupName) then Some("Group name is required for group chats")
      else if |c.participants| < 2 then Some("Group chat must have at least 2 participants")
      else if c.groupAdmin.None? then Some("Group admin is required for group chats")
      else None
    else if |c.participants| != 2 then Some("Direct chat must have exactly 2 participants")
    else None
  }

  /** A group name of only white space passes a truthiness check on the raw request but
      is stored empty, so the pre-save hook rejects the group. */
  lemma BlankGroupNameRejected(id: ChatId, ps: seq<UserId>, name: string, admin: UserId)
    requires |name| > 0 && forall i :: 0 <= i < |name| ==> Text.IsJsSpace(name[i])
    ensures SaveError(New(id, ps, Some(true), Some(name), Some(admin)))
            == Some("Group name is required for group chats")
  {
    assert Text.LeadingSpaces(name) == |name|;
  }
}
