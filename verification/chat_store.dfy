/** The client's chat store (client/src/store/chatStore.ts): the chat list, the open chat,
    each chat's message list and each chat's set of typing users, with the reducers the
    components call. Each reducer is a function from the state before to the state after. */
module ChatStore {
  import opened Common
  import MessageModel

  type Status = MessageModel.Status
  type Receipt = MessageModel.Receipt

  /** A message as the client holds it. `readBy` is `None` once an update has written an
      absent `readBy` over it. */
  datatype Msg = Msg(
    id: MessageId,
    chat: ChatId,
    sender: UserId,
    senderName: string,
    content: string,
    kind: MessageModel.MsgType,
    status: Status,
    readBy: Option<seq<Receipt>>,
    isEdited: bool,
    isDeleted: bool)

  /** A participant as a populated chat lists it. */
  datatype Participant = Participant(id: UserId, name: string, email: string, avatar: Option<string>, isOnline: bool)

  datatype Chat = Chat(
    id: ChatId,
    participants: seq<Participant>,
    isGroupChat: bool,
    groupName: Option<string>,
    groupAvatar: Option<string>,
    groupAdmin: Option<UserId>,
    lastMessage: Option<Msg>)

  /** One key of a partial object: absent (`Keep`), or present with a value that the
      spread `{...x, ...updates}` writes over the old one. */
  datatype Field<T> = Keep | Put(value: T) {
    function Over(before: T): T {
      match this
      case Keep => before
      case Put(v) => v
    }
  }

  /** The keys of a partial message the components write. */
  datatype MsgPatch = MsgPatch(
    content: Field<string>,
    status: Field<Status>,
    readBy: Field<Option<seq<Receipt>>>,
    isEdited: Field<bool>,
    isDeleted: Field<bool>)

  /** The keys of a partial chat, the id among them. */
  datatype ChatPatch = ChatPatch(
    id: Field<ChatId>,
    participants: Field<seq<Participant>>,
    isGroupChat: Field<bool>,
    groupName: Field<Option<string>>,
    groupAvatar: Field<Option<string>>,
    groupAdmin: Field<Option<UserId>>,
    lastMessage: Field<Option<Msg>>)

  datatype State = State(
    chats: seq<Chat>,
    currentChat: Option<Chat>,
    messages: map<ChatId, seq<Msg>>,
    typing: map<ChatId, set<UserId>>)

  const Initial: State := State([], None, map[], map[])

  /** `messages.get(chatId) || []`: a chat with no entry reads as an empty list. */
  function MessagesOf(st: State, chatId: ChatId): seq<Msg> {
    if chatId in st.messages then st.messages[chatId] else []
  }

  /** The typing users of a chat; a chat with no entry has none. */
  function TypingOf(st: State, chatId: ChatId): set<UserId> {
    if chatId in st.typing then st.typing[chatId] else {}
  }

  function MergeMsg(m: Msg, p: MsgPatch): (r: Msg)
    ensures r.id == m.id && r.chat == m.chat && r.sender == m.sender && r.kind == m.kind
    ensures p.status.Keep? ==> r.status == m.status
    ensures p.status.Put? ==> r.status == p.status.value
    ensures p.readBy.Keep? ==> r.readBy == m.readBy
    ensures p.readBy.Put? ==> r.readBy == p.readBy.value
    ensures p == MsgPatch(Keep, Keep, Keep, Keep, Keep) ==> r == m
  {
    m.(content := p.content.Over(m.content), status := p.status.Over(m.status),
       readBy := p.readBy.Over(m.readBy), isEdited := p.isEdited.Over(m.isEdited),
       isDeleted := p.isDeleted.Over(m.isDeleted))
  }

  function MergeChat(c: Chat, p: ChatPatch): (r: Chat)
    ensures p.id.Keep? ==> r.id == c.id
    ensures p.lastMessage.Put? ==> r.lastMessage == p.lastMessage.value
    ensures p.lastMessage.Keep? ==> r.lastMessage == c.lastMessage
    ensures p == ChatPatch(Keep, Keep, Keep, Keep, Keep, Keep, Keep) ==> r == c
  {
    Chat(p.id.Over(c.id), p.participants.Over(c.participants), p.isGroupChat.Over(c.isGroupChat),
         p.groupName.Over(c.groupName), p.groupAvatar.Over(c.groupAvatar),
         p.groupAdmin.Over(c.groupAdmin), p.lastMessage.Over(c.lastMessage))
  }

  /** `setChats`: the list is replaced wholesale; nothing else changes. */
  function SetChats(st: State, chats: seq<Chat>): (r: State)
    ensures r.chats == chats
    ensures r.currentChat == st.currentChat && r.messages == st.messages && r.typing == st.typing
  {
    st.(chats := chats)
  }

  /** `addChat`: the chat goes in front, whether or not a chat with its id is listed. */
  function AddChat(st: State, c: Chat): (r: State)
    ensures |r.chats| == |st.chats| + 1 && r.chats[0] == c && r.chats[1..] == st.chats
    ensures r.currentChat == st.currentChat && r.messages == st.messages && r.typing == st.typing
  {
    st.(chats := [c] + st.chats)
  }

  function MergeWhere(chats: seq<Chat>, chatId: ChatId, p: ChatPatch): (r: seq<Chat>)
    ensures |r| == |chats|
    ensures forall i :: 0 <= i < |chats| ==>
              r[i] == if chats[i].id == chatId then MergeChat(chats[i], p) else chats[i]
  {
    if chats == [] then []
    else [if chats[0].id == chatId then MergeChat(chats[0], p) else chats[0]] + MergeWhere(chats[1..], chatId, p)
  }

  /** `updateChat`: every listed chat with that id, and the open chat when it has that id,
      take the patch's keys; every other chat is left as it was. */
  function UpdateChat(st: State, chatId: ChatId, p: ChatPatch): (r: State)
    ensures |r.chats| == |st.chats|
    ensures forall i :: 0 <= i < |st.chats| && st.chats[i].id == chatId ==> r.chats[i] == MergeChat(st.chats[i], p)
    ensures forall i :: 0 <= i < |st.chats| && st.chats[i].id != chatId ==> r.chats[i] == st.chats[i]
    ensures st.currentChat.Some? && st.currentChat.value.id == chatId ==>
              r.currentChat == Some(MergeChat(st.currentChat.value, p))
    ensures !(st.currentChat.Some? && st.currentChat.value.id == chatId) ==> r.currentChat == st.currentChat
    ensures r.messages == st.messages && r.typing == st.typing
  {
    State(MergeWhere(st.chats, chatId, p),
          if st.currentChat.Some? && st.currentChat.value.id == chatId
          then Some(MergeChat(st.currentChat.value, p)) else st.currentChat,
          st.messages, st.typing)
  }

  /** A chat id that no listed chat and not the open chat carries leaves the state as it was. */
  lemma UpdateUnknownChatIsNoop(st: State, chatId: ChatId, p: ChatPatch)
    requires forall i :: 0 <= i < |st.chats| ==> st.chats[i].id != chatId
    requires st.currentChat.None? || st.currentChat.value.id != chatId
    ensures UpdateChat(st, chatId, p) == st
  {
    assert UpdateChat(st, chatId, p).chats == st.chats;
  }

  /** `setCurrentChat`: only the open chat changes. */
  function SetCurrentChat(st: State, c: Option<Chat>): (r: State)
    ensures r.currentChat == c && r.chats == st.chats && r.messages == st.messages && r.typing == st.typing
  {
    st.(currentChat := c)
  }

  /** `setMessages`: one chat's list is replaced; every other chat's list is unchanged. */
  function SetMessages(st: State, chatId: ChatId, msgs: seq<Msg>): (r: State)
    ensures MessagesOf(r, chatId) == msgs
    ensures forall k :: k != chatId ==> MessagesOf(r, k) == MessagesOf(st, k)
    ensures r.chats == st.chats && r.currentChat == st.currentChat && r.typing == st.typing
  {
    st.(messages := st.messages[chatId := msgs])
  }

  /** `addMessage`: the message goes at the end of that chat's list, whether or not a
      message with its id is already there. */
  function AddMessage(st: State, chatId: ChatId, m: Msg): (r: State)
    ensures MessagesOf(r, chatId) == MessagesOf(st, chatId) + [m]
    ensures |MessagesOf(r, chatId)| == |MessagesOf(st, chatId)| + 1
    ensures forall k :: k != chatId ==> MessagesOf(r, k) == MessagesOf(st, k)
    ensures r.chats == st.chats && r.currentChat == st.currentChat && r.typing == st.typing
  {
    st.(messages := st.messages[chatId := MessagesOf(st, chatId) + [m]])
  }

  /** Adding the same message twice lists it twice. */
  lemma AddMessageDoesNotDeduplicate(st: State, chatId: ChatId, m: Msg)
    ensures var r := AddMessage(AddMessage(st, chatId, m), chatId, m);
            var n := |MessagesOf(st, chatId)|;
            |MessagesOf(r, chatId)| == n + 2 && MessagesOf(r, chatId)[n] == MessagesOf(r, chatId)[n + 1] == m
  {
  }

  function MergeById(msgs: seq<Msg>, messageId: MessageId, p: MsgPatch): (r: seq<Msg>)
    ensures |r| == |msgs|
    ensures forall i :: 0 <= i < |msgs| ==>
              r[i] == if msgs[i].id == messageId then MergeMsg(msgs[i], p) else msgs[i]
  {
    if msgs == [] then []
    else [if msgs[0].id == messageId then MergeMsg(msgs[0], p) else msgs[0]] + MergeById(msgs[1..], messageId, p)
  }

  /** `updateMessage`: that chat's list keeps its length and order, each entry keeps its id,
      and only the entries with that id take the patch; other chats are untouched. */
  function UpdateMessage(st: State, chatId: ChatId, messageId: MessageId, p: MsgPatch): (r: State)
    ensures |MessagesOf(r, chatId)| == |MessagesOf(st, chatId)|
    ensures forall i :: 0 <= i < |MessagesOf(st, chatId)| ==> MessagesOf(r, chatId)[i].id == MessagesOf(st, chatId)[i].id
    ensures forall i :: 0 <= i < |MessagesOf(st, chatId)| && MessagesOf(st, chatId)[i].id == messageId ==>
              MessagesOf(r, chatId)[i] == MergeMsg(MessagesOf(st, chatId)[i], p)
    ensures forall i :: 0 <= i < |MessagesOf(st, chatId)| && MessagesOf(st, chatId)[i].id != messageId ==>
              MessagesOf(r, chatId)[i] == MessagesOf(st, chatId)[i]
    ensures forall k :: k != chatId ==> MessagesOf(r, k) == MessagesOf(st, k)
    ensures r.chats == st.chats && r.currentChat == st.currentChat && r.typing == st.typing
  {
    st.(messages := st.messages[chatId := MergeById(MessagesOf(st, chatId), messageId, p)])
  }

  /** A status update that carries no `readBy` (as the delivered event does) leaves the
      message with none: the spread writes the absent value over the old list. */
  lemma StatusUpdateWithoutReceiptsDropsThem(st: State, chatId: ChatId, i: nat, s: Status)
    requires i < |MessagesOf(st, chatId)|
    ensures var m := MessagesOf(st, chatId)[i];
            var r := UpdateMessage(st, chatId, m.id, MsgPatch(Keep, Put(s), Put(None), Keep, Keep));
            MessagesOf(r, chatId)[i].status == s && MessagesOf(r, chatId)[i].readBy.None?
  {
  }

  /** How many entries carry that id. */
  function IdCount(msgs: seq<Msg>, messageId: MessageId): (n: nat)
    ensures n <= |msgs|
    ensures n == 0 <==> forall i :: 0 <= i < |msgs| ==> msgs[i].id != messageId
  {
    if msgs == [] then 0
    else (if msgs[0].id == messageId then 1 else 0) + IdCount(msgs[1..], messageId)
  }

  /** The entries without that id, in order: exactly as many fewer as there were entries
      with that id. */
  function WithoutId(msgs: seq<Msg>, messageId: MessageId): (r: seq<Msg>)
    ensures forall i :: 0 <= i < |r| ==> r[i].id != messageId
    ensures forall m :: m in r <==> m in msgs && m.id != messageId
    ensures |r| + IdCount(msgs, messageId) == |msgs|
  {
    if msgs == [] then []
    else
      var rest := WithoutId(msgs[1..], messageId);
      assert forall m :: m in msgs <==> m == msgs[0] || m in msgs[1..];
      if msgs[0].id == messageId then rest else [msgs[0]] + rest
  }

  /** `deleteMessage`: every entry with that id leaves that chat's list, and every other
      entry stays, in order; other chats are untouched. */
  function DeleteMessage(st: State, chatId: ChatId, messageId: MessageId): (r: State)
    ensures MessagesOf(r, chatId) == WithoutId(MessagesOf(st, chatId), messageId)
    ensures forall m :: m in MessagesOf(r, chatId) <==> m in MessagesOf(st, chatId) && m.id != messageId
    ensures forall k :: k != chatId ==> MessagesOf(r, k) == MessagesOf(st, k)
    ensures r.chats == st.chats && r.currentChat == st.currentChat && r.typing == st.typing
  {
    st.(messages := st.messages[chatId := WithoutId(MessagesOf(st, chatId), messageId)])
  }

  /** A list without that id loses nothing to a delete. */
  lemma {:induction false} DeleteAbsentKeepsList(msgs: seq<Msg>, messageId: MessageId)
    requires forall i :: 0 <= i < |msgs| ==> msgs[i].id != messageId
    ensures WithoutId(msgs, messageId) == msgs
  {
    if msgs != [] {
      DeleteAbsentKeepsList(msgs[1..], messageId);
    }
  }

  /** Deleting twice is deleting once. */
  lemma DeleteMessageIdempotent(st: State, chatId: ChatId, messageId: MessageId)
    ensures MessagesOf(DeleteMessage(DeleteMessage(st, chatId, messageId), chatId, messageId), chatId)
         == MessagesOf(DeleteMessage(st, chatId, messageId), chatId)
  {
    DeleteAbsentKeepsList(MessagesOf(DeleteMessage(st, chatId, messageId), chatId), messageId);
  }

  /** `setTyping`: the user joins or leaves that chat's typing set, and the chat then has an
      entry even if it had none; other chats are untouched. */
  function SetTyping(st: State, chatId: ChatId, user: UserId, isTyping: bool): (r: State)
    ensures chatId in r.typing
    ensures isTyping ==> TypingOf(r, chatId) == TypingOf(st, chatId) + {user}
    ensures !isTyping ==> TypingOf(r, chatId) == TypingOf(st, chatId) - {user}
    ensures forall k :: k != chatId ==> TypingOf(r, k) == TypingOf(st, k)
    ensures r.chats == st.chats && r.currentChat == st.currentChat && r.messages == st.messages
  {
    var users := TypingOf(st, chatId);
    st.(typing := st.typing[chatId := if isTyping then users + {user} else users - {user}])
  }

  /** Repeating a typing update changes nothing more. */
  lemma SetTypingIdempotent(st: State, chatId: ChatId, user: UserId, isTyping: bool)
    ensures SetTyping(SetTyping(st, chatId, user, isTyping), chatId, user, isTyping) == SetTyping(st, chatId, user, isTyping)
  {
    var once := SetTyping(st, chatId, user, isTyping);
    var twice := SetTyping(once, chatId, user, isTyping);
    assert twice.typing[chatId] == once.typing[chatId];
    assert twice.typing == once.typing;
  }

  /** Removing a user who is not typing leaves that chat's set as it was. */
  lemma StopTypingAbsentIsNoop(st: State, chatId: ChatId, user: UserId)
    requires user !in TypingOf(st, chatId)
    ensures TypingOf(SetTyping(st, chatId, user, false), chatId) == TypingOf(st, chatId)
  {
  }

  /** Start then stop leaves the set as it was before, when the user was not typing. */
  lemma StartThenStop(st: State, chatId: ChatId, user: UserId)
    requires user !in TypingOf(st, chatId)
    ensures TypingOf(SetTyping(SetTyping(st, chatId, user, true), chatId, user, false), chatId) == TypingOf(st, chatId)
  {
  }

  /** `clearChat`: the state the store starts in, whatever came before. */
  function ClearChat(st: State): (r: State)
    ensures r.chats == [] && r.currentChat.None?
    ensures forall k :: MessagesOf(r, k) == [] && TypingOf(r, k) == {}
  {
    Initial
  }

  /** Clearing is exactly the initial state, so a cleared store and a fresh one agree on
      every later sequence of reducers. */
  lemma ClearChatIsInitial(st: State)
    ensures ClearChat(st) == Initial
    ensures ClearChat(ClearChat(st)) == ClearChat(st)
  {
  }
}
