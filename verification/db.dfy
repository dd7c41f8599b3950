/** The document store the controllers and socket handlers share: one collection per model,
    each kept in insertion (natural) order. `findById` is the first document with that id;
    saving a message runs the message schema's post-save hook, while a direct
    `findByIdAndUpdate` does not. */
module Db {
  import opened Common
  import UserModel
  import ChatModel
  import MessageModel
  import OtpModel

  datatype Store = Store(
    users: seq<UserModel.User>,
    chats: seq<ChatModel.Chat>,
    messages: seq<MessageModel.Message>,
    otps: seq<OtpModel.Otp>)

  const Empty: Store := Store([], [], [], [])

  function UserIndex(users: seq<UserModel.User>, id: UserId): (r: Option<nat>)
    ensures r.Some? ==> r.value < |users| && users[r.value].id == id
    ensures r.Some? ==> forall j :: 0 <= j < r.value ==> users[j].id != id
    ensures r.None? <==> forall j :: 0 <= j < |users| ==> users[j].id != id
  {
    FindFirst(users, (u: UserModel.User) => u.id == id)
  }

  function ChatIndex(chats: seq<ChatModel.Chat>, id: ChatId): (r: Option<nat>)
    ensures r.Some? ==> r.value < |chats| && chats[r.value].id == id
    ensures r.Some? ==> forall j :: 0 <= j < r.value ==> chats[j].id != id
    ensures r.None? <==> forall j :: 0 <= j < |chats| ==> chats[j].id != id
  {
    FindFirst(chats, (c: ChatModel.Chat) => c.id == id)
  }

  function MessageIndex(messages: seq<MessageModel.Message>, id: MessageId): (r: Option<nat>)
    ensures r.Some? ==> r.value < |messages| && messages[r.value].id == id
    ensures r.Some? ==> forall j :: 0 <= j < r.value ==> messages[j].id != id
    ensures r.None? <==> forall j :: 0 <= j < |messages| ==> messages[j].id != id
  {
    FindFirst(messages, (m: MessageModel.Message) => m.id == id)
  }

  /** Overwriting the first document with a given id by one with the same id keeps it the
      first. */
  lemma MessageIndexAfterSave(messages: seq<MessageModel.Message>, i: nat, m: MessageModel.Message)
    requires MessageIndex(messages, m.id) == Some(i)
    ensures MessageIndex(messages[i := m], m.id) == Some(i)
  {
    var s := messages[i := m];
    assert s[i].id == m.id;
  }

  /** `findById` on the users collection; an absent id reads as `undefined` and finds nothing. */
  function FindUser(db: Store, id: Option<UserId>): (r: Option<UserModel.User>)
    ensures r.Some? <==> id.Some? && UserIndex(db.users, id.value).Some?
    ensures r.Some? ==> r.value == db.users[UserIndex(db.users, id.value).value]
  {
    if id.None? then None
    else match UserIndex(db.users, id.value)
      case None => None
      case Some(i) => Some(db.users[i])
  }

  function FindChat(db: Store, id: Option<ChatId>): (r: Option<ChatModel.Chat>)
    ensures r.Some? <==> id.Some? && ChatIndex(db.chats, id.value).Some?
    ensures r.Some? ==> r.value == db.chats[ChatIndex(db.chats, id.value).value] && r.value.id == id.value
  {
    if id.None? then None
    else match ChatIndex(db.chats, id.value)
      case None => None
      case Some(i) => Some(db.chats[i])
  }

  /** Saving a message, new or existing, followed by the post-save hook. */
  function AfterMessageSave(db: Store, messages: seq<MessageModel.Message>, m: MessageModel.Message): (r: Store)
    ensures r.messages == messages && r.users == db.users && r.otps == db.otps
    ensures r.chats == MessageModel.LastMessageHook(db.chats, m)
  {
    db.(messages := messages, chats := MessageModel.LastMessageHook(db.chats, m))
  }

  /** `Message.create`: the new document is appended, then the hook runs. */
  function InsertMessage(db: Store, m: MessageModel.Message): (r: Store)
    ensures r.messages == db.messages + [m]
    ensures r.chats == MessageModel.LastMessageHook(db.chats, m)
    ensures r.users == db.users && r.otps == db.otps
  {
    AfterMessageSave(db, db.messages + [m], m)
  }

  /** `message.save()` on the document found at position `i`. */
  function SaveMessageAt(db: Store, i: nat, m: MessageModel.Message): (r: Store)
    requires i < |db.messages|
    ensures r.messages == db.messages[i := m]
    ensures r.chats == MessageModel.LastMessageHook(db.chats, m)
    ensures r.users == db.users && r.otps == db.otps
  {
    AfterMessageSave(db, db.messages[i := m], m)
  }

  /** `findByIdAndUpdate` on the message at position `i`: no hook runs. */
  function UpdateMessageAt(db: Store, i: nat, m: MessageModel.Message): (r: Store)
    requires i < |db.messages|
    ensures r == db.(messages := db.messages[i := m])
  {
    db.(messages := db.messages[i := m])
  }

  /** After any save of a message, the chat it belongs to names it as its last message, and
      no other chat changes. */
  lemma SavedMessageIsLast(db: Store, messages: seq<MessageModel.Message>, m: MessageModel.Message)
    ensures |AfterMessageSave(db, messages, m).chats| == |db.chats|
    ensures forall k :: 0 <= k < |db.chats| && db.chats[k].id == m.chat ==>
              AfterMessageSave(db, messages, m).chats[k].lastMessage == Some(m.id)
    ensures forall k :: 0 <= k < |db.chats| && db.chats[k].id != m.chat ==>
              AfterMessageSave(db, messages, m).chats[k] == db.chats[k]
    ensures forall k :: 0 <= k < |db.chats| ==>
              AfterMessageSave(db, messages, m).chats[k] == db.chats[k].(lastMessage := AfterMessageSave(db, messages, m).chats[k].lastMessage)
  {
  }

  /** A message whose chat is gone is still saved: the hook finds no chat, swallows the
      miss, and the chats stay as they were. */
  lemma HookMissDoesNotFailSave(db: Store, messages: seq<MessageModel.Message>, m: MessageModel.Message)
    requires ChatIndex(db.chats, m.chat).None?
    ensures AfterMessageSave(db, messages, m).chats == db.chats
    ensures AfterMessageSave(db, messages, m).messages == messages
  {
    assert MessageModel.LastMessageHook(db.chats, m) == db.chats;
  }
}
