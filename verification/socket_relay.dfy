/** The real-time relay (server/src/socket/handlers.ts) as one state machine. The state is
    the set of connected sockets with the rooms each has joined, the `onlineUsers`
    registry, the document store, and the outbox of emitted events in emission order.
    Every handler is one atomic transition; the clock and token verification are
    parameters, and the populated message an event carries is the stored message.

    Socket.io puts every socket in a room named by its own id, so `io.to(socketId)` is a
    room emission like any other. */
module SocketRelay {
  import opened Common
  import UserModel
  import ChatModel
  import MessageModel
  import Db
  import AuthMiddleware

  type Message = MessageModel.Message

  /** Where an emission is addressed: every connected socket (`io.emit`), a room
      (`io.to(room)`, `socket.to(room)`), or the emitting socket alone (`socket.emit`). */
  datatype Target = Everyone | Room(name: string) | Socket(id: SocketId)

  /** The body of a `video_call_request`, passed through as the caller sent it. */
  datatype CallData = CallData(chatId: ChatId, callerId: UserId, callerName: string, callerAvatar: Option<string>)

  datatype Payload =
    | Presence(userId: UserId, isOnline: bool, lastSeen: Option<Time>)
    | NewMessage(message: Option<Message>)
    | MessageSent(tempId: Option<string>, message: Option<Message>)
    | MessageError(error: string)
    | Typing(userId: UserId, chatId: string, isTyping: bool)
    | StatusUpdated(messageId: MessageId, status: MessageModel.Status, readBy: Option<seq<MessageModel.Receipt>>)
    | Call(data: CallData)
    | Signal(chatId: string, body: string)
    | NoPayload

  /** One emission: target, the socket excluded from it (`socket.to` leaves out its own
      socket), event name, payload. */
  datatype Emit = Emit(target: Target, except: Option<SocketId>, name: string, payload: Payload)

  datatype Conn = Conn(user: UserId, rooms: set<string>)

  datatype State = State(
    conns: map<SocketId, Conn>,
    online: map<UserId, SocketId>,
    db: Db.Store,
    outbox: seq<Emit>)

  function Init(db: Db.Store): State {
    State(map[], map[], db, [])
  }

  /** Whether a connected socket is addressed by a target. */
  predicate Addressed(s: SocketId, c: Conn, t: Target) {
    match t
    case Everyone => true
    case Room(name) => name == s || name in c.rooms
    case Socket(id) => id == s
  }

  /** The sockets an emission reaches. */
  function Recipients(conns: map<SocketId, Conn>, e: Emit): (r: set<SocketId>)
    ensures forall s :: s in r <==> s in conns && Addressed(s, conns[s], e.target) && e.except != Some(s)
  {
    set s | s in conns && Addressed(s, conns[s], e.target) && e.except != Some(s)
  }

  /** The outcome of the connection middleware: the user the socket acts for, or the error
      the connection is refused with. */
  datatype Admission = Admitted(userId: UserId) | Refused(error: string)

  /** The `io.use` middleware: a handshake token is required, must verify, and must name a
      stored user. */
  function Handshake(db: Db.Store, token: Option<string>, verify: string -> AuthMiddleware.Verified): (r: Admission)
    ensures !Truthy(token) ==> r == Refused("Authentication error: No token provided")
    ensures Truthy(token) && verify(token.value).Invalid? ==> r == Refused("Authentication error: Invalid token")
    ensures Truthy(token) && verify(token.value).Claims? && Db.FindUser(db, verify(token.value).id).None? ==>
              r == Refused("Authentication error: User not found")
    ensures r.Admitted? <==> Truthy(token) && verify(token.value).Claims? && Db.FindUser(db, verify(token.value).id).Some?
    ensures r.Admitted? ==> r.userId == verify(token.value).id.value && Db.UserIndex(db.users, r.userId).Some?
  {
    if !Truthy(token) then Refused("Authentication error: No token provided")
    else match verify(token.value)
      case Invalid => Refused("Authentication error: Invalid token")
      case Claims(id) =>
        match Db.FindUser(db, id)
        case None => Refused("Authentication error: User not found")
        case Some(u) => Admitted(u.id)
  }

  /** `User.findByIdAndUpdate(id, {isOnline, socketId[, lastSeen]})`: the first user with
      that id gets the presence fields; no validation runs, and an unknown id changes
      nothing. */
  function SetPresence(users: seq<UserModel.User>, id: UserId, isOnline: bool, socketId: string,
                       lastSeen: Option<Time>): (r: seq<UserModel.User>)
    ensures |r| == |users|
    ensures Db.UserIndex(users, id).None? ==> r == users
    ensures Db.UserIndex(users, id).Some? ==>
              var i := Db.UserIndex(users, id).value;
              r == users[i := users[i].(isOnline := isOnline, socketId := socketId,
                                        lastSeen := lastSeen.GetOr(users[i].lastSeen))]
  {
    match Db.UserIndex(users, id)
    case None => users
    case Some(i) =>
      users[i := users[i].(isOnline := isOnline, socketId := socketId, lastSeen := lastSeen.GetOr(users[i].lastSeen))]
  }

  /** `connection` followed by `handleUserConnected`: the socket joins no chat room yet, the
      user is marked online with this socket, the registry entry is overwritten (the
      latest connection wins), and everyone hears `user_online`. */
  function Connect(st: State, sid: SocketId, userId: UserId): (r: State)
    requires sid !in st.conns
    ensures r.conns == st.conns[sid := Conn(userId, {})]
    ensures r.online == st.online[userId := sid]
    ensures r.db == st.db.(users := SetPresence(st.db.users, userId, true, sid, None))
    ensures r.outbox == st.outbox + [Emit(Everyone, None, "user_online", Presence(userId, true, None))]
  {
    State(st.conns[sid := Conn(userId, {})], st.online[userId := sid],
          st.db.(users := SetPresence(st.db.users, userId, true, sid, None)),
          st.outbox + [Emit(Everyone, None, "user_online", Presence(userId, true, None))])
  }

  /** A connection attempt: the handshake either refuses it, leaving the state as it was,
      or admits it and the connection handler runs. */
  function Connection(st: State, sid: SocketId, token: Option<string>, verify: string -> AuthMiddleware.Verified)
    : (r: (State, Admission))
    requires sid !in st.conns
    ensures r.1 == Handshake(st.db, token, verify)
    ensures r.1.Refused? ==> r.0 == st
    ensures r.1.Admitted? ==> r.0 == Connect(st, sid, r.1.userId) && r.0.online[r.1.userId] == sid
  {
    match Handshake(st.db, token, verify)
    case Refused(e) => (st, Refused(e))
    case Admitted(u) => (Connect(st, sid, u), Admitted(u))
  }

  /** `disconnect` and `handleUserDisconnected`: the socket and its rooms go, the user is
      marked offline with `lastSeen` stamped, and the registry entry for the user is
      deleted whichever socket it names. */
  function Disconnect(st: State, sid: SocketId, now: Time): (r: State)
    requires sid in st.conns
    ensures r.conns == st.conns - {sid}
    ensures r.online == st.online - {st.conns[sid].user}
    ensures r.db == st.db.(users := SetPresence(st.db.users, st.conns[sid].user, false, "", Some(now)))
    ensures r.outbox == st.outbox + [Emit(Everyone, None, "user_offline", Presence(st.conns[sid].user, false, Some(now)))]
  {
    var u := st.conns[sid].user;
    State(st.conns - {sid}, st.online - {u},
          st.db.(users := SetPresence(st.db.users, u, false, "", Some(now))),
          st.outbox + [Emit(Everyone, None, "user_offline", Presence(u, false, Some(now)))])
  }

  /** The latest connection of a user is the one the registry names. */
  lemma ConnectLastWriterWins(st: State, s1: SocketId, s2: SocketId, u: UserId)
    requires s1 !in st.conns && s2 !in st.conns && s1 != s2
    ensures Connect(Connect(st, s1, u), s2, u).online[u] == s2
    ensures s1 in Connect(Connect(st, s1, u), s2, u).conns
  {
  }

  /** When a user's older socket closes after a newer one connected, the registry loses
      the user although the newer socket is still connected: later lookups treat the user
      as offline. */
  lemma StaleDisconnectDropsNewerSocket(st: State, s1: SocketId, s2: SocketId, u: UserId, now: Time)
    requires s1 !in st.conns && s2 !in st.conns && s1 != s2
    ensures var after := Disconnect(Connect(Connect(st, s1, u), s2, u), s1, now);
            && u !in after.online
            && s2 in after.conns && after.conns[s2].user == u
  {
  }

  /** `join_chat` and `leave_chat`: room membership of the socket, nothing else. */
  function Join(st: State, sid: SocketId, room: string): (r: State)
    requires sid in st.conns
    ensures r.conns == st.conns[sid := st.conns[sid].(rooms := st.conns[sid].rooms + {room})]
    ensures r.online == st.online && r.db == st.db && r.outbox == st.outbox
  {
    st.(conns := st.conns[sid := st.conns[sid].(rooms := st.conns[sid].rooms + {room})])
  }

  function Leave(st: State, sid: SocketId, room: string): (r: State)
    requires sid in st.conns
    ensures r.conns == st.conns[sid := st.conns[sid].(rooms := st.conns[sid].rooms - {room})]
    ensures r.online == st.online && r.db == st.db && r.outbox == st.outbox
  {
    st.(conns := st.conns[sid := st.conns[sid].(rooms := st.conns[sid].rooms - {room})])
  }

  /** Leaving a room one has just joined restores the membership one had before, when the
      room was not already joined. */
  lemma JoinThenLeave(st: State, sid: SocketId, room: string)
    requires sid in st.conns && room !in st.conns[sid].rooms
    ensures Leave(Join(st, sid, room), sid, room) == st
  {
    var c := st.conns[sid];
    assert (c.rooms + {room}) - {room} == c.rooms;
    assert st.conns[sid := c] == st.conns;
  }

  /** The stored message with the given id, as `Message.findById` finds it. */
  function Lookup(messages: seq<Message>, id: MessageId): (r: Option<Message>)
    ensures r.Some? <==> Db.MessageIndex(messages, id).Some?
    ensures r.Some? ==> r.value == messages[Db.MessageIndex(messages, id).value] && r.value.id == id
  {
    match Db.MessageIndex(messages, id)
    case None => None
    case Some(i) => Some(messages[i])
  }

  /** `send_message`: the message was already stored over HTTP, so the handler only reads
      it back and relays it. Without a message object the handler fails and the sender
      alone hears `message_error`; otherwise the whole room (the sender included, when it
      joined) gets `new_message` and the sender gets `message_sent` with its own `tempId`.
      An id that finds nothing relays `null`. */
  function SendMessage(st: State, sid: SocketId, chatId: string, messageId: Option<MessageId>, tempId: Option<string>)
    : (r: State)
    requires sid in st.conns
    ensures r.conns == st.conns && r.online == st.online && r.db == st.db
    ensures messageId.None? ==>
              r.outbox == st.outbox + [Emit(Socket(sid), None, "message_error", MessageError("Failed to send message"))]
    ensures messageId.Some? ==>
              var found := Lookup(st.db.messages, messageId.value);
              r.outbox == st.outbox + [Emit(Room(chatId), None, "new_message", NewMessage(found)),
                                       Emit(Socket(sid), None, "message_sent", MessageSent(tempId, found))]
  {
    match messageId
    case None => st.(outbox := st.outbox + [Emit(Socket(sid), None, "message_error", MessageError("Failed to send message"))])
    case Some(id) =>
      var found := Lookup(st.db.messages, id);
      st.(outbox := st.outbox + [Emit(Room(chatId), None, "new_message", NewMessage(found)),
                                 Emit(Socket(sid), None, "message_sent", MessageSent(tempId, found))])
  }

  /** The sender of a relayed message hears its own `new_message` exactly when it has joined
      the chat's room, and always hears the acknowledgement. */
  lemma SenderHearsOwnMessage(st: State, sid: SocketId, chatId: string, id: MessageId, tempId: Option<string>)
    requires sid in st.conns
    ensures var out := SendMessage(st, sid, chatId, Some(id), tempId).outbox;
            && |out| == |st.outbox| + 2
            && (sid in Recipients(st.conns, out[|st.outbox|]) <==> chatId in st.conns[sid].rooms || chatId == sid)
            && Recipients(st.conns, out[|st.outbox| + 1]) == {sid}
            && out[|st.outbox| + 1].payload.tempId == tempId
  {
  }

  /** `typing`: the room hears who is typing, except the typist's own socket. */
  function TypingEvent(st: State, sid: SocketId, chatId: string, isTyping: bool): (r: State)
    requires sid in st.conns
    ensures r.conns == st.conns && r.online == st.online && r.db == st.db
    ensures |r.outbox| == |st.outbox| + 1 && r.outbox[..|st.outbox|] == st.outbox
    ensures r.outbox[|st.outbox|].payload == Typing(st.conns[sid].user, chatId, isTyping)
    ensures Recipients(st.conns, r.outbox[|st.outbox|]) ==
              set s | s in st.conns && s != sid && (chatId == s || chatId in st.conns[s].rooms)
  {
    var e := Emit(Room(chatId), Some(sid), "user_typing", Typing(st.conns[sid].user, chatId, isTyping));
    assert (st.outbox + [e])[..|st.outbox|] == st.outbox;
    st.(outbox := st.outbox + [e])
  }

  /** `message_delivered`: the status becomes `delivered` whatever it was, by a direct
      update that runs no save hook; the message's own chat room hears of it. An unknown
      id changes nothing and emits nothing. */
  function MessageDelivered(st: State, messageId: MessageId): (r: State)
    ensures Db.MessageIndex(st.db.messages, messageId).None? ==> r == st
    ensures Db.MessageIndex(st.db.messages, messageId).Some? ==>
              var i := Db.MessageIndex(st.db.messages, messageId).value;
              var m := st.db.messages[i].(status := MessageModel.Delivered);
              && r.db == Db.UpdateMessageAt(st.db, i, m)
              && r.outbox == st.outbox + [Emit(Room(m.chat), None, "message_status_updated",
                                               StatusUpdated(messageId, MessageModel.Delivered, None))]
    ensures r.conns == st.conns && r.online == st.online
  {
    match Db.MessageIndex(st.db.messages, messageId)
    case None => st
    case Some(i) =>
      var m := st.db.messages[i].(status := MessageModel.Delivered);
      st.(db := Db.UpdateMessageAt(st.db, i, m),
          outbox := st.outbox + [Emit(Room(m.chat), None, "message_status_updated",
                                      StatusUpdated(messageId, MessageModel.Delivered, None))])
  }

  /** `message_seen`: the status becomes `seen` whatever it was, the reader is added once,
      and the message is saved, so the chat's `lastMessage` hook runs. The event goes to
      the room the client named, which need not be the message's chat. An unknown id
      changes nothing and emits nothing. */
  function MessageSeen(st: State, sid: SocketId, messageId: MessageId, chatId: string, now: Time): (r: State)
    requires sid in st.conns
    ensures Db.MessageIndex(st.db.messages, messageId).None? ==> r == st
    ensures Db.MessageIndex(st.db.messages, messageId).Some? ==>
              var i := Db.MessageIndex(st.db.messages, messageId).value;
              var before := st.db.messages[i];
              var m := before.(status := MessageModel.Seen,
                             readBy := MessageModel.AddReader(before.readBy, st.conns[sid].user, now));
              && r.db == Db.SaveMessageAt(st.db, i, m)
              && r.outbox == st.outbox + [Emit(Room(chatId), None, "message_status_updated",
                                               StatusUpdated(messageId, MessageModel.Seen, Some(m.readBy)))]
    ensures r.conns == st.conns && r.online == st.online
  {
    match Db.MessageIndex(st.db.messages, messageId)
    case None => st
    case Some(i) =>
      var before := st.db.messages[i];
      var m := before.(status := MessageModel.Seen,
                     readBy := MessageModel.AddReader(before.readBy, st.conns[sid].user, now));
      st.(db := Db.SaveMessageAt(st.db, i, m),
          outbox := st.outbox + [Emit(Room(chatId), None, "message_status_updated",
                                      StatusUpdated(messageId, MessageModel.Seen, Some(m.readBy)))])
  }

  /** There is no ordering guard: a `message_delivered` that arrives after `message_seen`
      moves the message back from `seen` to `delivered`. */
  lemma DeliveredAfterSeenRegresses(st: State, sid: SocketId, id: MessageId, chatId: string, now: Time)
    requires sid in st.conns && Db.MessageIndex(st.db.messages, id).Some?
    ensures var i := Db.MessageIndex(st.db.messages, id).value;
            && MessageSeen(st, sid, id, chatId, now).db.messages[i].status == MessageModel.Seen
            && MessageDelivered(MessageSeen(st, sid, id, chatId, now), id).db.messages[i].status == MessageModel.Delivered
  {
    var i := Db.MessageIndex(st.db.messages, id).value;
    var seen := MessageSeen(st, sid, id, chatId, now);
    Db.MessageIndexAfterSave(st.db.messages, i, seen.db.messages[i]);
  }

  /** Repeating `message_seen` leaves exactly one receipt for the reader, the first one. */
  lemma SeenTwiceKeepsOneReceipt(st: State, sid: SocketId, id: MessageId, chatId: string, t1: Time, t2: Time)
    requires sid in st.conns && Db.MessageIndex(st.db.messages, id).Some?
    requires !MessageModel.HasRead(st.db.messages[Db.MessageIndex(st.db.messages, id).value].readBy, st.conns[sid].user)
    ensures var i := Db.MessageIndex(st.db.messages, id).value;
            var twice := MessageSeen(MessageSeen(st, sid, id, chatId, t1), sid, id, chatId, t2);
            && twice.db.messages[i].readBy == st.db.messages[i].readBy + [MessageModel.Receipt(st.conns[sid].user, t1)]
            && MessageModel.ReceiptCount(twice.db.messages[i].readBy, st.conns[sid].user) == 1
  {
    var i := Db.MessageIndex(st.db.messages, id).value;
    var u := st.conns[sid].user;
    var once := MessageSeen(st, sid, id, chatId, t1);
    Db.MessageIndexAfterSave(st.db.messages, i, once.db.messages[i]);
    MessageModel.AddReaderCount(st.db.messages[i].readBy, u, t1);
    MessageModel.AddReaderCount(once.db.messages[i].readBy, u, t2);
  }

  /** A message `mark_chat_read` picks: in the chat, sent by someone else, and not yet read
      by the reader. */
  predicate Unread(m: Message, chatId: string, reader: UserId) {
    m.chat == chatId && m.sender != reader && !MessageModel.HasRead(m.readBy, reader)
  }

  /** What `mark_chat_read` does to one picked message: `seen`, with the reader's receipt
      pushed (the query already excluded messages the reader has read). */
  function MarkRead(m: Message, reader: UserId, now: Time): (r: Message)
    ensures r == m.(status := MessageModel.Seen, readBy := m.readBy + [MessageModel.Receipt(reader, now)])
    ensures MessageModel.HasRead(r.readBy, reader)
  {
    var r := m.(status := MessageModel.Seen, readBy := m.readBy + [MessageModel.Receipt(reader, now)]);
    assert r.readBy[|m.readBy|].user == reader;
    r
  }

  function MarkIfUnread(m: Message, chatId: string, reader: UserId, now: Time): Message {
    if Unread(m, chatId, reader) then MarkRead(m, reader, now) else m
  }

  /** The event announcing one marked message: to the chat's room, except the reader's
      socket. */
  function MarkEvent(m: Message, chatId: string, sid: SocketId): Emit {
    Emit(Room(chatId), Some(sid), "message_status_updated", StatusUpdated(m.id, MessageModel.Seen, Some(m.readBy)))
  }

  /** The events `mark_chat_read` emits for the messages `ms`, as a reference: one per
      picked message, in store order. */
  function MarkEvents(ms: seq<Message>, chatId: string, reader: UserId, now: Time, sid: SocketId): (r: seq<Emit>)
    ensures |r| <= |ms|
  {
    if ms == [] then []
    else (if Unread(ms[0], chatId, reader) then [MarkEvent(MarkRead(ms[0], reader, now), chatId, sid)] else [])
         + MarkEvents(ms[1..], chatId, reader, now, sid)
  }

  /** The loop of `handleMarkChatRead` from store position `i` on. The query ran before the
      loop, and each save touches only its own message, so deciding at each position
      whether the message is picked gives the same set of messages. */
  function MarkFrom(db: Db.Store, i: nat, chatId: string, reader: UserId, now: Time, sid: SocketId)
    : (r: (Db.Store, seq<Emit>))
    requires i <= |db.messages|
    ensures |r.0.messages| == |db.messages| && r.0.users == db.users && r.0.otps == db.otps
    ensures forall j :: 0 <= j < i ==> r.0.messages[j] == db.messages[j]
    ensures forall j :: i <= j < |db.messages| ==> r.0.messages[j] == MarkIfUnread(db.messages[j], chatId, reader, now)
    ensures r.1 == MarkEvents(db.messages[i..], chatId, reader, now, sid)
    ensures |r.0.chats| == |db.chats|
    ensures forall k :: 0 <= k < |db.chats| && db.chats[k].id != chatId ==> r.0.chats[k] == db.chats[k]
    ensures forall k :: 0 <= k < |db.chats| ==> r.0.chats[k] == db.chats[k].(lastMessage := r.0.chats[k].lastMessage)
    decreases |db.messages| - i
  {
    if i == |db.messages| then (db, [])
    else
      var m := db.messages[i];
      assert db.messages[i..][1..] == db.messages[i + 1..];
      if Unread(m, chatId, reader) then
        var marked := MarkRead(m, reader, now);
        var saved := Db.SaveMessageAt(db, i, marked);
        assert saved.messages[i + 1..] == db.messages[i + 1..];
        var rest := MarkFrom(saved, i + 1, chatId, reader, now, sid);
        (rest.0, [MarkEvent(marked, chatId, sid)] + rest.1)
      else
        MarkFrom(db, i + 1, chatId, reader, now, sid)
  }

  /** `mark_chat_read`: every picked message of the chat becomes `seen` with one receipt for
      the reader, every other message is untouched, and each picked message is announced to
      the room except the reader. Each save runs the post-save hook, which may move the
      chat's `lastMessage`; no other chat and no other chat field changes. */
  function MarkChatRead(st: State, sid: SocketId, chatId: string, now: Time): (r: State)
    requires sid in st.conns
    ensures var reader := st.conns[sid].user;
            && |r.db.messages| == |st.db.messages|
            && (forall j :: 0 <= j < |st.db.messages| && Unread(st.db.messages[j], chatId, reader) ==>
                  r.db.messages[j] == MarkRead(st.db.messages[j], reader, now))
            && (forall j :: 0 <= j < |st.db.messages| && !Unread(st.db.messages[j], chatId, reader) ==>
                  r.db.messages[j] == st.db.messages[j])
            && r.outbox == st.outbox + MarkEvents(st.db.messages, chatId, reader, now, sid)
    ensures r.conns == st.conns && r.online == st.online
    ensures r.db.users == st.db.users && r.db.otps == st.db.otps
    ensures |r.db.chats| == |st.db.chats|
    ensures forall k :: 0 <= k < |st.db.chats| && st.db.chats[k].id != chatId ==> r.db.chats[k] == st.db.chats[k]
    ensures forall k :: 0 <= k < |st.db.chats| ==> r.db.chats[k] == st.db.chats[k].(lastMessage := r.db.chats[k].lastMessage)
  {
    var reader := st.conns[sid].user;
    var res := MarkFrom(st.db, 0, chatId, reader, now, sid);
    assert st.db.messages[0..] == st.db.messages;
    st.(db := res.0, outbox := st.outbox + res.1)
  }

  /** After `mark_chat_read` no message of the chat from another sender is unread by the
      reader, and each marked message holds exactly one receipt for the reader. */
  lemma MarkChatReadLeavesNothingUnread(st: State, sid: SocketId, chatId: string, now: Time)
    requires sid in st.conns
    ensures var r := MarkChatRead(st, sid, chatId, now);
            forall j :: 0 <= j < |r.db.messages| ==> !Unread(r.db.messages[j], chatId, st.conns[sid].user)
    ensures var r := MarkChatRead(st, sid, chatId, now);
            forall j :: 0 <= j < |st.db.messages| && Unread(st.db.messages[j], chatId, st.conns[sid].user) ==>
              MessageModel.ReceiptCount(r.db.messages[j].readBy, st.conns[sid].user) == 1
  {
    var reader := st.conns[sid].user;
    var r := MarkChatRead(st, sid, chatId, now);
    forall j | 0 <= j < |st.db.messages| && Unread(st.db.messages[j], chatId, reader)
      ensures MessageModel.ReceiptCount(r.db.messages[j].readBy, reader) == 1
    {
      var m := st.db.messages[j];
      MessageModel.ReceiptCountPositive(m.readBy, reader);
      MessageModel.ReceiptCountAppend(m.readBy, [MessageModel.Receipt(reader, now)], reader);
      assert [MessageModel.Receipt(reader, now)][1..] == [];
    }
  }

  /** With nothing unread, the loop saves nothing and emits nothing. */
  lemma {:induction false} MarkFromNothingUnread(db: Db.Store, i: nat, chatId: string, reader: UserId, now: Time, sid: SocketId)
    requires i <= |db.messages|
    requires forall j :: i <= j < |db.messages| ==> !Unread(db.messages[j], chatId, reader)
    ensures MarkFrom(db, i, chatId, reader, now, sid) == (db, [])
    decreases |db.messages| - i
  {
    if i < |db.messages| {
      MarkFromNothingUnread(db, i + 1, chatId, reader, now, sid);
    }
  }

  /** Marking a chat read twice in a row: the second time changes nothing in the store and
      emits nothing. */
  lemma MarkChatReadIdempotent(st: State, sid: SocketId, chatId: string, t1: Time, t2: Time)
    requires sid in st.conns
    ensures var once := MarkChatRead(st, sid, chatId, t1);
            MarkChatRead(once, sid, chatId, t2) == once
  {
    var once := MarkChatRead(st, sid, chatId, t1);
    MarkChatReadLeavesNothingUnread(st, sid, chatId, t1);
    MarkFromNothingUnread(once.db, 0, chatId, st.conns[sid].user, t2, sid);
    assert once.outbox + [] == once.outbox;
  }

  /** The direct part of a video-call request: one emission to the registered socket of
      each listed participant other than the claimed caller who is online. */
  function CallFanOut(ps: seq<UserId>, online: map<UserId, SocketId>, data: CallData): (r: seq<Emit>)
    ensures |r| <= |ps|
    ensures forall e :: e in r ==> e.except.None? && e.name == "video_call_request" && e.payload == Call(data) && e.target.Room?
    ensures forall e :: e in r ==> exists p :: p in ps && p != data.callerId && p in online && e.target == Room(online[p])
    ensures forall p :: p in ps && p != data.callerId && p in online ==>
              Emit(Room(online[p]), None, "video_call_request", Call(data)) in r
  {
    if ps == [] then []
    else
      var rest := CallFanOut(ps[1..], online, data);
      assert forall p :: p in ps[1..] ==> p in ps;
      assert forall p :: p in ps ==> p == ps[0] || p in ps[1..];
      var p := ps[0];
      if p != data.callerId && p in online then [Emit(Room(online[p]), None, "video_call_request", Call(data))] + rest
      else rest
  }

  /** `video_call_request`: an unknown chat produces nothing; otherwise each participant
      whose user exists (population drops the others), other than the claimed caller, and
      who is in the registry gets the request on their registered socket, and the chat's
      room except the sender gets it too. */
  function VideoCallRequest(st: State, sid: SocketId, data: CallData): (r: State)
    requires sid in st.conns
    ensures Db.ChatIndex(st.db.chats, data.chatId).None? ==> r == st
    ensures Db.ChatIndex(st.db.chats, data.chatId).Some? ==>
              var c := st.db.chats[Db.ChatIndex(st.db.chats, data.chatId).value];
              r.outbox == st.outbox + CallFanOut(Populated(st.db.users, c.participants), st.online, data)
                          + [Emit(Room(data.chatId), Some(sid), "video_call_request", Call(data))]
    ensures r.conns == st.conns && r.online == st.online && r.db == st.db
  {
    match Db.FindChat(st.db, Some(data.chatId))
    case None => st
    case Some(c) =>
      st.(outbox := st.outbox + CallFanOut(Populated(st.db.users, c.participants), st.online, data)
                    + [Emit(Room(data.chatId), Some(sid), "video_call_request", Call(data))])
  }

  /** `populate('participants')`: the participants whose user document exists, in order. */
  function Populated(users: seq<UserModel.User>, ps: seq<UserId>): (r: seq<UserId>)
    ensures forall p :: p in r <==> p in ps && Db.UserIndex(users, p).Some?
  {
    Filter(ps, (p: UserId) => Db.UserIndex(users, p).Some?)
  }

  /** The sockets the direct part of a video-call request is addressed to are exactly the
      registered sockets of the existing participants, other than the claimed caller, who
      are online. */
  lemma CallReachesOnlineParticipants(st: State, sid: SocketId, data: CallData)
    requires sid in st.conns && Db.ChatIndex(st.db.chats, data.chatId).Some?
    ensures var c := st.db.chats[Db.ChatIndex(st.db.chats, data.chatId).value];
            var direct := CallFanOut(Populated(st.db.users, c.participants), st.online, data);
            forall s :: (exists e :: e in direct && e.target == Room(s)) <==>
              exists p :: p in c.participants && Db.UserIndex(st.db.users, p).Some? && p != data.callerId
                          && p in st.online && st.online[p] == s
  {
    var c := st.db.chats[Db.ChatIndex(st.db.chats, data.chatId).value];
    var ps := Populated(st.db.users, c.participants);
    var direct := CallFanOut(ps, st.online, data);
    forall s | exists p :: p in c.participants && Db.UserIndex(st.db.users, p).Some? && p != data.callerId
                           && p in st.online && st.online[p] == s
      ensures exists e :: e in direct && e.target == Room(s)
    {
      var p :| p in c.participants && Db.UserIndex(st.db.users, p).Some? && p != data.callerId
               && p in st.online && st.online[p] == s;
      assert Emit(Room(st.online[p]), None, "video_call_request", Call(data)) in direct;
    }
  }

  /** The call-signalling events the relay passes on to the rest of the room. */
  datatype SignalKind = Offer | Answer | IceCandidate | Rejected | End

  /** The name each relayed event goes out under: the end of a call is announced as
      `video_call_ended`, every other signal under its own name. */
  function RelayedName(k: SignalKind): string {
    match k
    case Offer => "video_call_offer"
    case Answer => "video_call_answer"
    case IceCandidate => "video_call_ice_candidate"
    case Rejected => "video_call_rejected"
    case End => "video_call_ended"
  }

  /** `video_call_offer`, `_answer`, `_ice_candidate`, `_rejected`, `_end`: the room except
      the sender hears the event; offers, answers and candidates carry the sender's data,
      rejection and end carry nothing. */
  function Relay(st: State, sid: SocketId, k: SignalKind, chatId: string, body: string): (r: State)
    requires sid in st.conns
    ensures r.conns == st.conns && r.online == st.online && r.db == st.db
    ensures |r.outbox| == |st.outbox| + 1 && r.outbox[..|st.outbox|] == st.outbox
    ensures var e := r.outbox[|st.outbox|];
            && e.target == Room(chatId) && e.except == Some(sid) && e.name == RelayedName(k)
            && (k in {Offer, Answer, IceCandidate} <==> e.payload == Signal(chatId, body))
            && (k in {Rejected, End} <==> e.payload == NoPayload)
    ensures sid !in Recipients(st.conns, r.outbox[|st.outbox|])
  {
    var payload := if k in {Rejected, End} then NoPayload else Signal(chatId, body);
    var e := Emit(Room(chatId), Some(sid), RelayedName(k), payload);
    assert (st.outbox + [e])[..|st.outbox|] == st.outbox;
    st.(outbox := st.outbox + [e])
  }
}
