/** The open chat's view (client/src/components/chat/ChatRoom.tsx): it joins the open
    chat's socket room and leaves the previous one, adds incoming messages of the open chat
    to the store and acknowledges other people's with a delivery receipt and, a second
    later, a seen receipt, applies status updates, tracks who is typing, and drives the
    video-call flags. Each handler is one atomic step on `Room`; the one-second timers are
    pending entries that fire as separate steps. Fetching the open chat's history is an
    answer passed in. */
module ChatRoom {
  import opened Common
  import ChatStore
  import AuthStore
  import MessageModel
  import SocketRelay
  import opened ClientSocket

  /** A call offer as the server relays it. */
  datatype IncomingCall = IncomingCall(chatId: ChatId, callerId: UserId, callerName: string, callerAvatar: Option<string>)

  /** A `user_typing` event. */
  datatype TypingEvent = TypingEvent(userId: UserId, chatId: ChatId, isTyping: bool)

  /** The component's state: the chat its effects last ran for, the users shown typing, the
      call flags, the armed seen-receipt timers (message and chat), and everything it has
      sent on the socket, oldest first. */
  datatype Room = Room(
    chatId: Option<ChatId>,
    typingUsers: set<UserId>,
    inCall: bool,
    initiator: bool,
    incoming: Option<IncomingCall>,
    pendingSeen: seq<(MessageId, ChatId)>,
    outbox: seq<ClientEmit>)

  /** The component as first rendered, before any chat is open. */
  const Mounted: Room := Room(None, {}, false, false, None, [], [])

  /** The effects run only for a truthy chat id. */
  predicate Listening(room: Room) {
    Truthy(room.chatId)
  }

  /** The socket events leaving the previous chat's room and joining the next one's. */
  function RoomSwitch(prev: Option<ChatId>, next: Option<ChatId>): seq<ClientEmit> {
    (if Truthy(prev) then [LeaveChat(prev.value)] else []) + (if Truthy(next) then [JoinChat(next.value)] else [])
  }

  /** The chat-id effect as written: when the id changes, the previous room is left and the
      next joined, but the typing set is kept. */
  function OpenChatAsWritten(room: Room, next: Option<ChatId>): (r: Room)
    ensures r.typingUsers == room.typingUsers && r.chatId == next
    ensures next == room.chatId ==> r == room
  {
    if next == room.chatId then room
    else room.(chatId := next, outbox := room.outbox + RoomSwitch(room.chatId, next))
  }

  /** The chat-id effect with the typing set emptied when the id changes, so that nobody is
      shown typing in a chat they have sent no typing event for. */
  function OpenChat(room: Room, next: Option<ChatId>): (r: Room)
    ensures r.chatId == next
    ensures next == room.chatId ==> r == room
    ensures next != room.chatId ==> r.typingUsers == {} && r == OpenChatAsWritten(room, next).(typingUsers := {})
  {
    if next == room.chatId then room
    else room.(chatId := next, typingUsers := {}, outbox := room.outbox + RoomSwitch(room.chatId, next))
  }

  /** The fetched history of a chat replaces that chat's messages, even when the answer
      arrives after another chat was opened; a failed fetch changes nothing. */
  function MessagesFetched(st: ChatStore.State, chatId: ChatId, answer: Option<seq<ChatStore.Msg>>): (r: ChatStore.State)
    ensures answer.None? ==> r == st
    ensures answer.Some? ==> ChatStore.MessagesOf(r, chatId) == answer.value
    ensures forall c :: c != chatId ==> ChatStore.MessagesOf(r, c) == ChatStore.MessagesOf(st, c)
    ensures r.currentChat == st.currentChat && r.chats == st.chats
  {
    match answer
    case None => st
    case Some(msgs) => ChatStore.SetMessages(st, chatId, msgs)
  }

  /** Whether a message comes from someone other than the signed-in user; with nobody
      signed in, every message does. */
  predicate FromOther(m: ChatStore.Msg, me: Option<UserId>) {
    !(me.Some? && m.sender == me.value)
  }

  /** `handleNewMessage`: a message of the open chat is appended to its list; if someone
      else sent it, a delivery receipt goes out at once and a seen receipt is armed.
      Messages of other chats are ignored. */
  function HandleNewMessage(st: ChatStore.State, room: Room, me: Option<UserId>, m: ChatStore.Msg): (r: (ChatStore.State, Room))
    ensures !Listening(room) || m.chat != room.chatId.value ==> r == (st, room)
    ensures Listening(room) && m.chat == room.chatId.value ==>
              && ChatStore.MessagesOf(r.0, m.chat) == ChatStore.MessagesOf(st, m.chat) + [m]
              && (FromOther(m, me) ==>
                    r.1 == room.(outbox := room.outbox + [MessageDelivered(m.id)],
                                 pendingSeen := room.pendingSeen + [(m.id, m.chat)]))
              && (!FromOther(m, me) ==> r.1 == room)
  {
    if !Listening(room) || m.chat != room.chatId.value then (st, room)
    else
      var chatId := room.chatId.value;
      var st' := ChatStore.AddMessage(st, chatId, m);
      if FromOther(m, me) then
        (st', room.(outbox := room.outbox + [MessageDelivered(m.id)], pendingSeen := room.pendingSeen + [(m.id, chatId)]))
      else (st', room)
  }

  /** The `k`-th armed seen timer fires: the seen receipt goes out for the chat the message
      arrived in, whichever chat is open now. A timer that is not armed does nothing. */
  function SeenTimerFires(room: Room, k: nat): (r: Room)
    ensures k >= |room.pendingSeen| ==> r == room
    ensures k < |room.pendingSeen| ==>
              && r.outbox == room.outbox + [MessageSeen(room.pendingSeen[k].0, room.pendingSeen[k].1)]
              && r.pendingSeen == room.pendingSeen[..k] + room.pendingSeen[k + 1..]
              && r.chatId == room.chatId
  {
    if k >= |room.pendingSeen| then room
    else
      var (id, chatId) := room.pendingSeen[k];
      room.(outbox := room.outbox + [MessageSeen(id, chatId)], pendingSeen := room.pendingSeen[..k] + room.pendingSeen[k + 1..])
  }

  /** `handleStatusUpdate`: with a non-empty message id, that message of the open chat takes
      the status and the receipts given; both keys are written, so receipts that are not
      sent become absent. */
  function HandleStatusUpdate(st: ChatStore.State, room: Room, messageId: MessageId, status: MessageModel.Status,
                              readBy: Option<seq<MessageModel.Receipt>>): (r: ChatStore.State)
    ensures !Listening(room) || messageId == "" ==> r == st
    ensures Listening(room) && messageId != "" ==>
              var before := ChatStore.MessagesOf(st, room.chatId.value);
              var after := ChatStore.MessagesOf(r, room.chatId.value);
              && |after| == |before|
              && forall i :: 0 <= i < |before| ==>
                   after[i] == if before[i].id == messageId then before[i].(status := status, readBy := readBy) else before[i]
  {
    if !Listening(room) || messageId == "" then st
    else
      ChatStore.UpdateMessage(st, room.chatId.value, messageId,
        ChatStore.MsgPatch(ChatStore.Keep, ChatStore.Put(status), ChatStore.Put(readBy), ChatStore.Keep, ChatStore.Keep))
  }

  /** The relay's delivery update carries no receipts, so applying it to a message that had
      some leaves it with none. */
  lemma DeliveredUpdateClearsReceipts(st: ChatStore.State, room: Room, i: nat)
    requires Listening(room)
    requires i < |ChatStore.MessagesOf(st, room.chatId.value)|
    requires ChatStore.MessagesOf(st, room.chatId.value)[i].id != ""
    ensures var m := ChatStore.MessagesOf(st, room.chatId.value)[i];
            var p := SocketRelay.StatusUpdated(m.id, MessageModel.Delivered, None);
            var r := HandleStatusUpdate(st, room, p.messageId, p.status, p.readBy);
            ChatStore.MessagesOf(r, room.chatId.value)[i].readBy.None? &&
            ChatStore.MessagesOf(r, room.chatId.value)[i].status == MessageModel.Delivered
  {
  }

  /** `handleTyping`: a typing event of the open chat from someone else adds or removes
      them; any other event is ignored. */
  function HandleTyping(room: Room, me: Option<UserId>, ev: TypingEvent): (r: Room)
    ensures r.(typingUsers := room.typingUsers) == room
    ensures Listening(room) && ev.chatId == room.chatId.value && (me.None? || ev.userId != me.value) ==>
              r.typingUsers == if ev.isTyping then room.typingUsers + {ev.userId} else room.typingUsers - {ev.userId}
    ensures !(Listening(room) && ev.chatId == room.chatId.value && (me.None? || ev.userId != me.value)) ==> r == room
  {
    if Listening(room) && ev.chatId == room.chatId.value && (me.None? || ev.userId != me.value) then
      room.(typingUsers := if ev.isTyping then room.typingUsers + {ev.userId} else room.typingUsers - {ev.userId})
    else room
  }

  /** The header shows "typing..." while the set is non-empty. */
  predicate ShowsTyping(room: Room) {
    |room.typingUsers| > 0
  }

  /** The users a run of typing events leaves typing in `chat`, starting from `start`:
      the reference definition of the typing set. */
  function TypingAfter(start: set<UserId>, evs: seq<TypingEvent>, chat: ChatId, me: Option<UserId>): set<UserId> {
    if |evs| == 0 then start
    else
      var before := TypingAfter(start, evs[..|evs| - 1], chat, me);
      var ev := evs[|evs| - 1];
      if ev.chatId == chat && (me.None? || ev.userId != me.value) then
        (if ev.isTyping then before + {ev.userId} else before - {ev.userId})
      else before
  }

  function ApplyTyping(room: Room, me: Option<UserId>, evs: seq<TypingEvent>): (r: Room)
    ensures r.chatId == room.chatId
  {
    if |evs| == 0 then room else HandleTyping(ApplyTyping(room, me, evs[..|evs| - 1]), me, evs[|evs| - 1])
  }

  /** Handling typing events one by one follows the reference definition. */
  lemma {:induction false} ApplyTypingFollows(room: Room, me: Option<UserId>, evs: seq<TypingEvent>)
    requires Listening(room)
    ensures ApplyTyping(room, me, evs).typingUsers == TypingAfter(room.typingUsers, evs, room.chatId.value, me)
  {
    if |evs| > 0 {
      ApplyTypingFollows(room, me, evs[..|evs| - 1]);
    }
  }

  /** With the typing set emptied on a chat switch, the users shown typing in a newly opened
      chat are exactly those its own typing events since it was opened leave typing. */
  lemma TypingFollowsOpenChat(room: Room, c: ChatId, me: Option<UserId>, evs: seq<TypingEvent>)
    requires c != "" && room.chatId != Some(c)
    ensures ApplyTyping(OpenChat(room, Some(c)), me, evs).typingUsers == TypingAfter({}, evs, c, me)
  {
    ApplyTypingFollows(OpenChat(room, Some(c)), me, evs);
  }

  /** As written, the set survives a chat switch: someone typing in one chat is still shown
      typing after another chat is opened, where no typing event has arrived. */
  lemma TypingCarriesOverAsWritten()
    ensures var inA := HandleTyping(OpenChatAsWritten(Mounted, Some("a")), Some("me"), TypingEvent("bob", "a", true));
            var inB := OpenChatAsWritten(inA, Some("b"));
            ShowsTyping(inB) && inB.typingUsers == {"bob"} && TypingAfter({}, [], "b", Some("me")) == {}
  {
  }

  /** `startVideoCall`: with a chat open, the user becomes the initiator of a call and the
      request goes out with their id, name and avatar; otherwise nothing happens. */
  function StartVideoCall(room: Room, me: Option<AuthStore.User>): (r: Room)
    ensures !Listening(room) ==> r == room
    ensures Listening(room) ==>
              && r.inCall && r.initiator
              && r.outbox == room.outbox + [VideoCallRequest(room.chatId.value,
                                                             if me.Some? then Some(me.value.id) else None,
                                                             if me.Some? then Some(me.value.name) else None,
                                                             if me.Some? then me.value.avatar else None)]
  {
    if !Listening(room) then room
    else
      var request := match me
        case Some(u) => VideoCallRequest(room.chatId.value, Some(u.id), Some(u.name), u.avatar)
        case None => VideoCallRequest(room.chatId.value, None, None, None);
      room.(initiator := true, inCall := true, outbox := room.outbox + [request])
  }

  /** `acceptCall`: the offer is dismissed and the user joins the call as the callee. */
  function AcceptCall(room: Room): (r: Room)
    ensures r.inCall && !r.initiator && r.incoming.None?
    ensures r.outbox == room.outbox && r.chatId == room.chatId
  {
    room.(incoming := None, initiator := false, inCall := true)
  }

  /** `rejectCall`: the caller is told about a pending offer, and the offer is dismissed. */
  function RejectCall(room: Room): (r: Room)
    ensures r.incoming.None? && r.inCall == room.inCall && r.initiator == room.initiator
    ensures r.outbox == room.outbox + (if room.incoming.Some? then [VideoCallRejected(room.incoming.value.chatId)] else [])
  {
    var sent := if room.incoming.Some? then [VideoCallRejected(room.incoming.value.chatId)] else [];
    room.(outbox := room.outbox + sent, incoming := None)
  }

  /** `endCall`, and `handleCallRejected` when the callee refuses: the call is over. */
  function EndCall(room: Room): (r: Room)
    ensures !r.inCall && !r.initiator && r.incoming == room.incoming && r.outbox == room.outbox
  {
    room.(inCall := false, initiator := false)
  }

  /** `handleIncomingCall`: the offer is shown, replacing any earlier one, whether or not a
      call is in progress. */
  function HandleIncomingCall(room: Room, offer: IncomingCall): (r: Room)
    ensures r.incoming == Some(offer) && r.inCall == room.inCall && r.initiator == room.initiator
  {
    room.(incoming := Some(offer))
  }

  /** The call view is shown while in a call with a chat open. */
  predicate ShowsCall(room: Room) {
    room.inCall && Listening(room)
  }

  /** Everything that can happen to the open chat's view. */
  datatype Event =
    | Open(next: Option<ChatId>)
    | Fetched(chatId: ChatId, answer: Option<seq<ChatStore.Msg>>)
    | NewMessage(me: Option<UserId>, m: ChatStore.Msg)
    | SeenTimer(k: nat)
    | StatusUpdate(messageId: MessageId, status: MessageModel.Status, readBy: Option<seq<MessageModel.Receipt>>)
    | UserTyping(me: Option<UserId>, ev: TypingEvent)
    | StartCall(user: Option<AuthStore.User>)
    | Accept
    | Reject
    | End
    | CallOffer(offer: IncomingCall)
    | CallRejected

  function Step(st: ChatStore.State, room: Room, e: Event): (ChatStore.State, Room) {
    match e
    case Open(next) => (st, OpenChat(room, next))
    case Fetched(chatId, answer) => (MessagesFetched(st, chatId, answer), room)
    case NewMessage(me, m) => HandleNewMessage(st, room, me, m)
    case SeenTimer(k) => (st, SeenTimerFires(room, k))
    case StatusUpdate(id, status, readBy) => (HandleStatusUpdate(st, room, id, status, readBy), room)
    case UserTyping(me, ev) => (st, HandleTyping(room, me, ev))
    case StartCall(user) => (st, StartVideoCall(room, user))
    case Accept => (st, AcceptCall(room))
    case Reject => (st, RejectCall(room))
    case End => (st, EndCall(room))
    case CallOffer(offer) => (st, HandleIncomingCall(room, offer))
    case CallRejected => (st, EndCall(room))
  }

  /** What holds of the view at every moment: the socket is in exactly the open chat's
      room, every delivery receipt sent is matched by a seen receipt sent or armed, and
      only someone in a call can be its initiator. */
  predicate Invariant(room: Room) {
    && Joined(room.outbox) == (if Listening(room) then {room.chatId.value} else {})
    && DeliveredCount(room.outbox) == SeenCount(room.outbox) + |room.pendingSeen|
    && (room.initiator ==> room.inCall)
  }

  /** Leaving the previous room and joining the next moves the joined set from the one to
      the other and sends no receipt. */
  lemma SwitchMovesJoined(o: seq<ClientEmit>, prev: Option<ChatId>, next: Option<ChatId>)
    requires Joined(o) == (if Truthy(prev) then {prev.value} else {})
    ensures Joined(o + RoomSwitch(prev, next)) == (if Truthy(next) then {next.value} else {})
    ensures DeliveredCount(o + RoomSwitch(prev, next)) == DeliveredCount(o)
    ensures SeenCount(o + RoomSwitch(prev, next)) == SeenCount(o)
  {
    var leave: seq<ClientEmit> := if Truthy(prev) then [LeaveChat(prev.value)] else [];
    var o1 := o + leave;
    if Truthy(prev) {
      Append(o, LeaveChat(prev.value));
    } else {
      assert o1 == o;
    }
    assert Joined(o1) == {};
    if Truthy(next) {
      Append(o1, JoinChat(next.value));
      assert o + RoomSwitch(prev, next) == o1 + [JoinChat(next.value)];
    } else {
      assert o + RoomSwitch(prev, next) == o1;
    }
  }

  lemma RoomSwitchJoins(room: Room, next: Option<ChatId>)
    requires Invariant(room) && next != room.chatId
    ensures Invariant(OpenChat(room, next))
  {
    SwitchMovesJoined(room.outbox, room.chatId, next);
  }

  lemma SeenTimerKeepsBalance(room: Room, k: nat)
    requires Invariant(room)
    ensures Invariant(SeenTimerFires(room, k))
  {
    if k < |room.pendingSeen| {
      Append(room.outbox, MessageSeen(room.pendingSeen[k].0, room.pendingSeen[k].1));
    }
  }

  lemma NewMessageKeepsBalance(st: ChatStore.State, room: Room, me: Option<UserId>, m: ChatStore.Msg)
    requires Invariant(room)
    ensures Invariant(HandleNewMessage(st, room, me, m).1)
  {
    Append(room.outbox, MessageDelivered(m.id));
  }

  lemma StartCallKeepsRooms(room: Room, user: Option<AuthStore.User>)
    requires Invariant(room)
    ensures Invariant(StartVideoCall(room, user))
  {
    if Listening(room) {
      var r := StartVideoCall(room, user);
      Append(room.outbox, r.outbox[|room.outbox|]);
      assert r.outbox == room.outbox + [r.outbox[|room.outbox|]];
    }
  }

  lemma RejectKeepsRooms(room: Room)
    requires Invariant(room)
    ensures Invariant(RejectCall(room))
  {
    if room.incoming.Some? {
      Append(room.outbox, VideoCallRejected(room.incoming.value.chatId));
    } else {
      assert RejectCall(room).outbox == room.outbox;
    }
  }

  /** Every step keeps the invariant. */
  lemma StepKeepsInvariant(st: ChatStore.State, room: Room, e: Event)
    requires Invariant(room)
    ensures Invariant(Step(st, room, e).1)
  {
    match e
    case Open(next) =>
      if next != room.chatId {
        RoomSwitchJoins(room, next);
      }
    case NewMessage(me, m) => NewMessageKeepsBalance(st, room, me, m);
    case SeenTimer(k) => SeenTimerKeepsBalance(room, k);
    case StartCall(user) => StartCallKeepsRooms(room, user);
    case Reject => RejectKeepsRooms(room);
    case _ =>
  }

  function Run(st: ChatStore.State, room: Room, events: seq<Event>): (ChatStore.State, Room) {
    if |events| == 0 then (st, room)
    else
      var (st', room') := Run(st, room, events[..|events| - 1]);
      Step(st', room', events[|events| - 1])
  }

  /** From the first render, through any run of events, the invariant holds: in particular
      the socket is never left in a room of a chat that is no longer open. */
  lemma {:induction false} RunKeepsInvariant(st: ChatStore.State, events: seq<Event>)
    ensures Invariant(Run(st, Mounted, events).1)
  {
    if |events| > 0 {
      RunKeepsInvariant(st, events[..|events| - 1]);
      var (st', room') := Run(st, Mounted, events[..|events| - 1]);
      StepKeepsInvariant(st', room', events[|events| - 1]);
    }
  }

  /** The component as written: the chat switch keeps the typing set, and every other event
      is handled as in `Step`. */
  function StepAsWritten(st: ChatStore.State, room: Room, e: Event): (r: (ChatStore.State, Room))
    ensures !e.Open? ==> r == Step(st, room, e)
    ensures e.Open? ==> r.0 == st && r.1 == OpenChatAsWritten(room, e.next)
  {
    match e
    case Open(next) => (st, OpenChatAsWritten(room, next))
    case _ => Step(st, room, e)
  }

  function RunAsWritten(st: ChatStore.State, room: Room, events: seq<Event>): (ChatStore.State, Room) {
    if |events| == 0 then (st, room)
    else
      var (st', room') := RunAsWritten(st, room, events[..|events| - 1]);
      StepAsWritten(st', room', events[|events| - 1])
  }

  /** The invariant does not look at the typing set, so the source's own chat switch keeps it
      too. */
  lemma StepAsWrittenKeepsInvariant(st: ChatStore.State, room: Room, e: Event)
    requires Invariant(room)
    ensures Invariant(StepAsWritten(st, room, e).1)
  {
    StepKeepsInvariant(st, room, e);
    if e.Open? {
      assert OpenChatAsWritten(room, e.next).(typingUsers := {}) == OpenChat(room, e.next) || e.next == room.chatId;
    }
  }

  /** Every run of the component as written keeps the invariant. */
  lemma {:induction false} RunAsWrittenKeepsInvariant(st: ChatStore.State, events: seq<Event>)
    ensures Invariant(RunAsWritten(st, Mounted, events).1)
  {
    if |events| > 0 {
      RunAsWrittenKeepsInvariant(st, events[..|events| - 1]);
      var (st', room') := RunAsWritten(st, Mounted, events[..|events| - 1]);
      StepAsWrittenKeepsInvariant(st', room', events[|events| - 1]);
    }
  }
}
