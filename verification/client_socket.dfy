/** The events the client's socket service sends (client/src/lib/socket.ts), and what a
    run of them implies: the chat rooms the socket has joined and left, and how many
    delivery and seen receipts it has sent. */
module ClientSocket {
  import opened Common
  import ChatStore

  datatype ClientEmit =
    | JoinChat(chatId: ChatId)
    | LeaveChat(chatId: ChatId)
    | SendMessage(chatId: ChatId, message: ChatStore.Msg, tempId: string)
    | Typing(chatId: ChatId, isTyping: bool)
    | MessageDelivered(messageId: MessageId)
    | MessageSeen(messageId: MessageId, chatId: ChatId)
    | VideoCallRequest(chatId: ChatId, callerId: Option<UserId>, callerName: Option<string>, callerAvatar: Option<string>)
    | VideoCallRejected(chatId: ChatId)

  /** The rooms a run of emits leaves the socket in, Socket.io rooms being sets: a join
      adds the room, a leave removes it. */
  function Joined(outbox: seq<ClientEmit>): set<ChatId> {
    if |outbox| == 0 then {}
    else
      var before := Joined(outbox[..|outbox| - 1]);
      var e := outbox[|outbox| - 1];
      if e.JoinChat? then before + {e.chatId}
      else if e.LeaveChat? then before - {e.chatId}
      else before
  }

  function DeliveredCount(outbox: seq<ClientEmit>): nat {
    if |outbox| == 0 then 0
    else DeliveredCount(outbox[..|outbox| - 1]) + (if outbox[|outbox| - 1].MessageDelivered? then 1 else 0)
  }

  function SeenCount(outbox: seq<ClientEmit>): nat {
    if |outbox| == 0 then 0
    else SeenCount(outbox[..|outbox| - 1]) + (if outbox[|outbox| - 1].MessageSeen? then 1 else 0)
  }

  /** The `typing` emits for one chat with one flag: starts when `isTyping` holds, stops
      otherwise. */
  function TypingCount(outbox: seq<ClientEmit>, chatId: ChatId, isTyping: bool): nat {
    if |outbox| == 0 then 0
    else TypingCount(outbox[..|outbox| - 1], chatId, isTyping) + (if outbox[|outbox| - 1] == Typing(chatId, isTyping) then 1 else 0)
  }

  /** Sending one more event changes each summary by that event alone. */
  lemma Append(outbox: seq<ClientEmit>, e: ClientEmit)
    ensures Joined(outbox + [e]) == if e.JoinChat? then Joined(outbox) + {e.chatId}
                                    else if e.LeaveChat? then Joined(outbox) - {e.chatId}
                                    else Joined(outbox)
    ensures DeliveredCount(outbox + [e]) == DeliveredCount(outbox) + (if e.MessageDelivered? then 1 else 0)
    ensures SeenCount(outbox + [e]) == SeenCount(outbox) + (if e.MessageSeen? then 1 else 0)
  {
    assert (outbox + [e])[..|outbox|] == outbox;
  }

  lemma AppendTyping(outbox: seq<ClientEmit>, e: ClientEmit, chatId: ChatId, isTyping: bool)
    ensures TypingCount(outbox + [e], chatId, isTyping) ==
            TypingCount(outbox, chatId, isTyping) + (if e == Typing(chatId, isTyping) then 1 else 0)
  {
    assert (outbox + [e])[..|outbox|] == outbox;
  }
}
