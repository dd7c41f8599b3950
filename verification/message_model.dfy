/** The message document (server/src/models/Message.ts): the status and type enumerations,
    field defaults, read receipts, and the post-save hook that points the chat's
    `lastMessage` at the message just saved. */
module MessageModel {
  import opened Common
  import ChatModel

  datatype Status = Sent | Delivered | Seen

  function StatusName(s: Status): string {
    match s
    case Sent => "sent"
    case Delivered => "delivered"
    case Seen => "seen"
  }

  /** The enum validator on `status`: only the three status names are accepted. */
  function ParseStatus(v: string): (r: Option<Status>)
    ensures r.Some? <==> v in {"sent", "delivered", "seen"}
    ensures r.Some? ==> StatusName(r.value) == v
  {
    if v == "sent" then Some(Sent)
    else if v == "delivered" then Some(Delivered)
    else if v == "seen" then Some(Seen)
    else None
  }

  lemma StatusNameParses(s: Status)
    ensures ParseStatus(StatusName(s)) == Some(s)
  {
  }

  datatype MsgType = TextMsg | ImageMsg | VideoMsg | DocumentMsg | AudioMsg

  function TypeName(t: MsgType): string {
    match t
    case TextMsg => "text"
    case ImageMsg => "image"
    case VideoMsg => "video"
    case DocumentMsg => "document"
    case AudioMsg => "audio"
  }

  /** The enum validator on `type`. */
  function ParseType(v: string): (r: Option<MsgType>)
    ensures r.Some? <==> v in {"text", "image", "video", "document", "audio"}
    ensures r.Some? ==> TypeName(r.value) == v
  {
    if v == "text" then Some(TextMsg)
    else if v == "image" then Some(ImageMsg)
    else if v == "video" then Some(VideoMsg)
    else if v == "document" then Some(DocumentMsg)
    else if v == "audio" then Some(AudioMsg)
    else None
  }

  lemma TypeNameParses(t: MsgType)
    ensures ParseType(TypeName(t)) == Some(t)
  {
  }

  /** The mongoose message for a value an enum validator rejects. */
  function EnumError(path: string, value: string): string {
    "`" + value + "` is not a valid enum value for path `" + path + "`."
  }

  datatype Receipt = Receipt(user: UserId, readAt: Time)

  datatype Attachment = Attachment(url: string, name: string, size: int)

  datatype Message = Message(
    id: MessageId,
    chat: ChatId,
    sender: UserId,
    content: string,
    encryptedContent: Option<string>,
    kind: MsgType,
    status: Status,
    readBy: seq<Receipt>,
    file: Option<Attachment>,
    replyTo: Option<MessageId>,
    isEdited: bool,
    isDeleted: bool,
    deletedFor: seq<UserId>)

  /** The fields a handler passes to `Message.create`; `kind` is the raw `type` string. */
  datatype Draft = Draft(
    chat: ChatId,
    sender: UserId,
    content: Option<string>,
    encryptedContent: Option<string>,
    kind: Option<string>,
    file: Option<Attachment>,
    replyTo: Option<MessageId>)

  /** `Message.create`: defaults fill what the draft leaves out (content '', type text,
      status sent, no receipts, not edited, not deleted, deleted for nobody); a type outside
      the enumeration fails validation. */
  function Create(id: MessageId, d: Draft): (r: Result)
    ensures d.kind.Some? && ParseType(d.kind.value).None? <==> r.Failed?
    ensures r.Failed? ==> r.error == ValidationFailed("Message", [("type", EnumError("type", d.kind.value))])
    ensures r.Created? ==>
              && r.msg.id == id && r.msg.chat == d.chat && r.msg.sender == d.sender
              && r.msg.content == d.content.GetOr("")
              && TypeName(r.msg.kind) == d.kind.GetOr("text")
              && r.msg.status == Sent && r.msg.readBy == []
              && !r.msg.isEdited && !r.msg.isDeleted && r.msg.deletedFor == []
              && r.msg.encryptedContent == d.encryptedContent && r.msg.file == d.file
              && r.msg.replyTo == d.replyTo
  {
    var kind := if d.kind.Some? then ParseType(d.kind.value) else Some(TextMsg);
    if kind.None? then Failed(ValidationFailed("Message", [("type", EnumError("type", d.kind.value))]))
    else Created(Message(id, d.chat, d.sender, d.content.GetOr(""), d.encryptedContent,
                         kind.value, Sent, [], d.file, d.replyTo, false, false, []))
  }

  datatype Result = Created(msg: Message) | Failed(error: string)

  /** Number of receipts `readBy` holds for `user`. */
  function ReceiptCount(readBy: seq<Receipt>, user: UserId): nat {
    if |readBy| == 0 then 0
    else (if readBy[0].user == user then 1 else 0) + ReceiptCount(readBy[1..], user)
  }

  predicate HasRead(readBy: seq<Receipt>, user: UserId) {
    exists i :: 0 <= i < |readBy| && readBy[i].user == user
  }

  lemma {:induction false} ReceiptCountPositive(readBy: seq<Receipt>, user: UserId)
    ensures ReceiptCount(readBy, user) > 0 <==> HasRead(readBy, user)
  {
    if |readBy| > 0 {
      ReceiptCountPositive(readBy[1..], user);
      if readBy[0].user != user && HasRead(readBy, user) {
        var i :| 0 <= i < |readBy| && readBy[i].user == user;
        assert readBy[1..][i - 1].user == user;
      }
      if HasRead(readBy[1..], user) {
        var i :| 0 <= i < |readBy[1..]| && readBy[1..][i].user == user;
        assert readBy[i + 1].user == user;
      }
    }
  }

  lemma {:induction false} ReceiptCountAppend(a: seq<Receipt>, b: seq<Receipt>, user: UserId)
    ensures ReceiptCount(a + b, user) == ReceiptCount(a, user) + ReceiptCount(b, user)
  {
    if |a| == 0 {
      assert a + b == b;
    } else {
      ReceiptCountAppend(a[1..], b, user);
      assert (a + b)[1..] == a[1..] + b;
    }
  }

  /** The shared "add to readBy if not already present" step: a reader with no receipt
      gets exactly one, stamped `now`; a reader who has one is left as is. */
  function AddReader(readBy: seq<Receipt>, user: UserId, now: Time): (r: seq<Receipt>)
    ensures HasRead(r, user)
    ensures HasRead(readBy, user) ==> r == readBy
    ensures !HasRead(readBy, user) ==> r == readBy + [Receipt(user, now)]
  {
    if HasRead(readBy, user) then readBy
    else
      assert (readBy + [Receipt(user, now)])[|readBy|].user == user;
      readBy + [Receipt(user, now)]
  }

  /** However often a reader is added, exactly one receipt for them results when there was
      none, and the count is untouched when there already was one. */
  lemma AddReaderCount(readBy: seq<Receipt>, user: UserId, now: Time)
    ensures ReceiptCount(AddReader(readBy, user, now), user)
            == if HasRead(readBy, user) then ReceiptCount(readBy, user) else 1
  {
    ReceiptCountPositive(readBy, user);
    if !HasRead(readBy, user) {
      ReceiptCountAppend(readBy, [Receipt(user, now)], user);
      assert [Receipt(user, now)][1..] == [];
    }
  }

  lemma AddReaderIdempotent(readBy: seq<Receipt>, user: UserId, t1: Time, t2: Time)
    ensures AddReader(AddReader(readBy, user, t1), user, t2) == AddReader(readBy, user, t1)
  {
  }

  /** The post-save hook: the chat whose id is the message's chat gets the message as its
      `lastMessage`; an unknown chat leaves the chats as they are (`findByIdAndUpdate`
      matches nothing, and any error is only logged). */
  function LastMessageHook(chats: seq<ChatModel.Chat>, m: Message): (r: seq<ChatModel.Chat>)
    ensures |r| == |chats|
    ensures forall i :: 0 <= i < |chats| ==>
              r[i] == if chats[i].id == m.chat then chats[i].(lastMessage := Some(m.id)) else chats[i]
  {
    seq(|chats|, i requires 0 <= i < |chats| =>
      if chats[i].id == m.chat then chats[i].(lastMessage := Some(m.id)) else chats[i])
  }
}
