/** The message REST handlers (server/src/controllers/message.controller.ts) as transitions
    from a store and a request to a new store and a reply. `me` is the id of the user the
    authentication middleware attached (absent when it attached none); fresh document ids,
    the clock, the uploaded file's URL and the search match are parameters. */
module MessageController {
  import opened Common
  import MessageModel
  import ChatModel
  import Db
  import Text

  type Message = MessageModel.Message

  const NotAuthorized: string := "Not authorized"

  /** The chat lookup and membership test most handlers share: unknown chat 404, a
      requester who is not a participant 403 with the handler's own wording. */
  function ChatAccess(db: Db.Store, me: UserId, chatId: Option<ChatId>, forbidden: string): (r: Response<ChatModel.Chat>)
    ensures r.Ok? <==> Db.FindChat(db, chatId).Some? && me in Db.FindChat(db, chatId).value.participants
    ensures r.Ok? ==> r.code == 200 && r.data == Db.FindChat(db, chatId).value
    ensures Db.FindChat(db, chatId).None? ==> r == Err(404, "Chat not found")
    ensures Db.FindChat(db, chatId).Some? && me !in Db.FindChat(db, chatId).value.participants ==>
              r == Err(403, forbidden)
  {
    match Db.FindChat(db, chatId)
    case None => Err(404, "Chat not found")
    case Some(c) => if me in c.participants then Ok(200, c) else Err(403, forbidden)
  }

  datatype SendRequest = SendRequest(
    chatId: Option<ChatId>,
    content: Option<string>,
    kind: Option<string>,
    encryptedContent: Option<string>,
    replyTo: Option<MessageId>)

  /** The draft `sendMessage` hands to `Message.create`: an absent or empty content becomes
      '' and an absent or empty type becomes text. */
  function SendDraft(me: UserId, req: SendRequest): MessageModel.Draft
    requires req.chatId.Some?
  {
    MessageModel.Draft(req.chatId.value, me, Some(if Truthy(req.content) then req.content.value else ""),
                       req.encryptedContent, Some(if Truthy(req.kind) then req.kind.value else "text"),
                       None, req.replyTo)
  }

  /** `POST /api/messages`. */
  function SendMessage(db: Db.Store, me: Option<UserId>, req: SendRequest, id: MessageId): (r: (Db.Store, Response<Message>))
    ensures me.None? ==> r.1 == Err(401, NotAuthorized)
    ensures me.Some? && !Truthy(req.chatId) ==> r.1 == Err(400, "Chat ID is required")
    ensures me.Some? && Truthy(req.chatId) && ChatAccess(db, me.value, req.chatId, "Not authorized to send message in this chat").Err? ==>
              r.1 == Err(ChatAccess(db, me.value, req.chatId, "Not authorized to send message in this chat").code,
                         ChatAccess(db, me.value, req.chatId, "Not authorized to send message in this chat").message)
    ensures r.1.Err? ==> r.0 == db
    ensures r.1.Ok? <==>
              && me.Some? && Truthy(req.chatId)
              && ChatAccess(db, me.value, req.chatId, "Not authorized to send message in this chat").Ok?
              && (Truthy(req.kind) ==> MessageModel.ParseType(req.kind.value).Some?)
    ensures r.1.Ok? ==>
              && r.1.code == 201 && r.0 == Db.InsertMessage(db, r.1.data)
              && r.1.data.id == id && r.1.data.chat == req.chatId.value && r.1.data.sender == me.value
              && r.1.data.content == (if Truthy(req.content) then req.content.value else "")
              && r.1.data.status == MessageModel.Sent && r.1.data.readBy == []
  {
    if me.None? then (db, Err(401, NotAuthorized))
    else if !Truthy(req.chatId) then (db, Err(400, "Chat ID is required"))
    else
      var access := ChatAccess(db, me.value, req.chatId, "Not authorized to send message in this chat");
      if access.Err? then (db, Err(access.code, access.message))
      else match MessageModel.Create(id, SendDraft(me.value, req))
        case Failed(e) => (db, Err(500, e))
        case Created(m) => (Db.InsertMessage(db, m), Ok(201, m))
  }

  /** Mongo's `limit(n)`: zero means no limit and a negative value means its magnitude. */
  function LimitCount(limit: int, available: nat): nat {
    if limit == 0 then available else if limit > 0 then limit else -limit
  }

  /** `Math.ceil(total / limit)`; a zero limit gives a non-finite number, which JSON
      renders as null (None here). */
  function Pages(total: nat, limit: int): (r: Option<int>)
    ensures limit > 0 ==> r.Some? && (r.value - 1) * limit < total <= r.value * limit
    ensures limit == 0 <==> r.None?
  {
    if limit == 0 then None
    else if limit > 0 then Some((total + limit - 1) / limit)
    else Some(-(total / -limit))
  }

  /** The messages of `chatId` that `me` has not deleted for themself, in insertion order. */
  function Visible(messages: seq<Message>, chatId: ChatId, me: UserId): (r: seq<Message>)
    ensures forall i :: 0 <= i < |r| ==> r[i].chat == chatId && me !in r[i].deletedFor
    ensures forall i :: 0 <= i < |messages| && messages[i].chat == chatId && me !in messages[i].deletedFor ==>
              messages[i] in r
  {
    Filter(messages, (m: Message) => m.chat == chatId && me !in m.deletedFor)
  }

  /** The page and limit as the handler reads them: `parseInt` of the query text, and 1 and
      50 for a parameter that is absent. `None` stands for a `NaN` in either. */
  function PageArgs(page: Option<string>, limit: Option<string>): (r: Option<(int, int)>)
    ensures r.Some? <==> (page.None? || Text.ParseInt(page.value).Some?) && (limit.None? || Text.ParseInt(limit.value).Some?)
    ensures r.Some? && page.None? ==> r.value.0 == 1
    ensures r.Some? && limit.None? ==> r.value.1 == 50
  {
    var p := if page.Some? then Text.ParseInt(page.value) else Some(1);
    var l := if limit.Some? then Text.ParseInt(limit.value) else Some(50);
    if p.Some? && l.Some? then Some((p.value, l.value)) else None
  }

  /** Numbers written in decimal are read back as themselves. */
  lemma PageArgsReadsDecimals(p: nat, l: nat)
    ensures PageArgs(Some(Text.Decimal(p)), Some(Text.Decimal(l))) == Some((p as int, l as int))
    ensures PageArgs(Some(Text.Decimal(p)), None) == Some((p as int, 50))
  {
    Text.ParseIntDecimal(p, "");
    Text.ParseIntDecimal(l, "");
    assert Text.Decimal(p) + "" == Text.Decimal(p);
    assert Text.Decimal(l) + "" == Text.Decimal(l);
  }

  /** A parameter without a digit, such as `?page=abc`, is `NaN`. */
  lemma PageArgsWithoutDigitsIsNaN(page: string, limit: Option<string>)
    requires forall i :: 0 <= i < |page| ==> !Text.IsAsciiDigit(page[i])
    ensures PageArgs(Some(page), limit).None?
  {
  }

  datatype Page = Page(count: nat, total: nat, page: int, pages: Option<int>, data: seq<Message>)

  /** What a rejected negative skip reports; the driver's exact wording is not modelled. */
  const NegativeSkip: string := "skip must be non-negative"

  /** `GET /api/messages/:chatId?page&limit`: newest-first, skip `(page-1)*limit`, at most
      `limit`, then reversed so the page reads oldest-first. The store never changes. */
  function GetMessages(db: Db.Store, me: Option<UserId>, chatId: ChatId, page: int, limit: int): (r: Response<Page>)
    ensures me.None? ==> r == Err(401, NotAuthorized)
    ensures me.Some? && ChatAccess(db, me.value, Some(chatId), "Not authorized to view messages in this chat").Err? ==>
              r == Err(ChatAccess(db, me.value, Some(chatId), "Not authorized to view messages in this chat").code,
                       ChatAccess(db, me.value, Some(chatId), "Not authorized to view messages in this chat").message)
    ensures r.Ok? <==> me.Some? && ChatAccess(db, me.value, Some(chatId), "Not authorized to view messages in this chat").Ok? &&
                       (page - 1) * limit >= 0
    ensures r.Ok? ==> r.code == 200
    ensures r.Ok? ==>
              var v := Visible(db.messages, chatId, me.value);
              && r.data.total == |v| && r.data.count == |r.data.data|
              && r.data.page == page && r.data.pages == Pages(|v|, limit)
              && (forall i :: 0 <= i < |r.data.data| ==> r.data.data[i].chat == chatId && me.value !in r.data.data[i].deletedFor)
  {
    if me.None? then Err(401, NotAuthorized)
    else
      var access := ChatAccess(db, me.value, Some(chatId), "Not authorized to view messages in this chat");
      if access.Err? then Err(access.code, access.message)
      else
        var skip := (page - 1) * limit;
        if skip < 0 then Err(500, NegativeSkip)
        else
          var v := Visible(db.messages, chatId, me.value);
          var newestFirst := Take(Drop(Reverse(v), skip), LimitCount(limit, |v|));
          var data := Reverse(newestFirst);
          Ok(200, Page(|data|, |v|, page, Pages(|v|, limit), data))
  }

  /** For a positive page and limit, the page is the contiguous run of visible messages
      that ends `(page-1)*limit` messages before the newest, oldest first. */
  lemma GetMessagesIsWindow(db: Db.Store, me: UserId, chatId: ChatId, page: int, limit: int)
    requires page >= 1 && limit >= 1
    requires ChatAccess(db, me, Some(chatId), "Not authorized to view messages in this chat").Ok?
    ensures GetMessages(db, Some(me), chatId, page, limit).Ok?
    ensures var v := Visible(db.messages, chatId, me);
            var skip := (page - 1) * limit;
            var hi := if skip <= |v| then |v| - skip else 0;
            var lo := if hi >= limit then hi - limit else 0;
            GetMessages(db, Some(me), chatId, page, limit).data.data == v[lo..hi]
  {
    var v := Visible(db.messages, chatId, me);
    var before: nat, size: nat := page - 1, limit;
    var skip: nat := before * size;
    var r := GetMessages(db, Some(me), chatId, page, limit);
    assert LimitCount(limit, |v|) == limit;
    assert skip == (page - 1) * limit;
    assert r.data.data == Reverse(Take(Drop(Reverse(v), skip), limit));
    NewestFirstPage(v, skip, limit);
    var hi := if skip <= |v| then |v| - skip else 0;
    var lo := if hi >= limit then hi - limit else 0;
    assert r.data.data == v[lo..hi];
  }

  datatype File = File(mimetype: string, originalName: string, size: int)

  /** The upload classifier: image, video and audio by their top-level type, anything
      else a document. */
  function Classify(mimetype: string): (t: MessageModel.MsgType)
    ensures t == MessageModel.ImageMsg <==> Text.StartsWith(mimetype, "image/")
    ensures t == MessageModel.VideoMsg <==> Text.StartsWith(mimetype, "video/") && !Text.StartsWith(mimetype, "image/")
    ensures t == MessageModel.AudioMsg <==>
              Text.StartsWith(mimetype, "audio/") && !Text.StartsWith(mimetype, "image/") && !Text.StartsWith(mimetype, "video/")
    ensures t != MessageModel.TextMsg
  {
    if Text.StartsWith(mimetype, "image/") then MessageModel.ImageMsg
    else if Text.StartsWith(mimetype, "video/") then MessageModel.VideoMsg
    else if Text.StartsWith(mimetype, "audio/") then MessageModel.AudioMsg
    else MessageModel.DocumentMsg
  }

  /** `POST /api/messages/upload`: `url` is what the file host returned for the upload. */
  function UploadFileMessage(db: Db.Store, me: Option<UserId>, chatId: Option<ChatId>, file: Option<File>,
                             encryptedContent: Option<string>, url: string, id: MessageId): (r: (Db.Store, Response<Message>))
    ensures me.None? ==> r.1 == Err(401, NotAuthorized)
    ensures me.Some? && file.None? ==> r.1 == Err(400, "Please upload a file")
    ensures r.1.Err? ==> r.0 == db
    ensures r.1.Ok? <==> me.Some? && file.Some? && ChatAccess(db, me.value, chatId, "Not authorized to send message in this chat").Ok?
    ensures r.1.Ok? ==>
              && r.1.code == 201 && r.0 == Db.InsertMessage(db, r.1.data)
              && r.1.data.kind == Classify(file.value.mimetype)
              && r.1.data.content == "Sent a " + MessageModel.TypeName(r.1.data.kind)
              && r.1.data.file == Some(MessageModel.Attachment(url, file.value.originalName, file.value.size))
              && r.1.data.sender == me.value && r.1.data.chat == chatId.value
  {
    if me.None? then (db, Err(401, NotAuthorized))
    else if file.None? then (db, Err(400, "Please upload a file"))
    else
      var access := ChatAccess(db, me.value, chatId, "Not authorized to send message in this chat");
      if access.Err? then (db, Err(access.code, access.message))
      else
        var kind := Classify(file.value.mimetype);
        var d := MessageModel.Draft(chatId.value, me.value, Some("Sent a " + MessageModel.TypeName(kind)),
                                    encryptedContent, Some(MessageModel.TypeName(kind)),
                                    Some(MessageModel.Attachment(url, file.value.originalName, file.value.size)), None);
        MessageModel.TypeNameParses(kind);
        match MessageModel.Create(id, d)
        case Created(m) => (Db.InsertMessage(db, m), Ok(201, m))
        case Failed(_) => assert false; (db, Err(500, ""))
  }

  /** `PUT /api/messages/:id/status`: whatever status is supplied is stored, with no check
      against the current one; `seen` also records the requester as a reader, once. An
      unknown status fails validation and nothing is stored. */
  function UpdateMessageStatus(db: Db.Store, me: Option<UserId>, id: MessageId, status: Option<string>, now: Time)
    : (r: (Db.Store, Response<Message>))
    ensures me.None? ==> r.1 == Err(401, NotAuthorized)
    ensures me.Some? && Db.MessageIndex(db.messages, id).None? ==> r.1 == Err(404, "Message not found")
    ensures r.1.Err? ==> r.0 == db
    ensures me.Some? && Db.MessageIndex(db.messages, id).Some? && Truthy(status) &&
            MessageModel.ParseStatus(status.value).None? ==>
              r.1 == Err(500, ValidationFailed("Message", [("status", MessageModel.EnumError("status", status.value))]))
    ensures r.1.Ok? ==>
              var i := Db.MessageIndex(db.messages, id).value;
              var old_ := db.messages[i];
              && me.Some? && r.1.code == 200
              && r.0 == Db.SaveMessageAt(db, i, r.1.data)
              && r.1.data.status == (if Truthy(status) then MessageModel.ParseStatus(status.value).value else old_.status)
              && r.1.data.readBy == (if status == Some("seen") then MessageModel.AddReader(old_.readBy, me.value, now) else old_.readBy)
              && r.1.data == old_.(status := r.1.data.status, readBy := r.1.data.readBy)
  {
    if me.None? then (db, Err(401, NotAuthorized))
    else match Db.MessageIndex(db.messages, id)
      case None => (db, Err(404, "Message not found"))
      case Some(i) =>
        var m := db.messages[i];
        if Truthy(status) && MessageModel.ParseStatus(status.value).None? then
          (db, Err(500, ValidationFailed("Message", [("status", MessageModel.EnumError("status", status.value))])))
        else
          var withStatus := if Truthy(status) then m.(status := MessageModel.ParseStatus(status.value).value) else m;
          var updated := if status == Some("seen")
                         then withStatus.(readBy := MessageModel.AddReader(m.readBy, me.value, now))
                         else withStatus;
          (Db.SaveMessageAt(db, i, updated), Ok(200, updated))
  }

  /** A status update can move a seen message back to sent or delivered. */
  lemma StatusUpdateCanRegress(db: Db.Store, me: UserId, id: MessageId, now: Time)
    requires Db.MessageIndex(db.messages, id).Some?
    requires db.messages[Db.MessageIndex(db.messages, id).value].status == MessageModel.Seen
    ensures UpdateMessageStatus(db, Some(me), id, Some("sent"), now).1.Ok?
    ensures UpdateMessageStatus(db, Some(me), id, Some("sent"), now).1.data.status == MessageModel.Sent
  {
  }

  /** One `seen` update of a known message: the reader is added to its receipts and the
      message stays where it was. */
  lemma SeenUpdate(db: Db.Store, me: UserId, id: MessageId, now: Time)
    requires Db.MessageIndex(db.messages, id).Some?
    ensures var i := Db.MessageIndex(db.messages, id).value;
            var r := UpdateMessageStatus(db, Some(me), id, Some("seen"), now);
            && r.1.Ok?
            && r.1.data.readBy == MessageModel.AddReader(db.messages[i].readBy, me, now)
            && r.0.messages == db.messages[i := r.1.data]
            && Db.MessageIndex(r.0.messages, id) == Some(i)
  {
    var i := Db.MessageIndex(db.messages, id).value;
    assert Truthy(Some("seen")) && MessageModel.ParseStatus("seen") == Some(MessageModel.Seen);
    var r := UpdateMessageStatus(db, Some(me), id, Some("seen"), now);
    assert r.1.data.id == id;
    Db.MessageIndexAfterSave(db.messages, i, r.1.data);
  }

  /** Marking a message seen twice leaves exactly one receipt for the reader. */
  lemma SeenTwiceOneReceipt(db: Db.Store, me: UserId, id: MessageId, t1: Time, t2: Time)
    requires Db.MessageIndex(db.messages, id).Some?
    ensures var r1 := UpdateMessageStatus(db, Some(me), id, Some("seen"), t1);
            var r2 := UpdateMessageStatus(r1.0, Some(me), id, Some("seen"), t2);
            && r2.1.Ok?
            && MessageModel.ReceiptCount(r2.1.data.readBy, me) ==
               (if MessageModel.HasRead(db.messages[Db.MessageIndex(db.messages, id).value].readBy, me)
                then MessageModel.ReceiptCount(db.messages[Db.MessageIndex(db.messages, id).value].readBy, me)
                else 1)
  {
    var i := Db.MessageIndex(db.messages, id).value;
    var m := db.messages[i];
    SeenUpdate(db, me, id, t1);
    var r1 := UpdateMessageStatus(db, Some(me), id, Some("seen"), t1);
    SeenUpdate(r1.0, me, id, t2);
    MessageModel.AddReaderIdempotent(m.readBy, me, t1, t2);
    MessageModel.AddReaderCount(m.readBy, me, t1);
  }

  /** The owner check edit and delete share: 404 for an unknown message, 403 for anyone but
      its sender. */
  function OwnMessage(db: Db.Store, me: UserId, id: MessageId, forbidden: string): (r: Response<nat>)
    ensures r.Ok? <==> Db.MessageIndex(db.messages, id).Some? && db.messages[Db.MessageIndex(db.messages, id).value].sender == me
    ensures r.Ok? ==> r.data == Db.MessageIndex(db.messages, id).value
    ensures Db.MessageIndex(db.messages, id).None? ==> r == Err(404, "Message not found")
    ensures r.Err? && Db.MessageIndex(db.messages, id).Some? ==> r == Err(403, forbidden)
  {
    match Db.MessageIndex(db.messages, id)
    case None => Err(404, "Message not found")
    case Some(i) => if db.messages[i].sender == me then Ok(200, i) else Err(403, forbidden)
  }

  /** `PUT /api/messages/:id`: only the sender may edit; the content is replaced, marked
      edited, and the encrypted copy replaced only when a non-empty one is supplied. */
  function EditMessage(db: Db.Store, me: Option<UserId>, id: MessageId, content: Option<string>, encryptedContent: Option<string>)
    : (r: (Db.Store, Response<Message>))
    ensures me.None? ==> r.1 == Err(401, NotAuthorized)
    ensures me.Some? ==> (r.1.Ok? <==> OwnMessage(db, me.value, id, "Not authorized to edit this message").Ok?)
    ensures me.Some? && OwnMessage(db, me.value, id, "Not authorized to edit this message").Err? ==>
              r.1 == Err(OwnMessage(db, me.value, id, "Not authorized to edit this message").code,
                         OwnMessage(db, me.value, id, "Not authorized to edit this message").message)
    ensures r.1.Err? ==> r.0 == db
    ensures r.1.Ok? ==>
              var i := Db.MessageIndex(db.messages, id).value;
              && r.0 == Db.SaveMessageAt(db, i, r.1.data)
              && r.1.data.isEdited && r.1.data.content == content.GetOr("")
              && r.1.data.encryptedContent == (if Truthy(encryptedContent) then encryptedContent else db.messages[i].encryptedContent)
              && r.1.data == db.messages[i].(content := r.1.data.content, encryptedContent := r.1.data.encryptedContent, isEdited := true)
  {
    if me.None? then (db, Err(401, NotAuthorized))
    else
      var own := OwnMessage(db, me.value, id, "Not authorized to edit this message");
      if own.Err? then (db, Err(own.code, own.message))
      else
        var m := db.messages[own.data];
        var edited := m.(content := content.GetOr(""),
                         encryptedContent := if Truthy(encryptedContent) then encryptedContent else m.encryptedContent,
                         isEdited := true);
        (Db.SaveMessageAt(db, own.data, edited), Ok(200, edited))
  }

  const DeletedText: string := "This message was deleted"

  /** `DELETE /api/messages/:id`: only the sender may delete. For everyone, the message is
      flagged deleted and its text replaced; for self, the sender joins `deletedFor` unless
      already there, in which case nothing is saved. */
  function DeleteMessage(db: Db.Store, me: Option<UserId>, id: MessageId, forEveryone: bool)
    : (r: (Db.Store, Response<()>))
    ensures me.None? ==> r.1 == Err(401, NotAuthorized)
    ensures me.Some? ==> (r.1.Ok? <==> OwnMessage(db, me.value, id, "Not authorized to delete this message").Ok?)
    ensures me.Some? && OwnMessage(db, me.value, id, "Not authorized to delete this message").Err? ==>
              r.1 == Err(OwnMessage(db, me.value, id, "Not authorized to delete this message").code,
                         OwnMessage(db, me.value, id, "Not authorized to delete this message").message)
    ensures r.1.Err? ==> r.0 == db
    ensures r.1.Ok? ==> r.1.code == 200
    ensures r.1.Ok? && forEveryone ==>
              var i := Db.MessageIndex(db.messages, id).value;
              r.0 == Db.SaveMessageAt(db, i, db.messages[i].(isDeleted := true, content := DeletedText))
    ensures r.1.Ok? && !forEveryone ==>
              var i := Db.MessageIndex(db.messages, id).value;
              if me.value in db.messages[i].deletedFor then r.0 == db
              else r.0 == Db.SaveMessageAt(db, i, db.messages[i].(deletedFor := db.messages[i].deletedFor + [me.value]))
  {
    if me.None? then (db, Err(401, NotAuthorized))
    else
      var own := OwnMessage(db, me.value, id, "Not authorized to delete this message");
      if own.Err? then (db, Err(own.code, own.message))
      else
        var m := db.messages[own.data];
        if forEveryone then
          (Db.SaveMessageAt(db, own.data, m.(isDeleted := true, content := DeletedText)), Ok(200, ()))
        else if me.value in m.deletedFor then (db, Ok(200, ()))
        else (Db.SaveMessageAt(db, own.data, m.(deletedFor := m.deletedFor + [me.value])), Ok(200, ()))
  }

  /** Deleting for oneself twice is the same as once. */
  lemma DeleteForSelfIdempotent(db: Db.Store, me: UserId, id: MessageId)
    requires DeleteMessage(db, Some(me), id, false).1.Ok?
    ensures var once := DeleteMessage(db, Some(me), id, false).0;
            DeleteMessage(once, Some(me), id, false).0 == once
  {
    var i := Db.MessageIndex(db.messages, id).value;
    var once := DeleteMessage(db, Some(me), id, false).0;
    assert once.messages[i].id == id;
    assert Db.MessageIndex(once.messages, id) == Some(i);
    assert me in once.messages[i].deletedFor;
  }

  /** The search's result cap. */
  const SearchLimit: nat := 50

  /** What the search's query selects: a message of the chat, matching the query, not
      deleted for everyone and not hidden from the requester. */
  predicate SearchHit(m: Message, chatId: ChatId, me: UserId, query: string, matches: (string, string) -> bool) {
    m.chat == chatId && matches(m.content, query) && !m.isDeleted && me !in m.deletedFor
  }

  /** The messages the search selects, oldest first. */
  function SearchHits(messages: seq<Message>, chatId: ChatId, me: UserId, query: string,
                      matches: (string, string) -> bool): (r: seq<Message>)
    ensures forall i :: 0 <= i < |r| ==> SearchHit(r[i], chatId, me, query, matches) && r[i] in messages
    ensures forall i :: 0 <= i < |messages| && SearchHit(messages[i], chatId, me, query, matches) ==> messages[i] in r
  {
    Filter(messages, (m: Message) => SearchHit(m, chatId, me, query, matches))
  }

  /** `GET /api/messages/search/:chatId?query`: `matches(content, query)` stands for the
      case-insensitive regular-expression match, which is not modelled. The answer is the
      newest fifty hits, newest first, or all of them when there are fewer. */
  function SearchMessages(db: Db.Store, me: Option<UserId>, chatId: ChatId, query: Option<string>,
                          matches: (string, string) -> bool): (r: Response<seq<Message>>)
    ensures me.None? ==> r == Err(401, NotAuthorized)
    ensures me.Some? && !Truthy(query) ==> r == Err(400, "Search query is required")
    ensures me.Some? && Truthy(query) && ChatAccess(db, me.value, Some(chatId), NotAuthorized).Err? ==>
              r == Err(403, NotAuthorized)
    ensures me.Some? && Truthy(query) && ChatAccess(db, me.value, Some(chatId), NotAuthorized).Ok? ==>
              r.Ok? && r.code == 200
    ensures r.Ok? ==>
              var hits := SearchHits(db.messages, chatId, me.value, query.value, matches);
              && |r.data| == (if |hits| <= SearchLimit then |hits| else SearchLimit)
              && forall i :: 0 <= i < |r.data| ==> r.data[i] == hits[|hits| - 1 - i]
    ensures r.Ok? ==> forall i :: 0 <= i < |r.data| ==>
              && r.data[i].chat == chatId && !r.data[i].isDeleted && me.value !in r.data[i].deletedFor
              && matches(r.data[i].content, query.value) && r.data[i] in db.messages
  {
    if me.None? then Err(401, NotAuthorized)
    else if !Truthy(query) then Err(400, "Search query is required")
    else if ChatAccess(db, me.value, Some(chatId), NotAuthorized).Err? then Err(403, NotAuthorized)
    else
      var hits := SearchHits(db.messages, chatId, me.value, query.value, matches);
      Ok(200, Newest(hits, SearchLimit))
  }

  /** With no more than fifty hits, every message the query selects is in the answer. */
  lemma SearchReturnsEveryHit(db: Db.Store, me: UserId, chatId: ChatId, query: Option<string>,
                              matches: (string, string) -> bool, k: nat)
    requires Truthy(query) && ChatAccess(db, me, Some(chatId), NotAuthorized).Ok?
    requires k < |db.messages| && SearchHit(db.messages[k], chatId, me, query.value, matches)
    requires |SearchHits(db.messages, chatId, me, query.value, matches)| <= SearchLimit
    ensures db.messages[k] in SearchMessages(db, Some(me), chatId, query, matches).data
  {
    var hits := SearchHits(db.messages, chatId, me, query.value, matches);
    var r := SearchMessages(db, Some(me), chatId, query, matches);
    var j :| 0 <= j < |hits| && hits[j] == db.messages[k];
    assert r.data[|hits| - 1 - j] == hits[j];
  }
}
