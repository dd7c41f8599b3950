/** The chat REST handlers (server/src/controllers/chat.controller.ts) as store transitions.
    A fresh chat id is a parameter; creating or updating a chat runs the chat schema's
    validation and pre-save hook, whose failure is a 500 carrying the hook's message. */
module ChatController {
  import opened Common
  import ChatModel
  import MessageModel
  import Db
  import Text

  type Chat = ChatModel.Chat

  const NotAuthorized: string := "Not authorized"

  /** The query `{isGroupChat: false, participants: {$all: [a, b], $size: 2}}`. */
  predicate IsDirectBetween(c: Chat, a: UserId, b: UserId) {
    !c.isGroupChat && a in c.participants && b in c.participants && |c.participants| == 2
  }

  function DirectChatIndex(chats: seq<Chat>, a: UserId, b: UserId): (r: Option<nat>)
    ensures r.Some? ==> r.value < |chats| && IsDirectBetween(chats[r.value], a, b)
    ensures r.None? <==> forall j :: 0 <= j < |chats| ==> !IsDirectBetween(chats[j], a, b)
  {
    FindFirst(chats, (c: Chat) => IsDirectBetween(c, a, b))
  }

  /** `POST /api/chats`: the direct chat between the requester and `userId`, reused when one
      exists (200) and created otherwise (201). The other user's existence is not checked. */
  function CreateOrGetChat(db: Db.Store, me: Option<UserId>, userId: Option<UserId>, newId: ChatId)
    : (r: (Db.Store, Response<Chat>))
    ensures me.None? ==> r.1 == Err(401, NotAuthorized)
    ensures me.Some? && !Truthy(userId) ==> r.1 == Err(400, "User ID is required")
    ensures me.Some? && Truthy(userId) && userId.value == me.value ==> r.1 == Err(400, "Cannot create chat with yourself")
    ensures r.1.Err? ==> r.0 == db
    ensures r.1.Ok? <==> me.Some? && Truthy(userId) && userId.value != me.value
    ensures r.1.Ok? && DirectChatIndex(db.chats, me.value, userId.value).Some? ==>
              r == (db, Ok(200, db.chats[DirectChatIndex(db.chats, me.value, userId.value).value]))
    ensures r.1.Ok? && DirectChatIndex(db.chats, me.value, userId.value).None? ==>
              && r.1.code == 201 && r.0 == db.(chats := db.chats + [r.1.data])
              && r.1.data.participants == [me.value, userId.value] && !r.1.data.isGroupChat
              && r.1.data.id == newId && r.1.data.lastMessage.None?
  {
    if me.None? then (db, Err(401, NotAuthorized))
    else if !Truthy(userId) then (db, Err(400, "User ID is required"))
    else if userId.value == me.value then (db, Err(400, "Cannot create chat with yourself"))
    else match DirectChatIndex(db.chats, me.value, userId.value)
      case Some(i) => (db, Ok(200, db.chats[i]))
      case None =>
        var c := ChatModel.New(newId, [me.value, userId.value], Some(false), None, None);
        assert ChatModel.SaveError(c).None?;
        (db.(chats := db.chats + [c]), Ok(201, c))
  }

  /** Asking twice for the same direct chat creates it at most once: the second request finds
      the chat the first one made and changes nothing. */
  lemma CreateOrGetChatIdempotent(db: Db.Store, me: UserId, other: UserId, f1: ChatId, f2: ChatId)
    requires other != "" && other != me
    ensures var first := CreateOrGetChat(db, Some(me), Some(other), f1);
            var second := CreateOrGetChat(first.0, Some(me), Some(other), f2);
            second.0 == first.0 && second.1.Ok? && second.1.code == 200
  {
    var first := CreateOrGetChat(db, Some(me), Some(other), f1);
    if DirectChatIndex(db.chats, me, other).None? {
      assert IsDirectBetween(first.0.chats[|db.chats|], me, other);
    }
  }

  /** `GET /api/chats`: the chats the requester takes part in. */
  function GetChats(db: Db.Store, me: Option<UserId>): (r: Response<seq<Chat>>)
    ensures me.None? ==> r == Err(401, NotAuthorized)
    ensures r.Ok? ==> forall i :: 0 <= i < |r.data| ==> me.value in r.data[i].participants && r.data[i] in db.chats
    ensures r.Ok? ==> forall i :: 0 <= i < |db.chats| && me.value in db.chats[i].participants ==> db.chats[i] in r.data
    ensures me.Some? ==> r.Ok?
  {
    if me.None? then Err(401, NotAuthorized)
    else Ok(200, Filter(db.chats, (c: Chat) => me.value in c.participants))
  }

  /** The test the participant filter applies: anyone but the creator. */
  function NotCreator(me: UserId): UserId -> bool {
    (p: UserId) => p != me
  }

  /** The creator followed by the requested participants other than the creator, each as
      many times as it was requested, in the requested order. */
  function GroupParticipants(me: UserId, requested: seq<UserId>): (r: seq<UserId>)
    ensures |r| >= 1 && r[0] == me
    ensures forall i :: 1 <= i < |r| ==> r[i] != me && r[i] in requested
    ensures forall p :: p in requested && p != me ==> p in r
    ensures multiset(r)[me] == 1
    ensures forall p :: p != me ==> multiset(r)[p] == multiset(requested)[p]
  {
    var others := Filter(requested, NotCreator(me));
    assert multiset([me] + others) == multiset([me]) + multiset(others);
    assert forall p :: multiset(others)[p] == if p != me then multiset(requested)[p] else 0 by {
      forall p ensures multiset(others)[p] == if p != me then multiset(requested)[p] else 0 {
        FilterCounts(requested, NotCreator(me), p);
      }
    }
    [me] + others
  }

  /** The requested participants keep their order after the creator. */
  lemma GroupParticipantsKeepOrder(me: UserId, requested: seq<UserId>, i: nat, j: nat)
    requires 1 <= i < j < |GroupParticipants(me, requested)|
    ensures exists a, b :: 0 <= a < b < |requested| &&
              requested[a] == GroupParticipants(me, requested)[i] && requested[b] == GroupParticipants(me, requested)[j]
  {
    assert GroupParticipants(me, requested) == [me] + Filter(requested, NotCreator(me));
    HeadFilterKeepsOrder(me, requested, NotCreator(me), i, j);
  }

  /** `POST /api/chats/group`. The new chat is a group administered by its creator; a
      request naming only the creator passes the 400 check but fails the pre-save hook. */
  function CreateGroupChat(db: Db.Store, me: Option<UserId>, name: Option<string>,
                           participants: Option<seq<UserId>>, newId: ChatId): (r: (Db.Store, Response<Chat>))
    ensures me.None? ==> r.1 == Err(401, NotAuthorized)
    ensures me.Some? && (!Truthy(name) || participants.None? || |participants.value| < 1) ==>
              r.1 == Err(400, "Please provide group name and at least 1 participant")
    ensures r.1.Err? ==> r.0 == db
    ensures r.1.Ok? ==>
              && r.1.code == 201 && r.0 == db.(chats := db.chats + [r.1.data])
              && r.1.data.isGroupChat && r.1.data.groupAdmin == Some(me.value)
              && r.1.data.participants == GroupParticipants(me.value, participants.value)
              && r.1.data.groupName == ChatModel.NormaliseGroupName(name)
              && ChatModel.Saveable(r.1.data)
    ensures me.Some? && Truthy(name) && participants.Some? && |participants.value| >= 1 ==>
              (r.1.Ok? <==> ChatModel.SaveError(ChatModel.New(newId, GroupParticipants(me.value, participants.value),
                                                              Some(true), name, me)).None?)
  {
    if me.None? then (db, Err(401, NotAuthorized))
    else if !Truthy(name) || participants.None? || |participants.value| < 1 then
      (db, Err(400, "Please provide group name and at least 1 participant"))
    else
      var c := ChatModel.New(newId, GroupParticipants(me.value, participants.value), Some(true), name, me);
      match ChatModel.SaveError(c)
      case Some(e) => (db, Err(500, e))
      case None => (db.(chats := db.chats + [c]), Ok(201, c))
  }

  /** A group whose only requested member is its creator ends with one participant, which
      the chat hook refuses. */
  lemma GroupOfCreatorAloneFails(db: Db.Store, me: UserId, name: string, newId: ChatId)
    requires name != "" && |name| <= ChatModel.GroupNameMax && Text.NoSpace(name)
    ensures CreateGroupChat(db, Some(me), Some(name), Some([me]), newId).1
            == Err(500, "Group chat must have at least 2 participants")
  {
    assert Filter([me], NotCreator(me)) == [];
    assert Text.LeadingSpaces(name) == 0;
  }

  /** The group after the update's assignments: a non-empty name replaces the group name
      (trimmed by the setter) and a supplied list replaces the participants. */
  function GroupUpdate(c: Chat, name: Option<string>, participants: Option<seq<UserId>>): (u: Chat)
    ensures u.groupName == (if Truthy(name) then ChatModel.NormaliseGroupName(name) else c.groupName)
    ensures u.participants == (if participants.Some? then participants.value else c.participants)
    ensures u == c.(groupName := u.groupName, participants := u.participants)
  {
    var named := if Truthy(name) then c.(groupName := ChatModel.NormaliseGroupName(name)) else c;
    if participants.Some? then named.(participants := participants.value) else named
  }

  /** `PUT /api/chats/group/:id`: only the group's admin may update it; a non-empty name
      replaces the group name and a supplied list (even an empty one) replaces the
      participants, nothing else changes, and the result must still pass the pre-save hook. */
  function UpdateGroupChat(db: Db.Store, me: Option<UserId>, id: ChatId, name: Option<string>,
                           participants: Option<seq<UserId>>): (r: (Db.Store, Response<Chat>))
    ensures me.None? ==> r.1 == Err(401, NotAuthorized)
    ensures me.Some? && Db.ChatIndex(db.chats, id).None? ==> r.1 == Err(404, "Chat not found")
    ensures me.Some? && Db.ChatIndex(db.chats, id).Some? && !db.chats[Db.ChatIndex(db.chats, id).value].isGroupChat ==>
              r.1 == Err(400, "This is not a group chat")
    ensures me.Some? && Db.ChatIndex(db.chats, id).Some? && db.chats[Db.ChatIndex(db.chats, id).value].isGroupChat &&
            db.chats[Db.ChatIndex(db.chats, id).value].groupAdmin != Some(me.value) ==>
              r.1 == Err(403, "Only group admin can update the group")
    ensures r.1.Err? ==> r.0 == db
    ensures me.Some? && Db.ChatIndex(db.chats, id).Some? && db.chats[Db.ChatIndex(db.chats, id).value].isGroupChat &&
            db.chats[Db.ChatIndex(db.chats, id).value].groupAdmin == Some(me.value) ==>
              var updated := GroupUpdate(db.chats[Db.ChatIndex(db.chats, id).value], name, participants);
              && (r.1.Ok? <==> ChatModel.SaveError(updated).None?)
              && (ChatModel.SaveError(updated).Some? ==> r.1 == Err(500, ChatModel.SaveError(updated).value))
    ensures r.1.Ok? ==>
              var i := Db.ChatIndex(db.chats, id).value;
              var c := db.chats[i];
              && c.isGroupChat && c.groupAdmin == Some(me.value)
              && r.1.code == 200 && r.0 == db.(chats := db.chats[i := r.1.data])
              && r.1.data.groupName == (if Truthy(name) then ChatModel.NormaliseGroupName(name) else c.groupName)
              && r.1.data.participants == (if participants.Some? then participants.value else c.participants)
              && r.1.data == c.(groupName := r.1.data.groupName, participants := r.1.data.participants)
              && ChatModel.Saveable(r.1.data)
  {
    if me.None? then (db, Err(401, NotAuthorized))
    else match Db.ChatIndex(db.chats, id)
      case None => (db, Err(404, "Chat not found"))
      case Some(i) =>
        var c := db.chats[i];
        if !c.isGroupChat then (db, Err(400, "This is not a group chat"))
        else if c.groupAdmin != Some(me.value) then (db, Err(403, "Only group admin can update the group"))
        else
          var updated := GroupUpdate(c, name, participants);
          match ChatModel.SaveError(updated)
          case Some(e) => (db, Err(500, e))
          case None => (db.(chats := db.chats[i := updated]), Ok(200, updated))
  }

  /** `DELETE /api/chats/:id`: only a participant may delete; the chat goes, and so does
      every message of that chat, while all other chats stay in order and all other messages stay. */
  function DeleteChat(db: Db.Store, me: Option<UserId>, id: ChatId): (r: (Db.Store, Response<()>))
    ensures me.None? ==> r.1 == Err(401, NotAuthorized)
    ensures me.Some? && Db.ChatIndex(db.chats, id).None? ==> r.1 == Err(404, "Chat not found")
    ensures me.Some? && Db.ChatIndex(db.chats, id).Some? && me.value !in db.chats[Db.ChatIndex(db.chats, id).value].participants ==>
              r.1 == Err(403, "Not authorized to delete this chat")
    ensures r.1.Err? ==> r.0 == db
    ensures r.1.Ok? <==> me.Some? && Db.ChatIndex(db.chats, id).Some? && me.value in db.chats[Db.ChatIndex(db.chats, id).value].participants
    ensures r.1.Ok? ==>
              var i := Db.ChatIndex(db.chats, id).value;
              && r.0.chats == db.chats[..i] + db.chats[i + 1..]
              && r.0.users == db.users && r.0.otps == db.otps
              && (forall k :: 0 <= k < |r.0.messages| ==> r.0.messages[k].chat != id && r.0.messages[k] in db.messages)
              && (forall k :: 0 <= k < |db.messages| && db.messages[k].chat != id ==> db.messages[k] in r.0.messages)
  {
    if me.None? then (db, Err(401, NotAuthorized))
    else match Db.ChatIndex(db.chats, id)
      case None => (db, Err(404, "Chat not found"))
      case Some(i) =>
        if me.value !in db.chats[i].participants then (db, Err(403, "Not authorized to delete this chat"))
        else
          var kept := Filter(db.messages, (m: MessageModel.Message) => m.chat != id);
          (db.(chats := db.chats[..i] + db.chats[i + 1..], messages := kept), Ok(200, ()))
  }
}
