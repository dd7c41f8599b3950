/** The contact handlers (server/src/controllers/contact.controller.ts). Every route sits
    behind the authentication middleware, so the requester is always a stored user. The
    `$regex` search is an opaque predicate and the new chat's id a parameter.

    `startChat` filters and creates with a field `isGroup` the chat schema does not have.
    The schema drops it when creating; whether the query keeps it depends on the library's
    `strictQuery` setting, so that setting is a parameter: with it the filter is only
    "both users take part", without it the filter matches no stored chat. */
module ContactController {
  import opened Common
  import UserModel
  import ChatModel
  import Text
  import Db

  type User = UserModel.User
  type Chat = ChatModel.Chat
  type Doc = map<string, UserModel.Json>

  const ContactPaths: set<string> := {"name", "email", "phone", "avatar", "bio", "isOnline", "lastSeen"}
  const SearchLimit: nat := 20

  /** A user `searchContacts` selects before the limit: anyone but the requester whose
      e-mail, phone or name the search matches. */
  predicate Found(u: User, me: UserId, query: string, matches: (User, string) -> bool) {
    u.id != me && matches(u, query)
  }

  function FoundUsers(users: seq<User>, me: UserId, query: string, matches: (User, string) -> bool): (r: seq<User>)
    ensures |r| <= |users|
    ensures forall i :: 0 <= i < |r| ==> Found(r[i], me, query, matches) && r[i] in users
    ensures forall i :: 0 <= i < |users| && Found(users[i], me, query, matches) ==> users[i] in r
  {
    Filter(users, (u: User) => Found(u, me, query, matches))
  }

  /** A card projected from a user the search selects. */
  predicate CardOfFound(d: Doc, users: seq<User>, me: UserId, query: string, matches: (User, string) -> bool) {
    exists u :: u in users && Found(u, me, query, matches) && d == UserModel.Project(u, ContactPaths)
  }

  /** `POST /api/contacts/search`: at most twenty matching users, never the requester, each
      reduced to its contact card. */
  function SearchContacts(db: Db.Store, me: UserId, query: Option<string>, matches: (User, string) -> bool)
    : (r: Response<seq<Doc>>)
    ensures !Truthy(query) <==> r == Err(400, "Search query is required")
    ensures r.Ok? ==> r.code == 200 && |r.data| <= SearchLimit
    ensures r.Ok? ==> forall i :: 0 <= i < |r.data| ==> "password" !in r.data[i] && "privateKey" !in r.data[i]
    ensures r.Ok? ==> forall i :: 0 <= i < |r.data| ==> CardOfFound(r.data[i], db.users, me, query.value, matches)
    ensures r.Ok? ==>
              var found := FoundUsers(db.users, me, query.value, matches);
              && |r.data| == (if |found| <= SearchLimit then |found| else SearchLimit)
              && forall i :: 0 <= i < |r.data| ==> r.data[i] == UserModel.Project(found[i], ContactPaths)
  {
    if !Truthy(query) then Err(400, "Search query is required")
    else
      var found := FoundUsers(db.users, me, query.value, matches);
      var picked := Take(found, SearchLimit);
      var cards := Cards(picked);
      assert forall i :: 0 <= i < |picked| ==> picked[i] == found[i];
      assert forall i :: 0 <= i < |cards| ==> CardOfFound(cards[i], db.users, me, query.value, matches) by {
        forall i | 0 <= i < |cards| ensures CardOfFound(cards[i], db.users, me, query.value, matches) {
          assert found[i] in db.users && Found(found[i], me, query.value, matches);
        }
      }
      Ok(200, cards)
  }

  /** With no more than twenty users found, every stored user the search selects has its
      card in the answer. */
  lemma SearchContactsListsEveryone(db: Db.Store, me: UserId, query: Option<string>,
                                    matches: (User, string) -> bool, k: nat)
    requires Truthy(query)
    requires k < |db.users| && Found(db.users[k], me, query.value, matches)
    requires |FoundUsers(db.users, me, query.value, matches)| <= SearchLimit
    ensures UserModel.Project(db.users[k], ContactPaths) in SearchContacts(db, me, query, matches).data
  {
    var found := FoundUsers(db.users, me, query.value, matches);
    var r := SearchContacts(db, me, query, matches);
    var j :| 0 <= j < |found| && found[j] == db.users[k];
    assert r.data[j] == UserModel.Project(db.users[k], ContactPaths);
  }

  /** The `phones` field of the request body. */
  datatype PhonesArg = Missing | NotArray | Phones(list: seq<string>)

  /** The phones as the query sees them: each passes through the `trim` setter. */
  function TrimAll(phones: seq<string>): (r: seq<string>)
    ensures |r| == |phones|
    ensures forall i :: 0 <= i < |phones| ==> r[i] == Text.Trim(phones[i])
  {
    if phones == [] then [] else [Text.Trim(phones[0])] + TrimAll(phones[1..])
  }

  /** `{phone: {$in: phones}, _id: {$ne: me}}`: a stored phone among the listed ones, and not
      the requester. A user without a phone never matches. */
  predicate PhoneListed(u: User, me: UserId, phones: seq<string>) {
    u.id != me && u.phone.Some? && u.phone.value in TrimAll(phones)
  }

  function PhoneMatches(users: seq<User>, me: UserId, phones: seq<string>): (r: seq<User>)
    ensures forall i :: 0 <= i < |r| ==> r[i] in users && r[i].id != me && r[i].phone.Some?
    ensures forall i :: 0 <= i < |r| ==> r[i].phone.value in TrimAll(phones)
    ensures forall i :: 0 <= i < |users| && users[i].id != me && users[i].phone.Some? && users[i].phone.value in TrimAll(phones)
              ==> users[i] in r
  {
    Filter(users, (u: User) => PhoneListed(u, me, phones))
  }

  /** The contact card of each user, in order: the listed paths and the id, never a secret. */
  function Cards(users: seq<User>): (r: seq<Doc>)
    ensures |r| == |users|
    ensures forall i :: 0 <= i < |r| ==> r[i] == UserModel.Project(users[i], ContactPaths)
    ensures forall i :: 0 <= i < |r| ==> "password" !in r[i] && "privateKey" !in r[i]
  {
    assert "password" !in ContactPaths && "privateKey" !in ContactPaths;
    seq(|users|, i requires 0 <= i < |users| => UserModel.Project(users[i], ContactPaths))
  }

  /** `POST /api/contacts/find-by-phones`: without an array, 400; with one (even empty),
      every user whose phone is listed, other than the requester, with no limit. */
  function FindByPhones(db: Db.Store, me: UserId, phones: PhonesArg): (r: Response<seq<Doc>>)
    ensures !phones.Phones? <==> r == Err(400, "Phone numbers array is required")
    ensures r.Ok? ==> r.code == 200 && |r.data| == |PhoneMatches(db.users, me, phones.list)|
    ensures r.Ok? ==> r.data == Cards(PhoneMatches(db.users, me, phones.list))
  {
    match phones
    case Phones(list) => Ok(200, Cards(PhoneMatches(db.users, me, list)))
    case _ => Err(400, "Phone numbers array is required")
  }

  /** Every listed user other than the requester has a card in the answer. */
  lemma FindByPhonesComplete(db: Db.Store, me: UserId, list: seq<string>)
    ensures forall k :: 0 <= k < |db.users| && PhoneListed(db.users[k], me, list) ==>
              UserModel.Project(db.users[k], ContactPaths) in FindByPhones(db, me, Phones(list)).data
  {
    var found := PhoneMatches(db.users, me, list);
    var cards := FindByPhones(db, me, Phones(list)).data;
    assert cards == Cards(found);
    forall k | 0 <= k < |db.users| && PhoneListed(db.users[k], me, list)
      ensures UserModel.Project(db.users[k], ContactPaths) in cards
    {
      var u := db.users[k];
      assert u.id != me && u.phone.Some? && u.phone.value in TrimAll(list);
      assert u in found;
      var i :| 0 <= i < |found| && found[i] == u;
      assert cards[i] == UserModel.Project(u, ContactPaths);
    }
  }

  /** A card projected from a listed user other than the requester. */
  predicate CardOfListed(d: Doc, users: seq<User>, me: UserId, list: seq<string>) {
    exists u :: u in users && PhoneListed(u, me, list) && d == UserModel.Project(u, ContactPaths)
  }

  /** Every card in the answer belongs to a listed user other than the requester. */
  lemma FindByPhonesSound(db: Db.Store, me: UserId, list: seq<string>)
    ensures forall d :: d in FindByPhones(db, me, Phones(list)).data ==> CardOfListed(d, db.users, me, list)
  {
    var found := PhoneMatches(db.users, me, list);
    var cards := FindByPhones(db, me, Phones(list)).data;
    assert cards == Cards(found);
    forall d | d in cards
      ensures CardOfListed(d, db.users, me, list)
    {
      var i :| 0 <= i < |cards| && cards[i] == d;
      assert found[i] in db.users && PhoneListed(found[i], me, list) && d == UserModel.Project(found[i], ContactPaths);
    }
  }

  /** `findByPhones` returns exactly the cards of the users whose phone is listed, other than
      the requester: each such user's card is in the answer, and nothing else is. */
  lemma FindByPhonesExact(db: Db.Store, me: UserId, list: seq<string>)
    ensures forall k :: 0 <= k < |db.users| && PhoneListed(db.users[k], me, list) ==>
              UserModel.Project(db.users[k], ContactPaths) in FindByPhones(db, me, Phones(list)).data
    ensures forall i :: 0 <= i < |FindByPhones(db, me, Phones(list)).data| ==>
              CardOfListed(FindByPhones(db, me, Phones(list)).data[i], db.users, me, list)
  {
    FindByPhonesComplete(db, me, list);
    FindByPhonesSound(db, me, list);
    var cards := FindByPhones(db, me, Phones(list)).data;
    forall i | 0 <= i < |cards|
      ensures CardOfListed(cards[i], db.users, me, list)
    {
      assert cards[i] in cards;
    }
  }

  /** The `startChat` lookup filter. */
  predicate StartChatFilter(c: Chat, me: UserId, other: UserId, strictQuery: bool) {
    strictQuery && me in c.participants && other in c.participants
  }

  function StartChatIndex(chats: seq<Chat>, me: UserId, other: UserId, strictQuery: bool): (r: Option<nat>)
    ensures r.Some? ==> r.value < |chats| && strictQuery
    ensures r.Some? ==> me in chats[r.value].participants && other in chats[r.value].participants
    ensures r.None? <==> !strictQuery || forall j :: 0 <= j < |chats| ==> !(me in chats[j].participants && other in chats[j].participants)
  {
    FindFirst(chats, (c: Chat) => StartChatFilter(c, me, other, strictQuery))
  }

  /** `POST /api/contacts/start-chat`: 400 without a participant, 404 for an unknown one;
      then the first chat the lookup finds (200), or a new direct chat of the two (201). */
  function StartChat(db: Db.Store, me: UserId, participantId: Option<UserId>, newId: ChatId, strictQuery: bool)
    : (r: (Db.Store, Response<Chat>))
    ensures !Truthy(participantId) ==> r == (db, Err(400, "Participant ID is required"))
    ensures Truthy(participantId) && Db.UserIndex(db.users, participantId.value).None? ==>
              r == (db, Err(404, "User not found"))
    ensures r.1.Ok? <==> Truthy(participantId) && Db.UserIndex(db.users, participantId.value).Some?
    ensures r.1.Ok? && StartChatIndex(db.chats, me, participantId.value, strictQuery).Some? ==>
              r == (db, Ok(200, db.chats[StartChatIndex(db.chats, me, participantId.value, strictQuery).value]))
    ensures r.1.Ok? && StartChatIndex(db.chats, me, participantId.value, strictQuery).None? ==>
              && r.1.code == 201 && r.0 == db.(chats := db.chats + [r.1.data])
              && r.1.data.participants == [me, participantId.value] && !r.1.data.isGroupChat
              && r.1.data.id == newId && ChatModel.Saveable(r.1.data)
    ensures r.1.Err? ==> r.0 == db
  {
    if !Truthy(participantId) then (db, Err(400, "Participant ID is required"))
    else match Db.UserIndex(db.users, participantId.value)
      case None => (db, Err(404, "User not found"))
      case Some(_) =>
        match StartChatIndex(db.chats, me, participantId.value, strictQuery)
        case Some(i) => (db, Ok(200, db.chats[i]))
        case None =>
          var c := ChatModel.New(newId, [me, participantId.value], None, None, None);
          assert ChatModel.SaveError(c).None?;
          (db.(chats := db.chats + [c]), Ok(201, c))
  }

  /** With the filter kept by the query, a second request finds the chat the first one
      returned or created, and creates nothing. */
  lemma StartChatReuses(db: Db.Store, me: UserId, other: UserId, f1: ChatId, f2: ChatId)
    requires other != "" && Db.UserIndex(db.users, other).Some?
    ensures var first := StartChat(db, me, Some(other), f1, true);
            var second := StartChat(first.0, me, Some(other), f2, true);
            second.0 == first.0 && second.1.Ok? && second.1.code == 200
  {
    var first := StartChat(db, me, Some(other), f1, true);
    if StartChatIndex(db.chats, me, other, true).None? {
      assert first.0.users == db.users;
      assert StartChatFilter(first.0.chats[|db.chats|], me, other, true);
    }
  }

  /** With the filter kept by the query, the chat returned may be a group chat: the lookup
      does not require a direct chat, so any group holding both users is reused. */
  lemma StartChatCanReturnGroup(db: Db.Store, me: UserId, other: UserId, g: Chat, newId: ChatId)
    requires other != "" && Db.UserIndex(db.users, other).Some?
    requires db.chats == [g] && g.isGroupChat && me in g.participants && other in g.participants
    ensures StartChat(db, me, Some(other), newId, true) == (db, Ok(200, g))
  {
    assert StartChatFilter(db.chats[0], me, other, true);
  }

  /** Without the filter kept, the lookup never succeeds: every request creates another
      direct chat between the same two users. */
  lemma StartChatDuplicatesWithoutStrictQuery(db: Db.Store, me: UserId, other: UserId, f1: ChatId, f2: ChatId)
    requires other != "" && Db.UserIndex(db.users, other).Some?
    ensures var first := StartChat(db, me, Some(other), f1, false);
            var second := StartChat(first.0, me, Some(other), f2, false);
            && second.1.Ok? && second.1.code == 201
            && |second.0.chats| == |db.chats| + 2
            && second.0.chats[|db.chats|].participants == second.0.chats[|db.chats| + 1].participants == [me, other]
  {
    var first := StartChat(db, me, Some(other), f1, false);
    assert first.0.users == db.users;
  }

  /** Nothing stops a requester from starting a chat with themself: the new direct chat
      lists the same user twice and still has the two participants the schema asks for. */
  lemma StartChatWithSelf(db: Db.Store, me: UserId, newId: ChatId)
    requires me != "" && Db.UserIndex(db.users, me).Some?
    requires forall j :: 0 <= j < |db.chats| ==> me !in db.chats[j].participants
    ensures StartChat(db, me, Some(me), newId, true).1.Ok?
    ensures StartChat(db, me, Some(me), newId, true).1.data.participants == [me, me]
  {
  }
}
