/** The chat list (client/src/components/chat/ChatList.tsx): the rows it shows for the
    store's chats, the preview line of each, the debounced user search, and opening a
    direct chat from a search result. Requests are not made here: their outcomes are
    parameters, and the search's timer is a list of timed changes to the query. */
module ChatList {
  import opened Common
  import MessageModel
  import ChatStore
  import ClientUtils

  /** The number of characters of a text message the preview keeps before the ellipsis. */
  const PreviewLength: nat := 30

  const NoMessages := "No messages yet"
  const SentPrefix := "You: "

  /** The label a media message previews as. */
  function MediaLabel(kind: MessageModel.MsgType): (r: Option<string>)
    ensures r.None? <==> kind == MessageModel.TextMsg
  {
    match kind
    case TextMsg => None
    case ImageMsg => Some("\U{1F4F7} Image")
    case VideoMsg => Some("\U{1F3A5} Video")
    case DocumentMsg => Some("\U{1F4C4} Document")
    case AudioMsg => Some("\U{1F3B5} Audio")
  }

  /** Whether the signed-in user sent the message; nobody signed in sends nothing. */
  predicate IsSent(m: ChatStore.Msg, me: Option<UserId>) {
    me.Some? && m.sender == me.value
  }

  /** `getLastMessagePreview`: a fixed text when the chat has no last message; otherwise
      "You: " for the user's own message, then the deletion notice, the media label, or the
      text cut to 30 characters. */
  function LastMessagePreview(chat: ChatStore.Chat, me: Option<UserId>): (r: string)
    ensures chat.lastMessage.None? ==> r == NoMessages
    ensures chat.lastMessage.Some? ==>
              var m := chat.lastMessage.value;
              var body := if m.isDeleted then "This message was deleted"
                          else if m.kind != MessageModel.TextMsg then MediaLabel(m.kind).value
                          else ClientUtils.TruncateText(m.content, PreviewLength);
              r == (if IsSent(m, me) then SentPrefix else "") + body
  {
    match chat.lastMessage
    case None => NoMessages
    case Some(m) =>
      var prefix := if IsSent(m, me) then SentPrefix else "";
      if m.isDeleted then prefix + "This message was deleted"
      else match MediaLabel(m.kind)
        case Some(tag) => prefix + tag
        case None => prefix + ClientUtils.TruncateText(m.content, PreviewLength)
  }

  /** The user's own last message previews as the same message from someone else, with
      "You: " in front. */
  lemma SentPreviewIsPrefixed(chat: ChatStore.Chat, me: UserId)
    requires chat.lastMessage.Some? && chat.lastMessage.value.sender == me
    ensures LastMessagePreview(chat, Some(me)) == SentPrefix + LastMessagePreview(chat, None)
  {
  }

  /** A text preview is never longer than the limit plus the ellipsis (and the prefix). */
  lemma TextPreviewIsShort(chat: ChatStore.Chat, me: Option<UserId>)
    requires chat.lastMessage.Some? && chat.lastMessage.value.kind == MessageModel.TextMsg
    ensures |LastMessagePreview(chat, me)| <= |SentPrefix| + PreviewLength + 3
  {
  }

  /** The prefix does not tell who wrote a message: a received text that begins with "You: "
      previews exactly like the user's own message without it. */
  lemma SentPrefixIsAmbiguous(chat: ChatStore.Chat, me: UserId, other: UserId)
    requires me != other
    requires chat.lastMessage.Some?
    requires chat.lastMessage.value.kind == MessageModel.TextMsg && !chat.lastMessage.value.isDeleted
    requires chat.lastMessage.value.content == "hi" && chat.lastMessage.value.sender == me
    ensures var fake := chat.(lastMessage := Some(chat.lastMessage.value.(sender := other, content := "You: hi")));
            LastMessagePreview(fake, Some(me)) == LastMessagePreview(chat, Some(me))
  {
  }

  /** `getUnreadCount`: not implemented in the source, so always zero. */
  function UnreadCount(chat: ChatStore.Chat): (r: nat)
    ensures r == 0
  {
    0
  }

  /** One row of the list, as rendered. */
  datatype Row = Row(
    name: string,
    avatar: string,
    online: bool,
    active: bool,
    groupBadge: bool,
    sentTick: bool,
    preview: string,
    unreadBadge: bool)

  /** A chat's row: name, avatar and presence as seen by the signed-in user (the empty id
      when nobody is), highlighted when it is the open chat, a group marker, a delivery
      tick on the user's own last message, and an unread badge when the count is positive. */
  function RowOf(chat: ChatStore.Chat, me: Option<UserId>, current: Option<ChatStore.Chat>): (r: Row)
    ensures r.active <==> current.Some? && current.value.id == chat.id
    ensures r.sentTick <==> chat.lastMessage.Some? && IsSent(chat.lastMessage.value, me)
    ensures r.groupBadge == chat.isGroupChat && (chat.isGroupChat ==> !r.online)
    ensures !r.unreadBadge
    ensures r.name == ClientUtils.GetChatName(chat, me.GetOr(""))
    ensures r.preview == LastMessagePreview(chat, me)
  {
    var viewer := me.GetOr("");
    Row(ClientUtils.GetChatName(chat, viewer),
        ClientUtils.GetChatAvatar(chat, viewer),
        ClientUtils.GetChatOnlineStatus(chat, viewer),
        current.Some? && current.value.id == chat.id,
        chat.isGroupChat,
        chat.lastMessage.Some? && IsSent(chat.lastMessage.value, me),
        LastMessagePreview(chat, me),
        UnreadCount(chat) > 0)
  }

  /** At most one row is highlighted when chat ids are distinct. */
  lemma OneActiveRow(chats: seq<ChatStore.Chat>, me: Option<UserId>, current: Option<ChatStore.Chat>, i: nat, j: nat)
    requires UniqueIds(chats)
    requires i < |chats| && j < |chats| && i != j
    ensures !(RowOf(chats[i], me, current).active && RowOf(chats[j], me, current).active)
  {
  }

  /** The "no chats" placeholder: nothing listed, nothing loading, no search results. */
  predicate ShowsEmptyState(chats: seq<ChatStore.Chat>, loading: bool, results: seq<UserId>) {
    |chats| == 0 && !loading && |results| == 0
  }

  predicate UniqueIds(chats: seq<ChatStore.Chat>) {
    forall i, j :: 0 <= i < j < |chats| ==> chats[i].id != chats[j].id
  }

  predicate Listed(chats: seq<ChatStore.Chat>, id: ChatId) {
    exists i :: 0 <= i < |chats| && chats[i].id == id
  }

  /** The search box and its results. */
  datatype Panel = Panel(query: string, results: seq<UserId>)

  /** `handleCreateChat`: when the server answers with the chat, it is put in front of the
      list unless a chat with its id is already listed, it becomes the open chat, and the
      search is cleared. A failed or unsuccessful request changes nothing. */
  function HandleCreateChat(st: ChatStore.State, panel: Panel, answer: Option<ChatStore.Chat>): (r: (ChatStore.State, Panel))
    ensures answer.None? ==> r == (st, panel)
    ensures answer.Some? ==>
              && r.0.currentChat == answer
              && r.1 == Panel("", [])
              && r.0.messages == st.messages && r.0.typing == st.typing
              && (Listed(st.chats, answer.value.id) ==> r.0.chats == st.chats)
              && (!Listed(st.chats, answer.value.id) ==> r.0.chats == [answer.value] + st.chats)
  {
    match answer
    case None => (st, panel)
    case Some(c) =>
      var found := FindFirst(st.chats, (x: ChatStore.Chat) => x.id == c.id);
      var chats := if found.Some? then st.chats else [c] + st.chats;
      (ChatStore.SetCurrentChat(ChatStore.SetChats(st, chats), Some(c)), Panel("", []))
  }

  /** Opening chats keeps the list free of duplicate ids, and the opened chat is listed. */
  lemma CreateChatKeepsIdsUnique(st: ChatStore.State, panel: Panel, c: ChatStore.Chat)
    requires UniqueIds(st.chats)
    ensures var r := HandleCreateChat(st, panel, Some(c));
            UniqueIds(r.0.chats) && Listed(r.0.chats, c.id)
  {
    var r := HandleCreateChat(st, panel, Some(c));
    if !Listed(st.chats, c.id) {
      assert r.0.chats[0].id == c.id;
    }
  }

  /** Opening the same chat twice lists it as opening it once did. */
  lemma CreateChatTwice(st: ChatStore.State, panel: Panel, c: ChatStore.Chat)
    ensures var once := HandleCreateChat(st, panel, Some(c));
            HandleCreateChat(once.0, once.1, Some(c)) == once
  {
    var once := HandleCreateChat(st, panel, Some(c));
    assert once.0.chats[0].id == c.id || Listed(st.chats, c.id);
  }

  /** When the chat was already listed, the list keeps its old copy while the open chat is
      the server's fresh one: the two can differ. */
  lemma ListedChatKeepsOldCopy(st: ChatStore.State, panel: Panel, c: ChatStore.Chat, i: nat)
    requires i < |st.chats| && st.chats[i].id == c.id
    ensures var r := HandleCreateChat(st, panel, Some(c));
            r.0.chats[i] == st.chats[i] && r.0.currentChat == Some(c)
  {
  }

  /** The search waits this long after the last change to the query. */
  const DebounceMs: int := 300

  /** A query shorter than this clears the results instead of asking the server. */
  const MinQueryLength: nat := 2

  /** A change to the search box's text at a time. */
  datatype Change = Change(at: Time, query: string)

  /** What the search does when its timer fires. */
  datatype SearchAction = ClearResults | Request(url: string)

  /** The request URL: the query is appended as it is, without encoding. */
  function SearchUrl(query: string): string {
    "/users?search=" + query
  }

  /** `searchUsers`: short queries clear the results; others ask the server. */
  function OnFire(query: string): (a: SearchAction)
    ensures a == ClearResults <==> |query| < MinQueryLength
    ensures a.Request? ==> a.url == SearchUrl(query)
  {
    if |query| < MinQueryLength then ClearResults else Request(SearchUrl(query))
  }

  predicate InOrder(changes: seq<Change>) {
    forall i :: 0 <= i < |changes| - 1 ==> changes[i].at <= changes[i + 1].at
  }

  /** The actions the debounced effect takes for a run of changes: each change arms a timer
      and the next change cancels it unless it comes 300 ms or more later, so a change fires
      exactly when it is the last one or the next is at least that late. */
  function Debounced(changes: seq<Change>): (r: seq<SearchAction>)
    ensures |r| <= |changes|
    ensures |changes| > 0 ==> |r| > 0 && r[|r| - 1] == OnFire(changes[|changes| - 1].query)
    ensures |changes| == 0 ==> r == []
  {
    if |changes| == 0 then []
    else if |changes| == 1 then [OnFire(changes[0].query)]
    else
      (if changes[1].at - changes[0].at >= DebounceMs then [OnFire(changes[0].query)] else [])
      + Debounced(changes[1..])
  }

  /** The change at position `i` fires: it is the last one, or the next comes 300 ms or
      more after it. */
  predicate Fires(changes: seq<Change>, i: int) {
    0 <= i < |changes| && (i == |changes| - 1 || changes[i + 1].at - changes[i].at >= DebounceMs)
  }

  /** The positions of the changes whose timers fire. */
  function FiredSet(changes: seq<Change>): set<int> {
    set i | 0 <= i < |changes| && Fires(changes, i)
  }

  /** The fired positions from `k` on. */
  function FiredFrom(changes: seq<Change>, k: nat): set<int> {
    set i | k <= i < |changes| && Fires(changes, i)
  }

  lemma {:induction false} DebouncedSuffix(changes: seq<Change>, k: nat)
    requires k <= |changes|
    ensures |Debounced(changes[k..])| == |FiredFrom(changes, k)|
    decreases |changes| - k
  {
    if k == |changes| {
      assert FiredFrom(changes, k) == {};
    } else if k == |changes| - 1 {
      assert Fires(changes, k);
      assert FiredFrom(changes, k) == {k};
    } else {
      DebouncedSuffix(changes, k + 1);
      var tail := changes[k..];
      assert tail[1..] == changes[k + 1..];
      assert tail[0] == changes[k] && tail[1] == changes[k + 1];
      assert FiredFrom(changes, k) == (if Fires(changes, k) then {k} else {}) + FiredFrom(changes, k + 1);
    }
  }

  /** One action per change whose timer fires. */
  lemma DebouncedCount(changes: seq<Change>)
    ensures |Debounced(changes)| == |FiredSet(changes)|
  {
    DebouncedSuffix(changes, 0);
    assert changes[0..] == changes;
    assert FiredFrom(changes, 0) == FiredSet(changes);
  }

  /** Typing quickly, with every pause under 300 ms, makes one action: the one for the
      final text. */
  lemma {:induction false} BurstFiresOnce(changes: seq<Change>)
    requires |changes| > 0
    requires forall i :: 0 <= i < |changes| - 1 ==> changes[i + 1].at - changes[i].at < DebounceMs
    ensures Debounced(changes) == [OnFire(changes[|changes| - 1].query)]
  {
    if |changes| > 1 {
      BurstFiresOnce(changes[1..]);
    }
  }

  /** Typing with every pause at least 300 ms fires once per change. */
  lemma {:induction false} SlowTypingFiresEach(changes: seq<Change>)
    requires forall i :: 0 <= i < |changes| - 1 ==> changes[i + 1].at - changes[i].at >= DebounceMs
    ensures |Debounced(changes)| == |changes|
    ensures forall i :: 0 <= i < |changes| ==> Debounced(changes)[i] == OnFire(changes[i].query)
  {
    if |changes| > 1 {
      SlowTypingFiresEach(changes[1..]);
    }
  }

  /** The results after an action: cleared, replaced by a successful answer, or kept when
      the request fails or is unsuccessful. */
  function ApplySearch(panel: Panel, action: SearchAction, answer: Option<seq<UserId>>): (r: Panel)
    ensures r.query == panel.query
    ensures action == ClearResults ==> r.results == []
    ensures action.Request? ==> r.results == answer.GetOr(panel.results)
  {
    match action
    case ClearResults => panel.(results := [])
    case Request(_) =>
      match answer
      case Some(found) => panel.(results := found)
      case None => panel
  }
}
