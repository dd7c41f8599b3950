/** The client's string helpers (client/src/lib/utils.ts): truncation, initials, the avatar
    colour, the e-mail check, and the name, avatar and presence shown for a chat. Lengths
    count characters; `toUpperCase` is modelled on the ASCII letters. */
module ClientUtils {
  import opened Common
  import Text
  import ChatStore

  /** `truncateText`: a text no longer than the limit is returned as it is; a longer one is
      cut to the limit (a negative limit cuts to nothing) and gets `...`. */
  function TruncateText(text: string, maxLength: int): (r: string)
    ensures |text| <= maxLength ==> r == text
    ensures |text| > maxLength && maxLength >= 0 ==> |r| == maxLength + 3 && r[..maxLength] == text[..maxLength]
    ensures |text| > maxLength && maxLength >= 0 ==> r[maxLength..] == "..."
    ensures |text| > maxLength && maxLength < 0 ==> r == "..."
  {
    if |text| <= maxLength then text
    else
      var cut := if maxLength < 0 then 0 else maxLength;
      text[..cut] + "..."
  }

  /** Truncating again changes nothing: a cut text is already three characters longer than
      the limit, so it is cut at the same place and ends the same way. */
  lemma TruncateIdempotent(text: string, maxLength: int)
    ensures TruncateText(TruncateText(text, maxLength), maxLength) == TruncateText(text, maxLength)
  {
    var once := TruncateText(text, maxLength);
    if |text| > maxLength && maxLength >= 0 {
      assert once[..maxLength] + "..." == once;
    }
  }

  /** The first character of each non-empty word, in order; an empty word contributes
      nothing, as `undefined` joins as the empty string. */
  function FirstChars(words: seq<string>): (r: string)
    ensures |r| <= |words|
  {
    if words == [] then ""
    else (if words[0] == "" then "" else [words[0][0]]) + FirstChars(words[1..])
  }

  /** `getInitials`: at most two characters, the upper-cased initials of the words in the
      order they appear. */
  function GetInitials(name: string): (r: string)
    ensures |r| <= 2
    ensures r <= Text.ToUpper(FirstChars(Text.Split(name, ' ')))
  {
    Take(Text.ToUpper(FirstChars(Text.Split(name, ' '))), 2)
  }

  lemma FirstCharsCons(w: string, ws: seq<string>)
    ensures FirstChars([w] + ws) == (if w == "" then "" else [w[0]]) + FirstChars(ws)
  {
    assert ([w] + ws)[1..] == ws;
  }

  /** A single word gives its own initial. */
  lemma InitialsOfOneWord(a: string)
    requires a != "" && ' ' !in a
    ensures GetInitials(a) == [Text.ToUpperChar(a[0])]
  {
    Text.SplitWithoutSeparator(a, ' ');
    FirstCharsCons(a, []);
  }

  /** Names whose first two words are non-empty show those two initials. */
  lemma InitialsOfFirstTwo(name: string, a: string, b: string, rest: seq<string>)
    requires a != "" && b != ""
    requires Text.Split(name, ' ') == [a] + ([b] + rest)
    ensures GetInitials(name) == [Text.ToUpperChar(a[0]), Text.ToUpperChar(b[0])]
  {
    FirstCharsCons(a, [b] + rest);
    FirstCharsCons(b, rest);
    var f := FirstChars(Text.Split(name, ' '));
    assert f == [a[0]] + ([b[0]] + FirstChars(rest));
    assert f[0] == a[0] && f[1] == b[0];
  }

  lemma SplitTwoWords(a: string, b: string, tail: string)
    requires ' ' !in a && ' ' !in b
    requires tail == "" || tail[0] == ' '
    ensures tail == "" ==> Text.Split(a + " " + b + tail, ' ') == [a] + ([b] + [])
    ensures tail != "" ==> Text.Split(a + " " + b + tail, ' ') == [a] + ([b] + Text.Split(tail[1..], ' '))
  {
    var s := a + " " + b + tail;
    assert s == a + [' '] + (b + tail);
    Text.SplitAtFirst(a, b + tail, ' ');
    if tail == "" {
      assert b + tail == b;
      Text.SplitWithoutSeparator(b, ' ');
    } else {
      SplitSecondWord(b, tail);
    }
  }

  lemma SplitSecondWord(b: string, tail: string)
    requires ' ' !in b && tail != "" && tail[0] == ' '
    ensures Text.Split(b + tail, ' ') == [b] + Text.Split(tail[1..], ' ')
  {
    assert b + tail == b + [' '] + tail[1..];
    Text.SplitAtFirst(b, tail[1..], ' ');
  }

  /** Two words give both initials, and anything after a further space is ignored. */
  lemma InitialsOfTwoWords(a: string, b: string, tail: string)
    requires a != "" && ' ' !in a && b != "" && ' ' !in b
    requires tail == "" || tail[0] == ' '
    ensures GetInitials(a + " " + b + tail) == [Text.ToUpperChar(a[0]), Text.ToUpperChar(b[0])]
  {
    SplitTwoWords(a, b, tail);
    var rest := if tail == "" then [] else Text.Split(tail[1..], ' ');
    InitialsOfFirstTwo(a + " " + b + tail, a, b, rest);
  }

  /** A leading space makes an empty first word, which contributes no initial. */
  lemma InitialsSkipLeadingSpace(name: string)
    ensures GetInitials(" " + name) == GetInitials(name)
  {
    assert " " + name == "" + [' '] + name;
    Text.SplitAtFirst("", name, ' ');
    FirstCharsCons("", Text.Split(name, ' '));
  }

  /** The eight colour classes, in the order the helper lists them. */
  const AvatarColors: seq<string> := [
    "bg-red-500", "bg-blue-500", "bg-green-500", "bg-yellow-500",
    "bg-purple-500", "bg-pink-500", "bg-indigo-500", "bg-teal-500"]

  /** `charCodeAt` of a character: itself below U+10000, otherwise its UTF-16 high surrogate. */
  function FirstCodeUnit(c: char): (u: nat)
    ensures u < 0x10000
    ensures (c as int) < 0x10000 ==> u == c as int
  {
    if (c as int) < 0x10000 then c as int else 0xD800 + ((c as int) - 0x10000) / 0x400
  }

  /** `getAvatarColor`: the class chosen by the first code unit modulo eight. An empty name
      has no first code unit, so the lookup gives `undefined` (`None`). */
  function GetAvatarColor(name: string): (r: Option<string>)
    ensures r.None? <==> name == ""
    ensures r.Some? ==> r.value in AvatarColors
  {
    if name == "" then None else Some(AvatarColors[FirstCodeUnit(name[0]) % |AvatarColors|])
  }

  /** The colour depends on the first character only; `A` (65) gives the second class, and
      all characters that share a high surrogate, such as most emoji, share a colour. */
  lemma AvatarColorOfFirstChar(a: string, b: string)
    requires a != "" && b != "" && a[0] == b[0]
    ensures GetAvatarColor(a) == GetAvatarColor(b)
    ensures GetAvatarColor("Alice") == Some("bg-blue-500")
    ensures GetAvatarColor("\U{1F600}") == GetAvatarColor("\U{1F680}") == Some("bg-pink-500")
  {
    assert FirstCodeUnit('\U{1F600}') == 0xD83D == FirstCodeUnit('\U{1F680}');
  }

  /** A run matched by `[^\s@]`: no white space and no `@`. */
  predicate Plain(t: string) {
    forall k :: 0 <= k < |t| ==> !Text.IsJsSpace(t[k]) && t[k] != '@'
  }

  /** The language of `^[^\s@]+@[^\s@]+\.[^\s@]+$`: a non-empty local part, `@`, a non-empty
      domain part, a dot, and a non-empty last part, no part holding white space or `@`. */
  predicate EmailShape(s: string) {
    exists i, j :: 0 < i && i + 1 < j < |s| - 1 && s[i] == '@' && s[j] == '.'
                   && Plain(s[..i]) && Plain(s[i + 1..j]) && Plain(s[j + 1..])
  }

  predicate IsAt(c: char) {
    c == '@'
  }

  /** `isValidEmail` as a scan: the first `@` has text before it, no white space anywhere,
      no second `@`, and a dot with text on both sides after the `@`. */
  function IsValidEmail(s: string): (r: bool)
    ensures r ==> '@' in s && Text.NoSpace(s)
  {
    match FindFirst(s, IsAt)
    case None => false
    case Some(i) => 0 < i && i + 3 <= |s| && Text.NoSpace(s) && '@' !in s[i + 1..] && '.' in s[i + 2..|s| - 1]
  }

  lemma PlainSlice(s: string, lo: nat, hi: nat)
    requires lo <= hi <= |s| && Text.NoSpace(s)
    requires forall t :: lo <= t < hi ==> s[t] != '@'
    ensures Plain(s[lo..hi])
  {
    forall k | 0 <= k < hi - lo ensures !Text.IsJsSpace(s[lo..hi][k]) && s[lo..hi][k] != '@' {
      assert s[lo..hi][k] == s[lo + k];
    }
  }

  lemma Unplain(s: string, lo: nat, hi: nat)
    requires lo <= hi <= |s| && Plain(s[lo..hi])
    ensures forall t :: lo <= t < hi ==> !Text.IsJsSpace(s[t]) && s[t] != '@'
  {
    forall t | lo <= t < hi ensures !Text.IsJsSpace(s[t]) && s[t] != '@' {
      assert s[t] == s[lo..hi][t - lo];
    }
  }

  lemma ValidEmailHasShape(s: string)
    requires IsValidEmail(s)
    ensures EmailShape(s)
  {
    var i := FindFirst(s, IsAt).value;
    var mid := s[i + 2..|s| - 1];
    var k :| 0 <= k < |mid| && mid[k] == '.';
    var j := i + 2 + k;
    assert s[j] == mid[k];
    forall t | i + 1 <= t < |s| ensures s[t] != '@' {
      assert s[t] == s[i + 1..][t - i - 1];
    }
    PlainSlice(s, 0, i);
    PlainSlice(s, i + 1, j);
    PlainSlice(s, j + 1, |s|);
  }

  lemma NoAtInSuffix(s: string, lo: nat)
    requires lo <= |s|
    requires forall t :: lo <= t < |s| ==> s[t] != '@'
    ensures '@' !in s[lo..]
  {
  }

  lemma FirstAt(s: string, i: nat)
    requires i < |s| && s[i] == '@'
    requires forall t :: 0 <= t < i ==> s[t] != '@'
    ensures FindFirst(s, IsAt) == Some(i)
  {
  }

  lemma ShapedEmailIsValid(s: string)
    requires EmailShape(s)
    ensures IsValidEmail(s)
  {
    var i, j :| 0 < i && i + 1 < j < |s| - 1 && s[i] == '@' && s[j] == '.'
                && Plain(s[..i]) && Plain(s[i + 1..j]) && Plain(s[j + 1..]);
    ShapeParts(s, i, j);
    FirstAt(s, i);
    NoAtInSuffix(s, i + 1);
    assert s[i + 2..|s| - 1][j - i - 2] == '.';
  }

  /** The three runs of a matching string put white space nowhere and `@` only between the
      first two. */
  lemma ShapeParts(s: string, i: nat, j: nat)
    requires 0 < i && i + 1 < j < |s| - 1 && s[i] == '@' && s[j] == '.'
    requires Plain(s[..i]) && Plain(s[i + 1..j]) && Plain(s[j + 1..])
    ensures Text.NoSpace(s)
    ensures forall t :: 0 <= t < |s| && t != i ==> s[t] != '@'
  {
    Unplain(s, 0, i);
    Unplain(s, i + 1, j);
    Unplain(s, j + 1, |s|);
    assert !Text.IsJsSpace('@') && !Text.IsJsSpace('.');
  }

  /** The scan accepts exactly the strings the regular expression matches. */
  lemma IsValidEmailMatchesPattern(s: string)
    ensures IsValidEmail(s) <==> EmailShape(s)
  {
    if IsValidEmail(s) {
      ValidEmailHasShape(s);
    }
    if EmailShape(s) {
      ShapedEmailIsValid(s);
    }
  }

  /** An accepted address holds exactly one `@`. */
  lemma ValidEmailHasOneAt(s: string)
    requires IsValidEmail(s)
    ensures Text.CountChar(s, '@') == 1
  {
    var i := FindFirst(s, IsAt).value;
    assert s == s[..i] + ([s[i]] + s[i + 1..]);
    Text.CountAppend(s[..i], [s[i]] + s[i + 1..], '@');
    Text.CountAppend([s[i]], s[i + 1..], '@');
    Text.NoOccurrenceCountsZero(s[..i], '@');
    Text.NoOccurrenceCountsZero(s[i + 1..], '@');
    assert [s[i]][1..] == [];
  }

  /** The participant a direct chat is shown as: the first one who is not the viewer. */
  function OtherIndex(chat: ChatStore.Chat, me: UserId): (r: Option<nat>)
    ensures r.Some? ==> r.value < |chat.participants| && chat.participants[r.value].id != me
    ensures r.Some? ==> forall k :: 0 <= k < r.value ==> chat.participants[k].id == me
    ensures r.None? <==> forall k :: 0 <= k < |chat.participants| ==> chat.participants[k].id == me
  {
    FindFirst(chat.participants, (p: ChatStore.Participant) => p.id != me)
  }

  /** `getChatName`: a group's non-empty name or `Group Chat`; for a direct chat the other
      participant's non-empty name, or `Unknown User`. */
  function GetChatName(chat: ChatStore.Chat, me: UserId): (r: string)
    ensures chat.isGroupChat ==> r == if Truthy(chat.groupName) then chat.groupName.value else "Group Chat"
    ensures !chat.isGroupChat && OtherIndex(chat, me).None? ==> r == "Unknown User"
    ensures !chat.isGroupChat && OtherIndex(chat, me).Some? ==>
              var p := chat.participants[OtherIndex(chat, me).value];
              r == if p.name != "" then p.name else "Unknown User"
  {
    if chat.isGroupChat then (if Truthy(chat.groupName) then chat.groupName.value else "Group Chat")
    else match OtherIndex(chat, me)
      case None => "Unknown User"
      case Some(k) => if chat.participants[k].name != "" then chat.participants[k].name else "Unknown User"
  }

  /** `getChatAvatar`: the same choice, with the empty string as the fallback. */
  function GetChatAvatar(chat: ChatStore.Chat, me: UserId): (r: string)
    ensures chat.isGroupChat ==> r == if Truthy(chat.groupAvatar) then chat.groupAvatar.value else ""
    ensures !chat.isGroupChat && OtherIndex(chat, me).None? ==> r == ""
    ensures !chat.isGroupChat && OtherIndex(chat, me).Some? ==>
              r == chat.participants[OtherIndex(chat, me).value].avatar.GetOr("")
  {
    if chat.isGroupChat then (if Truthy(chat.groupAvatar) then chat.groupAvatar.value else "")
    else match OtherIndex(chat, me)
      case None => ""
      case Some(k) => if Truthy(chat.participants[k].avatar) then chat.participants[k].avatar.value else ""
  }

  /** `getChatOnlineStatus`: never online for a group; otherwise the other participant's
      flag, or offline when there is none. */
  function GetChatOnlineStatus(chat: ChatStore.Chat, me: UserId): (r: bool)
    ensures chat.isGroupChat ==> !r
    ensures r <==> !chat.isGroupChat && OtherIndex(chat, me).Some? && chat.participants[OtherIndex(chat, me).value].isOnline
  {
    if chat.isGroupChat then false
    else match OtherIndex(chat, me)
      case None => false
      case Some(k) => chat.participants[k].isOnline
  }

  /** A direct chat between the viewer and someone else is shown as that someone, whichever
      order the two are listed in. */
  lemma DirectChatShowsOther(chat: ChatStore.Chat, me: UserId, other: ChatStore.Participant, meP: ChatStore.Participant)
    requires !chat.isGroupChat && meP.id == me && other.id != me && other.name != ""
    requires chat.participants == [meP, other] || chat.participants == [other, meP]
    ensures GetChatName(chat, me) == other.name
    ensures GetChatAvatar(chat, me) == other.avatar.GetOr("")
    ensures GetChatOnlineStatus(chat, me) == other.isOnline
  {
    var ps := chat.participants;
    if ps == [meP, other] {
      assert ps[0].id == me && ps[1].id != me;
      var k := OtherIndex(chat, me);
      assert k.Some? && k.value != 0;
      assert k == Some(1);
    } else {
      assert ps[0].id != me;
      assert OtherIndex(chat, me) == Some(0);
    }
  }

  /** A direct chat that lists only the viewer (a chat with oneself) is shown as an unknown,
      offline user with no picture. */
  lemma SelfChatShowsUnknown(chat: ChatStore.Chat, me: UserId)
    requires !chat.isGroupChat && forall k :: 0 <= k < |chat.participants| ==> chat.participants[k].id == me
    ensures GetChatName(chat, me) == "Unknown User"
    ensures GetChatAvatar(chat, me) == ""
    ensures !GetChatOnlineStatus(chat, me)
  {
  }
}
