/** The message composer (client/src/components/chat/MessageInput.tsx): typing signals with
    a three-second stop timer, sending a text message over HTTP and then announcing it on
    the socket, and uploading a file. Each handler is one atomic step on `Input`; the
    asynchronous halves (the answer to a send or an upload, the timer's expiry) are steps
    of their own, the clock is a parameter, and the HTTP answers are `Outcome`s. */
module MessageInput {
  import opened Common
  import Text
  import ChatStore
  import UploadMiddleware
  import opened ClientSocket

  /** The typing signal stops this long after the last keystroke. */
  const TypingTimeoutMs: int := 3000

  /** The largest file the composer uploads. */
  const ClientFileLimit: int := 10 * 1024 * 1024

  const TooLarge := "File size must be less than 10MB"
  const UploadFailed := "Failed to upload file"

  /** The end of a request: it threw (a network error or a non-2xx status), or it was
      answered with a `success` flag and the saved message. */
  datatype Outcome = Thrown | Answered(success: bool, data: ChatStore.Msg)

  /** The composer's state: the chat it sends to, the draft, whether a typing signal is on,
      the chat the armed stop timer will signal, the text message in flight (chat and text)
      and the upload in flight (chat), everything sent on the socket, and the alerts shown. */
  datatype Input = Input(
    chatId: ChatId,
    message: string,
    isTyping: bool,
    timer: Option<ChatId>,
    sending: Option<(ChatId, string)>,
    uploading: Option<ChatId>,
    outbox: seq<ClientEmit>,
    alerts: seq<string>)

  function Mounted(chatId: ChatId): Input {
    Input(chatId, "", false, None, None, None, [], [])
  }

  /** `handleTyping`: the draft takes the value; the first non-empty value while no signal
      is on starts one; every keystroke, even one that empties the draft, re-arms the stop
      timer for this chat. */
  function HandleTyping(st: Input, value: string): (r: Input)
    ensures r.message == value && r.timer == Some(st.chatId)
    ensures !st.isTyping && |value| > 0 ==> r.isTyping && r.outbox == st.outbox + [Typing(st.chatId, true)]
    ensures st.isTyping || |value| == 0 ==> r.isTyping == st.isTyping && r.outbox == st.outbox
    ensures r.chatId == st.chatId && r.sending == st.sending && r.uploading == st.uploading && r.alerts == st.alerts
  {
    var started := if !st.isTyping && |value| > 0 then st.(isTyping := true, outbox := st.outbox + [Typing(st.chatId, true)]) else st;
    started.(message := value, timer := Some(st.chatId))
  }

  /** The stop timer fires: the signal is off and a stop goes to the chat it was armed for,
      whether or not a signal was on. */
  function TimerExpires(st: Input): (r: Input)
    ensures st.timer.None? ==> r == st
    ensures st.timer.Some? ==>
              && !r.isTyping && r.timer.None?
              && r.outbox == st.outbox + [Typing(st.timer.value, false)]
              && r.message == st.message && r.sending == st.sending
  {
    match st.timer
    case None => st
    case Some(c) => st.(isTyping := false, timer := None, outbox := st.outbox + [Typing(c, false)])
  }

  /** The send button is enabled for a draft with something besides white space while
      nothing is being sent or uploaded. */
  predicate CanSend(st: Input) {
    Text.Trim(st.message) != "" && st.sending.None? && st.uploading.None?
  }

  /** The first half of `handleSend`: a blank draft, or a send already in flight, changes
      nothing; otherwise the trimmed draft is posted to this chat, the draft is emptied, and
      a typing signal that is on is stopped. The stop timer stays armed. */
  function SendStart(st: Input): (r: Input)
    ensures Text.Trim(st.message) == "" || st.sending.Some? ==> r == st
    ensures Text.Trim(st.message) != "" && st.sending.None? ==>
              && r.sending == Some((st.chatId, Text.Trim(st.message)))
              && r.message == "" && !r.isTyping && r.timer == st.timer
              && r.outbox == st.outbox + (if st.isTyping then [Typing(st.chatId, false)] else [])
  {
    if Text.Trim(st.message) == "" || st.sending.Some? then st
    else
      var text := Text.Trim(st.message);
      var stopped := if st.isTyping then [Typing(st.chatId, false)] else [];
      st.(message := "", sending := Some((st.chatId, text)), isTyping := false, outbox := st.outbox + stopped)
  }

  /** `Date.now().toString()`: the temporary id of an announced message. */
  function TempId(now: nat): string {
    Text.Decimal(now)
  }

  /** The second half of `handleSend`: a successful answer is announced on the socket to the
      chat it was posted to; a thrown request puts the posted text back as the draft; an
      unsuccessful answer does neither. Either way nothing is in flight afterwards. */
  function SendFinish(st: Input, outcome: Outcome, now: nat): (r: Input)
    ensures st.sending.None? ==> r == st
    ensures st.sending.Some? ==>
              && r.sending.None?
              && (outcome.Thrown? ==> r.message == st.sending.value.1 && r.outbox == st.outbox)
              && (outcome.Answered? && outcome.success ==>
                    r.message == st.message &&
                    r.outbox == st.outbox + [SendMessage(st.sending.value.0, outcome.data, TempId(now))])
              && (outcome.Answered? && !outcome.success ==> r == st.(sending := None))
  {
    match st.sending
    case None => st
    case Some((chatId, text)) =>
      match outcome
      case Thrown => st.(message := text, sending := None)
      case Answered(success, data) =>
        if success then st.(outbox := st.outbox + [SendMessage(chatId, data, TempId(now))], sending := None)
        else st.(sending := None)
  }

  /** `handleKeyPress`: Enter without Shift sends; any other key leaves sending alone. */
  function KeyPress(st: Input, isEnter: bool, shift: bool): (r: Input)
    ensures isEnter && !shift ==> r == SendStart(st)
    ensures !(isEnter && !shift) ==> r == st
  {
    if isEnter && !shift then SendStart(st) else st
  }

  /** The first half of `handleFileUpload`: no file does nothing, a file over ten mebibytes
      is refused with an alert, and any other starts an upload to this chat. */
  function FileChosen(st: Input, size: Option<int>): (r: Input)
    ensures size.None? ==> r == st
    ensures size.Some? && size.value > ClientFileLimit ==> r == st.(alerts := st.alerts + [TooLarge])
    ensures size.Some? && size.value <= ClientFileLimit ==> r == st.(uploading := Some(st.chatId))
  {
    match size
    case None => st
    case Some(n) =>
      if n > ClientFileLimit then st.(alerts := st.alerts + [TooLarge])
      else st.(uploading := Some(st.chatId))
  }

  /** The second half of `handleFileUpload`: a successful answer is announced to the chat
      the file was sent to, a thrown request raises an alert, and the upload is over. */
  function UploadFinish(st: Input, outcome: Outcome, now: nat): (r: Input)
    ensures st.uploading.None? ==> r == st
    ensures st.uploading.Some? ==>
              && r.uploading.None? && r.message == st.message
              && (outcome.Thrown? ==> r.alerts == st.alerts + [UploadFailed] && r.outbox == st.outbox)
              && (outcome.Answered? && outcome.success ==>
                    r.alerts == st.alerts && r.outbox == st.outbox + [SendMessage(st.uploading.value, outcome.data, TempId(now))])
              && (outcome.Answered? && !outcome.success ==> r == st.(uploading := None))
  {
    match st.uploading
    case None => st
    case Some(chatId) =>
      match outcome
      case Thrown => st.(alerts := st.alerts + [UploadFailed], uploading := None)
      case Answered(success, data) =>
        if success then st.(outbox := st.outbox + [SendMessage(chatId, data, TempId(now))], uploading := None)
        else st.(uploading := None)
  }

  /** The open chat changes while the composer stays mounted, as written: only the chat id
      changes, so a typing signal that is on stays on. */
  function SwitchChatAsWritten(st: Input, next: ChatId): (r: Input)
    ensures r == st.(chatId := next)
  {
    st.(chatId := next)
  }

  /** The open chat changes, with the signal of the chat being left stopped and its timer
      cleared, so that every chat told someone started typing is told they stopped. */
  function SwitchChat(st: Input, next: ChatId): (r: Input)
    ensures r.chatId == next && r.message == st.message && r.sending == st.sending
    ensures next == st.chatId ==> r == st
    ensures next != st.chatId ==>
              && !r.isTyping && r.timer.None?
              && r.outbox == st.outbox + (if st.isTyping then [Typing(st.chatId, false)] else [])
  {
    if next == st.chatId then st
    else
      var stopped := if st.isTyping then [Typing(st.chatId, false)] else [];
      st.(chatId := next, isTyping := false, timer := None, outbox := st.outbox + stopped)
  }

  /** Everything that can happen to the composer. */
  datatype Event =
    | Typed(value: string)
    | TimerFires
    | Send
    | SendAnswered(outcome: Outcome, now: nat)
    | Key(isEnter: bool, shift: bool)
    | File(size: Option<int>)
    | UploadAnswered(outcome: Outcome, now: nat)
    | Switch(next: ChatId)

  function Step(st: Input, e: Event): Input {
    match e
    case Typed(value) => HandleTyping(st, value)
    case TimerFires => TimerExpires(st)
    case Send => SendStart(st)
    case SendAnswered(outcome, now) => SendFinish(st, outcome, now)
    case Key(isEnter, shift) => KeyPress(st, isEnter, shift)
    case File(size) => FileChosen(st, size)
    case UploadAnswered(outcome, now) => UploadFinish(st, outcome, now)
    case Switch(next) => SwitchChat(st, next)
  }

  /** A chat is owed a stop exactly while the signal is on for it. */
  function Owed(st: Input, c: ChatId): nat {
    if st.isTyping && c == st.chatId then 1 else 0
  }

  /** Every start sent to a chat is matched by a stop sent to it, except the one for a signal
      still on, and a signal that is on has its stop timer armed for the same chat. */
  ghost predicate Invariant(st: Input) {
    && (st.isTyping ==> st.timer == Some(st.chatId))
    && forall c :: TypingCount(st.outbox, c, true) <= TypingCount(st.outbox, c, false) + Owed(st, c)
  }

  lemma TypingKeepsInvariant(st: Input, value: string)
    requires Invariant(st)
    ensures Invariant(HandleTyping(st, value))
  {
    var r := HandleTyping(st, value);
    forall c ensures TypingCount(r.outbox, c, true) <= TypingCount(r.outbox, c, false) + Owed(r, c) {
      if !st.isTyping && |value| > 0 {
        AppendTyping(st.outbox, Typing(st.chatId, true), c, true);
        AppendTyping(st.outbox, Typing(st.chatId, true), c, false);
      }
    }
  }

  lemma TimerKeepsInvariant(st: Input)
    requires Invariant(st)
    ensures Invariant(TimerExpires(st))
  {
    var r := TimerExpires(st);
    if st.timer.Some? {
      forall c ensures TypingCount(r.outbox, c, true) <= TypingCount(r.outbox, c, false) + Owed(r, c) {
        AppendTyping(st.outbox, Typing(st.timer.value, false), c, true);
        AppendTyping(st.outbox, Typing(st.timer.value, false), c, false);
      }
    }
  }

  /** Stopping the signal for the current chat, if it is on, settles what that chat is owed. */
  lemma StopKeepsInvariant(st: Input, r: Input)
    requires Invariant(st)
    requires r.outbox == st.outbox + (if st.isTyping then [Typing(st.chatId, false)] else [])
    requires !r.isTyping
    ensures forall c :: TypingCount(r.outbox, c, true) <= TypingCount(r.outbox, c, false) + Owed(r, c)
  {
    forall c ensures TypingCount(r.outbox, c, true) <= TypingCount(r.outbox, c, false) + Owed(r, c) {
      if st.isTyping {
        AppendTyping(st.outbox, Typing(st.chatId, false), c, true);
        AppendTyping(st.outbox, Typing(st.chatId, false), c, false);
      } else {
        assert r.outbox == st.outbox;
      }
    }
  }

  lemma SendMessageKeepsCounts(outbox: seq<ClientEmit>, chatId: ChatId, m: ChatStore.Msg, tempId: string)
    ensures forall c, f :: TypingCount(outbox + [SendMessage(chatId, m, tempId)], c, f) == TypingCount(outbox, c, f)
  {
    forall c, f ensures TypingCount(outbox + [SendMessage(chatId, m, tempId)], c, f) == TypingCount(outbox, c, f) {
      AppendTyping(outbox, SendMessage(chatId, m, tempId), c, f);
    }
  }

  /** Every step keeps the invariant. */
  lemma StepKeepsInvariant(st: Input, e: Event)
    requires Invariant(st)
    ensures Invariant(Step(st, e))
  {
    match e
    case Typed(value) => TypingKeepsInvariant(st, value);
    case TimerFires => TimerKeepsInvariant(st);
    case Send =>
      if SendStart(st) != st {
        StopKeepsInvariant(st, SendStart(st));
      }
    case Key(isEnter, shift) =>
      if isEnter && !shift && SendStart(st) != st {
        StopKeepsInvariant(st, SendStart(st));
      }
    case SendAnswered(outcome, now) =>
      if st.sending.Some? && outcome.Answered? && outcome.success {
        SendMessageKeepsCounts(st.outbox, st.sending.value.0, outcome.data, TempId(now));
      }
    case UploadAnswered(outcome, now) =>
      if st.uploading.Some? && outcome.Answered? && outcome.success {
        SendMessageKeepsCounts(st.outbox, st.uploading.value, outcome.data, TempId(now));
      }
    case Switch(next) =>
      if next != st.chatId {
        StopKeepsInvariant(st, SwitchChat(st, next));
      }
    case File(size) =>
  }

  function Run(st: Input, events: seq<Event>): Input {
    if |events| == 0 then st else Step(Run(st, events[..|events| - 1]), events[|events| - 1])
  }

  /** From the first render, through any run of events, every chat told the user started
      typing has been told they stopped, or will be when the armed timer fires. */
  lemma {:induction false} RunKeepsInvariant(chatId: ChatId, events: seq<Event>)
    ensures Invariant(Run(Mounted(chatId), events))
  {
    if |events| == 0 {
      var st := Mounted(chatId);
      forall c ensures TypingCount(st.outbox, c, true) <= TypingCount(st.outbox, c, false) + Owed(st, c) {
      }
    } else {
      RunKeepsInvariant(chatId, events[..|events| - 1]);
      StepKeepsInvariant(Run(Mounted(chatId), events[..|events| - 1]), events[|events| - 1]);
    }
  }

  /** As written, switching chats while the signal is on leaves the first chat told the user
      started typing and never told they stopped: the next keystroke re-arms the timer for
      the second chat, and nothing is owed to the first any more. */
  lemma TypingNeverStopsAsWritten()
    ensures var st := TimerExpires(HandleTyping(SwitchChatAsWritten(HandleTyping(Mounted("a"), "h"), "b"), "hi"));
            && st.outbox == [Typing("a", true), Typing("b", false)]
            && !st.isTyping && st.timer.None?
            && TypingCount(st.outbox, "a", true) > TypingCount(st.outbox, "a", false) + Owed(st, "a")
  {
    var st := TimerExpires(HandleTyping(SwitchChatAsWritten(HandleTyping(Mounted("a"), "h"), "b"), "hi"));
    assert st.outbox[..1] == [Typing("a", true)];
    assert st.outbox[..1][..0] == [];
  }

  /** A message sent while the signal is on produces two stops: one when it is sent and
      one when the timer, which sending does not clear, fires. */
  lemma SendThenTimerStopsTwice(chatId: ChatId, text: string)
    requires Text.Trim(text) != ""
    ensures var typed := HandleTyping(Mounted(chatId), text);
            var st := TimerExpires(SendStart(typed));
            st.outbox == [Typing(chatId, true), Typing(chatId, false), Typing(chatId, false)]
  {
    assert |text| > 0;
  }

  /** A send that throws restores the draft trimmed: white space around it is lost. */
  lemma ThrownSendRestoresTrimmedDraft(st: Input)
    requires CanSend(st)
    ensures var r := SendFinish(SendStart(st), Thrown, 0);
            r.message == Text.Trim(st.message) && r.sending.None? && Text.Trim(r.message) == r.message
  {
    Text.TrimIdempotent(st.message);
  }

  /** An enabled send button always starts a send. */
  lemma EnabledButtonSends(st: Input)
    requires CanSend(st)
    ensures SendStart(st).sending.Some? && SendStart(st).message == ""
  {
  }

  /** The composer's limit is the server's default one, and a file of exactly that size is
      accepted although the alert speaks of "less than 10MB". */
  lemma FileLimitMatchesServerDefault(st: Input)
    ensures UploadMiddleware.FileSizeLimit(None) == Some(ClientFileLimit)
    ensures FileChosen(st, Some(ClientFileLimit)).uploading.Some?
    ensures FileChosen(st, Some(ClientFileLimit + 1)).uploading == st.uploading
  {
  }

  /** A server configured with a smaller limit is not known to the composer: a file between
      the two limits passes the composer's check. */
  lemma ConfiguredServerLimitIsNotShared(st: Input)
    ensures UploadMiddleware.FileSizeLimit(Some("5242880")) == Some(5242880)
    ensures FileChosen(st, Some(5242881)).uploading.Some?
  {
    assert Text.Decimal(5242880) + "" == "5242880" by {
      assert Text.Decimal(5242880) == "5242880";
    }
    UploadMiddleware.FileSizeLimitReadsDecimal(5242880, "");
  }
}
