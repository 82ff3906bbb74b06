/**
 * The chat list: creating and deleting chats with their effect on the
 * selection and the error banner, the relative date label, and the preview line.
 */
module ChatList {
  import opened Wrappers
  import opened Text
  import opened Entities
  import opened Mutations

  const CreateErrorText: string := "Failed to create new chat. Please try again."

  /** The selected chat id (owned by the app; '' for none) and the list's error banner. */
  datatype ListState = ListState(selected: string, error: Option<string>)

  /**
   * `handleCreateChat`: clear the error; await `createChat`; select the
   * returned id when it is non-empty; on a throw show the fixed error text.
   */
  function HandleCreate(s: ListState, user: Option<User>, outcome: CreateOutcome)
    : (result: (ListState, seq<Request>))
    ensures result.1 == CreateChat(user, outcome).requests
    ensures CreateChat(user, outcome).completion.Thrown? ==>
      result.0 == ListState(s.selected, Some(CreateErrorText))
    ensures CreateChat(user, outcome).completion.Returned? ==> result.0.error == None
    ensures result.0.selected != s.selected ==>
      outcome.CreateReturns? && outcome.row.Some? && result.0.selected == outcome.row.value.id
    ensures (IsAuthenticated(user) && outcome.CreateReturns? && outcome.row.Some?
             && outcome.row.value.id != "") ==> result.0.selected == outcome.row.value.id
  {
    var cleared := s.(error := None);
    var run := CreateChat(user, outcome);
    match run.completion
    case Thrown(_) => (cleared.(error := Some(CreateErrorText)), run.requests)
    case Returned(row) =>
      var next := if row.Some? && row.value.id != "" then cleared.(selected := row.value.id) else cleared;
      (next, run.requests)
  }

  /** Without a user, create issues nothing, shows the error, and keeps the selection. */
  lemma CreateWithoutUser(s: ListState, outcome: CreateOutcome)
    ensures HandleCreate(s, None, outcome) == (ListState(s.selected, Some(CreateErrorText)), [])
  {
  }

  /**
   * `handleDeleteChat`: nothing unless `confirm` granted; then await the delete
   * and clear the selection if the deleted chat was the selected one. A failed
   * delete is only logged.
   */
  function HandleDelete(s: ListState, chatId: string, confirmed: bool, outcome: DeleteOutcome)
    : (result: (ListState, seq<Request>))
    ensures !confirmed ==> result == (s, [])
    ensures confirmed ==> result.1 == [DeleteChat(chatId)]
    ensures result.0.error == s.error
    ensures confirmed && outcome.DeleteSucceeds? ==>
      (result.0.selected == "" <==> (s.selected == chatId || s.selected == ""))
    ensures confirmed && outcome.DeleteSucceeds? && s.selected != chatId ==> result.0 == s
    ensures outcome.DeleteThrows? ==> result.0 == s
  {
    if !confirmed then (s, [])
    else
      var run := DeleteChatRun(chatId, outcome);
      var next := if run.completion.Returned? && s.selected == chatId then s.(selected := "") else s;
      (next, run.requests)
  }

  /**
   * The selection changes only when a confirmed delete of the selected chat
   * returned, and then it becomes empty; a thrown delete leaves it alone.
   */
  lemma SelectionClearedOnlyByReturnedDelete(s: ListState, chatId: string, confirmed: bool,
                                             outcome: DeleteOutcome)
    ensures HandleDelete(s, chatId, confirmed, outcome).0.selected != s.selected <==>
      confirmed && DeleteChatRun(chatId, outcome).completion.Returned?
      && s.selected == chatId && chatId != ""
    ensures HandleDelete(s, chatId, confirmed, outcome).0.selected in {s.selected, ""}
    ensures confirmed ==> HandleDelete(s, chatId, confirmed, outcome).1 == DeleteChatRun(chatId, outcome).requests
  {
  }

  const MillisPerDay: nat := 1000 * 60 * 60 * 24

  /** `Math.ceil(diff / 86400000)` for a whole, non-negative millisecond difference. */
  function DayCount(diff: nat): (days: nat)
    ensures days == 0 <==> diff == 0
    ensures diff > 0 ==> (days - 1) * MillisPerDay < diff <= days * MillisPerDay
  {
    (diff + MillisPerDay - 1) / MillisPerDay
  }

  function Abs(x: int): nat {
    if x < 0 then -x else x
  }

  /** The label `formatDate` gives to a gap of `diff` milliseconds, by the gap's length. */
  function FormatGap(diff: nat, localeDate: string): (text: string)
    ensures 0 < diff <= MillisPerDay ==> text == "Today"
    ensures MillisPerDay < diff <= 2 * MillisPerDay ==> text == "Yesterday"
    ensures diff == 0 ==> text == "-1 days ago"
    ensures 2 * MillisPerDay < diff <= 7 * MillisPerDay ==>
      text == IntToString(DayCount(diff) - 1) + " days ago" && 2 <= DayCount(diff) - 1 <= 6
    ensures diff > 7 * MillisPerDay ==> text == localeDate
  {
    var days := DayCount(diff);
    if days == 1 then "Today"
    else if days == 2 then "Yesterday"
    else if days <= 7 then IntToString(days - 1) + " days ago"
    else localeDate
  }

  /**
   * `formatDate`: the label for a chat last updated at `date`, seen at `now`
   * (both in milliseconds). `localeDate` is the opaque `toLocaleDateString()`.
   */
  function FormatDate(date: int, now: int, localeDate: string): (text: string)
    ensures var diff := Abs(now - date);
      && (0 < diff <= MillisPerDay ==> text == "Today")
      && (MillisPerDay < diff <= 2 * MillisPerDay ==> text == "Yesterday")
      && (diff == 0 ==> text == "-1 days ago")
      && (2 * MillisPerDay < diff <= 7 * MillisPerDay ==>
            text == IntToString(DayCount(diff) - 1) + " days ago" && 2 <= DayCount(diff) - 1 <= 6)
      && (diff > 7 * MillisPerDay ==> text == localeDate)
  {
    FormatGap(Abs(now - date), localeDate)
  }

  /** The label depends only on the size of the gap, not on its direction. */
  lemma FormatDateSymmetric(date: int, now: int, localeDate: string)
    ensures FormatDate(date, now, localeDate) == FormatDate(now, date, localeDate)
  {
    assert Abs(now - date) == Abs(date - now);
  }

  /** "🤖 " and "👤 " in UTF-16: each emoji is a surrogate pair, then a space. */
  const BotPrefix: seq<CodeUnit> := [0xD83E, 0xDD16, 0x20]
  const UserPrefix: seq<CodeUnit> := [0xD83D, 0xDC64, 0x20]
  const Ellipsis: seq<CodeUnit> := [0x2E, 0x2E, 0x2E]

  /** The prefixes are the encodings of the two emoji the list shows. */
  lemma PrefixesEncodeEmoji()
    ensures Utf16("\U{1F916} ") == BotPrefix
    ensures Utf16("\U{1F464} ") == UserPrefix
    ensures Utf16("...") == Ellipsis
  {
  }

  /**
   * The content part of a preview. JavaScript's `length` and `substring` count
   * UTF-16 code units, so the cut is made on the encoded content: up to 50 units
   * it is kept, otherwise its first 50 units (possibly half a surrogate pair) and "...".
   */
  function PreviewBody(units: seq<CodeUnit>): (body: seq<CodeUnit>)
    ensures |body| <= 53
    ensures |units| <= 50 ==> body == units
    ensures |units| > 50 ==> |body| == 53 && body[..50] == units[..50] && body[50..] == Ellipsis
  {
    if |units| > 50 then units[..50] + Ellipsis else units
  }

  /** `getPreviewText`: "New chat" without a message, else the author prefix and the body. */
  function PreviewText(chat: Chat): (text: seq<CodeUnit>)
    ensures |chat.messages| == 0 ==> text == Utf16("New chat")
    ensures |chat.messages| > 0 ==> 3 <= |text| <= 56
    ensures |chat.messages| > 0 ==>
      (chat.messages[0].isBot <==> text[..3] == BotPrefix)
      && (!chat.messages[0].isBot <==> text[..3] == UserPrefix)
    ensures |chat.messages| > 0 && |Utf16(chat.messages[0].content)| <= 50 ==>
      text[3..] == Utf16(chat.messages[0].content)
    ensures |chat.messages| > 0 && |Utf16(chat.messages[0].content)| > 50 ==>
      text[3..] == Utf16(chat.messages[0].content)[..50] + Ellipsis
  {
    if |chat.messages| == 0 then Utf16("New chat")
    else
      var last := chat.messages[0];
      (if last.isBot then BotPrefix else UserPrefix) + PreviewBody(Utf16(last.content))
  }

  /** The preview is decided by the latest message's author flag and content alone. */
  lemma PreviewFollowsLatest(a: Chat, b: Chat)
    requires |a.messages| == 0 <==> |b.messages| == 0
    requires |a.messages| > 0 && |b.messages| > 0 ==>
      a.messages[0].isBot == b.messages[0].isBot && a.messages[0].content == b.messages[0].content
    ensures PreviewText(a) == PreviewText(b)
  {
  }

  /** The cut `getPreviewText` would make if it counted characters, in characters. */
  function CharPreview(chat: Chat): string {
    if |chat.messages| == 0 then "New chat"
    else
      var last := chat.messages[0];
      (if last.isBot then "\U{1F916} " else "\U{1F464} ")
      + (if |last.content| > 50 then last.content[..50] + "..." else last.content)
  }

  /**
   * For a latest message inside the Basic Multilingual Plane, counting code
   * units and counting characters give the same preview.
   */
  lemma PreviewOfBmpContent(chat: Chat)
    requires |chat.messages| > 0 ==> InBmp(chat.messages[0].content)
    ensures PreviewText(chat) == Utf16(CharPreview(chat))
  {
    PrefixesEncodeEmoji();
    if |chat.messages| > 0 {
      var last := chat.messages[0];
      var c := last.content;
      var prefix := if last.isBot then "\U{1F916} " else "\U{1F464} ";
      Utf16OfBmp(c);
      if |c| > 50 {
        Utf16PrefixOfBmp(c, 50);
        Utf16Append(c[..50], "...");
        Utf16Append(prefix, c[..50] + "...");
      } else {
        Utf16Append(prefix, c);
      }
    }
  }

  /**
   * Thirty robot emoji are thirty characters but sixty code units, so the
   * preview cuts them and appends "...".
   */
  lemma AstralContentIsCut(chat: Chat)
    requires |chat.messages| > 0
    requires chat.messages[0].content == seq(30, _ => '\U{1F916}')
    ensures |chat.messages[0].content| == 30
    ensures |PreviewText(chat)| == 56 && PreviewText(chat)[53..] == Ellipsis
  {
    Utf16OfAstral(chat.messages[0].content);
  }
}
