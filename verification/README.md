# Chat client front end: a Dafny model of its decision logic

This is a model of the browser chat client built on Nhost, Apollo and Hasura. Sign-in, storage, live delivery and the bot reply all run in managed services. What is left in the client is a handful of pure decisions and two small state machines, and those are what the model covers:

- **Reconciliation** (`Sync`). `useChats` and `useChatMessages` show `feed || snapshot || []`. Each source is an `Option<seq<T>>`. A feed that has delivered anything wins, even an empty list, because an empty JavaScript array is truthy. A history of deliveries is replayed to show that the list on screen is always the latest feed emission once there has been one, and the two sources are never merged.
- **Mutations** (`Mutations`). `createChat`, `deleteChat` and `sendMessage` are modelled as runs. Each run records the backend requests in order, every value written to the send hook's `loading` flag, and whether the call returned or threw. The outcome of each awaited call is a parameter.
- **Composer** (`ChatWindow`). `handleSendMessage` works over a `Composer(input, typing, sending)` record. The module also covers the submit button's `disabled` expression, the Enter-key rule and the `Chat #…` header label.
- **Chat list** (`ChatList`). Create and delete change the selection and the error banner. `formatDate` works on whole millisecond timestamps, and `getPreviewText` builds the preview line.
- **Message bubble text** (`CodeBlocks`, `NodeText`, `CodeRenderer`):
  - `extractCodeBlocks` and `cleanContent` are modelled as left-to-right scanners equivalent to their global regexes.
  - The recursive text flatten `extractTextFromChildren` is modelled over a node tree.
  - The `code` renderer's `codeBlockIndex` pairs the Nth block-code element with the Nth extracted body. It is modelled as a loop with a counter, next to a declarative table it is proved equal to.
- **Theme** (`Theme`). `useTheme` covers the initial value, the toggle, and the effect that writes local storage and sets the `dark` class.

Strings are `seq<char>`, sequences of Unicode scalar values. JavaScript strings are sequences of UTF-16 code units, and a character outside the Basic Multilingual Plane (an emoji, say) is two of them. Where the code counts length, in the 50-unit preview cut, the model encodes the text to UTF-16 (`Text.Utf16`) and cuts the code units. The scans in `trim` and in the message bubble only ever stop at characters inside the Basic Multilingual Plane (backticks, word characters, whitespace), so reading characters or code units gives the same result there. `slice(-8)` is the exception, named under "## Left out". `trim` removes exactly JavaScript's WhiteSpace and LineTerminator characters. `\w` is ASCII letters, digits and `_`.

Behaviour of the code that is easy to misread:

- `sendMessage` rethrows an error from the reply action as well as one from the message insert (hooks/index.ts:121-136). The composer therefore restores the text after either failure (`ChatWindow.Submit`).
- The stored theme is cast to `'light' | 'dark'` without a check (hooks/index.ts:146-149). Any non-empty stored string becomes the theme, and two toggles give back only `"light"` and `"dark"` (`Theme.ToggleTwiceRestores`).
- The hooks never sort. They show whichever list won the reconciliation, in the order it was delivered. Message order comes only from the `order_by: { created_at: asc }` of the messages query (graphql/queries.ts:25) and of the messages subscription (graphql/queries.ts:97), whose list is the one shown once it has emitted. The queries are not part of this model.
- `isInline = !match && !className` never depends on the regex. An element is inline exactly when its class is absent or empty (`CodeRenderer.InlineIffNoClass`).

## Model

| member | source | states |
|---|---|---|
| `Sync.Reconcile` | chatbot-app/src/hooks/index.ts:21 | a delivered feed value is shown as is, even when empty; otherwise the snapshot, otherwise []; the result is always one whole source, never a merge |
| `Sync.ReplayKeepsLatest` | chatbot-app/src/hooks/index.ts:17-18 | replaying any history of snapshot and feed deliveries keeps exactly the latest delivery of each source |
| `Sync.ShownFollowsLatestFeed` | chatbot-app/src/hooks/index.ts:17-21 | after any history, the list shown is the latest feed emission if the feed ever emitted, whatever snapshots came before or after; otherwise the latest snapshot or [] |
| `Sync.ChatsShown` | chatbot-app/src/hooks/index.ts:16-25 | the chat list is the feed's chats once delivered, else the query's, else [] |
| `Sync.MessagesShown` | chatbot-app/src/hooks/index.ts:28-44 | with an empty chat id both sources are skipped and the list is []; otherwise the feed's messages win over the query's |
| `Mutations.CreateChat` | chatbot-app/src/hooks/index.ts:52-69 | without an authenticated user it throws before issuing any request; otherwise it issues exactly one insert and returns the created row or rethrows the insert's error |
| `Mutations.DeleteChatRun` | chatbot-app/src/hooks/index.ts:79-88 | issues exactly one delete for the given id, with no authentication check; it throws exactly when the delete throws, with the same error |
| `Mutations.SendMessage` | chatbot-app/src/hooks/index.ts:99-140 | without a user it throws before any request and never touches `loading`; otherwise `loading` is set true then false; the first request is the user message with the given chat id and content and `is_bot = false`; if the insert throws, nothing else is requested and its error is rethrown; otherwise the reply action follows with the same chat id, the same content and the caller's id; an action error is rethrown and a returned payload (even `success = false`) is returned |
| `Mutations.ActionFollowsInsert` | chatbot-app/src/hooks/index.ts:108-129 | any reply-action request comes directly after the insert of the same message |
| `Mutations.UnsuccessfulReplyIsReturned` | chatbot-app/src/hooks/index.ts:121-133 | an action result with `success = false` is handed back, not thrown |
| `ChatWindow.Submit` | chatbot-app/src/components/ChatWindow.tsx:25-42 | whitespace-only input or an in-flight send is ignored, with no state change and no request; otherwise `sendMessage` gets the trimmed text; while pending, the input is empty, typing is on, and the sending flag is raised exactly when a user is signed in; once settled, typing and sending are off, and the input stays empty after a return but holds the trimmed text after a throw |
| `ChatWindow.DisabledIffIgnored` | chatbot-app/src/components/ChatWindow.tsx:133 | the send button is disabled exactly when the handler would ignore the submission |
| `ChatWindow.FailureRestoresTrimmed` | chatbot-app/src/components/ChatWindow.tsx:29-38 | after a failed insert or a failed action, the input holds the trimmed text, not the raw text |
| `ChatWindow.KeyPress` | chatbot-app/src/components/ChatWindow.tsx:44-49 | Enter without Shift submits exactly as the form would; every other key, and Shift+Enter, does nothing |
| `ChatWindow.HeaderLabel` | chatbot-app/src/components/ChatWindow.tsx:64 | "Chat #" followed by the last eight characters of the id, or the whole id when it is shorter (also used in the list, ChatList.tsx line 133) |
| `Text.SliceLast` | chatbot-app/src/components/ChatWindow.tsx:64 | `slice(-n)` yields a suffix of length min(length, n) |
| `ChatList.HandleCreate` | chatbot-app/src/components/ChatList.tsx:16-27 | issues exactly the hook's requests; on a throw the fixed error text is shown and the selection kept; on a return the error is cleared; the selection changes only to a returned chat's id, and it does change to any non-empty returned id |
| `ChatList.CreateWithoutUser` | chatbot-app/src/components/ChatList.tsx:16-27 | without a user, create issues nothing, shows the error text and keeps the selection |
| `Mutations.CreateChatGuard` | chatbot-app/src/hooks/index.ts:52-69 | nothing is requested exactly when the user is not authenticated, which is exactly when the call throws "not authenticated"; a returned row always comes from the single insert of an authenticated call |
| `ChatList.HandleDelete` | chatbot-app/src/components/ChatList.tsx:29-41 | without confirmation nothing happens and nothing is requested; with it, exactly one delete is requested; after a successful delete the selection is '' exactly when the deleted chat was selected or nothing was; a non-selected delete or a failed delete changes nothing; the error banner is untouched |
| `ChatList.SelectionClearedOnlyByReturnedDelete` | chatbot-app/src/components/ChatList.tsx:29-41 | the selection changes exactly when a confirmed delete of the selected, non-empty id returned, and then it becomes ''; a confirmed delete issues exactly the hook's delete request |
| `ChatList.DayCount` | chatbot-app/src/components/ChatList.tsx:46-47 | the day count is the ceiling of the millisecond gap over 86 400 000: 0 only for a zero gap, else the n with (n-1)·day < gap ≤ n·day |
| `ChatList.FormatGap` | chatbot-app/src/components/ChatList.tsx:47-57 | the label for a gap of a given length: "Today" up to one day (not zero), "Yesterday" up to two, "-1 days ago" for zero, "(n-1) days ago" up to seven days, the locale date beyond |
| `ChatList.FormatDate` | chatbot-app/src/components/ChatList.tsx:43-58 | a gap of up to one day (not zero) reads "Today", up to two days "Yesterday", a zero gap "-1 days ago", up to seven days "(n-1) days ago" with n-1 between 2 and 6, and anything longer the locale date |
| `ChatList.FormatDateSymmetric` | chatbot-app/src/components/ChatList.tsx:46 | the label depends only on the size of the gap, not its direction |
| `Text.NatToString` | chatbot-app/src/components/ChatList.tsx:54 | the decimal rendering used in "n days ago" is non-empty and all digits; it is one digit exactly for n < 10 and never starts with '0' otherwise |
| `Text.NatToStringRoundTrip` | chatbot-app/src/components/ChatList.tsx:54 | reading the decimal rendering back gives the number |
| `Text.NatToStringUnique` | chatbot-app/src/components/ChatList.tsx:54 | the rendering is the only digit string without a leading zero that reads back as n, so the template literal's output is pinned exactly |
| `Text.Utf16Char` | chatbot-app/src/components/ChatList.tsx:65-67 | a character inside the Basic Multilingual Plane is one code unit equal to its code point; any other is a high surrogate then a low surrogate that decode back to the code point |
| `ChatList.PrefixesEncodeEmoji` | chatbot-app/src/components/ChatList.tsx:64 | the author prefixes are the UTF-16 encodings of "🤖 " and "👤 ", three code units each, and the ellipsis is the encoding of "..." |
| `ChatList.PreviewBody` | chatbot-app/src/components/ChatList.tsx:65-67 | content of at most 50 UTF-16 code units is kept; longer content becomes its first 50 units followed by "...", 53 units in all; the cut may leave half a surrogate pair |
| `ChatList.PreviewText` | chatbot-app/src/components/ChatList.tsx:60-70 | "New chat" without a first message. Otherwise the first three units are the bot prefix exactly when `is_bot` holds and the user prefix exactly when it does not. The rest is the content's code units when there are at most 50, else their first 50 and "...". The preview is at most 56 units |
| `ChatList.PreviewFollowsLatest` | chatbot-app/src/components/ChatList.tsx:60-70 | two chats whose latest messages agree in author flag and content have the same preview |
| `ChatList.PreviewOfBmpContent` | chatbot-app/src/components/ChatList.tsx:65-67 | for content inside the Basic Multilingual Plane, cutting code units gives the encoding of the same cut made on characters |
| `ChatList.AstralContentIsCut` | chatbot-app/src/components/ChatList.tsx:65-67 | thirty robot emoji are thirty characters but sixty code units, so the preview cuts them and ends in "..." |
| `Theme.InitialTheme` | chatbot-app/src/hooks/index.ts:146-149 | the stored value when non-empty, otherwise "dark"; never empty |
| `Theme.Toggle` | chatbot-app/src/hooks/index.ts:160-162 | "light" becomes "dark" and anything else becomes "light"; the theme always changes |
| `Theme.ToggleTwiceRestores` | chatbot-app/src/hooks/index.ts:160-162 | two toggles restore the theme exactly when it is "light" or "dark" |
| `Theme.ApplyTheme` | chatbot-app/src/hooks/index.ts:151-158 | the effect writes the theme under "theme" and leaves other keys alone; the dark class is present exactly when the theme is "dark" |
| `Theme.PreferenceSurvivesReload` | chatbot-app/src/hooks/index.ts:145-165 | after mounting and any number of toggles, storage holds the theme, the class tracks it, and a reload starts from it |
| `Text.Trim` | chatbot-app/src/components/MessageBubble.tsx:80 | `trim` yields a result with no space at either end, obtained by removing the leading space run, with only spaces after it |
| `Text.TrimStrips` | chatbot-app/src/components/MessageBubble.tsx:80 | trimming space runs around a trimmed core yields exactly that core |
| `Text.TrimKeepsTrimmed` | chatbot-app/src/components/MessageBubble.tsx:80 | trimming an already trimmed string changes nothing |
| `Text.TrimIgnoresTrailingNewline` | chatbot-app/src/components/MessageBubble.tsx:70 | an added trailing newline never changes the trimmed text |
| `CodeBlocks.WordEnd` | chatbot-app/src/components/MessageBubble.tsx:77 | the greedy `[\w]*` takes the longest run of word characters: all word characters up to the first non-word character or the end |
| `CodeBlocks.WordEndAt` | chatbot-app/src/components/MessageBubble.tsx:77 | a word run followed by a non-word character ends exactly there |
| `CodeBlocks.FenceFrom` | chatbot-app/src/components/MessageBubble.tsx:77 | the lazy body stops at the first three backticks, and there is none before; when no fence follows, none exists at or after the start |
| `CodeBlocks.FenceFromAt` | chatbot-app/src/components/MessageBubble.tsx:77 | with no backtick before a fence, the search stops exactly at that fence |
| `CodeBlocks.BlockMatch` | chatbot-app/src/components/MessageBubble.tsx:77 | a match starts with three backticks, its body starts after the tag run and one optional newline, and a fence follows the body |
| `CodeBlocks.BlockMatchIsShortest` | chatbot-app/src/components/MessageBubble.tsx:77 | the captured body contains no fence; at an opening fence with no match, no fence follows the body start |
| `CodeBlocks.MatchAt` | chatbot-app/src/components/MessageBubble.tsx:78-81 | after a match, `exec` resumes right after the closing fence |
| `CodeBlocks.ExtractBound` | chatbot-app/src/components/MessageBubble.tsx:75-83 | each match consumes at least six characters, so there are at most a sixth as many bodies as characters |
| `CodeBlocks.TrimEach` | chatbot-app/src/components/MessageBubble.tsx:80 | each pushed body is the trimmed capture, in match order |
| `CodeBlocks.ExtractCodeBlocks` | chatbot-app/src/components/MessageBubble.tsx:75-83 | every extracted body has no leading or trailing whitespace |
| `CodeBlocks.NoFenceNoBlocks` | chatbot-app/src/components/MessageBubble.tsx:75-83 | content without three consecutive backticks yields [] |
| `CodeBlocks.ExtractSkipsProse` | chatbot-app/src/components/MessageBubble.tsx:77-79 | prose without backticks in front of the content changes nothing the scan finds |
| `CodeBlocks.ExtractBlock` | chatbot-app/src/components/MessageBubble.tsx:77-81 | a fenced block with a word tag and a newline yields its trimmed body, then the scan resumes right after its closing fence |
| `CodeBlocks.ExtractFindsEveryBlock` | chatbot-app/src/components/MessageBubble.tsx:75-83 | for content made of backtick-free prose and fenced blocks whose bodies hold no three backticks in a row and do not end in a backtick, the result is one trimmed body per block, in document order, and nothing else |
| `CodeBlocks.OneBlock` | chatbot-app/src/components/MessageBubble.tsx:77-82 | a single fenced block with a trimmed body among prose yields exactly that body |
| `CodeBlocks.TemplateLiteralBody` | chatbot-app/src/components/MessageBubble.tsx:77-82 | a `js` block whose body is the template-literal call "f(`a`)" is extracted whole; single backticks do not end a body |
| `CodeBlocks.TwoBlocks` | chatbot-app/src/components/MessageBubble.tsx:77-82 | two fenced blocks with bodies "a" and "b", with any backtick-free prose around them, yield ["a", "b"] |
| `CodeBlocks.TagRunSwallowsInlineBody` | chatbot-app/src/components/MessageBubble.tsx:77 | the tag run is consumed first, so three backticks, a word and three backticks (say "abc") yield one empty body [""] |
| `CodeBlocks.PlainEnd` | chatbot-app/src/components/MessageBubble.tsx:69 | the run of non-backticks in the first rewrite is the longest backtick-free run, which is followed by a backtick unless it reaches the end |
| `CodeBlocks.InlineCodeMatch` | chatbot-app/src/components/MessageBubble.tsx:69 | a match is a backtick, a non-empty backtick-free run, and a backtick |
| `CodeBlocks.RewriteInlineCodeIsIdentity` | chatbot-app/src/components/MessageBubble.tsx:69 | the first rewrite of `cleanContent` returns its input unchanged |
| `CodeBlocks.FenceMatch` | chatbot-app/src/components/MessageBubble.tsx:70 | a match of the second rewrite starts with three backticks and ends at a closing fence after them |
| `CodeBlocks.FenceMatchNeedsNewline` | chatbot-app/src/components/MessageBubble.tsx:70 | the tag run of a match is followed by a mandatory newline, before the body |
| `CodeBlocks.RewriteInlineCodeAtMatch` | chatbot-app/src/components/MessageBubble.tsx:69 | at a match, the replacement reproduces the matched text and the scan resumes after it |
| `CodeBlocks.RewriteFencesAtMatch` | chatbot-app/src/components/MessageBubble.tsx:70 | at a match, everything up to the closing fence is kept, a newline goes in, and the scan resumes after the fence |
| `CodeBlocks.RewriteFencesSkipsProse` | chatbot-app/src/components/MessageBubble.tsx:70 | the second rewrite copies backtick-free prose unchanged |
| `CodeBlocks.RewriteFencesBlock` | chatbot-app/src/components/MessageBubble.tsx:70 | a fenced block whose tag is followed by a newline gains one newline before its closing fence |
| `CodeBlocks.RewriteFencesAddsNewlines` | chatbot-app/src/components/MessageBubble.tsx:70 | on prose-and-block content (bodies as for `ExtractFindsEveryBlock`), the second rewrite adds one newline before each closing fence and changes nothing else |
| `CodeBlocks.AddClosingNewlines` | chatbot-app/src/components/MessageBubble.tsx:70 | each block body gains one trailing newline and prose is kept |
| `CodeBlocks.CleanContent` | chatbot-app/src/components/MessageBubble.tsx:66-72 | the cleaned content has no whitespace at either end |
| `CodeBlocks.CleanContentOfDocument` | chatbot-app/src/components/MessageBubble.tsx:66-72 | on prose-and-block content (bodies as for `ExtractFindsEveryBlock`), `cleanContent` is the content with one newline before each closing fence, trimmed |
| `CodeBlocks.CleaningKeepsBodies` | chatbot-app/src/components/MessageBubble.tsx:70-85 | for any segments, adding a newline at the end of every block body changes no trimmed body, so the renderer's cleaned text and the extractor's raw text agree on the bodies |
| `NodeText.TextIsConcatOfLeaves` | chatbot-app/src/components/MessageBubble.tsx:45-56 | the flattened text of a children value is the concatenation of its string leaves, left to right: strings are themselves, arrays concatenate, props objects contribute their children, and anything else is empty |
| `NodeText.TextOfManyAppend` | chatbot-app/src/components/MessageBubble.tsx:49-51 | the text of a concatenated children array is the concatenation of the two parts' texts |
| `NodeText.ConcatAppend` | chatbot-app/src/components/MessageBubble.tsx:50 | `join('')` distributes over concatenation |
| `CodeRenderer.InlineIffNoClass` | chatbot-app/src/components/MessageBubble.tsx:114-115 | a code element is inline exactly when its class is absent or empty; the `language-` test never decides |
| `CodeRenderer.BlockAt` | chatbot-app/src/components/MessageBubble.tsx:124 | the `codeBlocks[n] or ''` fallback is body n when it exists and "" otherwise |
| `CodeRenderer.RenderCodeElements` | chatbot-app/src/components/MessageBubble.tsx:86-125 | with the mutable counter, an element is shown inline exactly when it is not a block, and the k-th element, if a block, copies the body whose number is the count of block elements before it (or "" past the end) |
| `CodeRenderer.RenderMatchesTable` | chatbot-app/src/components/MessageBubble.tsx:124-125 | what the counter loop produces equals the declarative pairing table |
| `CodeRenderer.PairViews` | chatbot-app/src/components/MessageBubble.tsx:124-125 | one view per code element |
| `CodeRenderer.CountBlocks` | chatbot-app/src/components/MessageBubble.tsx:125 | the counter never exceeds the number of elements |
| `CodeRenderer.OrdinalsIncrease` | chatbot-app/src/components/MessageBubble.tsx:124-125 | the counter advances only at block elements, so distinct block elements get strictly increasing body numbers |
| `CodeRenderer.AsWrittenIsBlock` | chatbot-app/src/components/MessageBubble.tsx:114-117 | as written, an element counts as a block exactly when its class is non-empty |
| `CodeRenderer.CorrectedIsBlock` | chatbot-app/src/components/MessageBubble.tsx:114-117 | corrected, an element counts as a block exactly when it is the code of a `pre` |
| `CodeRenderer.UntaggedThenTaggedBodies` | chatbot-app/src/components/MessageBubble.tsx:77-82 | an untagged block followed by a `js` block, both with backtick-free trimmed bodies, extracts as the two bodies in order |
| `CodeRenderer.UntaggedFenceShiftsPairing` | chatbot-app/src/components/MessageBubble.tsx:114-125 | as written, that message renders the first block as inline and gives the `js` block's copy button the first block's body instead of its own (for bodies "a" and "b": "a" instead of "b") |
| `CodeRenderer.CorrectedFixesExample` | chatbot-app/src/components/MessageBubble.tsx:114-125 | corrected, the same message gives each copy button its own block's body |
| `CodeRenderer.CorrectedPairingCopiesOwnBlock` | chatbot-app/src/components/MessageBubble.tsx:85-125 | corrected, when the renderer emits one `pre` code element per fenced block in order, every copy button copies its own block's trimmed body (bodies as for `ExtractFindsEveryBlock`) |

## Findings

| source | as written | input that shows it | evidently intended | confidence | as-written member | corrected member |
|---|---|---|---|---|---|---|
| chatbot-app/src/components/MessageBubble.tsx:114-125 | a code element with no class counts as inline, so the block counter skips it; but a fenced block without a language tag also reaches the renderer as class-less code inside a `pre` | an untagged fenced block "a", a blank line, then a `js` fenced block "b": extraction gives ["a", "b"], the first block is drawn as inline code with no copy button, and the `js` block's button copies "a" | every fenced block is drawn as a block with its own body: classify by "inside a `pre`", not by class | medium; not executed; it rests on the markdown renderer giving untagged fences no class | `CodeRenderer.UntaggedFenceShiftsPairing` | `CodeRenderer.CorrectedPairingCopiesOwnBlock` |

## Left out

- The GraphQL documents, the Apollo and graphql-ws transport, the auth header, and the Nhost session provider are out. Their results enter the model only as delivered values and call outcomes.
- The `loading` and `error` fields that `useChats`/`useChatMessages` return come straight from Apollo's query. This code does not compute them.
- Cache behaviour when the chat id changes is out. Whether stale rows from the previous chat show up is decided by Apollo's cache keyed by the query variables.
- The list refetch after create and delete (`refetchQueries`) is out. So are the create and delete buttons disabled by the mutations' `loading`. Both are Apollo behaviour.
- Asynchrony and re-render timing are out. Each awaited call is one step with a supplied outcome. Edits typed into the box while a send is pending are not modelled; the restore after a failure would overwrite them.
- `console` logging, `e.preventDefault()`, `e.stopPropagation()`, scroll-to-bottom, the clipboard write and the 2-second "copied" state are out. They are I/O or presentation.
- The loading spinner, the empty-list placeholders and the typing bubble's placement are presentation.
- `ChatList.FormatDate`: parsing the `updated_at` string into a `Date` is left out, and so is reading the clock. Both timestamps arrive as whole milliseconds, and `toLocaleDateString()` is an opaque string parameter. The division is exact integer ceiling, so floating-point rounding of the quotient and invalid dates (NaN) are not modelled.
- `ChatWindow.HeaderLabel`: `slice(-8)` is taken over characters, not code units. The two agree for ids inside the Basic Multilingual Plane, such as the UUIDs the backend issues for chats.
- `Message.created_at` display (`toLocaleTimeString`) is out because it depends on the locale.
- The markdown parse, GFM and syntax highlighting are foreign libraries. The code elements they produce are an input to `CodeRenderer`.
- `CodeBlocks.ExtractFindsEveryBlock`, `CodeBlocks.RewriteFencesAddsNewlines`, `CodeBlocks.CleanContentOfDocument`, `CodeRenderer.CorrectedPairingCopiesOwnBlock`: all four are stated for content made of backtick-free prose and fenced blocks. A block's tag is followed by a newline, and its body holds no three backticks in a row and does not end in a backtick; single backticks inside a body are allowed. Inline code spans in prose, nested or unclosed fences and other content are covered only by the scanners' own contracts.
- `CodeRenderer` models one production render, in which each `code` element is rendered once per bubble render. The app is wrapped in `React.StrictMode` (main.tsx:11), and in development React calls the `code` component twice, so `codeBlockIndex++` advances twice per block there.
- `NodeText` models children values as strings, arrays, objects with props, and everything else. Numbers and other non-string leaves are all "everything else" and give "".
- The theme initialisation in `App.tsx`, the header and the sign-in form are presentation around library calls.
