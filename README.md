# Verified model of the two-party chat client

This project models the client side of a two-person chat room in Dafny. It covers:

- the message store with its pager;
- the page that applies live events to the store and keeps the presence and typing maps;
- the formatters for durations, relative times and "last seen";
- the base64url key decoder;
- the decision logic of the message bubble and the composer.

Every operation has a contract, and the properties the code promises are proved as lemmas.

Modules, one per source file, plus shared helpers:

| module | models |
|---|---|
| `Wrappers` | `Option`, standing for `null`/`undefined` |
| `JsText` | template-literal rendering of integers and its reader; `trim`; `substring`; `padStart`; ASCII case folding |
| `Messages` | the message record, the `{ ...msg, ...updates }` merge, and the events the client emits |
| `ChatContext` | `ChatProvider`: the list transforms as functions, plus the class that reassigns them |
| `ChatPage` | the event handlers, the typing-decay timers and `getTypingMessage` |
| `TimeFormat` | `formatDuration`, `formatRelativeTime` and `getEditableTime` |
| `Base64` | `window.atob`, as the forgiving-base64 decode of the WHATWG Infra standard, and the encoder that is its inverse |
| `Notification` | `formatLastSeen` and `urlBase64ToUint8Array` |
| `MessageBubble` | `renderContent` as a classifier, the reply quote, the ticks, the read-receipt guard and the bubble's actions |
| `MessageInput` | the typing debounce, the send guard, emoji insertion and `formatRecordingTime` |

## How JavaScript is modelled

- A missing `content`, `senderName` or `mediaUrl` is `""`. Where the code only tests truthiness the two agree. The bubble's editor is the exception; see `MessageBubble.EditEmission` under "## Left out".
- Time is an explicit integer clock of milliseconds.
- A pending `setTimeout` callback is an entry in a map or a sequence of due times:
  - `FireDecay` and `FireTypingTimer` run the earliest pending callback;
  - `AdvanceClock` lets time pass, but never beyond a pending callback.
- Events emitted on the socket are `Outbound` values, appended to an `outbox`.
- A click is a method call. Its `requires` is the condition under which the JSX renders the control: the bubble's options button needs `isSent`, a reaction or emoji pick needs its picker open, the Edit item an open menu on an editable message, and the editor's controls the editor view.
- Answers from outside the program are parameters:
  - `confirm()` is the `confirmed` parameter;
  - a fetch is the `FetchOutcome` handed to `SettleFetch`.

## Behaviour the code has that a reader might not expect

The model follows the code in each of these cases.

- **Prepend does not de-duplicate.** An older page is put in front of the list with no id filtering (src/context/ChatContext.jsx:56). `PrependMayDuplicate` exhibits a duplicate. `PrependDisjointKeepsUnique` gives the condition under which ids stay unique.
- **Ending the history.** A rejected fetch ends paging, exactly as an empty page does.
- **`clearMessages`.**
  - It does not reset the `loading` state.
  - It does not cancel a fetch in flight. A late page is still prepended to the cleared list.
- **The typing handler's `clearTimeout` never fires.**
  - It reads the `typingTimeout` map captured when the setup effect ran (src/pages/ChatPage.jsx:123). The effect's dependencies (line 222) do not include that map, so the handler always sees the empty map.
  - As a result, a renewed typing event does not postpone the earlier decay. `ChatPage.RenewedTypingStillDecaysEarly` shows the flag dropping 16 s after the first event, only 6 s after the second.
  - `typingTimeout` entries are never removed. So once the other user has typed at all, the banner shows the "writing Mahabharat/Ramayan" text whenever they type. The comment next to it speaks of 20 seconds.
- **The notification preview counts UTF-16 code units.** `substring(0, 50)` cuts after 50 code units, and an emoji beyond U+FFFF takes two. So a preview holds fewer than 50 such characters, and the cut can leave half of a surrogate pair (`ChatPage.PreviewCanSplitSurrogatePair`).
- **A cancelled edit is not discarded.** Cancel only closes the editor. Reopening it shows the abandoned draft, not the message's content (`MessageBubble.AbandonedDraftReturns`).
- **The composer's stop timer survives a send.**
  - Sending emits "stopped" but leaves the stop-typing timer running.
  - When that timer fires, a second "stopped" follows (`MessageInput.TypeThenSend`).

## Model

| member | source | states |
|---|---|---|
| ChatContext.AddAll | src/context/ChatContext.jsx:25-36 | a run of `addMessage` calls only appends: the old list stays a prefix, and each call adds at most one entry |
| ChatContext.Append | src/context/ChatContext.jsx:25-36 | a present id leaves the list as it was (same length, old list a prefix); a new id grows it by exactly one, with the message at the tail and the earlier entries untouched; unique ids stay unique |
| ChatContext.AddAllKeepsUnique | src/context/ChatContext.jsx:25-36 | any run of `addMessage` calls keeps ids unique and never changes the entries already present |
| ChatContext.AddAllFromEmptyIsFirstSeen | src/context/ChatContext.jsx:25-36 | from the empty list, any sequence of `addMessage` calls yields `FirstSeen` of the input, the reference "first message of each id, in first-seen order" |
| ChatContext.AddAllIsFirstSeenAfter | src/context/ChatContext.jsx:25-36 | from any list, a run of `addMessage` appends the first-seen messages of the ids not yet present |
| ChatContext.FirstSeenOnePerId | src/context/ChatContext.jsx:25-36 | the reference list has unique ids, exactly the ids of the input, and only messages of the input |
| ChatContext.RemoveById | src/context/ChatContext.jsx:80-82 | `deleteMessage` leaves no entry with the id and keeps every entry with another id |
| ChatContext.WithoutIds | src/context/ChatContext.jsx:80-82 | filtering never lengthens the list |
| ChatContext.WithoutIdsMembers | src/context/ChatContext.jsx:80-82 | the filter keeps exactly the entries whose id is not removed |
| ChatContext.WithoutIdsConcat | src/context/ChatContext.jsx:80-82 | the filter works entry by entry: filtering a concatenation concatenates the filtered parts, so order is kept |
| ChatContext.WithoutIdsTwice | src/context/ChatContext.jsx:80-82 | removing one id set and then another is removing their union |
| ChatContext.WithoutNoIds | src/context/ChatContext.jsx:80-82 | removing no ids changes nothing |
| ChatContext.WithoutIdsKeepsUnique | src/context/ChatContext.jsx:80-82 | deleting keeps ids unique |
| ChatContext.RemovePresentShortensByOne | src/context/ChatContext.jsx:80-82 | with unique ids, deleting a present id removes exactly one entry |
| ChatContext.RemoveAbsentIsIdentity | src/context/ChatContext.jsx:80-82 | deleting an absent id changes nothing |
| ChatContext.PatchById | src/context/ChatContext.jsx:71-77 | `updateMessage` keeps the length and the order; every entry with the id becomes its merge with the updates, and every other entry is unchanged |
| ChatContext.PatchKeepsIds | src/context/ChatContext.jsx:71-77 | a patch never changes the id at any position, so unique ids stay unique |
| ChatContext.PatchAbsentIsIdentity | src/context/ChatContext.jsx:71-77 | a patch for an absent id is a no-op |
| ChatContext.PatchAfterRemove | src/context/ChatContext.jsx:71-82 | after a delete-for-me, later patches of that id are no-ops |
| ChatContext.FullPageKeepsPaging | src/context/ChatContext.jsx:49-60 | a resolved page of at least 25 messages goes in front and leaves `hasMoreMessages` as it was; null, empty, short and rejected outcomes end paging whatever it was before |
| ChatContext.AfterFetch | src/context/ChatContext.jsx:49-57 | whatever the outcome, the list held before the fetch is the tail of the list after it |
| ChatContext.AfterFetchPrepends | src/context/ChatContext.jsx:49-57 | a resolved page goes in front of all existing entries, in its own order; every other outcome leaves the list |
| ChatContext.PrependMayDuplicate | src/context/ChatContext.jsx:56 | a page that re-delivers a present message leaves two entries with its id |
| ChatContext.PrependDisjointKeepsUnique | src/context/ChatContext.jsx:56 | ids stay unique when the page is duplicate-free and disjoint from the list |
| ChatContext.ChatProvider.constructor | src/context/ChatContext.jsx:8-17 | the store starts empty, with `hasMoreMessages` true, both loading flags false, empty presence maps and no reply draft |
| ChatContext.ChatProvider.AddMessage | src/context/ChatContext.jsx:25-36 | the new list is `Append` of the old one |
| ChatContext.ChatProvider.LoadMoreMessages | src/context/ChatContext.jsx:39-47 | while a fetch is in flight or the history is exhausted, no request is made and no flag changes; otherwise one request is made at offset = current length with limit 25, and both loading flags are raised |
| ChatContext.ChatProvider.SettleFetch | src/context/ChatContext.jsx:48-65 | the list becomes `AfterFetch`; `hasMoreMessages` drops on an outcome that `EndsHistory`; both loading flags are false afterwards |
| ChatContext.ChatProvider.UpdateMessage | src/context/ChatContext.jsx:71-77 | the new list is `PatchById` of the old one |
| ChatContext.ChatProvider.DeleteMessage | src/context/ChatContext.jsx:80-82 | the new list is `RemoveById` of the old one |
| ChatContext.ChatProvider.ClearMessages | src/context/ChatContext.jsx:85-89 | the list is empty, `hasMoreMessages` is true and `loadingRef` is false; nothing else changes |
| ChatContext.ThreePageHistory | src/context/ChatContext.jsx:39-68 | pages of 25, 25 and 10 are requested at offsets 0, 25 and 50; they are stacked oldest page first; a fourth call makes no request |
| ChatPage.NotificationFor | src/pages/ChatPage.jsx:84-88 | the notice names the sender, or 'User'; its preview is the first min(length, 50) UTF-16 code units of the content, or 'New message' for empty content |
| ChatPage.PreviewOfBmpContent | src/pages/ChatPage.jsx:86 | for content with no character beyond U+FFFF the preview is the first min(length, 50) characters |
| ChatPage.PreviewCanSplitSurrogatePair | src/pages/ChatPage.jsx:86 | when the 50th code unit is the first half of an emoji, the preview ends with that lone high surrogate |
| ChatPage.OtherUser | src/pages/ChatPage.jsx:225 | the other member of the room is never the current user, and is one of the two known ids |
| ChatPage.EditChangesOnlyEditFields | src/pages/ChatPage.jsx:165-172 | an edit event changes exactly `content`, `isEdited` and `editedAt` |
| ChatPage.ReactionAndPollTouchOneField | src/pages/ChatPage.jsx:149-162 | reaction and poll events change only `reactions` or only `poll` |
| ChatPage.TombstoneKeepsRow | src/pages/ChatPage.jsx:177-181 | delete-for-everyone keeps the row at its position, flagged, with the placeholder text |
| ChatPage.MarkReadStep | src/pages/ChatPage.jsx:190-194 | one more status patch in the `forEach` extends the read batch by that id |
| ChatPage.MarkReadOrderFree | src/pages/ChatPage.jsx:188-195 | the effect of a read batch depends only on which ids it lists, not on their order or repetition |
| ChatPage.TypingMessageShownIffTyping | src/pages/ChatPage.jsx:224-244 | the banner is shown exactly when the other user, who is never the current user, is typing |
| ChatPage.LongTypingTextSticks | src/pages/ChatPage.jsx:238-243 | once a decay handle was recorded for the other user, the plain "is typing" text never returns |
| ChatPage.ChatPage.constructor | src/pages/ChatPage.jsx:40 | the page starts with no typing handles, no pending decays and no notifications |
| ChatPage.ChatPage.OnMessageReceived | src/pages/ChatPage.jsx:80-89 | every received message goes through `addMessage`; a notification is raised only for another user's message |
| ChatPage.ChatPage.OnUserOnline | src/pages/ChatPage.jsx:94-100 | only `onlineStatus[userId]` changes, to true |
| ChatPage.ChatPage.OnUserOffline | src/pages/ChatPage.jsx:102-115 | `onlineStatus[userId]` becomes false; `lastSeenStatus[userId]` is updated only when the event carries a truthy `lastSeen` |
| ChatPage.ChatPage.OnTypingUpdate | src/pages/ChatPage.jsx:119-145 | `typingStatus[userId]` becomes `isTyping`; only when typing starts is a decay scheduled 16000 ms ahead and its fresh handle recorded; no earlier decay is cancelled |
| ChatPage.ChatPage.FireDecay | src/pages/ChatPage.jsx:134-139 | the earliest decay sets its user's typing flag to false and leaves `typingTimeout` alone |
| ChatPage.ChatPage.AdvanceClock | src/pages/ChatPage.jsx:134-139 | time passes without skipping a pending decay |
| ChatPage.ChatPage.OnReactionUpdated | src/pages/ChatPage.jsx:149-154 | the store receives a patch carrying only `reactions` |
| ChatPage.ChatPage.OnPollUpdated | src/pages/ChatPage.jsx:157-162 | the store receives a patch carrying only `poll` |
| ChatPage.ChatPage.OnMessageEdited | src/pages/ChatPage.jsx:165-172 | the store receives a patch carrying exactly `content`, `isEdited` and `editedAt` |
| ChatPage.ChatPage.OnMessageDeleted | src/pages/ChatPage.jsx:175-185 | 'everyone' gives the tombstone patch; any other value removes the row |
| ChatPage.ChatPage.OnMessageRead | src/pages/ChatPage.jsx:188-195 | after the loop, every listed id present in the list is marked read and nothing else changes (invariant: the prefix of ids handled so far) |
| ChatPage.ChatPage.LoadInitialMessages | src/pages/ChatPage.jsx:199-214 | the fetched history goes through `addMessage` in order; a failed or empty fetch changes nothing |
| ChatPage.RenewedTypingStillDecaysEarly | src/pages/ChatPage.jsx:119-145 | typing at 0 and again at 10000 still drops to false at 16000, and meanwhile the banner shows the long-typing text |
| TimeFormat.FormatDuration | src/utils/timeFormat.js:30-37 | every duration label ends in " sec" |
| TimeFormat.DurationSplitsMinutes | src/utils/timeFormat.js:30-37 | from 60 s on, the label is "<m> min <r> sec" with r < 60 and m*60 + r = s |
| TimeFormat.DurationRoundTrip | src/utils/timeFormat.js:30-37 | every duration label reads back as its number of seconds ("<s> sec" below a minute) |
| TimeFormat.MinuteLabelRoundTrip | src/utils/timeFormat.js:34-36 | a "<m> min <r> sec" label with a remainder below 60 reads back as `m * 60 + r` |
| TimeFormat.DurationLabelsDistinct | src/utils/timeFormat.js:30-37 | distinct durations never share a label |
| TimeFormat.RelativeBucket | src/utils/timeFormat.js:4-25 | the chosen bucket's interval contains the difference, and its number lies below the bucket's bound (60 s, 60 min, 24 h) |
| TimeFormat.BucketIsUnique | src/utils/timeFormat.js:9-24 | exactly one bucket applies: any bucket whose interval contains the difference is the one chosen |
| TimeFormat.FormatRelativeTime | src/utils/timeFormat.js:4-25 | the label ends with the unit of the bucket the difference falls in (" sec", " min", " hrs" or "d") |
| TimeFormat.RelativeTimeRoundTrip | src/utils/timeFormat.js:4-25 | the label shows its bucket and number unambiguously |
| TimeFormat.EditableTime | src/utils/timeFormat.js:54-57 | every timestamp is editable, with no time limit |
| Base64.DecodeGroups | src/utils/notification.js:99 | groups of four characters give three bytes; a final group of two or three gives one or two |
| Base64.Decode | src/utils/notification.js:99 | `atob` fails exactly when the cleaned input leaves a remainder of one or holds a non-alphabet character; otherwise it yields the carried number of bytes |
| Base64.DecodeGroupsOfEncode | src/utils/notification.js:99 | decoding inverts the unpadded encoding |
| Base64.DecodeOfEncode | src/utils/notification.js:97-99 | `atob` accepts the padded and the unpadded encoding alike |
| Base64.Padded | src/utils/notification.js:97-98 | the padded string keeps the input as its prefix, adds only `=` and has a length divisible by four |
| Base64.PaddingCount | src/utils/notification.js:97 | the padding is 0 to 3 characters and brings the length to a multiple of four |
| Notification.LastSeenBucket | src/utils/notification.js:152-187 | falsy or missing gives 'Never'; otherwise the label's interval contains the difference, with a future time counting as 'Just now' |
| Notification.LastSeenText | src/utils/notification.js:153-186 | every label has a text except the calendar date, whose locale formatting is not modelled |
| Notification.FormatLastSeen | src/utils/notification.js:152-187 | 'Never' for a falsy time; no modelled text exactly when the time is a week or more ago |
| Notification.LastSeenBucketIsUnique | src/utils/notification.js:158-180 | exactly one label applies to each time |
| Notification.LastSeenTextRoundTrip | src/utils/notification.js:162-180 | different labels never share a text |
| Notification.ReplaceAll | src/utils/notification.js:98 | a global one-character `replace` keeps the length and substitutes exactly the matching positions |
| Notification.ToStandardAlphabet | src/utils/notification.js:98 | the conversion keeps the length and leaves no `-` or `_` |
| Notification.StandardAlphabetPerCharacter | src/utils/notification.js:98 | every `-` becomes `+`, every `_` becomes `/`, every other character stays |
| Notification.AlphabetChangesAreInverse | src/utils/notification.js:98 | the URL-safe and standard alphabets convert into each other without loss |
| Notification.Atob | src/utils/notification.js:99 | the decoded string has one character per byte, each with that byte's code |
| Notification.UrlBase64ToUint8Array | src/utils/notification.js:95-109 | the array has the decoded length and holds the decoded bytes in order, or is empty when decoding fails |
| Notification.UrlBase64RoundTrip | src/utils/notification.js:95-109 | every byte string survives its unpadded base64url encoding |
| Notification.StrayCharacterYieldsNoBytes | src/utils/notification.js:97-107 | an input one character past a whole group yields an empty array, not an error |
| MessageBubble.ImageUrlMatchesRegex | src/components/MessageBubble.jsx:272 | the image-link check decides exactly the strings `/^https?:\/\/.*\.(jpg\|jpeg\|png\|gif\|webp)$/i` matches |
| MessageBubble.RenderContent | src/components/MessageBubble.jsx:77-298 | the view's condition holds and no higher-precedence condition does (deleted, editing, voice/image/video/file/poll, reply, base64 image, image link, plain) |
| MessageBubble.RenderContentIsFirstApplicable | src/components/MessageBubble.jsx:77-298 | the precedence determines the view uniquely |
| MessageBubble.DeletedWinsOverAll | src/components/MessageBubble.jsx:79-81 | a message deleted for everyone shows the placeholder whatever its type, reply or edit state |
| MessageBubble.ReplyLabelOfMedia | src/components/MessageBubble.jsx:192-208 | a media reply's label ignores the quoted text; any other reply's label is the quoted text |
| MessageBubble.MediaLabelsDistinct | src/components/MessageBubble.jsx:196-208 | replies to different kinds of media get different labels |
| MessageBubble.ReplyQuote | src/components/MessageBubble.jsx:214-240 | the quote is text exactly when it is not an image reply with content, a base64 image or an image link; the text is the reply label |
| MessageBubble.StatusTick | src/components/MessageBubble.jsx:60-75 | no tick on others' messages; read, delivered and sent ticks exactly for status read, delivered and anything else |
| MessageBubble.DoubleTickIffReceived | src/components/MessageBubble.jsx:63-74 | an own message shows two ticks exactly when it is delivered or read |
| MessageBubble.ReadReceiptGuard | src/components/MessageBubble.jsx:19-26 | no receipt for one's own message or once the reader is recorded; a receipt for every other unread message |
| MessageBubble.EditEmission | src/components/MessageBubble.jsx:34-42 | a save emits nothing on a message that is not editable, and otherwise exactly one event, an edit of this message to `Trim(draft)`, only when that differs from the content |
| MessageBubble.EditEmissionGuard | src/components/MessageBubble.jsx:34-42 | on an editable message an edit is emitted exactly when the trimmed draft differs; once applied, saving again emits nothing |
| MessageBubble.SavedEdit | src/components/MessageBubble.jsx:37-39 | the emit step of a save on an editable message sends exactly `EditEmission`'s event |
| MessageBubble.MessageBubble.constructor | src/components/MessageBubble.jsx:8-17 | all menus closed, the editor text is the content, nothing emitted; `isEditable` is what `getEditableTime` says of the timestamp; `Valid()` holds, and every method keeps it: a received bubble never opens its menu or editor and never emits an edit or a delete (line 343) |
| MessageBubble.MessageBubble.ReadReceiptEffect | src/components/MessageBubble.jsx:19-26 | a receipt is scheduled 500 ms ahead exactly when the guard holds |
| MessageBubble.MessageBubble.FireReadReceipt | src/components/MessageBubble.jsx:22-24 | a scheduled receipt, any of those pending, sends the message id as a one-element read batch |
| MessageBubble.MessageBubble.ToggleReactions | src/components/MessageBubble.jsx:335-341 | the reaction button flips the picker open or closed |
| MessageBubble.MessageBubble.HandleAddReaction | src/components/MessageBubble.jsx:28-32 | a pick in the open picker (line 370) emits the reaction for this message and closes the picker |
| MessageBubble.MessageBubble.ToggleOptions | src/components/MessageBubble.jsx:343-351 | the options button, present on one's own messages only, flips the menu open or closed |
| MessageBubble.MessageBubble.OpenEditor | src/components/MessageBubble.jsx:343-357 | the Edit item, present only while the menu is open on an editable message of one's own, opens the editor and leaves the draft as it was |
| MessageBubble.MessageBubble.EditDraft | src/components/MessageBubble.jsx:82-88 | typing in the editor, present only in the editor view, replaces the draft |
| MessageBubble.MessageBubble.CancelEditing | src/components/MessageBubble.jsx:82-96 | Cancel, present only in the editor view, closes the editor and keeps the draft |
| MessageBubble.AbandonedDraftReturns | src/components/MessageBubble.jsx:14 | a draft abandoned with Cancel is shown again when the editor is reopened, not the message's content |
| MessageBubble.MessageBubble.HandleEditMessage | src/components/MessageBubble.jsx:34-42 | Save, present only in the editor view, emits `EditEmission` of the draft as it stood when Save was pressed; when the message is editable the editor and menu close whether or not anything was sent, otherwise nothing changes |
| MessageBubble.MessageBubble.HandleDeleteMessage | src/components/MessageBubble.jsx:44-49 | an item of the open menu on one's own message: emits only after confirmation, with the for-everyone flag unchanged; a refusal changes nothing |
| MessageBubble.ReceivedBubbleNeverEditsOrDeletes | src/components/MessageBubble.jsx:343-366 | a bubble showing a received message has emitted no edit and no delete, whatever was clicked |
| MessageBubble.MessageBubble.HandleReply | src/components/MessageBubble.jsx:51-58 | the composer's reply target is this message's id and content with the sender's name or 'Unknown' |
| MessageInput.LastTypingAppend | src/components/MessageInput.jsx:20-48 | the last typing event of a concatenation is the later part's, when it has one |
| MessageInput.FormatRecordingTime | src/components/MessageInput.jsx:126-130 | the clock ends in a colon and two digits |
| MessageInput.SecondsFieldTwoDigits | src/components/MessageInput.jsx:126-130 | the seconds field is always exactly two digits and reads back as the remainder |
| MessageInput.RecordingTimeRoundTrip | src/components/MessageInput.jsx:126-130 | every "m:ss" reading shows the seconds it was made from |
| MessageInput.ClockRoundTrip | src/components/MessageInput.jsx:126-130 | an "m:ss" reading built from whole minutes and a remainder below 60 reads back as `m * 60 + r` |
| MessageInput.AlternationExtends | src/components/MessageInput.jsx:25-33 | appending an event keeps the announcements alternating, as long as a "typing" follows a "stopped" or nothing |
| MessageInput.NoTwoStartsWithoutStop | src/components/MessageInput.jsx:20-48 | in an alternating run, any two "typing" announcements have a "stopped" between them |
| MessageInput.ComposerNeverRepeatsStart | src/components/MessageInput.jsx:20-48 | in every state the composer's methods reach, any two "typing" announcements have a "stopped" between them |
| MessageInput.MessageInput.constructor | src/components/MessageInput.jsx:8-18 | an empty draft, no timer, nothing emitted |
| MessageInput.MessageInput.HandleInputChange | src/components/MessageInput.jsx:20-34 | "typing" is emitted only when no timer is pending, so the announcements keep alternating; the timer is always restarted 3000 ms ahead |
| MessageInput.MessageInput.FireTypingTimer | src/components/MessageInput.jsx:30-33 | the timer emits "stopped" and clears the pending handle; the announcements keep alternating |
| MessageInput.MessageInput.AdvanceClock | src/components/MessageInput.jsx:30-33 | time passes without skipping the pending timer |
| MessageInput.MessageInput.HandleSendMessage | src/components/MessageInput.jsx:36-48 | a blank draft does nothing; otherwise the untrimmed draft goes out as text with the current reply target, then draft and reply target are cleared and "stopped" is emitted; the pending timer is left running |
| MessageInput.MessageInput.ToggleEmojiPicker | src/components/MessageInput.jsx:168-175 | the emoji button flips the picker open or closed, keeping the typing invariant |
| MessageInput.MessageInput.HandleEmojiSelect | src/components/MessageInput.jsx:50-53 | a click in the open picker (lines 224-235) puts the emoji at the end of the draft and closes the picker, keeping the typing invariant |
| MessageInput.TypeThenSend | src/components/MessageInput.jsx:20-48 | typing, a send and the timer give the events typing, message, stopped, stopped |
| JsText.Substring | src/pages/ChatPage.jsx:86 | `substring(0, n)` keeps the first min(n, length) UTF-16 code units of the string |
| JsText.TrimIsInfix | src/components/MessageInput.jsx:37 | `trim` keeps a contiguous run of the string and cuts only whitespace on either side |
| Messages.MergeKeepsIdentity | src/context/ChatContext.jsx:74 | a merge never changes id, sender, type, timestamp or reply reference |
| Messages.MergeNoUpdates | src/context/ChatContext.jsx:74 | an empty update changes nothing |
| Messages.MergeIdempotent | src/context/ChatContext.jsx:74 | applying the same update twice equals applying it once |
| Messages.MergeThen | src/context/ChatContext.jsx:74 | two successive updates equal one update with the later values winning |

## Left out

- `MessageBubble.MessageBubble`: the `message` prop is a constant fixed when the bubble is created. In the page, patches for edits, tombstones, reactions and reads replace the prop between renders while the draft and the menus keep their state. The model's `View`, `EditEmission` and read-receipt effect see the message as it was at creation.
- `MessageBubble.MessageBubble.FireReadReceipt` lets any pending receipt fire first. In the browser equal 500 ms timeouts fire in the order their effects ran. Every receipt of one bubble sends the same `MarkRead` event, so the outbox is the same either way. Only which due time leaves the queue first differs.
- `MessageInput.MessageInput.ToggleEmojiPicker` ignores `disabled={isRecording}`. Recording is media capture, which is not modelled, so the model's emoji button is always enabled.
- The socket and HTTP wrappers (src/utils/socket.js, src/utils/api.js): emits are `Outbound` values, and connection set-up and reconnection are not modelled.
- The page's `handleSendMessage` (src/pages/ChatPage.jsx:246-252) adds `senderName` to the outgoing message. `SendMessage` does not carry that field.
- Permission requests, push subscription and service-worker messaging in src/utils/notification.js:4-147: they are browser calls. A received message's notification is modelled only as the `Notice` it would show.
- Locale formatting:
  - `formatTime`, and the `toLocaleDateString` branch of `formatLastSeen`;
  - `Notification.FormatLastSeen` gives `None` for times a week or more ago. Their label `CalendarDate` keeps only the timestamp.
- `MessageBubble.EditEmission` and `MessageBubble.MessageBubble.HandleEditMessage` take a missing `content` as `""`. In the browser the editor's draft then starts as `undefined`:
  - saving the untouched draft throws on `.trim()`, and the editor stays open, where the model emits nothing and closes it;
  - saving a blank draft compares `""` with `undefined` strictly and emits an edit to `""`, where the model emits nothing.
- `getEditableTime`'s `Infinity` is the `timeLeft == None` of `EditWindow`.
- `TimeFormat.FormatDuration` takes whole seconds only. A fractional media duration is not modelled, because JavaScript's floating point is out of scope.
- `Notification.LastSeenBucket` takes `lastSeen` as a millisecond number. A date string would be parsed by `new Date`, which is not modelled.
- The `JSON.parse(message.content)` fallback of a poll without poll data: `PollView` is chosen either way, and a parse failure is not modelled.
- Media capture and data-URL construction (src/components/MessageInput.jsx:63-124), and the markup of the bubbles. This includes the hidden "Image link" fallback and the rendering of reactions.
- Authentication, login, `localStorage`, the app shell and the visibility redirect (src/pages/ChatPage.jsx:49-62): they are side effects with nothing to state.
- The header, reaction picker and message list components. The list's fetcher turns errors into `[]`, which reaches `SettleFetch` as `Resolved(Some([]))`.
- React scheduling and closures:
  - updates are applied at once, in call order;
  - `loadMoreMessages` reads the current length and `hasMoreMessages`, not the values captured at its last render;
  - only the typing handler's stale capture is modelled, because it changes behaviour.
- Concurrency: a fetch in flight across `clearMessages` is modelled only as the `SettleFetch` that can still follow.
