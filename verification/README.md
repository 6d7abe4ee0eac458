# Chat conversation store — Dafny model

This project models the stateful core of a small chat web application: the
`useConversations` hook, which keeps an ordered list of conversations (newest
first) and a nullable pointer to the current one and persists the list in
browser storage, and the home page's send and upload handlers, which drive
the hook and schedule a simulated assistant reply.

Everything is functional: `Message`, `Conversation` and `Store` are immutable
datatypes and every hook operation is a pure transition on the store. The
clock (`Date.now()`) is a parameter: each creation reads it twice, once for
the id (rendered in decimal) and once for the timestamp, so operations take a
`Clock.Reads(idMs, stampMs)`. Ids are not assumed unique: append and delete
act on every conversation whose id matches, exactly as the source's
`map`/`filter` do.

Modules, one per concept:

- `Wrappers` — `Option` (TypeScript's `T | null`) and `Result` (a raised error).
- `Clock` — the two clock readings and `Number.prototype.toString` for ids.
- `ChatTypes` — `Role`, `Message`, `Conversation`; their declarations live in
  `src/components/Sidebar`, which is not part of this model, so the fields are
  taken from the records the hook builds.
- `Conversations` — the hook's operations and the pointer invariant `Valid`.
- `ConversationLaws` — properties relating several store calls.
- `Persistence` — the load-on-mount and save-on-change effects as a write log.
- `Page` — `handleSendMessage`, the deferred reply, `handleFileUpload`.
- `PageLaws` — how the deferred reply interleaves with other operations.

Points where the code behaves differently from an idealised store, which the model follows:

- Selecting a conversation sets the pointer unconditionally; there is no
  membership check and no silent rejection. The invariant is kept only when
  the chosen conversation is listed (`Conversations.Select`,
  `ConversationLaws.SelectCanDangle`).
- Ids are clock readings, so two conversations created in the same
  millisecond share an id; one append then reaches both and one delete
  removes both (`ConversationLaws.SameMillisecondAppendHitsBoth`,
  `ConversationLaws.SameMillisecondDeleteRemovesBoth`).
- The save effect fires whenever the list is replaced by a new array, which
  create, append and delete always do, even when append or delete matched
  nothing. It also fires once at mount with the initial empty list, before a
  loaded list arrives. A selection writes nothing.
- "No current conversation" is JavaScript falsiness, so an empty-string
  pointer (possible only for a loaded conversation whose id is empty) also
  makes sending create a new conversation (`Page.HasCurrent`).

## Model

| member | source | states |
|---|---|---|
| Clock.ToString | src/hooks/useConversations.ts:30 | an id is a non-empty string of decimal digits with no leading zero |
| Clock.ParseToString | src/hooks/useConversations.ts:30 | reading a rendered clock value back gives the original millisecond count |
| Clock.IdsCollideIffSameMillisecond | src/hooks/useConversations.ts:30-32 | two ids are equal exactly when their clock readings are equal, so collisions happen precisely within one millisecond |
| Conversations.DeriveTitle | src/hooks/useConversations.ts:54 | a derived title is at most 53 characters; it is the content itself when that is at most 50 characters, otherwise its first 50 characters followed by "..." |
| Conversations.Extend | src/hooks/useConversations.ts:49-60 | appending to one conversation keeps its id and timestamp, puts the message last, and changes the title only for a user message into an empty conversation |
| Conversations.AppendAll | src/hooks/useConversations.ts:48-63 | the list keeps its length and ids position by position; every matching conversation is extended and every other one is untouched |
| Conversations.Remove | src/hooks/useConversations.ts:67 | no conversation with the id survives, every other conversation survives, and an absent id leaves the list identical |
| Conversations.RemoveCounts | src/hooks/useConversations.ts:67 | each conversation occurs in the result exactly as often as before unless it carries the deleted id, in which case not at all |
| Conversations.FindFirst | src/hooks/useConversations.ts:74 | returns the first position holding the id, and none exactly when the id is absent |
| Conversations.NewMessage | src/hooks/useConversations.ts:42-46 | a new message keeps the caller's role and content; its id is a non-empty digit string with no leading zero (unless the reading is 0) that reads back as the id clock reading, and its timestamp is the second reading |
| Conversations.NewConversation | src/hooks/useConversations.ts:29-34 | a new conversation is titled "New Chat" and has no messages; its id is a digit string with no leading zero (unless the reading is 0) that reads back as the first clock reading, and its timestamp is the second reading |
| Conversations.Create | src/hooks/useConversations.ts:28-38 | the list grows by one with a "New Chat", empty, clock-stamped conversation at the front, the old list follows unchanged, the current id becomes the new id, and the invariant holds |
| Conversations.Append | src/hooks/useConversations.ts:41-64 | same length, order, ids and pointer; each matching conversation keeps its id and creation timestamp, gets the clock-stamped message last and follows the title rule; others untouched; an absent id changes nothing; the invariant is preserved |
| Conversations.Delete | src/hooks/useConversations.ts:66-71 | the id is gone, every other conversation stays, the pointer is cleared exactly when it named the id, an absent id leaves the list alone, and the invariant is preserved |
| Conversations.Select | src/hooks/useConversations.ts:77-79 | the list is unchanged and the current id becomes the chosen conversation's id; the invariant holds afterwards if and only if that conversation is listed |
| Conversations.GetCurrent | src/hooks/useConversations.ts:73-75 | none for a null pointer; otherwise the first listed conversation with the pointer's id; under the invariant a set pointer always finds one |
| ConversationLaws.RemoveKeepsOrder | src/hooks/useConversations.ts:67 | deleting distributes over concatenation, so survivors keep their relative order |
| ConversationLaws.DeleteIdempotent | src/hooks/useConversations.ts:66-71 | deleting the same id twice equals deleting it once |
| ConversationLaws.CurrentAfterCreate | src/hooks/useConversations.ts:28-38 | right after a create, the current conversation is the new empty one |
| ConversationLaws.NoCurrentAfterDeletingIt | src/hooks/useConversations.ts:66-75 | right after deleting the current conversation there is no current conversation |
| ConversationLaws.SelectCanDangle | src/hooks/useConversations.ts:77-79 | in any store, selecting a conversation whose id is not listed breaks the pointer invariant |
| ConversationLaws.SameMillisecondAppendHitsBoth | src/hooks/useConversations.ts:28-50 | two conversations created with the same millisecond id reading (timestamps may differ) both receive one append to their shared id |
| ConversationLaws.SameMillisecondDeleteRemovesBoth | src/hooks/useConversations.ts:28-70 | one delete of the shared id removes both conversations created with the same millisecond id reading, leaving the older list filtered |
| ConversationLaws.FirstConversationLifecycle | src/hooks/useConversations.ts:28-71 | create, a short user message becomes the title, an assistant reply keeps it, and deleting the conversation returns the empty store |
| Persistence.Mount | src/hooks/useConversations.ts:4-26 | an absent or corrupt stored value leaves the store empty without error, a parsed list replaces it wholesale, the pointer starts null, and the writes end with the loaded list under the one key |
| Persistence.ReplacesList | src/hooks/useConversations.ts:24-26 | create, append and delete replace the list (the save effect's dependency); select does not, and it leaves the list identical in every store |
| Persistence.Step | src/hooks/useConversations.ts:23-26 | create, append and delete write the full new list under the one key; select writes nothing; write-through is preserved |
| Persistence.RunKeepsWriteThrough | src/hooks/useConversations.ts:23-26 | after any run the last write is the current list, earlier writes are kept, and there is exactly one write per list-changing operation |
| Persistence.RunKeepsValid | src/hooks/useConversations.ts:36-79 | the pointer invariant survives any run whose selections name listed conversations |
| Page.HasCurrent | src/app/page.tsx:24 | JavaScript truthiness of the pointer: null and the empty string mean no current conversation, and every non-empty string means there is one |
| Page.ReplyText | src/app/page.tsx:33 | the simulated reply is the fixed opening, the message verbatim, then the fixed closing |
| Page.UploadNotice | src/app/page.tsx:68 | the upload notice is the fixed opening, the file name verbatim, then the fixed closing |
| Page.SendMessage | src/app/page.tsx:23-50 | with no current conversation it creates one at the front, makes it current and gives it the user message and a derived title (older conversations sharing the new id get the message too); otherwise it extends every conversation with the current id by the user message under the title rule, creates nothing and keeps the pointer; the reply is bound to that id with the simulated text; the invariant is preserved |
| Page.DeliverReply | src/app/page.tsx:30-48 | the assistant reply goes to the captured id regardless of the pointer; every conversation keeps its id, creation timestamp and title; others are untouched; nothing changes once the target is gone; the pointer and its invariant are preserved |
| Page.UploadSettled | src/app/page.tsx:61-74 | a failed upload raises "Upload failed"; a success appends a user notice to every conversation with the captured id, keeping its id and timestamp, titling it from the notice if it was empty and keeping the title otherwise, or changes nothing when there was no current conversation; the pointer and its invariant are preserved |
| PageLaws.FirstExchange | src/app/page.tsx:24-36 | a first send and its reply leave the new current conversation with the user message then the reply, titled from the user message |
| PageLaws.ReplyFollowsCapturedId | src/app/page.tsx:37-48 | a reply reaches the conversation current at send time even after another conversation is selected |
| PageLaws.ReplyAfterDeleteIsNoOp | src/app/page.tsx:43-48 | a reply whose conversation was deleted first leaves the store unchanged |
| PageLaws.SendToCurrentIsAppend | src/app/page.tsx:37-48 | with a current conversation, sending is exactly one user append to its id, with the reply bound to that same id |
| PageLaws.UserThenAssistantAppends | src/app/page.tsx:37-48 | a user append to an id, any selection, then an assistant append to the same id leaves every conversation with that id ending in both messages and the pointer on the selection |
| PageLaws.ClockIdsAreCurrent | src/app/page.tsx:24 | a pointer holding any clock-made id counts as a current conversation |
| PageLaws.NewChatThenSend | src/app/page.tsx:37-41 | after New Chat, a send appends to the new empty current conversation, creates nothing more, and titles it from the message |
| PageLaws.ReplyTextInjective | src/app/page.tsx:33 | two messages get the same simulated reply if and only if they are equal |
| PageLaws.UploadNoticeInjective | src/app/page.tsx:68 | two file names get the same upload notice if and only if they are equal |

## Left out

- React scheduling: each operation is one atomic step. The two list updates of a first send are batched by React into one render and so one storage write; `Persistence` writes once per operation.
- Storage and JSON: a stored value is abstracted as absent, unparseable or a parsed list. A value that parses but is not a conversation list (such as `null`) is not modelled, and no save-then-load round trip is claimed, because the code never checks one.
- The development-mode double run of effects is not modelled.
- The `console.error` and `console.log` calls are not modelled.
- The upload request itself (`fetch`, `FormData`, the response body): only the response's `ok` flag is an input.
- `await response.json()` can reject even when the response is ok, which would raise before the notice is appended; the model treats every ok response as a success.
- The one-second `setTimeout` delay: the reply is a later step that any operation may precede.
- `Date.now()`: its readings are parameters; timestamps are whole non-negative milliseconds.
- Rendering (`toLocaleTimeString`, message display, the sidebar, the header and welcome screen), the search bar's input handling and its trim-and-non-empty send gate, and the sidebar and tool-selection state of the page.
- `handleNewChat` adds only UI state to `Conversations.Create`.
- JavaScript strings are UTF-16; content is a sequence of characters and `slice(0, 50)` takes the first fifty of them.
