# Verified model of teled

teled is a Telegram server. This project models the parts of it that carry state, as Dafny programs
over the same tables the server keeps, and proves what they keep over every run.

The centre is the per-account message, update and read-state machine of `memory/db.go`. `Messaging`
states each mutating method as a function on a `World`: per account a message view and an update log,
beside the canonical messages. `MemoryDb` is the database itself, a class whose maps and counters are
updated in place by loops that visit maps in any order; each mutating method is proved to be one step of
the machine, each reader to compute its specification. The invariant is split by concern: `Structure`
(local ids and copies), `UpdateLog` (pts), `ReadState` (read sets and receipts), `Deletions` and
`Agreement` (the two sides of a conversation). `Invariant` puts them together for every reachable state.

On top of that:

- `MessageLaws`, `ReadLog`: what edits, deletes and reads do over whole runs, said without the operations' own predicates.
- `Watermarks`: nothing stores a watermark, yet the recomputed ones say exactly which messages are read.
- `History`, `Difference`: paging loses nothing and stops.
- `CatchUp`, `Convergence`: a client that follows the log, from any boundary, in pages, interleaved with
  any operations, ends where a full replay ends.
- `Relational`: the queries of the PostgreSQL backend as set comprehensions, answered by the in-memory code.
- `UpdatesHandler`, `DialogsHandler`: the handlers that consume the database; `Notices`, `DialogReplies`: what their
  replies tell a client.
- `Instances`: reachable states where statements one would like to make fail; `Examples`: the texts of the
  repository's own tests and prompts.

Five smaller cores stand on their own: `Entities` (detected entities in UTF-16), `Media` (uploads and ranged
downloads), `KeyCache` and `Connections` (auth keys and live connections under interleaving), `Sessions` and
`PhoneLogin` (who a key stands for, and how it got there), `BotText`, `BotFather` and `BotFatherEngine` (the
BotFather conversation). `Prelude`, `Tables`, `DbSteps` and `Readers` hold what the others share.

`dafny verify dfyconfig.toml` verifies everything.

Some statements one would like to make are false of the code. Each is stated with its exact condition and an
instance where it fails:

- A difference reply reports the current pts even when its cap of 1000 entries cut the list
  (`UpdatesHandler.CapIsHarmlessIff`; instance `UpdatesHandler.CutReplyLosesMessages`).
- A draft whose conversation the dialog limit cut off is shown as a dialog without messages, where the comment
  says that no messages were exchanged yet (`DialogsHandler.DraftHidesConversationIff`; instance
  `DialogsHandler.DraftCanHideConversation`).
- For the same reason the entry of a requested peer is empty behind the first 100 dialogs, where the comment
  asks for the real read state (`DialogsHandler.PeerEntryIsTrueIff`; instance `Instances.PeerEntryCanBeEmpty`).
- A deletion is logged for the deleter alone, so the other side's client keeps the message that its histories
  no longer list (`Convergence.ReplayExceedsHistory`; instance `Instances.ReplayCanExceedHistory`).
- A read is logged with the id it asked for, not cut to the messages there are, so the greatest logged id can cover
  messages that came later and are unread (`ReadLog.MarkIsExactIff`; instance `Instances.ReadAheadMisleads`).
- A key is cached before it is saved, so a failed save leaves a key that works until the next restart
  (`KeyCache.CachedKeysAreDurable`; instance `KeyCache.FailedSaveIsForgotten`).
- A permanent key that is itself bound as a temporary one stands for the other key
  (`Sessions.PermanentKeyResolvesIff`; instance `Sessions.BoundPermanentKeyLosesItself`).
- A user id that reaches the built-in account's resets that account's counters
  (`Invariant.CreateKeepsInvariantIff`; instance `Instances.CreateCanBreakInvariant`).
- A number without digits gets the code like any other and finds an account nobody signed up with it
  (`PhoneLogin.FoundAccountSignedUpIff`; instance `PhoneLogin.NumberWithoutDigits`).
- Usernames are unique as spelled, not up to case, so a revoke by name can reach an older bot
  (`BotFather.RevokesTheNamedBotIff`; instance `BotFather.RevokeCanHitAnotherBot`).
- A bot imported by its token can hold the token of an owned bot (`BotFather.TokenReachesItsBotIff`; instance
  `BotFather.ImportedBotCanHoldToken`).
- A link that is a prefix and punctuation is reported without being a link any more
  (`Entities.TrimmedLinkMatchesIff`; instance `Entities.TrimmedLinkCanStopMatching`).
- A range whose end overflows 64 bits makes the slice expression panic (`Media.ObjectStore.GetRange`; instance
  `Media.RangeCanPanic`).

## Model

| member | source | states |
|---|---|---|
| `MemoryDb.DB.constructor` | memory/db.go:97-124 | a new database holds the built-in account with no messages, which is the start of every run |
| `MemoryDb.DB.CreateAccount` | memory/db.go:203-212 | a fresh account under the next id; ids never used before unless the counter reaches the built-in id, and then only its counters are reset |
| `MemoryDb.DB.Allocate` | memory/db.go:539-545 | local id and pts advance together, by one |
| `MemoryDb.DB.AllocatePts` | memory/db.go:548-553 | only the pts advances, by the given count |
| `MemoryDb.DB.StoreRef` | memory/db.go:556-564 | the reference is stored under its id in the account's own map, the other accounts and tables untouched; after an allocation that appends it to the dense ids |
| `MemoryDb.DB.LogUpdate` | memory/db.go:567-576 | exactly one entry is appended to one account's log |
| `MemoryDb.DB.RefByGlobal` | memory/db.go:579-587 | the account's one reference to a message, whatever order the map is searched in |
| `MemoryDb.DB.DeliverTo` | memory/db.go:611-622 | one participant's share of a send: id, pts, reference and log entry agree |
| `MemoryDb.DB.SendMessage` | memory/db.go:591-625 | sending is one step of the state machine; the result names the ids and pts both sides got, zero for self-chat |
| `MemoryDb.DB.EditMessage` | memory/db.go:824-860 | accepted exactly when the caller holds the message, nobody deleted it and the caller sent it; the result names the other side's own id and pts |
| `MemoryDb.DB.DeleteMessages` | memory/db.go:864-890 | held ids in request order, one pts for every position of the request that names a held id; marks the shared message, logs for the deleter alone |
| `MemoryDb.DB.MarkDeleted` | memory/db.go:868-881 | the loop marks exactly the messages behind the held ids |
| `MemoryDb.DB.ReadHistory` | memory/db.go:960-1014 | one step of the state machine; reports the receipt id and how many incoming messages of the peer stay unread |
| `MemoryDb.DB.MarkRead` | memory/db.go:966-978 | for every iteration order, exactly the incoming references of the conversation up to the id become read |
| `MemoryDb.DB.GetHistory` | memory/db.go:661-687 | for every iteration order, the newest live messages of the conversation below the offset, at most the limit |
| `MemoryDb.DB.MessageByGlobal` | memory/db.go:806-821 | the caller's view of a message, deleted ones included |
| `MemoryDb.DB.GetDialogs` | memory/db.go:895-956 | for every iteration order, the first entries of the one dialog list of the account |
| `MemoryDb.DB.FoldDialogs` | memory/db.go:911-943 | the accumulation yields, per conversation with a live message, its top, both watermarks and its unread count |
| `MemoryDb.DB.GetState` | memory/db.go:1019-1029 | the account's pts, or the error of an unknown user |
| `MemoryDb.DB.GetDifference` | memory/db.go:1033-1057 | the pending entries in pts order, at most the limit, with the current pts |
| `Structure.StepStructured` | memory/db.go:591-1014 | every operation keeps dense local ids, increasing global ids, one copy per participant and the out flag of the sender |
| `UpdateLog.StepLogged` | memory/db.go:548-576 | every operation keeps the log gapless, its new entries aligned with local ids, edits and deletes about ids announced before |
| `ReadState.StepMarks` | memory/db.go:960-1011 | every operation keeps the read set of each conversation a prefix and the logged receipts exact |
| `Deletions.StepDeletions` | memory/db.go:876-886 | every operation keeps a message deleted exactly when one participant logged its deletion |
| `Agreement.StepAgreed` | memory/db.go:591-860 | every operation keeps both accounts' logs of their conversation the same sequence of new and edit events |
| `MessageLaws.EditIsRefused` | memory/db.go:829-836 | an id nobody holds, a deleted message and somebody else's message: the edit changes nothing |
| `MessageLaws.EditIsApplied` | memory/db.go:838-857 | the account's own live message gets the text and the date; each participant logs one edit under its next pts, nothing else changes |
| `MessageLaws.EditsIff` | memory/db.go:824-860 | an edit changes the state exactly when the account holds the message, sent it, and nobody deleted it |
| `MessageLaws.DeletedIsFinal` | memory/db.go:834-836 | over every run: once a message is deleted its text and edit date stay, and no log gets another edit of it |
| `MessageLaws.HeldConcat` | memory/db.go:870-881 | each requested id is looked at on its own, in order |
| `MessageLaws.HeldCounts` | memory/db.go:870-881 | a held id is reported as often as it was requested, another id never |
| `MessageLaws.DeleteUsesPts` | memory/db.go:870-887 | a delete uses one pts for every position of the request that names a held id and logs one entry for them; without any it changes nothing |
| `MessageLaws.EntriesAreDated` | memory/db.go:567-576 | every entry an operation logs carries the time of that operation |
| `Invariant.ReachableInv` | memory/db.go:591-1014 | all of these hold in every state a run of operations reaches |
| `Invariant.LocalIdsAreDense` | memory/db.go:539-625 | local ids are 1..lastMessageID, global ids increase with them, each participant has exactly one copy, the i-th new entry names the message at id i |
| `Invariant.PtsAccounting` | memory/db.go:548-576 | consecutive pts without gaps; pts equals messages plus edits plus reads plus deleted ids |
| `Invariant.TwoPartyAgreement` | memory/db.go:591-687 | for two accounts: equal event sequences, and histories with the same messages, texts and dates and opposite direction |
| `Invariant.ReceiptsAreExact` | memory/db.go:982-1011 | the greatest receipt logged from a peer is the greatest of the account's messages that peer has read, for any order of reads |
| `ReadLog.ReadIffLogged` | memory/db.go:966-1006 | in every reachable state an incoming message is read exactly when the account logged a read of that conversation that reached its id after it arrived |
| `ReadLog.MarkIsExactIff` | memory/db.go:966-1006 | the greatest logged id says which incoming messages are read exactly when every message some read was ahead of was reached by a later read |
| `Instances.ReadAheadMisleads` | memory/db.go:966-1006 | an instance: a read up to 5 before there are messages; the first one arrives unread below the logged id |
| `Invariant.CreateKeepsInvariantIff` | memory/db.go:203-212 | creating an account keeps the invariant exactly when the id is not the built-in one or that account never used a pts |
| `Instances.CreateCanBreakInvariant` | memory/db.go:203-212 | an instance: one note of the built-in account to itself, then accounts up to its id |
| `Watermarks.OutgoingWatermarkIsExact` | memory/db.go:913-942 | a live outgoing message has been read by the peer exactly when its local id is at most the outgoing watermark |
| `Watermarks.InboxWatermarkIsExact` | memory/db.go:913-942 | a live incoming message is read exactly when its id is at most the inbox watermark; the unread count is the number above it |
| `Watermarks.ReadLeavesOnlyLater` | memory/db.go:966-1003 | after a read, what is still unread in the conversation is what lay above the id and was unread |
| `Readers.DialogListUnique` | memory/db.go:945-953 | the sorted dialog list is unique |
| `Readers.TopsDiffer` | memory/db.go:945-953 | different conversations have different top messages, so sorting by top has no ties |
| `History.ConversationBelow` | memory/db.go:661-687 | asking below the k-th message gives exactly what follows it |
| `History.HistoryPagingLossless` | memory/db.go:661-687 | paging the history with any limit stops, loses nothing and repeats nothing |
| `Difference.PendingIsSuffix` | memory/db.go:1041-1047 | what is pending is a suffix of the log, from the first entry above the given pts |
| `Difference.DifferencePagingLossless` | memory/db.go:1033-1057 | paging the difference from the last pts of each page concatenates to everything pending |
| `Difference.PendingCounts` | memory/db.go:1033-1057 | the pts counts of what is pending from a boundary add up to the distance to the current pts |
| `CatchUp.ReorderingIsHarmless` | internal/rpc/updates.go:45-107 | delivering all new entries first and the others second gives the same client state as log order |
| `CatchUp.CatchUpEqualsReplay` | memory/db.go:1033-1057 | a client synchronised at any boundary that applies the rest holds what a full replay gives |
| `Convergence.CatchUpConverges` | memory/db.go:1033-1057 | for every interleaving of operations and partial catch-ups: a client at the current pts holds exactly 1..lastMessageID minus its own deletions, each with its current text |
| `Convergence.ReplayExceedsHistory` | memory/db.go:864-890 | a converged client holds what its histories list plus exactly the messages only the other side deleted |
| `Instances.ReplayCanExceedHistory` | memory/db.go:876-886 | an instance: one message, deleted by its recipient; the sender's replay holds it and no history lists it |
| `Relational.LeftJoinIsSingle` | internal/db/dialogs.go:21-28 | the left join matches at most one row, so it does not multiply the outer rows |
| `Relational.DialogIsSqlRow` | internal/db/dialogs.go:15-31 | the dialog entry is the aggregate of the query's group for the peer |
| `Relational.DialogsAnswerQuery` | internal/db/dialogs.go:15-32 | for limit >= 1, the in-memory dialog list is the result of the query |
| `Relational.ReceiptAnswersQuery` | internal/db/dialogs.go:72-82 | the receipt id is the result of the outbox query |
| `Relational.ReadAnswersUpdate` | internal/db/dialogs.go:84-92 | the references after a read are the UPDATE applied to the references before it |
| `Relational.RemainingAnswersQuery` | internal/db/dialogs.go:94-103 | the count of what stays unread is the count of the third query |
| `Relational.SendAnswersInserts` | internal/db/message.go:70-124 | after a send, messages and message_refs hold the inserted rows besides the old ones, under keys nobody used before |
| `Relational.SendAllocatesAndLogs` | internal/db/message.go:24-115 | after a send, users is the allocating UPDATE of the participants' rows, and updates_log holds one new row per participant with the pts allocated to it |
| `Relational.HistoryAnswersQuery` | internal/db/message.go:128-136 | the conversation lists exactly the rows of the history query, in its order |
| `UpdatesHandler.UpdatesGetDifference` | internal/rpc/updates.go:30-108 | the reply is empty exactly when nothing is pending; else the current views of new messages, the other updates, the users and the current pts |
| `UpdatesHandler.Split` | internal/rpc/updates.go:51-95 | the loop fills both lists in log order and collects everybody they mention |
| `UpdatesHandler.UsersByIds` | internal/rpc/updates.go:124-141 | the stored users among the ids, each once, the caller marked |
| `Notices.ReplySaysThePage` | internal/rpc/updates.go:51-95 | an update is in the reply exactly when the page has an entry of that kind with its payload, pts and count; a new message exactly when the page announces it; both lists in the order of the log |
| `Notices.UsersAreThoseNamed` | internal/rpc/updates.go:48-95 | the users are the caller and the stored users that a carried message or read names, each once |
| `Notices.ReplyTellsNext` | internal/rpc/updates.go:51-95 | the other updates of whatever reply is given are those of the page of the log |
| `Notices.ClientKnowsWhatIsRead` | internal/rpc/updates.go:78-94 | over every interleaving of uncut calls: the greatest outbox id the client was told says exactly which of the account's messages the peer has read, and it was told every read the account logged |
| `UpdatesHandler.MessagesHaveTheirUsers` | internal/rpc/updates.go:48-95 | sender and peer of every message of a reply are among its users |
| `UpdatesHandler.ReplyCarriesThePage` | internal/rpc/updates.go:45-107 | a client that looks at nothing but the reply ends with the messages the page of the log stands for |
| `UpdatesHandler.CapIsHarmlessIff` | internal/rpc/updates.go:12-107 | the reply leaves the client where a page of the log does exactly when at most 1000 entries were pending |
| `UpdatesHandler.CutEntriesAreNeverSent` | internal/rpc/updates.go:30-106 | after a reply, whatever happens, later calls send only what was logged later: entries behind the cap are never sent again |
| `UpdatesHandler.HandlerConverges` | internal/rpc/updates.go:30-108 | over every interleaving without a cut reply: after a call the pts is current and the client holds what a full replay gives |
| `UpdatesHandler.MissesNothingIff` | internal/rpc/updates.go:30-108 | what a cut reply loses, exactly: announced messages that stay, deletions of held messages, or the latest text |
| `UpdatesHandler.CutReplyLosesMessages` | internal/rpc/updates.go:36-106 | 1001 pending messages are enough: one reply makes the pts current and only the first 1000 are held |
| `DialogsHandler.MessagesGetDialogs` | internal/rpc/messages_more.go:17-115 | the page of dialogs with its drafts, preceded by drafts of their own, with top messages and users |
| `DialogsHandler.ShowDialogs` | internal/rpc/messages_more.go:47-85 | the loop over the page: entries with drafts, top messages, users and the covered peers |
| `DialogsHandler.ShowDrafts` | internal/rpc/messages_more.go:89-110 | the loop over the drafts: one empty entry per known peer not covered |
| `DialogsHandler.EachPeerOnce` | internal/rpc/messages_more.go:47-112 | every peer appears at most once, with its own draft |
| `DialogsHandler.TopIsNewest` | internal/rpc/messages_more.go:62-73 | the newest history message of a conversation is the one its entry calls the top |
| `DialogsHandler.MessagesAreTops` | internal/rpc/messages_more.go:62-114 | the messages of the reply are the tops of the listed dialogs, in order |
| `DialogReplies.ReplySize` | internal/rpc/messages_more.go:24-32 | at most 100 conversations, or fewer when asked for fewer: the first of the one dialog list, each with a message |
| `DialogReplies.EntriesInOrder` | internal/rpc/messages_more.go:87-112 | drafts of their own first, the newest first, then the conversations by top message |
| `DialogReplies.EveryDraftIsShown` | internal/rpc/messages_more.go:77-110 | every draft for a stored user is shown, with its conversation or on its own |
| `DialogReplies.DialogUsers` | internal/rpc/messages_more.go:42-104 | the users are the caller and the peer of every entry |
| `DialogsHandler.DraftHidesConversationIff` | internal/rpc/messages_more.go:87-112 | a peer gets an entry that is not the conversation's own exactly when it has a draft and its conversation was cut off by the limit |
| `DialogsHandler.DraftCanHideConversation` | internal/rpc/messages_more.go:87-112 | an instance: two conversations, limit 1, a draft for the older one |
| `DialogsHandler.MessagesGetPeerDialogs` | internal/rpc/messages_more.go:121-202 | one entry per peer resolved against the stored users, looked up in the first 100 dialogs, with top messages, users and the pts |
| `DialogReplies.ResolvedConcat` | internal/rpc/messages_more.go:151-160 | each requested peer is resolved on its own, in order |
| `DialogReplies.OneResolved` | internal/rpc/convert.go:116-134 | the caller resolves, and a user with its access hash; a wrong hash contributes no entry |
| `DialogReplies.EntriesAreAllowed` | internal/rpc/convert.go:116-134 | entries are exactly for the caller, if asked for, and for users whose access hash was given |
| `DialogReplies.PeerMessages` | internal/rpc/messages_more.go:180-187 | the messages are the tops of the requested conversations that have messages |
| `DialogReplies.PeerUsers` | internal/rpc/messages_more.go:148-192 | the users are the caller and the other requested users, each once |
| `DialogsHandler.PeerEntryIsTrueIff` | internal/rpc/messages_more.go:117-176 | the entry of a requested peer is the conversation's own exactly when the conversation is not behind the first 100 |
| `Instances.PeerEntryCanBeEmpty` | internal/rpc/messages_more.go:117-176 | an instance: 101 conversations, and the oldest one is reported empty |
| `Entities.FindAll` | internal/rpc/entities.go:16-18 | leftmost matches of the pattern, each as long as possible, in order and apart, every match beginning inside one of them |
| `Entities.FoundUnique` | internal/rpc/entities.go:16-18 | the matches are determined by where the pattern matches |
| `Entities.MatchIsPattern` | internal/rpc/entities.go:16-18 | what is matched is a whole match: a link prefix and further characters that are not spaces, "@" and 1 to 32 word characters, or "#" and at least one tag character |
| `Entities.MatchIsLongest` | internal/rpc/entities.go:16-18 | nothing longer at the same position matches the pattern |
| `Entities.FoundIff` | internal/rpc/entities.go:16-18 | what the scan finds are exactly the leftmost longest matches of the pattern |
| `Entities.Trim` | internal/rpc/entities.go:40-48 | all trailing punctuation is removed and nothing else; text that begins with another character never becomes empty |
| `Entities.MessageEntities` | internal/rpc/entities.go:28-89 | the result lists the one selection among the candidates, located in UTF-16 |
| `Entities.Utf16Len` | internal/rpc/entities.go:93-105 | the number of code units of the encoded text |
| `Entities.SelectionUnique` | internal/rpc/entities.go:62-86 | first match wins has one result |
| `Entities.DetectedUnique` | internal/rpc/entities.go:62-86 | the text determines the entities, so sort stability does not matter |
| `Entities.EntitySlicesText` | internal/rpc/entities.go:73-74 | slicing the UTF-16 text (section 2.1 of RFC 2781) at offset and length gives the encoding of the span, and decoding it gives the span |
| `Entities.EntitiesAreCorrect` | internal/rpc/entities.go:28-89 | entities are non-empty, in order, disjoint and within the text; each cuts out a whole mention or hashtag, or a whole link without its trailing punctuation |
| `Entities.EntitiesAreWhole` | internal/rpc/entities.go:28-89 | every reported entity is a match as long as possible; a mention or hashtag is never cut short |
| `Entities.NothingIsMissed` | internal/rpc/entities.go:28-89 | wherever a pattern matches, that place lies inside a longest match that is reported or begins inside a reported entity |
| `Entities.TrimmedLinkMatchesIff` | internal/rpc/entities.go:40-48 | the trimmed link is still a link exactly when some character after its prefix is not trailing punctuation |
| `Entities.TrimmedLinkCanStopMatching` | internal/rpc/entities.go:40-48 | an instance: "www..." is trimmed to "www" |
| `Entities.FirstMatchWins` | internal/rpc/entities.go:68-71 | every candidate is reported or starts inside a reported one |
| `Entities.DecodeUtf16` | internal/rpc/entities.go:93-105 | decoding the encoded text gives the text back |
| `Examples.TrimmedLinkText` | internal/rpc/entities_test.go:20-25 | the test text with trailing punctuation and its entity |
| `Examples.MentionAndHashtagText` | internal/rpc/entities_test.go:27-32 | the test text with a mention and a hashtag |
| `Examples.WideCharacterText` | internal/rpc/entities_test.go:34-40 | the test text in which an emoji counts as two |
| `Examples.CharacterClasses` | internal/rpc/entities.go:16-22 | instances at the edges of the character classes: word characters, trailing punctuation, white space, letters matched in any case |
| `Media.StagedFile.Put` | internal/rpc/staging.go:19-34 | the part is stored, replacing an earlier one, and the largest number is remembered |
| `Media.StagedFile.Assemble` | internal/rpc/staging.go:37-47 | parts 0..max in order, missing ones contributing nothing |
| `Media.LastWritesDecide` | internal/rpc/staging.go:19-47 | uploads with the same last write of every part assemble to the same bytes, in whatever order the parts came |
| `Media.AssemblesLastWrites` | internal/rpc/staging.go:19-47 | an upload assembles to what was put last under each number, in the order of the numbers |
| `Media.AssemblesIffComplete` | internal/rpc/staging.go:19-47 | an upload of non-empty pieces assembles to the blob exactly when every piece was put |
| `Media.UploadStaging.File` | internal/rpc/staging.go:59-70 | the upload's own object, a fresh empty one at first use; other uploads untouched |
| `Media.UploadStaging.Take` | internal/rpc/staging.go:72-82 | hands the upload out once and forgets it |
| `Media.UploadStaging.SaveFilePart` | internal/rpc/media.go:27-40 | empty and oversized parts are refused; an accepted part changes the caller's upload alone |
| `Media.ObjectStore.Get` | memory/objstore.go:51-61 | the whole object, or the error of a missing one |
| `Media.ObjectStore.GetRange` | memory/objstore.go:65-84 | the window of the object, cut at its end; the slice panics exactly when offset plus length overflows 64 bits |
| `Media.RangeCanPanic` | memory/objstore.go:65-84 | an instance: one byte, offset 1 and the largest length |
| `Media.DownloadIsComplete` | memory/objstore.go:65-84 | windows asked for one after another stop and add up to the object |
| `Media.UploadThenDownload` | internal/rpc/staging.go:19-47 | a blob put in any order with any repetitions comes back unchanged when read with any 31-bit limit |
| `Media.StageAll` | internal/rpc/media.go:27-40 | a run of calls saving parts leaves the upload with what those parts stage |
| `Media.DownloadAll` | internal/rpc/media.go:143-168 | a run of calls reading window after window stops and returns the whole file |
| `Media.Transfer` | internal/rpc/media.go:27-168 | from parts saved in any order with any repetitions, through the sent media, to the last window read: the blob comes back unchanged |
| `Media.MediaServer.SendMedia` | internal/rpc/media.go:79-103 | the recorded file's content is the assembled upload; files recorded before keep their content |
| `Media.MediaServer.GetFile` | internal/rpc/media.go:143-168 | only the right access hash reads the file, and it reads the window asked for |
| `KeyCache.StepInv` | internal/mtproto/registry.go:49-81 | every step of every interleaving keeps cached keys genuine and stored, pending or failed |
| `KeyCache.CachedKeysAreDurable` | internal/mtproto/registry.go:49-81 | a cached key is lost, neither stored nor being saved, exactly when since the last restart a save of it failed, it was not stored at the start, no save of the run stored it and none is under way |
| `KeyCache.NoFailureNoLoss` | internal/mtproto/registry.go:49-55 | without failing saves every cached key is stored or pending |
| `KeyCache.CachedIff` | internal/mtproto/registry.go:49-81 | the cache holds exactly the keys added, or found in storage by a lookup, since the last restart |
| `KeyCache.AnswersAgreeWithStorage` | internal/mtproto/registry.go:58-81 | every answer carries the genuine key; an id in storage when the lookup began is never answered as absent |
| `KeyCache.SavedStaysStored` | internal/mtproto/registry.go:49-55 | a key whose save succeeded is in storage from then on |
| `KeyCache.FailedSaveIsForgotten` | internal/mtproto/registry.go:49-81 | an instance: a key whose save failed is answered until the restart and unknown after it |
| `KeyCache.KeyRegistry.AddSession` | internal/mtproto/registry.go:49-55 | an undisturbed call is its two steps: cache, then save |
| `KeyCache.KeyRegistry.GetSession` | internal/mtproto/registry.go:58-81 | an undisturbed call is its steps: cache first, then storage, and what was found is cached |
| `Connections.SameStayIff` | internal/mtproto/registry.go:83-127 | two messages share an entry exactly when session and transport agree and nothing ended the stay in between |
| `Connections.AnnouncedByFirstSwap` | internal/mtproto/registry.go:21-23 | under any interleaving a stay is announced by the first swap of its entry and by no other |
| `Connections.AnnouncedIffFirstOfStay` | internal/mtproto/handle.go:61-69 | each transport handling its own messages one after another, anything of the others in between: a message announces exactly when it is the first of an uninterrupted stay |
| `Connections.NothingBackedAfterDisconnect` | internal/mtproto/registry.go:101-109 | after a disconnect no session is backed by the transport, and the other sessions keep their entries |
| `Connections.Registry.CreateConnection` | internal/mtproto/registry.go:83-97 | reuses the entry when the same transport backs it, else replaces it by a new one |
| `Connections.Registry.RemoveConn` | internal/mtproto/registry.go:101-109 | for every iteration order, exactly the entries of the transport are dropped |
| `Connections.Registry.DeleteConnection` | internal/mtproto/registry.go:119-127 | closes the session's connection, drops its entry and no other |
| `Connections.Registry.Handle` | internal/mtproto/handle.go:61-69 | announces exactly when the flag of the session's entry was clear, and sets it |
| `Sessions.AuthorizationSurvivesRotation` | internal/rpc/convert.go:73-113 | after a login through any key that stands for p, every key that stands for p resolves to the user until the next login or logout on p |
| `Sessions.LogoutEndsAll` | internal/rpc/auth.go:310-326 | a logout through any key that stands for p ends it for all of them |
| `Sessions.OthersUnaffected` | internal/rpc/convert.go:166-178 | a login or logout leaves the keys of other permanent keys alone |
| `Sessions.BindingLastsUntilExpiry` | memory/db.go:515-534 | a temporary key stands for its permanent key exactly until it expires |
| `Sessions.PermanentKeyKeepsAuthorization` | internal/rpc/auth.go:278-308 | a permanent key never bound as a temporary one keeps the authorization made through its temporary keys |
| `Sessions.PermanentKeyResolvesIff` | internal/rpc/convert.go:73-113 | after such a login p itself resolves to the user exactly when it is not a live temporary key of another key with another user or none |
| `Sessions.BoundPermanentKeyLosesItself` | internal/rpc/convert.go:73-88 | an instance: a permanent key bound to another loses its own authorization |
| `Sessions.KeyTables.CallerUser` | internal/rpc/convert.go:91-113 | the user the request's key resolves to, when its record is stored |
| `Sessions.KeyTables.BindCaller` | internal/rpc/convert.go:166-178 | binds the user to the key that holds the authorization |
| `Sessions.KeyTables.AuthLogOut` | internal/rpc/auth.go:311-326 | unbinds the key that holds the authorization |
| `Sessions.KeyTables.EffectiveKeyId` | internal/rpc/convert.go:73-88 | the key that holds the authorization of a request's key |
| `Sessions.KeyTables.BindTempAuthKey` | memory/db.go:515-522 | records the binding and nothing else |
| `Sessions.KeyTables.PermAuthKey` | memory/db.go:524-534 | the permanent key of a temporary one that has not expired |
| `PhoneLogin.NormalizePhone` | internal/rpc/auth.go:34-46 | the digits of the number, in order |
| `PhoneLogin.DigitsOfDigits` | internal/rpc/auth.go:34-46 | a number already in canonical form stays as it is |
| `PhoneLogin.FormattingIgnored` | internal/rpc/auth.go:28-46 | inserting formatting anywhere leaves the canonical number unchanged |
| `PhoneLogin.CodeKeyInjective` | memory/db.go:458 | number and hash can be read back from the storage key |
| `PhoneLogin.TestAccountCode` | internal/rpc/auth.go:48-58 | the code of a test account 99966XYYYY is its datacenter digit five times, with or without a plus |
| `PhoneLogin.OtherNumbersCode` | internal/rpc/auth.go:48-58 | every other number has the code 12345 |
| `Examples.CodesOfNumbers` | internal/rpc/auth_test.go:10-21 | 9996621234 has 22222, an ordinary number 12345 |
| `PhoneLogin.AcceptedIffIssuedRecently` | internal/rpc/auth.go:74-157 | over every run, a code is accepted exactly when it is the number's code, 22222 for 9996621234, and the hash was issued for it less than ten minutes ago |
| `PhoneLogin.SentCodeSignsIn` | internal/rpc/auth.go:74-157 | after a code was sent to one spelling of a number, whatever happened since, another spelling is accepted exactly with the number's code within ten minutes |
| `PhoneLogin.LogInByPhone` | internal/rpc/auth.go:74-197 | the two requests together: refused exactly for the wrong code or after ten minutes, with the reason |
| `PhoneLogin.SignsUpIff` | internal/rpc/auth.go:200-238 | a new account is made exactly by a sign-up with a recently issued hash and a number nobody has |
| `PhoneLogin.SignUpIdentifiesForever` | internal/rpc/auth.go:160-238 | whoever signs up is the one account any later sign-in with the same digits finds |
| `PhoneLogin.FoundAccountSignedUpIff` | internal/rpc/auth.go:160-238 | over every run, an account that a number finds was made by a sign-up with the same digits exactly when the number has digits |
| `PhoneLogin.NumberWithoutDigits` | memory/db.go:329-340 | an instance: the code of "+-" is issued and accepted, and the number finds the built-in account |
| `PhoneLogin.Auth.SignIn` | internal/rpc/auth.go:160-197 | refused with the reason, sent to sign-up, or logged in to an account with the number |
| `PhoneLogin.Auth.SignUp` | internal/rpc/auth.go:200-238 | succeeds exactly with an accepted code and a free number, with a fresh logged-in account |
| `BotText.ValidBotUsername` | internal/rpc/botfather.go:277-300 | the checks in order accept exactly 5 to 32 letters, digits and underscores, a letter first, "bot" last in any case |
| `BotText.TokenNamesItsBot` | memory/db.go:256-265 | a token parses back to the id it was made for, and its secret stands behind the colon |
| `BotText.CommandRead` | internal/rpc/botfather.go:97-110 | a command in any case, with white space around it, a bot's name or arguments after it, is that command |
| `BotText.TrimSpaceIs` | internal/rpc/botfather.go:74 | white space around a text is all that is removed |
| `BotText.UsernameRead` | internal/rpc/botfather.go:196 | a username may be written with or without "@", and with white space around it |
| `BotText.Utf8LengthIs` | internal/rpc/botfather.go:270-273 | the length of a name is that of its UTF-8 encoding |
| `Examples.CommandForms` | internal/rpc/botfather.go:97-110 | instances: /newbot@BotFather, and /NewBot with white space and arguments |
| `Examples.SuggestedUsernames` | internal/rpc/botfather.go:28-29 | instances: the usernames the prompt suggests are acceptable |
| `BotFather.EngineKeeps` | internal/rpc/botfather.go:73-268 | every message keeps draft names valid, usernames unique and owned tokens naming their bots |
| `BotFather.RunKeeps` | internal/rpc/botfather.go:73-268 | so does every run, with other account operations in between |
| `BotFather.DraftsAndUsernames` | internal/rpc/botfather.go:180-193 | a pending username step carries a name of 1 to 64 bytes that does not begin with a slash; no username belongs to two accounts |
| `BotFather.IntroAndNewBot` | internal/rpc/botfather.go:112-121 | /start, /help and /newbot, however they are written |
| `BotFather.MyBots` | internal/rpc/botfather.go:122-178 | /mybots and /token change nothing and list exactly the user's bots, oldest first, each with its username and token |
| `BotFather.AsksWhichBot` | internal/rpc/botfather.go:124-138 | /revoke asks which bot, unless the user has none |
| `BotFather.NameAnswered` | internal/rpc/botfather.go:180-193 | a text that is no command means nothing when nothing is pending; as a name it is accepted exactly with 1 to 64 bytes |
| `BotFather.UsernameAnswered` | internal/rpc/botfather.go:195-227 | refused, taken, or the bot is made with the draft name, for the username with or without "@" |
| `BotFather.RevokeAnswered` | internal/rpc/botfather.go:229-268 | the oldest of the user's bots named so up to case gets the new token; without one nothing changes |
| `BotFather.TokensIdentifyBots` | internal/rpc/botfather.go:229-268 | every owned bot's token names it, so no two owned bots share a token, revoked or not |
| `BotFather.TokenReachesItsBotIff` | memory/db.go:285-296 | a login with an owned bot's token reaches that bot and no other exactly when no bot without owner holds the token |
| `BotFather.ImportedTokensDiffer` | memory/db.go:219-243 | over every run, a token is held by at most one bot without owner |
| `BotFather.ImportedBotCanHoldToken` | memory/db.go:217-243 | an instance: a bot imported under the token an owned bot gets later |
| `BotFather.CancelLeavesNothingPending` | internal/rpc/botfather.go:139-153 | after /cancel nothing is pending until the user speaks again, and the answer tells whether something was |
| `BotFather.CreatedBotsAreSound` | internal/rpc/botfather.go:195-227 | an owned bot appears only through its owner's answer, with an acceptable free username, the accepted name and its own token |
| `BotFather.NewBotDialogue` | internal/rpc/botfather.go:73-227 | whatever others do in between and however the texts are written, the dialogue ends with the bot exactly when the username is acceptable and free when it is sent |
| `BotFather.RevokesTheNamedBotIff` | internal/rpc/botfather.go:229-268 | revoking by exact username replaces that bot's token exactly when no older bot of the owner differs only in case |
| `BotFather.RevokeCanHitAnotherBot` | internal/rpc/botfather.go:229-268 | an instance: with AaBot and aabot, revoking aabot replaces the token of AaBot |
| `BotFatherEngine.Conversations.BotsByOwner` | memory/db.go:299-314 | for every iteration order, the owner's bots, oldest first |
| `BotFatherEngine.Conversations.BotByToken` | memory/db.go:285-296 | for every iteration order, an account that holds the token, or none exactly when nobody does |
| `BotFatherEngine.Conversations.CreateOwnedBot` | memory/db.go:248-270 | refused when a non-empty username is in use, else a bot under the next id with its own token |
| `BotFatherEngine.Conversations.HandleCommand` | internal/rpc/botfather.go:112-157 | state and answer of every command |
| `BotFatherEngine.Conversations.HandleUsername` | internal/rpc/botfather.go:195-227 | state and answer of the username step |
| `BotFatherEngine.Conversations.HandleRevoke` | internal/rpc/botfather.go:229-268 | state and answer of the revoke step |
| `BotFatherEngine.Conversations.HandleMessage` | internal/rpc/botfather.go:73-95 | one message is one step of the conversation machine and keeps its invariant |

## Left out

- Pointer records: `memUser`, `memMessage` and `memRef` never leave the database, so they are values in maps that the methods replace; aliasing of these records is not modelled.
- Integer width: ids, pts and counters are unbounded, except in the range arithmetic of the object store.
- Clock, randomness, hashing: time, access hashes, code hashes, token secrets and object keys are arguments; distinct contents have distinct object keys.
- Library sort: `Prelude.SortDescending` stands for it; nothing but a sorted permutation is used of it.
- JSON of the log's extra field: the payload of an entry is part of its update.
- Unknown users in `SendMessage`: the code dereferences a missing record; callers resolve both users first, and so does the model.
- Several database calls of one handler are taken at one state; operations of other requests between them are not modelled.
- `Convergence.CatchUpConverges`: the client resolves log entries at the time of its call, as `MessageByGlobal` does, and holds messages only; the read marks a client is told are in `Notices`.
- `Media.UploadStaging.SaveFilePart`: looking the upload up and writing the part are one step; an upload taken in between by another request is not modelled.
- `Entities.MessageEntities`: the patterns are written as scanners; which characters outside ASCII are letters is an argument, and invalid UTF-8 is taken as already decoded.
- BotFather reply texts are kinds of reply with the values they show; case mappings outside ASCII are arguments.
- Media metadata in a message view is its file id; joining file rows is not modelled.
- Message search, user search, contacts, draft storage, profiles, bot command lists, stickers: filters and plain reads and writes over tables covered here.
- Live push, presence, transports, key exchange, encryption, TL encoding, PostgreSQL transactions and migrations, the filesystem object store.
- `updates.getState` beyond the pts: qts, seq, date and unread count are not set by the memory backend.
