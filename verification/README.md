# A verified model of the chat backend

This project models the parts of the backend that keep state which several
functions, processes or stores must agree on, and proves what they keep.

The core is the tree of chat messages held in two stores. The chat's JSON document
holds every message with its `parentId` and `childrenIds`; the message table holds
one row for each message and no children. A request grows both by a series of
upserts. The table serves reads, rebuilds the children, and fills its gaps from the
document, one generation of parents at each read.

| module | what it models |
|---|---|
| `Forest` | parent links, the climb along them with its guard against cycles, and what lies below a node |
| `ChatMessages`, `Spending` | the message table: row keys, the insert or update of a row, the rebuilt map, and when a write triggers spending |
| `Chats` | the document of a chat beside its rows: upsert, insert, backfill, read |
| `ChatTurns`, `ChatRuns` | whole requests as series of upserts, the tree they keep, and runs of requests over all chats |
| `ChatContents`, `ChatAnswers` | role, `done` and usage of a message in both stores after any run of writes, and what a turn leaves of its messages and charges |
| `ChatThreads` | the thread that leads to an answer, before and after a turn, in both stores |
| `SelfHealing` | reads that fill gaps, their convergence, and the threads that climbs give before and after |
| `ChatFailures` | runs in which writes to the message table or the document fail, and what reads heal of that |
| `Files` | file name globs compiled to LIKE patterns |
| `Automations` | due automations claimed by several workers |
| `Tasks`, `TaskStops`, `TaskTables` | running tasks in Redis, the stopping of all tasks of an item, and the local tables of one process |
| `Folders` | listing, deletion and moves of folder subtrees |
| `AccessGrants`, `AccessQueries` | grants and their older dictionary form, and the ways of asking who may access what |
| `Channels` | channel members, and the query that finds a direct message channel by counting |
| `Config` | values at nested paths of one document, and the deferred tasks that persist them |
| `Tags` | tags on chats, and the collection of their rows |
| `Calendars` | each user's default calendar |
| `Prelude` | optional values, JSON keys that can be missing, duplicate-free sequences, iteration |

Tables are maps by key, and each commit or Redis command is one step. A loop or an
update in place is a method, proved against a function of the old state; runs are
sequences of such functions applied in any order. Ids that the program draws at
random are new ids.

## Where the code does less than it promises

For each of these the model keeps the code as it is, proves when it does what is
promised, and exhibits or characterizes the rest.

- A follow-up turn leaves a sound tree only for an acceptable user message
  (`ChatTurns.FollowUpKeepsSoundIff`); a re-sent message may not leave its old parent.
- A changed `parentId` reaches the document and never the row
  (`ChatRuns.WriteKeepsAgreementIff`).
- A message not charged yet whose first usage report updates its row without being
  marked done is never charged, and done reports of zero input tokens are charged every
  time (`Spending.NeverChargedIff`, `Spending.EarlyReportEscapes`,
  `Spending.ZeroInputReportsChargeEveryTime`); so is every patch of a done message without
  tokens (`Spending.ContentPatchesCharge`), among them the answer that a turn replies to
  (`ChatAnswers.TurnRechargesParentIff`).
- A message whose row write failed comes back only when something below it has a row
  (`ChatFailures.LostRowsReturnIff`); the last answer of a chat is never served again
  (`ChatFailures.LostAnswerIsNeverServed`).
- "Can never be double-claimed" needs row locks, which only one database gets
  (`Automations.WithoutLocksAnOccurrenceIsClaimedTwice`), and edits and commits that do not
  go back behind a claimed run (`Automations.EditIsSafeIff`, `Automations.CommitIsSafeIff`).
- A task saved between a cleanup's count and its delete makes its chat look idle
  (`Tasks.SaveInWindowIsLost`), and one saved after its cleanup makes it look active for good
  (`Tasks.LateSaveStays`); without Redis, a stopped task makes its chat look active
  (`TaskTables.StoppedTaskLooksActive`), and stopping all tasks of an item can skip one
  (`TaskTables.ThirdTaskIsSkipped`) or end early (`TaskTables.ForeignStopEndsTheLoop`).
- Moving a folder can close a cycle (`Folders.MoveKeepsForestIff`).
- Public read drops the write grants on the way through the dictionary
  (`AccessGrants.RoundTripKeepsTriplesIff`), and `*` listed as a user in a dictionary
  becomes everyone (`AccessGrants.ConversionKeepsDecisionsIff`).
- "Read but not write" does not look at public write grants
  (`AccessQueries.PublicWriteIsKeptAsReadOnly`); "all users who have the permission" leaves
  out pending users of a public resource (`AccessQueries.UsersWithAccessAgreesIff`).
- Threshold one at the deletion of a chat assumes that the chat counts itself, which an
  archived one does not, nor one that an administrator deletes for somebody else; and
  naming a missing tag twice fails after the chat is changed; imports, clones, bulk
  unarchiving and other users make no rows of the owner for the tags they bring to life (`Tags.CoveredKeptIff`).
- A user who makes a calendar before asking for the default ones gets no default
  (`Calendars.EarlyCalendarLeavesNoDefault`).
- Settings whose paths are not prefix-free could lose a value
  (`Config.OrderNeverMattersIff`); the paths that `backend/open_webui/config.py`
  registers are prefix-free as written.

## Model

| member | source | states |
|---|---|---|
| `ChatMessages.KeysOfEqualLengthChatsDiffer` | backend/open_webui/models/chat_messages.py:188-189 | Two chats whose ids have one length, as UUIDs do, never share a row key, whatever the message ids are. |
| `ChatMessages.KeysOfUnequalLengthChatsCanClash` | backend/open_webui/models/chat_messages.py:188-189 | With chat ids of different lengths two different messages can get one row key. |
| `ChatMessages.KeyedViewIsUnique` | backend/open_webui/models/chat_messages.py:322-330 | Stripping the chat's prefix from its row keys leaves one row under each message id, and no choice in it, when every key of the chat has the prefix. |
| `ChatMessages.ChatMessageTable.UpsertMessage` | backend/open_webui/models/chat_messages.py:175-283 | The field-by-field insert or update computes the merged row (a stored parent changes only by the key `parent_id`), leaves every other row alone, and records spending exactly when the row held no tokens and the branch taken asks for it. |
| `ChatMessages.LinkChildren` | backend/open_webui/models/chat_messages.py:351-366 | The loops over parent links give every message a duplicate-free `childrenIds` that names exactly the messages whose parent it is, and change nothing else. |
| `ChatMessages.ChatMessageTable.GetMessagesMap` | backend/open_webui/models/chat_messages.py:307-368 | A chat without rows gives no map; otherwise the map has one message for each id that its row keys strip to, a key without the prefix staying whole, made from a row under such a key, with parents and exact children rebuilt. |
| `ChatMessages.EveryRowIsServed` | backend/open_webui/models/chat_messages.py:322-330 | Every row of the chat is in the map: under the message id its key was built from, or under the whole key when that lacks the chat's prefix. |
| `Spending.NormalizedInput` | backend/open_webui/utils/response.py:11-49 | Normalizing a report keeps its prompt count, and the result counts as holding tokens exactly when the normalized input count is non-zero. |
| `Spending.ReportLeavesTokens` | backend/open_webui/models/chat_messages.py:216-223 | After a write whose report carries input tokens, or to a row that held some, the row holds tokens. |
| `Spending.NoChargeOnceTokensAreHeld` | backend/open_webui/models/chat_messages.py:216-228 | In every sequence of writes whose reports carry input tokens, none triggers spending once the row holds tokens. |
| `Spending.NoChargeOncePromptIsCounted` | backend/open_webui/models/chat_messages.py:216-228 | Nor does any write once the row counts prompt tokens under that name, unless a report names them as zero, even when a later report without input tokens resets the input count. |
| `Spending.ExactCharges` | backend/open_webui/models/chat_messages.py:216-228 | For a message without tokens so far, the total is exactly the done assistant writes before the first report, plus one if the reporting write itself triggers. |
| `Spending.ChargesAreBounded` | backend/open_webui/models/chat_messages.py:216-283 | From the first insert on, spending is triggered at most once more than there are token-free done writes before the first report. |
| `Spending.NeverChargedIff` | backend/open_webui/models/chat_messages.py:216-281 | A message is never charged exactly when no done assistant write comes before the first report and the reporting write does not trigger: a first report without `done` on an existing row escapes for good. |
| `Spending.EarlyReportEscapes` | backend/open_webui/models/chat_messages.py:216-228 | Such a message: a placeholder, a first report with tokens that does not say done, and a done write after it, which trigger nothing. |
| `Spending.ZeroInputReportsChargeEveryTime` | backend/open_webui/models/chat_messages.py:216-228 | The bound needs non-zero input counts: n done writes that report zero input tokens trigger n times. |
| `Spending.MergedIsWritten` | backend/open_webui/models/chats.py:566-585 | What one upsert of a chat passes on to the row is the stored message merged with the patch. |
| `Spending.ExactPatchCharges` | backend/open_webui/models/chats.py:566-585 | The exact count over a run of upserts of one message: one trigger for each patch before the first report after which the message is done and an assistant's, and one more for the report under the same condition, or, when it makes the row, for an assistant's. |
| `Spending.ContentPatchesCharge` | backend/open_webui/models/chats.py:566-585 | Once an assistant message is done without tokens, k further patches of its content trigger k times. |
| `ChatContents.StoredIsLastSent` | backend/open_webui/models/chats.py:564-585 | After any run of upserts in a chat, each key of each stored message, usage and `info` usage included, is that of the last upsert of the message that carried it, and otherwise as before; the message written last is the current one. |
| `ChatContents.ReadServesLastSent` | backend/open_webui/models/chat_messages.py:307-368 | After any run of writes to the table, in any order and to any chats, the map read for a chat holds exactly the messages written to it, each with the role and `done` sent last (`user` and true if never sent), the parent of its first write until the key `parent_id` sends another, every count of the last report that carried it, and the same usage under `info`. |
| `ChatContents.ReportIsNormalized` | backend/open_webui/utils/response.py:11-49 | What a message reports: nothing when `usage` and `info` usage are empty, and otherwise its raw counts with input, output and total under their common names, each from the first name in use that is not zero, the total else their sum. |
| `ChatContents.ReportReachesRow` | backend/open_webui/models/chat_messages.py:216-223 | After an upsert whose usage reports input tokens, under any of the four names, the row holds tokens, whatever document and row held before. |
| `ChatContents.RowsServeContents` | backend/open_webui/models/chats.py:564-589 | After every run of new chats, turns, message upserts and document saves that leave these values alone, the map read from the rows serves each message of the document with its role, its `done` and every count of its report. |
| `ChatContents.MadeThenWritten` | backend/open_webui/routers/chats.py:961-986 | A new chat begins with its turn and a save replaces the whole document; whatever happens in other chats, each key of a message is then what that or a later patch of the message sent last. |
| `Chats.ChatTable.UpsertMessageToChat` | backend/open_webui/models/chats.py:551-589 | Merging a message into the document, moving `currentId`, and writing the merged message to its row; each of the two writes may fail without the other, and nothing happens for an unknown chat. |
| `Chats.ChatTable.BackfillMessages` | backend/open_webui/models/chats.py:474-489 | The loop over messages leaves exactly the rows the order-free merge gives: each message with a role written once, every other row unchanged. |
| `Chats.BackfillStep` | backend/open_webui/models/chats.py:478-487 | Backfilling one more message is upserting it when it has a role, and nothing otherwise: the order of the loop does not matter. |
| `Chats.ChatTable.InsertChat` | backend/open_webui/models/chats.py:295-333 | A new chat stores its history and writes a row for each of its messages that has a role. |
| `Chats.ChatTable.FillGaps` | backend/open_webui/models/chats.py:503-529 | The map is extended by exactly those unresolved parents that the document holds, and these are written to rows; without the chat nothing is. |
| `Chats.ChatTable.ReadBlob` | backend/open_webui/models/chats.py:531-542 | Without rows the blob is returned, all of it is written to rows, and an unknown chat gives no map. |
| `Chats.ChatTable.GetMessagesMap` | backend/open_webui/models/chats.py:491-542 | A read returns the rows' message map overlaid with the document's messages for its gaps, or the document when there is no row, and leaves the rows backfilled with just what it took from the document. |
| `Chats.GapsOfMap` | backend/open_webui/models/chats.py:463-472 | The unresolved parents of the rebuilt map are exactly the parents that the rows name and do not hold. |
| `ChatTurns.AppendMissingSpec` | backend/open_webui/main.py:2103-2106 | Appending ids that are missing keeps the old list as a prefix, gives the union, and makes no duplicate. |
| `ChatTurns.PlaceholdersShape` | backend/open_webui/main.py:2113-2129 | Writing placeholders under new, distinct ids adds one childless message each, changes no other message, and ends with `currentId` on the last one. |
| `ChatTurns.FollowUpShape` | backend/open_webui/main.py:2056-2129 | What a whole follow-up turn does to every message: the user's message merged, its parent listing it, every answer listed and attached, all else unchanged, and the current message stored. |
| `ChatTurns.FollowUpKeepsSoundIff` | backend/open_webui/main.py:2056-2129 | From a sound history (an acyclic forest, each `childrenIds` the duplicate-free inverse of `parentId`, a stored current message), a follow-up turn of any number of answers leads to a sound one if and only if the user's message is acceptable: its parent is stored and not below it, is not replaced by another, and it sends its stored children and no other than the turn's answers. |
| `ChatTurns.NewChatIsSoundIff` | backend/open_webui/main.py:1973-2019 | The history built for a new chat is sound if and only if the user's message names no parent; client-sent children are overwritten. |
| `ChatTurns.BrokenBetweenUpserts` | backend/open_webui/main.py:2058-2075 | Between the upsert of the user's message and the one of its parent, the history is no sound tree. |
| `ChatTurns.SoundOnlyIfAcceptable` | backend/open_webui/main.py:2056-2129 | The converse half: if the history is a tree before and after the turn, the user's message was acceptable. |
| `ChatRuns.AppendMissingIds` | backend/open_webui/main.py:2103-2106 | The loop that lists the answers appends exactly the missing ones, in order. |
| `ChatRuns.SaveUserMessage` | backend/open_webui/main.py:2056-2075 | The user's message is upserted, and then its parent with the message added to its children, when that parent is stored and does not list it yet. |
| `ChatRuns.LinkAssistants` | backend/open_webui/main.py:2095-2111 | When there are answers and the user's message is found, it is upserted with all of them listed. |
| `ChatRuns.SavePlaceholders` | backend/open_webui/main.py:2113-2129 | The loop upserts a placeholder for each non-empty answer id, in order, under the user's message. |
| `ChatRuns.CompleteFollowUp` | backend/open_webui/main.py:2056-2129 | The statements of a follow-up request, run on the two stores, make exactly the writes of one turn. |
| `ChatRuns.CompleteNewChat` | backend/open_webui/main.py:1973-2019 | The statements of a new-chat request store exactly the new history and its rows. |
| `ChatRuns.WriteKeepsAgreementIff` | backend/open_webui/models/chats.py:564-589 | A write that does not use the key `parent_id` keeps document and rows of its chat in agreement (same ids, same parent of each) if and only if it does not change the parent of a stored message; a new message agrees with or without a role. |
| `ChatRuns.WriteKeepsOthers` | backend/open_webui/models/chats.py:551-589 | A write to one chat never disturbs the agreement of another. |
| `ChatRuns.NewChatConsistentIff` | backend/open_webui/models/chats.py:295-333 | A new chat is stored consistently if and only if its user message, if any, has a role. |
| `ChatRuns.SaveKeepsAgreementIff` | backend/open_webui/routers/chats.py:961-981 | A client's save of the whole document writes no rows, and keeps the chat in agreement if and only if it has the same messages with the same parents. |
| `ChatRuns.RunsKeepStoresInAgreement` | backend/open_webui/models/chats.py:295-333 | Over every run of new chats, turns, message upserts and document saves that never change the messages' parents, nor a save the messages, both stores have the same message ids and parents in every chat. |
| `ChatRuns.RunsKeepHistoriesSound` | backend/open_webui/main.py:1971-2129 | Over every run of new chats, acceptable turns, content writes and saves of sound documents, every stored history is a sound tree. |
| `ChatRuns.RowsRebuildTheBlob` | backend/open_webui/models/chat_messages.py:351-366 | After every such run from empty stores, the map rebuilt from rows has the blob's messages, parents and, as sets, children. |
| `ChatAnswers.AnswersAreStored` | backend/open_webui/main.py:2113-2129 | After a follow-up turn every answer, whatever was stored under its id, is an assistant's message that is not done, has no children and is under the user's message; a new answer carries nothing else, no usage in particular. |
| `ChatAnswers.AnswersHaveRows` | backend/open_webui/main.py:2113-2129 | The row of a new answer is an assistant's, not done, without usage and under the user's message, and none of its writes triggers spending. |
| `ChatAnswers.UserIsStored` | backend/open_webui/main.py:2056-2063 | The user's message is stored with the role, `done` and usage it was sent with, over what was stored before. |
| `ChatAnswers.TurnKeepsContents` | backend/open_webui/main.py:2056-2129 | A turn changes no message but the user's and the answers, except for lists of children: role, `done`, usage and parent stay. |
| `ChatAnswers.OtherRowsStay` | backend/open_webui/main.py:2056-2129 | A turn writes no row but those of the user's message, its parent and the answers. |
| `ChatAnswers.ReplayedRow` | backend/open_webui/models/chats.py:564-589 | A message's row after a run of upserts is what the table makes of the message as merged so far, written once for each patch sent to it. |
| `ChatAnswers.NewChatIsStored` | backend/open_webui/main.py:1973-2019 | A new chat's document holds the user's message as sent with the answers as its children, and each answer as an assistant's, not done, without usage; the answers' rows say the same, and writing them triggers no spending. |
| `ChatAnswers.TurnRechargesParentIff` | backend/open_webui/main.py:2056-2129 | A turn with a new user's message triggers no spending for what it brings, but once for the message it replies to, if and only if that one is re-saved with the new child and is, given its row, a done assistant's message without tokens, or has no row yet and would be charged as new. |
| `SelfHealing.MessageList` | backend/open_webui/utils/misc.py:71-108 | The loop with its visited set returns the climb along parent links, root first; it ends on cyclic links too. |
| `SelfHealing.ReadHeals` | backend/open_webui/models/chats.py:491-542 | The rows found after a read are the rows before it and those the read had to fill in. |
| `SelfHealing.EachReadShrinksOrRests` | backend/open_webui/models/chats.py:491-542 | Each read either changes nothing, which is so exactly when nothing is left to fill, or leaves strictly fewer blob messages without a row. |
| `SelfHealing.HealingConverges` | backend/open_webui/models/chats.py:491-542 | After as many reads as there are blob messages without a row, a read fills nothing. |
| `SelfHealing.RestMeansResolved` | backend/open_webui/models/chats.py:503-527 | When all blob messages have roles, a chat is at rest exactly when every parent its rows cannot resolve is missing from the blob too (or both are empty). |
| `SelfHealing.HealingKeepsParents` | backend/open_webui/models/chats.py:474-489 | Rows drawn from the blob with its parents stay so under healing, and none is lost. |
| `SelfHealing.RowWalkIsPrefix` | backend/open_webui/utils/misc.py:90-105 | At every stage a climb through the rows is the beginning of the climb through the blob. |
| `SelfHealing.ReadExtendsWalk` | backend/open_webui/models/chats.py:500-529 | One read completes a climb or makes it strictly longer. |
| `SelfHealing.WalkCompletes` | backend/open_webui/models/chats.py:500-529 | After as many reads as a climb has ancestors missing, the climb from that row is the blob's. |
| `SelfHealing.HealedWalksAgree` | backend/open_webui/models/chats.py:500-542 | At rest the climb from any row gives exactly the blob's ancestor sequence. |
| `SelfHealing.ReadsHeal` | backend/open_webui/models/chats.py:491-542 | The rows found after n reads of the store are the rows healed n times, and every read keeps the rows under their keys. |
| `SelfHealing.ReadsConverge` | backend/open_webui/models/chats.py:491-542 | After as many reads of the store as the document has messages with a role and no row, a further read changes nothing. |
| `SelfHealing.ReadsServeBlobThread` | backend/open_webui/models/chats.py:491-542 | A read of the store after enough others returns a map in which the thread of every message that had a row is the document's. |
| `SelfHealing.HealedAreReached` | backend/open_webui/models/chats.py:503-527 | Of a chat with some rows, reads end with rows for exactly the messages on climbs from those rows. |
| `SelfHealing.ReadServesHealedRows` | backend/open_webui/models/chats.py:523-529 | The map a read returns links messages as the rows do after it. |
| `ChatThreads.TurnExtendsThread` | backend/open_webui/main.py:2056-2129 | After an acceptable turn, the thread of each answer is the thread of the message replied to, then the user's message, then the answer. |
| `ChatThreads.TurnKeepsOtherThreads` | backend/open_webui/main.py:2056-2129 | The thread of every message not at or below the user's message stays as it was, even when the turn was not acceptable. |
| `ChatThreads.CurrentAnswer` | backend/open_webui/models/chats.py:574-574 | A follow-up turn makes its last answer the current message, while a new chat begins at its first answer. |
| `ChatThreads.RowsServeExtendedThread` | backend/open_webui/models/chat_messages.py:307-368 | After every run from empty stores, the thread of an answer read from rows after a turn is the thread read from rows before it, then the user's message and the answer. |
| `ChatFailures.RunsKeepRowsDrawn` | backend/open_webui/models/chats.py:578-587 | Over every run of inserts, message upserts, document saves and reads in which any row write may fail, and any document write but a new message's whose row is written, each row belongs to a message of its document and has its parent. |
| `ChatFailures.LostDocumentKeepsDrawnIff` | backend/open_webui/models/chats.py:578-589 | When an upsert writes the row and its document write fails, rows stay drawn from the document if and only if the message was in it before. |
| `ChatFailures.RowsWrittenIff` | backend/open_webui/models/chats.py:474-542 | After an insert or a read, whichever row writes fail, a message has a row if and only if it had one, or its write succeeds and it has a role and, for a read, the chat had no row at all or some row names it as its parent. |
| `ChatFailures.EachWriteOnItsOwn` | backend/open_webui/models/chats.py:578-589 | The two writes of an upsert happen each on its own: the row is made or updated though the document write fails, and the document gets the message and its new current one though the row write fails. |
| `ChatFailures.SavedDocumentStays` | backend/open_webui/routers/chats.py:961-986 | A saved document stays as it is through reads, through upserts whose document write fails, and through all that happens to other chats. |
| `ChatFailures.FailuresAreHealed` | backend/open_webui/models/chats.py:491-542 | After every such run, enough reads whose own writes succeed serve the document's thread for every message that had a row. |
| `ChatFailures.LostRowsReturnIff` | backend/open_webui/models/chats.py:491-542 | After every such run, reads of a chat with some rows bring back exactly the messages on climbs from these rows: a message whose row write failed stays without a row until something below it has one. |
| `ChatFailures.UnreachedIsNeverServed` | backend/open_webui/models/chats.py:500-529 | A message on no climb from a row of its chat gets no row by any number of reads, and none of these reads returns it. |
| `ChatFailures.LostAnswerIsNeverServed` | backend/open_webui/models/chats.py:578-587 | A new chat and then an answer whose row write fails: the answer is in its document, and however often the chat is read, no read returns it. |
| `Forest.AcyclicWalkIsComplete` | backend/open_webui/utils/misc.py:90-105 | In an acyclic forest the guard against cycles never fires: the climb repeats nothing and ends only where no stored parent is left. |
| `Forest.MoveKeepsAcyclicIff` | backend/open_webui/models/folders.py:193-216 | Re-parenting a node keeps a forest acyclic if and only if the node is not on the climb from its new parent. |
| `Files.GlobToLikeIsTranslate` | backend/open_webui/models/files.py:283-289 | The five replacements in sequence equal a translation character by character. |
| `Files.TranslateParses` | backend/open_webui/models/files.py:283-289 | A translated pattern always parses as a LIKE pattern with escape `\`, into one token for each glob character. |
| `Files.TokensMeanGlob` | backend/open_webui/models/files.py:271-275 | LIKE matching of those tokens, in the sense of section 8.5 of ISO/IEC 9075-2:2003, equals matching of the glob under `*`, `?` and literals. |
| `Files.CompiledPatternMeansGlob` | backend/open_webui/models/files.py:268-289 | For every glob and file name, ILIKE on the compiled pattern is defined and decides the glob, both modulo case. |
| `Files.SearchSelectsMatches` | backend/open_webui/models/files.py:318-320 | The shortcut for the pattern `%` included, a file is selected exactly when its name matches the glob. |
| `Automations.AutomationTable.ClaimDue` | backend/open_webui/models/automations.py:294-300 | The loop sets last and next run of exactly the selected rows, and leaves all other rows alone. |
| `Automations.SelectionExists` | backend/open_webui/models/automations.py:266-280 | For every table, set of locked rows and limit there is an answer of the query: the earliest due unlocked rows in order, as many as the limit allows. |
| `Automations.ClaimEmptiesSelection` | backend/open_webui/models/automations.py:257-300 | A claim whose next runs are null or later takes its rows out of the due set and leaves the other due rows as they are. |
| `Automations.DrainTakesInOrder` | backend/open_webui/models/automations.py:257-300 | Repeated claims at one time take every row at most once, earliest first across all of them, and what they have not taken is what is still due. |
| `Automations.DrainEmpties` | backend/open_webui/models/automations.py:257-300 | As many claims as cover the due rows at `limit` each leave nothing due. |
| `Automations.RowIsAsLastClaimed` | backend/open_webui/models/automations.py:294-298 | In every run of any workers, a row that nobody edits or deletes has as its last run the time of the last claim committed for it, and as its next run the one that claim stored; other claims and rollbacks leave both alone. |
| `Automations.StepsTell` | backend/open_webui/models/automations.py:257-300 | The steps of a run tell exactly which workers hold a selection (made, and neither committed nor rolled back since), which rows there are, and the clock. |
| `Automations.NoOccurrenceIsClaimedTwice` | backend/open_webui/models/automations.py:276-300 | In every run of any number of workers that select unlocked due rows, and later commit or roll back, interleaved with edits and deletions of unlocked rows, no occurrence (row and due time) is claimed twice. A commit, however late, must store next runs after the occurrences it claims, and an edit of an active row, however late, one after all claimed for the row; the next two rows show that neither can be left out. |
| `Automations.EditIsSafeIff` | backend/open_webui/models/automations.py:209-246 | After an edit of an unlocked row no run claims an occurrence twice, or again, if and only if the row is then inactive or without a next run, or the next run lies after every occurrence claimed for it. |
| `Automations.CommitIsSafeIff` | backend/open_webui/utils/automations.py:97-106 | After a commit no run claims an occurrence twice, or again, if and only if each next run it stores lies after the occurrence it claims, which the code misses where a local hour occurs twice. |
| `Automations.NothingTwiceIff` | backend/open_webui/models/automations.py:276-300 | The same for any state: no run from it claims twice if and only if the next run of every active row lies after all occurrences claimed for the row. |
| `Automations.StaleRowIsClaimedTwice` | backend/open_webui/models/automations.py:266-300 | Otherwise two claims of the earliest due rows, by a worker on its own, claim one occurrence again. |
| `Automations.LateEditRunsTwice` | backend/open_webui/routers/automations.py:226-226 | An edit that computed the next run 5 and lands after the run at 5 was claimed leads to a second claim of it. |
| `Automations.WithoutLocksAnOccurrenceIsClaimedTwice` | backend/open_webui/models/automations.py:276-277 | Without the row locks, as on SQLite, two workers that select before either commits claim one occurrence twice. |
| `Tasks.RunsKeepMembersHashed` | backend/open_webui/tasks.py:49-67 | In every interleaving of saves, cleanups and stops by any processes, each member of an item's set is a hash key bound to that item. |
| `Tasks.ReverseInclusionBreaksIff` | backend/open_webui/tasks.py:57-67 | A single command makes the set lose a hashed task of its item if and only if it is the `delete` of a set that has members. |
| `Tasks.AlwaysHashedMembersIff` | backend/open_webui/tasks.py:57-67 | Over every run, each hash key bound to the item is in its set in all states if and only if no `delete` of the run hits a set with members. |
| `Tasks.QuietRunsKeepHashedMembers` | backend/open_webui/tasks.py:57-67 | In every interleaving without a save for the item between a cleanup's `scard` of zero and its `delete`, each hash key bound to the item stays in its set. |
| `Tasks.ActiveIffHashed` | backend/open_webui/tasks.py:198-201 | After every such run from an empty registry, an item has active tasks exactly when the hash holds an entry bound to it. |
| `Tasks.SaveInWindowIsLost` | backend/open_webui/tasks.py:63-65 | A run in which a save falls into that window and its item looks idle while the hash holds the task. |
| `Tasks.HashedIffSavedLast` | backend/open_webui/tasks.py:49-67 | In every interleaving a task is in the hash at the end if and only if it was saved after the last time one of its cleanups or stops removed it. |
| `Tasks.ListedIffSavedLast` | backend/open_webui/tasks.py:49-67 | It is in an item's set if and only if it was saved for the item after the last time it was removed from the set or the set was deleted. |
| `Tasks.LiveIff` | backend/open_webui/tasks.py:88-122 | It is in its owner's table if and only if it was created and not dropped since. |
| `Tasks.CommandedIff` | backend/open_webui/tasks.py:145-163 | A command to stop it is pending if and only if one was published for it after the last delivery. |
| `Tasks.CancelledIff` | backend/open_webui/tasks.py:35-39 | It is cancelled if and only if some delivery of a command to stop this very task found it in its owner's table. |
| `Tasks.LateSaveStays` | backend/open_webui/tasks.py:109-122 | A run in which a task ends and is cleaned up before its process saves it: nothing runs any more, and its chat looks active. |
| `TaskStops.StopItemTasksStopsAll` | backend/open_webui/tasks.py:182-195 | Whatever the other threads do meanwhile, short of creating a task for the item: when the loop over the snapshot has ended, the item's set is empty, no snapshotted task is in the hash, and each one still in its owner's table has been cancelled once the stop commands are delivered. |
| `TaskStops.NoOtherIsCancelled` | backend/open_webui/tasks.py:35-39 | The stop of an item cancels nothing else: a task outside the snapshot, with no command pending and no stop of its own, is cancelled at the end if and only if it was before. |
| `TaskStops.StopperCanMove` | backend/open_webui/tasks.py:145-163 | The loop is never stuck before its end. |
| `TaskStops.StopperAdvances` | backend/open_webui/tasks.py:182-195 | Every step of the loop lowers a bounded measure that no other thread raises: the loop ends. |
| `TaskStops.StopIsForever` | backend/open_webui/tasks.py:25-41 | A stop once announced stays announced, and a stopped task stays stopped, under every step of every thread. |
| `TaskTables.TaskTable.CreateTask` | backend/open_webui/tasks.py:104-124 | A new task is entered in both local tables, at the end of its item's list; every list stays exact. |
| `TaskTables.TaskTable.StopTask` | backend/open_webui/tasks.py:165-179 | A stop pops the task at once, reports whether it was there, and leaves the item's list as it is. |
| `TaskTables.TaskTable.CleanupTask` | backend/open_webui/tasks.py:88-101 | The done callback takes the task out of both tables, after a stop too, drops an empty list, leaves other items alone, and may run twice. |
| `TaskTables.ActiveIffNotCleanedUp` | backend/open_webui/tasks.py:198-201 | In every run of creations, ends, stops and cleanups, an item has active tasks exactly when one of its tasks has not been cleaned up. |
| `TaskTables.ActiveMeansRunningIff` | backend/open_webui/tasks.py:198-201 | In every such run that answer equals whether a task of the item still runs if and only if no task of it has ended, by itself or by a stop, and waits for its cleanup, or another still runs. |
| `TaskTables.ListIsInOrder` | backend/open_webui/tasks.py:88-117 | After every run an item's list holds its tasks in the order of their creation, without those cleaned up. |
| `TaskTables.OpsTell` | backend/open_webui/tasks.py:88-179 | A task is in the table if and only if it was created and neither stopped nor cleaned up since, and has ended if and only if it ended by itself or a stop found it there. |
| `TaskTables.StoppedTaskLooksActive` | backend/open_webui/tasks.py:165-179 | The only task of an item, created and then stopped, no longer runs and still makes its item look active. |
| `TaskTables.LiveLoopMisses` | backend/open_webui/tasks.py:182-195 | Without Redis the loop runs over the live list; when it has reached its end, the tasks neither stopped nor finished by themselves, those created meanwhile included, are exactly those that a cleanup slid past the iterator, or that were created out of its reach, and that have not finished since. |
| `TaskTables.LiveLoopStopsAllIff` | backend/open_webui/tasks.py:136-142 | So it stops every task that does not finish by itself if and only if no task that stays unfinished is slid past the iterator or created out of its reach. |
| `TaskTables.CleanupBehind` | backend/open_webui/tasks.py:98-101 | A cleanup behind the iterator makes the loop miss the next task. |
| `TaskTables.ThirdTaskIsSkipped` | backend/open_webui/tasks.py:190-193 | Three tasks, two stops and the cleanup of the first: the loop ends and has never stopped the third. |
| `TaskTables.ForeignStopEndsTheLoop` | backend/open_webui/tasks.py:191-193 | When another stop comes first for a task, the loop returns its failure and leaves the remaining tasks unstopped. |
| `Folders.BelowIsChildrensSubtrees` | backend/open_webui/models/folders.py:142-146 | What lies below a folder is exactly what lies at or below its children. |
| `Folders.BelowIffChain` | backend/open_webui/models/folders.py:141-169 | What lies below a folder, and is listed and deleted with it, are exactly the user's own folders from which parent links lead up to it over the user's own folders only. |
| `Folders.FolderTable.GetChildren` | backend/open_webui/models/folders.py:142-146 | With enough recursion depth the recursive listing returns every same-user descendant once, children before parents. |
| `Folders.FolderTable.GetChildrenFolders` | backend/open_webui/models/folders.py:135-156 | A folder that is not the user's gives no list; one in an acyclic forest gives the listing of all below it. |
| `Folders.FolderTable.DeleteChildren` | backend/open_webui/models/folders.py:303-312 | The recursive deletion returns a listing of what lies below, removes exactly that, and commits once for each folder in listing order. |
| `Folders.EveryCommitKeepsParents` | backend/open_webui/models/folders.py:303-316 | When children come before parents, no committed state leaves a folder of the user whose parent is deleted. |
| `Folders.FolderTable.DeleteFolder` | backend/open_webui/models/folders.py:289-320 | Returns the root first and then the listing of its descendants, removes exactly the root and its same-user descendants, with one commit each and no orphan after any; a folder of another user leaves everything unchanged. |
| `Folders.FolderTable.UpdateParent` | backend/open_webui/models/folders.py:193-216 | Changes the parent of the user's own folder only. |
| `Folders.MoveKeepsForestIff` | backend/open_webui/models/folders.py:193-216 | The move checks nothing: it keeps the user's forest acyclic if and only if the new parent is not the folder itself or below it. |
| `AccessGrants.AccessControlToGrants` | backend/open_webui/models/access_grants.py:80-144 | The loops give the grants of the dictionary: public read for none except on files, nothing for the empty one, and one grant for each listed principal. |
| `AccessGrants.GrantsToAccessControl` | backend/open_webui/models/access_grants.py:234-276 | The loop gives no dictionary for public read, and otherwise duplicate-free lists of exactly the granted principals. |
| `AccessGrants.RoundTripKeepsTriples` | backend/open_webui/models/access_grants.py:234-276 | Without public read, going to the dictionary and back gives every valid triple once and nothing else. |
| `AccessGrants.RoundTripKeepsTriplesIff` | backend/open_webui/models/access_grants.py:234-276 | The round trip keeps the set of valid triples if and only if public read is absent or, off files, is all there is; with it, only public read is left, and on a file nothing. |
| `AccessGrants.ConversionKeepsDecisionsIff` | backend/open_webui/models/access_grants.py:80-144 | The grants decide every request as the dictionary does, for all users and groups, if and only if the section does not list `*` as a user. |
| `AccessQueries.NormalizeAccessGrants` | backend/open_webui/models/access_grants.py:147-183 | Keeps exactly the valid grants sent, each triple once. |
| `AccessQueries.AccessGrantsTable.SetAccessGrants` | backend/open_webui/models/access_grants.py:402-437 | Afterwards the resource has exactly the valid grants sent, and every other resource what it had. |
| `AccessQueries.AccessGrantsTable.GrantAccess` | backend/open_webui/models/access_grants.py:285-322 | Adds one grant to one resource and nothing else, also when it is there already. |
| `AccessQueries.AccessGrantsTable.RevokeAccess` | backend/open_webui/models/access_grants.py:324-345 | Removes one grant of one resource and nothing else, and reports whether it was there. |
| `AccessQueries.AccessIsPublicOrDirect` | backend/open_webui/models/access_grants.py:499-557 | The single check, with the user's groups given, allows exactly what a public, a direct or a group grant gives. |
| `AccessQueries.BatchAgrees` | backend/open_webui/models/access_grants.py:559-613 | The batch check returns exactly the ids for which the single check allows access. |
| `AccessQueries.FilterAgrees` | backend/open_webui/models/access_grants.py:660-767 | For a named user the row filter keeps exactly the rows the user owns and those the single check allows. |
| `AccessQueries.FilterWithoutUser` | backend/open_webui/models/access_grants.py:660-767 | Without a user the filter keeps every row, or, when groups are given, exactly the rows with a grant to everyone or to one of them. |
| `AccessQueries.ReadOnlyAgrees` | backend/open_webui/models/access_grants.py:769-879 | The read-only filter keeps exactly the rows of others that carry a read grant for the user or a group, none for writing, and no public read grant. |
| `AccessQueries.ReadOnlyMeansNoWriteIff` | backend/open_webui/models/access_grants.py:778-779 | The documented promise, readable but not writable, holds for a kept row if and only if the row has no public write grant. |
| `AccessQueries.PublicWriteIsKeptAsReadOnly` | backend/open_webui/models/access_grants.py:772-779 | A row with a personal read grant and a public write grant is kept as read-only and is writable. |
| `AccessQueries.GetUsersWithAccess` | backend/open_webui/models/access_grants.py:615-658 | The loop over grants collects the named users and group members, or on a public resource all users that are not pending. |
| `AccessQueries.UsersWithAccessAgreesIff` | backend/open_webui/models/access_grants.py:615-658 | The listed users are exactly the existing users the single check allows, if and only if the resource is not public for the permission or no user is pending. |
| `Channels.ChannelTable.CollectUniqueUserIds` | backend/open_webui/models/channels.py:273-293 | The inviter, the listed users and the members of the listed groups, as a set. |
| `Channels.ChannelTable.CreateMemberships` | backend/open_webui/models/channels.py:295-329 | One new row for each of the users, under new row ids, and no other change. |
| `Channels.ChannelTable.InsertNewChannel` | backend/open_webui/models/channels.py:341-375 | A group or direct message channel starts with one row for its creator, each listed user and each member of the listed groups, and these are exactly its members; any other channel starts with none. |
| `Channels.ChannelTable.AddMembersToChannel` | backend/open_webui/models/channels.py:466-490 | Adds one row for each requested user who has none yet. |
| `Channels.ChannelTable.JoinChannel` | backend/open_webui/models/channels.py:526-562 | Adds a row for the user unless there is one. |
| `Channels.ChannelTable.RemoveMembersFromChannel` | backend/open_webui/models/channels.py:492-506 | Removes exactly the rows of the named users in the channel and returns their number. |
| `Channels.ChannelTable.GetDmChannelByUserIds` | backend/open_webui/models/channels.py:430-464 | Returns a direct message channel that passes the two counts, and none only if no channel does. |
| `Channels.MembersAfter` | backend/open_webui/models/channels.py:273-375 | After each operation, who is a member: of a new group or direct message channel exactly the creator, the listed users and the members of the listed groups that exist; after an addition those before and these; after a join or removal those before with or without the named users; of every other channel those before. |
| `Channels.NewDmIsFoundIff` | backend/open_webui/routers/channels.py:315-330 | A channel made by a user with others, without groups, is found by the lookup of that user and the others if and only if it is a direct message channel. |
| `Channels.NewChannelKeepsOthers` | backend/open_webui/models/channels.py:341-375 | Making a channel changes no lookup of another. |
| `Channels.RunsKeepUnique` | backend/open_webui/models/channels.py:466-490 | In every run of creations, additions, joins and removals, one at a time, there is at most one row for each channel and user. |
| `Channels.QueryIsExactIff` | backend/open_webui/models/channels.py:442-453 | The two counts mean equality of member set and requested set, for all requests, if and only if the channel has no duplicate row; for the empty request they find nothing. |
| `Channels.DmQueryFindsMembers` | backend/open_webui/models/channels.py:430-464 | In every state of every such run the query matches exactly the direct message channels whose member set is the requested, non-empty set. |
| `Config.AppConfig.GetConfigValue` | backend/open_webui/config.py:161-169 | The loop reads the value at the path, null when it is missing, and fails when a key is looked for in a value that cannot hold it. |
| `Config.AppConfig.WriteValue` | backend/open_webui/config.py:254-260 | The loop sets the value at the path, creating missing objects, and changes nothing when something on the way is no object. |
| `Config.AppConfig.Save` | backend/open_webui/config.py:251-262 | The immediate save stores the changed document, and succeeds exactly when every stored proper prefix of the path is an object. |
| `Config.AppConfig.SetAttr` | backend/open_webui/config.py:305-318 | Inside an event loop an assignment sets the value and leaves one task to persist it. |
| `Config.AppConfig.StartPersist` | backend/open_webui/config.py:264-273 | A task writes the value its setting has when the task runs; a failing write ends it without a commit. |
| `Config.AppConfig.FinishPersist` | backend/open_webui/config.py:274-275 | The commit stores the document as it is at the commit. |
| `Config.PutSucceedsIff` | backend/open_webui/config.py:254-260 | A save fails exactly when something else than an object is stored at a proper prefix of its path. |
| `Config.GetAfterPut` | backend/open_webui/config.py:161-169 | After a save, reading the path, or any path below it, reads the saved value. |
| `Config.GetUnrelated` | backend/open_webui/config.py:251-260 | A save leaves the reading of every path that is neither a prefix nor an extension of its own. |
| `Config.GetIsFind` | backend/open_webui/config.py:161-169 | A read gives what is stored at the path; where the path leaves the document it gives null or fails as the last value stored on it and the next key say: null for an object without the key and for a text or list without it, failure for any other value. |
| `Config.PutsCommute` | backend/open_webui/config.py:254-260 | Saves to unrelated paths give the same document in either order. |
| `Config.LastPutWins` | backend/open_webui/config.py:254-260 | A later save to the same path gives the document it would have given alone. |
| `Config.EveryOrderPersists` | backend/open_webui/config.py:305-329 | With prefix-free paths, every interleaving of assignments, task writes and commits that leaves no task pending ends with the database holding the last assigned value of every written setting. |
| `Config.StoredIsLastCommitted` | backend/open_webui/config.py:264-274 | In every run the database holds the document as it was at the last commit; values written into the document alone are not stored yet. |
| `Config.OtherSettingsAreKept` | backend/open_webui/config.py:264-275 | In every such run, every path unrelated to the written settings reads as at the start. |
| `Config.ClashingPathsLoseAValue` | backend/open_webui/config.py:264-275 | When one path is a prefix of another, some order of two persist tasks ends with a value lost. |
| `Config.OrderNeverMattersIff` | backend/open_webui/config.py:305-329 | The order of persist tasks never matters if and only if the registered paths are prefix-free. |
| `Config.PersistingEnds` | backend/open_webui/config.py:324-329 | Without new assignments there are at most two steps for each pending task. |
| `Config.SomeTaskCanMove` | backend/open_webui/config.py:324-329 | While tasks are pending, one of them can move. |
| `Tags.TagStore.EnsureTagsExist` | backend/open_webui/models/tags.py:125-138 | Creates the missing rows, and fails as a whole, without any row, exactly when a missing tag is named twice. |
| `Tags.TagStore.DeleteOrphanTags` | backend/open_webui/models/chats.py:1437-1460 | Removes exactly the rows of those named tags that at most `threshold` live chats of the user carry. |
| `Tags.TagStore.UpdateChatTags` | backend/open_webui/models/chats.py:429-452 | The chat's list is committed first, then the new rows, which may fail, then the collected ones. |
| `Tags.TagStore.AddChatTag` | backend/open_webui/models/chats.py:1395-1412 | The row is made first; the chat's list becomes the old one and the tag, without duplicates. |
| `Tags.TagStore.ImportChat` | backend/open_webui/models/chats.py:335-366 | An import or a clone stores a live chat with the tags it brings and makes no row for them. |
| `Tags.TagStore.SetArchivedOfAll` | backend/open_webui/models/chats.py:680-734 | Archiving or bringing back all chats of a user touches no row. |
| `Tags.TagStore.DeleteChatTag` | backend/open_webui/routers/chats.py:1555-1560 | The tag leaves the list, and its row goes when no live chat of the user carries it. |
| `Tags.TagStore.DeleteAllTags` | backend/open_webui/routers/chats.py:1580-1584 | The list is emptied and its tags' rows are collected. |
| `Tags.TagStore.ToggleArchive` | backend/open_webui/routers/chats.py:1298-1309 | Archiving collects the rows of the chat's tags; bringing a chat back creates the missing ones. |
| `Tags.TagStore.DeleteChat` | backend/open_webui/routers/chats.py:1103-1137 | The rows are collected with threshold one while the chat still counts, then the chat goes. |
| `Tags.UpdateCollectsExactly` | backend/open_webui/models/chats.py:447-450 | After the owner's update a removed tag has a row if and only if a live chat of the user still carries it. |
| `Tags.AddAndUpdateMakeRows` | backend/open_webui/models/chats.py:1395-1412 | An addition makes the row of its tag, whatever chat it names, and touches no other; an update by any user makes the rows of all its tags, or none when a missing one is named twice, and takes exactly those of its old tags that no live chat of that user carries any more. |
| `Tags.RemoveCollectsExactly` | backend/open_webui/routers/chats.py:1555-1560 | A tag taken off a chat leaves its list, keeps its row if and only if a live chat of the user still carries it, and no other row changes. |
| `Tags.ClearAndArchiveCollectExactly` | backend/open_webui/routers/chats.py:1298-1309 | When a chat is archived or all its tags are taken off, exactly the rows of its tags go that no live chat of the user carries any more. |
| `Tags.DeleteCollectsExactly` | backend/open_webui/routers/chats.py:1103-1137 | A deletion removes the chat and exactly the rows of its tags that at most one live chat of the user carried before it. |
| `Tags.UnarchiveMakesRows` | backend/open_webui/routers/chats.py:1298-1309 | Bringing a chat back makes the missing rows of its tags, all of them, or none when one of them is listed twice. |
| `Tags.TagsAfter` | backend/open_webui/models/chats.py:429-452 | After any operation by any user each chat lists exactly what it listed, with the names the operation adds or without those it takes off, as slugs; an update lists all its names but `none`. |
| `Tags.ArchivedIff` | backend/open_webui/models/chats.py:659-734 | In every run a chat is archived if and only if its owner's toggles and bulk changes since it was made say so. |
| `Tags.UpdateTouchesItsTagsOnly` | backend/open_webui/models/chats.py:429-452 | Rows of other users and of tags that are neither old nor new stay as they were. |
| `Tags.CoveredKeptIff` | backend/open_webui/models/chats.py:429-452 | From a state in which each tag on a live chat has its row, an operation leads to such a state if and only if it is safe: no missing tag is named twice for a live chat or brought in by an import, a clone, a bulk unarchiving or another user, and no deleted chat that does not count itself shares a tag with exactly one live chat. |
| `Tags.ForeignUpdateCoversIff` | backend/open_webui/utils/middleware.py:3249-3249 | An update by another user than the owner, as after an administrator's turn, keeps every live tag covered if and only if the chat is archived or every new tag has a row of the owner. |
| `Tags.SafeRunsStayCovered` | backend/open_webui/models/chats.py:1437-1460 | In every run of safe operations, imports, archiving and deletion included, each tag on a live chat has its row. |
| `Tags.FirstUnsafeOpUncovers` | backend/open_webui/models/chats.py:1437-1460 | The first unsafe operation of a run leaves a live chat with a tag that has no row. |
| `Tags.SameSlugTwiceUncovers` | backend/open_webui/models/chats.py:434-444 | Updating a live chat with `A b` and `a B`, when their common tag is missing, leaves it without a row. |
| `Tags.DeletingArchivedChatUncovers` | backend/open_webui/models/chats.py:1449-1450 | Deleting an archived chat removes the row of a tag that one live chat still carries. |
| `Calendars.CalendarTable.GetOrCreateDefaults` | backend/open_webui/models/calendar.py:251-274 | A default is created exactly for a user without calendars. |
| `Calendars.CalendarTable.InsertNewCalendar` | backend/open_webui/models/calendar.py:310-331 | A new calendar is stored under its id and is no default; nothing else changes. |
| `Calendars.CalendarTable.SetDefaultCalendar` | backend/open_webui/models/calendar.py:357-376 | The user's own calendar becomes the only default; for any other the committed state is unchanged, since the clearing update is dropped with the session. |
| `Calendars.CalendarTable.DeleteCalendar` | backend/open_webui/models/calendar.py:378-407 | Removes a calendar exactly when it is no default. |
| `Calendars.OneDefaultForEver` | backend/open_webui/models/calendar.py:251-407 | In every committed state of every run each user has at most one default, and a user who has one keeps having one. |
| `Calendars.DefaultIsLastMade` | backend/open_webui/models/calendar.py:251-376 | That default is the calendar that was made or chosen as default last. |
| `Calendars.StaysUntilDeleted` | backend/open_webui/models/calendar.py:378-407 | A calendar is gone if and only if some step deleted it while it was no default, and until then keeps its owner: deleting or choosing another one does not touch it. |
| `Calendars.DefaultExistsIff` | backend/open_webui/models/calendar.py:251-376 | In every committed state of every run a user has a default if and only if one was made before: by asking for the default ones with no calendar yet, or by choosing an own calendar. |
| `Calendars.EarlyCalendarLeavesNoDefault` | backend/open_webui/models/calendar.py:251-327 | A user who adds a calendar and then asks for the default ones has no default. |

## Left out

Weaker than the code, or under an assumption:

- ChatRuns.RunsKeepStoresInAgreement: writes to the message table succeed, chat ids have the length of UUIDs, and patches do not use the key `parent_id`; what holds when row writes fail is in `ChatFailures`.
- ChatFailures.FailuresAreHealed: the reads that heal succeed in writing; patches do not use the key `parent_id`, and every message of the document has a role.
- Chats.ChatTable.UpsertMessageToChat: the document always has `history.messages`; the code raises an error when it is missing.
- Chats.ChatTable.GetMessagesMap: concurrent requests to one chat are not interleaved; each method is one step.
- ChatMessages.ChatMessageTable.GetMessagesMap: which of several rows that strip to one id is kept is left open; message content, files, sources, errors and timestamps are left out of rows and messages.
- SelfHealing.MessageList: each message's `id` equals its key in the map, and no message is an empty dictionary.
- SelfHealing.HealedWalksAgree: rows come from the document with its parents; other rows keep their own links.
- Spending.ExactCharges: the recording of spending itself is not part of this model, only its trigger; token counts are natural numbers.
- Files.CompiledPatternMeansGlob: case folding is any per-character function that keeps the special characters; foldings that change the length of a text are not covered.
- Automations.AutomationTable.ClaimDue: the next run is a parameter, null or later than the claim in the theorems on draining; recurrence rules and time zones are left out.
- Tasks.RunsKeepMembersHashed: each pipeline and each Redis command is atomic, and tasks are stopped by ids that were created.
- TaskStops.StopItemTasksStopsAll: every owner stays subscribed to the channel of stop commands; a lost message is not modelled.
- TaskTables.LiveLoopStopsAllIff: an exception other than the cancellation that the awaited task raises, and which ends the loop, is not modelled.
- Folders.FolderTable.DeleteFolder: for a folder that lies on a cycle of parent links the code runs into the recursion limit and returns no ids after a partial deletion; nothing is claimed for it beyond the refusal of other users' folders.
- AccessQueries.FilterAgrees: the group ids given are the user's.
- AccessQueries.UsersWithAccessAgreesIff: group members are users and groups list their members on both sides; the internals of groups and users are not part of this model.
- AccessGrants.ConversionKeepsDecisionsIff: decisions are those on read and write; the owner's own access is decided elsewhere.
- Channels.RunsKeepUnique: one operation at a time; two overlapping additions of one user can leave two rows, and `Channels.QueryIsExactIff` says what the query does then. Leaving and deactivating change no row's key and are left out.
- Config.AppConfig.WriteValue: the source changes nested dictionaries in place; here the objects on the path are put back into each other, so sharing of a setting's dictionary with the document is not captured.
- Config.EveryOrderPersists: one process, snapshot and commit as one step; bulk imports (`save_config`, `update`) while tasks are pending, and the copies in Redis, are left out. Paths are taken as split at their dots.
- Tags.TagStore.EnsureTagsExist: letters are lowered as in ASCII. Concurrent tag changes and deletions of whole accounts are left out, and so are the routers that drop a tag's row after an empty search or listing.
- Calendars.CalendarTable.SetDefaultCalendar: sessions shared between requests are left out; its only caller passes none.
- Calendars.CalendarTable.DeleteCalendar: events, attendees and grants of the calendar are left out.

Not modelled:

- `search_folders_by_names`, folder names and their normalization: easy beside subtree deletion.
- Unique-constraint failures on message ids of migrated chats, and the migration itself.
- Message status updates, sharing, pinning, chat files, search, pagination and SQL dialects.
- The remaining methods of the tables above that read or write a single row.
- Model calls, retrieval, authentication, billing tables, document generators and bots: input and output without state shared with the above.
