# A verified model of the myx-im server

myx-im is a small instant-messaging server: WebSocket handlers over SQL tables, one shared map of
online users, and a browser client that pages through history. This project models the parts of it
whose correctness depends on more than one function at a time and proves what those parts are for.

Verify everything with `dafny verify dfyconfig.toml`.

## What is modelled

| file | models |
|---|---|
| `Base.dfy` | ids, rows with a BIGSERIAL key and a unique `client_msg_id`, filtering of ordered tables |
| `Schema.dfy` | the tables of `init.sql` as a value, its keys, references and cascades, and every statement of `src/dao.rs` as one atomic step |
| `Dao.dfy` | the table-changing operations of `src/dao.rs` as a class over mutable tables |
| `Receipts.dfy` | group read receipts: the five statements of `mark_group_read_and_get_delta` interleaved with everything else |
| `Deltas.dfy` | what the returned deltas add up to; when "read by n of m" stays within m |
| `GroupSync.dfy` | unread group messages: the reconnect page, the badge query, and reading a group |
| `Idempotence.dfy` | request traces with and without `client_msg_id` |
| `SeenReports.dfy` | mark-and-report of `seen`, and that an acknowledged private message is never lost |
| `Deletion.dfy` | the ordered statements of account deletion against references that do not all cascade |
| `Interference.dfy` | account deletion while other handlers keep running: when it is refused, and when it leaves something behind |
| `Conversations.dfy` | `SELECT DISTINCT ON (peer) ... ORDER BY peer, id DESC` |
| `Pagination.dfy` | the page query together with the client loaders of `chat.html` |
| `OnlineUsers.dfy` | the registry of online users as a value |
| `State.dfy` | `src/state.rs`: the map over mutable channels and alive flags |
| `Connections.dfy` | reader, sync and forwarding tasks of unboundedly many connections, interleaved |
| `Router.dfy` | the commands that sequence database operations with pushes |
| `Server.dfy` | the database and the connections as one interleaved system: who is told that a message was seen, and that an acknowledged private message reaches its recipient's next connection |

Runs are sequences of events; every step is a total function (an event that is not enabled changes
nothing), and the nondeterminism of scheduling, failures and fresh UUIDs is in the events. History
that the code does not store - the highest cursor a user ever had, the calls ever made, the frames
ever enqueued - is kept in the state next to what it does store.

Each SQL statement is atomic, and an INSERT allocates its id in the same step, so ids are issued in
order; refused and conflicting inserts consume ids too. A conflicting INSERT and the lookup of the
row it conflicted with are one step. The UUIDs of new users and groups are taken to be fresh. What
the methods of `Dao.dfy` and `Router.dfy` do is stated without interference; what interference does
to them is the subject of `Receipts.dfy`, `Interference.dfy`, `Connections.dfy` and `Server.dfy`.

## Where the code does less than it promises

- A failed increment after the cursor has moved is never repaired (`FailureUndercounts`). The counts
  stay exact up to the lost increments (`CountsAgreeWithCursors`), and once nothing is in flight a
  count is exact if and only if no failed increment covered the message (`ExactWhenQuiet`).
- Overlapping calls of one viewer (the history request and the WebSocket command share the function)
  can count that viewer twice (`OverlapCountsTwice`). With nothing pending and nothing lost, the count
  is exact if and only if no upsert ever found the stored cursor already past the message although
  the cursor its call had read was not (`ExactIffNeverPassedAgain`). Without failures it is never too
  low (`NeverUndercounts`).
- `read_count` may exceed the displayed total: the history request does not ask for membership
  (`OutsiderExceedsTotal`), and readers may leave. It stays within the total if and only if the readers
  who are not members now are fewer than the members who have not read the message, its sender
  included, plus the readers not counted (`ReadWithinTotalIff`); `LeavingKeepsBound` says what that
  means for the first departure from a group that has only grown.
- `client_msg_id` is unique across all senders, so an acknowledged message is stored as sent if and
  only if the first request with its id said the same (`AcknowledgedAsSent`).
- A sender is told that a message was seen by the one handler whose UPDATE marked it, and not at the
  moment of the UPDATE: if and only if that handler's notice became due (ids were marked and the page
  query, if there is one, did not fail), its send then found the entry alive, and finished with the
  receiver still open (`SenderToldIff`, `TellingWasPrepared`). When nothing runs between the halves of
  the send, that is whether the sender can be delivered to at the send (`SendTellsIffDeliverable`),
  whatever held at the UPDATE (`ToldThoughOfflineAtUpdate`, `NotToldThoughOnlineAtUpdate`). Nobody is
  told later, since no second UPDATE returns the id.
- doc/bugfix.md says a dead connection is caught immediately. A send that has passed the alive check
  still delivers when the flag falls before its channel send (`LateDeliveryHappens`). A connection
  whose flag has fallen gains a push if and only if such a send finishes and finds the receiver open
  (`DeadConnectionGetsPushIff`).
- The reconnect query for group messages is one page of 200 over all groups and does not ask for
  membership, the badge query does. So unread messages of groups the user is not in can keep a
  member's own off the page (`ForeignGroupsTakeRoom`, and `CrowdedOut` for a database in which they
  do); `BadgeMatchesSyncIff` says exactly when the two queries agree. The badge query is called by no
  handler yet: chat.html counts unread messages itself.
- Account deletion is a sequence of statements, not a transaction. Its last statement is accepted if
  and only if what the user posted after statement 4, and every group the user created after the
  owned groups were looked up, has gone again (`DeletionAcceptedIff`; it does fail in
  `LatePostRefuses` and `LateGroupRefuses`). Private messages have no references: after a successful
  deletion the user is still named exactly where one was written after the messages had been cleared
  (`ErasedIffNoLateChat`; it happens in `LateChatSurvives`). The table of private read cursors has
  none either (`ErasedIff`, `LateReadCursorSurvives`), but its only writer, `upsert_read_cursor`, is
  called by no handler.
- `create_group` inserts the group and its first member separately, so a failure in between leaves a
  group whose owner is no member (`Dao.Database.CreateGroup`).

Parts of doc/api.md and doc/bugfix.md name functions that no longer exist; the model follows src.

## Model

| member | source | states |
|---|---|---|
| Schema.ExecValid | init.sql:1-64 | any statement, accepted or refused, in any order and with its cascades, keeps every primary key, unique key and reference |
| Schema.FindClient | src/dao.rs:38-42 | the lookup misses exactly when no row carries the client id, and a hit is the id of such a row |
| Schema.MaxIdExact | src/dao.rs:537-547 | the latest id of a group is the id of a message of that group and no message of it is newer; absent exactly without messages |
| Schema.MembersExact | src/dao.rs:701-714 | the members counted are exactly the users with a membership row |
| Receipts.IncrementCounts | src/dao.rs:566-580 | the increment raises the count of exactly the messages its own range covers, keeping count = number of applied ranges covering the message |
| Receipts.UpsertLive | src/dao.rs:741-763 | GREATEST moves the stored cursor of a live user and group to the highest value it ever had |
| Receipts.UpsertCovers | src/dao.rs:550-564 | a cursor never passes a position that is outside the range of every call that moved it, even if the call read a stale cursor |
| Receipts.OtherPosts | src/dao.rs:621-683 | no other statement changes a read count: rows stay, go, or arrive with count 0 and the next id |
| Receipts.OtherCursor | init.sql:52-57 | joins, leaves, sends and deletions never move the cursor of a user and group that survive them |
| Receipts.StepInv | src/dao.rs:530-619 | every step of every interleaving keeps ids below the sequence, live cursors at their history, ranges covering cursors, and counts equal to applied ranges |
| Receipts.RunInv | src/dao.rs:530-619 | that invariant holds after any event sequence from the empty database |
| Receipts.AdvanceStrict | src/dao.rs:550-564 | with one call per viewer and group in flight, a cursor read is still current at the upsert and the ranges of one viewer never overlap |
| Receipts.RunStrict | src/dao.rs:530-619 | the same after any such run, with deletions, failures and other viewers in between |
| Receipts.ReachedAreViewers | src/dao.rs:550-564 | the users whose cursor ever reached a message are exactly the viewers of the calls covering it |
| Receipts.CountsAgreeWithCursors | src/dao.rs:530-619 | read_count + cursors moved but not counted + failed increments = other users whose cursor ever reached the message, at every moment of every such run |
| Receipts.ExactWhenQuiet | src/dao.rs:566-580 | with nothing in flight the count is exact if and only if no failed increment covered the message |
| Receipts.CreditsExactIffCallsApart | src/dao.rs:530-619 | in unrestricted runs count + pending + lost equals the readers if and only if no viewer has two calls covering the message |
| Receipts.OverlapIffPassedAgain | src/dao.rs:537-564 | two calls of one viewer cover a message if and only if some upsert found the stored cursor already past it although its call had read an older one |
| Receipts.ExactIffNeverPassedAgain | src/router.rs:981-985 | in unrestricted runs, with nothing pending or lost, read_count is exact if and only if that never happened |
| Receipts.OverlapCountsTwice | src/dao.rs:550-580 | a run from the empty database in which two calls of one viewer both finish and read_count is 2 with one reader |
| Receipts.FailureUndercounts | src/dao.rs:566-580 | a run from the empty database with one failed increment: one reader, read_count 0 for good |
| Receipts.OutsiderExceedsTotal | src/router.rs:981-985 | a run without departures, failures or overlap in which read_count is 1 and the total 0 |
| Receipts.NeverUndercounts | src/dao.rs:530-619 | in unrestricted runs the count is never below the readers by more than what is pending or lost, and not at all once every call has finished without a failed increment |
| Receipts.ReachedIsStoredCursor | src/dao.rs:550-561 | for users that still exist, "ever reached" is what the stored cursor says now |
| Receipts.FiveStatementsMarkRead | src/dao.rs:530-619 | the five statements back to back give the combined effect and answer, early returns and the missing-row error included |
| Receipts.UninterruptedCall | src/dao.rs:530-619 | a call of the protocol that nothing interleaves with is those five statements |
| Deltas.FetchedItem | src/dao.rs:586-618 | each item of statement 5 carries the id, sender and present count of a row of that group in the range, by somebody else, with the present total |
| Deltas.FetchOk | src/dao.rs:586-602 | statement 5 returns ascending ids in the range, only of rows of that group with the sender it names, none the viewer's own, and misses no live message it covers |
| Deltas.NothingToCount | src/dao.rs:582-584 | the empty answer on zero affected rows misses nothing |
| Deltas.RunDeltas | src/dao.rs:586-618 | in every later state every answer is still complete for the messages that remain, and still names their group and sender |
| Deltas.DeltasAreDisjoint | src/dao.rs:586-618 | in runs with one call per viewer and group in flight, two deltas of one viewer share no message; each is ascending and free of own messages |
| Deltas.DeltasCoverWhatWasRead | src/dao.rs:550-618 | a live message is in some delta of the viewer for the group if and only if it is of that group, of somebody else, and at or below the viewer's cursor, across leave and rejoin |
| Deltas.ReadNeverExceedsTotal | src/router.rs:402-416 | while members read and post and nobody leaves or is deleted, read_count <= members - 1 |
| Deltas.ReadWithinTotalIff | src/dao.rs:586-592 | read_count <= total if and only if the readers outside the group are fewer than the members who have not read the message plus the readers not counted |
| Deltas.LeavingKeepsBound | src/dao.rs:369-383 | the first departure from a growing group keeps read_count within the total if and only if a member other than the sender has a cursor below the message or some reader is not counted |
| GroupSync.GroupPageExact | src/dao.rs:765-802 | a group message is on the reconnect page if and only if it is past the cursor and fewer than limit older unread messages of any group are |
| GroupSync.GroupPageAscends | src/dao.rs:788-789 | the group page is in id order without repetition and within its limit |
| GroupSync.UnseenInExact | src/dao.rs:503-525 | unread in a group are exactly its messages past the user's cursor; the badge counts them for members and nothing for others |
| GroupSync.ForeignGroupsTakeRoom | src/dao.rs:785-789 | those older messages are counted in the user's groups and in groups the user is not in alike |
| GroupSync.BadgeMatchesSyncIff | src/dao.rs:503-525 | badge and page agree on a group if and only if nothing is unread, or the last unread message of a member's group is on the page, or not even the first one of a foreign group is |
| GroupSync.CrowdedOut | src/router.rs:137 | a valid database in which 200 foreign messages keep a member's only unread one off the page while the badge query counts it |
| GroupSync.ReadingClearsUnread | src/dao.rs:765-802 | reading a group empties the user's unread messages of that group and leaves those of every other group as they were |
| Idempotence.TraceValid | init.sql:15 | after any trace ids ascend, client ids are unique, and every stored client id was requested |
| Idempotence.AnswerIsStored | src/dao.rs:16-46 | every answered id is and stays the key of a row with the request's client id |
| Idempotence.SameAnswerIffSameMessage | src/dao.rs:8-67 | two requests get the same id if and only if they carry the same client id; a request without one always gets a fresh id |
| Idempotence.FirstContentWins | src/dao.rs:621-683 | the row behind an answer keeps the content of the first request with that client id |
| Idempotence.AcknowledgedAsSent | src/dao.rs:35-46 | an acknowledged request is stored as sent if and only if the first request with its client id had the same body |
| Idempotence.RowsCountMessages | src/dao.rs:8-67 | rows stored = distinct client ids + requests without one |
| SeenReports.UnseenIdsExact | src/dao.rs:207-222 | RETURNING gives, ascending and once each, the ids of exactly the rows with that sender, that recipient and seen false |
| SeenReports.MarkSeenExact | src/dao.rs:207-222 | row by row: every message from that sender to that recipient is seen afterwards, and no other row or field changes |
| SeenReports.StepInv | src/dao.rs:112-131 | every interleaved statement keeps seen = reported, reports disjoint, and senders and recipients right |
| SeenReports.SeenIdsReportedOnce | src/router.rs:236-251 | over any run no id is returned twice, live messages are seen exactly when some update returned them, and the notified peer and caller are sender and recipient |
| SeenReports.RunKeeps | src/dao.rs:201-223 | a message survives every run that deletes neither party, unchanged except that seen may rise and never falls |
| SeenReports.SyncPageExact | src/dao.rs:165-197 | a message is in the reconnect page if and only if it is unseen and fewer than limit older ones are |
| SeenReports.SyncPageAscends | src/dao.rs:183-184 | the page is in id order without repetition and within its limit |
| SeenReports.AckedMessageNeverLost | src/router.rs:333-383 | a persisted message is in every later state either seen and returned by exactly one update, or in the recipient's next page if fewer than 200 older ones are unseen |
| Deletion.OneMoreGroup | src/dao.rs:889-898 | deleting owned groups one by one, in any order, deletes the set of them with their cascades |
| Deletion.LastStatementAccepted | src/dao.rs:862-931 | after the earlier statements no non-cascading reference to the user is left, so the last one is accepted |
| Deletion.OrderedDeletionIsPurge | src/dao.rs:862-931 | the ordered statements together are exactly the declarative purge |
| Deletion.PurgeErasesExactly | src/dao.rs:862-931 | nothing names the user or an owned group afterwards, the schema holds, and every other row is still there unchanged, read counts included |
| Interference.RunInv | src/dao.rs:862-931 | whatever runs between the statements, a table the deletion has passed names the user only in rows written since |
| Interference.DeletionAcceptedIff | src/dao.rs:919-926 | the last statement is accepted if and only if no post sent after statement 4 and no group created after the lookup remains |
| Interference.ErasedIff | init.sql:8-24 | after success, at any later moment, the user is named if and only if a private message or read cursor written after its own delete remains |
| Interference.UndisturbedDeletionIsPurge | src/dao.rs:862-931 | without interference the steps, in any order of the owned groups, are never refused and end in the purge |
| Interference.LatePostRefuses | init.sql:44 | a run in which a group message sent late gets the last statement refused |
| Interference.LateGroupRefuses | init.sql:29 | a run in which a group created late does |
| Interference.LateChatSurvives | init.sql:8-17 | a run in which a late private message outlives the deleted user |
| Interference.ErasedIffNoLateChat | src/dao.rs:862-931 | with no writer of private read cursors, as in this server, the user is named after success if and only if a late private message remains |
| Interference.LateReadCursorSurvives | src/dao.rs:715-739 | what `upsert_read_cursor`, which no handler calls, would do: a cursor written late outlives the user |
| Conversations.Sort | src/dao.rs:822 | ORDER BY: ordered by peer and then descending id, with the same members |
| Conversations.SortPermutes | src/dao.rs:822 | ordering is a permutation |
| Conversations.FirstIsLatest | src/dao.rs:810-822 | the first row of each peer's run is the row with that peer's largest id |
| Conversations.ConversationsAreLatest | src/dao.rs:804-834 | one item per existing peer with a message from or to the user, ascending by peer, with the peer's name and the content, type and id of the last message between the two |
| Conversations.NewMessageUpdatesOneItem | src/dao.rs:804-834 | one more message makes exactly the item of its pair show that message, for both parties and for nobody else |
| Pagination.PageMeaning | src/dao.rs:133-149 | pages are newest first, below the cursor, at most 100 (default 50), and leave out only older rows; refused only for negative limits |
| Pagination.LabelMeaning | chat.html:1722-1738 | a served page shows the failure label never, "no earlier" exactly when the array does not grow, "all loaded" when it grows by less than a page, "load earlier" when by a whole one |
| Pagination.HistoryLoader.LoadHistory | chat.html:1708-1741 | the unshift loop prepends the page in ascending order; the failure label means a failed request, "all loaded" that the array grew by less than a page |
| Pagination.OlderPage | chat.html:1710-1718 | a load at the first loaded id prepends exactly the page before it, whatever newer messages arrived |
| Pagination.SessionIsSuffix | chat.html:1708-1741 | after k loads the array is the ascending newest 40k of the conversation as of the first load, no gap or duplicate; the label is "no earlier" when 40(k-1) already held all of it, "all loaded" when 40k does, else "load earlier" |
| Pagination.SessionCompletes | chat.html:1732-1738 | after floor(n / 40) + 1 loads the whole snapshot is shown, labelled "no earlier" if 40 divides n and "all loaded" otherwise |
| Pagination.EmptyLoadsDoNothing | chat.html:1727-1731 | a load of an empty conversation changes nothing and the next load is a first load |
| Pagination.ChatViewExact | src/dao.rs:133-149 | the conversation of a pair is exactly the messages between the two, in id order, the same for both |
| Pagination.GroupJoinDropsNothing | src/dao.rs:482-483 | the join with im_users drops no group message |
| Pagination.AfterExtends | src/dao.rs:133-155 | statements without deletion only append to a conversation; seen-marks and read counts change no id in it |
| Pagination.ChatHistoryLoads | src/dao.rs:112-163 | private history end to end, with sends and seen-marks between the loads |
| Pagination.GroupHistoryLoads | src/dao.rs:462-500 | group history end to end, with read receipts between the loads |
| OnlineUsers.SendMeaning | src/state.rs:50-72 | true: appended to exactly the newest connection's queue; false: no queue changed, no entry left, and the removed entry's channel dead with one handle less |
| OnlineUsers.InsertMeaning | src/state.rs:26-39 | the new channel is empty, open and alive; the replaced one loses a handle and, if open, gains the one logged-in-elsewhere message; no other changes |
| OnlineUsers.RemoveMeaning | src/state.rs:74-80 | the entry and its handle go, nothing else changes |
| OnlineUsers.NewestIsLast | src/state.rs:38 | a new entry points at the user's newest connection |
| State.Connection.Send | src/state.rs:83-87 | fails without effect exactly when the receiver is dropped |
| State.AppState.InsertOnlineUser | src/state.rs:26-39 | a replaced entry gets the kick frame if it can, loses the map's handle, and the new connection takes its place; other connections are untouched |
| State.AppState.SendToUser | src/state.rs:50-72 | delivers exactly when the entry is alive and open, and is the registry send with its lazy cleanup |
| State.AppState.RemoveOnlineUser | src/state.rs:74-80 | only that user's entry and the map's handle go |
| Connections.TaskInv | src/router.rs:86-197 | every task step keeps the sender count exact, the alive and receiver bits in line with the tasks, and frames in order |
| Connections.RunInv | src/router.rs:86-197 | those facts in every reachable state of any number of connections |
| Connections.TaskMeaning | src/router.rs:86-197 | a reply is enqueued, a leaving reader and a finished sync task drop their handles, and the rows of each query are pushed next, one by one |
| Connections.NewestOwnsEntry | src/state.rs:26-39 | an entry belongs to the most recently inserted connection of its user |
| Connections.EntryChangesOnlyBy | src/router.rs:186-195 | exactly which steps change a user's entry; no step of any connection's tasks does |
| Connections.DeadConnectionGetsNoPush | src/state.rs:58-63 | after alive = false, no send that checks the flag later ever delivers to the connection |
| Connections.DeadStepIff | src/state.rs:58-65 | a step adds a push to a dead connection if and only if it finishes a send past the check with the receiver open, and it is that send's |
| Connections.DeadConnectionGetsPushIff | src/state.rs:58-65 | over any run a dead connection gains a push if and only if such a step occurs |
| Connections.SendPastTheCheckStillDelivers | src/state.rs:58-65 | the one exception: a send already past the check with the receiver still open |
| Connections.LateDeliveryHappens | src/state.rs:58-65 | and it is reached from the empty registry: connect, check, reader stops, send |
| Connections.FinishedSendMeaning | src/state.rs:64-71 | whatever ran in between, true appends to the newest connection only, false changes no queue and removes the entry |
| Connections.SendIsItsTwoHalves | src/state.rs:50-72 | without interleaving the two halves are send_to_user as one operation |
| Connections.ReplacedIsIsolated | src/router.rs:186-195 | a connection without entry never regains it, and only its own replies and sync pushes reach it from then on |
| Connections.KickedExactlyOnce | src/state.rs:32-38 | a replaced connection gets exactly one "logged in elsewhere" frame if its receiver is open, none otherwise, for ever |
| Connections.FramesStayInOrder | src/router.rs:166-174 | written + at most one in hand or lost + queue = enqueued, in order; a clean exit lost nothing |
| Connections.FinishedSyncDeliveredAll | src/router.rs:98-158 | a sync task that ended with the receiver open has enqueued every row it loaded, in order |
| Connections.EndOfChannelIff | src/router.rs:167 | the end-of-channel exit is possible if and only if reader and sync ended, the entry is gone and the queue is empty |
| Connections.AbandonedCanStep | src/router.rs:166-174 | such a forwarder can always take a step until its receiver is dropped |
| Connections.AbandonedForwarderFinishes | src/router.rs:166-174 | and takes at most 2 * queue + 4 steps in any continuation |
| Dao.Database.PersistChatMessage | src/dao.rs:8-67 | insert or lookup, the consumed id, and nothing else changes |
| Dao.Database.PersistGroupMessage | src/dao.rs:621-683 | the same for groups, with the missing-reference error |
| Dao.Database.MarkSeenFromPeer | src/dao.rs:201-223 | marks and returns exactly the unseen messages of the pair |
| Dao.MarkRows | src/dao.rs:207-222 | the row loop computes the update and its RETURNING list |
| Dao.Database.GetChatHistory | src/dao.rs:112-163 | marks first, then pages the marked conversation; on error the marks stay and the ids are lost |
| Dao.Database.UpsertReadCursor | src/dao.rs:715-739 | the stored private cursor becomes the greater of itself and the new one, and nothing else changes |
| Dao.Database.UpsertGroupReadCursor | src/dao.rs:741-763 | GREATEST upsert, refused exactly for a missing user or group |
| Dao.IncrementRows | src/dao.rs:566-580 | the row loop counts exactly the delta rows and reports how many |
| Dao.Database.FetchDeltaRows | src/dao.rs:586-618 | the delta in id order with the present total |
| Dao.Database.MarkGroupReadAndGetDelta | src/dao.rs:530-619 | the whole operation has the combined effect and answer of the protocol's five statements |
| Dao.Database.CreateGroup | src/dao.rs:292-351 | refused for a duplicate name or missing owner; else the group appears, and the owner's membership too unless its own insert fails |
| Dao.Database.JoinGroup | src/dao.rs:353-367 | true exactly for a new membership |
| Dao.Database.LeaveGroup | src/dao.rs:369-383 | only the membership goes; the cursor stays |
| Dao.Database.AddFriend | src/dao.rs:227-264 | both directions or neither, never with oneself |
| Dao.Database.DeleteUser | src/dao.rs:862-931 | succeeds from every valid state and is exactly the purge |
| Router.FanOutOneMore | src/router.rs:470-474 | one more push extends an exact fan-out |
| Router.PushToMembers | src/router.rs:452-476 | each accepting member other than the sender gets exactly one push, nobody else gets anything |
| Router.MemberMayPost | src/router.rs:402-416 | a member's message cannot be refused by a reference |
| Router.PushToGroup | src/router.rs:452-476 | the pushes run only when the message is stored and its acknowledgement is the last frame of the sender's queue |
| Router.GroupChat | src/router.rs:393-488 | outsiders only get an error; for a member the message is stored, the sender's connection gains the acknowledgement, and the fan-out is exact |
| Router.PushAndAck | src/router.rs:345-383 | runs only on a stored message; the acknowledgement says whether the recipient's newest connection accepted the push |
| Router.PrivateChat | src/router.rs:315-383 | the message is stored under the acknowledged id, the push offered once, and the acknowledgement is the sender's last frame |
| Router.MarkSeenCommand | src/router.rs:227-255 | the update marks, and the peer is sent a notice of exactly the ids just marked, due only if there are any |
| Router.NoticeReachesIff | src/router.rs:524-541 | some queue gains the notice if and only if it is due and the peer's newest connection accepts; that queue gains it once and no other changes |
| Server.StepFrames | src/router.rs:236-251 | every step, interference included, enqueues no notice except the step that finishes its handler's send with the receiver open |
| Server.RunInv | src/router.rs:524-554 | in every reachable state the notices ever enqueued are those of the handlers whose send succeeded, on connections of their peers; database and connection invariants hold together |
| Server.SenderToldIff | src/router.rs:236-251 | over any run the sender of a live message is told that its recipient has seen it if and only if the send of the handler that marked it finished with the receiver open; nobody else is told, and of no other reader |
| Server.TellingWasPrepared | src/state.rs:50-72 | that send had passed the alive check earlier, and before that its notice had become due by the UPDATE or by a successful page query |
| Server.HandlerProceeds | src/router.rs:524-541 | a readied notice is due, and a due one whose peer's entry is alive gets the lock |
| Server.InFlightIsNotTold | src/router.rs:524-541 | a handler still querying, waiting to send or between the halves of its send has told nobody |
| Server.SendTellsIffDeliverable | src/state.rs:50-72 | a send nothing interleaves with tells the peer if and only if the peer can be delivered to at that moment |
| Server.ToldThoughOfflineAtUpdate | src/router.rs:236-251 | a run in which the sender is offline at the UPDATE and told |
| Server.NotToldThoughOnlineAtUpdate | src/router.rs:236-251 | a run in which the sender can be delivered to at the UPDATE and is never told |
| Server.LoadFinds | src/router.rs:99-131 | the sync task's first query loads an unseen message of its user if fewer than 200 older ones are unseen |
| Server.FailedLoad | src/router.rs:132-134 | a failed query is passed over: nothing is loaded and the sync task goes on |
| Server.LoadFindsPost | src/router.rs:136-158 | its second query loads, and then has to push, an unread group message if fewer than 200 older ones of any group are unread |
| Server.AckedMessageNeverLost | src/router.rs:95-158 | end to end: absent deletions a persisted message is seen and returned by exactly one UPDATE, or the recipient's next connection to load has it to be pushed, queued, in hand or written at every later moment while its receiver lives |
| Server.UnreadPostIsNotLost | src/router.rs:136-158 | the same on-its-way guarantee for a group message past the cursor, from the second query on |
| Router.SyncOffline | src/router.rs:95-158 | the pushes of both pages are enqueued, private before group |
| Router.UnseenMessageIsSynced | src/router.rs:99-131 | an unseen message with fewer than 200 older ones is among the frames of the next sync |
| Router.SyncPayloadsExact | src/router.rs:99-158 | those pushes item by item: sender, recipient or group, content and type of each row of the two pages, each in id order |
| Router.UnreadPostIsSynced | src/router.rs:136-158 | an unread group message with fewer than 200 older ones of any group is among the frames of the next sync |
| Router.GroupBySender | src/router.rs:273-280 | every sender is mapped to exactly their own items, in delta order |
| Router.UpdateExact | src/router.rs:282-309 | a sender's update names the group and the reader and holds id, count and total of exactly that sender's items, in order |
| Router.PushUpdates | src/router.rs:282-309 | whatever the map order, the newest accepting connection of each sender gains one update with exactly that sender's statuses, and no other queue changes |
| Router.GroupingConserves | src/router.rs:273-309 | the statuses of all updates together are a permutation of the delta's ids, counts and totals |
| Router.UpdatesAscend | src/router.rs:989-1004 | each sender's statuses keep ascending ids |
| Router.MarkGroupReadCommand | src/router.rs:256-314 | the delta of the call is pushed grouped by sender; errors and empty deltas push nothing |
| Router.MessageHistory | src/router.rs:497-556 | marks in any case; the notice is due if and only if ids were marked and the limit is not negative |
| Router.GroupHistory | src/router.rs:963-1041 | the page is read before the group is marked; a refused page marks nothing |

## Left out

- JWT, bcrypt, configuration, clocks and UUID generation: the caller's uid, send times and fresh ids are inputs or absent.
- HTTP and WebSocket plumbing and JSON: commands start decoded, frames are structured values; parse errors are not modelled.
- PostgreSQL below the level of one statement: an id is allocated and visible in one step, so inserts that commit out of id order are not modelled.
- Integer widths: `read_count` (32 bit) and ids (64 bit) are unbounded, except that the page query keeps its 64-bit sentinel.
- A failing SELECT outside the read receipt and history paths, and a failing UPDATE of `seen`, which changes nothing.
- The order of rows without ORDER BY: RETURNING lists are in table order, and members and owned groups are visited in an arbitrary order.
- Login, register, logout checks, search and listing queries: single filters or branches.
- `typing`, `heartbeat` and `online_count`: stateless forwarding, a no-op and a constant.
- `chat.html` apart from the two history loaders, the superseded and debug pages, and the tutorial programs.
- Schema.Persist: the conflicting INSERT and the lookup after it are one step, so the error when the row is deleted in between does not occur.
- Server.AckedMessageNeverLost: clients do not confirm what they receive, so "written" means accepted by the socket.
- Interference.StepInv: a statement of the deletion that fails for other reasons than a reference, ending it early, is not modelled.
- Router.GroupChat: runs without interference, so the 500 reply of an insert refused by a concurrent deletion does not occur.
- Router.SyncOffline: sender names are left out of the pushes, and the task runs by itself, so both pages are of one moment; in Server each query runs at its own.
- Connections.AbandonedForwarderFinishes: bounds the forwarder's own steps; that the scheduler runs it is not modelled.
