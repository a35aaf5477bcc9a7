# Durable chat: model and proofs

The system is a terminal chat with durable messages: a server that commits every message with a
snapshot of its recipients, and a terminal client that fetches, shows and acknowledges them. This
project models its three hard layers in Dafny and proves what they promise.
`dafny verify dfyconfig.toml` checks everything.

## Durable delivery

`Tables` is the database as values: users, groups, memberships, history rows and recipient rows with
an optional acknowledgement time. `Databases` is the database as the server runs it, a class whose
methods insert, update and delete rows inside transactions; each method is proved against a function
of `Tables`, and `Evolution` proves what that function means. `PageWriter` and `PageLimits` treat one
page under its byte limit, `RefusedPages` the one page that does not fit, `HistoryPaging` and
`HistoryClient` a whole history read page by page while the tables change, `LegacyImport` the import of
the old table, `Refusals` why a transaction is refused, `SessionRegistries` admission.

`DeliverySystem` puts server and clients together as a state machine. Each connection is two FIFO
channels that may be cut anywhere. One event is one atomic step of one thread: admission in its three
steps, one request handled, its answer written, one recipient routed, a frame received and dispatched,
a queued request flushed, a response consumed, a cut, a crash of the server, a new connection, and the
transactions of other users. The code's mutexes justify this granularity. A run is any sequence of
events from the empty system; an event that is not enabled changes nothing. `DeliveryInvariant` states
the invariant, `ClientSteps`, `ClientReceive`, `ServerSteps` and `HandlerSteps` prove it event by event,
`DeliveryRuns` defines runs and what the tables keep over them, and `DeliveryTheorems`,
`SyncCompleteness` and `SessionAdmission` hold the main safety results. `ServingLaws` and `ClientLaws`
say what each step of handler and client does, and `SyncProgress` and `LiveDelivery` what follows when
nothing goes wrong on the way: a login is admitted, a synchronization ends with everything stored and
acknowledged, a submission arrives. `ClientConnections` is the client's connection class, proved to
take exactly the steps of that machine. `SystemStores` runs the machine with a real message store in
every client and carries the main results over to what the stores list; the conditions on its
interface steps are what `UiDiscipline` proves of the interface. `OwnMessages` proves over the same
runs that what a user sees as sent is what the server committed.

## Session store and interface

`BufferState` is the client's message store as a value, `MessageBuffers` the class that updates it in
place. `BufferInvariant`, `BufferRuns`, `BufferHandles` and `BufferMarks` prove what holds over all runs
of its operations, and which guarantees need a discipline of the caller; `BufferLimits` and
`BufferHandles` show by concrete runs that they do need it. `BufferContents` says what the store holds
and when each operation succeeds, `BufferIndex` that the store refines the one the protocol assumes.
`UiState`, `UiDiscipline` and `TerminalUis` model the interface that drives the store and prove that it
keeps the discipline, `UiLaws` what each key, message and answer leads to. `GroupNames` and
`PinnedNames` are the group-name cache, `InputFields` the edit field.

## Byte codecs

`Framing`, `PosixPaste`, `PosixText` and `WidePaste` are incremental readers: for every way of cutting
the input into reads they compute the same as a function of the whole input, and that function is
characterised separately. `Utf8` states sections 3 and 4 of RFC 3629 and proves the program's three
checkers equal to it. `Layout` is escaping, clipping and wrapping, `Wire` messages and pages as JSON
objects, `JsonText` their printed text and its length.

## Assumptions and findings

- A transaction succeeds or is rolled back as a whole; `Consistent` tables start empty. Clock readings
  are arbitrary.
- JSON values are datatypes, and sizes are those of compact output under section 7 of RFC 8259.
- The code tests a page with `has_more` true before it decides the real value, and `false` is one byte
  longer. A mailbox whose last page is exactly at the limit is therefore refused until the
  pending messages change: `RefusedPages.FullMailboxRefused` reaches one by seventeen ordinary messages,
  `RefusedPages.RefusedOnlyUntilMoreIsPending` and `OneMoreMessageIsServed` say when it is served again.
  This is the only way a page is refused (`PageLimits.RefusedExactlyWhen`).
- `ensureConversation` ignores the reserved text, and `cancelOutgoing` gives back the last handle
  whichever conversation it erases. Both are harmless as the interface uses them and harmful otherwise.
- Replacing a cached group name checks no limit; names from this server are short enough for that.
- A unit wider than a row makes `wrapToWidth` subtract below zero, after which nothing wraps.

## Model

| member | source | states |
|---|---|---|
| DeliveryTheorems.NoLoss | databasef/database_messaging.cpp:766-816 | over every run of accepts, live routes, pages, acknowledgements, cuts, reconnects and server crashes: each committed (message, recipient) row is unacknowledged, or some session of that recipient has stored the message with the committed content and sender |
| DeliveryTheorems.AcknowledgedAfterStoring | clientf/client_connection.cpp:876-911 | an acknowledgement is in the client's queue or on the wire only for a message that very session has stored as committed |
| DeliveryRuns.NothingIsUndone | databasef/database_messaging.cpp:424-478 | between any two moments of any run history only grows at its end, no recipient row disappears and a recorded acknowledgement keeps its time |
| DeliveryTheorems.HonestServerNeverTrips | clientf/client_connection.cpp:746-874 | in no run does a client stop because of what the server sent: the only stops are a refused login, a page the server could not encode, the client's own full queue or store, and its own decision to stop |
| SyncCompleteness.SynchronizationIsComplete | clientf/client_connection.cpp:913-1029 | whenever a session is inactive and not stopped, or its synchronization was completed, every message unacknowledged when its first page was served is in that client's store as committed, unless another session of the same user acknowledged it; live deliveries and the session's own acknowledgements in between do not matter |
| SyncCompleteness.PendingIdsAre | databasef/database_messaging.cpp:932-941 | the goal of a synchronization is exactly the set of unacknowledged rows of the user |
| SessionAdmission.OneSessionPerAccount | server.cpp:277-299 | in no run are two sessions of one account past reservation and not yet told to stop |
| SessionAdmission.RefusedOnlyForSize | serverf/durable_routing.cpp:489-535 | in any reachable state the handler refuses a SYNC_PENDING request if and only if its rows are all that is left and the probed form with has_more true is exactly 1,048,576 bytes long |
| DeliveryTheorems.StepKeepsInv | serverf/durable_routing.cpp:537-566 | every event of every thread keeps the protocol invariant (authentication line first, one page request under way, well-formed frames, held goal) |
| DeliveryRuns.StepMoves | databasef/database_messaging.cpp:424-478 | one event leaves consistent tables and changes them only in the ways a transaction may |
| DeliveryTheorems.RunKeepsInv | serverf/durable_routing.cpp:537-566 | every run keeps the protocol invariant |
| DeliveryRuns.RunAppend | clientf/client_connection.cpp:681-744 | a run may be cut anywhere: running two parts is running the whole |
| DeliveryInvariant.SameDelivery | databasef/database_messaging.cpp:480-508 | a live and a paged copy of one message are equal, so the second is a duplicate and never a conflict |
| DeliveryInvariant.NeverOwn | databasef/database_messaging.cpp:561-565 | no message a user receives has an id he sent: senders are excluded from recipients |
| DeliveryInvariant.StoredIsWellFormed | clientf/client_connection.cpp:58-103 | whatever the database stores passes the client's envelope checks |
| ClientReceive.ReceiveKeeps | clientf/client_connection.cpp:746-874 | reading any frame of an honest server keeps the session invariant, forgets nothing stored and trips no check (what it stores and queues is ClientLaws) |
| ClientReceive.ConsumeKeeps | clientf/terminal_ui.cpp:1023-1046 | committing an accepted id never meets an id already stored |
| ClientSteps.FlushKeeps | clientf/client_connection.cpp:528-559 | sending queued requests keeps acknowledgements, requests and cursor consistent, also when the write fails |
| ClientSteps.StoreEachLaw | clientf/client_connection.cpp:978-985 | the records of a served page are all stored or already there; none conflicts |
| ServerSteps.GreetKeeps | server.cpp:284-291 | the success line is the first thing on its channel |
| ServerSteps.PublishKeeps | serverf/session_registry.cpp:14-24 | a session becomes findable only after its success line was written |
| ServerSteps.RouteKeeps | serverf/durable_routing.cpp:137-167 | routing a committed message live puts only frames meant for that recipient on his channel |
| HandlerSteps.SyncKeeps | serverf/durable_routing.cpp:489-535 | serving a page request keeps the invariant: a served page is within the client's cursor and watermark and leaves nothing unacknowledged behind (which page it is is ServingLaws) |
| HandlerSteps.AckKeeps | serverf/durable_routing.cpp:331-379 | a queued acknowledgement is never answered NOT_RECIPIENT |
| HandlerSteps.SubmissionKeeps | serverf/durable_routing.cpp:205-235 | handling a submission keeps the invariant: an accepted one is answered with an id of the sender's own and routed to its snapshot (which message it becomes is ServingLaws) |
| SyncProgress.SynchronizationSucceeds | clientf/client_connection.cpp:913-1029 | from every reachable state, a quiet open connection that asks for its pending messages gets every one stored as committed and acknowledged after finitely many exchanges of that connection alone, as long as its store has room; the only other obstacle is the page refused for its size |
| SyncProgress.OnePage | serverf/durable_routing.cpp:489-535 | one page asked for, stored and acknowledged leaves nothing pending at or before its cursor: the client asks for the next page from there, is done, or is refused because the rest fills a response exactly |
| LiveDelivery.LoggingInBringsEverything | server.cpp:277-299 | from every reachable state, a user without a session who connects and synchronizes, with room in his store, ends up with every message of his acknowledged and every formerly pending one stored as committed, the page refused for its size apart |
| LiveDelivery.LoginOpens | server.cpp:277-299 | a login of a free account leaves a ready session that holds the account and a client that has read its success line, and changes nothing else |
| LiveDelivery.SecondLoginIsRefused | server.cpp:277-283 | a login of an account in use ends with a rejected client, and nobody else notices |
| LiveDelivery.SubmissionIsDelivered | serverf/durable_routing.cpp:205-235 | from every reachable state in which a free client may send: after finitely many events the message is committed for exactly those it is meant for, the sender is told its id, and every recipient whose session can be written to has it on his channel |
| LiveDelivery.RoutingReaches | serverf/durable_routing.cpp:137-167 | routing a message to its recipients puts it on the channel of each reachable one of them and leaves every other session alone |
| LiveDelivery.LiveMessageSettles | clientf/client_connection.cpp:876-911 | a live message at the head of a quiet connection, with room in the store, ends up stored as committed and acknowledged on the server |
| OwnMessages.OwnMessagesAreCommitted | clientf/terminal_ui.cpp:1023-1046 | in every run of server, connections and stores, an own message listed under an id is the row the server committed under that id: its sender, its text, its kind, and the user, group or everybody whose conversation it stands in |
| ServingLaws.SubmissionIsCommitted | serverf/durable_routing.cpp:205-301 | a submission is accepted exactly when its sender may send it and an id is left; the new row has the submitted kind, group and content, is unacknowledged by exactly the named receiver, the other members or everybody else, and is routed to each of these once; otherwise nothing changes |
| ServingLaws.SynchronizationIsAnswered | serverf/durable_routing.cpp:489-535 | in every reachable state the handler answers a SYNC_PENDING request with the page of pending messages from its cursor up to its watermark, unless these are all that is left and their probed form is exactly the limit: then, and only then, it refuses |
| ServingLaws.AcknowledgementIsRecorded | serverf/durable_routing.cpp:331-379 | in every reachable state an acknowledgement is recorded the first time and only then, for that row alone, and its answer says which |
| ServingLaws.AnswerIsWritten | serverf/client_session.cpp:76-99 | an answer is the next frame on the channel, or the broken connection stops the session |
| ServingLaws.LiveCopyIsWritten | serverf/durable_routing.cpp:137-167 | a live copy is on the channel of exactly the reachable session of its recipient; a session found stopping or broken loses its place, and no other changes |
| ServingLaws.EndingFreesTheAccount | server.cpp:590-603 | a session that ends gives its account up, unless another session has it |
| ServingLaws.RegistrationIsMade | server.cpp:239-248 | a registration event adds exactly the name, when it may be added |
| ServingLaws.GroupIsMade | databasef/database_groups.cpp:164-233 | a group event creates exactly the group, with its creator as only member |
| ServingLaws.MemberIsMade | databasef/database_groups.cpp:235-287 | a join event adds exactly the membership |
| ServingLaws.ChangesAreMade | databasef/database_messaging.cpp:535-702 | in histories of the tables alone, too, a submission becomes exactly the message it is or nothing |
| ServingLaws.AcknowledgementsAreMade | databasef/database_messaging.cpp:766-816 | in histories of the tables alone, too, an acknowledgement is recorded once |
| ClientLaws.LiveMessageIsAcknowledged | clientf/client_connection.cpp:876-911 | a live message is stored and its acknowledgement queued exactly when it is well formed, is new with room or held as the same delivery, nothing interrupts and the queue has a place; in every other case the queue stays and the stop reason names the cause |
| ClientLaws.PageIsAcknowledged | clientf/client_connection.cpp:978-1029 | a page that stops nothing has stored exactly its records, queued an acknowledgement for every one, and asks for the rest or ends the synchronization; one that stops the client queues nothing |
| ClientLaws.PageStopsFor | clientf/client_connection.cpp:913-1024 | which test of a page decides why the client stops |
| ClientLaws.PageFitsExactlyWhen | clientf/client_connection.cpp:913-976 | which pages pass: a synchronization under way, the same watermark, records well formed, beyond the cursor, within the watermark and strictly increasing, and the last one's id as next cursor |
| ClientLaws.FirstLineDecides | clientf/client_connection.cpp:746-800 | the first line decides the login: success opens, failure and anything else end it |
| ClientLaws.AnswersAreAssociated | clientf/client_connection.cpp:800-874 | a refused request stops the client, an awaited answer is kept, a second or unasked-for one stops it |
| ClientLaws.AcceptanceIsKept | clientf/terminal_ui.cpp:1023-1046 | taking an acceptance keeps its id as one's own exactly when it is positive and new |
| ClientLaws.SynchronizationStarts | clientf/client_connection.cpp:498-526 | a synchronization starts at the beginning and asks for its first page, unless one is under way or the queue is full |
| Refusals.PrivateRefusals | databasef/database_messaging.cpp:535-589 | every refusal of a private message has its own cause, tried in a fixed order |
| Refusals.BroadcastRefusals | databasef/database_messaging.cpp:646-702 | every refusal of a broadcast has its own cause |
| Refusals.UnknownSenders | databasef/database_messaging.cpp:591-702 | an unknown sender sends nothing to a group or to everybody |
| Refusals.StrangersJoinNothing | databasef/database_groups.cpp:235-287 | an unknown user joins nothing |
| Refusals.GroupRefusals | databasef/database_messaging.cpp:591-644 | every refusal of a group message has its own cause |
| Refusals.CreateRefusals | databasef/database_groups.cpp:164-233 | every refusal of a new group has its own cause, and changes nothing |
| Refusals.JoinRefusals | databasef/database_groups.cpp:235-287 | every answer to joining has its own cause |
| Refusals.PageRefusals | databasef/database_messaging.cpp:885-905 | every refusal of a page query has its own cause |
| ClientSync.AcceptedPageAdvances | clientf/client_connection.cpp:940-1011 | against any server: an accepted page that announces more strictly raises the cursor under the same watermark, so the distance to it falls |
| ClientSync.PagesAreBounded | clientf/client_connection.cpp:940-976 | against any server: at most watermark minus cursor pages that announce more are accepted |
| ClientSync.AscendsIff | clientf/client_connection.cpp:955-969 | the adjacent comparisons of the loop hold exactly when all records are well formed, above the cursor, within the watermark and strictly increasing |
| ClientConnections.AcksAreAllOrNone | clientf/client_connection.cpp:978-1024 | the acknowledgements of a page are queued all together, behind what was queued, only after every record has been stored or found stored, or none is; the queue never exceeds its limit |
| ClientConnections.StoreEachStores | clientf/client_connection.cpp:978-985 | a page handed over completely is stored completely and overwrites nothing |
| ClientConnections.ClientConnection.RequestStop | clientf/client_connection.cpp:574-604 | the first stop reason is kept |
| ClientConnections.ClientConnection.StartPendingSynchronization | clientf/client_connection.cpp:498-526 | the first page request is queued once per synchronization |
| ClientConnections.ClientConnection.FlushAutomaticRequests | clientf/client_connection.cpp:528-559 | what was queued is what was sent, at most one request lost to a failing write, and what stays, in order |
| ClientConnections.ClientConnection.ProcessPendingPage | clientf/client_connection.cpp:913-1029 | the method is the protocol's page step, including interruption and lack of room half-way |
| ClientConnections.ClientConnection.ProcessDeliveryMessage | clientf/client_connection.cpp:876-911 | the method is the protocol's live-message step |
| ClientConnections.ClientConnection.DispatchFrame | clientf/client_connection.cpp:746-874 | the method is the protocol's step on a decoded frame |
| ClientConnections.ClientConnection.AssociateResponse | clientf/terminal_ui.cpp:269-291 | a response without a waiting request, or a second one, stops the connection |
| Evolution.PrivateLaw | databasef/database_messaging.cpp:535-589 | accepted exactly when both texts fit, both users exist and differ and an id is left; then one new row, newest of all, with the receiver as its only unacknowledged recipient and everything else untouched; otherwise nothing changes |
| Evolution.GroupLaw | databasef/database_messaging.cpp:591-644 | a group message goes to exactly the members at acceptance minus its sender, and is accepted exactly when the sender is a member of an existing group and the texts fit |
| Evolution.BroadcastLaw | databasef/database_messaging.cpp:646-702 | a broadcast goes to exactly the other users registered at acceptance |
| Evolution.AcceptLaw | databasef/database_messaging.cpp:424-508 | the common part of every acceptance commits one row and its snapshot or nothing |
| Evolution.AcknowledgeLaw | databasef/database_messaging.cpp:766-816 | an acknowledgement is recorded once, by a recipient only, and touches that one row; the four answers, invalid arguments among them, are told apart exactly |
| Evolution.RegisterLaw | server.cpp:239-248 | registration succeeds exactly for a new non-empty name and then finds that name under the next id |
| Evolution.CreateGroupLaw | databasef/database_groups.cpp:164-233 | a created group has a fresh name, the next id and its creator as its only member |
| Evolution.JoinGroupLaw | databasef/database_groups.cpp:235-287 | joining adds exactly one membership, and only when it was missing |
| Evolution.MembersAreUsers | databasef/database_groups.cpp:141-162 | the recipients of a group message are exactly its members other than the sender |
| Evolution.NoRecipientAhead | databasef/database_messaging.cpp:462-478 | no recipient row belongs to an id that has not been given out |
| Evolution.EvolvesTransitive | databasef/database_messaging.cpp:424-478 | allowed changes compose over whole runs |
| Tables.SelectSound | databasef/database_messaging.cpp:932-968 | a page query returns exactly the visible rows between cursor and watermark |
| Databases.Database.Rollback | databasef/database_internal.h:135-151 | a rollback restores the tables of the transaction's beginning |
| Databases.Database.GroupRecipientIds | databasef/database_groups.cpp:141-162 | the loop over the member rows collects the specified snapshot in id order |
| Databases.Database.InsertDurableMessage | databasef/database_messaging.cpp:424-478 | one history row and one unacknowledged row per recipient are inserted |
| Databases.Database.AcceptPrivateMessage | databasef/database_messaging.cpp:535-589 | the transaction refines the private acceptance whose law is proved above |
| Databases.Database.AcceptGroupMessage | databasef/database_messaging.cpp:591-644 | the transaction refines the group acceptance |
| Databases.Database.AcceptBroadcastMessage | databasef/database_messaging.cpp:646-702 | the transaction refines the broadcast acceptance |
| Databases.Database.AcknowledgeDelivery | databasef/database_messaging.cpp:818-847 | the transaction refines the acknowledgement |
| Databases.Database.CreateGroup | databasef/database_groups.cpp:164-233 | the transaction refines group creation |
| Databases.Database.JoinGroup | databasef/database_groups.cpp:235-287 | the transaction refines joining |
| Databases.Database.FindWatermark | databasef/database_messaging.cpp:907-930 | the maximum query returns the newest visible id, 0 when none is visible |
| Databases.Database.FetchDeliveryPage | databasef/database_messaging.cpp:885-994 | one row more than the limit is read, decides has_more and is dropped |
| Databases.Database.ImportLegacyMessages | databasef/database_messaging.cpp:1109-1212 | the page-and-delete loop terminates and refines the one-pass import |
| Databases.NextPositive | databasef/database_messaging.cpp:1183-1197 | deleting the row at the import cursor leaves exactly the rows after it |
| LegacyImport.ImportAllOrNothing | databasef/database_messaging.cpp:1109-1212 | on success every positive-id legacy row became exactly one unacknowledged private message, in legacy-id order under consecutive new ids, each with the clock reading of its own row, those rows are gone and the count is their number; on failure both tables are as before; success holds exactly when every such row is importable and the ids suffice |
| LegacyImport.PositiveOrdered | databasef/database_messaging.cpp:1118-1134 | the import visits its rows in id order |
| PageWriter.WritePage | serverf/durable_routing.cpp:423-487 | the loop that probes the encoding after each record computes the specified page |
| PageWriter.PageMeaning | serverf/durable_routing.cpp:423-487 | a served page shows exactly the visible rows from its cursor to the next cursor, the watermark is the request's or the newest visible id, and has_more holds exactly when a visible row remains up to the watermark |
| PageWriter.RespondPrefix | serverf/durable_routing.cpp:435-486 | the records are a prefix of the queried rows, the next cursor is the last one's id or the request's cursor, and the encoding fits 1,048,576 bytes |
| PageWriter.FetchMeaning | databasef/database_messaging.cpp:885-994 | a ready page query holds the first rows of the selection and tells whether more follow |
| PageWriter.SelectCut | databasef/database_messaging.cpp:974-983 | the first k rows and the rows after the k-th id are the two parts of the selection |
| PageWriter.WatermarkBounds | databasef/database_messaging.cpp:907-930 | the watermark is the largest visible id, 0 when there is none |
| PageWriter.PageIsFull | serverf/durable_routing.cpp:447-464 | a page stops at the first row that does not fit: every row it shows fitted behind those before it, and the next would not have |
| JsonText.EnvelopeLengthIsRight | serverf/durable_routing.cpp:117-135 | the length used for a MESSAGE object is that of its JSON text, byte for byte |
| JsonText.ResponseLengthIsRight | serverf/durable_routing.cpp:435-466 | the length used for a page response is that of its JSON text |
| JsonText.RequestLengthIsRight | clientf/terminal_ui.cpp:778-795 | the length used for a message request is that of its JSON text |
| PageLimits.OneRecordFits | serverf/durable_routing.cpp:447-459 | one record always fits: six bytes per byte of text is the worst case of section 7 of RFC 8259 |
| PageLimits.RefusedExactlyWhen | serverf/durable_routing.cpp:447-472 | a page of storable rows is refused exactly when it is a last page whose probed form is exactly the limit; every other response fits |
| PageLimits.LongerPageIsServed | serverf/durable_routing.cpp:447-472 | a refused page is served as soon as more rows are pending behind its rows, whether they join the page or only make has_more true |
| RefusedPages.FullMailboxRefused | serverf/durable_routing.cpp:465-472 | the refusal happens: from empty tables, two registrations and seventeen private messages, each sent by a request within the request limit and each accepted, lead to a mailbox whose pending page the server refuses |
| RefusedPages.RefusedOnlyUntilMoreIsPending | serverf/durable_routing.cpp:447-486 | between any two moments of a run: if what was pending still is and something newer is, a first page refused before is served now |
| RefusedPages.OneMoreMessageIsServed | serverf/durable_routing.cpp:205-235 | one more accepted private message to the user is enough |
| PageLimits.FramesFitTheClient | serverf/durable_routing.cpp:117-167 | every live message and every page is within what the client reads as one frame |
| HistoryPaging.PagedHistoryIsOneSnapshot | clientf/terminal_ui.cpp:1071-1081 | whatever transactions run between the pages, the pages read to the end are exactly the messages visible at the first page, each once, in id order; a reading still unfinished holds a beginning of them and more messages than it made visits, so it ends; a reading that is refused within the client's page limits had read everything but the page in hand, which is all the rest and exactly fills the response |
| HistoryPaging.LaterRefusal | serverf/durable_routing.cpp:447-472 | a later history page is refused for a limit outside 1 to 50, or when it holds all the rest of the first snapshot and its probed form is exactly the limit |
| HistoryPaging.SnapIsEverything | databasef/database_messaging.cpp:996-1096 | that snapshot is exactly the rows the user sent or was a recipient of, strictly by id |
| HistoryPaging.LaterPage | databasef/database_messaging.cpp:1018-1096 | a later page under the first watermark is a stretch of the first snapshot and its has_more speaks about that snapshot |
| HistoryPaging.EveryRunEvolves | databasef/database_messaging.cpp:591-702 | every run of registrations, group changes, accepts, acknowledgements and imports keeps the tables consistent and only evolves them |
| HistoryClient.AcceptedHistoryPagesAscend | clientf/client_connection.cpp:105-150 | against any server: which history pages pass the client's checks |
| HistoryClient.HonestHistoryPagesPass | clientf/client_connection.cpp:105-150 | every HISTORY page the server serves passes the client's shape, order, cursor and watermark checks |
| SystemStores.NothingIsLostFromTheStores | databasef/database_messaging.cpp:766-816 | in every run of server, connections and client stores: each committed (message, recipient) row is unacknowledged, or the store of some session of that recipient lists the message in its conversation exactly as committed |
| SystemStores.AcknowledgedIsShown | clientf/client_connection.cpp:876-911 | an acknowledgement is queued or on the wire only for a message that session's store lists as committed |
| SystemStores.SynchronizationFillsTheStore | clientf/client_connection.cpp:913-1029 | a finished synchronization has brought everything into the store: what was unacknowledged at its first page is listed there, unless another session acknowledged it |
| SystemStores.AcceptedIsCommitted | clientf/terminal_ui.cpp:1023-1046 | in every run taking an acceptance lists exactly the message held back under its id and frees the client for the next, unless a 64-bit counter is exhausted |
| SystemStores.RefusedIsGivenBack | clientf/terminal_ui.cpp:1005-1016 | in every run a refused message is given back and frees the client for the next |
| SystemStores.SentIsHeldBack | clientf/terminal_ui.cpp:768-825 | a text sent from an open conversation is held back in the store and its request goes out for the same conversation, or nothing happens for lack of room |
| SystemStores.FramesAreHandedOver | clientf/client_connection.cpp:978-985 | a live message and the records of a page are handed to the store up to the first that finds no room or contradicts what is stored |
| SystemStores.FrameRefines | clientf/client_connection.cpp:876-1029 | what reading a frame does to the store is what the protocol says it does to the index, for every frame and any lack of room |
| SystemStores.AnswerRefines | clientf/terminal_ui.cpp:1013-1046 | committing or giving up a reservation is the protocol's way of taking an answer |
| SessionRegistries.SessionRegistry.Reserve | serverf/session_registry.cpp:3-12 | a name is reserved exactly when nobody holds it |
| SessionRegistries.SessionRegistry.PublishReady | serverf/session_registry.cpp:14-24 | exactly the holder becomes findable, unless it is stopping |
| SessionRegistries.SessionRegistry.FindReady | serverf/session_registry.cpp:26-37 | a route finds exactly a ready session that is not stopping and drops a stopping one |
| SessionRegistries.SessionRegistry.RemoveIfSame | serverf/session_registry.cpp:58-68 | a name is given up only by the session that holds it |
| SessionRegistries.Admit | server.cpp:277-299 | a session is admitted exactly when the name is free, the success line is written and nothing stopped it; otherwise it was never findable and the registry is as before |
| SessionRegistries.Cleanup | server.cpp:590-603 | after cleanup the session is stopping and its name is free unless another session holds it |
| BufferRuns.IndexIsTheUnionOfTheLists | clientf/message_buffer.cpp:321-383 | in every reachable state a message is in the id index exactly when it is in the list of its own conversation, and in no other list |
| BufferRuns.StepKeeps | clientf/message_buffer.cpp:252-547 | every operation keeps: sorted lists, distinct arrivals below the counter, unread among incoming arrivals of the same conversation, an outstanding reservation's conversation, exact byte and message counts |
| BufferInvariant.ReceiveKeeps | clientf/message_buffer.cpp:292-383 | receiving keeps all of it, whatever the delivery |
| BufferInvariant.CommitKeeps | clientf/message_buffer.cpp:440-468 | committing a reservation keeps all of it |
| BufferInvariant.CancelKeeps | clientf/message_buffer.cpp:470-493 | cancelling, also when it erases the conversation, keeps all of it |
| BufferInvariant.InsertedAt | clientf/message_buffer.cpp:363-371 | insertion at the lower bound keeps a list strictly sorted and adds exactly one message |
| BufferRuns.ReservationsAreGuaranteed | clientf/message_buffer.cpp:385-468 | in every run that ensures no conversation beside a reservation: text and messages, stored plus reserved, stay within 16 MiB and 4096, the byte counter is the exact sum, and a commit of a new id always succeeds |
| BufferRuns.NoWrap | clientf/message_buffer.cpp:330-339 | within the bound no capacity subtraction wraps |
| BufferRuns.EnsureKeepsTheBoundExactlyWhen | clientf/message_buffer.cpp:252-271 | ensuring keeps the bound exactly when, in case the conversation can be opened and its key fits beside the retained text, which is all the code looks at, the key also fits beside the reserved text |
| BufferLimits.TheBoundNeedsTheDiscipline | clientf/message_buffer.cpp:252-271 | without the discipline a subtraction wraps and a received message of any size below 2^63 is stored |
| BufferHandles.HandlesSelectConversations | clientf/message_buffer.cpp:262-270 | in every run that reserves on existing conversations only, handles are exactly 1..n, nextHandle is n+1 and a handle selects the same conversation ever after |
| BufferHandles.HandleCountAlways | clientf/message_buffer.cpp:480-486 | the count equation holds in all runs |
| BufferHandles.CancelKeepsHandlesExactlyWhen | clientf/message_buffer.cpp:470-493 | a cancel keeps handles distinct exactly when it erases nothing or erases the conversation opened last |
| BufferHandles.HandlesNeedTheDiscipline | clientf/message_buffer.cpp:470-493 | a run of four operations after which two conversations share a handle |
| BufferMarks.ReadMarksAreExact | clientf/message_buffer.cpp:495-547 | viewing up to a snapshot's newest arrival, after any operations in between, leaves unread exactly what arrived since, touches no other conversation and no shown message has changed |
| BufferMarks.StepFollows | clientf/message_buffer.cpp:355-381 | every operation but viewing the conversation itself keeps the relation to an earlier snapshot |
| BufferContents.SentTextIsKept | clientf/message_buffer.cpp:385-468 | after a reservation that was made, any operations other than a commit or a cancel, a commit that succeeds, and any operations at all, the message stands in the conversation it was sent to, with the sender and the text as given |
| BufferContents.ReceivedTextIsKept | clientf/message_buffer.cpp:292-383 | a received message stands unread in the conversation of its kind, with the server's text, name and time, and nothing later changes it |
| BufferContents.ReceiveAnswers | clientf/message_buffer.cpp:292-352 | within the bound, stored, duplicate and conflict are told apart exactly by what is stored and by the text that is stored and reserved |
| BufferContents.ReserveAnswers | clientf/message_buffer.cpp:385-420 | a reservation is a conflict exactly when there is one, and is made exactly when there is a place and its text fits beside everything stored |
| BufferContents.VersionTellsChange | clientf/message_buffer.cpp:252-547 | the version rises by one with every change and stays with every refusal; once exhausted only cancelling and viewing change anything |
| BufferIndex.ReceiveRefines | clientf/message_buffer.cpp:279-383 | receiving is the protocol's storing step: duplicate and conflict are told apart exactly, and room matters to new ids only |
| BufferIndex.SameIncomingMeansSame | clientf/message_buffer.cpp:279-290 | the field-by-field comparison holds exactly when the same delivery was stored before |
| BufferIndex.CommitRefines | clientf/message_buffer.cpp:440-468 | committing is the protocol's outgoing step and fails for a known id |
| MessageBuffers.FindPosition | clientf/message_buffer.cpp:363-370 | the binary search finds the lower bound |
| MessageBuffers.LowerBoundUnique | clientf/message_buffer.cpp:363-370 | that position is the only one with smaller ids before it and none after |
| MessageBuffers.MessageBuffer.EnsureConversation | clientf/message_buffer.cpp:252-277 | the method refines the ensure step and keeps the invariant |
| MessageBuffers.MessageBuffer.ReceiveValidated | clientf/message_buffer.cpp:292-383 | the method refines the receive step and keeps the invariant |
| MessageBuffers.MessageBuffer.ReserveOutgoing | clientf/message_buffer.cpp:385-438 | the method refines the reserve step and keeps the invariant |
| MessageBuffers.MessageBuffer.CommitOutgoing | clientf/message_buffer.cpp:440-468 | the method refines the commit step and keeps the invariant |
| MessageBuffers.MessageBuffer.CancelOutgoing | clientf/message_buffer.cpp:470-493 | the method refines the cancel step and keeps the invariant |
| MessageBuffers.MessageBuffer.Snapshot | clientf/message_buffer.cpp:495-526 | a snapshot summarizes every conversation and shows the active one with its newest arrival |
| MessageBuffers.MessageBuffer.View | clientf/message_buffer.cpp:528-547 | the method refines the view step and keeps the invariant |
| UiDiscipline.SubmissionsAreNeverLost | clientf/terminal_ui.cpp:768-825 | in every interleaving of interface and receiver thread the store keeps its bounds, and an accepted answer for a waiting message is committed unless its id is already stored or a counter is exhausted; what is committed is the text the user submitted last, under his name, in the conversation he submitted it to |
| UiDiscipline.HeldIsSubmitted | clientf/terminal_ui.cpp:768-825 | in every session what is reserved is what the user submitted last, under his name |
| UiLaws.ChosenConversationIsShown | clientf/terminal_ui.cpp:354-364 | the conversation chosen on a menu or list is on top of the screens as they were, exactly when the store has room for it and there are fewer than eight; in every other case the screens stay |
| UiLaws.NumberedConversationIsShown | clientf/terminal_ui.cpp:827-845 | a notification number shows the conversation that has this number and unread messages |
| UiLaws.SubmissionHoldsItsText | clientf/terminal_ui.cpp:768-825 | Enter on a conversation holds back exactly the draft, for the conversation shown and under the user's name, exactly when it may be sent, fits, no request is under way and the write succeeds; otherwise nothing is held and the store is as it was but for its version |
| UiLaws.ArrivingMessageIsFiled | clientf/terminal_ui.cpp:245-265 | an arriving message is filed unread as it came, was filed before, or stops the connection for contradicting or finding no room |
| UiLaws.ArrivingAnswerWaits | clientf/terminal_ui.cpp:267-291 | an answer waits exactly when one is expected, none waits yet and it belongs to the request |
| UiLaws.AnswerEndsItsRequest | clientf/terminal_ui.cpp:971-998 | taking an answer ends its request and leaves the loop exactly when the connection is stopping |
| UiLaws.FailureGivesBack | clientf/terminal_ui.cpp:1005-1016 | a failure gives the text held back free again |
| UiLaws.UnexpectedSuccessStops | clientf/terminal_ui.cpp:1017-1046 | an acceptance nobody waits for, or a success of the wrong kind, stops the connection |
| UiLaws.BackgroundAnswerIsTaken | clientf/terminal_ui.cpp:971-989 | a background answer changes nothing but its request, and stops the connection when it is no page |
| UiLaws.PageAnswersItsScreen | clientf/terminal_ui.cpp:1047-1081 | a page answer closes the form or keeps the list that asked, under the notifications too, and stops the connection when no screen asked |
| UiLaws.LeavingIsReported | clientf/terminal_ui.cpp:435-438 | leaving with an unanswered submission gives its text back and reports it as uncertain |
| UiLaws.NotificationsKeyTwice | clientf/terminal_ui.cpp:336-347 | pressing the notification key twice leads back |
| UiLaws.NotificationsKeyReturns | clientf/terminal_ui.cpp:336-347 | from a screen opened on the notifications the key leads back to them |
| UiLaws.LoopEnds | clientf/terminal_ui.cpp:397-440 | the loop ends when the connection stops or the user leaves |
| UiLaws.MenuChoices | clientf/terminal_ui.cpp:584-707 | a menu choice opens its screen, goes back or ends the session; on the notifications only going back is offered |
| UiLaws.EscapeGoesBack | clientf/terminal_ui.cpp:574-582 | Escape goes one screen back, never below the main menu, and while an answer is awaited only from the notifications |
| UiLaws.ViewingMarksTheShown | clientf/terminal_ui.cpp:421-431 | viewing marks what was shown of the conversation on top and touches no other |
| UiLaws.NamesWaitTheirTurn | clientf/terminal_ui.cpp:1215-1240 | a name is looked up in the background only while no request is under way |
| UiLaws.RequestIsSent | clientf/terminal_ui.cpp:908-950 | a request of a menu or form is sent when none waits, and a list gets a screen of its own |
| UiDiscipline.InterfaceIsConsistent | clientf/terminal_ui.cpp:908-950 | a reservation is outstanding exactly while a message awaits its answer, and no stop for an inconsistent operation, second reservation or unexpected answer is reachable |
| UiDiscipline.NumbersSelectConversations | clientf/terminal_ui.cpp:830-842 | a notification number selects, at any later time, the conversation it was shown for |
| UiDiscipline.StepKeeps | clientf/terminal_ui.cpp:397-440 | every step of either thread keeps the interface and store invariants, and every conversation its handle |
| UiDiscipline.OpenKeeps | clientf/terminal_ui.cpp:354-364 | a conversation is ensured only while nothing is reserved |
| UiDiscipline.SubmitKeeps | clientf/terminal_ui.cpp:768-825 | a reservation is made on the conversation shown and held exactly by its operation |
| UiDiscipline.ConsumeKeeps | clientf/terminal_ui.cpp:971-989 | taking an answer settles the reservation: committed, cancelled, or the connection stops |
| TerminalUis.TerminalUi.Perform | clientf/terminal_ui.cpp:397-440 | every step of either thread, as the methods run it in place, is the step of the state machine and keeps the interface invariant |
| TerminalUis.TerminalUi.Run | clientf/terminal_ui.cpp:397-440 | so is any interleaving of steps of both threads: everything proved of runs holds of the object |
| TerminalUis.TerminalUi.ProcessEnter | clientf/terminal_ui.cpp:584-612 | the method refines the Enter key on conversations, menus, forms and lists; notification numbers are SelectNotification |
| TerminalUis.TerminalUi.OpenNotifications | clientf/terminal_ui.cpp:336-347 | the method refines the notification key |
| TerminalUis.TerminalUi.SelectNotification | clientf/terminal_ui.cpp:827-845 | the scan over the summaries opens exactly the conversation the number stands for, if it still has unread messages |
| TerminalUis.TerminalUi.OpenConversation | clientf/terminal_ui.cpp:354-364 | the method refines the open step on interface and store |
| TerminalUis.TerminalUi.BeginOperation | clientf/terminal_ui.cpp:908-950 | the method refines the begin step: a request over the limit, one while another waits, and a failed write, which gives the reservation back |
| TerminalUis.TerminalUi.SubmitConversation | clientf/terminal_ui.cpp:768-825 | the method refines the submit step: empty, invalid or too long drafts are refused by their encoded length, and what cannot be sent is not left reserved |
| TerminalUis.TerminalUi.ApplyForegroundResponse | clientf/terminal_ui.cpp:1005-1175 | the method refines the answer step for accepted messages, failures and pages |
| TerminalUis.TerminalUi.ConsumeResponse | clientf/terminal_ui.cpp:971-989 | the method refines the top of the loop |
| TerminalUis.TerminalUi.LeaveLoop | clientf/terminal_ui.cpp:435-438 | leaving the loop cancels an outstanding reservation |
| TerminalUis.TerminalUi.HandleMessage | clientf/terminal_ui.cpp:245-265 | the method refines the arrival of a message |
| TerminalUis.TerminalUi.HandleAnswer | clientf/terminal_ui.cpp:267-291 | the method refines the arrival of an answer |
| GroupNames.MakeRoomLaw | clientf/terminal_ui.cpp:1260-1271 | eviction ends with room or with pinned names only, removes unpinned names in least-recently-used order and no more than needed |
| GroupNames.ShortNamesAreAlwaysCached | clientf/terminal_ui.cpp:1250-1280 | with at most 256 pinned groups and names of at most 128 bytes every name is cached, nothing pinned is lost and at most one entry goes |
| GroupNames.BadNamesAreIgnored | clientf/terminal_ui.cpp:1250-1252 | a number that is no group's, or a name over the limit, changes nothing |
| GroupNames.CachedExactlyWhenThereIsRoom | clientf/terminal_ui.cpp:1260-1280 | whatever its length, a new name is cached exactly when there is room after the eviction, and nothing else is added |
| PinnedNames.ServerNamesAreAlwaysCached | clientf/terminal_ui.cpp:1242-1280 | that holds after any calls, with the pins taken from any reachable session store: no group with a conversation loses its name |
| GroupNames.ReplacingKeepsTheLimitExactlyWhen | clientf/terminal_ui.cpp:1252-1259 | replacing a name keeps the byte limit exactly when the new name fits what the old one leaves: that branch has no check |
| GroupNames.ReplacingCanExceedTheLimit | clientf/terminal_ui.cpp:1252-1259 | three calls that leave twice the limit in the cache |
| GroupNames.NameCache.CacheGroupName | clientf/terminal_ui.cpp:1250-1280 | the method refines the caching step and keeps entry count and byte total exact |
| GroupNames.NameCache.FindVictim | clientf/terminal_ui.cpp:1262-1268 | the scan finds the unpinned name used longest ago, none exactly when all are pinned |
| InputFields.EditingIsSafe | clientf/terminal_ui.cpp:501-517 | under any sequence of edits with valid text the field stays valid UTF-8 within 65,536 bytes, the cursor stays between characters, and an unchanged revision means unchanged text |
| InputFields.BoundaryIff | clientf/terminal_ui.cpp:121-137 | in valid text the places between characters are exactly the ends and the places before a byte that is no continuation |
| InputFields.InsertedAtCursor | clientf/terminal_ui.cpp:159-165 | inserted text stands between what was before the cursor and what was behind it; what does not fit changes nothing |
| InputFields.ErasedIsOneCharacter | clientf/terminal_ui.cpp:166-179 | erasing takes away exactly the character before or at the cursor |
| InputFields.ReplacedWhole | clientf/terminal_ui.cpp:194-207 | replacing and clearing put the cursor at the end of the new text and count as an edit; what is too long, and clearing what is empty, change nothing |
| InputFields.NextIsOneCharacter | clientf/terminal_ui.cpp:130-137 | the next boundary is one character further |
| InputFields.EraseUndoesInsert | clientf/terminal_ui.cpp:159-173 | erasing before the cursor undoes the insertion of one character |
| InputFields.MovesUndoEachOther | clientf/terminal_ui.cpp:180-191 | left undoes right exactly when the cursor is not at the end, right undoes left exactly when it is not at the start; both also hold of empty text |
| InputFields.EraseAtIsMoveAndErase | clientf/terminal_ui.cpp:174-179 | erasing at the cursor is moving right and erasing before it |
| InputFields.InputField.InsertText | clientf/terminal_ui.cpp:159-165 | the method refines insertion, refusing what does not fit |
| InputFields.InputField.EraseBeforeCursor | clientf/terminal_ui.cpp:166-173 | the method refines erasing before the cursor |
| InputFields.InputField.ReplaceText | clientf/terminal_ui.cpp:201-207 | the method refines replacement |
| Framing.FrameReader.ReadFrame | serverf/client_session.cpp:24-74 | for every chunking the next frame is the next line of the bytes still unread, and the buffer never holds more than limit + 1 bytes; only when the connection is told to stop before a line has arrived is the result a transport failure, and then nothing read is lost |
| Framing.FrameReader.ReadAll | clientf/client_connection.cpp:628-679 | the frames read are those of the whole stream, however it arrived; when the connection is told to stop they are a beginning of them |
| Framing.TooLargeExactlyAtTheFirstLongLine | serverf/client_session.cpp:24-74 | the frames are the lines with one trailing CR removed, up to the first line longer than the limit, where the stream is refused; an empty remainder is a clean end and any other an incomplete frame |
| Framing.LinesAreTheBytes | serverf/client_session.cpp:24-74 | lines and remainder put together are the bytes received, and no line holds a newline |
| Framing.ReadingUndoesWriting | serverf/client_session.cpp:76-99 | frames without newline, within the limit and not ending in CR are read back as written, in order |
| Framing.ServerReadsWhatTheClientSends | clientf/client_connection.cpp:447-474 | the server reads exactly the requests the client agreed to send |
| Markers.FindBeyond | clientf/console_input_posix.cpp:229-255 | the first marker of a text whose beginning cannot start one is the first of the rest |
| Markers.BufferSettles | clientf/console_input_posix.cpp:247-254 | a buffer without a marker settles everything but a beginning of a marker at its end |
| PosixPaste.PasteDecoder.ReadPaste | clientf/console_input_posix.cpp:229-255 | for every chunking the paste carries exactly the bytes before the first end marker, or is too large exactly above 65,536 bytes, and what follows stays in the input |
| PosixText.EventsInPieces | clientf/console_input_posix.cpp:317-343 | how typed bytes are cut into reads does not change the events |
| PosixText.PrintableTextArrives | clientf/console_input_posix.cpp:331-342 | printable text arrives as its characters, one event each |
| PosixText.TypingArrives | clientf/console_input_posix.cpp:317-343 | characters and control keys in any order arrive as typed, one event each |
| PosixText.BrokenBytesAreReported | clientf/console_input_posix.cpp:331-343 | a byte that begins no character is reported and skipped by itself; what may still become a character is waited for |
| PosixText.TextDecoder.ReadText | clientf/console_input_posix.cpp:317-364 | the decoder refines the whole-string events |
| WidePaste.WideDecoder.ReadPaste | clientf/console_input_windows.cpp:590-632 | the UTF-16 form refines the same whole-string paste: retained marker beginnings and surrogates split between chunks make no difference |
| WidePaste.WideDecoder.LongestBeginning | clientf/console_input_windows.cpp:615-625 | the retained suffix leaves no beginning of a marker behind |
| WidePaste.ScanIsDecode | clientf/console_input_windows.cpp:723-761 | unit-by-unit pairing of surrogates decodes the whole paste and finds it malformed exactly when the standard does |
| WidePaste.DecodeUndoesEncode | clientf/console_input_windows.cpp:723-761 | well-formed UTF-16 is read back as its scalar values |
| Utf8.IsValidUtf8 | databasef/database_internal.h:182-224 | the server's range checks accept exactly the strings of section 4 of RFC 3629 |
| Utf8.ValidUtf8 | clientf/terminal_screen.cpp:148-157 | the screen's checker accepts exactly the same strings |
| Utf8.DecodeCodePoint | clientf/terminal_screen.cpp:24-58 | it accepts exactly a UTF8-char and returns its scalar value and length |
| Utf8.ValidUtf8Sequence | clientf/console_input_posix.cpp:44-60 | the second-byte tests accept exactly a UTF8-char of the announced length |
| Utf8.LeadTailsSecond | clientf/console_input_posix.cpp:36-60 | announced length, continuation bytes and second-byte tests together are the grammar of section 4 of RFC 3629 |
| Utf8.EncodeThenDecode | clientf/terminal_screen.cpp:24-58 | decoding inverts the encoding of every scalar value, whatever follows |
| Utf8.DecodeThenEncode | clientf/terminal_screen.cpp:24-58 | what is decoded is a scalar value whose encoding is exactly the bytes consumed |
| Utf8.ValidIffEncoded | databasef/database_internal.h:182-224 | a string is valid exactly when it encodes some sequence of scalar values |
| Layout.SafeTextIsSafe | clientf/terminal_screen.cpp:159-173 | escaping is idempotent and keeps the display width, for any width function |
| Layout.SafeTextIsClean | clientf/terminal_screen.cpp:80-125 | whatever was received, what is shown is well-formed UTF-8 without control, reordering or invisible characters |
| Layout.SafeTextHasNoControls | clientf/terminal_screen.cpp:88-125 | safe text never holds a control byte, whatever was received |
| Layout.EscapedByteReadsBack | clientf/terminal_screen.cpp:60-67 | an escaped byte can be read off its two digits |
| Layout.EscapedCharacterReadsBack | clientf/terminal_screen.cpp:69-78 | an escaped character can be read off its digits, which have no leading zero |
| Layout.ShowableIsUnchanged | clientf/terminal_screen.cpp:88-125 | text without unsafe, broken or invisible characters is shown unchanged |
| Layout.RowsAreFilled | clientf/terminal_screen.cpp:186-200 | a row is left only when the next unit does not fit on it |
| Layout.ClipToWidth | clientf/terminal_screen.cpp:175-184 | clipping returns the longest beginning of whole units within the width |
| Layout.BuildUnits | clientf/terminal_screen.cpp:88-125 | the loop over offsets builds the units of the text |
| Layout.WrapToWidth | clientf/terminal_screen.cpp:186-200 | the loop over rows computes the specified wrapping |
| Layout.WrappedRowsAreTheText | clientf/terminal_screen.cpp:186-200 | the rows put together are the safe text, and all rows fit exactly when no unit is wider than the width |
| Layout.TooWideStaysTooWide | clientf/terminal_screen.cpp:190-197 | past a unit that is too wide the subtraction wraps and no new row is started |
| Wire.EnvelopeRoundTrip | serverf/durable_routing.cpp:117-135 | the client accepts the envelope of a well-formed delivery and reads that delivery back |
| Wire.AcceptedEnvelopesAreEncodings | clientf/client_connection.cpp:58-103 | the client accepts nothing but envelopes the server writes |
| Wire.RequestRoundTrip | serverf/durable_routing.cpp:381-421 | the client's page requests are read as meant exactly when their cursors are in order |
| Wire.RequestIsReadExactlyWhen | serverf/durable_routing.cpp:381-421 | which page requests are read and as what: no other fields, numbers within their bounds, cursors in order, and defaults for absent fields |
| Wire.AcceptedRequestsMeetTheDatabase | serverf/durable_routing.cpp:381-421 | a request the server lets through meets the database's own page checks |
| Wire.RecordsRoundTrip | clientf/client_connection.cpp:930-952 | the records of a page arrive as stored, in order |

## Left out

- Sockets, Boost.Asio, threads, condition variables, polling, console handles: only the atomic steps they expose are modelled, namely bytes arriving, the stop flag, a channel cut.
- SQLite: statements, schema inspection, migration, disk failure, and a rollback that itself fails.
- JSON text: parsing, printing and the order of fields; frames are decoded values, with an encoded length where sizes matter.
- Password hashing, login checks, logging, prompts, and the tracker that joins handler threads.
- Contacts, user and group search, and group lists: the same paging shape without a watermark or a stable set.
- Drawing, menus, scrolling and header text; the interface's menus are reduced to the choices that reach the store or a request.
- Escape-key timeouts and key tables, which depend on the clock; the text and paste paths are modelled.
- Foreground requests other than messages are not events of the delivery state machine; HISTORY has its own results over the tables.
- The conversation key is compared as a value; how the store reads it again out of a JSON object is modelled only as far as a missing or mistyped field makes a conflict.
- NUL input records on Windows and the console's own line editing.
- The id-based reads getPendingMessages and getAuthorizedHistory and the old offline-message calls, and the registry's unused snapshot of ready sessions.
- The group-name cache's use counter and an edit field's revision counter do not wrap here: 2^64 operations would be needed.
- ClientConnections.ClientConnection.RequestStop: the completion of a pending authentication, the shutdown of the socket and the stop handler are not modelled; the socket's end is the channel cut of the state machine.
- ClientConnections.ClientConnection.DispatchFrame: discovery and history responses are handed on without their field checks, which HistoryClient treats separately for history pages.
- ClientConnections.ClientConnection.AssociateResponse: operation names are not compared, because a client has one request waiting at a time.
- MessageBuffers.MessageBuffer.Snapshot: the order in which the code lists the summaries is not kept; they are a map here.
- TerminalUis.TerminalUi.BeginOperation: what the write comes to is a parameter, and so is the encoded length of requests other than messages.
- TerminalUis.TerminalUi.SubmitConversation: what the write comes to is a parameter.
- TerminalUis.TerminalUi.ApplyForegroundResponse: the field checks of list pages are collapsed into the kind of the answer.
- TerminalUis.TerminalUi.HandleAnswer: whether an answer names the expected operation is a parameter.
- PosixText.EventsInPieces: typed escape sequences are not among the events, because their end depends on the clock.
- PosixText.TextDecoder.ReadText: the branch for escape sequences is left out with them.
- Evolution.AcceptLaw: when ids are exhausted the acceptance fails, while the database would try to find an unused row id; history is never deleted, so none below the newest is known to be free.
- SyncCompleteness.SynchronizationIsComplete: that a synchronization goes inactive at all needs a connection that stays up and a server that answers; SyncProgress proves that it does then, for one schedule of the connection's events, and no fairness of threads is modelled beyond that.
- SyncProgress.SynchronizationSucceeds: other sessions stand still during the exchanges, and the store's room is a condition.
- DeliveryTheorems.HonestServerNeverTrips: the client's own limits may still stop it, its request queue of 256 entries and its store of 16 MiB.
- Runs start from empty tables, the old message table included; importing a filled one is treated over all consistent tables by LegacyImport.
- A client's stop is tested between the records of a page and after it; the model takes one interruption per frame.
- Allocation failure anywhere.
