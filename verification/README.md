# Agent OS: a model of its sync plane, stores and graph tools

Dafny models of the parts of Agent OS that carry promises across many steps, and proofs of those promises.
`dafny verify dfyconfig.toml` checks the whole project.

| component | files | what is modelled |
|---|---|---|
| up-sync | `Outbox`, `OutboxReading`, `Drain`, `DrainRuns`, `DrainAccounting` | the append-only outbox file and its byte cursor, bounded reading, the drain batch by batch, and whole runs with failures anywhere |
| down-sync, events | `Follow`, `FollowRuns` | the backward keyset walk over a growing feed, and whole runs of a following client |
| down-sync, tasks | `Cards`, `Inbox`, `InboxRuns` | the card projection, the task poller, and whole runs beside a changing center |
| database graph | `DbGraph`, `DbTargeted`, `DbMeaning`, `DbGraphJson`, `Neighborhood` | the full and the targeted build of a schema graph, what its nodes and edges say about the catalog, bounded discovery, and the written output |
| path search | `PathSearch`, `PathCounts`, `Neighborhood` | bounded simple-path search, how often and in which order its answers come, and subgraph expansion |
| chunker | `Tokeniser`, `Segments`, `Chunking`, `SegmentMeaning`, `MessageChunks`, `MessageMeaning` | token estimate, splitters, overlapping window packing, message packing, and where each of them cuts |
| identity | `Identity`, `IdentityAgreement` | first-run creation of the identity file as interleaved system calls |
| migrations | `Migrate`, `MigrateRuns` | the runner over a connection with a committed and a working database, and repeated failing attempts |
| memory | `MemoryStore`, `WritePass`, `MemoryIngest`, `Retrieval` | the four tables, the write pass over any list, batch ingest, rank fusion, per-document quota |
| ids | `Identifiers`, `Lexical` | prefixed ULIDs and the string order |
| shared | `Options`, `Basics` | optional values, sequence ends, bounds, the server's page size |

Objects that update their fields are classes (`SyncDir`, `Drainer`, `Central`, `Poller`, `CardTable`, `MultiDiGraph`,
`Connection`, `Store`), their methods proved against functions on values; protocols with crashes and several
actors are step machines on values, and what one batch or poll does is tied to those machines by
`BatchIsARun` and by the mirror clause of `PollOnce`.

## Where the code and its own words differ

The models follow the code.

- `_outbox_generation` is stable under appends only once the outbox has 4096 bytes; below that a later append makes
  the cursor read 0. `CursorResetExact` says exactly when, `ResetsAreFinite` how often.
- `walk_new_events` says a truncated walk leaves the older span reachable; it moves the cursor above that span, so
  the span is lost and the newer events repeat. `ExactlyOnceIff` gives the exact condition, `OverflowCost` the cost,
  `AnyReachIsExceeded` a feed for every page size and count.
- A follower that starts with an empty board takes its first events for a baseline and never prints them
  (`BaselineSwallows`).
- `poll_once` with a limit above the server's maximum of 500 stops after one page (`PollSettlesExactly`,
  `LargeLimitStopsEarly`).
- `chunk_messages` may exceed its budget by the role prefix of a split message. `OutputBudgetExact` gives the exact
  condition on the messages, `ShortMessagesFit`, `LongRoleOverflows` and `ShortTextOverflows` what a caller sees in
  advance, `BudgetCanBeExceeded` the smallest example.
- First-run agreement does not hold from a stale unreadable file, with mixed claim branches, or on the lock branch
  when the winner is slow enough for its file to look stale (`AgreementIff` and three concrete runs).
- `ingest_documents` keys vectors by document id, so a batch that repeats an id can store chunks beside foreign
  vectors, and cut to the shorter chunk list. `OwnVectorsIff` gives the exact condition on the write list,
  `DuplicateIdsMixVectors` a batch that ends so although no call fails.
- The migration runner asks for a guard on every statement of a file without a transaction. What it needs is less:
  that running the file whole after any part of it leads where one run leads (`RerunWholeIsNeeded`); a drop that
  precedes its create meets that (`DropThenCreate`).

## Model

| member | source | states |
|---|---|---|
| DrainRuns.NoEventIsLost | outbox/drain.py:387-442 | In every state reachable by any sequence of whole, torn or interleaved appends, batch steps, transport failures, crashes between any two effects, lost cursors and recreated outboxes: every complete non-blank line ending at or before the cursor is in the dead-letter log or has a row that carries its event id and was there at the start or is what a line of the outbox decodes to; every row of the table was there at the start or is, unaltered, what a line of the outbox decodes to; the cursor is on a line boundary, and no event id is stored twice |
| DrainRuns.RowsHaveOrigin | database/events.py:42-46 | Along every run a row of the table was there before or is, with all it carries, what a line of the outbox decodes to |
| DrainRuns.EveryEventIsStored | outbox/drain.py:387-442 | When an event id names one event, every complete non-blank line up to the cursor that is not dead-lettered is itself a row of the table, unaltered |
| DrainRuns.StepKeepsInv | outbox/drain.py:398-442 | Each single step of the plane keeps the invariant behind that: what is read, exchanged, dead-lettered or passed by the cursor stays accounted for |
| DrainRuns.InvHolds | outbox/drain.py:387-442 | The invariant holds along every run |
| DrainRuns.ExchangeKeepsInv | outbox/drain.py:405-437 | After an exchange, whatever the server stored or the reply said, a resolved batch is covered by the table together with what is still to be dead-lettered |
| DrainRuns.DeadLettersStay | outbox/store.py:129-177 | Along every run dead letters are only added, and every line refused for its size is among them |
| DrainAccounting.LinesAreConserved | outbox/drain.py:405-442 | Over any run of retries and transport failures without a crash, on an outbox of at least 4096 bytes, the lines before the cursor are, as a multiset, the delivered plus the dead-lettered ones: each counted once however often its batch was retried |
| DrainAccounting.BatchIsARun | outbox/drain.py:398-442 | One drain batch is one run of the step machine and has exactly the effect the batch method promises |
| DrainAccounting.LedgerHolds | outbox/drain.py:398-442 | The ledger of lines before the cursor stays balanced through every step of a run |
| DrainAccounting.BatchIsPartitioned | outbox/drain.py:405-437 | A resolved batch splits, without loss or repetition, into delivered, malformed and refused lines |
| Drain.Drainer.DrainBatch | outbox/drain.py:387-442 | One batch: empty, failed or resolved exactly as the reply says; the cursor and the dead-letter log change only when the whole batch is resolved, the table only as the server committed |
| Drain.Drainer.DrainAll | outbox/drain.py:466-475 | Whatever happens to each exchange, the batches are resolved in order up to the first one whose exchange fails, and all of them when none does; then nothing is pending, and over n ordinary lines it took exactly ceil(n / batch size) batches |
| Drain.Central.InsertEventIfAbsent | database/events.py:111-124 | An event is inserted, as it was sent, exactly when no row has its id; the rows before it stay |
| Drain.Central.IngestBatch | database/events.py:111-124 | One verdict per event, in order: refused as the validation says, accepted exactly when it is the first valid event of an id the table does not have; those are stored as they were sent, old rows stay, and nothing else is added |
| Drain.IngestStores | database/events.py:42-46 | Said without the insertion: after a batch every row is an old one or a non-refused event of the batch, and the first non-refused event of every new id is itself a row |
| Drain.TriageMeans | outbox/drain.py:405-414 | The lines of a batch that decode are sent, each with its event, and the others dead-lettered as unparseable; both in file order |
| Drain.RejectedMean | outbox/drain.py:424-437 | Of the lines sent exactly those whose event the server refuses are dead-lettered as rejected, in order |
| Drain.Triage | outbox/drain.py:405-414 | Malformed lines are set aside and well-formed ones sent, each in file order |
| Drain.Judge | outbox/drain.py:415-437 | A reply resolves the batch only when it is HTTP 200 with one known verdict per event; the refused lines are those with a refusing verdict |
| OutboxReading.BatchesRefineParse | outbox/drain.py:398-442 | Successive bounded batches concatenate to the single unbounded parse of what lies past the cursor, in ceil(n / batch size) batches |
| OutboxReading.ParseSound | outbox/store.py:242-304 | Every record handed out is a complete non-blank line of the range, with the offset just past its newline |
| OutboxReading.ParseComplete | outbox/store.py:242-304 | A complete non-blank line is handed out if and only if the bounded read got to it |
| OutboxReading.EndsRise | outbox/store.py:242-304 | A read hands out no more records than it may, and every record ends after the one before it, so none comes twice |
| OutboxReading.ReadIsBounded | outbox/store.py:242-304 | Neither bound of a read is exceeded: not the number of records, and not the bytes from its start |
| OutboxReading.BatchFillsRange | outbox/store.py:242-304 | Whatever bound stopped a batch, it is the whole parse of the range it covers |
| OutboxReading.SplitAtBoundary | outbox/store.py:242-304 | Reading a range in two goes split at a line boundary gives the same records |
| OutboxReading.ParseStable | outbox/store.py:242-304 | Appending never changes what was readable before |
| OutboxReading.EndsAtBoundary | outbox/store.py:242-304 | Every cursor a batch writes lies on a line boundary and moves past the old one |
| OutboxReading.WindowHoldsBatch | outbox/drain.py:398-404 | With non-blank lines within the line cap the byte bound of a batch never cuts it short |
| OutboxReading.EmptyBatchExact | outbox/drain.py:398-404 | A batch is empty exactly when no complete non-blank line ends inside its byte window |
| OutboxReading.EmptyMeansDrained | outbox/drain.py:398-404 | With ordinary lines a batch is empty exactly when no complete line lies past the cursor |
| OutboxReading.CursorResetExact | outbox/store.py:101-123 | A written cursor is read back unchanged, or as 0 exactly when the outbox was shorter than 4096 bytes at the write and has since grown |
| OutboxReading.ResetsAreFinite | outbox/store.py:180-239 | Within one incarnation fewer than 4096 cursors are ever lost to such a reset |
| Outbox.SyncDir.AppendLine | outbox/store.py:129-151 | A line with a newline is refused, one over the cap is dead-lettered, any other is appended whole |
| Outbox.SyncDir.ReadCursor | outbox/store.py:180-221 | The stored offset, or 0 when it is absent, unusable, negative, past the end or of another incarnation; never past the end |
| Outbox.SyncDir.WriteCursor | outbox/store.py:224-239 | A negative offset is refused; otherwise offset and present head token are stored |
| Outbox.SyncDir.ReadPending | outbox/store.py:242-304 | The bounded read returns exactly the records its bounds admit from the clamped start |
| Outbox.ScanLines | outbox/store.py:276-304 | The read loop returns exactly the complete non-blank lines of the chunk, up to the event bound |
| FollowRuns.ExactlyOnceIff | services/m3_client/__main__.py:86-125 | Over any run of polls, failed polls and clean restarts the concatenated output is exactly the events between the first and the last cursor, in order, if and only if no poll found more new events than its pages could hold |
| FollowRuns.CursorNeverFalls | services/m3_client/follow.py:96-119 | The cursor never decreases |
| FollowRuns.SavedIsPrinted | services/m3_client/__main__.py:109-125 | Output is never taken back, and the saved cursor changes only by a poll that printed something and reached the server |
| FollowRuns.KilledPollPrintsPart | services/m3_client/__main__.py:105-125 | A poll that is killed while it prints has printed exactly a first part of what it would have printed |
| FollowRuns.RestartResumes | services/m3_client/__main__.py:91-98 | A restarted client goes on from the saved cursor if it can load one, and else behind everything in its first snapshot |
| FollowRuns.BrokenStays | services/m3_client/follow.py:99-119 | An overflow is never mended by later polls: a missing or repeated event stays missing or repeated |
| FollowRuns.OverflowCost | services/m3_client/follow.py:103-112 | What an overflow costs: past the reach of the walk the older new events are never printed, and the ones above the oldest collected are printed again |
| FollowRuns.AnyReachIsExceeded | services/m3_client/follow.py:103-112 | For every page size and page count a feed with one more new event than a walk can read: the cursor passes that event and it is never printed |
| FollowRuns.NothingMissed | services/m3_client/__main__.py:105-125 | Through any kills while printing and restarts that find the saved cursor, no event up to the cursor is missing from the output |
| FollowRuns.BaselineSwallows | services/m3_client/follow.py:77-79 | A client without any cursor takes whatever the first non-empty poll finds for seen: those events are never printed, all later ones exactly once |
| FollowRuns.SmallBurstsAreClean | services/m3_client/follow.py:27-119 | Fewer new events than pages times page size never overflow while the feed holds something at or before the cursor |
| FollowRuns.PollMoves | services/m3_client/follow.py:27-119 | One poll in feed positions: to the top of the feed, or on overflow to the oldest event collected |
| Follow.WalkNewEvents | services/m3_client/follow.py:27-119 | Whatever is appended between its requests, the walk returns what was new at its first request, ascending, with the cursor the code documents; a failed request fails the walk |
| Follow.TakeNewer | services/m3_client/follow.py:81-87 | The part of a page above the first event at or before the cursor |
| Follow.PageMeetsCursor | services/m3_client/follow.py:81-91 | A page holds the boundary exactly when the cursor lies inside it |
| Follow.NextPage | services/api/app.py:563-575 | An older page does not depend on what was appended since the walk began |
| InboxRuns.CardsConverge | mcp/task_inbox.py:158-199 | After any run with crashes, refusals, retries, lost cursors and central updates at any moment, every central task at or before the stored cursor has exactly one local card, showing its mapped status, its version and its content |
| InboxRuns.StepKeepsInv | mcp/task_inbox.py:138-199 | Each single step (central write, fetch, one projection, cursor write, crash) keeps the invariant behind that |
| InboxRuns.InvHolds | mcp/task_inbox.py:138-199 | The invariant holds along every run |
| InboxRuns.FreshPage | services/api/app.py:581-597 | A page just read misses no task up to its last number and holds only current rows |
| InboxRuns.ProjectKeeps | mcp/task_inbox.py:138-155 | A projection from a page, stale or not, shows its own task and spares every task already passed |
| InboxRuns.PollGetsOn | mcp/task_inbox.py:158-199 | Undisturbed, a poll with something pending projects its first page whole, in order, and stores the number of its last task |
| Inbox.Poller.PollOnce | mcp/task_inbox.py:158-199 | One poll: the cards are the old ones with the done tasks projected in order, the cursor stands past whole pages only, other sources keep theirs; it starts and ends in step with the center; it raises only when one of its requests is unanswered or one of the answered tasks is refused or cannot be read back; on a quiet server it takes exactly the pending tasks within its reach; undisturbed it returns, and leaves nothing pending exactly when the pending tasks are within its reach |
| Inbox.Poller.ApplyPage | mcp/task_inbox.py:138-155 | A page is projected in order up to the first projection that reports an error |
| Inbox.PollSettlesExactly | mcp/task_inbox.py:175-199 | Having done all within its reach, a poll leaves nothing pending if and only if the pending tasks fit its pages, or one server page when the limit is above 500 |
| Inbox.LargeLimitStopsEarly | mcp/task_inbox.py:197-198 | A client of the poll: with a limit of 501, a thousand pages, 501 pending tasks and nothing failing, it stops after one page of 500 and leaves work |
| Inbox.SettledMeansMirrored | mcp/task_inbox.py:158-199 | When nothing is pending each central task has exactly one card, and it shows the task |
| Inbox.WholePage | mcp/task_inbox.py:183-196 | A page projected whole may be passed: everything up to its end is then mirrored |
| Inbox.PartOfPage | mcp/task_inbox.py:146-155 | A page projected in part leaves everything the cursor has passed mirrored |
| Inbox.MirrorSurvivesWrites | services/api/app.py:581-597 | Central writes after the cursor was stored only add work past it |
| Inbox.CursorRoundTrip | mcp/task_inbox.py:84-122 | A written cursor is read back, and every other source keeps its own |
| Cards.CardTable.ApplyTaskProjection | mcp/card_tools.py:447-519 | One projection: refused without effect, or the card of the task is created or updated; reported as done only if it can be read back |
| Cards.ProjectionShows | mcp/card_tools.py:483-513 | The projected task is shown and no identity gets two cards |
| Cards.ProjectionSpares | mcp/card_tools.py:483-513 | A projection leaves every other task shown as it was |
| Cards.ProjectionKeepsContent | mcp/card_tools.py:457-513 | Status and version are always the task's; title, description and priority are where the task carries them and otherwise stay as the card has them |
| Cards.ProjectionCreates | mcp/card_tools.py:457-513 | A card is added exactly when none carries the identity |
| Cards.ProjectionIsIdempotent | mcp/card_tools.py:457-462 | Projecting again changes nothing |
| Cards.ProjectionKeepsCards | mcp/card_tools.py:457-462 | No projection drops a card, changes a display id or an identity, or touches a card of another identity |
| Cards.ProjectionKeepsOwnIds | mcp/card_tools.py:447-519 | A projection that is not refused gives no card the display id of another |
| Cards.StatusRoundTrip | contracts/tasks.py:111-139 | Each of the four sync statuses maps to the local status the tables name and each local one back; local to sync to local is the identity exactly on the three local statuses; sync to local and back loses exactly the blocked state; neither leaves its vocabulary |
| DbTargeted.FilteredBuildIsInduced | mcp/db_tools/build_db_graph.py:316-502 | For any set of objects of a consistent catalog, the build over the filtered rows equals the subgraph of the full build induced on them: same nodes, edges, order and attributes, with the PK, FK and referenced flags |
| DbGraphJson.TargetedOutputIsRestriction | mcp/db_tools/build_db_graph.py:835-855 | Written out, the targeted graph is the full output restricted to the kept nodes |
| DbGraphJson.WrittenEdges | mcp/db_tools/build_db_graph.py:840-848 | Written are exactly the edges of the graph that leave a listed node, each with its attributes and with the number of earlier parallel edges for a key |
| DbGraphJson.WrittenOrder | mcp/db_tools/build_db_graph.py:840-848 | They are written by source in node order, then by target in the order first linked, then by key |
| DbGraphJson.WrittenOnce | mcp/db_tools/build_db_graph.py:840-848 | With distinct node ids no edge is written twice |
| DbTargeted.BuildIsDeclared | mcp/db_tools/build_db_graph.py:643-832 | The build of a consistent catalog has one node per object and one edge per relation whose ends exist, in row order |
| DbMeaning.ColumnFlags | mcp/db_tools/build_db_graph.py:643-740 | The one node of a column of a consistent catalog is a foreign key exactly when some foreign-key row has the column as its parent side, referenced exactly when some row has it as its referenced side, and its primary-key entry is the last key row of that column |
| DbMeaning.NodesMean | mcp/db_tools/build_db_graph.py:643-832 | The nodes of the build are exactly those of the table rows, the column rows with their flags and the routine rows of a known type, each id once |
| DbMeaning.EdgesMean | mcp/db_tools/build_db_graph.py:643-832 | The edges of the build: one from its table to each column, then one for each foreign-key row whose two columns are there, then one for each dependency row whose routine and object are there, each in row order |
| DbTargeted.BuildTargeted | mcp/db_tools/build_db_graph.py:1244-1317 | The targeted build is the induced subgraph on the objects within max_depth hops of the entry object, or the empty graph when the entry does not exist |
| DbTargeted.ResolveEntry | mcp/db_tools/build_db_graph.py:1172-1188 | An entry resolves to the id of an object it names, or to nothing exactly when there is none |
| DbTargeted.NeighbourhoodIs | mcp/db_tools/build_db_graph.py:1191-1241 | An object is in the neighbourhood of the entry exactly when it is the entry or a chain of at most max_depth foreign-key and dependency rows, each followed either way, leads to it |
| DbTargeted.AttrsFiltered | mcp/db_tools/build_db_graph.py:372-436 | A column of a kept table keeps its primary-key, foreign-key and referenced flags under the filters |
| DbTargeted.LinksFiltered | mcp/db_tools/build_db_graph.py:399-436 | Foreign-key edges of the filtered rows are the foreign-key edges between kept columns |
| DbTargeted.CreatesFiltered | mcp/db_tools/build_db_graph.py:466-502 | Dependency edges of the filtered rows are the dependency edges between kept nodes |
| DbGraph.BuildGraph | mcp/db_tools/build_db_graph.py:643-832 | The build loops compute the specified graph over the row lists |
| DbGraph.MultiDiGraph.AddEdge | mcp/db_tools/build_db_graph.py:632-640 | An edge to an unknown node adds the node without attributes |
| DbGraph.PutNodeMeans | mcp/db_tools/build_db_graph.py:632-640 | A node added under a new id goes behind the others; under a known id it keeps its place |
| DbGraphJson.PlainNamesAreDistinct | mcp/db_tools/build_db_graph.py:599-608 | Without dots in schema and table names and without repeated names, every node id names one object, which is what a consistent catalog needs |
| Neighborhood.DiscoverObjectIds | mcp/db_tools/build_db_graph.py:1191-1241 | Expanding only new frontier ids finds exactly the objects within max_depth undirected hops |
| Neighborhood.GetSubgraph | mcp/shared_graph_tools.py:239-283 | Whole-level expansion finds the same ball around its seeds; returned are one record for each found id that has any, the last under that id, and the edges between found ids in graph order |
| Neighborhood.ByIdIsLast | mcp/shared_graph_tools.py:256 | The record kept under an id is the last one of the graph that has it |
| Neighborhood.FilterKeeps | mcp/shared_graph_tools.py:276-277 | The edges of a subgraph are exactly the edges of the graph with both ends in it, in graph order, parallel ones as often as they occur |
| Neighborhood.BallIsReach | mcp/db_tools/build_db_graph.py:1191-1241 | That ball is exactly what walks of at most so many hops reach |
| Neighborhood.FrontierStep | mcp/db_tools/build_db_graph.py:1215-1241 | Expanding the frontier alone adds what expanding everything discovered would |
| PathSearch.FindPaths | mcp/shared_graph_tools.py:187-236 | The queue loop ends and returns the first ten answers of the level-by-level order |
| PathSearch.SearchIsExact | mcp/shared_graph_tools.py:204-229 | Every returned path is a simple chain of real edges from source to target within max_depth; lengths never decrease; no omitted path is shorter than a returned one; fewer than ten results are all there are |
| PathSearch.LevelExact | mcp/shared_graph_tools.py:204-229 | Level k of the queue holds exactly the simple paths of k edges not stopped on the way |
| PathSearch.FoundBelowExact | mcp/shared_graph_tools.py:204-229 | The answers popped before level k are exactly the answers with fewer than k edges |
| PathSearch.FoundBelowSorted | mcp/shared_graph_tools.py:204-229 | Answers come in non-decreasing length |
| PathSearch.BuildAdjacency | mcp/shared_graph_tools.py:205-212 | The adjacency table lists each node's hops in edge order, with the backward hops when undirected |
| PathCounts.AnswerCounts | mcp/shared_graph_tools.py:204-229 | An answer is returned at most as often as there are ways to choose an edge for each of its hops, exactly so often when fewer than ten results come back, and nothing but answers is returned |
| PathCounts.AnswersAreDistinct | mcp/shared_graph_tools.py:225-227 | When no edge is repeated, nor undirected the reverse of another under its relationship, no answer is returned twice: ten results are ten different paths |
| PathCounts.LevelCounts | mcp/shared_graph_tools.py:220-229 | An entry is queued as often as there are ways to choose an edge for each of its hops |
| PathCounts.AdjacentOrder | mcp/shared_graph_tools.py:205-212 | The hops of a node are in edge order, forwards before backwards, every usable edge once for each direction |
| PathCounts.LevelOrder | mcp/shared_graph_tools.py:220-229 | The queue starts with the source; each level extends the entries of the one before in their order, each by its hops in adjacency order, without dropping one that leads on |
| PathCounts.FoundOrder | mcp/shared_graph_tools.py:217-224 | The answers of a level are the entries at the target within the depth, in queue order |
| Chunking.ChunkProse | memory_core/chunking.py:125-198 | For a positive target the chunks are those of the packing of the segmentation of the stripped text, each within the target; without content the result is empty, a zero target is refused and a negative one yields nothing |
| Chunking.ProseIsPacked | memory_core/chunking.py:125-198 | The segments keep all content and respect the target, their windows are a greedy packing, and the chunks render those windows |
| Chunking.PackingIsWindows | memory_core/chunking.py:147-198 | Any greedy chained packing is the computed one |
| Chunking.PackedIsProse | memory_core/chunking.py:125-198 | Any rendering of any packing of the segments is the chunking |
| Chunking.WindowsAdvance | memory_core/chunking.py:147-198 | Starts and ends strictly increase, neighbours leave no gap, and the overlap is a proper tail of the earlier window within int(target * overlap_ratio) tokens |
| Chunking.WindowsCover | memory_core/chunking.py:147-198 | Every segment is in some window |
| Chunking.ChunkWithinBudget | memory_core/chunking.py:125-198 | A rendered window estimates to the sum of its segments and so to at most the target |
| Chunking.NextStartMoves | memory_core/chunking.py:152-197 | The next window starts behind the start and not behind the end of the one before, repeats no more than the overlap budget, and has room for the next segment |
| Chunking.ProseOverlaps | memory_core/chunking.py:147-198 | The chunks of a text, said outright: runs of segments that fit the target and would not with the next segment, from the first segment to the last; after a window over the overlap budget the next one starts with the longest proper tail that is within the budget and leaves room for the next segment, after any other window behind it |
| Chunking.OverlapIsLongest | memory_core/chunking.py:152-192 | In any packing of segments within the target, no segment more than is repeated between neighbours would be allowed |
| Chunking.NextStartIs | memory_core/chunking.py:152-192 | That condition on the next start is met by exactly one index, the computed one |
| Chunking.OverlapSeed | memory_core/chunking.py:152-177 | The backward walk of a flush finds the longest tail within the overlap budget |
| Chunking.Pack | memory_core/chunking.py:147-198 | The packing loop emits the greedy windows, each closed only when the next segment would not fit |
| Segments.SegmentationSplits | memory_core/chunking.py:99-122 | Segmentation loses only whitespace, and every segment is stripped, not empty and within the target |
| Segments.Segment | memory_core/chunking.py:99-122 | Paragraph by paragraph, each kept whole if it fits, else sentence by sentence, else hard-split |
| Segments.HardSplit | memory_core/chunking.py:66-96 | Words are packed greedily into slices; a word over the target is cut by characters; a zero target is refused and a negative one yields nothing |
| Segments.HardSlicesSplit | memory_core/chunking.py:66-96 | The slices lose only whitespace and respect the target |
| Segments.ParagraphsKeep | memory_core/chunking.py:99-122 | Splitting at paragraph breaks drops only whitespace |
| Segments.SentencesKeep | memory_core/chunking.py:99-122 | Splitting behind sentence ends drops only whitespace |
| SegmentMeaning.SegmentsMean | memory_core/chunking.py:99-122 | The paragraphs of a text in order, and what each gives: nothing if blank, itself stripped if that fits the target, else what its sentences give in order, each itself stripped if that fits and else hard-split |
| SegmentMeaning.ParagraphsMean | memory_core/chunking.py:38 | Between the paragraphs stand maximal runs of a newline, whitespace and a newline, and no paragraph holds such a run; put together they spell the text |
| SegmentMeaning.SentencesMean | memory_core/chunking.py:42 | Every sentence but the last ends with its only end mark, the whitespace behind it goes to the gap, the last has no end mark; put together they spell the text |
| SegmentMeaning.WordsMean | memory_core/chunking.py:73 | The words are the runs without whitespace, in order, with whitespace between, before and behind them |
| SegmentMeaning.TokensMean | memory_core/chunking.py:37 | The tokens in order with plain blanks between: runs of word characters that open with one outside the CJK ranges and go on as long as they can, and every other character by itself |
| SegmentMeaning.HardSlicesMean | memory_core/chunking.py:66-96 | A hard split of several words: the words in order, each slice a run of them with blanks between that fits the target and would not with the next word, a word over the target cut by characters; a single word is cut by characters |
| SegmentMeaning.CharSplitIsFull | memory_core/chunking.py:52-63 | Every character slice but the last holds exactly the target |
| SegmentMeaning.JoinMeans | memory_core/chunking.py:80-95 | A joined text is its parts with one separator between neighbours |
| SegmentMeaning.StripMeans | memory_core/chunking.py:107-115 | Stripping takes whitespace off both ends, all of it and nothing else |
| Tokeniser.CharSplitIsExact | memory_core/chunking.py:52-63 | Character slices spell the text verbatim and re-estimate to at most the target |
| Tokeniser.Retokenises | memory_core/chunking.py:52-63 | Tokens that stay apart, written one after the other, are read back as the same tokens |
| Tokeniser.TokensSpell | memory_core/chunking.py:45-63 | Space-free text is its tokens one after the other |
| Tokeniser.EstimateOverSpace | memory_core/chunking.py:45-49 | Token counts are additive over a whitespace join |
| Tokeniser.JoinEstimate | memory_core/chunking.py:45-49 | A joined text estimates to the sum of its parts |
| Tokeniser.CountIsEstimate | memory_core/chunking.py:45-49 | Counting character by character gives the same number as tokenising |
| MessageChunks.OutputBudgetExact | memory_core/chunking.py:213-281 | All chunks are within the target if and only if every message that renders over the target leaves room for its role beside each piece that prose chunking cuts its text into |
| MessageChunks.ShortMessagesFit | memory_core/chunking.py:213-281 | When no message renders over the target, every chunk is within it |
| MessageChunks.LongRoleOverflows | memory_core/chunking.py:255-268 | An overlong message whose role with its colon takes the whole target makes some chunk exceed it |
| MessageChunks.ShortTextOverflows | memory_core/chunking.py:255-268 | So does an overlong message whose text alone is within the target, if it holds no ideographic space |
| MessageChunks.GroupBudget | memory_core/chunking.py:213-281 | A packed chunk is always within the target; the chunks of a split message are exactly when its role fits |
| MessageChunks.SplitsAreOverlong | memory_core/chunking.py:245-268 | Every message that renders over the target is split by itself |
| MessageChunks.BudgetCanBeExceeded | memory_core/chunking.py:255-268 | The message a: b at a target of two tokens comes back as a chunk of three |
| MessageChunks.ChunkMessages | memory_core/chunking.py:213-281 | Messages with text are grouped in order, packed while they fit, and split only when one alone exceeds the target; without room, a zero target is an error once there is any text and a negative one yields nothing |
| MessageChunks.RenderedTokens | memory_core/chunking.py:209-210 | A rendered message costs its role with the colon plus its text |
| MessageMeaning.ConversationMeans | memory_core/chunking.py:213-281 | The whole conversation, said outright: the messages with text in order, groups over them that fit or hold one message too large, each closed only before a message that would not fit, and the chunks of the groups one after the other |
| MessageMeaning.KeptMeans | memory_core/chunking.py:245-249 | Kept are exactly the messages with any text, in order, text and role stripped, the role unknown where none is given |
| MessageMeaning.ChunksMean | memory_core/chunking.py:231-279 | A pack is one chunk: role: text of each message with blank lines between, its roles once each in order of appearance, the given ids in order; a split message is one chunk for each piece of its text at an overlap of 15 percent, under its role and id |
| MessageMeaning.RolesMean | memory_core/chunking.py:275-276 | The roles of a pack are those of the messages whose role no earlier message of the pack has, in order |
| IdentityAgreement.AgreementIff | contracts/identity.py:295-354 | All processes that return agree in every interleaving with any crashes if and only if there is at most one process, or a complete file was there before, or the path was free and all claim by link, or all claim under the lock and no placed file ever looks stale |
| IdentityAgreement.SafeSettingsAgree | contracts/identity.py:245-275 | In those settings whoever returns holds what the file shows, and the path never shows partial content |
| IdentityAgreement.WholeFileStays | contracts/identity.py:220-275 | In those settings a complete file never changes again |
| IdentityAgreement.BrokenStartDisagrees | contracts/identity.py:287-292 | With a stale unreadable file and two processes, a run exists in which the slower removes the faster one's file |
| IdentityAgreement.MixedBranchesDisagree | contracts/identity.py:220-242 | With one process on the lock branch and one linking, a run exists in which the replace overwrites the link |
| IdentityAgreement.SlowWinnerDisagrees | contracts/identity.py:278-292 | On the lock branch a winner slow enough for its file to look stale lets a loser remove it |
| IdentityAgreement.AbandonedLockBlocks | contracts/identity.py:228-242 | A lock left by a killed process is never removed: no process that must claim under it ever returns an identity |
| IdentityAgreement.LocksAreAbandoned | contracts/identity.py:228-242 | Such a lock is reachable: any process on the lock branch may be killed while it holds it |
| Identity.StepKeepsInv | contracts/identity.py:245-354 | Each system call of each process keeps the invariant of the safe settings, and a complete file as it is |
| Identity.RunKeepsInv | contracts/identity.py:245-354 | So does every run |
| Identity.RemovalsAreFew | contracts/identity.py:338-349 | However long a run, a process removes the file at most three times |
| IdentityAgreement.NobodyFails | contracts/identity.py:295-354 | With links only and a free path no process ever raises, whatever the interleaving; with a complete file before, every process that returns, returns it |
| IdentityAgreement.FoundIsReturned | contracts/identity.py:334-337 | A process that looks at the path, also after losing the claim, and finds a complete file returns what the file holds |
| MigrateRuns.RecordedIsPrefix | database/migrate.py:527-563 | After any sequence of attempts failing at any call, from an empty database, the recorded names are a prefix of the ordered files, no checksum ever mismatches, what is pending is the rest, and the effects are those of a history |
| MigrateRuns.EffectsOfFile | database/migrate.py:466-524 | A transactional file took effect exactly once if recorded and never otherwise; no file took effect before its turn |
| MigrateRuns.CompletedRunIsClean | database/migrate.py:527-563 | When all files are recorded and each one without a transaction leads, run whole after any first part of it, where one run leads, the state is that of one clean sequential run, however many attempts failed |
| MigrateRuns.HistoryState | database/migrate.py:480-524 | After any history, running the first unrecorded file leads where it leads after one clean run of the recorded ones, and the state already is that of the clean run unless that file may have run in part |
| MigrateRuns.RerunWholeIsNeeded | database/migrate.py:480-524 | For a file by itself that hypothesis is exact: however often and far it was tried before it is recorded, the state is the clean one if and only if it may be run again whole after any part |
| MigrateRuns.GuardedMayRunAgain | database/migrate.py:509-515 | A file whose every statement does nothing once executed may be run again whole |
| MigrateRuns.DropThenCreate | database/migrate.py:509-515 | A file that drops if it exists and then creates if absent may be run again whole, although its first statement undoes its second |
| MigrateRuns.FurthestPart | database/migrate.py:480-524 | With guarded statements the state after any history is that of the recorded files once each and the furthest part of the next one |
| MigrateRuns.RunKeepsGood | database/migrate.py:527-563 | Committed and working database are explained by a history in every reachable state |
| MigrateRuns.FollowsKeepsGood | database/migrate.py:527-563 | One attempt continues the history by whole files and at most a first part of the next |
| MigrateRuns.RerunReaches | database/migrate.py:480-524 | Re-running a guarded file after a part of it reaches the further of the two points |
| Migrate.Connection.ApplyPending | database/migrate.py:527-563 | One attempt, whatever call fails: both databases keep whole files from the head of the pending list plus at most a first part of a file without a transaction; mismatches refuse before anything is applied; success names exactly the pending files; with distinct names it fails exactly when one of its driver calls does; autocommit is off afterwards |
| Migrate.Connection.ApplyTransactional | database/migrate.py:466-477 | The whole file and its row, or nothing committed |
| Migrate.Connection.ApplyAutocommit | database/migrate.py:480-524 | Every statement stands by itself: on failure a first part stays and the row is missing; autocommit is off afterwards |
| Migrate.Connection.EnsureBootstrap | database/migrate.py:353-369 | The bookkeeping objects are created where missing without touching rows or effects |
| Migrate.Connection.GetApplied | database/migrate.py:378-395 | The recorded rows, or none before the table exists |
| Migrate.FindMismatches | database/migrate.py:545-555 | The files recorded with another checksum |
| Migrate.MismatchesMean | database/migrate.py:545-555 | A name is refused exactly when a file under it and a recorded row under it differ in checksum |
| Migrate.PendingMeans | database/migrate.py:556-563 | What is applied are the files under no recorded name, in directory order |
| Migrate.BuildStatus | database/migrate.py:412-434 | Each file is reported pending, applied or mismatched |
| Migrate.StatusForetells | database/migrate.py:412-434 | A mismatch is reported exactly when an attempt would refuse, and pending exactly what it would apply |
| MemoryIngest.IngestDocuments | mcp/memory/store.py:395-506 | The batch raises with nothing changed exactly when the embedder does not fit, does not answer for the texts, or the commit fails; otherwise the tables stay in step, counts and failures sum to the batch length, and with distinct ids every document that did not fail ends as it was sent: with chunks, under its metadata and hash, and if its id was new or its hash changed with exactly its chunks, vectors and index entries, with an unchanged hash with its stored chunks untouched; without chunks, gone; one that failed is as it was; it fails when its row is refused or a chunk number repeats and otherwise only if a call failed; each counter counts exactly the documents with its outcome |
| MemoryIngest.ReingestIsIdle | mcp/memory/store.py:395-506 | Ingesting the same distinct-id batch after a run without failures changes nothing and counts every document as unchanged or empty |
| MemoryIngest.IngestKeepsVectors | mcp/memory/store.py:427-506 | Through any batch with distinct ids every chunk keeps the vector of its own text, whatever fails |
| MemoryIngest.DuplicateIdsMixVectors | mcp/memory/store.py:508-526 | A client of the ingest: of two documents under one id the second is refused by the schema; no call fails, and the batch leaves the first stored with vectors of the second |
| WritePass.OwnVectorsIff | mcp/memory/store.py:452-526 | From any tables in step: every chunk keeps the vector of its own text whichever writes of the list fail, if and only if no document that can be written differs in its embeddings from the last document under its id at a chunk position both have |
| WritePass.WrittenIsCut | mcp/memory/store.py:357-393 | A document written with the vectors of another under its id is stored up to the shorter of the two chunk lists |
| WritePass.PassKeepsOwn | mcp/memory/store.py:452-474 | Along a write pass that mixes no vectors the tables stay in step and every chunk beside its own vector |
| MemoryIngest.DistinctIsNotMixed | mcp/memory/store.py:508-526 | A batch with distinct ids mixes no vectors |
| MemoryIngest.Explain | mcp/memory/store.py:452-504 | With distinct ids the failures of the three passes are exactly the documents refused by the schema or by a source type, and those a failing call hit |
| MemoryIngest.NothingLeftToDo | mcp/memory/store.py:427-446 | After a run without failures every document of the batch classifies as unchanged or empty |
| MemoryIngest.Assemble | mcp/memory/store.py:452-504 | The write, update and remove passes together do to each document what its own plan says |
| MemoryIngest.WriteAll | mcp/memory/store.py:452-474 | The write pass: created, replaced and failed sum to its documents, each failed one is unfit or a call failed, the tables go through one replacement or none for each, and the others are left exactly as they were |
| MemoryIngest.UpdateAll | mcp/memory/store.py:476-487 | The metadata pass changes the row of each document that did not fail and nothing of its chunks |
| MemoryIngest.RemoveAll | mcp/memory/store.py:489-504 | The removal pass leaves nothing of a document that did not fail |
| MemoryIngest.SliceVectors | mcp/memory/store.py:508-526 | The single embedding call is sliced back so that each id gets the vectors of the last document that has it |
| MemoryIngest.Sort | mcp/memory/store.py:427-446 | Every document goes to exactly one of write, update, remove, unchanged and empty |
| MemoryStore.Store.WriteDocument | mcp/memory/store.py:454-464 | Inside its savepoint a document is replaced whole, or the tables are as they were; it fails exactly when a call does, its source type is invalid or a chunk number repeats |
| MemoryStore.Store.InsertChunks | mcp/memory/store.py:357-393 | Chunks and vectors go in under the same fresh ids past every id in use; it fails exactly when a call does or a chunk number repeats |
| MemoryStore.Store.DeleteDocument | mcp/memory/store.py:293-306 | Vectors, chunks, index entries and row of the document are gone, nothing else |
| MemoryStore.ReplacedKeepsStep | mcp/memory/store.py:357-393 | Replacing a document keeps chunk, vector and full-text ids the same set and chunk ids unique |
| MemoryStore.ReplacedSparesOthers | mcp/memory/store.py:452-474 | Replacing a document leaves row, chunk ids, texts, vectors and index entries of every other document alone |
| MemoryStore.ReplacedHolds | mcp/memory/store.py:357-393 | The replaced document is stored exactly, each chunk beside its vector and its index entry |
| MemoryStore.ReplacedHoldsCut | mcp/memory/store.py:367-383 | With fewer vectors than chunks, or more, the document is stored up to the shorter of the two |
| MemoryStore.DeletedIs | mcp/memory/store.py:293-306 | A deletion keeps the tables in step and every other document as it was |
| Retrieval.DominantPrecedes | memory_core/retrieval.py:17-32 | For lists without repeats, an id ranked above another in every list that has the other always precedes it in the fusion |
| Retrieval.ReciprocalRankFusion | memory_core/retrieval.py:17-32 | The result ranks every listed id once by its summed shares, ties by id |
| Retrieval.RankedOnce | memory_core/retrieval.py:17-32 | An id has one place in the fusion |
| Retrieval.FusionMeans | memory_core/retrieval.py:17-32 | Two lists fused: every id of either once, scored by the sum of what the lists give it, higher scores first and equal ones by the first differing character |
| Retrieval.ListGives | memory_core/retrieval.py:17-32 | Under the default constant a list without repeats gives the id at index i one over 61 + i, and any other id nothing |
| Retrieval.ScoreDominance | memory_core/retrieval.py:17-32 | Dominance in every list gives a higher total, strictly so once the other is listed |
| Retrieval.FuseRankedIds | memory_core/retrieval.py:35-43 | Two lists fused, and the first top_k of the result kept when top_k is positive, else all |
| Retrieval.DedupByDoc | mcp/memory/store.py:759-779 | The first top_k rows, but at least one, of the per-document quota filter |
| Retrieval.QuotaCount | mcp/memory/store.py:759-779 | The filter keeps of every document exactly its quota or all it has |
| Retrieval.QuotaOrder | mcp/memory/store.py:759-779 | The filter keeps, in rank order, exactly the rows with fewer than the quota of their document before them |
| Retrieval.ShortMeansExhausted | mcp/memory/store.py:759-779 | A result shorter than asked for means every document gave min(max_per_doc, its row count) |
| Identifiers.OrderIsNumeric | contracts/identifiers.py:70-85 | At one width the order of encodings is the order of numbers, and different numbers encode differently |
| Identifiers.EarlierSortsFirst | contracts/identifiers.py:88-100 | An earlier timestamp gives a smaller string whatever the random parts |
| Identifiers.ValidUlidIff | contracts/identifiers.py:103-117 | The validity check accepts exactly the encodings of values below 2^128 |
| Identifiers.SplitIff | contracts/identifiers.py:134-143 | An id splits into a prefix and a ULID exactly when it is that known prefix, an underscore and that valid ULID |
| Identifiers.ValidIdIff | contracts/identifiers.py:146-152 | An id is valid exactly when it is a known prefix, the one asked for if any, an underscore and a valid ULID |
| Identifiers.NewId | contracts/identifiers.py:120-131 | A minted id splits back into its prefix and its ULID; an unknown prefix is refused |
| Identifiers.IdsSortByTime | contracts/identifiers.py:120-131 | Ids of one prefix sort by creation time |
| Identifiers.EncodeCrockford | contracts/identifiers.py:70-85 | A negative value or one too large for the width is refused, any other encoded at full width |
| Identifiers.GenerateUlid | contracts/identifiers.py:88-100 | A ULID is minted exactly for 48-bit timestamps, and is valid |
| Identifiers.MintsDiffer | contracts/identifiers.py:88-100 | Timestamp and random part can be read off a ULID, so two are equal exactly when both parts are |

## Left out

- HTTP, TLS, authentication, Flask routes, MCP registration, CLI parsing, logging, sleeps, backoff and jitter. The
  server is the idempotent sink, the event feed and the task pages described by its handlers.
- Registration, heartbeats and the rewriting of `repository_id` on outgoing events; the event id is untouched by it.
- SHA-256 is taken to be injective on the sampled head, and an absent outbox to be an empty one; flushing to disk is
  not modelled, a write either happened or did not.
- `DrainRuns` assumes that a recreated outbox differs from earlier ones in its sampled head, and that the outbox is
  recreated only between batches.
- Drain.Drainer.DrainAll: nothing is appended while it runs; runs with concurrent appends are covered by the step
  machine.
- A torn write of the dead-letter log, and two drains on one directory at once.
- The `max_pages` bound of the follower is a parameter; the answer of the feed is taken to be honest, so the branch
  for a page without a continuation never decides anything.
- FollowRuns.NothingMissed: for restarts that find a saved cursor; a restart from a fresh snapshot starts at its top.
- Cards created or edited locally under the identity of a projected task; the center is the only writer of those.
- Commit order effects of row versions: a task's number is taken to be issued in commit order.
- DbTargeted.FilteredBuildIsInduced: for catalogs whose node ids are unambiguous, whose columns have their table and
  whose key rows carry its object id; `PlainNamesAreDistinct` gives a checkable condition for the first. The SQL
  engine, its collation and `DISTINCT` are not modelled, rows are lists in query order; `_split_entry_point`,
  Markdown and GraphML output are left out.
- DbGraph.PutNodeMeans: a node added again has its attributes replaced; where the second row leaves one empty, the
  library keeps that of the first. Rows under one node id do not occur in a consistent catalog.
- Chunking.ChunkProse: the Unicode tables behind the tokeniser are a kind carried by each character, and the overlap
  ratio is a real number instead of a binary float.
- The age of the identity file is a free choice of each check, bounded only by what the setting says; the contents of
  the temporary file are either incomplete or complete.
- Migrate.Connection.ApplyPending: a failed commit is taken to have committed nothing, and a rollback not to fail. A
  statement either takes effect or does not, and the directory stays the same between attempts.
- Migration file discovery, batch splitting and the header directive, which are pattern matching.
- MemoryIngest.IngestDocuments: the snapshot used for classification is taken to be current when the writes begin;
  timestamps, chunk metadata and the per-source-type counters are not modelled.
- Full-text ranking, nearest-neighbour search, reranking and embedding models.
- Retrieval.ReciprocalRankFusion: scores are real numbers, so rounding cannot create or break a tie.
- The clock and the random source of new ids are parameters.
