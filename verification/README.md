# Work Context: verified model

A Dafny model of the parts of Work Context that have to be right when things go wrong: the
audited commit protocol, the life of registered artifacts, approval-pinned delivery, the legacy
migration planner, and the parsers, digests and registries the rest relies on.

| file | what it models |
|---|---|
| `staging.dfy`, `commit.dfy`, `workspace.dfy` | the write-ahead stager, the commit protocol as a step system, and `apply` / `recover` as methods over one mutable workspace |
| `audit_chain.dfy`, `ledger_file.dfy`, `proposal.dfy` | the hash-chained audit events, the bytes of the ledger file; the path-collision check of proposals |
| `lifecycle.dfy`, `lifecycle_runs.dfy`, `inbox.dfy`, `destinations.dfy`, `lifecycle_limits.dfy` | registration, quarantine and archive: the step system, what becomes of the files over whole runs, the service methods, the destination names, and where the promises stop |
| `delivery.dfy` | senders and saving writers of one draft, every read and commit a separate step |
| `allocator.dfy`, `hierarchy.dfy`, `root_path.dfy`, `planner.dfy` | identifier allocation, the task hierarchy rules, root finding over arbitrary parent graphs, and the planner that joins them |
| `scanning.dfy`, `tree_walk.dfy`, `tree_digest.dfy` | the chunked scan with its overlap window; the sorted walk of a source tree and its length-prefixed fingerprint |
| `utf8.dfy`, `percent.dfy`, `references.dfy` | UTF-8 and percent-encoding, Work Context URIs and repository references |
| `topics.dfy`, `scheduler.dfy`, `tree_swap.dfy` | the topic registry, the connector scheduler, the rename-based tree replacement |
| `text.dfy`, `options.dfy` | numerals, separators, a stable sort; the optional value |

Protocols that a crash or another process can interrupt are step systems; what holds in every
reachable state holds at every point where the process may stop. The methods beside them take a
`fuel`, the number of durable steps left before the process stops, so a contract that holds for
every `fuel` holds for every crash point; each method is shown to be a run of its step system.
Loops and mutable state are methods and classes where the source has them; expressions and
recursion are functions.

## Where the code differs from its promise

Each of these is a lemma or method below with a concrete witness, next to the exact condition
under which the promise does hold.

- A no-op update that is rolled back and interrupted before its clean-up can never be recovered (`NoOpRollbackGetsStuck`, exact in both `Recover` methods); the code's own `quarantine-authorize` update is such a no-op (`NoOpUpdateGetsStuck`).
- Two artifacts that share a sidecar path strand each other when one is moved (`SharedSidecarIsLost`, exact for one move in `MoveStrandsExactly`, over whole runs in `BytesKeptExactly`, `CleanIsSettledExactly` and `SettledByPublication`).
- After a crash a registration can report a manifest that recovery then takes back (`UncommittedIsReported`, exact in `Register`, `StaysRegisteredExactly` and `StaysAsItIsExactly`).
- Destination names can collide across artifacts, although docs/reference/inbox.md says their scheme avoids collisions (`SidecarNamesakeCollides`, exact in `DestinationsCollideExactly`).
- A draft that changes and changes back between the two hash reads of a preview gets the wrong body posted (exact in `WrongBodyExactly`).
- A save whose state read precedes a send and whose hash read follows it un-sends the draft, which can then be sent again (`SentDraftCanBeUnsent`, `TwoSendResults`, exact in `SentForeverExactly` and `SendResultExactly`).
- The observation branch of the allocator can hand out an identifier twice (`ObservationIdentifiersCanRepeat`, exact in `RepeatsExactly`).
- A migration in a year with fewer than four digits plans tasks that the task model rejects, unless every root keeps its legacy identifier (`PlanTasks`).
- Case variants on a parent cycle are filed under different roots (`TieSplitsCycle`, exact in `ParentHasSameRoot`).
- A match one character longer than overlap + 1 can be missed, and a chunk edge inside a word can add a report (`LongerMatchIsMissed`, `ChunkEdgeOverReports`, exact in `WordScanExactly`).
- A last-sync state too large to be read back makes every snapshot due again, the next record over it forgets the others, and so does a failed write (`ForgottenWhileReadable`, exact in `RemembersExactly`, `NextRunEarlyExactly` and `FailureIsIsolated`; `SpacedWhenAllWorks` when none of it happens).
- An interrupt between the two renames of a tree replacement lets the clean-up delete the only copy of the old tree (`Replace`).

## Idealizations

- Hash functions are parameters. Results that need SHA-256 not to collide say among which values: the contents of the two ledgers compared, or the versions and targets of one draft (`AuditChain.CollisionFree`, `OutboxDelivery.Ideal`, `OutboxDelivery.HashesApart`). In the commit protocol and the artifact life cycle a file is represented by its digest.
- Evidence moves share the stager and append no event, so replaying the ledger gives the canonical files only (`CleanMeansReplayed`); where the evidence files are is the subject of the life-cycle modules.
- A path in the protocols stands for its collision key (NFC, case-folded). Case folding and the decomposed form of a name are functions given as parameters; only that canonical slugs are left alone is assumed, and only for `SlugifyIdempotent`.
- Verdicts that need the rest of the system are parameters that range over everything: proposal analysis and workspace validation, receipt authentication, scan findings, the remote side of delivery and of connectors, clocks.

## Model

| member | source | states |
|---|---|---|
| Staging.AllPreIsBase | src/workctx/adapters/filesystem/staging.py:779-870 | When rollback has put every target back to its preimage, the files are exactly those from before the intent, untouched paths included. |
| Staging.MoveOneTarget | src/workctx/adapters/filesystem/staging.py:701-777 | Applying or restoring one target flips that target's image and leaves every other target's image as it was. |
| CommitProtocol.CleanMeansReplayed | src/workctx/ingestion/service.py:967-1183 | MAIN. In every reachable state (a crash or failure possible between any two durable steps): if the stager is clean, replaying the committed events from the start gives exactly the files; each event extends the head before it and re-uses no proposal. |
| CommitProtocol.AllPostIsPerformed | src/workctx/transactions/engine.py:2779-2834 | When all targets are at their postimages, the files are what performing the audited operations on the old files gives: the event written describes what was done. |
| CommitProtocol.PerformedPointwise | src/workctx/transactions/engine.py:2779-2834 | Performing the audit operations of non-colliding targets puts each one at its postimage and touches no other path. |
| CommitProtocol.PublishKeepsInv | src/workctx/adapters/filesystem/staging.py:353-452 | Publishing an intent over an unrecorded proposal keeps the protocol invariant (assets complete, all targets at their preimages). |
| CommitProtocol.ImageKeepsInv | src/workctx/adapters/filesystem/staging.py:701-870 | Applying, rebuilding or restoring any one target keeps the invariant, so a stop between two targets is recoverable. |
| CommitProtocol.AppendKeepsInv | src/workctx/transactions/ledger.py:147-198 | Appending a committed event needs all targets applied, a rolled-back one all restored; both keep replay equal to the files. |
| CommitProtocol.StepKeepsInv | src/workctx/transactions/engine.py:343-612 | Every durable step of the protocol keeps the invariant. |
| CommitProtocol.ReachableInv | src/workctx/transactions/engine.py:343-612 | The invariant holds in every state any run can reach. |
| WorkspaceModel.NeverConflict | src/workctx/adapters/filesystem/staging.py:633-699 | Without an outside writer an interruption is never classified as a conflict, and is an invalid intent exactly when the publication itself was torn. |
| WorkspaceModel.StateAt | src/workctx/adapters/filesystem/staging.py:872-928 | Each pending target is classified as postimage or staged by its file alone: the recovery assets are always usable. |
| WorkspaceModel.BothImages | src/workctx/adapters/filesystem/staging.py:872-928 | The two images of a target coincide exactly for a replacement that writes the bytes already there. |
| WorkspaceModel.DecidedClassification | src/workctx/transactions/engine.py:2078-2097 | An intent whose event is recorded classifies as fully replaced when committed; when rolled back it classifies as prepared exactly if it holds no such no-op replacement. |
| WorkspaceModel.RecordedIsNewest | src/workctx/transactions/engine.py:667-802 | The event of a pending intent, if recorded, is the newest one in the ledger. |
| WorkspaceModel.NoOpRollbackGetsStuck | src/workctx/transactions/engine.py:2078-2097 | A reachable state, no outside writer involved, that recovery refuses for ever: a no-op update rolled back and interrupted before its clean-up. |
| WorkspaceModel.Workspace.PlanTargets | src/workctx/adapters/filesystem/staging.py:1102-1177 | Resolves writes to targets exactly as the current files dictate; refuses missing sources, existing destinations and colliding paths, so what it accepts is well formed and at its preimages. |
| WorkspaceModel.Workspace.Prepare | src/workctx/adapters/filesystem/staging.py:353-452 | Publishes the intent or changes no file and no event; a stop during publication leaves no published intent. |
| WorkspaceModel.Workspace.ApplyTargets | src/workctx/adapters/filesystem/staging.py:701-777 | Applies the postimages in order; every stop in between is a reachable protocol state; enough steps always finish. |
| WorkspaceModel.Workspace.RollbackTargets | src/workctx/adapters/filesystem/staging.py:779-870 | Restores in reverse, rebuilding consumed stages; on return the files equal the replayed ledger. |
| WorkspaceModel.Workspace.AppendAndFinalize | src/workctx/adapters/filesystem/staging.py:541-618 | Appends exactly the given event before the intent is removed; a stop may separate the two but never reorders them. |
| WorkspaceModel.Workspace.CommitPrepared | src/workctx/ingestion/service.py:1063-1183 | From a published intent: commit, or roll back on failed validation or a changed preimage; at most one event, linked to the head, and the files match the outcome. |
| WorkspaceModel.Workspace.Apply | src/workctx/transactions/engine.py:343-612 | The whole call: at most one event is appended and it extends the head; a receipt means the files are the old ones with the compiled operations performed and no intent left; each refusal leaves everything unchanged, exactly in its stated case. |
| WorkspaceModel.Workspace.Recover | src/workctx/transactions/engine.py:667-802 | Decides by the ledger alone: finishes recorded intents, rolls back unrecorded ones, never applies anything; refuses exactly the stuck states; afterwards the files equal the replayed ledger. |
| WorkspaceModel.Workspace.FinishRecorded | src/workctx/transactions/engine.py:2078-2097 | Cleans up a recorded intent without touching files or ledger, refusing exactly the stuck states. |
| AuditChain.SameHashOnEveryPath | src/workctx/domain/transactions.py:457-501 | MAIN. Sealing content, validating an event and the ledger's own recomputation hash the same ordered object. |
| AuditChain.SealValidates | src/workctx/domain/transactions.py:497-501 | MAIN. Sealing succeeds on exactly the content that meets the producer rules, returns it unchanged and carries the ledger's hash. |
| AuditChain.ContentRoundTrip | src/workctx/domain/transactions.py:457-472 | Reading the canonical data of any event gives its content back, with the omitted empty acknowledgement list as an empty list. |
| AuditChain.OpRoundTrip | src/workctx/domain/transactions.py:350-382 | Each of the four audit operations is read back from its serialized object by the discriminated union. |
| AuditChain.EventRoundTrip | src/workctx/domain/transactions.py:486-495 | Canonical data of an event validates exactly when its content is valid and its hash matches. |
| AuditChain.ReorderRanked | src/workctx/adapters/filesystem/serialization.py:167-178 | Re-ordering keys by declaration leaves canonical data alone, even with the optional key missing. |
| AuditChain.EventDataInjective | src/workctx/domain/transactions.py:503-512 | Two events with the same canonical data are the same event. |
| AuditChain.HashDeterminesContent | src/workctx/transactions/ledger.py:58-66 | Under a collision-free hash, equal valid hashes mean the same event, its link included. |
| AuditChain.OnlyEmptyHasZeroHead | src/workctx/transactions/ledger.py:244-264 | Only the empty ledger has the zero revision as its head. |
| AuditChain.HeadDeterminesHistory | src/workctx/transactions/ledger.py:216-264 | MAIN. Two valid ledgers have equal head hashes exactly when they are the same list of events, provided their own events neither collide nor hash to the zero revision. |
| AuditChain.ReadLine | src/workctx/transactions/ledger.py:245-263 | A loaded line is accepted exactly when it is the canonical object of an event that extends the chain so far. |
| AuditChain.ReplayMeaning | src/workctx/transactions/ledger.py:319-344 | On a verified ledger the replay check says `recorded` exactly for members and `new` exactly when neither identity is in use. |
| LedgerFile.ReadLedger | src/workctx/transactions/ledger.py:216-264 | MAIN. The reader accepts exactly the files that are, byte for byte, the lines of a valid chain, and returns that chain; an absent file is the empty chain. |
| LedgerFile.SplitFile | src/workctx/transactions/ledger.py:221-239 | The checks before the first line (empty file, byte-order mark, carriage return, missing final newline, invalid UTF-8, empty line) refuse no file of events and leave exactly its lines. |
| LedgerFile.ReadFileLine | src/workctx/transactions/ledger.py:245-263 | One line of bytes is accepted exactly when it is the line of an event that extends the chain so far. |
| LedgerFile.FileDeterminesEvents | src/workctx/transactions/ledger.py:69-72 | MAIN. Two ledger files are the same bytes exactly when they hold the same events. |
| LedgerFile.HeadDeterminesFile | src/workctx/transactions/ledger.py:58-72 | MAIN. Two valid ledgers have equal heads exactly when their files are the same bytes, provided their own events neither collide nor hash to the zero revision. |
| LedgerFile.AuditLog.Append | src/workctx/transactions/ledger.py:147-198 | MAIN. Idempotent append to the file: success exactly if the event is already there or extends the chain and the line landed, whatever the adapter reported; the file gains that one line or nothing; an unreadable ledger is refused and left alone. |
| Proposals.AddPaths | src/workctx/domain/transactions.py:598-602 | The inner loop accepts an operation exactly when its own keys differ and none was seen. |
| Proposals.RequirePathsDoNotCollide | src/workctx/domain/transactions.py:588-602 | Accepts exactly the proposals whose sources, destinations and targets are pairwise distinct after normalization. |
| Proposals.Swap | src/workctx/domain/transactions.py:588-602 | Two operations on disjoint paths commute, refusals included. |
| Proposals.OrderDoesNotMatter | src/workctx/domain/transactions.py:588-602 | MAIN. An accepted proposal gives the same final files, or is refused alike, in every order of its operations. |
| Proposals.CollisionsDependOnOrder | src/workctx/domain/transactions.py:588-602 | Without the check order matters: a concrete pair of operations that succeeds one way round only. |
| Lifecycle.RegistryOnlyGrows | src/workctx/ingestion/service.py:205-219 | MAIN. Over every run of registrations and archives with crashes and retries: identifiers are unique, each content hash has at most one live manifest, and every durable manifest stays, its identifier, sources and hashes fixed and its disposition only ever moving on. |
| Lifecycle.ChainEndsAtOriginal | src/workctx/ingestion/service.py:1301-1308 | MAIN. Following `duplicate_of` from any manifest ends at a non-duplicate with the same bytes, although a duplicate may point to a duplicate. |
| Lifecycle.BytesAlwaysKept | src/workctx/ingestion/service.py:791-887 | Over every run whose registrations leave waiting artifacts' paths alone, each artifact's and sidecar's bytes are always at the registered or the preserved path, and with a clean stager each artifact is wholly at one of them. |
| LifecycleRuns.BytesKeptExactly | src/workctx/ingestion/service.py:791-887 | MAIN. Over every run, whatever paths are registered, all bytes are at the registered or the preserved path at all times exactly when no file move takes the last copy of an item. |
| LifecycleRuns.CleanIsSettledExactly | src/workctx/ingestion/service.py:863-887 | MAIN. Over every run, every clean state has all moves of each artifact pending or all applied exactly when no move is closed over a path another artifact still waited at. |
| LifecycleRuns.SettledByPublication | src/workctx/ingestion/service.py:791-887 | MAIN. The same, decided when a move is published: exactly when no completed move was published over a path of an artifact whose bytes were neither at its destinations nor about to get there. |
| LifecycleRuns.ForeseenAtPublication | src/workctx/adapters/filesystem/staging.py:353-452 | A completed move closes over a waiting artifact exactly when that could be seen at its publication. |
| LifecycleRuns.StepKeepsBytes | src/workctx/ingestion/service.py:791-847 | One step of any kind keeps all bytes exactly when it does not take a last copy. |
| LifecycleRuns.FinishSettles | src/workctx/ingestion/service.py:820-826 | Closing a move leaves every artifact settled exactly when no other artifact was still waiting at one of its paths. |
| Lifecycle.MoveStrandsExactly | src/workctx/ingestion/service.py:1372-1415 | MAIN. A completed move, given only what its publication checks, takes another artifact's bytes from both its paths exactly when it takes the registered path of an item whose bytes neither are nor get to that item's destination. |
| Lifecycle.StepKeepsRegistry | src/workctx/ingestion/service.py:691-737 | Every step keeps the registry rules and only ever grows its durable part; an unrecorded transaction counts for nothing. |
| Lifecycle.StepKeepsFiles | src/workctx/ingestion/service.py:791-847 | Every step, including each single file move, keeps every artifact settled or mid-move with all targets in one of their two images. |
| Lifecycle.StepKeepsInv | src/workctx/ingestion/service.py:791-847 | A published move always belongs to a relocated manifest with each target in one of its images. |
| Lifecycle.UndisturbedByMove | src/workctx/ingestion/service.py:863-887 | Moving one file disturbs no artifact that is already at its destination or shares no path. |
| Lifecycle.MovedItem | src/workctx/ingestion/service.py:1395-1415 | After the whole move each item has left its source and is at its destination with its bytes. |
| LifecycleLimits.SharedSidecarIsLost | src/workctx/ingestion/service.py:1395-1415 | A reachable clean state in which an artifact's sidecar is at neither of its paths: two artifacts registered the same sidecar and one was archived. |
| LifecycleLimits.UncommittedIsReported | src/workctx/ingestion/service.py:184-190 | A reachable state in which the only manifest, found for a request, is one that an unrecorded transaction is adding: recovery takes it back. |
| LifecycleRuns.StaysRegisteredExactly | src/workctx/ingestion/service.py:184-190 | MAIN. From a state a run can reach, an artifact is listed in every clean state that can follow exactly when no unrecorded transaction is adding it. |
| LifecycleRuns.StaysAsItIsExactly | src/workctx/transactions/engine.py:667-802 | MAIN. In every clean state that can follow, an artifact is there and no further back in its life than now, exactly when no unrecorded transaction has written its manifest. |
| LifecycleLimits.NoOpUpdateGetsStuck | src/workctx/transactions/engine.py:2078-2097 | The authorizing update of a quarantine, rolled back before its clean-up, is a reachable state that recovery refuses for good. |
| LifecycleLimits.RetryFindsTheSame | src/workctx/ingestion/service.py:518-581 | MAIN. Repeating a request whose artifact has not reached its destination finds that artifact and no other, in a clean state. |
| Inbox.FirstByHash | src/workctx/ingestion/service.py:1301-1308 | Returns a record with this content hash exactly when there is one. |
| Inbox.ReplayWithSource | src/workctx/ingestion/service.py:552-581 | With the source present, a record found again is for this path and these sidecars and all its sources still have their registered bytes. |
| Inbox.ReplayWithoutSource | src/workctx/ingestion/service.py:533-550 | With the source gone, a record found again is for this request; no mismatch is ever reported. |
| Inbox.NewManifestRegisters | src/workctx/ingestion/service.py:218-269 | The manifest built for a request is well formed, new, and consistent with its status and duplicate link. |
| Inbox.ArchivedManifestIsWellFormed | src/workctx/ingestion/service.py:450-456 | Archiving assigns distinct destinations outside the raw zone and changes neither sources nor hashes. |
| Inbox.Service.InspectMoves | src/workctx/ingestion/service.py:863-887 | The counting loop says `pending` exactly when all moves are undone and `applied` exactly when all are done. |
| Inbox.Service.MoveWithReceipt | src/workctx/ingestion/service.py:791-847 | Normal return means an authentic receipt, every item at its destination and no intent left; refused exactly when unauthenticated, foreign or in a mixed state; enough steps always finish. |
| Inbox.Service.CompleteMove | src/workctx/ingestion/service.py:834-844 | Recovery applies only what is missing and ends with every item at its destination. |
| Inbox.Service.ApplyMoves | src/workctx/ingestion/service.py:820-826 | A fresh move applied to the end gives exactly the moved files. |
| Inbox.Service.Commit | src/workctx/ingestion/service.py:691-737 | One manifest transaction: stored, refused without effect, or stopped with the registry as before or after, never otherwise. |
| Inbox.Service.Recover | src/workctx/transactions/engine.py:667-802 | Recovery refuses a torn intent, a pending evidence move and a rolled-back transaction that is a no-op, leaving all as it was; otherwise it restores the durable registry and touches no evidence file. |
| Inbox.Service.Decide | src/workctx/ingestion/service.py:205-269 | Refuses a known content exactly when asked to; otherwise quarantines the suspicious, links known content and stores the rest as pending, under a fresh identifier. |
| Inbox.Service.StoreNew | src/workctx/ingestion/service.py:271-295 | Stores the manifest and carries a quarantine through to its destination; the registry gains exactly that manifest. |
| Inbox.Service.Resume | src/workctx/ingestion/service.py:583-630 | A found quarantined artifact is driven to its destination before it is reported; any other is reported with nothing changed. |
| Inbox.Service.Register | src/workctx/ingestion/service.py:175-307 | The whole registration, with a crash possible at any step: the disposition returned is what the state shows, a quarantined result is at its destination with no intent left, the file invariant is kept whenever the paths are free or the request is a repeat, and what `already registered` reports lasts exactly when no unrecorded transaction had written that manifest. |
| Inbox.Service.ArchiveAfter | src/workctx/ingestion/service.py:420-488 | The whole archive: success means processed, at its destination, no intent left and an authentic receipt; duplicates, quarantined and unauthenticated ones are refused with nothing changed. |
| Destinations.OwnDestinationsDiffer | src/workctx/ingestion/service.py:1341-1369 | The files of one artifact never share a destination. |
| Destinations.DestinationsCollideExactly | src/workctx/ingestion/service.py:1341-1369 | MAIN. Files of two artifacts share a destination exactly when one identifier spells the other's sidecar name and the suffixes agree. |
| Destinations.SidecarNamesakeCollides | src/workctx/ingestion/service.py:1311-1351 | Two identifiers that one day can allocate and whose destinations do collide, against the no-collision claim of docs/reference/inbox.md. |
| Destinations.LeavesTheRawZone | src/workctx/ingestion/service.py:1341-1351 | No destination lies in the raw zone. |
| Destinations.AllocateArtifactId | src/workctx/ingestion/service.py:1311-1327 | The lowest free daily sequence number, and none exactly when all ninety-nine are taken. |
| OutboxDelivery.FingerprintPins | src/workctx/drafting/delivery.py:506-508 | Fingerprints agree exactly when both version and target do, although the parts are joined without a separator. |
| OutboxDelivery.PostedBodyIsApproved | src/workctx/drafting/delivery.py:288-358 | MAIN. In every interleaving the posted target is the approved one, and the body is that of the approved version unless that version was current both before and after one with another body. |
| OutboxDelivery.WrongBodyExactly | src/workctx/drafting/delivery.py:345-358 | MAIN. For every sequence of unsent versions: some run leaves that history and a comment that carries another body under the approval of a version exactly when the draft came back to that version from one with another body. |
| OutboxDelivery.PostedAcross | src/workctx/drafting/delivery.py:311-358 | The run that posts it: hash at one version, read at another, hash again when the first has come back. |
| OutboxDelivery.StepKeepsPins | src/workctx/drafting/delivery.py:345-358 | Each step keeps: every posted body was read between two equal hash reads whose fingerprint was approved. |
| OutboxDelivery.StepKeepsAccounts | src/workctx/drafting/delivery.py:288-319 | Each step keeps acknowledged comments and the senders that carry them in one-to-one correspondence. |
| OutboxDelivery.DeliveryAccounting | src/workctx/drafting/delivery.py:288-319 | MAIN. In every interleaving each acknowledged comment is exactly one send result, audit error or sender in flight; and as long as no save has un-sent the draft, at most one send result exists. |
| OutboxDelivery.SendResultExactly | src/workctx/drafting/delivery.py:288-358 | MAIN. Whatever the state of a draft, a new sender left alone can end with a send result exactly when the current version is not sent. |
| OutboxDelivery.TwoSendResults | src/workctx/drafting/service.py:173-219 | A reachable state with two comments and two send results: the draft was un-sent by a save and sent again. |
| OutboxDelivery.SentForeverExactly | src/workctx/drafting/service.py:173-219 | MAIN. Over every run whose versions do not collide, a sent draft stays sent with the same delivery exactly when no save is written whose hash was read from a sent version. |
| OutboxDelivery.AtomicSavesNeverUnsend | src/workctx/drafting/service.py:173-219 | If every save read state and hash together, no save could be such a one. |
| OutboxDelivery.SentDraftCanBeUnsent | src/workctx/drafting/service.py:173-219 | A reachable interleaving in which a reported send is undone by such a save. |
| OutboxDelivery.SenderStepStaysSafe | src/workctx/drafting/delivery.py:439-468 | With atomic saves no step of a sender overwrites a sent version or loses a recorded delivery. |
| OutboxDelivery.WriterStepStaysSafe | src/workctx/drafting/service.py:173-219 | Every writer step except such a save keeps sent versions and deliveries. |
| Allocator.FirstFree | src/workctx/migration/mapping.py:202-226 | The first free padded sequence number after the last one handed out, and none exactly when all are in use. |
| Allocator.SlugCandidatesDistinct | src/workctx/migration/mapping.py:228-236 | The numbered candidates of one slug all differ, so the search among finitely many used identifiers ends. |
| Allocator.IdAllocator.NextFree | src/workctx/migration/mapping.py:202-226 | The shared sequence loop computes exactly that number and records it. |
| Allocator.IdAllocator.SlugId | src/workctx/migration/mapping.py:228-236 | Terminates and returns the first unused numbered candidate. |
| Allocator.IdAllocator.AllocateObservation | src/workctx/migration/mapping.py:159-163 | Hands out the next free evidence identifier plus suffix; fresh whenever a reserved first observation implies its reserved evidence record. |
| Allocator.IdAllocator.Allocate | src/workctx/migration/mapping.py:154-175 | What one call does to the table; it returns an identifier in use exactly when the observation branch clashes. |
| Allocator.IdAllocator.ReserveOrAllocate | src/workctx/migration/mapping.py:142-152 | Keeps a valid unused legacy identifier and only marks it used; otherwise allocates, counting up the table of its kind; repeats only on an observation clash. |
| Allocator.IdAllocator.AllocateParentTask | src/workctx/migration/mapping.py:177-181 | Keeps a canonical unused legacy identifier exactly when it can; otherwise a fresh one of the migration year. |
| Allocator.IdAllocator.YearlyIsParentId | src/workctx/migration/mapping.py:215-226 | A yearly task identifier is canonical exactly for four-digit years. |
| Allocator.IdAllocator.AllocateSubtask | src/workctx/migration/mapping.py:183-200 | Always a fresh identifier directly under the given parent. |
| Allocator.AllocateDocuments | src/workctx/migration/mapping.py:305-310 | Over the whole non-task pass each identifier and table follows from the document and the table at its turn; the identifiers are all new and different exactly when no document clashes at its turn, and so they are whenever every legacy `E#OBS-001` comes after its evidence record `E`. |
| Allocator.RepeatsExactly | src/workctx/migration/mapping.py:154-175 | MAIN. Some sequence of allocations from a table returns an identifier in use exactly when some evidence identifier still ahead of its sequence is free while its first observation is reserved. |
| Allocator.ClashIsReached | src/workctx/migration/mapping.py:159-163 | From such a table, asking for observations of that slug again and again reaches the repetition. |
| Allocator.ObservationIdentifiersCanRepeat | src/workctx/migration/mapping.py:159-163 | Two calls that return the same observation identifier. |
| Hierarchy.ConsistentMeaning | src/workctx/domain/tasks.py:80-98 | The per-task validator accepts exactly self-rooted parents and children directly under their root, string splitting included. |
| Hierarchy.IndexById | src/workctx/domain/tasks.py:108-112 | The dictionary pass fails exactly on a repeated identifier. |
| Hierarchy.ValidateTaskHierarchy | src/workctx/domain/tasks.py:105-133 | MAIN. Accepts exactly the collections with unique identifiers, one context and a parent task for every subtask; each refusal names a task that deserves it. |
| RootPath.RootTaskPath | src/workctx/migration/mapping.py:519-532 | The chain loop terminates on every finite parent map, cycles and self-parents included, and computes the root and the flag. |
| RootPath.RootMeaning | src/workctx/migration/mapping.py:519-532 | A root has no parent, or lies on a cycle on which nothing sorts before it. |
| RootPath.RootIsFixed | src/workctx/migration/mapping.py:519-532 | MAIN. The root of a root is itself, even with case-fold ties. |
| RootPath.ParentHasSameRoot | src/workctx/migration/mapping.py:519-532 | MAIN. A task and its parent have different roots exactly when the task is a tied least path on its cycle. |
| RootPath.TieSplitsCycle | src/workctx/migration/mapping.py:519-532 | A two-cycle of case variants whose members are each their own root. |
| RootPath.FlattenedMeaning | src/workctx/migration/mapping.py:526-531 | MAIN. The flag is set exactly when the parent has a parent, self-parents and cycles included. |
| RootPath.RootIsInside | src/workctx/migration/mapping.py:519-532 | The root of a task is a task. |
| TaskPlanner.CollapseMeaning | src/workctx/migration/mapping.py:610-621 | MAIN. Collapsing a relative path fails exactly when some prefix climbs above the source root; otherwise each remaining name is the last one entered at its level and never left. |
| TaskPlanner.NormalizeRelative | src/workctx/migration/mapping.py:610-621 | The stack loop computes exactly that and returns the empty string for a path that escapes. |
| TaskPlanner.Resolve | src/workctx/migration/mapping.py:501-516 | A resolved parent is always one of the tasks. |
| TaskPlanner.ResolveRoots | src/workctx/migration/mapping.py:448-451 | Every task gets its root, and the tasks reported as flattened are exactly those with a grandparent. |
| TaskPlanner.AllocateRoots | src/workctx/migration/mapping.py:464-467 | One fresh identifier per distinct root; all are canonical exactly when the year has four digits or every root could keep its legacy one. |
| TaskPlanner.AllocateTasks | src/workctx/migration/mapping.py:469-497 | Roots take their root's identifier, all others a fresh subtask identifier under it; all differ. |
| TaskPlanner.PlanIsHierarchy | src/workctx/domain/tasks.py:105-133 | Any plan of that shape over idempotent roots passes the whole-collection validator. |
| TaskPlanner.PlanIsConsistent | src/workctx/domain/tasks.py:80-98 | Its tasks pass the per-task validator exactly when all root identifiers are canonical. |
| TaskPlanner.PlanTasks | src/workctx/migration/mapping.py:420-498 | MAIN. For any legacy tasks with any authored parents: if the allocator does not run out, the plan passes the whole-collection validator, tasks share a root identifier exactly when they share a root, and every task is canonical exactly when the migration year has four digits or every root keeps its legacy identifier. |
| Scanning.ScanChunks | src/workctx/ingestion/scanning.py:207-215 | The read loop digests exactly the file, keeps exactly the last characters as tail and reports exactly what some window or the file's beginning shows. |
| Scanning.ScanTextWindow | src/workctx/ingestion/scanning.py:273-284 | The shared reason set gains exactly what this window shows, raw or NUL-stripped. |
| Scanning.WindowIsSlice | src/workctx/ingestion/scanning.py:213-215 | Tail plus chunk is one slice of the file, starting an overlap before the chunk. |
| Scanning.MagicInFirstChunk | src/workctx/ingestion/scanning.py:313-314 | The executable check on the first chunk equals the check on the whole file. |
| Scanning.HashPreservedFile | src/workctx/ingestion/scanning.py:239-270 | Hashing with another chunk size digests the same bytes. |
| Scanning.ScanIsSound | src/workctx/ingestion/scanning.py:273-284 | Whatever a window reports, raw or stripped, the whole file reports. |
| Scanning.ScanIsComplete | src/workctx/ingestion/scanning.py:213-215 | Every match within overlap + 1 raw characters lies in one window. |
| Scanning.ChunkedScanAgrees | src/workctx/ingestion/scanning.py:189-221 | MAIN. For detectors whose matches span at most overlap + 1 raw characters, the chunked scan fires exactly when the whole-file scan does, for any chunk size and the NUL-stripped pass included. |
| Scanning.LongerMatchIsMissed | src/workctx/ingestion/scanning.py:213-215 | The bound is tight: for every overlap a match one character longer can be missed. |
| Scanning.WindowReports | src/workctx/ingestion/scanning.py:131-143 | What a pass over a window, raw or NUL-stripped, reports: the matches of the file with the window's edges counted as boundaries. |
| Scanning.WordMatchIsNeverMissed | src/workctx/ingestion/scanning.py:131-143 | MAIN. A word-boundary match within overlap + 1 raw characters is never missed, in either pass. |
| Scanning.WordScanExactly | src/workctx/ingestion/scanning.py:205-215 | MAIN. For word-boundary detectors whose matches span at most overlap + 1 raw characters, the chunked scan, NUL-stripped pass included, fires exactly when the whole file does or some window has a match bounded only by the window's edge. |
| Scanning.PassExactly | src/workctx/ingestion/scanning.py:273-284 | The same for one pass over one window. |
| Scanning.ChunkEdgeOverReports | src/workctx/ingestion/scanning.py:131-143 | An edge can make it speak up: a chunk that ends inside a word. |
| Utf8.RoundTrip | src/workctx/migration/inventory.py:545 | Strict UTF-8 decoding gives back exactly the encoded string. |
| Utf8.BigEndianRoundTrip | src/workctx/migration/inventory.py:546-548 | Fixed-width big-endian integers are read back in range. |
| TreeDigest.TreeHash | src/workctx/migration/inventory.py:542-550 | The update loop feeds the digest the rows in case-folded order. |
| TreeDigest.RowsCutApart | src/workctx/migration/inventory.py:545-549 | A row announces its own length: it can be cut from whatever follows. |
| TreeDigest.UniquelyDecodable | src/workctx/migration/inventory.py:542-550 | MAIN. The byte string determines the list of rows it was fed from. |
| TreeDigest.SameBytesSameTree | src/workctx/migration/inventory.py:542-550 | For row lists with case-fold-distinct paths, equal bytes exactly for permutations of each other. |
| TreeDigest.SameBytesSameFiles | src/workctx/migration/inventory.py:287-296 | MAIN. Two source trees feed the digest the same bytes exactly when they hold the same files, case variants included, in whatever order the file system lists them. |
| TreeDigest.FingerprintSourceTree | src/workctx/migration/inventory.py:287-296 | The fingerprint is taken over the walk of the tree. |
| TreeWalk.ListFiles | src/workctx/migration/inventory.py:348-374 | The recursive walk with its appending loops lists files, then subdirectories, in name order. |
| TreeWalk.WalkMeaning | src/workctx/migration/inventory.py:348-374 | The walk lists exactly the files of the tree. |
| TreeWalk.WalkOrdered | src/workctx/migration/inventory.py:352-353 | Every listing is in one strict order that depends on the paths alone, ties in case broken by the name. |
| TreeWalk.SameFilesSameWalk | src/workctx/migration/inventory.py:348-374 | MAIN. Two trees give the same listing exactly when they hold the same files. |
| Text.SortedUnique | src/workctx/migration/inventory.py:544 | With distinct keys there is one sorted order, so the listing order does not matter. |
| Percent.QuoteRoundTrip | src/workctx/domain/references.py:68-73 | MAIN. Strict unquoting gives back every quoted string (sections 2.1 and 2.3 of RFC 3986). |
| Percent.QuoteDecodes | src/workctx/domain/references.py:71-73 | A quoted string is ASCII, well escaped and stands for the UTF-8 bytes of the original. |
| References.UriRoundTrip | src/workctx/domain/references.py:44-73 | MAIN. Parsing the printed form of any valid URI gives the URI back. |
| References.PrintedIsCanonical | src/workctx/domain/references.py:71-73 | What was parsed prints to a form that parses the same. |
| References.AcceptedSpellings | src/workctx/domain/references.py:44-69 | MAIN. A value parses to a URI exactly when it spells it: any case of the scheme, any well-formed escapes, tabs and line breaks ignored, nothing else. |
| References.NormalizeIdempotent | src/workctx/domain/references.py:82-104 | MAIN. Normalization is idempotent and names the same entity. |
| References.AuthoredObservationNormalizes | src/workctx/domain/references.py:92-104 | MAIN. A literal observation fragment is normalized to the escaped form, exactly when the identifier is an observation's. |
| References.LinesRoundTrip | src/workctx/domain/references.py:16 | The decimal line range of a repository reference reads back. |
| References.RepoSpelling | src/workctx/domain/references.py:169-214 | MAIN. A repository reference has exactly one accepted spelling, the printed one. |
| Topics.ClaimAliases | src/workctx/domain/topics.py:174-191 | The inner loop accepts exactly the aliases that clash with no slug and no earlier owner, and records who owns what. |
| Topics.RequireRegistryIntegrity | src/workctx/domain/topics.py:163-202 | MAIN. The producer check accepts exactly the registries with integrity. |
| Topics.ResolvesToActive | src/workctx/domain/topics.py:209-234 | MAIN. Only active topics of the registry are resolved to. |
| Topics.OrderDoesNotMatter | src/workctx/domain/topics.py:204-234 | MAIN. The answer depends on which topics there are, not on how they are listed. |
| Topics.ResolvedSlugIsStable | src/workctx/domain/topics.py:209-234 | MAIN. Resolving the slug of the answer gives the same topic directly. |
| Topics.MergedByEitherRoute | src/workctx/domain/topics.py:209-234 | MAIN. A merged slug that is also an alias leads to the same topic by either route, however it is spelled. |
| Topics.ClaimedIsMerged | src/workctx/domain/topics.py:181-198 | A merged slug some topic claims as an alias is merged into that topic, which is active. |
| Topics.SlugIsCanonical | src/workctx/domain/topics.py:250-258 | MAIN. A slug is empty or canonical, at most a hundred characters, and keeps a prefix of the name's lookup key, all of it when nothing was cut. |
| Topics.SlugifyIdempotent | src/workctx/domain/topics.py:240-258 | MAIN. Slugs are fixed points, and their lookup key is a prefix of the name's. |
| Scheduler.SelectedMeaning | src/workctx/connectors/runtime.py:213-225 | The selected snapshots are exactly the due ones. |
| Scheduler.LastSync.RecordLastSync | src/workctx/connectors/state.py:58-68 | The stored state gains exactly the fetched snapshots, on top of what could be read back. |
| Scheduler.LastSync.SyncAll | src/workctx/connectors/runtime.py:196-274 | One run: outcomes per connector in order, attempted exactly with a due snapshot, and state and log exactly as the attempts dictate. |
| Scheduler.DueMeansAttempted | src/workctx/connectors/runtime.py:213-243 | Exactly the connectors with a due snapshot are attempted, with exactly their due snapshots. |
| Scheduler.FailureIsIsolated | src/workctx/connectors/runtime.py:248-257 | MAIN. Whatever the others and the disk do, a failing connector's last-sync entry changes exactly when another connector overwrites a state that cannot be read, and then it is lost. |
| Scheduler.SuccessesAreSpaced | src/workctx/connectors/runtime.py:1035-1044 | MAIN. Over any sequence of due-only runs that start with a state knowing the successes so far, successes of one snapshot are at least its interval apart, whatever fails during the runs. |
| Scheduler.SpacedWhenAllWorks | src/workctx/connectors/runtime.py:1035-1044 | MAIN. If every write works, every state over the configured snapshots can be read back and the clock does not go back, successes of one snapshot are at least its interval apart, over any sequence of due-only runs. |
| Scheduler.WrittenRemembers | src/workctx/connectors/state.py:58-68 | A written record over a readable state keeps every success, even when the clock stands still. |
| Scheduler.RecordRemembersExactly | src/workctx/connectors/state.py:58-68 | One record keeps every success in the state exactly when the write worked over a state that could be read or that held nothing else. |
| Scheduler.RemembersExactly | src/workctx/connectors/state.py:29-68 | MAIN. Over any sequence of due-only runs the state has every success in it at all times exactly when every record is such a one. |
| Scheduler.NextRunEarlyExactly | src/workctx/connectors/runtime.py:1035-1044 | MAIN. Some due-only run starting now can fetch a snapshot inside its interval exactly when the state, as it can be read, makes a recently fetched snapshot due. |
| Scheduler.ForgottenWhileReadable | src/workctx/connectors/state.py:58-68 | A run over an unreadable state leaves a readable one in which a snapshot fetched a moment ago is due. |
| Scheduler.SerializeState | src/workctx/connectors/state.py:136-139 | Groups the entries by connector, losing and adding none. |
| Scheduler.ParseState | src/workctx/connectors/state.py:71-91 | Accepts a grouped state exactly when every name and timestamp is valid, and returns its entries. |
| Scheduler.SaveAndLoad | src/workctx/connectors/state.py:71-139 | MAIN. What was saved is what is loaded, exactly when the names are valid. |
| TreeSwap.GraphTarget.WriteStaged | src/workctx/graph/service.py:522-532 | Writes the complete new tree into the staging directory or stops at the failing file. |
| TreeSwap.GraphTarget.Swap | src/workctx/graph/service.py:533-544 | After the renames the old tree is at the target or in the backup, whatever fails; the target is missing exactly in the stated gaps. |
| TreeSwap.GraphTarget.Replace | src/workctx/graph/service.py:512-556 | MAIN. Wherever a step fails or the process stops, the old tree is at the target or in the kept backup or the complete new tree is at the target; a failure whose restore succeeds leaves the old tree; an interrupt loses it exactly when it arrives while the target is missing and the clean-up then removes the backup. |

## Left out

- Locks, fences, heartbeats and concurrent registration: `register` reads manifests outside the lock, so the life-cycle results are for one registration or archive at a time, each interruptible anywhere.
- OutboxDelivery.PostedBodyIsApproved: the body clause needs that the approved version did not come back; timestamps are whole seconds, so the code does not guarantee it, and `WrongBodyExactly` shows that it is needed.
- OutboxDelivery.DeliveryAccounting: the last clause needs a history in which no sent version was overwritten; the code reads state and hash separately, so it does not guarantee it, and `SentForeverExactly` says when it holds, `SendResultExactly` when a second result can follow.
- Lifecycle.BytesAlwaysKept: needs that no registration takes a path of an artifact still waiting to be moved; `BytesKeptExactly` and `CleanIsSettledExactly` say exactly what happens without it.
- Allocator.AllocateDocuments: the condition read off the documents alone is sufficient only; the exact one looks at the table at each turn.
- Scheduler.SuccessesAreSpaced: assumes a state that knows the successes so far; `SpacedWhenAllWorks` derives that from working writes and `RemembersExactly` says when it holds. Schedules are fixed, and forced runs are not spaced by design.
- Around the two read loops of the scan: the identity and stability checks of the opened file, the media-type tables and the size limit; the first chunk is taken to be at least as long as the longest magic, which the policy guarantees.
- LedgerFile.ReadLedger: printing and parsing one line of JSON is a parameter, assumed to load what it printed, to open with a brace and to escape line breaks (`IsJson`).
- References.ParseUri: authority checks that only reject what the context pattern rejects anyway (brackets, compatibility characters) are not modelled; lone surrogates are not characters here.
- TaskPlanner.Resolve: the authored parent is given stripped, or absent when it is blank or no text; precision-loss records other than the flattening flag are not modelled.
- Topics.RequireRegistryIntegrity: the field-shape validators of a single topic are not modelled.
- Batch registration (`register_batch`), listing, quarantine information: loops over the modelled operations that add only easy members.
- Provenance evidence, artifact plans, mapping records and reports of the migration.
- Markdown and YAML codecs, pydantic field shapes, enumerations, error classes, symbolic links, junctions, `fsync`, orphaned staging directories, Windows retries.
- The SQLite projection, views, CLI, MCP server, evidence and checkpoint services, HTTP and credential handling.
