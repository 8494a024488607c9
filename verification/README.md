# Verified model of the Skriuw workspace sync core

This project models the parts of Skriuw in which state, interleaving or arithmetic is hardest, and
proves what they keep:

- **Workspace sync.** The workspace durable object is a replicated operation log with a write-once
  encryption marker, checkpoints, acknowledgement cursors, log compaction and a two-phase chunk
  garbage collector. `SyncObject` is the object itself, a class whose fields are its tables. Every
  transaction is proved equal to a function on tables (`SyncStore`), with rollback. `SyncProtocol`
  interleaves the transactions: every `await` is a step boundary where any other request may run.
  `SyncHistory`, `SyncInvariants`, `SyncSafety` and `SyncPull` prove invariants over every run,
  against a ghost append-only history that no code reads. `SyncCounterexamples` shows that the two
  hypotheses of the storage theorem are both needed, `SyncCollection` and `SyncRequests` what an
  undisturbed compaction, push and publication achieve, and `SyncClient` has the pull side of a
  device's sync cycle.
- **Content.** `ContentManifests` has both manifest validators (Rust and Worker), building,
  splitting and verification; `ContentStore` has the bucket side.
- **Workspace tree and documents.** `WorkspaceTree` has the parent check, the active-note walk and
  the closure of deleted subtrees; `DocumentLimits` the explicit-stack document check.
- **Recovery codes.** `RecoveryCodes` has the 160-bit codec with its tolerant parser.
- **Fuzzy jump.** `JumpMatcher` has the memoised optimal matcher.
- **Icon paths.** `Paths` and `PathCommands` have the path parser and printer (SVG 2, section 9.3),
  `PathShapes` the splitter and the flattener, `FillRules` and `FillGeometry` the fill test (SVG 2,
  section 13.4.2), `OutsideClips` the outside clips.

The model starts from a fresh schema-4 workspace. The digest functions (payload digest, chunk
digest) are arbitrary functions passed as parameters. No theorem assumes that they are free of
collisions; where a collision matters, the two colliding values are named as the only way out.

## Findings

- *Storage needs two hypotheses.* "Referenced implies stored" is false of the code on its own:
  `finishChunkDeletion` clears a mark after the object is gone (`workspace-sync-object.ts:805-806`),
  so two overlapping compactions, or a mark cleared between a presence check and its commit, lose a
  chunk. `SyncCounterexamples` gives both runs; `SyncSafety.ReferencedIsStored` proves the property
  when neither happens.
- *Cuts that wind twice.* `parts.ts:3-7` says two parts sharing a cut split the glyph without
  overlap. The inside clip is painted by nonzero and the outside clip by evenodd, so this holds
  exactly where both rules agree about the cut (`OutsideClips.PartsSplitIff`); there is never a gap.
- *Relative cuts.* An outside cut is appended to the box string. For path data that starts with a
  moveto, the joined data parses to the box and the cut's own segments if and only if that moveto is
  absolute (`OutsideClips.ClipKeepsTheCutIff`), and then it draws the box and the cut's own polygons
  (`ClipIsBoxAndCut`). "m4 4h2v2h-2z" is cut out two units off: it paints (5, 5), and so does the
  clip meant to paint everything else (`RelativeCutOverlapsItsOutside`).
- *Two lookups.* Once compaction removed a log row, a push is compared by payload digest instead of
  text. The two lookups give the same verdict exactly unless the pushed operation is the logged one
  with a different payload of the same digest (`SyncHistory.LookupsAgreeIff`,
  `CollidingLookupsDisagree`).
- *Printing rounds.* Re-parsing a printed path is exact if and only if every number is a whole
  number of thousandths (`Paths.ReparseIsExactIff`).

## Model

| member | source | states |
|---|---|---|
| SyncContracts.ParseBatch | apps/sync/src/contracts.ts:228-273 | The parser accepts a batch exactly when ids and client sequences are unique, client sequences are contiguous, and the size limits hold; a duplicate is reported only when there is one |
| SyncContracts.PayloadDigestsAreNeeded | apps/sync/src/workspace-sync-object.ts:1234-1244 | What a payload refers to, form by form: the chunks of every asset of an inline operation, of a chunked operation, and of all sealed content that travels chunked, operation and assets alike; and nothing else |
| SyncContracts.SealListsEveryKey | apps/sync/src/workspace-sync-object.ts:1246-1254 | The seal of an operation has its own scheme and key first, and all its keys are one key if and only if the operation and every asset are under that key |
| SyncObject.WorkspaceSyncObject.AdmitSealState | apps/sync/src/workspace-sync-object.ts:472-503 | Plaintext is refused once a marker exists, foreign key ids are refused, the first seal writes the marker at the current latest sequence, and a refusal leaves the marker alone |
| SyncInvariants.AdmitKeepsMarker | apps/sync/src/workspace-sync-object.ts:472-503 | Admission never changes an existing marker |
| SyncHistory.SealAdmittedIff | apps/sync/src/workspace-sync-object.ts:472-503 | Plaintext is admitted if and only if there is no marker; sealed content if and only if the operation and all assets are under the marker's key, or under one key when there is none, and then the first one writes the marker; the refusal names which |
| SyncObject.WorkspaceSyncObject.ClaimWorkspaceEncryption | apps/sync/src/workspace-sync-object.ts:422-447 | A claim returns the marker that is stored afterwards, whoever wrote it |
| SyncInvariants.ClaimKeepsInv | apps/sync/src/workspace-sync-object.ts:422-447 | A claim never fails, keeps every invariant, answers an existing marker unchanged and otherwise sets the boundary at the whole history |
| SyncObject.WorkspaceSyncObject.InsertUses | apps/sync/src/workspace-sync-object.ts:1175-1181 | Inserting references one by one adds exactly one per digest for the owner |
| SyncObject.WorkspaceSyncObject.InsertOperation | apps/sync/src/workspace-sync-object.ts:1146-1181 | An append writes log, index, head and chunk references together, at latest + 1 |
| SyncObject.WorkspaceSyncObject.CommitOperation | apps/sync/src/workspace-sync-object.ts:1065-1186 | One operation is answered from the log, answered from the index, rejected, or appended, in the order of the code's checks |
| SyncObject.WorkspaceSyncObject.CommitBatch | apps/sync/src/workspace-sync-object.ts:1065-1193 | The batch loop is operation-by-operation commit that stops at the first error |
| SyncObject.WorkspaceSyncObject.PushTransaction | apps/sync/src/workspace-sync-object.ts:203-239 | A rejected batch leaves every table as it was, the encryption marker included; an accepted one answers every operation and the new latest |
| SyncObject.WorkspaceSyncObject.MissingPushContent | apps/sync/src/workspace-sync-object.ts:625-637 | The loop over operations and manifests reports exactly the chunks these operations carry that are not stored |
| SyncObject.WorkspaceSyncObject.PushOperations | apps/sync/src/workspace-sync-object.ts:203-239 | A push with a missing chunk among its unanswered operations reports all of them and changes nothing; any other push is its transaction |
| SyncHistory.LatestIsHistoryLength | apps/sync/src/workspace-sync-object.ts:1202-1215 | latestServerSequence equals the history length, even when compaction emptied the log |
| SyncHistory.ClientSequencesIncrease | apps/sync/src/workspace-sync-object.ts:1115-1132 | A device's server sequences increase with its client sequences, and every base is below its own sequence |
| SyncHistory.DeviceSequencesAreExactly | apps/sync/src/workspace-sync-object.ts:1115-1132 | A device's entries are numbered exactly 1 to its head |
| SyncHistory.LookupsAgree | apps/sync/src/workspace-sync-object.ts:1037-1113 | Every logged id is found in the index; the index calls a pushed operation identical exactly when it has the logged fields and the digest of the logged payload, and then names the log row's sequence |
| SyncHistory.LookupsAgreeIff | apps/sync/src/workspace-sync-object.ts:1037-1113 | The log lookup and the index lookup give the same verdict if and only if the pushed operation is not the logged one with a different payload of the same digest |
| SyncHistory.CollidingLookupsDisagree | apps/sync/src/workspace-sync-object.ts:1037-1113 | For such a pair of payloads there is a consistent workspace whose log lookup says reused and whose index lookup says identical |
| SyncHistory.ReuseIsAnsweredOrRejected | apps/sync/src/workspace-sync-object.ts:1065-1113 | An operation that shares id or device sequence with entry i is answered with i + 1 and changes nothing when it repeats the entry, and is rejected as reused otherwise |
| SyncHistory.NewOperationIsAppendedOrRejected | apps/sync/src/workspace-sync-object.ts:1065-1186 | An operation nobody used is appended at history length + 1 if and only if its seal fits, its base is in the history, its sequence is the device's next and no chunk it carries is being removed; otherwise it is refused for the first of these it misses; a UNIQUE constraint is never hit |
| SyncHistory.PushKeepsHistory | apps/sync/src/workspace-sync-object.ts:1065-1193 | Every push keeps log = history above the floor, index = whole history, heads = counts; it only extends the history and never hits a UNIQUE constraint |
| SyncHistory.AcceptedBatchIsPrefixPlusSuffix | apps/sync/src/workspace-sync-object.ts:1065-1193 | An accepted batch is a committed prefix, answered with the sequences it has, followed by a suffix appended in order without gap; the head becomes the later of old head and last client sequence, other heads stay |
| SyncInvariants.PushKeepsInv | apps/sync/src/workspace-sync-object.ts:1065-1193 | A push keeps history, floor, reference, mark, usage and seal invariants and refers only to digests of operations it appends |
| SyncObject.WorkspaceSyncObject.PublishTransaction | apps/sync/src/workspace-sync-object.ts:697-752 | Publishing refuses a checkpoint below the floor or with a marked digest, keeps the old references on republication, and changes nothing when refused |
| SyncInvariants.PublishKeepsInv | apps/sync/src/workspace-sync-object.ts:678-752 | Publishing keeps every invariant although the upper bound was checked before an await |
| SyncInvariants.PublishRespectsMarker | apps/sync/src/workspace-sync-object.ts:723-734 | A checkpoint written under a marker is sealed under its key, and a sealed one leaves a marker naming its key |
| SyncInvariants.PublishedExactlyWhen | apps/sync/src/workspace-sync-object.ts:712-750 | A checkpoint is accepted if and only if it is not below the floor, none of its chunks is being removed and its seal fits; then it is the record stored at its sequence, the one served when it is the greatest, and references are added for exactly its chunks |
| SyncObject.WorkspaceSyncObject.AcknowledgeOperations | apps/sync/src/workspace-sync-object.ts:639-670 | An acknowledgement above latest is refused, and a stored cursor never moves back |
| SyncInvariants.AcknowledgeKeepsInv | apps/sync/src/workspace-sync-object.ts:639-670 | Refused above latest with nothing changed; otherwise the answer is the sequence sent, or the device's old acknowledgement when that is greater, it is what is stored with the time for that device, and nothing else changes |
| SyncObject.WorkspaceSyncObject.LatestCheckpoint | apps/sync/src/workspace-sync-object.ts:782-789 | The checkpoint served is the one with the greatest stored sequence, or none when none is stored |
| SyncObject.WorkspaceSyncObject.RecordChunkUpload | apps/sync/src/workspace-sync-object.ts:314-337 | A digest is recorded once and the total returned is the new usage |
| SyncInvariants.RecordKeepsInv | apps/sync/src/workspace-sync-object.ts:314-337 | A new digest is recorded with its size, a known one keeps its size and counts nothing, and usage stays the sum of recorded sizes |
| SyncObject.WorkspaceSyncObject.FinishChunkDeletion | apps/sync/src/workspace-sync-object.ts:929-945 | Finishing takes each digest off usage, sizes and marks, in the order given |
| SyncInvariants.FinishOneKeepsUsage | apps/sync/src/workspace-sync-object.ts:929-945 | The MAX(0, ...) clamp never changes a result |
| SyncInvariants.FinishKeepsInv | apps/sync/src/workspace-sync-object.ts:929-945 | Exactly the given digests lose their mark and their recorded size, usage stays the sum of recorded sizes, and every other invariant holds |
| SyncObject.WorkspaceSyncObject.RemoveSuperseded | apps/sync/src/workspace-sync-object.ts:834-879 | Compaction removes exactly the superseded checkpoints and the log through the limit, with exactly their references, and collects the digests those named |
| SyncObject.WorkspaceSyncObject.MarkOrphans | apps/sync/src/workspace-sync-object.ts:882-885 | Exactly the candidates nothing refers to any more become marked |
| SyncObject.WorkspaceSyncObject.RaiseLogFloor | apps/sync/src/workspace-sync-object.ts:899-919 | The floor row takes the maximum and the call reports the throw when it passes the oldest retained checkpoint |
| SyncObject.WorkspaceSyncObject.PlanCompaction | apps/sync/src/workspace-sync-object.ts:817-891 | The planning transaction, with its rollback, equals planning on tables |
| SyncStore.RetainedIsTheTopTwo | apps/sync/src/workspace-sync-object.ts:826-843 | The two greatest checkpoints are retained, or all when there are fewer, and exactly the others are superseded |
| SyncInvariants.PlanBounds | apps/sync/src/workspace-sync-object.ts:899-919 | The throw in raiseLogFloor is unreachable |
| SyncInvariants.PlanKeepsFloor | apps/sync/src/workspace-sync-object.ts:817-919 | Every stored checkpoint stays between floor and latest, and a positive floor keeps a checkpoint to hydrate from |
| SyncInvariants.PlanKeepsInv | apps/sync/src/workspace-sync-object.ts:817-891 | Planning never fails, keeps every invariant, only raises the floor, and marks exactly the digests that lost their last reference |
| SyncInvariants.PlanRemovesOnlyAcknowledged | apps/sync/src/workspace-sync-object.ts:817-891 | The log shrinks only when the floor rises, never past what a cursor that did not expire has acknowledged; exactly the idle cursors expire; the reported counts are what was removed |
| SyncInvariants.PlanCompactsFully | apps/sync/src/workspace-sync-object.ts:847-879 | When a checkpoint is stored and a device is live, every row that stays is above some retained checkpoint or live cursor; a floor that moves stands at one of those, and names the greatest stored checkpoint |
| SyncObject.WorkspaceSyncObject.MarkStaleChunks | apps/sync/src/workspace-sync-object.ts:954-979 | The sweep marks exactly the stale chunks that are neither referenced nor marked |
| SyncInvariants.MarkStaleKeepsInv | apps/sync/src/workspace-sync-object.ts:954-979 | Sweeping never marks a referenced digest and keeps every invariant |
| SyncProtocol.SkippedIsNeverAppended | apps/sync/src/workspace-sync-object.ts:203-228 | An operation skipped by the index check before the presence check is never appended at commit, whatever ran in between |
| SyncProtocol.PushProbesWhatItNeeds | apps/sync/src/workspace-sync-object.ts:203-228 | A push probes exactly the chunks carried by its operations that the index does not answer |
| SyncRequests.UndisturbedPush | apps/sync/src/workspace-sync-object.ts:203-239 | Undisturbed, a push reaches its transaction if and only if every such chunk is in the bucket, and otherwise changes nothing |
| SyncRequests.UndisturbedPublish | apps/sync/src/workspace-sync-object.ts:678-752 | Undisturbed, a publication reaches its transaction if and only if every chunk of the checkpoint is in the bucket, and otherwise changes nothing |
| SyncProtocol.StepKeepsInv | apps/sync/src/workspace-sync-object.ts:625-637 | Every step of every request keeps the world invariant, requests in flight included, and never takes back history, floor or marker |
| SyncProtocol.RunKeepsInv | apps/sync/src/workspace-sync-object.ts:800-815 | The world invariant holds after every interleaving of every run |
| SyncSafety.MarkedIsUnreferenced | apps/sync/src/workspace-sync-object.ts:882-889 | After every run no marked digest is referenced; each chunk of each manifest a logged operation carries, and of each stored checkpoint, has its reference; and an operation's references name nothing it does not carry |
| SyncSafety.ReferencedIsStored | apps/sync/src/workspace-sync-object.ts:800-815 | With one compaction at a time and no mark cleared between check and commit, every referenced chunk is in the bucket after every run, so each chunk carried by a live row or a checkpoint is |
| SyncSafety.StepKeepsSafe | apps/sync/src/workspace-sync-object.ts:954-979 | Each step keeps "referenced implies stored", "removed only while marked" and "confirmed stays stored or marked" |
| SyncCounterexamples.OverlappingCompactionsLoseAChunk | apps/sync/src/workspace-sync-object.ts:800-815 | A run with two overlapping compactions, and no mark cleared under a commit, ends with a referenced chunk missing |
| SyncCounterexamples.ClearedMarkLosesAChunk | apps/sync/src/workspace-sync-object.ts:929-945 | A run with one compaction that clears a mark between check and commit ends with a referenced chunk missing |
| SyncCollection.MarkedIsDeleted | apps/sync/src/workspace-sync-object.ts:800-806 | Undisturbed, the first half of a compaction removes every marked object and every mark |
| SyncCollection.StaleIsSwept | apps/sync/src/workspace-sync-object.ts:954-979 | Undisturbed, the sweep removes exactly the listed objects past the grace period that nothing refers to |
| SyncCollection.UndisturbedCompactionCollects | apps/sync/src/workspace-sync-object.ts:800-815 | After an undisturbed compaction no mark is left, every stored object past the grace period is referenced, and nothing referenced was removed |
| SyncSafety.EveryClaimSeesOneMarker | apps/sync/src/workspace-sync-object.ts:422-447 | Every claim ever answered returned the same marker, and it never changes |
| SyncSafety.SealedExactlyAboveTheBoundary | apps/sync/src/workspace-sync-object.ts:472-503 | A log row is sealed if and only if its sequence exceeds the boundary, then its operation and every asset are under the workspace key; no checkpoint written under a marker is plaintext or foreign |
| SyncSafety.RetriesAreIdempotentForever | apps/sync/src/workspace-sync-object.ts:203-228 | A batch accepted once and pushed again after any further run probes no content, gets the same answers and changes nothing |
| SyncSafety.ReuseIsRejectedForever | apps/sync/src/workspace-sync-object.ts:1053-1193 | A push that reuses an accepted id or device sequence with different content, anywhere in its batch, is rejected and changes nothing after any further run: always while the log row is there, and afterwards unless the two payloads are different ones of the same digest |
| SyncObject.WorkspaceSyncObject.PullOperations | apps/sync/src/workspace-sync-object.ts:246-294 | A pull answers truncation below the floor and otherwise the longest prefix within the byte budget, or the first operation alone |
| SyncPull.PageIsUnique | apps/sync/src/workspace-sync-object.ts:246-294 | No shorter or longer page meets that definition |
| SyncPull.PageWithinBudget | apps/sync/src/workspace-sync-object.ts:262-290 | A page of more than one operation, serialized, never exceeds the budget |
| SyncPull.SerializedIsTheText | apps/sync/src/workspace-sync-object.ts:262-290 | The serialized size is the length of the response text, and the budget counts one separator too many |
| SyncPull.PageIsFull | apps/sync/src/workspace-sync-object.ts:262-290 | A page has as many operations as asked for, reaches the end of the history, or would reach the byte budget with one more |
| SyncPull.PageIsNextSlice | apps/sync/src/workspace-sync-object.ts:246-294 | A page is the history after the cursor, in order, and not empty before the end |
| SyncPull.ParsePullResponse | apps/sync/src/contracts.ts:275-324 | The client accepts exactly pages within bounds whose sequences increase and do not exceed latest |
| SyncPull.PagePassesTheClientCheck | apps/sync/src/contracts.ts:275-324 | Every page the workspace sends passes the client's check if and only if latest is a safe integer |
| SyncPull.PagesChainIntoTheHistory | apps/sync/src/workspace-sync-object.ts:246-294 | Whatever runs between pulls, the pages a client collects are the operations after its cursor, each once and in order |
| SyncPull.QuietPullIsComplete | apps/sync/src/workspace-sync-object.ts:246-294 | On a quiescent workspace every chain of latest - cursor answered pulls, of whatever limits, has collected exactly everything after the cursor |
| SyncPull.PullAdvances | apps/sync/src/workspace-sync-object.ts:246-294 | From between floor and latest every valid pull is a page that ends between floor and latest, and further on unless it started at latest |
| SyncPull.PullsReachTheEnd | apps/sync/src/workspace-sync-object.ts:246-294 | From every cursor the floor admits a chain of at most latest - cursor answered pulls exists that collects everything after the cursor |
| SyncPull.NoDeviceIsStranded | apps/sync/src/workspace-sync-object.ts:246-260 | In every reachable state a cursor is served if and only if it is not below the floor; below it a checkpoint at or above the advertised one is stored; and from the cursor, or from that latest checkpoint, answered pulls collect the full remaining suffix |
| SyncPull.FloorOnlyRises | apps/sync/src/workspace-sync-object.ts:899-919 | Over every run the floor only rises, and stored checkpoints stay between floor and latest |
| SyncClient.PullPage | crates/skriuw-sync/src/cycle.rs:807-892 | The device's page step: below the floor the log is cut, otherwise the page is the next stretch of the history, moves the cursor to its end, and is never rejected |
| SyncClient.PullPhase | crates/skriuw-sync/src/cycle.rs:782-805 | The page loop terminates, applies the history after the cursor in order, and drains it whenever the cycle allows a page per missing operation |
| SyncClient.CatchUp | crates/skriuw-sync/src/checkpoint.rs:108-145 | With every table invariant in place the device is never blocked: from its cursor, or from the latest checkpoint when the log was cut, it ends up with the whole rest of the history |
| ContentManifests.Validate | crates/skriuw-domain/src/chunk.rs:158-205 | The Rust loop accepts exactly the valid manifests, and blames a fault that is there |
| ContentManifests.ParseContentManifest | apps/sync/src/contracts.ts:626-704 | The Worker loop accepts exactly the same set of valid manifests and returns them unchanged |
| ContentManifests.MimeTypesAgree | crates/skriuw-domain/src/chunk.rs:62-78 | Stripping the first matching prefix and the Worker's pattern accept the same mime types |
| ContentManifests.CheckBothValidators | apps/sync/src/contracts.ts:626-704 | Run on one manifest, the Rust loop and the Worker loop both accept exactly when it is valid |
| ContentManifests.ChunkOffsetIsPrecedingSum | crates/skriuw-domain/src/chunk.rs:208-210 | In a valid manifest chunk_offset(i) is the sum of the preceding lengths |
| ContentManifests.ValidManifestTotal | crates/skriuw-domain/src/chunk.rs:158-205 | A valid total lies above the offset of the last chunk and within the content limit |
| ContentManifests.ValidIffSlicesOfContent | crates/skriuw-domain/src/chunk.rs:158-205 | A manifest is valid if and only if its fields have their shapes and its chunks have the lengths of the slices of content of the declared length |
| ContentManifests.JoinSplit | crates/skriuw-domain/src/chunk.rs:120-156 | Joining the slices of any bytes gives the bytes back |
| ContentManifests.SplitVisitsEveryChunk | crates/skriuw-domain/src/chunk.rs:230-246 | Splitting bytes of the declared length visits exactly the manifest's chunks, none skipped |
| ContentManifests.BuiltManifestIsValid | crates/skriuw-domain/src/chunk.rs:120-156 | What build makes of content within the limits is always valid |
| ContentManifests.Build | crates/skriuw-domain/src/chunk.rs:120-156 | build fails exactly on a bad mime type, empty content or content over the limit |
| ContentManifests.VerifyAssembled | crates/skriuw-domain/src/chunk.rs:230-246 | Accepts exactly the bytes that a valid manifest describes in length, digest and every chunk |
| ContentManifests.DescribedTwiceCollide | crates/skriuw-domain/src/chunk.rs:212-246 | Two contents accepted for one manifest are equal or collide both as a whole and in some chunk |
| ContentManifests.BuiltManifestDescribesItsBytes | crates/skriuw-domain/src/chunk.rs:120-246 | A built manifest verifies its own bytes, and other bytes only through such collisions |
| ContentStore.ChunkKeysAreDistinct | apps/sync/src/content-store.ts:18-36 | Two workspaces never share a chunk key, whatever characters their ids contain |
| ContentStore.WorkspaceContentStore.PutChunk | apps/sync/src/content-store.ts:52-74 | A put stores the bytes only under their own digest and only when nothing is stored there |
| ContentStore.WorkspaceContentStore.GetChunk | apps/sync/src/content-store.ts:80-90 | A read answers not found, mismatch, or bytes of the digest asked for |
| ContentStore.PutKeepsContentAddressed | apps/sync/src/content-store.ts:48-74 | Every stored chunk has the digest and size its key promises, after any put |
| ContentStore.PutTouchesOneChunk | apps/sync/src/content-store.ts:18-74 | A put changes what is read of no other digest and no other workspace |
| ContentStore.PutThenGet | apps/sync/src/content-store.ts:52-90 | What was put reads back with the same digest, a mismatch is never reported, putting again changes nothing |
| ContentStore.WorkspaceContentStore.MissingChunks | apps/sync/src/content-store.ts:92-106 | Exactly the manifest digests that are not stored, each once |
| ContentStore.UploadedContentIsFetched | apps/sync/src/content-store.ts:52-106 | After uploading the parts of content nothing of its manifest is missing, every fetched chunk has its part's digest, and the chunks join to the content unless one differs from its part |
| ContentStore.WorkspaceContentStore.DeleteChunks | apps/sync/src/content-store.ts:108-113 | Deleting is removing the keys of the named digests |
| ContentStore.DeleteRemovesOnlyItsChunks | apps/sync/src/content-store.ts:108-113 | A chunk survives a deletion if and only if it was stored and not named for its own workspace, and survivors read the same |
| ContentStore.PutDeletePut | apps/sync/src/content-store.ts:52-113 | A deleted chunk is not found, and putting it again creates it with the bytes that are put |
| ContentStore.ListingIsExact | apps/sync/src/content-store.ts:115-143 | A listing names every chunk of the workspace once and no foreign object |
| ContentStore.WorkspaceContentStore.ListChunks | apps/sync/src/content-store.ts:115-143 | The paging loop returns that exact listing for every page size |
| WorkspaceTree.RepetitionNeverEnds | crates/skriuw-domain/src/lib.rs:935-955 | A parent chain that comes back to an earlier ancestor has no root |
| WorkspaceTree.WalkAncestors | crates/skriuw-domain/src/lib.rs:944-955 | The walk terminates and reports a cycle exactly when following parents never ends |
| WorkspaceTree.CheckTree | crates/skriuw-domain/src/lib.rs:925-955 | The tree part of archive validation accepts exactly unique ids, parents that are folders, and chains that end at a root |
| WorkspaceTree.WalkActive | crates/skriuw-domain/src/lib.rs:1000-1013 | The visited-free walk terminates in a tree and passes exactly when no ancestor-or-self is deleted |
| WorkspaceTree.CheckActive | crates/skriuw-domain/src/lib.rs:994-1013 | The active note is accepted exactly when it is a note outside every deleted subtree |
| WorkspaceTree.IndexChildren | crates/skriuw-domain/src/lib.rs:787-797 | The child index lists exactly the children, and the worklist starts with exactly the deleted nodes |
| WorkspaceTree.UnavailableNodeIds | crates/skriuw-domain/src/lib.rs:787-809 | The worklist terminates, cycles or not, with exactly the nodes below a deleted one |
| WorkspaceTree.ClosureAgreesWithWalk | crates/skriuw-domain/src/lib.rs:787-809 | Downward closure and upward ancestry define the same unavailable nodes |
| WorkspaceTree.ActiveNoteAgrees | crates/skriuw-domain/src/lib.rs:994-1013 | The active note passes exactly when no ancestor-or-self is deleted, the worklist returns exactly the unavailable nodes, and the two agree |
| DocumentLimits.VisitStep | crates/skriuw-domain/src/lib.rs:1718-1738 | Replacing a visited value by its children loses one node and keeps whether the depth limit is met |
| DocumentLimits.ValidateDocument | crates/skriuw-domain/src/lib.rs:1700-1744 | The explicit stack accepts exactly the objects whose recursively defined depth and size, and lengths, are within the limits; the limit it blames is exceeded |
| RecoveryCodes.ReadSymbols | crates/skriuw-crypto/src/lib.rs:113-124 | Reading drops separators, folds case and confusables, and fails exactly on a character outside the alphabet |
| RecoveryCodes.Parse | crates/skriuw-crypto/src/lib.rs:113-136 | Block-wise conversion gives the 20 base-256 digits of the number whose 32 base-32 digits were typed, for exactly the accepted strings |
| RecoveryCodes.Format | crates/skriuw-crypto/src/lib.rs:140-158 | Block-wise conversion gives the 32 base-32 digits of the entropy as one number, in groups of four |
| RecoveryCodes.DigitsConcat | crates/skriuw-crypto/src/lib.rs:126-134 | Digits of a number may be computed block by block |
| RecoveryCodes.FormattedShape | crates/skriuw-crypto/src/lib.rs:140-158 | A formatted code is 39 characters, eight groups of four alphabet symbols with a dash between groups |
| RecoveryCodes.CrockfordReadings | crates/skriuw-crypto/src/lib.rs:387-399 | Each alphabet symbol counts for its place in either case, I and L count for 1, O for 0, and U for nothing |
| RecoveryCodes.ParseOfFormatted | crates/skriuw-crypto/src/lib.rs:113-158 | parse(formatted(e)) is e for all 20-byte entropies |
| RecoveryCodes.FormattedOfParse | crates/skriuw-crypto/src/lib.rs:113-158 | formatted(parse(s)) is the canonical form of any accepted s |
| RecoveryCodes.SameCodeIffSameNormalForm | crates/skriuw-crypto/src/lib.rs:387-399 | Two accepted strings are the same code if and only if they agree after normalization |
| JumpMatcher.Matcher.Best | packages/storybook-shell/jump.ts:27-49 | The memoised recursion returns the best of all increasing embeddings, ties to the smallest positions; in every memo key `previous` is the text index minus one |
| JumpMatcher.BestIsUnique | packages/storybook-shell/jump.ts:27-49 | The best match is determined, positions included |
| JumpMatcher.PlacementScore | packages/storybook-shell/jump.ts:33-46 | A placement scores, in fifths, 5 per character, 40 per character on a word start, 25 per character right behind another, 20 for starting at the very beginning, minus 1 per skipped title character |
| JumpMatcher.ExtendBest | packages/storybook-shell/jump.ts:33-46 | Putting one character in front of the best rest is the best with that first position |
| JumpMatcher.EmbeddingIsSubsequence | packages/storybook-shell/jump.ts:21-52 | Whenever an embedding exists the query is a subsequence |
| JumpMatcher.GreedyFindsEmbedding | packages/storybook-shell/jump.ts:21-52 | Whenever the query is a subsequence an embedding exists |
| JumpMatcher.JumpMatchOf | packages/storybook-shell/jump.ts:21-52 | Null exactly for an empty query or one that is not a subsequence, otherwise the best match with the score of its placement |
| Paths.ParsePath | packages/icons/path.ts:74-183 | The command loop equals the recursive reading of the token stream, errors included |
| PathCommands.AbsoluteCommands | packages/icons/path.ts:95-177 | What each absolute command draws from its coordinates |
| PathCommands.AbsoluteArc | packages/icons/path.ts:159-172 | An arc takes its radii without signs, its rotation and end point as given, and a flag is set by 1 only |
| PathCommands.RelativeIsShiftedAbsolute | packages/icons/path.ts:95-180 | For every letter, the relative command draws what the absolute one draws with its coordinates, and only those, shifted by the current point, and leaves the same pen |
| PathCommands.PenFollowsTheSegment | packages/icons/path.ts:95-180 | After a command the current point is the end of the segment, or the start of the subpath after a close |
| PathCommands.SmoothReflectsThePrevious | packages/icons/path.ts:130-158 | The current point is the midpoint of the last control and the new first control for S after a cubic and T after a quadratic, and is that control otherwise |
| PathCommands.RepeatedCommand | packages/icons/path.ts:84-99 | Numbers without a letter repeat the last command, a moveto as a lineto |
| PathCommands.RelativeMayBeWrittenAbsolutely | packages/icons/path.ts:74-183 | Anywhere in a path a relative command may be replaced by the absolute one without changing what is parsed |
| Paths.RoundKeepsThousandths | packages/icons/path.ts:185-190 | Printing keeps a number exactly when it is a whole number of thousandths |
| Paths.RoundIsNearest | packages/icons/path.ts:185-190 | Printing takes the nearest thousandth, the greater one of two |
| Paths.ReparseRounds | packages/icons/path.ts:185-213 | Parsing a printed path gives the rounded segments, from any state of the parser |
| Paths.ReparseIsExactIff | packages/icons/path.ts:185-213 | The print-parse round trip is exact if and only if every number is in thousandths |
| PathShapes.SplitSegments | packages/icons/path.ts:220-238 | The groups are subpaths with one moveto each, and joined they are the path after at most one synthetic moveto |
| PathShapes.FlattenPath | packages/icons/path.ts:280-365 | The flattening loop equals the recursive definition for every curve sampler |
| PathShapes.CurveIsItsPolyline | packages/icons/path.ts:280-365 | A curve draws what straight lines through its sampled points draw, and an arc without a radius one line to its end |
| PathShapes.CloseReturnsToTheStart | packages/icons/path.ts:356-360 | A command after a close starts a new polygon at the start of the closed one |
| PathShapes.FlatConcat | packages/icons/path.ts:280-365 | What precedes a moveto does not change what follows it draws |
| PathShapes.SplitDrawsTheSame | packages/icons/path.ts:215-238 | The polygons of the parts, in order, are the polygons of the whole, commands after a close included |
| PathShapes.ParsedInThousandths | packages/icons/path.ts:74-183 | Path data in thousandths parses to segments in thousandths, relative commands and reflections included |
| PathShapes.SplitPreservesTheDrawing | packages/icons/path.ts:215-238 | For path data in thousandths the printed subpaths parse back to their segments, concatenate to the path and draw the same polygons |
| FillRules.ContainsPoint | packages/icons/path.ts:370-395 | The loop computes winding and crossings over all edges and decides by the rule |
| FillGeometry.CrossingIsToTheRight | packages/icons/path.ts:381-391 | An upward or downward edge that spans the height of a point is crossed exactly when the point lies to the left of it at that height, and no other edge is |
| FillGeometry.TrianglePaint | packages/icons/path.ts:370-395 | Both rules paint a triangle, drawn either way round, exactly where its three half-planes meet, edges included by direction |
| FillGeometry.FlatTrianglePaintsNothing | packages/icons/path.ts:370-395 | A triangle without area paints nothing |
| FillRules.CrossingsMatchWinding | packages/icons/path.ts:370-395 | Crossing count and winding number have equal parity for every shape and point |
| FillRules.EvenOddInsideNonZero | packages/icons/path.ts:370-395 | Whatever evenodd paints, nonzero paints |
| FillRules.EvenOddIsExclusiveOr | packages/icons/path.ts:370-395 | Evenodd over two shapes drawn together is their exclusive or |
| FillRules.RectPaint | packages/icons/path.ts:370-395 | Evenodd paints a rectangle inside and on its lower and left edges, and nowhere else |
| FillRules.BoxPaint | packages/icons/render-data.ts:15 | The clip box paints exactly the half-open square from -2 to 26 |
| FillRules.OutsideClipIsComplement | packages/icons/render-data.ts:73-75 | Inside the box an outside clip paints exactly what evenodd does not paint of the cut |
| OutsideClips.ClipIsBoxAndCut | packages/icons/render-data.ts:73-75 | The joined path data parses and flattens to the box and the polygons of the cut, when the cut starts with an absolute moveto |
| OutsideClips.ClipKeepsTheCutIff | packages/icons/render-data.ts:73-75 | For path data that starts with a moveto, the joined data parses to the box and the cut's own segments if and only if that moveto is absolute |
| OutsideClips.RelativeCutIsShifted | packages/icons/render-data.ts:73-75 | A rectangle drawn with relative commands is cut out two units off, so the clip is the complement of the cut only at points in both rectangles or in neither |
| OutsideClips.RelativeCutOverlapsItsOutside | packages/icons/render-data.ts:73-75 | One such cut and one point of it that the clip outside the cut paints too |
| OutsideClips.PartsSplitIff | packages/icons/parts.ts:3-8 | Two parts sharing a cut split a point without overlap exactly where nonzero and evenodd agree about the cut, and never leave a gap |
| OutsideClips.DoubleCutOverlaps | packages/icons/parts.ts:3-8 | The box drawn twice is a cut whose inside clip and outside clip, parsed and flattened, both paint every point of the box |

## Left out

- Timestamps that are never read back (mark and compaction times) and the order in which digests are listed.
- JSON text, UTF-8 and the operation schema: payloads are values, serialized sizes are a function parameter, and equality of payload text is equality of payloads.
- SHA-256 itself, Argon2, XChaCha20 and BLAKE2: digests are arbitrary functions.
- Schema migrations, and databases compacted before migration 3, whose index may have gaps; `purgeWorkspace`.
- WebSocket events, alarms, broadcasts, HTTP routing, authentication, provisioning and quota enforcement.
- The bound of the log counter at 2^63 and the safe-integer checks of inputs other than pull cursors, limits and pull responses.
- Requests that crash: the `Abandon` step drops a request between two awaits. Bucket listing and presence checks are single-object steps, so every interleaving of a page or of parallel checks is covered.
- SyncSafety.ReferencedIsStored: assumes the two hypotheses it names; whether a deployment keeps them is outside the workspace object. The bucket is modelled for one workspace.
- SyncObject.WorkspaceSyncObject.PushOperations: the stored chunks are an input, read once; the interleaved form of the presence checks is in `SyncProtocol`.
- SyncSafety.ReuseIsRejectedForever: once compaction removed the log row the code compares payload digests only, so a colliding payload would be answered as a retry.
- SyncPull.ParsePullResponse: the ordering and bound checks only; protocol version, operation ids, device ids and payloads of a response are not modelled.
- SyncClient.PullPage: sealing, chunk resolution, storage and transport failures and cancellation are not modelled; applying operations is moving the cursor to the last one.
- SyncClient.CatchUp: the workspace stands still between its pulls, and the device has nothing left to upload; with uploads waiting the code keeps the device blocked until they are drained.
- ContentStore.DeleteRemovesOnlyItsChunks: the digests to delete have the shape of a content digest, as every digest of a mark or a listing has.
- ContentStore.WorkspaceContentStore.ListChunks: the bucket's key order is an input and the bucket does not change between two pages; concurrent listing is the `ListObject` step of `SyncProtocol`.
- `deleteWorkspaceChunks`, which lists with the same loop.
- WorkspaceTree.CheckTree: the archive's field, tag, theme and image checks that stand beside the tree part are not modelled.
- DocumentLimits.ValidateDocument: the lengths of the markdown and of the encoded document are parameters; the node-type check of note documents is not modelled.
- RecoveryCodes.Parse: shifts and masks are written as division and remainder, without a machine width; the block stays below 2^40.
- JumpMatcher.JumpMatchOf: scores are exact and five times the code's, so floating-point ties are not captured; the lower-cased title and the word starts are inputs, so Unicode case folding and word classes are not modelled. `jumpMatches` is a filter and a stable sort and is left out.
- Paths.ParsePath: works on tokens, with exact numbers. Streams without full argument lists (whose missing numbers the code reads as NaN), and a number right after a closepath (where the code makes no progress), are answered as out of scope.
- SyncPull.SerializedIsTheText: one byte per character; UTF-8 is not modelled.
- PathShapes.FlattenPath: the points a curve or arc is sampled at are a function parameter.
- Easing, note shares, account deletion, the Ollama runtime, themes and the user interface.
