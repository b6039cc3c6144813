# PrivateMesh: verified storage, indexing and replication

A Dafny model of the parts of PrivateMesh that keep data: quorum replication, fenced elections, the HNSW graph and its
brute-force specification, the write-ahead log, segment files and their store, the inverted index, the fan-out
executor, and the collection engine on top of them.

Code that changes state is a class or a method with loops, proved against a function of the old state; the theorems
are about those functions and about whole runs of them. The `Effect`, `Ranking`, `Links`, `Progress` and `Accept` files
say what each operation leaves behind in terms of what was there before. `dafny verify dfyconfig.toml` checks everything.

| files | component |
|---|---|
| `Replica`, `Replication`, `ReplicationAnchor`, `ReplicationEffect`, `Primary`, `Election` | `internal/replication` |
| `Vectors`, `Hnsw`, `HnswLocal`, `HnswBuild`, `HnswInsert`, `HnswLinks`, `HnswExact`, `HnswClass`, `VectorIndex`, `VectorRanking` | `internal/vector` |
| `WalCodec`, `WalAccept`, `Wal`, `WalEffect`, `WalCrash`, `WalReplay`, `WalLog` | `internal/wal` |
| `SegmentCodec`, `SegmentFile`, `SegmentBuffers`, `SegmentStore`, `SegmentEffect`, `SegmentRuns`, `SegmentDirectory` | `internal/segment` |
| `SearchIndex`, `SearchRanking`, `SearchClass` | `internal/search` |
| `Fanout`, `FanoutRuns`, `FanoutRanking`, `FanoutProgress`, `FanoutOrder`, `FanoutClass` | `internal/distributed` |
| `EngineModel`, `EngineEffect`, `EngineRuns`, `EngineClass` | `internal/searchnode` |
| `Bytes`, `Wrappers`, `Ordering`, `Documents`, `Tokens`, `Encoding`, `Formats` | shared |

## What is assumed of the surroundings

- A method that holds a mutex is one atomic step. Time is an integer.
- Replication: a failed call has no effect on the replica, the rollbacks a write issues succeed, and writes of different
  primaries do not interleave. A catch-up must leave its target with all it had applied, or the target must not be
  needed for the majority that holds the whole log. It leaves the target so exactly when there is nothing to do or no
  tail to drop, when the rollback itself fails, or when the source's commit covers the tail and the calls after the
  rollback get far enough to bring it back. The code checks none of this; two concrete runs show what happens without
  it. The condition is exact for a majority holding the whole log (`SafeThroughoutIff`). For one entry per offset alone
  it is enough that every majority still meets a full replica, which for even numbers of replicas asks one fewer of
  them (`EveryAnchoredRunHasOneLog`).
- Files: a crash keeps every synced byte and any number of the later ones, and can fall between the write of a commit
  record and its sync; opening syncs only a file it started or cut. Rename and remove are atomic.
- White-space trimming is idempotent; tokenizing returns non-empty tokens; a checksum has its fixed size. About
  normalization, cosine, logarithm, embedding and level assignment nothing is assumed, except where the graph index is
  compared with the exact one: there, normalizing twice is normalizing once. Scores and distances are exact.
- Executor: node IDs are distinct. That the order of answers does not matter rests on no key being contested, which
  holds when hits name no node or the node that returned them (`HonestAnswersAgree`).

## What the code does that a reader may not expect

- `CatchUp` can drop an entry that a majority acknowledged: when the source's commit does not cover the target's tail,
  and also when it does but the call fails after its rollback (`UnguardedCatchUpLosesCommit`,
  `FailedCatchUpLosesCommit`).
- A cancelled Replay leaves the cursor where it stopped, and the next Append overwrites the records behind it. If only a
  commit record was left unread, the file still scans, without what only that commit covered
  (`AppendAfterCancelledReplay`, `CancelledReplayLosesCommit`).
- The next Commit after a cancelled Replay overwrites what was not read, too (`CommitAfterCancelledReplay`).
- Opening does not sync a file that ends in a whole record. An upsert whose commit record was written but not synced
  before a crash is served after reopening and can be lost in the next crash (`UnsyncedCommitIsTakenBack`).
- A log file cut inside its 20-byte header is refused, not repaired (`TornHeaderIsCorrupt`).
- The segment encoder does not enforce the limits of the decoder; one oversized string makes every later listing of
  the store fail (`SegmentReadsBack`, `ReadableAfterWriteIff`, `LongIdPoisons`).
- Compaction is safe only because old segments are removed oldest first (`NewestFirstWouldResurrect`).
- A graph search of breadth one stops at the node its descent ended on (`NarrowSearchExactIff`, `NarrowSearchCanMiss`).
- Nodes that answer under each other's IDs can make the merged results depend on the order of answers
  (`OrderMattersIff`, `BorrowedNodeIdsDependOnOrder`).
- The engine commits a mutation before it applies it. A document that cannot be embedded stays in the log and keeps it
  from being opened again (`UnplaceableIsNotCurrent`, `UnplaceableStopsOpening`), and a tail left by a crash is
  committed by the next call without being applied (`CurrentThroughoutIff`, `InterruptionIsMissed`).

## Model

| member | source | states |
|---|---|---|
| Replication.EveryRunIsSafe | internal/replication/protocol.go:81-185 | In every guarded run of writes by any primaries, catch-ups and history discards, at most one entry reaches a quorum at each offset, every replica holds a stretch of that one log and the fold of its committed prefix, and a majority holds all of it. |
| Replication.SafeThroughoutIff | internal/replication/protocol.go:81-185 | The guard is exact for this: a run keeps all of it, the full majority included, all along if and only if every catch-up in it keeps what its target had applied or can spare the target. |
| ReplicationAnchor.EveryAnchoredRunHasOneLog | internal/replication/protocol.go:81-185 | One entry per offset needs less: under a guard that only keeps every majority in touch with a full replica, at most one entry reaches a quorum at each offset and every replica is on that one log. |
| ReplicationAnchor.AnchoredThroughoutIff | internal/replication/protocol.go:81-185 | That guard is exact for every majority meeting a replica that holds the whole log. |
| ReplicationAnchor.GuardedIsAnchorGuarded | internal/replication/protocol.go:134-185 | The guard that keeps a majority full implies this one. |
| Replication.CatchUpSafeIff | internal/replication/protocol.go:134-185 | From a safe state, a catch-up leads to a safe state if and only if it is guarded. |
| Replication.AcknowledgedWriteIsDurable | internal/replication/protocol.go:81-131 | A write acknowledged to its caller stays the one mutation chosen at its offset, on every replica and on a majority, whatever follows. |
| Replication.QuorumsIntersect | internal/replication/protocol.go:116-117 | Two sets of replicas that each reach the quorum of `n` replicas share a member. |
| Replication.QuorumNeedsWholeLog | internal/replication/protocol.go:81-131 | A write can reach its quorum only if its primary already holds the whole chosen log, so a lagging primary never overwrites a chosen entry. |
| Replication.FailedWriteHasNoEffect | internal/replication/protocol.go:81-131 | A write that misses its quorum leaves every replica exactly as it was. |
| ReplicationEffect.WriteEffect | internal/replication/protocol.go:95-131 | What a write that reached its quorum does to each replica, whatever commits it missed before: the primary and the reached peers that had applied as much take the entry; of these the primary and all the commit reaches are committed through it and show the fold of the log up to it; every other replica, and every commit when the primary cannot commit, stays as it was. |
| ReplicationEffect.WrittenIff | internal/replication/protocol.go:81-131 | A write succeeds, with the next offset, if and only if its own calls get through and more than half of the replicas are level with the primary and reached. |
| ReplicationEffect.QuorumIsLeastMajority | internal/replication/protocol.go:116-117 | The quorum is the smallest number that is more than half. |
| Replication.CatchUpKeeps | internal/replication/protocol.go:134-185 | When the committed prefixes agree, whatever uncommitted tail the target has: a completed catch-up leaves it on the source's log, at the source's commit, with the image of the source's committed log, on the no-op, replay and snapshot paths alike; one that stops earlier leaves it as it was or on the source's log; no commit is undone. |
| Replication.CatchUpKeepsAppliedIff | internal/replication/protocol.go:146-185 | Whatever its outcome, a catch-up keeps all the target had applied if and only if there was nothing to do, no tail to drop, the rollback failed, or the source's commit covers the tail and enough calls after the rollback get through. |
| ReplicationEffect.CatchUpCompletesIff | internal/replication/protocol.go:134-185 | A catch-up completes if and only if the target is not ahead and each call it needs gets through: the rollback only of a tail, and then either all the missing entries and the commit, or the snapshot when history is gone. |
| Replication.UnguardedCatchUpLosesCommit | internal/replication/protocol.go:152-155 | A catch-up from a source whose commit does not cover the target's tail breaks safety: a concrete run of three replicas acknowledges two different entries at offset 2. |
| Replication.FailedCatchUpLosesCommit | internal/replication/protocol.go:152-161 | So does one from a source whose commit covers it, when the call fails after its rollback: a concrete run acknowledges two different entries at offset 1. |
| Replicas.CommitKeeps | internal/replication/replication_test.go:236-256 | Committing moves the image to the fold of the longer committed prefix and keeps the entries. |
| Replicas.RollbackKeeps | internal/replication/replication_test.go:258-271 | Rolling back to an uncommitted offset leaves a prefix of the same log that ends just below it. |
| Replicas.RollbackUndoesAppend | internal/replication/replication_test.go:219-271 | Rollback of the offset just appended restores the replica exactly. |
| ReplicationEffect.AppendsNextOnly | internal/replication/replication_test.go:219-234 | A replica appends the entry right after what it applied and no other. |
| ReplicationEffect.CommitsThrough | internal/replication/replication_test.go:236-256 | It commits through exactly the offsets between its commit and what it applied, and then shows the fold of the log through that offset. |
| ReplicationEffect.ServesHistory | internal/replication/replication_test.go:285-304 | It serves exactly the entries that follow an offset at or above its floor, and refuses those below. |
| Replicas.MemoryReplica.AppendEntry | internal/replication/replication_test.go:219-234 | Appends only the next offset; any other call changes nothing. |
| Replicas.MemoryReplica.CommitTo | internal/replication/replication_test.go:236-256 | The loop over entries applies exactly those above the old commit and through the new one. |
| Replicas.MemoryReplica.RollbackFrom | internal/replication/replication_test.go:258-271 | Keeps exactly the entries below the offset, or refuses a committed offset. |
| Replicas.MemoryReplica.ReadEntries | internal/replication/replication_test.go:285-304 | Returns exactly the entries after an offset, or says that history is no longer available. |
| Replicas.MemoryReplica.TakeSnapshot | internal/replication/replication_test.go:306-321 | Lists the committed documents, each once, in order of ID. |
| Replicas.MemoryReplica.InstallSnapshot | internal/replication/replication_test.go:323-340 | Replaces the replica by the image the snapshot lists, with no entries left; when it cannot be reached it is unchanged. |
| Primaries.Collect | internal/replication/protocol.go:103-115 | The loop over peers acknowledges exactly the reachable ones that can append, and appends at those alone. |
| Primaries.WriteToQuorum | internal/replication/protocol.go:87-131 | Append, collect, commit or roll back over replica objects changes the cluster exactly as the transition system says, with the same outcome; `WriteEffect` says what that is for each replica. |
| Primaries.Primary.Write | internal/replication/protocol.go:81-131 | A write is refused without effect unless the lease validates, and is otherwise the transition above. |
| Primaries.CatchUp | internal/replication/protocol.go:134-185 | Catch-up over replica objects, with its replay loop and snapshot path, leaves the target in the state of the transition system and the source unchanged. |
| Primaries.ReplayEntries | internal/replication/protocol.go:173-180 | The replay loop appends entries through the limit and stops at the first failure. |
| Elections.TermsFence | internal/replication/election.go:38-78 | Over every run of campaigns and renewals, terms never decrease and each term belongs to one node, whatever the clock does. |
| Elections.OldTermsStayInvalid | internal/replication/election.go:70-78 | Once a newer term has been granted, an older leadership never validates again. |
| Elections.LeasesNeverOverlap | internal/replication/election.go:38-67 | With a clock that does not go back, lease intervals of different holders never overlap. |
| Elections.CampaignGrantedIff | internal/replication/election.go:38-55 | A campaign is granted if and only if the node has an ID and no other node holds a lease; a holder keeps its term, anyone else gets the next, and the lease ends one duration from now. |
| Elections.RenewGrantedIff | internal/replication/election.go:58-67 | A renewal is granted if and only if node and term are the current ones and the lease has not run out; only its end moves. |
| Elections.GrantValidates | internal/replication/election.go:70-78 | After a grant exactly that node validates, with exactly that term, until the duration is over. |
| Elections.HolderIsUndisturbed | internal/replication/election.go:38-67 | No sequence of calls by other nodes before a lease has run out changes anything. |
| Elections.Election.Campaign | internal/replication/election.go:38-55 | Grants the next term only when no other node holds a live lease, and renews the same holder in its term. |
| Elections.Election.Renew | internal/replication/election.go:58-67 | Extends only the current live leadership and changes nothing otherwise. |
| Hnsw.Greedy | internal/vector/hnsw.go:161-178 | The descent ends at an existing node that has no closer neighbour on the layer and is the start or closer than it. |
| Hnsw.ExploreSound | internal/vector/hnsw.go:196-215 | The best-first loop keeps its results exactly the `breadth` closest of all visited nodes, until no candidate can improve them. |
| Hnsw.SearchLayerSound | internal/vector/hnsw.go:180-223 | A layer search returns distinct existing nodes in order, the closest of those it visited. |
| Hnsw.WideSearchIsReachability | internal/vector/hnsw.go:180-223 | With breadth at least the number of nodes, a layer search returns exactly the nodes reachable from the entries, in order. |
| HnswLocal.SearchIsLocallyOptimal | internal/vector/hnsw.go:196-215 | With any breadth, a layer search ends at a local optimum: a neighbour of a returned node is left out only by a full list, and only if it is further than every returned node, unless it is a neighbour of the furthest one. |
| HnswBuild.PrunedList | internal/vector/hnsw.go:225-242 | Pruning keeps exactly the closest neighbours, at most the limit, each once, in order of distance and ID. |
| HnswBuild.ConnectEffect | internal/vector/hnsw.go:112-117 | Linking two nodes changes their lists at one layer and nothing else, and the neighbour loses nobody while its list has room. |
| HnswBuild.ConnectAllLists | internal/vector/hnsw.go:112-117 | After linking a new node to all chosen neighbours, the list of each has exactly as many nodes as the limit allows, and while it had room it kept them all and gained the new node. |
| HnswInsert.AddKeepsWellFormed | internal/vector/hnsw.go:73-128 | Every insertion keeps one list per layer, of other nodes on that layer, without repeats and within the limit, the levels and vectors of all nodes, and an entry node on the highest layer: the new node exactly when it is the first or above the others. |
| VectorRanking.AddedIff | internal/vector/hnsw.go:73-87 | An item is added if and only if its trimmed ID is not empty and new and its vector can be normalized. |
| HnswLinks.AddLinks | internal/vector/hnsw.go:102-126 | On every layer shared with the graph a new node lists, in order, the `maxConnections` closest of what a search of the graph before it finds; each of those keeps the closest of its old list and the new node; no other list changes. The searches start where the layers above lead and then at the nearest node found on the layer above. |
| HnswLinks.WideLinks | internal/vector/hnsw.go:110-113 | With `efConstruction` at least the number of nodes, those are the closest of all nodes reachable on the layer. |
| HnswLinks.ConnectAllKeepsClosest | internal/vector/hnsw.go:112-117 | The other end of each link keeps the closest of its old neighbours and the new node. |
| HnswLinks.DescendLeads | internal/vector/hnsw.go:102-105 | Descending moves on each layer along its links to a node that no neighbour there beats, and never further away. |
| HnswExact.AddKeepsComplete | internal/vector/hnsw.go:73-128 | While there is room in the lists, every layer stays a complete graph. |
| HnswExact.CompleteSearchIsExact | internal/vector/hnsw.go:131-159 | On complete layers, a search of breadth two or more returns exactly the closest nodes of the whole graph. |
| HnswExact.NarrowSearchExactIff | internal/vector/hnsw.go:131-159 | On complete layers, a search of breadth one is exact if and only if the node that brute force finds nearest is on a higher layer or, where there is none, is the entry node. |
| HnswExact.SmallGraphsSearchNarrowlyIff | internal/vector/hnsw.go:73-159 | For any sequence of at most `maxConnections + 1` distinct items: breadth one is exact if and only if the nearest item has a level above 0 or, where no item has, was inserted first. |
| HnswExact.NarrowSearchCanMiss | internal/vector/hnsw.go:196-200 | Two items on which a search of breadth one misses the nearest. |
| HnswExact.SearchSound | internal/vector/hnsw.go:131-159 | On any well-formed graph, results are distinct stored nodes with their distances, in order, no more than asked for. |
| HnswLinks.SearchReturns | internal/vector/hnsw.go:131-159 | Any search returns the closest of what the search of layer 0 finds from the node the layers above lead to, which is all that is reachable from it once the breadth covers the graph. |
| HnswExact.SmallGraphsSearchExactly | internal/vector/hnsw.go:73-159 | Any sequence of at most `maxConnections + 1` distinct items builds a graph whose search equals brute force, cut to the limit or to `efSearch`. |
| HnswObjects.Index.GreedySearch | internal/vector/hnsw.go:161-178 | The improvement loop computes the greedy descent. |
| HnswObjects.Index.SearchOneLayer | internal/vector/hnsw.go:180-223 | The two-heap loop computes the layer search. |
| HnswObjects.Index.Prune | internal/vector/hnsw.go:225-242 | Sorting and cutting a neighbour list in place gives the pruned list. |
| HnswObjects.Index.Add | internal/vector/hnsw.go:73-128 | Descending, searching, linking and pruning layer by layer turns the graph into the one the insertion function gives, or reports the error and changes nothing; `AddLinks` says which lists that changes, and to what. |
| HnswObjects.Index.Search | internal/vector/hnsw.go:131-159 | The search method returns the specified results or error. |
| VectorIndexes.ExactIndex.Upsert | internal/vector/exact.go:29-42 | Stores the normalized vector under the trimmed ID, or fails and changes nothing. |
| VectorIndexes.ExactIndex.Search | internal/vector/exact.go:57-86 | Returns all stored vectors by score and ID, cut to the limit. |
| VectorIndexes.HnswIndex.Rebuild | internal/vector/hnsw_index.go:103-119 | Builds the graph of a vector map, the same for every history that led to the map, or fails when a vector cannot be inserted. |
| VectorIndexes.HnswIndex.Upsert | internal/vector/hnsw_index.go:51-72 | Replaces map and graph together; a failed call changes neither. |
| VectorIndexes.HnswIndex.Delete | internal/vector/hnsw_index.go:75-93 | Removes the ID from map and graph together. |
| VectorIndexes.ResultsAreStored | internal/vector/hnsw_index.go:96-101 | Search returns only IDs of the vector map, in particular no deleted one, each once, with the score of its stored vector, best first. |
| VectorRanking.NearestFirst | internal/vector/hnsw.go:261-266 | The closest of a pool come by rising distance with ties by ID, and nothing nearer is left out. |
| VectorRanking.ExactRanks | internal/vector/exact.go:57-86 | Exact search lists stored vectors by falling cosine with ties by ID, as many as the limit allows or all without one, and leaves out none that belongs before one listed. |
| VectorRanking.SearchErrors | internal/vector/exact.go:57-64 | Both indexes refuse a search exactly for a negative limit or a vector that cannot be normalized, in this order. |
| Bytes.LessIff | internal/vector/hnsw.go:263 | IDs compare by their first different byte, a proper prefix first. |
| VectorRanking.StoredIsLastTouch | internal/vector/exact.go:29-54 | After any calls an ID is stored exactly when the last call that touched it was an upsert, with that vector normalized. |
| VectorRanking.UntouchedIsAbsent | internal/vector/exact.go:29-54 | An ID no call touched is not stored. |
| VectorRanking.RebuildAddsLargestLast | internal/vector/hnsw_index.go:103-119 | The graph of a table is the graph of the others with the largest ID added last. |
| VectorIndexes.GraphIndexAgreesWithExact | internal/vector/hnsw_index.go:51-119 | After any history of upserts and deletes that leaves at most `maxConnections + 1` vectors, a search of breadth two or more gives the same results and errors as the exact index, a limit of zero standing for `efSearch`. |
| WalCodec.PayloadRoundTrip | internal/wal/log.go:408-487 | Decoding an encoded mutation or commit gives it back. |
| WalCodec.PayloadFits | internal/wal/log.go:408-439 | A mutation that passes the size check encodes within the record limit. |
| WalCodec.ScanWholeLog | internal/wal/log.go:297-376 | Scanning a well-formed log returns exactly its records, with the end of the file as valid offset and no tail. |
| WalCodec.ScanCutLog | internal/wal/log.go:297-376 | Scanning any prefix of a well-formed log that holds the header reports no corruption, returns exactly the whole records inside, and puts the valid offset at the last record boundary. |
| WalCodec.TornHeaderIsCorrupt | internal/wal/log.go:301-304 | A prefix of a well-formed log scans if and only if it holds the whole header. |
| WalCodec.SuccessfulScanEnds | internal/wal/log.go:297-376 | A scan that succeeds leaves the cursor at the end of the file. |
| WalAccept.AcceptedFile | internal/wal/log.go:297-376 | A file that scans is nothing but a header, frames whose lengths and checksums are right and whose records follow one another, and perhaps one frame cut short. |
| WalAccept.FileAccepted | internal/wal/log.go:297-376 | Every such file scans, to what its payloads say. |
| WalAccept.DecodesIff | internal/wal/log.go:448-487 | A payload decodes to a record if and only if it is its type byte, a positive sequence and its length-prefixed texts with nothing after them, and the ID is not blank. |
| Formats.SmallLog | internal/wal/log.go:378-406 | The bytes of a header and of a framed commit. |
| Formats.SmallChanges | internal/wal/log.go:408-446 | The payload bytes of an upsert and of a deletion. |
| Wal.EveryRunIsIntact | internal/wal/log.go:80-286 | In every run of appends, commits, replays, checkpoints and crashes, also between the write of a commit record and its sync, the file is exactly the bytes of its records and the in-memory sequences are what a fresh scan computes. |
| Wal.CommittedMutationsSurvive | internal/wal/log.go:107-128 | What the synced part of the file commits is still committed, unchanged and in place, after any steps that follow. |
| Wal.CommitSecures | internal/wal/log.go:107-128 | A commit that returns has its sequence in the synced part of the file. |
| Wal.CrashInCommitEitherWay | internal/wal/log.go:119-125 | A crash between the write of a commit record and its sync: the commit took effect if the whole record survived, and otherwise nothing beyond the old commit did. |
| Wal.ReplayAfterAnyRun | internal/wal/log.go:131-148 | After a commit that returned and any steps since, replay returns exactly the contiguous mutations above the base that are committed, among them all that the commit covered and no checkpoint discarded. |
| Wal.ReplayIsCommittedHistory | internal/wal/log.go:131-148 | On an intact log, replay is the history between base and commit. |
| Wal.CrashKeepsIntact | internal/wal/log.go:194-227 | A crash at any byte at or after the last sync, followed by opening, keeps the base, a prefix of the history, and every synced commit. |
| Wal.TruncateSucceeds | internal/wal/log.go:151-178 | On an intact log a checkpoint between base and commit always succeeds. |
| WalEffects.TruncateEffect | internal/wal/log.go:151-178 | A checkpoint between base and commit makes its sequence the base of a wholly synced new file, from which replay returns exactly the committed mutations above it, with those not yet committed still behind them; sequences stay as they were. Outside that range nothing changes. |
| WalEffects.CommitEffect | internal/wal/log.go:107-128 | A commit between the old one and the last sequence moves there and syncs the whole file, and replay returns every mutation through it above the base. Outside that range nothing changes. |
| WalEffects.AppendEffect | internal/wal/log.go:80-104 | An append that is taken adds the mutation to the end of history and file and changes neither commit nor replay; one that is refused changes nothing. |
| WalEffects.AppendsIff | internal/wal/log.go:80-104 | A mutation is taken if and only if its trimmed ID is not empty, a 64-bit sequence is left and its texts fit 32 MiB less 32 bytes. |
| WalEffects.KeptMutation | internal/wal/log.go:80-104 | What is kept of it: all of a document under its trimmed ID, nothing but that ID of a deletion. |
| WalEffects.CallsAreSteps | internal/wal/log.go:80-178 | The steps of a run change the log exactly as the calls do. |
| WalEffects.OpeningAgain | internal/wal/log.go:194-227 | Opening nothing starts an empty log, and opening an intact log gives it back unchanged. |
| WalReplay.AppendAfterCancelledReplay | internal/wal/log.go:323-326 | After a replay cancelled behind any number of records, the next append overwrites what was not read: a scan then reports corruption if a mutation was left unread, and otherwise finds the records read, the new one, and whatever the bytes behind it say. |
| WalReplay.CommitAfterCancelledReplay | internal/wal/log.go:119-120 | So does the next commit that advances: a scan reports corruption if a mutation it covers was left unread, always so when nothing was read. |
| WalReplay.AppendAfterReplayCancelledAtOnce | internal/wal/log.go:323-326 | Cancelled before the first record, the file still scans after an append if and only if the log held no records. |
| WalReplay.CancelledReplayLosesCommit | internal/wal/log.go:323-326 | Cancelled before a last commit record, an append covers it: the file scans with the commit before it, and what only the last commit covered is no longer committed. |
| WalReplay.CommitReplacesCommit | internal/wal/log.go:119-120 | A commit in that place replaces the record and loses nothing. |
| WalLogs.ScanFile | internal/wal/log.go:297-376 | The cursor-driven scan computes the scan function for every file, and stops reading where the specification says. |
| WalLogs.Log.Append | internal/wal/log.go:80-104 | Writes the record at the cursor and advances the sequence, or refuses without effect. |
| WalLogs.Log.CommitThrough | internal/wal/log.go:107-128 | Writes a commit record when the commit advances, and syncs. |
| WalLogs.Log.ReplayCommitted | internal/wal/log.go:131-148 | Returns the committed mutations of the file; the cursor is left where reading stopped, also when the scan fails. |
| WalLogs.Log.TruncateThrough | internal/wal/log.go:151-178 | Replaces the file by the remaining records under the new base; a failed attempt only moves the cursor, to where reading stopped; `TruncateEffect` says what replay then returns. |
| Encoding.UvarintRoundTrip | internal/segment/codec.go:352-394 | Reading a written 64-bit varint gives it back, whatever follows. |
| Formats.BigEndianDigit | internal/wal/log.go:508-512 | The i-th byte of a big-endian integer is its digit for that power of 256. |
| Formats.UvarintDigit | internal/segment/codec.go:352-357 | The i-th byte of a varint is its digit for that power of 128, with the high bit set on all but the last. |
| Encoding.StringRoundTrip | internal/segment/codec.go:347-386 | Reading a written string gives it back when its length is within the limit, and otherwise fails. |
| SegmentCodec.PostingListExact | internal/segment/codec.go:310-337 | The postings of a term are exactly the present documents that contain it, with their frequencies. |
| Formats.PostingMeans | internal/segment/codec.go:310-345 | A posting is listed under a term exactly when its counts are the occurrences of the term among the tokens of the title and of the body of a present document, not both zero. |
| SegmentCodec.PostingListValid | internal/segment/codec.go:310-337 | Posting lists have ascending ordinals of present documents with a non-zero frequency. |
| SegmentCodec.PostingsRoundTrip | internal/segment/codec.go:186-197 | Reading delta-coded postings gives back the list. |
| SegmentFile.AcceptedIff | internal/segment/codec.go:148-159 | The check of neighbours in sorted order accepts exactly the records without blank or repeated IDs. |
| SegmentFile.PayloadReadsBack | internal/segment/codec.go:147-308 | A payload reads back as the sorted records, tombstones stripped, with exactly their postings, if and only if its strings and counts are within the reader's limits. |
| SegmentFile.SegmentReadsBack | internal/segment/codec.go:72-145 | The same for whole files, with their generation. |
| Formats.SegmentReadIff | internal/segment/codec.go:100-145 | A file reads as a segment if and only if it is the header the writer puts before its payload, checksum included, with a positive generation, and that payload, which decodes. |
| Formats.SmallSegment | internal/segment/codec.go:161-197 | The bytes of records with their flags and of a term with its ordinals as differences. |
| Formats.SegmentStart | internal/segment/codec.go:72-97 | The bytes of a segment header. |
| Formats.ReaderLimits | internal/segment/codec.go:17-27 | The limits of the reader in numbers. |
| SegmentFile.DecodedIsWellFormed | internal/segment/codec.go:204-308 | Every accepted payload has strictly ascending non-blank IDs, strictly ascending non-empty terms, and valid posting lists, with all input consumed. |
| SegmentBuffers.Encode | internal/segment/codec.go:147-202 | The encoding loops produce the specified payload or error. |
| SegmentBuffers.Decode | internal/segment/codec.go:204-308 | The decoding loops compute the specified decoder on every input. |
| SegmentBuffers.CollectPostings | internal/segment/codec.go:310-337 | The nested loops build the specified postings. |
| SegmentStore.LiveOfLatestAll | internal/segment/store.go:79-90 | Keeping the latest record of each ID and dropping tombstones shows what applying all records in order shows. |
| SegmentStore.CompactionPreservesDocuments | internal/segment/store.go:113-133 | The documents shown are the same at every point where a compaction can stop. |
| SegmentStore.NewestFirstWouldResurrect | internal/segment/store.go:129-133 | Removing newest first would not do: a deleted document would come back. |
| SegmentStore.PublishShows | internal/segment/store.go:44-68 | Publishing to files overlays the batch on what the store showed. |
| SegmentStore.CompactShows | internal/segment/store.go:98-138 | Compaction of files, stopped after any number of removals, leaves a readable store that shows the same documents. |
| SegmentEffects.CompactEffect | internal/segment/store.go:98-138 | A written compaction adds the merged segment one above the largest generation, removes exactly the oldest files as far as removals went, leaves one file when none failed, and touches no other file. Otherwise no file changes. |
| SegmentEffects.PublishEffect | internal/segment/store.go:44-68 | A written batch adds one file one above the largest generation, changes no other, and shows the old documents with the batch on top. Otherwise no file changes. |
| SegmentEffects.WrittenIff | internal/segment/store.go:197-229 | A segment is written if and only if a generation is left, no ID is blank or repeated, and the payload has at most 512 MiB. |
| SegmentEffects.BatchIsApplied | internal/segment/store.go:44-68 | What a batch does to the documents shown is its mutations under trimmed IDs, applied in order. |
| SegmentRuns.EveryRunShowsHistory | internal/segment/store.go:44-138 | After any run of publishes and compactions stopped anywhere, in which every batch written is within the reader's limits, the store is readable and shows exactly the published batches applied in order. |
| SegmentRuns.GenerationsIncrease | internal/segment/store.go:231-236 | Generations issued over a run strictly increase, also past removed files. |
| SegmentRuns.ReadableThroughoutIff | internal/segment/store.go:161-195 | The store stays readable all along a run if and only if every batch that is written is within the reader's limits. |
| SegmentRuns.ReadableAfterWriteIff | internal/segment/store.go:161-195 | A written segment leaves the store listable if and only if it is within the reader's limits. |
| SegmentRuns.LongIdPoisons | internal/segment/store.go:161-195 | A published deletion whose ID is one byte too long makes any store unreadable. |
| SegmentDirectory.List | internal/segment/store.go:161-195 | Listing succeeds if and only if every file decodes to the generation in its name, and then gives the segments in order. |
| SegmentDirectory.Store.Publish | internal/segment/store.go:44-68 | Writes the batch as the newest segment or changes nothing. |
| SegmentDirectory.Store.Documents | internal/segment/store.go:71-95 | Returns exactly the documents shown, each once, in order of ID. |
| SegmentDirectory.Store.Compact | internal/segment/store.go:98-138 | Merges the live records, then removes the old segments oldest first, up to the first removal that fails; when it reports success one file is left, one above the largest generation, and it shows what all showed. |
| SearchIndex.SameDocumentsSameIndex | internal/search/index.go:46-55 | The documents determine postings, terms, lengths and totals, whatever the history. |
| SearchIndex.NoUnderflow | internal/search/index.go:153-155 | What a deletion subtracts never exceeds the running totals. |
| SearchIndex.WithoutBelongs | internal/search/index.go:141-160 | Taking a document out of the lists of its terms, its lengths out of the totals, gives the index of the remaining documents, with no empty list. |
| SearchIndex.WithBelongs | internal/search/index.go:79-94 | Putting a new document in gives the index of all documents. |
| SearchIndex.PostingCount | internal/search/ranking.go:83-84 | A posting list has one entry for each document that contains the term. |
| SearchObjects.Index.Upsert | internal/search/index.go:65-97 | Replaces the document under its trimmed ID and keeps the index the one its documents determine. |
| SearchObjects.Index.Delete | internal/search/index.go:100-109 | Removes the document, tells whether it was there, and keeps the same. |
| SearchObjects.Index.DropPostings | internal/search/index.go:146-151 | The loop over a document's terms removes it from exactly their lists and removes lists that become empty. |
| SearchObjects.Index.MatchingDocuments | internal/search/index.go:162-189 | Selects exactly the documents that contain any, or all, of the terms. |
| SearchObjects.Index.ComputeScore | internal/search/ranking.go:73-103 | The score from postings and running totals is the score computed from the documents alone. |
| SearchObjects.Index.Search | internal/search/ranking.go:23-71 | Returns exactly the best of the brute-force matches by score and ID, cut to the limit. |
| SearchObjects.UniqueTerms | internal/search/index.go:212-223 | Each term once. |
| SearchIndex.UniqueKeepsOrder | internal/search/index.go:212-223 | Unique terms come in the order in which they first occur. |
| SearchRanking.ResultsRank | internal/search/ranking.go:46-70 | Results come by falling score with ties by ID, each with the score of its document, as many as the limit allows, and no matching document left out belongs before one listed. |
| SearchRanking.MatchesIff | internal/search/index.go:162-189 | All terms match when title or body has each of them, any when one is there. |
| SearchRanking.ScoreAddsUp | internal/search/ranking.go:80-102 | A score is the sum of what each term scores alone. |
| SearchRanking.ScoreOfTerm | internal/search/ranking.go:80-102 | What a term scores alone depends on the tokens only: a logarithm that weighs rarity, times two and a half times the weight in the title plus the weight in the body. |
| SearchRanking.FrequencyShare | internal/search/ranking.go:105-121 | The weight of some occurrences is positive and below 2.2, none weigh nothing, and the saturation equation fixes it. |
| SearchRanking.FrequencyGrows | internal/search/ranking.go:105-121 | More occurrences weigh strictly more, and a longer field makes them weigh strictly less. |
| SearchRanking.AveragesTimes | internal/search/ranking.go:44-45 | An average length times the number of documents is the number of tokens in all of them. |
| SearchRanking.TotalsWith | internal/search/index.go:65-97 | Each document adds its own tokens to these totals, which start at zero. |
| Fanout.AbsorbCommutesIff | internal/distributed/executor.go:173-202 | Two answers can be taken in either order, whatever came before, if and only if they do not offer different hits under one key and one node ID. |
| Fanout.OrderDoesNotMatter | internal/distributed/executor.go:173-202 | From any state, answers of which no two are tied in that way give the same state in every order. |
| Fanout.OrderMattersIff | internal/distributed/executor.go:173-202 | The merged state is the same for every order of the answers if and only if no key is offered twice, differently, under the smallest node ID it is offered under. |
| Fanout.HonestUntied | internal/distributed/executor.go:187-189 | Answers of different nodes whose hits name no node or the answering one are never tied. |
| Fanout.ScoresAddUp | internal/distributed/executor.go:190-194 | A document is held exactly when some node offered it, and its score is the sum of its reciprocal ranks. |
| Fanout.SmallestNodeHolds | internal/distributed/executor.go:190-193 | The hit kept has a node ID no larger than any it was offered under. |
| Fanout.HeldWasOffered | internal/distributed/executor.go:178-194 | The hit kept is the first hit some node offered under its key. |
| Fanout.KeysIdentify | internal/distributed/executor.go:179 | With no NUL in collection IDs, keys are equal exactly for equal pairs of collection and document. |
| Fanout.BorrowedNodeIdsDependOnOrder | internal/distributed/executor.go:187-193 | Two nodes that answer under one node ID with different texts make the order matter. |
| FanoutRuns.UpdateListsBest | internal/distributed/executor.go:204-232 | An update lists the best held hits, best first, numbered from one. |
| FanoutRanking.UpdateRanks | internal/distributed/executor.go:204-232 | Along an update the scores never rise, equal ones ascend by collection and then document, each hit is the held one with its score, as many as the limit allows, and no held hit left out belongs before one listed. |
| FanoutRanking.MergedUpdateRanks | internal/distributed/executor.go:173-232 | After any answers the listed keys are offered ones with their added votes, and no offered key left out has more. |
| FanoutRanking.VoteOf | internal/distributed/executor.go:190-194 | A node's vote for the first hit under a key at position i is 1/(61 + i). |
| FanoutRanking.NoVote | internal/distributed/executor.go:178-194 | A node that does not name a key gives it nothing. |
| FanoutRanking.ShardNames | internal/distributed/executor.go:234-254 | A node answers for its requested collections, for all of them when none was named, and for itself when that leaves nothing. |
| FanoutRuns.EveryRun | internal/distributed/executor.go:98-164 | In every run of answers and deadline: the updates fit the channel, exactly the last one of a finished run is complete, every node is taken in exactly once, and searched plus unavailable shards are those of all nodes. |
| FanoutProgress.EveryUpdate | internal/distributed/executor.go:143-164 | Each update shows the merge of exactly the answers taken in so far. |
| FanoutProgress.TakesFirstWords | internal/distributed/executor.go:126-161 | A run takes in the first answer of every node that answers before the deadline, unchanged, and otherwise only the failure of nodes that did not. |
| FanoutRuns.FinalUpdateDependsOnOutcomes | internal/distributed/executor.go:143-164 | Where no key is contested, the final update depends only on each node's outcome. |
| FanoutRuns.AnswerOrderDoesNotMatter | internal/distributed/executor.go:143-164 | When every node answers and no key is contested, the run finishes and its final update is the same for every order. |
| FanoutRuns.HonestAnswersAgree | internal/distributed/executor.go:143-164 | So it is whenever the hits of each node name no node or that node. |
| FanoutRuns.FinalUpdateOf | internal/distributed/executor.go:143-164 | When every node answers, the final update is that of their answers merged. |
| FanoutOrder.UpdateOrderIff | internal/distributed/executor.go:190-232 | With no NUL in collection IDs, the final update is the same for every order of the answers if and only if no key that it lists is offered in visibly different ways under the smallest node ID it is offered under. |
| FanoutRuns.DeadlineEnds | internal/distributed/executor.go:156-161 | The deadline finishes the run at once, keeps all results and adds only unavailable shards. |
| Executors.MergeState.Merge | internal/distributed/executor.go:173-196 | The loop over a node's hits takes in the answer as specified. |
| Executors.MergeState.CurrentUpdate | internal/distributed/executor.go:204-232 | Collecting in any order, sorting, cutting and numbering gives the one specified update; `UpdateRanks` says how it is ordered. |
| Executors.ShardIds | internal/distributed/executor.go:234-254 | The shards of a node in a query, sorted. |
| Executors.Execute | internal/distributed/executor.go:110-164 | The loop sends exactly the updates of the run and ends exactly when it does. |
| EngineRuns.EveryRunIsCurrent | internal/searchnode/engine.go:74-178 | In every run of upserts, deletes, reopenings and calls that a crash interrupts between append and sync, if no call commits a tail that shows, documents, lexical and vector index hold the same IDs and equal the fold of the committed log. A tail does not show if its last mutation of every other ID deletes what is not there or puts what is there already. |
| EngineRuns.CurrentThroughoutIff | internal/searchnode/engine.go:74-178 | And only then: the engine agrees with its log all along if and only if no call commits a tail that shows. |
| EngineRuns.EveryRunIsSound | internal/searchnode/engine.go:74-178 | In every such run the log stays intact and holds only documents that can be applied. |
| EngineRuns.UninterruptedIsHarmless | internal/searchnode/engine.go:132-178 | Without crashes inside calls no tail ever arises. |
| EngineRuns.ReopenReproducesIff | internal/searchnode/engine.go:74-117 | Reopening a current engine reproduces offset, indexes and documents, apart from media types, after whatever crash, if and only if all its commits are synced. |
| EngineRuns.UnsyncedCommitIsTakenBack | internal/wal/log.go:212-219 | They need not be: an upsert interrupted after its whole commit record is served by the engine that opens next, and a second crash takes it back. |
| EngineModel.ReopenIsCurrent | internal/searchnode/engine.go:104-116 | Opening after any crash makes the engine current with the committed log, uncommitted tail or not. |
| EngineModel.InterruptedIsCurrent | internal/searchnode/engine.go:144-150 | So does opening after a crash between the append of a mutation and the sync of its commit. |
| EngineRuns.InterruptedLeaves | internal/searchnode/engine.go:144-150 | What such a crash leaves, by how much of the file survived: what the same crash would have left before the call, the mutation as the last of the tail, or everything committed. The log may have had a tail or an unsynced commit already. |
| EngineRuns.TailLeftIff | internal/searchnode/engine.go:144-150 | A tail is left if and only if the mutation's record survived whole and its commit record did not, or the record did not and the crash leaves a tail of what was there before. |
| EngineRuns.TailLeftOnSettledIff | internal/searchnode/engine.go:144-150 | On a log without tail whose commits are synced, only the former. |
| EngineModel.UnplaceableIsNotCurrent | internal/searchnode/engine.go:144-155 | An accepted document that cannot be embedded or indexed is committed, and no state of documents and indexes agrees with the log any more; where only its vector is refused, the lexical index has it while documents and vector index do not. |
| Engines.UnplaceableStopsOpening | internal/searchnode/engine.go:109-113 | Until a checkpoint discards it, no later state of the log can then be opened. |
| EngineModel.PutCurrentIff | internal/searchnode/engine.go:144-155 | An accepted document that can be embedded leaves the engine current if and only if the tail committed along with it does not show. |
| Documents.NothingShowsIff | internal/searchnode/engine.go:148-155 | That a tail does not show is the same as its making no difference to the committed image. |
| EngineRuns.PendingUpsertIsMissed | internal/searchnode/engine.go:144-155 | A pending upsert of another new document is committed by the next upsert and is in none of the documents and indexes. |
| EngineRuns.InterruptionIsMissed | internal/searchnode/engine.go:144-155 | It happens: a run of two calls on a new engine that ends so. |
| EngineModel.AppliedAllAgrees | internal/searchnode/engine.go:289-318 | Replaying keeps documents and both indexes together. |
| EngineEffects.PutEffect | internal/searchnode/engine.go:132-156 | An upsert that is taken logs, commits and syncs the document under its trimmed ID; when its title, a newline and its body embed, the document with its media type, the lexical entry and the normalized vector are stored under that ID and nothing else changes; otherwise documents, vectors and offset stay. |
| EngineEffects.RemoveEffect | internal/searchnode/engine.go:159-178 | A deletion that is taken is logged, committed and synced, and takes exactly its trimmed ID out of documents and both indexes. |
| EngineEffects.ReplayForgetsMedia | internal/searchnode/engine.go:289-300 | After replay every document has the default media type. |
| Engines.SoundLogOpens | internal/searchnode/engine.go:104-115 | Replay of a log written by this engine succeeds and yields the committed mutations, each of which can be applied. |
| Engines.CollectionEngine.Open | internal/searchnode/engine.go:74-117 | Opens exactly when the log scans and every replayed document can be applied, and then holds the fold of what was replayed. |
| Engines.CollectionEngine.Upsert | internal/searchnode/engine.go:132-156 | Append, commit and apply in this order, with what is left behind when a later one fails. |
| Engines.CollectionEngine.Delete | internal/searchnode/engine.go:159-178 | Append, commit, and removal from documents and both indexes. |
| Engines.CollectionEngine.Place | internal/searchnode/engine.go:302-318 | Embedding, lexical index, vector index, documents, stopping at the first failure. |

## Left out

- Networking, HTTP and gRPC services, telemetry, configuration, command-line tools, web UI and deployment: plumbing.
- Identity, authorization policy, node registry, query planner and standalone rank fusion: easier than what is modelled.
- The engine's Search and Get, snippets, and authorization of single documents.
- File system calls that fail without a crash, fsync errors, temporary files and their removal at start; file names
  stand for generations one to one.
- CRC-32C, SHA-256, Unicode normalization, tokenizing, embedding hashes and FNV levels: functions without properties.
- Floating-point rounding: scores, distances and averages are exact reals, so ties and orders are those of exact
  arithmetic; no claim about recall.
- The two heaps are kept as sorted lists; the array layout of `container/heap` is not modelled.
- Connectivity of large pruned graphs, and writes of two primaries that interleave: the code gives no guarantee there.
- Argument checks of constructors (`NewHNSW`, `NewPrimary`, `NewElection`, `NewExecutor`) and of `Execute`.
- Frequencies and term totals are unbounded: 2^64 tokens do not fit in memory.
- Elections.TermsFence: for runs of fewer than 2^64 calls, as the other results on runs of elections;
  the 64-bit term then wraps.
- WalLogs.Log.constructor: requires that the file scans; `Wal.Opened` states what opening does otherwise.
- Engines.CollectionEngine.Upsert: an embedder that answers differently for the same text is not modelled.
