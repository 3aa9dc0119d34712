# KNIRVBASE core: a verified model

This project models the Go implementation of KNIRVBASE, a document database whose peers replicate collections
with vector clocks, and proves what its replication core, its secondary indexes, its query planner and its
field encryption do. `dafny verify dfyconfig.toml` checks everything.

The code updates clocks, documents, logs and index lists in place; the model does the same, in classes and
loops. Each such method is proved against a function or relation on values, and the theorems are about those.
Several laws one would like to have are false of the code. For each of them the model states exactly when it
holds: as a condition on the inputs, or on which operations were taken in and in which order. One condition, that
pushed filters mean equality, ranges over all texts; for a single filter and for equalities it comes down to a check.

| file | content |
|---|---|
| `VectorClocks.dfy` | clocks: the lattice, and the map operations that run it |
| `Resolver.dfy`, `ResolverMethods.dfy` | merging two document states and applying one operation: on values, and on documents held by reference |
| `NewDocuments.dfy` | operations where there is no document yet: the one that makes it, and the laws from there on |
| `CausalFold.dfy` | operations delivered in different orders: what converges, exactly |
| `MergeTrees.dfy` | states merged in different orders and groupings: what agrees, exactly |
| `Replication.dfy`, `Causality.dfy` | N peers over a bag of messages as a transition system, and its invariant |
| `CausalClocks.dfy` | what clocks say about causality in every run |
| `SyncExactness.dfy` | the log and the sync exchange in every run |
| `Timelines.dfy` | what every peer issued and was handed, in order: in every run each store is its replay |
| `SingleOwner.dfy`, `Replicas.dfy` | stored copies: documents with one writer follow it, exactly when; copies that only receive settle, exactly when |
| `Writers.dfy`, `Redelivery.dfy` | documents that several peers write: when all holders, writers included, agree, exactly; operations handed over again |
| `Realization.dfy` | the timelines that the clocks allow are exactly those of runs, so that the theorem on writers holds of runs in both directions |
| `DistributedCollection.dfy` | the collection class, refining the steps of the transition system |
| `Changes.dfy`, `Postings.dfy`, `Tokens.dfy`, `SecondaryIndex.dfy` | writes and deletions, inverted lists over all runs, keys and tokens, the index manager |
| `WordCounts.dfy`, `GinRuns.dfy` | how often a document says a word, and what the lists of a GIN index hold after any run |
| `VectorSearch.dfy`, `Sorting.dfy`, `VectorRuns.dfy` | the similarity score, the best matches, and what a vector index holds after any run |
| `Filters.dfy`, `Planner.dfy`, `Executor.dfy`, `IndexedRuns.dfy` | filters, plans, running them, and when an index may stand for a scan |
| `Encryption.dfy`, `FileStore.dfy` | sealing sensitive fields, and the files |
| `StoredRuns.dfy`, `ReplicaIndexes.dfy` | storage, indexes and queries together, after any run of the file storage, and of a replicated collection |
| `Parser.dfy`, `Text.dfy` | the GET parser and its string functions |
| `Json.dfy`, `Sequences.dfy` | values, string order, small facts |

How to read it:

* An operation's clock is taken before the operation is counted, so the k-th operation of a peer (from 0) has own
  component k. Every theorem keeps that offset. It is why a peer's first operation is never sent by sync and why a
  first operation can leave no trace in later clocks.
* Counters are natural numbers, floats are reals, JSON values are an inductive type. Printing (`%v`), lower-casing
  and word splitting, blank trimming, number reading, JSON bytes and cryptography are function parameters. Laws
  are assumed of them only in the `requires` of the statements that need them: that sealed bytes open again and
  JSON bytes read back, and that a string prints as itself.
* Map iteration picks any remaining key, so what is proved holds for every iteration order. Sealing draws a nonce.
* Messages are never removed from the bag: they can arrive late, repeatedly, in any order, or never. What holds in
  every run does not depend on any of them arriving. The one statement that a state can be reached, catching up with
  another peer, uses a sync exchange and no earlier announcement.
* A stored copy has no clock of its own: the code invents {sender: 1} for it, so an operation whose clock is not
  beyond that, as a peer's first ones, is stale where there is a copy. The replication theorems include stale operations.
* `Index` carries, as ghost state, the changes of documents it has followed and the commands they are to it; the file
  storage carries the changes of each collection. What is proved of all runs thereby holds of the lists, the vectors
  and the files that a query reads.
* The transition system records for each peer a timeline: own operations when issued, others when handed over. An own
  operation acts on the store as it is, another one through the invented clock, so a writer and a reader of the same
  operations can differ. What is said of readers alone says so. Operations are compared as sets: messages come repeatedly.
* The comment on `HappensBefore` says before or equal, its name says before; the code, and the model, say the former.
  The name of `cosineSimilarity` suggests a score within [-1, 1]; the code divides by squared norms, and the model follows.

## Model

| member | source | states |
|---|---|---|
| VectorClocks.Increment | go/internal/clock/vector_clock.go:17-23 | writes the clock it was given in place (a new one only for nil) and counts one component up by one |
| VectorClocks.Merge | go/internal/clock/vector_clock.go:26-37 | a new clock that is the pointwise maximum, whatever the order of the keys; neither input changes |
| VectorClocks.Compare | go/internal/clock/vector_clock.go:40-79 | the two flags decide the pointwise order with missing entries read as 0, whatever the order of the keys |
| VectorClocks.HappensBefore | go/internal/clock/vector_clock.go:82-84 | true exactly when the first clock is pointwise at most the second: before or equal |
| VectorClocks.Clone | go/internal/clock/vector_clock.go:90-99 | an independent copy; nil stays nil |
| VectorClocks.LeqIsPointwise | go/internal/clock/vector_clock.go:40-79 | the order compares every peer, absent entries counting as 0 |
| VectorClocks.LeqTransitive | go/internal/clock/vector_clock.go:82-84 | happens-before is transitive |
| VectorClocks.RelationIsDual | go/internal/clock/vector_clock.go:40-79 | swapping the arguments of a comparison swaps Before and After and nothing else |
| VectorClocks.JoinIsLeastUpperBound | go/internal/clock/vector_clock.go:26-37 | merging gives the least upper bound of two clocks |
| VectorClocks.JoinAssociative | go/internal/clock/vector_clock.go:26-37 | merging is associative on the maps themselves |
| VectorClocks.JoinCommutes | go/internal/clock/vector_clock.go:26-37 | merging is commutative and idempotent |
| VectorClocks.JoinAllOfSameClocks | go/internal/clock/vector_clock.go:26-37 | the merge of many clocks depends on which clocks there are, not on order or repetition |
| VectorClocks.BumpMovesStrictlyUp | go/internal/clock/vector_clock.go:17-23 | counting up gives a strictly later clock that differs in one component only |
| Resolver.ResolveMeaning | go/internal/resolver/crdt_resolver.go:11-71 | a later clock wins whatever the flags say; with equal clocks a live document wins over a deleted one and else the local stays; of concurrent states the deleted one wins, and two of one flag are combined part by part under the later time, then the larger peer id |
| Resolver.ApplyMeaning | go/internal/resolver/crdt_resolver.go:77-123 | an operation whose clock is covered changes nothing; any other joins the clock, moves the time up, and writes its fields over or sets the flag, and leaves the rest |
| Resolver.ResolveCommutesIff | go/internal/resolver/crdt_resolver.go:11-55 | conflict resolution is commutative exactly when: documents with one deletion flag and equal clocks are equal, and concurrent ones that tie on timestamp and peer agree on the rest they share |
| Resolver.ResolveNeedNotCommute | go/internal/resolver/crdt_resolver.go:35-41 | two states with equal clocks: whichever is there already stays |
| Resolver.ResolveAbsorbsRedelivery | go/internal/resolver/crdt_resolver.go:11-55 | for all documents, resolving the result again with either input changes nothing |
| Resolver.ResolveJoinsClocksIff | go/internal/resolver/crdt_resolver.go:11-71 | the result carries the join of both clocks exactly when the deletion flags agree or the clocks are comparable |
| Resolver.ResolveCanLoseClocks | go/internal/resolver/crdt_resolver.go:20-26 | a live document meets a concurrent deletion and its clock component is forgotten |
| Resolver.FoldVectorIsJoin | go/internal/resolver/crdt_resolver.go:77-123 | after any list of operations the clock is the join of the start clock and all operation clocks, ignored ones included |
| Resolver.FoldIsMonotone | go/internal/resolver/crdt_resolver.go:77-123 | along any list of operations deletion, timestamp and clock never go back |
| Resolver.FoldIgnoresRedelivery | go/internal/resolver/crdt_resolver.go:77-123 | an operation applied again at any later point changes nothing |
| ResolverMethods.ValueSaysAll | go/internal/types/types.go:18-30 | the value that stands for a document object says every field of it |
| ResolverMethods.OperationSaysAll | go/internal/types/types.go:42-51 | the value that stands for an operation says its kind, document, clock, time and peer |
| NewDocuments.WriteMakesDocument | go/internal/resolver/crdt_resolver.go:77-93 | where there is no document an insert or update makes one, with the clock, time and peer of the operation and the rest of its document; nothing else makes one |
| NewDocuments.NothingMadeIff | go/internal/resolver/crdt_resolver.go:77-123 | from nothing, a list of operations leaves no document exactly when no insert or update is among them |
| NewDocuments.ClockFromNothing | go/internal/resolver/crdt_resolver.go:77-123 | from nothing, the clock is the join of all operation clocks from the first write on |
| NewDocuments.RedeliveryFromNothing | go/internal/resolver/crdt_resolver.go:77-123 | an operation from the first write on, that write included, changes nothing when applied again; a deletion from before it does so exactly when the later clocks cover it |
| ResolverMethods.MergeDocuments | go/internal/resolver/crdt_resolver.go:57-71 | joins the clocks and adds the loser's extra fields; the winner's own payload map is written and shared, its clock is not |
| ResolverMethods.ResolveConflict | go/internal/resolver/crdt_resolver.go:11-55 | refines the value-level resolution, nil cases included; a payload map is written only for two concurrent documents with one deletion flag |
| ResolverMethods.ApplyOperation | go/internal/resolver/crdt_resolver.go:77-123 | refines the value-level application; an existing document is changed in place, a new one shares the operation's payload map and has the operation's own clock |
| ResolverMethods.ToDistributedDocument | go/internal/resolver/crdt_resolver.go:126-136 | a copy of the stored map with the invented clock {peer: 1} |
| ResolverMethods.ToRegular | go/internal/resolver/crdt_resolver.go:139-144 | an independent copy of the payload; nil for nil |
| CausalFold.DeliveryDropsNothing | go/internal/resolver/crdt_resolver.go:77-123 | when each operation steps its own component beyond the start and everything not after it, a delivery in clock order ignores none of them |
| CausalFold.MetadataConverges | go/internal/resolver/crdt_resolver.go:77-123 | two such deliveries of the same operations agree on clock, timestamp, deletion and everything but the payload |
| CausalFold.LastWriterWins | go/internal/resolver/crdt_resolver.go:77-123 | each field holds the value of the last delivered operation that writes it |
| CausalFold.ConcurrentAgreementSuffices | go/internal/resolver/crdt_resolver.go:97-99 | if concurrent operations agree on the fields they share, so do the maximal writers of every field |
| CausalFold.PayloadConverges | go/internal/resolver/crdt_resolver.go:77-123 | with agreeing maximal writers, two deliveries give the same document, payload included |
| CausalFold.WriterCanStand | go/internal/resolver/crdt_resolver.go:97-99 | the value of any maximal writer of a field is what some delivery order leaves |
| CausalFold.ConvergenceIff | go/internal/resolver/crdt_resolver.go:77-123 | all delivery orders give one document exactly when the maximal writers of every field agree |
| MergeTrees.TreeClockIsJoin | go/internal/resolver/crdt_resolver.go:35-71 | over documents with one deletion flag every merge order and grouping gives the join of all clocks |
| MergeTrees.IndependentIff | go/internal/resolver/crdt_resolver.go:35-53 | no input is covered by the others component by component exactly when no input clock lies below the join of the others |
| MergeTrees.SidesAreConcurrent | go/internal/resolver/crdt_resolver.go:35-53 | under that condition every inner merge of every tree is a merge of concurrent documents |
| MergeTrees.EveryTreeAgrees | go/internal/resolver/crdt_resolver.go:35-71 | with distinct (timestamp, peer) pairs as well, every tree gives the same winner metadata, the winner's fields intact, the union of the field names, and values drawn from the inputs |
| MergeTrees.MergeableInAnyOrder | go/internal/resolver/crdt_resolver.go:35-71 | the conditions are about the inputs, not their order |
| MergeTrees.OutcomeOfInputs | go/internal/resolver/crdt_resolver.go:35-71 | the same outcome for any tree over any permutation of the inputs |
| MergeTrees.InputCanStand | go/internal/resolver/crdt_resolver.go:65-69 | for a field the winner lacks, any input's value is what some tree keeps: merging is not associative |
| MergeTrees.OneOutcomeIff | go/internal/resolver/crdt_resolver.go:35-71 | all trees give one document exactly when the inputs agree on the fields the winner lacks |
| DistributedCollection.LocalCollection.Insert | go/internal/collection/distributed_collection.go:29-38 | files a copy under the document's id and returns another copy; a storage error changes nothing |
| DistributedCollection.DistributedCollection.AttachToNetwork | go/internal/collection/distributed_collection.go:155-169 | refused when attached or when the network does not take the collection; otherwise starts from an empty clock while the log survives, and asks for what others have |
| DistributedCollection.DistributedCollection.DetachFromNetwork | go/internal/collection/distributed_collection.go:171-179 | log and documents survive, the clock does not |
| DistributedCollection.DistributedCollection.Insert | go/internal/collection/distributed_collection.go:181-222 | refuses exactly a document without a text id or one the storage does not take; otherwise the next protocol state, and the announcement says kind, id, time, peer, fields and the clock from before the operation was counted |
| DistributedCollection.DistributedCollection.Delete | go/internal/collection/distributed_collection.go:237-247 | a storage error changes nothing; otherwise the next protocol state, and the announcement says kind, id, time, peer and the clock from before the operation was counted |
| DistributedCollection.DistributedCollection.BroadcastOperation | go/internal/collection/distributed_collection.go:267-281 | log, prune, count in place, announce: the logged clocks are not reached by the counting |
| DistributedCollection.DistributedCollection.PruneOperationLog | go/internal/collection/distributed_collection.go:393-397 | the log becomes its last 10000 entries |
| DistributedCollection.DistributedCollection.GetCurrentVector | go/internal/collection/distributed_collection.go:383-391 | a clock of its own with the same entries; empty when detached |
| DistributedCollection.DistributedCollection.HandleRemoteOperation | go/internal/collection/distributed_collection.go:283-308 | refines receipt of one operation; a detached collection stores but keeps no clock; it writes or deletes once in the local storage, also where the document stays as it is |
| DistributedCollection.DistributedCollection.RequestSync | go/internal/collection/distributed_collection.go:310-329 | an error when detached, nothing while one is in progress, otherwise a request with the current clock |
| DistributedCollection.DistributedCollection.HandleSyncRequest | go/internal/collection/distributed_collection.go:331-363 | answers with exactly the logged operations whose own counter is above the requester's, in log order |
| DistributedCollection.DistributedCollection.HandleSyncResponse | go/internal/collection/distributed_collection.go:365-381 | takes the operations in one after the other and ends the request; the clock of the answer is not used |
| Causality.StepKeepsInv | go/internal/collection/distributed_collection.go:181-397 | every step of every peer keeps the system invariant: own counter equals operations issued, no component exceeds its owner's counter, logs and messages hold genuine operations |
| Causality.RunKeepsInv | go/internal/collection/distributed_collection.go:181-397 | the invariant holds after every run of N peers with reordering, duplication and loss |
| Causality.MissingComesFromLog | go/internal/collection/distributed_collection.go:346-360 | an operation is in the answer exactly when it is in the log and its own counter is above the requester's |
| Causality.AnswerIsGenuine | go/internal/collection/distributed_collection.go:331-363 | everything a peer answers was issued by that peer, unaltered |
| CausalClocks.InfluenceIsStrictOrder | go/internal/collection/distributed_collection.go:267-308 | in every run influence is a strict partial order and clocks never go back along it |
| CausalClocks.ComponentGivesHistory | go/internal/collection/distributed_collection.go:267-308 | in every run a clock component says exactly how many operations of that peer are in the history, with the offset of one between own and foreign operations |
| CausalClocks.ClocksAreSound | go/internal/collection/distributed_collection.go:267-308 | a component beyond an operation's own counter proves the operation is in the history |
| CausalClocks.ClockOrderDecidesCausality | go/internal/collection/distributed_collection.go:204-218 | between different operations the clock order is causality, unless the earlier is a peer's first and the other clock does not count that peer |
| CausalClocks.IssuedOperationsStepForward | go/internal/collection/distributed_collection.go:204-218 | operations of a run, first ones excepted, meet the conditions of convergence |
| CausalClocks.IssuedOperationsConverge | go/internal/resolver/crdt_resolver.go:77-123 | for documents that keep the clocks they are given: the same operations of a run, no peer's first among them, applied to equal documents in causal orders agree on all but the payload, and on the payload for all orders exactly when maximal writers agree |
| CausalClocks.ReplyIsInfluenced | go/internal/collection/distributed_collection.go:181-308 | an operation issued after taking one in is influenced by it |
| CausalClocks.ReplyIsIgnoredIff | go/internal/resolver/crdt_resolver.go:77-123 | for documents that keep the clocks they are given: a reply is ignored by every one that took in the answered operation exactly when the replier knew nothing beyond that operation's clock |
| CausalClocks.SomeReplyIsIgnored | go/internal/resolver/crdt_resolver.go:91-105 | it happens in a run of two peers and one operation each |
| CausalClocks.FirstOperationLeavesNoTrace | go/internal/collection/distributed_collection.go:214-278 | taking in a first operation with a zero clock leaves the receiver's clock as it was, so later clocks cannot show it |
| SyncExactness.LogIsExactTail | go/internal/collection/distributed_collection.go:272-278 | in every run the log is the last min(n, 10000) operations issued, unaltered, with consecutive own counters |
| SyncExactness.AnswerIsSuffix | go/internal/collection/distributed_collection.go:346-360 | in every run the answer is the suffix of the log beyond the requester's component |
| SyncExactness.PrefixHolderGetsTheRest | go/internal/collection/distributed_collection.go:331-376 | a requester that counted the first k >= 1 operations is sent exactly the kept remainder |
| SyncExactness.SecondAnswerIsEmpty | go/internal/collection/distributed_collection.go:331-376 | after an answer is taken in, the unchanged responder has nothing more to answer |
| SyncExactness.FirstOperationIsNeverSent | go/internal/collection/distributed_collection.go:353-359 | a peer's first operation, own counter 0, is in no answer to anyone |
| SyncExactness.ClockIsWhatWasHeard | go/internal/collection/distributed_collection.go:303-307 | in every run the component for another peer is the highest that a handed operation carried |
| SyncExactness.AnswerRepairsIff | go/internal/collection/distributed_collection.go:331-376 | an answer repeats nothing handed before, and it holds a kept operation that was not handed exactly when that is not its peer's first and no operation handed before counts it |
| SyncExactness.GapIsPermanent | go/internal/collection/distributed_collection.go:303-360 | an operation the requester counted past without having it is never sent to it again, however the run goes on |
| SyncExactness.GapOpensIff | go/internal/collection/distributed_collection.go:303-307 | taking in an operation opens a gap at exactly the other operations it counts that were not handed yet |
| SyncExactness.NeverInGapIff | go/internal/collection/distributed_collection.go:303-307 | in any order of arrival an operation is never in a gap, between any two operations taken in, exactly when nothing that counts it came first |
| SyncExactness.NoGapEverIff | go/internal/collection/distributed_collection.go:283-376 | in every run no operation but a peer's first is ever in a gap, between any two operations taken in, exactly when each operation taken in came after all such others that it counts; then none is in a gap of the peer's clock, and an answer sends everything kept that was not handed |
| SingleOwner.CopyFollowsIff | go/internal/collection/distributed_collection.go:283-301 | for one operation a copy equals the owner's document afterwards exactly when the operation is not stale for an existing document and an overwrite keeps all earlier fields |
| Timelines.OnlyEarlyOperationsAreStale | go/internal/resolver/crdt_resolver.go:126-136 | the invented clock makes only the first two operations of a peer stale |
| Timelines.ReceiveTouchesOneDocument | go/internal/collection/distributed_collection.go:283-301 | receipt changes the operation's document only |
| SingleOwner.CopiesFollowIff | go/internal/collection/distributed_collection.go:181-301 | in-order replication follows the owner at every moment exactly when every operation met that condition |
| Timelines.RunReplays | go/internal/collection/distributed_collection.go:181-308 | in every run, whoever writes, each store is document by document the replay of the peer's timeline: own operations as issued, handed ones through the invented clock; the timeline is the own and the handed operations in their orders, and what was handed before an own operation is within its clock and counts neither it nor a later one |
| Timelines.StoreIsReplay | go/internal/collection/distributed_collection.go:181-308 | the same for one peer and document of any reached state |
| SingleOwner.OwnedReplay | go/internal/collection/distributed_collection.go:181-308 | where one peer alone writes a document, its replay is the owner's document, and a reader's is what the handed operations leave |
| SingleOwner.CopiesMirrorOwner | go/internal/collection/distributed_collection.go:181-308 | in every such run a peer handed the first n operations of an owner in order and once holds exactly the owner's documents after n operations; after all, the owner's present ones |
| Replicas.CopyIsUnion | go/internal/collection/distributed_collection.go:283-301 | where deletions are stale, fresh operations agree and bring all the fields, a stored copy is exactly the union of what the fresh ones brought |
| Replicas.AnyOrderIff | go/internal/collection/distributed_collection.go:283-308 | for a copy that only receives operations, of many writers and stale ones included: all orders of arrival leave the same copy exactly when: nothing is brought; or every deletion is stale, fresh operations agree on shared fields, and either they bring every field that any operation brings, or none is fresh and all bring one payload; and exactly then all deliveries do, repeated ones included |
| Replicas.FirstWritesCollide | go/internal/resolver/crdt_resolver.go:126-136 | two stale writes, as two peers' first ones are: whichever arrives first stays |
| Writers.HolderHasCopy | go/internal/collection/distributed_collection.go:181-308 | a holder of operations that settle, whose own last one comes to the settled copy, holds it, whatever it was handed, when and how often |
| Writers.AllHoldersAgreeIff | go/internal/collection/distributed_collection.go:181-308 | for a document with many writers: all holders of the same operations, writers included, each operation taken in any number of times, on all timelines that the clocks allow, hold the same document exactly when nothing is brought, or the operations settle and each issuer's last one comes to the settled copy: a write brings it but for what fresh operations bring that it can only be handed later; after a deletion the later ones bring all of it, or all writes of the others are it |
| Writers.HoldersAgree | go/internal/collection/distributed_collection.go:181-308 | in every run two peers, writers or not, whose timelines hold the same operations on a document, however often, hold the same document if the operations settle and the last own one of each comes to the settled copy |
| Realization.TimelineHappens | go/internal/collection/distributed_collection.go:181-308 | for operations of any run on one document, every timeline of a peer that the clocks allow is its timeline on the document in some run |
| Realization.HappensIff | go/internal/collection/distributed_collection.go:181-308 | so among lists of these operations those that happen are exactly the ones with own operations in order, and before each own one only operations within its clock that do not count it yet |
| Realization.RunsAgreeIff | go/internal/collection/distributed_collection.go:181-308 | for operations of any run on one document: in all runs all their holders hold one document exactly when the condition of AllHoldersAgreeIff holds |
| Writers.ReplyStandsAtBoth | go/internal/collection/distributed_collection.go:181-308 | a run of two peers: a first operation that replies with more fields is within the clock of the write it replies to, yet can only come later to its writer, and both hold what it brought |
| Writers.ReadersSettle | go/internal/collection/distributed_collection.go:283-308 | for two peers that did not write the document it is enough that the operations settle |
| Writers.WritersCanDisagree | go/internal/collection/distributed_collection.go:181-308 | a run of two peers: one inserts, the other deletes as its first operation; each holds both operations, they settle, and the document stays with one and not with the other |
| Redelivery.CopyIsLastSet | go/internal/collection/distributed_collection.go:283-301 | a stored copy is there exactly when a write was not dropped, and each field has the value of the last write that set it since |
| Redelivery.RedeliveryIsIdleIff | go/internal/collection/distributed_collection.go:283-301 | handing an operation over again leaves a copy as it is exactly when it is a stale deletion or there is no copy to delete, or a write of a copy that is there, stale or with exactly the values set last |
| Replicas.CopiesIgnoreReplyIff | go/internal/collection/distributed_collection.go:283-301 | stored copies have the invented clock: all of them ignore a reply exactly when its clock counts no one but the replier, and that at most once, or it brings nothing but the id |
| Replicas.RunAnnounces | go/internal/collection/distributed_collection.go:267-281 | in every run every issued operation was announced |
| Replicas.SyncCompletesIff | go/internal/collection/distributed_collection.go:310-381 | after one exchange of request and answer, a peer that was handed exactly the first k operations of another holds all of them in order exactly when there were no more, or k is at least 1, its clock does not count past them and none of the others was pruned |
| Replicas.SyncAgreesWithOwner | go/internal/collection/distributed_collection.go:181-381 | such an exchange leads to exactly the owner's present documents, if the owner kept the condition |
| Tokens.BuildCompositeKey | go/internal/storage/index.go:411-419 | the printed values of the fields that are there, joined by a bar |
| Tokens.PartsInOrder | go/internal/storage/index.go:411-419 | the parts of a key are the printed values at the places of the field list whose field is there, in order, and a missing field leaves no part |
| Tokens.CompositeKeyIsInjective | go/internal/storage/index.go:411-419 | with all fields present and no bar in the printed values, keys are equal exactly when all values print alike; one field needs no condition on bars |
| Tokens.CompositeKeysCollide | go/internal/storage/index.go:411-419 | a bar inside a value, or a missing field, makes different documents share a key |
| Tokens.PartialExpressionMeaning | go/internal/storage/index.go:223-243 | field=value takes exactly the documents whose field prints so; an expression without exactly one equals sign takes all |
| Tokens.Tokenize | go/internal/storage/index.go:427-442 | appends the words of every string inside the value, as often as they stand there, whatever the order of the fields |
| Tokens.TokensAreWords | go/internal/storage/index.go:421-442 | a token is there exactly when some string nested in the value has that word |
| WordCounts.TokensCountPlaces | go/internal/storage/index.go:421-442 | a token is there as often as its word stands in the document, counted over the places in all nested strings |
| WordCounts.SaysOnceIff | go/internal/storage/index.go:421-442 | no token is there twice exactly when no word stands at two places |
| Postings.RunMissesNothing | go/internal/storage/index.go:162-201 | after any writes and deletions of a non-unique index, overwrites included, every live document is under each of its keys |
| Postings.RunShape | go/internal/storage/index.go:246-323 | no list is ever empty, and in a unique index every list holds exactly one id |
| Postings.StepExactIff | go/internal/storage/index.go:246-323 | one command keeps the lists exactly the live documents exactly when the write meets the stated condition |
| Postings.ExactIff | go/internal/storage/index.go:162-323 | through a whole run the lists are exactly the live documents, in order and once each, exactly when: in an ordinary index no indexed live document is overwritten and keys do not repeat; in a unique index no other live document shares a key and an overwrite keeps its keys |
| Postings.StaleEntryIff | go/internal/storage/index.go:297-323 | a document written and deleted leaves an entry behind under a key exactly when it went under that key more than once |
| Postings.UniqueKeyHasOneHolder | go/internal/storage/index.go:246-279 | in every run of a unique index the first document that comes with a free key takes it and keeps it until that document is deleted |
| SecondaryIndex.InsertBTree | go/internal/storage/index.go:246-262 | appends the id under the composite key, unless the index is unique and the key is taken |
| SecondaryIndex.InsertGIN | go/internal/storage/index.go:297-306 | every list grows by one entry per occurrence of its token, whatever the order of the walk |
| GinRuns.GinListsAreExactIff | go/internal/storage/index.go:162-323 | a GIN index has been exact throughout exactly when no document said a word twice and none it held was overwritten; then each list is the present documents in which the word stands, once each |
| GinRuns.NothingListed | go/internal/storage/index.go:308-336 | such a list is empty exactly when the word stands in no present document, as after their deletion |
| GinRuns.GinMissesNothing | go/internal/storage/index.go:162-323 | after any run the list of a word misses no present document in which it stands |
| SecondaryIndex.InsertHNSW | go/internal/storage/index.go:339-357 | stores the payload vector with non-numbers read as zero; nothing without one |
| SecondaryIndex.VectorIsInPayload | go/internal/storage/index.go:339-357 | the vector is the array under vector in the payload, number by number, and anywhere else there is none |
| VectorRuns.VectorIsLastGiven | go/internal/storage/index.go:339-365 | after any run an id has a vector exactly when some write gave one that no deletion follows, and it is the last one given, whatever was written under the id since |
| VectorRuns.VectorsFollowIff | go/internal/storage/index.go:339-365 | the vectors are those of the present documents throughout a run exactly when no document with a vector is overwritten by one without |
| SecondaryIndex.DeleteEntries | go/internal/storage/index.go:264-323 | one entry leaves every list that has the id and emptied lists go, whatever the order of the keys |
| SecondaryIndex.ListAnswers | go/internal/storage/index.go:281-336 | a list misses no live document, is at most one id when unique, and is exactly the live documents after a clean run |
| SecondaryIndex.IndexManager.CreateIndex | go/internal/storage/index.go:73-115 | an error when the name is taken; a new index starts empty, and is there even when writing its metadata fails |
| SecondaryIndex.IndexManager.GetIndexesForCollection | go/internal/storage/index.go:148-159 | the indexes of the collection, each once |
| SecondaryIndex.IndexManager.Insert | go/internal/storage/index.go:162-183 | every index of the collection takes the document and no other index changes |
| SecondaryIndex.IndexManager.Delete | go/internal/storage/index.go:186-201 | every index of the collection drops the id and no other index changes |
| SecondaryIndex.IndexManager.QueryIndex | go/internal/storage/index.go:204-336 | an error exactly for an unknown index or type; otherwise the list of the value or token, or the best vectors, all of live documents for a vector index; nothing when asked in another index's way |
| VectorSearch.CosineSimilarity | go/internal/storage/index.go:444-461 | inner product over the product of squared norms; 0 for different lengths or a zero vector |
| VectorSearch.ScoreMeaning | go/internal/storage/index.go:444-461 | zero for other lengths and for a zero vector; else the score times both squared norms, which are positive, is the inner product |
| VectorSearch.DotByCoordinates | go/internal/storage/index.go:449-454 | the inner product is zero on zeros and changes with one coordinate by that change times the other vector's |
| VectorSearch.ScoreIsBounded | go/internal/storage/index.go:444-461 | score squared times both squared norms is at most 1, and the score is symmetric |
| VectorSearch.ScoreCanExceedOne | go/internal/storage/index.go:460 | the score is not bounded by 1 |
| VectorSearch.CopyRanksFirstIff | go/internal/storage/index.go:444-461 | a stored copy of the query ranks no lower than another vector exactly when their inner product is at most that vector's squared norm |
| VectorSearch.Search | go/internal/storage/index.go:367-404 | a true top-k: stored ids, distinct, scores not increasing, nothing omitted that scores more; all of them or as many as the limit, none for a negative limit, ten without one |
| VectorSearch.ScoresAreDetermined | go/internal/storage/index.go:383-402 | any two answers to one query have the same scores place by place, whatever the sort and the map order did |
| Filters.MatchesFilters | go/internal/query/knirvql.go:460-471 | no payload means no match; otherwise all filters must match |
| Filters.FilterMeaning | go/internal/query/knirvql.go:473-513 | what each operator asks of the printed field: equal, before or after in string order, contained between any two texts, or at the start; a missing field and an unknown operator match nothing |
| Filters.AllFiltersAreAsked | go/internal/query/knirvql.go:460-471 | a document matches exactly when it has a payload object that every filter accepts |
| Json.LessIff | go/internal/query/knirvql.go:504-513 | string order is decided at the first place where the texts differ, or by which ends first |
| Filters.ComparisonsAgree | go/internal/query/knirvql.go:473-513 | the comparisons are one total order on printed forms, prefixes included, and a missing field matches nothing |
| Filters.RangesNest | go/internal/query/knirvql.go:473-513 | raising the bound of a range filter only loses documents |
| Filters.NumbersCompareAsText | go/internal/query/knirvql.go:504-513 | 10 is below 9 |
| Planner.AnalyzeIndexSuitability | go/internal/query/optimizer.go:184-197 | the filters the index takes and those it does not |
| Planner.SplitIsAPartition | go/internal/query/optimizer.go:184-232 | the split keeps every filter once and in order, and its two parts together ask what the query asked |
| Planner.QueryOptimizer.EstimateIndexRows | go/internal/query/optimizer.go:235-256 | the product of selectivities, at least one row; a tenth of the total without statistics |
| Planner.EstimateMeaning | go/internal/query/optimizer.go:235-292 | the estimate is the whole part of the total times one share for each filter, at least one, by cardinality, a hundredth or the selectivity, and a tenth of the total without statistics; a look-up costs one and a row the bucket size, or ten |
| Planner.EstimateIsMonotone | go/internal/query/optimizer.go:235-278 | with statistics the estimate stays in [1, max(1, total)] and never grows with more filters |
| Planner.QueryOptimizer.SelectBestIndex | go/internal/query/optimizer.go:137-181 | none exactly when no index takes a filter, as for no filters; otherwise an index of least estimated cost with its own split |
| Planner.QueryOptimizer.UsableIff | go/internal/query/optimizer.go:200-232 | an index takes one of the filters exactly when it is a B-tree with the filter's key among its fields, or a GIN index and there is a filter |
| Planner.QueryOptimizer.Optimize | go/internal/query/optimizer.go:92-134 | the plan is that choice with its own cost and row estimate, index-only exactly when no filter is left over; a full scan with all filters exactly when no B-tree of the list has a filter's key and none is a GIN index |
| Planner.CheapestByDefaultIff | go/internal/query/optimizer.go:68-89 | with the default statistics an index is a cheapest one exactly when it takes two filters or no index does; a GIN index always is |
| Executor.ExecuteFullScan | go/internal/query/knirvql.go:395-413 | the documents that pass, in listing order, cut at a positive limit; an error when the collection cannot be listed |
| Executor.ScanInOrder | go/internal/query/knirvql.go:395-413 | a scan gives the documents at the places that pass, in the order of the listing, once for each place |
| Executor.ExecuteIndexScan | go/internal/query/knirvql.go:416-441 | fails exactly when no index is filed under name:name; otherwise the listed documents that exist and pass the remaining filters |
| Executor.ExecuteIndexOnlyScan | go/internal/query/knirvql.go:444-458 | the list itself, cut at a positive limit |
| Executor.ChosenIndexIsReadIff | go/internal/query/knirvql.go:418-420 | the planned index is the one looked up exactly when it carries its collection's name |
| Executor.AgreesIff | go/internal/query/knirvql.go:416-471 | for one store, look-up and scan agree exactly when they agree on each document |
| Executor.IndexAgreesIff | go/internal/query/knirvql.go:416-502 | for all stores whose indexed field mirrors the payload, the look-up gives the scan's documents exactly when the pushed filters together accept the first one's printed value and nothing else, and it is not empty |
| Executor.OneFilterIsFaithfulIff | go/internal/query/knirvql.go:473-502 | one pushed filter does so exactly when it is an equality with a value that does not print as the empty text |
| Executor.EqualitiesAreFaithfulIff | go/internal/query/knirvql.go:419-420 | several equalities do so exactly when they all ask for the same non-empty text |
| Executor.PlanAgrees | go/internal/query/knirvql.go:416-471 | the look-up followed by the remaining filters selects what the scan selects with all filters |
| Executor.BlindFindsNothing | go/internal/query/knirvql.go:416-458 | a value look-up finds nothing in a GIN index, or in a B-tree whose keys have more separators than the value |
| Executor.ExecuteGet | go/internal/query/knirvql.go:353-392 | when every index that takes a filter is trustworthy a query gives exactly the scan's documents, or min(limit, matches) of them; when all of them are GIN indexes or B-trees on several fields that carry the collection's name it gives nothing, right exactly when the scan gives nothing |
| IndexedRuns.ListsAreExactIff | go/internal/storage/index.go:162-279 | for a one-field index created before the data: lists exact throughout exactly when no live document is ever overwritten |
| IndexedRuns.RunIsIndexed | go/internal/storage/index.go:162-201 | after any run the indexed rows are exactly the documents under their present keys |
| IndexedRuns.RunAgrees | go/internal/query/knirvql.go:395-471 | after every run that never overwrites, look-up and scan give the same ids |
| IndexedRuns.RunCovers | go/internal/query/knirvql.go:395-471 | after every run, overwrites included, the look-up misses nothing the scan finds |
| IndexedRuns.OverwriteLeavesAStaleEntry | go/internal/storage/index.go:246-262 | after any run an overwrite leaves the id under the old key: at least once when the key changes, at least twice when it does not; exactly once and twice for the first overwrite |
| Encryption.IsEncryptedCollection | go/internal/storage/storage.go:64-80 | the sensitive collections are exactly those with a sensitive field |
| Encryption.EncryptPayload | go/internal/storage/storage.go:308-333 | sensitive fields sealed and marked, others kept, in any order; an error only when a sensitive field cannot be sealed |
| Encryption.SensitiveFieldsAreSealed | go/internal/storage/storage.go:308-333 | under a sensitive key the stored text opens to the value |
| Encryption.ExactlySecretsAreSealed | go/internal/storage/storage.go:308-372 | exactly the eight fields that are named as secret open to the given value under a true marker; every other field is kept, and no other key or marker is added; a payload key that itself is a marker's name can stand in its place |
| Encryption.DecryptPayload | go/internal/storage/storage.go:397-432 | markers dropped, marked fields opened, others kept, in any order; an error exactly when a marked field does not open |
| Encryption.OpenedMeaning | go/internal/storage/storage.go:397-432 | of any payload, sealed here or not: a field with a true marker gives what its text opens to, others stay, no marker is left; an error exactly when a field with a true marker opens to nothing |
| Encryption.PayloadRestoredIff | go/internal/storage/storage.go:308-432 | decrypting an encrypted payload restores it exactly when none of its keys ends in _encrypted |
| Encryption.EncryptDocument | go/internal/storage/storage.go:287-305 | in place: payload sealed and the two metadata keys set; untouched without a payload map or on an error |
| Encryption.SealedDocumentMeaning | go/internal/storage/storage.go:287-305 | beside the payload the flag and the key id are set and nothing else; without a payload the document is untouched |
| Encryption.DecryptDocument | go/internal/storage/storage.go:374-394 | in place: payload opened and the two metadata keys removed; an error without a key id |
| Encryption.OpenedDocumentMeaning | go/internal/storage/storage.go:374-394 | an error exactly without a text key id or when the payload does not open; otherwise both metadata keys go, the payload is opened and the rest stays |
| Encryption.DocumentRestoredIff | go/internal/storage/storage.go:287-394 | decrypting an encrypted document restores it exactly when its payload has no such key and it has neither metadata key |
| FileStore.FileStorage.CreateIndex | go/internal/storage/storage.go:258-260 | a new index has followed no change yet, whatever the collection holds; the other indexes stay |
| FileStore.FileStorage.Insert | go/internal/storage/storage.go:82-125 | one file written; with a key set every secret field of the payload is in it as a text that opens to the value, and without one, or in a collection without secrets, it is the document; the indexes take the document in the clear; an error changes nothing |
| FileStore.FileStorage.Delete | go/internal/storage/storage.go:146-162 | the file and the index entries go; an error changes nothing |
| FileStore.FileStorage.Find | go/internal/storage/storage.go:164-205 | absent, opened when it says it is encrypted and a key is set, or as stored; then a blob that a MEMORY document refers to is loaded in place of the reference |
| FileStore.BlobMeaning | go/internal/storage/storage.go:191-202 | a blob is loaded exactly for a MEMORY document whose payload refers to a readable file; in the payload the content then stands for the reference and nothing else changes |
| FileStore.FileStorage.ReadBackIff | go/internal/storage/storage.go:82-205 | after any run there is a file exactly for each document written and not deleted since, and the last document written under the id is read back unchanged exactly when: sealed, it is plain in the sense above; not sealed, it does not itself say it is encrypted or no key is set; and it does not refer to a blob that loads |
| FileStore.BlobReferenceIsNotReadBack | go/internal/storage/storage.go:191-202 | a MEMORY document with a readable blob reference is stored as given and changed by the read |
| StoredRuns.FollowerIsIndexed | go/internal/storage/storage.go:82-162 | after any run of the storage, a one-field B-tree index created before the data was told exactly the changes of its collection and its rows are the stored documents; a non-unique one has been exact throughout exactly when no document was overwritten |
| StoredRuns.ReadsAsWrittenIff | go/internal/storage/storage.go:82-205 | after any run a collection reads as the documents last written exactly when each of them reads back |
| StoredRuns.FollowerIsTrustworthyIff | go/internal/query/knirvql.go:353-392 | after any run whose documents read back, a query may use such an index against the stored documents exactly when none was overwritten, the index has the collection's name, the field mirrors the payload and the pushed filters are faithful |
| StoredRuns.CandidatesAreTrustworthy | go/internal/query/knirvql.go:353-392 | so what is promised of a query over trustworthy indexes holds after such runs |
| StoredRuns.WordsAfterRun | go/internal/storage/storage.go:82-162 | after any run of the storage, a GIN index created before the data lists under every word exactly the stored documents in which it stands, once each, if no document said a word twice and none it held was overwritten |
| StoredRuns.VectorsAfterRun | go/internal/storage/index.go:339-365 | after any run of the storage, a vector index created before the data holds the vectors given last, and those of the stored documents if no document with a vector was overwritten by one without |
| ReplicaIndexes.ReceivedIsChangeOf | go/internal/collection/distributed_collection.go:283-301 | what a receipt writes or deletes in the storage is decided by the copy and the operation; a document that an operation leaves alone is written again |
| ReplicaIndexes.ChangesLeaveStore | go/internal/collection/distributed_collection.go:181-308 | in every run the writes and deletions along a peer's timeline leave its store |
| ReplicaIndexes.ReplicaListsAreExactIff | go/internal/collection/distributed_collection.go:181-308 | in every run the lists of a one-field index of a replicated collection, created before the data, were exact throughout exactly when each operation on the timeline found no copy of its document or dropped the one it found |
| ReplicaIndexes.WritesAreApart | go/internal/collection/distributed_collection.go:283-301 | and then a deletion lies between any two writes of a document, so no write is taken in twice |
| ReplicaIndexes.ReplicatedFollower | go/internal/storage/storage.go:82-162 | such an index of the file storage holds the peer's documents as its rows, and is clean exactly then |
| Parser.ParseGet | go/internal/query/knirvql.go:43-111 | an error exactly below two tokens; otherwise the clauses of the tokens after WHERE |
| Parser.ParseVector | go/internal/query/knirvql.go:59-66 | the numbers between the commas, others skipped |
| Parser.ParsingInvertsIff | go/internal/query/knirvql.go:54-107 | filters, vector and limit given as data and written with any tokens that spell them are read back exactly when no filter reads as LIMIT or SIMILAR TO |
| Parser.EveryListIsWritten | go/internal/query/knirvql.go:54-107 | every token list after WHERE is written in this way by some filters and closing clause, so the statement is about all of them |
| Parser.SpellsIff | go/internal/query/knirvql.go:84-95 | the value of a condition is the one its token spells: without quotes at its ends, the number it reads as, or else the text |
| Parser.SpellsVectorIff | go/internal/query/knirvql.go:57-66 | a vector is what its token spells: between brackets, the numbers among the pieces that commas separate, in order |
| Parser.QuotedTextIsReadBackIff | go/internal/query/knirvql.go:86-95 | quoted text is read back as text exactly when it has no quote at its ends and does not read as a number |
| Parser.VectorIsReadBack | go/internal/query/knirvql.go:59-66 | a bracketed vector in one token is read back |

## Left out

What the model does not capture:

- Negative or overflowing counters: `int64` counters are natural numbers without a bound.
- Interleavings inside one operation, locks and data races: each local operation and each delivery is one step.
- Re-attachment inside a run: the runs of the transition system stay within one attachment, because attaching again starts from an empty clock while the log survives; `AttachToNetwork` itself is modelled.
- `Update`: the storage takes its lock twice on that path and cannot complete, so no run contains it. Update operations are modelled in the resolver.
- Wall clocks and the ten-second sync timer: timestamps are parameters, the timer is a step that can happen at any time.
- Operation ids, and the entry type that an announced insert carries: nothing in the modelled code reads them.
- The difference between a nil payload and an empty one on values; the classes keep it.
- Aliasing below the top level of a payload, and of the slice an index query returns with the list it was taken from.
- Log entries hold the announced document as a value; their clocks are objects, as aliasing with the counting clock is the point there.
- Network transport, handshakes, connection management and message encoding: the bag of messages stands for them.
- Cryptographic algorithms and key handling: one inverse law stands for them.
- Writing blob files: the type check in front of it never succeeds on a copied document. Loading one is modelled. Paths, directories and the reload of indexes are left out.
- The vector field of a sync answer: it is sent but never read.
- A `dimensions` option of a vector index: it is stored but never read.
- SET, DELETE, CREATE and DROP parsing, and the public wrapper: they would add easy members only.
- `int64` filter values: a number token that the integer reader accepts is accepted by the float reader first; the branch is kept and gives a number.
- Executor.IndexAgreesIff: the indexed field is an ordinary one, not `id` and not `payload`, and the index takes every document; with a partial index the planner does not look at the condition, so agreement would also need every matching document to meet it.
- Executor.ExecuteGet: a scan's read errors are absences here, as the code skips both alike. With trustworthy and blind indexes mixed, the default costs may choose either.
- DistributedCollection.DistributedCollection.HandleRemoteOperation: the storage takes what arrives; the code ignores a storage error there and counts the operation all the same.
- DistributedCollection.DistributedCollection.HandleSyncRequest: it is stated for an attached collection; the code reads the sync state there, which a detached one does not have, and panics.
- FileStore.FileStorage.Insert: a failed write leaves no partial file.
- FileStore.FileStorage.Find: a file that cannot be read for another reason than being absent.
- CausalClocks.ClockOrderDecidesCausality: for a peer's first operation against a clock that does not count that peer, the clocks do not decide; `FirstOperationLeavesNoTrace` shows why.
- Planner.QueryOptimizer.SelectBestIndex: the sort may leave any of several cheapest indexes first; the contract allows each.
