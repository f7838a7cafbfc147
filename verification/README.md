# Verification of the data availability service

The service copies verified protocol data from providers into a database. Two indexers, one for FTSO and one
for FDC, follow the relay contract's messages on the chain. For each message they ask providers for the data
of a voting round, accept the first answer whose Merkle root is the relayed one, and store message and data in
one transaction. A third process deletes old rounds. HTTP views read the tables.

This project models that pipeline, the recursive value conversion of FDC responses, and the cache with its
circuit breaker, and proves what holds over all runs.

| module | what it models |
|---|---|
| `Ingestion` | the indexer as a state machine: block cursor, batches, retry queue; the invariants of every run |
| `IndexerLoop` | the loop as written, with its nested loops, and bounds on the work of the inner loops |
| `Progress` | exactly when a poll leads to the retry pass, and what the pass then does |
| `Hex`, `LeafEncoding` | root text, ABI encoding of the leaf structs, leaf hashes |
| `Providers`, `Acceptance`, `Agreement` | provider fallback, exactly which answers are accepted, and what the root forces on accepted data |
| `Records`, `Storage`, `Database` | the four tables, the storing transactions, the history sweep |
| `Pipeline` | both indexers and the sweeper over one database, in any interleaving, with restarts; what holds with no assumption |
| `Delivery` | exactly when an attempt on a message stores it, said of the message, the replies and the tables |
| `Completeness` | exactly when the rounds in the tables are complete and verified, for each protocol |
| `Readers` | the latest rounds and the tree rebuilt from stored rows |
| `DictTransform` | deep copy and in-place stack traversal, against the recursive map |
| `Caching` | the Redis cache with local fallback and exponential backoff |

## How the environment is modelled

Chain heights, log answers, provider answers, clock readings and Redis outcomes are inputs; every theorem
holds for all of them. A run has no end in the program; here it is any number of steps, so each theorem about
`Exec` or `Reach` speaks about every moment of every run. An exception that ends the process is the phase
`Aborted`.

Library functions are fields of the record `LeafEncoding.Library`: `bytes.fromhex`, `int(text, 16)`, the byte
reading of hex text, keccak, and the Merkle root of a list of leaves. Assumptions are stated as predicates and
required only where they are used:

- the batch size is at least 1 (coverage of blocks and termination of the catch-up);
- `Ingestion.Monotone`, `Pipeline.Clocked`: clock readings do not go back;
- `LeafEncoding.CollisionFree`: the hash is injective;
- `Agreement.RootPins`: trees whose roots are the same text, up to case and prefix, have the same set of leaves;
- `Completeness.HonestFtso`: the two before, each relayed FTSO root was made from leaves of its own round, and
  the FTSO indexer's logs come from the chain;
- for FDC, that an empty tree has no root;
- `Pipeline.HonestNode`: the node answers a request for blocks with what these blocks hold, or not at all (only
  for `ChainToTables` and `ReadsTheChain`);
- `Readers.OrderFree`: a root does not depend on the order of the leaves.

Over the whole system the results come in three layers. With no assumption about chain, providers or library:
each protocol and round has at most one message, an attempt stores its message exactly when that is possible
(`Delivery`), no event is lost between the logs and the tables, and the entries of `status` are exact. For FTSO, `HonestFtso` makes every round complete and verified; no assumption on
FDC enters. For FDC, the tables hold exactly the accepted publications if and only if every stored attestation
carries the round of its message (`FdcExactly`), and nothing in the program checks that: `FdcRoundIsNotChecked` shows that an accepted
answer stays accepted under any round tags, and `MistaggedAttestation` that such an answer is then stored and
leaves its message without data. Providers that tag with the round they are asked for suffice
(`TaggedRepliesSuffice`). For FTSO the tags follow from the root (`FtsoRowsCarryTheRound`).

Two further places where the code decides against a simple reading. A stored maximum block of 0 counts as absent
(`RestartAboveStored` gives the exact condition). A poll that finds the height at the cursor skips the retry
pass, so a due retry is not always served at the next poll: `PollServesQueue` shows that, when no exception ends
the catch-up, the pass is reached exactly when the height differs from the cursor, and `RetriesStarve` that the
queue is starved exactly as long as it does not. The docstring of project/cache.py starts the backoff at 2
seconds; the code starts it at 4, and the model follows the code.

## Model

| member | source | states |
|---|---|---|
| `Ingestion.RunInvariant` | processing/main.py:70-140 | at every moment of every run: each event object is processed, queued once, or given up after exactly six failed attempts; attempts on an event are more than 20 s apart; a queue entry's counter is its number of failures; what was fetched is what became events plus what is pending; every block from the first cursor to the present one was asked for exactly once |
| `Ingestion.StepSound` | processing/main.py:92-140 | every transition keeps the one fate of every event and the retry counters |
| `Ingestion.StepTraced` | processing/main.py:81-101 | no transition loses, repeats or reorders a matching message between `get_logs` and the event objects |
| `Ingestion.StepCovered` | processing/main.py:77-90 | every transition keeps the asked ranges non-empty, within the batch size, below the height, and covering each block once |
| `Ingestion.StepReads` | processing/main.py:77-101 | with a node that answers truthfully, every transition keeps this: what was fetched is the matching messages of all blocks from the first cursor to the present one, in order |
| `Ingestion.EveryMessageAccountedFor` | processing/main.py:92-140 | the i-th message fetched is the i-th event, with one fate, or still pending |
| `Ingestion.RunOrdered` | processing/main.py:112-133 | with a clock that does not go back a retry queue that is in order of time stays so, over every run |
| `Ingestion.PassEndsWithNothingDue` | processing/main.py:115-123 | when a retry pass ends no entry anywhere in the queue was due |
| `Ingestion.AbandonedLate` | processing/main.py:115-140 | the last attempt on an abandoned event begins more than 100 s after its first failure |
| `Ingestion.RetriesStarve` | processing/main.py:71-75 | with entries waiting, the process does nothing over k polls exactly when each of them finds the height at the cursor |
| `Progress.PassReached` | processing/main.py:71-115 | with entries waiting, a round reaches the retry pass exactly when the poll finds another height than the cursor and no answer ends the catch-up by an exception |
| `Progress.PollServesQueue` | processing/main.py:71-115 | when no exception comes in the way, the queue is served before the next poll exactly when the height differs from the cursor |
| `Progress.HeadServed` | processing/main.py:115-128 | the pass begins at the entry that headed the queue at the poll; it attempts that entry exactly when it is due, and otherwise ends with nothing changed |
| `Progress.RoundServesDueEntries` | processing/main.py:71-140 | a round that reaches the retry pass ends, and leaves no entry due: every due entry was attempted |
| `Progress.CatchUpReaches` | processing/main.py:71-90 | the catch-up of a round goes to the height that the poll found and no further; a cursor above it stays |
| `IndexerLoop.PassBounded` | processing/main.py:115-140 | a retry pass uses up work with every attempt, so it makes at most five attempts for each entry it found, whatever the clock and outcomes |
| `IndexerLoop.CatchUpCalls` | processing/main.py:77-90 | the catch-up loop makes the least number of batched calls that covers the gap and ends with the cursor at the height |
| `IndexerLoop.HandleEvents` | processing/main.py:92-112 | the event loop consumes the whole batch, one transition an entry, or stops at the first undecodable entry, with everything before it done |
| `IndexerLoop.RetryPass` | processing/main.py:115-140 | the retry loop terminates, takes the machine from the pass to its next poll, and leaves a non-empty queue only behind an entry that was not due |
| `IndexerLoop.CatchUp` | processing/main.py:77-112 | the catch-up loop terminates; unless an exception ends it the cursor ends at the height, or stays where it was above it, and the machine has left its catch-up at that very step |
| `IndexerLoop.Run` | processing/main.py:45-140 | the loop, from the restart cursor on, ends in the state of the machine after as many polls as it was run for, or in the aborted state if an exception came before |
| `Hex.StoredRootFaithful` | fsp/models.py:56 | the stored root text is the plain hex of the 32 bytes and pins them down |
| `Hex.RootTextAccepted` | processing/ftso_processing.py:21-26 | a provider's root text is accepted exactly when, up to letter case, it is the chain's root with or without `0x` |
| `Hex.NormalText` | processing/utils.py:8-12 | the normalised text is the hex text of some bytes exactly when the text, behind an optional `0x` or `0X`, reads as these bytes digit by digit in either case |
| `Hex.LowerAt` | ftso/models.py:55 | lower case changes ASCII capitals to their small letters and nothing else |
| `LeafEncoding.WordRoundTrip` | ftso/models.py:62-69 | each ABI word decodes to the value it encodes: unsigned, two's complement, padded bytes, bool |
| `LeafEncoding.WordExactly` | ftso/models.py:62-69 | a word encodes a value exactly when it has 32 bytes (or the given width) and the number that the ABI specification gives: n, two's complement, bytes at the left end, 1 or 0 |
| `LeafEncoding.EncodeAt` | ftso/models.py:62-69 | the words of a struct are the encodings of its fields in order |
| `LeafEncoding.StructRoundTrip` | ftso/models.py:62-69 | a static struct of any shape decodes to all its fields |
| `LeafEncoding.BaseHash` | ftso/models.py:62-69 | the loop collects types and values in order; a missing name or an unfit value raises |
| `LeafEncoding.HashFeed` | ftso/models.py:40-49 | the name mapping puts each column in its ABI position |
| `LeafEncoding.HashRandom` | ftso/models.py:92-99 | the same for the random row |
| `LeafEncoding.FeedHasLeaf` | ftso/models.py:20-49 | a feed has a leaf exactly when its id and numbers are in the ranges of uint32, bytes21, int32, uint16, int8 |
| `LeafEncoding.RandomHasLeaf` | ftso/models.py:78-99 | a random row has a leaf exactly when its value and round are in range |
| `LeafEncoding.FeedPreimageDecodes` | ftso/models.py:20-49 | the preimage has 160 bytes and decodes to the row's round, id, value, turnout and decimals |
| `LeafEncoding.RandomPreimageDecodes` | ftso/models.py:78-99 | the preimage has 96 bytes and decodes to the row's round, value and flag |
| `LeafEncoding.FeedPreimageWords` | ftso/models.py:20-49 | the five words of a feed preimage as numbers, the id at the left end of its word |
| `LeafEncoding.RandomPreimageWords` | ftso/models.py:78-99 | the three words of a random preimage as numbers |
| `LeafEncoding.FeedLeafPinsFields` | ftso/models.py:40-49 | equal feed leaves agree on every hashed field |
| `LeafEncoding.RandomLeafPinsFields` | ftso/models.py:92-99 | equal random leaves agree on every hashed field |
| `LeafEncoding.LeafKindsDisjoint` | ftso/models.py:40-99 | no leaf is both a feed leaf and a random leaf |
| `Providers.FetchMerkleTree` | processing/processing.py:19-40 | the loop over providers computes the fallback, with the protocol check first |
| `Providers.FetchEarliest` | processing/processing.py:19-40 | a message of another protocol is refused; otherwise the result is the earliest verifying provider's data, and it fails exactly when all fail, with every error in order |
| `Acceptance.FtsoAcceptance` | processing/ftso_processing.py:18-42 | an FTSO answer is accepted exactly when the root it claims and the root of the tree over the hashes of its rows are both the relayed root, up to case and prefix; the payload is the rows as read |
| `Acceptance.FdcAcceptance` | processing/fdc_processing.py:18-37 | an FDC answer is accepted, unchanged, exactly when the tree over the hashes of its response bytes has the relayed root |
| `Acceptance.AcceptanceFixesRoot` | processing/ftso_processing.py:34-40 | an answer accepted for two messages shows that their roots are equal |
| `Acceptance.RowsAsRead` | ftso/models.py:51-59 | rows keep their order and numbers; ids and random values become small letters without prefix, so hex text becomes the hex text of its bytes |
| `Acceptance.AcceptedFtsoStored` | processing/ftso_processing.py:44-50 | the numbers of an accepted FTSO answer always fit their columns; it is stored unless the round is taken, the message does not fit, or a text is too long |
| `Acceptance.FdcStoredExactly` | processing/fdc_processing.py:39-43 | attestations are stored unless the round is taken, the message does not fit, or a claimed round is outside 64 bits |
| `Agreement.FtsoProvidersAgree` | processing/ftso_processing.py:18-42 | two FTSO answers accepted for a message agree, as sets, on every hashed field |
| `Agreement.FdcProvidersAgree` | processing/fdc_processing.py:18-37 | two FDC answers accepted for a message have the same set of response bytes |
| `Agreement.FtsoRowsCarryTheRound` | processing/ftso_processing.py:28-42 | accepted FTSO rows carry the round of the message |
| `Agreement.FdcRoundIsNotChecked` | processing/fdc_processing.py:23-37 | an accepted FDC answer stays accepted whatever rounds its rows claim |
| `Storage.FtsoStoreFails` | processing/ftso_processing.py:47-50 | the transaction fails exactly on an archived round or a row that the schema cannot hold |
| `Storage.FdcStoreFails` | processing/fdc_processing.py:41-43 | the same for FDC |
| `Storage.FtsoRoundAfterStore` | processing/ftso_processing.py:47-50 | which rows each round gains, whatever the payload's tags |
| `Storage.FdcRoundAfterStore` | processing/fdc_processing.py:41-43 | the same for FDC |
| `Storage.FtsoStoreRefines` | processing/ftso_processing.py:44-50 | a successful transaction adds one publication and changes nothing else exactly when its rows carry the message's round |
| `Storage.FdcStoreRefines` | processing/fdc_processing.py:39-43 | the same for FDC |
| `Storage.SweepRefines` | fsp/management/commands/delete_history.py:26-35 | a sweep removes the rounds below the cut-off whole and keeps the others whole |
| `Storage.SweepTwice` | fsp/management/commands/delete_history.py:18-35 | two sweeps are one sweep at the later cut-off |
| `Storage.SweepCommutesFtso` | processing/ftso_processing.py:44-50 | a sweep commutes with storing a round it does not reach, also when the store is rejected |
| `Storage.SweepCommutesFdc` | processing/fdc_processing.py:39-43 | the same for FDC |
| `Storage.SweepsInterleaveFreely` | fsp/management/commands/delete_history.py:18-35 | any interleaving of sweeps with stores of current rounds ends as one sweep after all stores |
| `Storage.FdcStoreDuringSweep` | fsp/management/commands/delete_history.py:27-35 | if the four deletes took separate snapshots, a store between them ends whole, kept or gone, exactly when the sweep does not reach its round or it commits before the first or after the last delete; otherwise its message is lost and its data stay |
| `Storage.FtsoStoreDuringSweep` | fsp/management/commands/delete_history.py:27-35 | the same for FTSO, where committing before the second delete is early enough |
| `Database.RunFtsoProcess` | processing/ftso_processing.py:44-50 | the three inserts and the rollback are all or nothing |
| `Database.RunFdcProcess` | processing/fdc_processing.py:39-43 | the two inserts and the rollback are all or nothing |
| `Database.MistaggedAttestation` | processing/fdc_processing.py:22-43 | for every accepted answer, the same attestations under any other rounds are accepted and stored too, and leave the message of the round without data; each round gains the rows tagged with it |
| `Database.DeleteHistory` | fsp/management/commands/delete_history.py:14-35 | however often the command wakes up, the tables end as after one sweep at its latest cut-off; without a setting nothing is deleted |
| `Pipeline.ReachableInvariant` | processing/main.py:45-140 | with no assumption, in every interleaving of both indexers, the sweeper and restarts: the message table is that of the archived publications, each of them has the relayed root and fits the schema, processed events are archived unless swept, and no round is processed twice unless swept |
| `Pipeline.AtMostOnce` | fsp/models.py:37-38 | with no assumption, no two message rows have the same protocol and round in any reachable state |
| `Pipeline.EveryEventResolved` | processing/main.py:92-140 | with no assumption, each event of a running indexer is queued, given up after six failures, or processed, and then its message is the stored one of its round unless a sweep has reached that round |
| `Pipeline.IndexerIsRun` | processing/main.py:45-140 | each indexer of the system is where the machine is after exactly the answers since its last start, run from the tables as they were then; clocks that do not go back carry over |
| `Pipeline.ReadsTheChain` | processing/main.py:77-101 | with a truthful node, what an indexer has fetched is the matching messages of all blocks from its restart cursor to the present one, in order |
| `Pipeline.ChainToTables` | processing/main.py:51-140 | the process started from the block after the highest one stored then; each block up to the present cursor was asked for once, and each matching message in these blocks is pending, queued, given up, or stored unless swept |
| `Pipeline.ClockedIndexer` | processing/main.py:112-140 | in the whole system the queues are in order of time and what was given up had six attempts over more than 100 s |
| `Pipeline.RestartAboveStored` | processing/main.py:51-57 | a restart begins above every stored block of the protocol exactly when the maximum is not 0 or the configured start is positive |
| `Pipeline.RestartStep` | processing/main.py:51-68 | a restart changes only its indexer, which polls from the block after the highest stored one, or from the configured start if there is none or it is 0, with nothing in hand |
| `Pipeline.RestartSkipsNothing` | processing/main.py:51-57 | every block above the highest stored one is at the restart cursor or above it, unless that highest block is 0 |
| `Pipeline.HistoryStep` | fsp/management/commands/delete_history.py:27-35 | in the system a sweep takes every row below the cut-off and no other, and touches no indexer |
| `Delivery.FtsoFirstAttempt` | processing/main.py:97-112 | the first attempt on an FTSO message stores it with all rows of the earliest accepted answer exactly when its round is free, some answer is accepted and the message and texts fit; otherwise it is queued with counter 1 and no table changes |
| `Delivery.FdcFirstAttempt` | processing/main.py:97-112 | the same for FDC, where the claimed rounds have to fit |
| `Delivery.FtsoNextAttempt` | processing/main.py:115-140 | the same for a due entry of the retry queue, which goes to the end with its counter raised or, at the fifth retry, is given up |
| `Delivery.FdcNextAttempt` | processing/main.py:115-140 | the same for FDC |
| `Delivery.FtsoProcess` | processing/ftso_processing.py:44-50 | `process` succeeds exactly on a storable message, and then stores it |
| `Delivery.FdcProcess` | processing/fdc_processing.py:39-43 | the same for FDC |
| `Completeness.FtsoExactly` | processing/ftso_processing.py:44-50 | over a run the FTSO tables always hold exactly the archived publications if and only if every stored publication carries its message's round |
| `Completeness.FdcExactly` | processing/fdc_processing.py:39-43 | the same for FDC |
| `Completeness.HonestRunsAreTagged` | processing/ftso_processing.py:18-50 | on an honest chain every stored FTSO publication carries its round, whatever any provider sends |
| `Completeness.TaggedRepliesSuffice` | processing/fdc_processing.py:18-43 | FDC providers that tag with the round they are asked for make every stored attestation carry its round |
| `Completeness.FtsoRoundsWhole` | processing/ftso_processing.py:44-50 | an FTSO message is stored exactly when its data is, with one random row, and the data has the relayed root |
| `Completeness.FdcRoundsWhole` | processing/fdc_processing.py:39-43 | the same for FDC, with at least one attestation, as long as the stored attestations carry their rounds |
| `Completeness.FtsoRunsAgree` | processing/processing.py:19-40 | two runs, under any configurations, that hold the same FTSO message agree on every hashed field |
| `Completeness.FdcRunsAgree` | processing/processing.py:19-40 | two runs, under any configurations, that hold the same FDC message have the same set of response bytes, as long as the stored attestations carry their rounds |
| `Completeness.FtsoRoundsMoveWhole` | fsp/management/commands/delete_history.py:27-35 | a step fills an empty FTSO round, removes it whole below a cut-off, or leaves it alone |
| `Completeness.FdcRoundsMoveWhole` | fsp/management/commands/delete_history.py:27-35 | the same for FDC rounds |
| `Readers.RebuiltTreeHasRelayedRoot` | ftso/views.py:143-151 | in every reachable state the rebuilt tree exists exactly when the message does, has its root in any row order, and has a leaf for every stored feed |
| `Readers.RoundLeavesAre` | ftso/views.py:143-151 | in any tables, the rebuilt tree is over the leaf of the first random row and then those of the feeds, as they come |
| `Readers.Status` | fsp/views.py:38-86 | the view reports the latest stored round of each configured protocol, or -1 |
| `Readers.LatestIsRelayed` | fsp/views.py:54-71 | the latest round is the greatest round with a stored message |
| `Readers.StatusExact` | fsp/views.py:54-86 | with no assumption, in every reachable state an entry of the report is -1 exactly when the protocol is not configured or has no message, and otherwise its greatest stored round and the start of it |
| `Readers.FtsoStatusComplete` | fsp/views.py:52-86 | the FTSO round that the report names has complete, verified data |
| `Readers.FdcStatusComplete` | fsp/views.py:52-86 | the same for FDC, as long as the stored attestations carry their rounds |
| `Readers.RequestedRoundHasTree` | ftso/views.py:132-140 | without a query the requested round has a tree; it is the round of `status` exactly when that round has a feed |
| `Readers.QueriedRound` | ftso/views.py:132-151 | a query is taken as it is, and its tree exists exactly when the round has a message |
| `DictTransform.DeepCopy` | fdc/models.py:34 | a copy of a tree is made of new containers, denotes the same tree and shares none |
| `DictTransform.TransformSlots` | fdc/models.py:39-51 | one popped container: its containers are pushed in order, its leaves replaced in place |
| `DictTransform.FrontierStep` | fdc/models.py:35-51 | in a forest each container is pushed once: the stack is the frontier of the finished part |
| `DictTransform.FinishedDenotes` | fdc/models.py:34-53 | when the finished part is closed, the heap denotes the recursively mapped tree |
| `DictTransform.Traverse` | fdc/models.py:35-51 | the stack loop terminates and yields the recursive map |
| `DictTransform.DictTransform` | fdc/models.py:18-53 | the result denotes the recursive map of the input, is made of new containers, and leaves the input untouched |
| `DictTransform.MapTreeAt` | fdc/models.py:18-53 | the map keeps every path with keys, order and length, and turns each atom into what the transformer of its exact type makes of it, once, or leaves it |
| `DictTransform.TypescriptAt` | fdc/models.py:56-59 | at every path an integer becomes a numeral that reads back as it, every other leaf stays, and no integer leaf is left |
| `DictTransform.DecimalIsTheNumeral` | fdc/models.py:59 | the text of an integer is the one numeral without leading zeros that reads as it |
| `DictTransform.DictTransformTypescript` | fdc/models.py:56-59 | the conversion on the heap is the map with the integer transformer |
| `Caching.FallbackCache.Perform` | project/cache.py:45-53 | the cache object follows the pure step, including exceptions that are no Redis error |
| `Caching.BreakerFollowsStreak` | project/cache.py:31-43 | after any calls the cooldown is min(2^(n+1), 300) for n failures since the last success, the failure time is the latest stamp, and 0 exactly when n = 0 |
| `Caching.SuccessCloses` | project/cache.py:40-43 | the guarded reset always restores the initial breaker |
| `Caching.BackoffTimeBound` | project/cache.py:31-53 | failures of a streak are further apart than the cooldowns between them; from the eighth on more than 508 + 300 (k - 8) seconds |
| `Caching.CooldownIsLocal` | project/cache.py:28-53 | after any calls, a call that comes no later than the cooldown after the last failure is the local one; Redis and the breaker stay as they are |
| `Caching.AttemptIsRedis` | project/cache.py:45-53 | any other call is Redis' own, unless it ends with a Redis error, and then its reply is the local one |
| `Caching.EachBackendAlone` | project/cache.py:45-53 | in any run the state of Redis is that of Redis alone over the attempted calls, and the local cache that of the local cache alone over the others and the failed ones |
| `Caching.HealthyIsRedis` | project/cache.py:45-53 | while Redis raises no Redis error the cache is Redis and the local cache is untouched |
| `Caching.DownIsLocal` | project/cache.py:45-53 | while every attempt fails the cache is the local cache, one local call for each operation |

## Left out

- Restart without loss: queued events are not persisted, so an event below the restart cursor is not seen again.
- Row locks and statement snapshots of PostgreSQL: each transaction is one atomic step of the system. At the default isolation level the four deletes of a sweep take separate snapshots, so a store of an old round that commits between them can lose its message and keep its data; `FdcStoreDuringSweep` and `FtsoStoreDuringSweep` say when, and the system of `Pipeline` has no such step.
- Surrogate keys, and text that PostgreSQL refuses for reasons other than its length.
- RPC, HTTP, JSON structuring and event decoding: their answers and exceptions are inputs.
- keccak, the Merkle tree, epoch arithmetic and the decoding of attestation responses: library code, parameters here.
- Rounding of clock readings: times are real numbers.
- Letter case outside ASCII in `str.lower`.
- `dict_transform` on cyclic or shared inputs, and transformers keyed by dict or list: outside its JSON-like inputs.
- Python's limit on the number of digits in the text of an integer: ABI integers stay below it.
- Coherence of Redis and the local cache across switches: the program does not synchronise them.
- REST views other than the two readers, serializers, admin, settings, logging and deployment: no property to prove.
