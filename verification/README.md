# Outback: a verified model of its index structures and protocols

This project models, in Dafny, the parts of the Outback key-value store that carry its correctness,
and proves what they promise for every input, every run and every interleaving.

* **Ludo control plane and data plane** (`Hashing`, `LudoTable`, `LudoSearch`, `LudoGrowth`,
  `LudoControlPlane`, `LudoSlots`, `LudoDataPlane`). A 4-way, 2-choice cuckoo table with breadth-first insertion, one
  locator bit per key and one collision-free seed per bucket, compiled into a keyless look-up. The
  hash is an arbitrary function of seed and key.
* **Memory node and its client** (`MemoryNode`, `RemoteClient`, `StartUp`). Loading and compiling the table, the
  four-way PUT handler with in-place re-seeding of a row, GET, and the client's copy of the seeds.
* **Online resizing** (`ResizeMachine`, `ResizeSafety`, `ResizeOrder`, `ResizeStages`, `ResizeRuns`,
  `ResizeLanes`, `ResizeClients`). A six-phase server thread, clients that allocate with fetch-and-add and handlers
  that defer mutations, as a state machine whose steps are single atomic operations.
* **ALEX data node** (`AlexBits`, `AlexBitmap`, `AlexGaps`, `AlexSlots`, `AlexSearch`, `AlexEdits`,
  `AlexPlacement`, `AlexRebuild`, `AlexNode`, `AlexValidate`). The gapped sorted array with its 64-bit-word bitmap. The
  learned model is an arbitrary function from key to position, and a rebuild may replace it by any other.
* **B-tree** (`BTreeShape`, `BTreeSplit`, `BTreeRoot`, `BTreeLeaf`, `BTreeMoves`, `BTreeHang`, `BTreeSteps`,
  `BTreeOrder`, `BTreeSearch`, `BTreeErase`, `BTreeFacts`,
  `BTreeVerify`, `BTree`). Nodes are records of an arena, linked to parent and children by
  number; each operation updates the arena in place.
* **Cluster hash, union-find, fanout tree** (`ClusterHash`, `DisjointSets`, `FanoutTree`).

`dafny verify dfyconfig.toml` checks everything.

## How the proofs are built

Each structure has one invariant made of local facts (a predicate per bucket, slot, node, header or
thread), one abstract value (a map, an ordered list, a set of keys, a list of granted indices) and, for every
operation, a small lemma that the local facts survive it. Whole-run theorems are inductions over
those lemmas. For the B-tree the proofs carry, for every node, its level and the open interval of its
keys; equal leaf depth, order and search correctness are then local. Merge and split are each other's inverse, and
a rebalance is a merge followed by a split at another place.

## What the proofs found

* A value of 2^40 or more does not survive compilation: `LudoDataPlane.RunAndCompile` states the exact bound.
* An insertion into the Ludo table fails exactly when no free slot is within the depth limit, or when the place found
  cannot be separated by a seed below 255 (`LudoControlPlane.ControlPlane.Insert`). Growth never fails
  (`LudoGrowth.GrowthFits`).
* A PUT of a key that is readable in its row under a foreign fingerprint cannot succeed: the row cannot separate the
  key from itself (`MemoryNode.ForeignTag`). Bulk-loaded cells carry fingerprint 0, so this is what happens to the
  first PUT of every loaded key with another fingerprint: it is spilled if its row is full and the array is not, and
  otherwise the server exits (`StartUp.PutLoaded`).
* The blocking flag is not equal to "the phase is one of the three blocking ones" at every instant:
  `ResizeRuns.FlagBeforePhase` is a reachable state where it is not, `ResizeRuns.FlagDiffersExactly` says exactly when.
* Deferred mutations are documented as replayed in order (outback/outback_resize.hh:48-49). With one queue for
  insertions and one for deletions this holds over a run exactly if no drain finds a deletion that arrived before an
  insertion (`ResizeOrder.ReplayKeepsArrivalOrder`); `ResizeRuns.OrderIsBroken` is a run that breaks it.
* A handler that read the flag while it was set may enqueue after the drain; its mutation then waits for another
  resize (`ResizeRuns.MutationMissesDrain`; `ResizeRuns.WaitsExactlyBehindFlag` says exactly when).
* The bound of 682 queued and 170 expanded entries of a cuckoo search is attained
  (`LudoSearch.BudgetAttained`, `LudoSearch.BudgetIsTight`).
* With only two epoch slots a resize would overwrite the record clients are reading
  (`ResizeSafety.TwoSlotsAreTooFew`); three are enough.
* `find_key` called with the sentinel returns a gap exactly when the last slot of the node is one
  (`AlexNode.DataNode.FindKey`, `AlexNode.SentinelIsFound`).
* `validate_structure` accepts a broken node exactly if an entry before the last slot has the sentinel as its key
  (`AlexValidate.AcceptsExactly`, `AlexValidate.SentinelEntryGoesUnnoticed`).
* The B-tree's own test accepts trees that are not valid: equal neighbours and leaves at different depths pass
  (`BTreeVerify.AcceptsExactly` says exactly which trees do).
* A second `Insert` of a key into the cluster hash is never seen again (`ClusterHash.LookAfterInsert`).

## Model

| member | source | states |
|---|---|---|
| `Hashing.CandidateGrows` | deps/ludo/ludo_cp_dp.h:109-118 | under a wider mask a candidate bucket stays the same modulo the old size, which is why growth moves a key only from bucket `j mod oldSize` to `j` |
| `Hashing.HashFields` | deps/ludo/ludo_cp_dp.h:109-118 | the slot of a key is the top two bits of its hash, its first candidate bucket the low half and its second the high half, both modulo the number of buckets |
| `LudoTable.FindFreeSlot` | deps/ludo/ludo_cp_dp.h:539-546 | returns the first unoccupied slot, and -1 exactly when the bucket is full |
| `LudoTable.FindInBucket` | deps/ludo/ludo_cp_dp.h:523-531 | returns the occupied slot that holds the key, and -1 exactly when no slot does |
| `LudoTable.Separates` | deps/ludo/ludo_cp_dp.h:639-653 | the test loop accepts a seed exactly when no two occupied slots of the bucket hash to the same slot under it |
| `LudoTable.FindSeed` | deps/ludo/ludo_cp_dp.h:634-697 | the smallest seed below 255 that separates the bucket, or -1 exactly when none of the 255 does |
| `LudoTable.FillKeeps` | deps/ludo/ludo_cp_dp.h:579-605 | filling a free slot with a new key, its locator bit and a separating seed keeps the table invariant and adds exactly that binding |
| `LudoTable.MoveHole` | deps/ludo/ludo_cp_dp.h:608-632 | copying a key into the hole of its other candidate bucket, toggling its bit and re-seeding keeps the invariant of the table-with-a-hole and its key-value map; the hole is now where the key was |
| `LudoTable.VacateKeeps` | deps/ludo/ludo_cp_dp.h:567-577 | clearing a key's occupied bit and its locator bit removes exactly that binding and keeps every invariant |
| `LudoTable.RewriteKeeps` | deps/ludo/ludo_cp_dp.h:409-420 | overwriting a value changes exactly that binding and keeps every invariant |
| `LudoSearch.NoShortcut` | deps/ludo/ludo_cp_dp.h:737-781 | once a bucket with room is reached, no walk of legal moves from a queued bucket to a bucket with room takes fewer moves than their recorded depths differ by |
| `LudoSearch.FirstPathIsSimple` | deps/ludo/ludo_cp_dp.h:737-781 | the first path the search finds visits no bucket twice |
| `LudoSearch.PathIsWalk` | deps/ludo/ludo_cp_dp.h:745-756 | the chain of parent entries is a walk of legal cuckoo moves as long as the recorded depth, from a candidate bucket of the new key to the bucket of the entry |
| `LudoSearch.NoPathMeansNothingInReach` | deps/ludo/ludo_cp_dp.h:737-781 | when the queue runs empty, no walk of at most five buckets from a candidate ends in one with a free slot: the search misses no path |
| `LudoSearch.FoundIsInReach` | deps/ludo/ludo_cp_dp.h:745-756 | a bucket with room that the search comes to ends a walk of at most five buckets from a candidate |
| `LudoSearch.FirstPathIsShortest` | deps/ludo/ludo_cp_dp.h:737-781 | no bucket with room is reached by a shorter walk than the first one the search comes to |
| `LudoSearch.OnlyOnePath` | deps/ludo/ludo_cp_dp.h:722-781 | a table and a key determine the entries queued and the path found |
| `LudoSearch.ExpandsInOrder` | deps/ludo/ludo_cp_dp.h:728-778 | the search starts from the low-half candidate, then the high-half one; every entry above the fifth level queues, from slot (depth + bucket) mod 4 on in cyclic order, what each of its four keys leads to |
| `LudoSearch.ExpandSearching` | deps/ludo/ludo_cp_dp.h:761-778 | expanding an entry keeps the search invariant: queue in order of depth, every entry derived by a legal move, and a budget of at most 682 pushes and 170 visits, below the 1364 queue slots and the 340 visited slots |
| `LudoSearch.RootsWithinBudget` | deps/ludo/ludo_cp_dp.h:728-735 | from the two candidate buckets the search can push at most 682 entries and visit at most 170 |
| `LudoSearch.BudgetAttained` | deps/ludo/ludo_cp_dp.h:737-781 | where every key of a full bucket leads away from it to another full one, the search queues exactly 682 entries and expands exactly the first 170 |
| `LudoSearch.BudgetIsTight` | deps/ludo/ludo_cp_dp.h:737-781 | a valid table of 64 buckets, and a key it does not hold, for which this is so |
| `LudoSearch.PathQueue.PushBack` | deps/ludo/ludo_cp_dp.h:893-896 | appends to the abstract queue; no live entry of the circular buffer is overwritten |
| `LudoSearch.PathQueue.PopFront` | deps/ludo/ludo_cp_dp.h:898-902 | removes and returns the front of the abstract queue |
| `LudoGrowth.DestinationIsFree` | deps/ludo/ludo_cp_dp.h:271-279 | during growth the slot a key is copied to is unoccupied, so nothing is overwritten |
| `LudoGrowth.GrowthFits` | deps/ludo/ludo_cp_dp.h:260-279 | the seed search of a growth never fails: every key of the destination comes from one old bucket, whose seed separates them |
| `LudoGrowth.RelocateSlot` | deps/ludo/ludo_cp_dp.h:271-279 | moving one key to the same slot of its bucket under the wider mask keeps the partially grown table: same map, same locator bits, separated seeds |
| `LudoControlPlane.ChooseSize` | deps/ludo/ludo_cp_dp.h:292-295 | the smallest power of two, at least 64, whose capacity suffices |
| `LudoControlPlane.LoadFactorIsSuitable` | deps/ludo/ludo_cp_dp.h:292-295 | every positive load factor gives a capacity that grows and reaches every target: that share of four keys to a bucket, rounded down |
| `LudoControlPlane.ControlPlane.Locate` | deps/ludo/ludo_cp_dp.h:377-386 | finds a key exactly when it is stored, reading only its two candidate buckets |
| `LudoControlPlane.ControlPlane.LookUp` | deps/ludo/ludo_cp_dp.h:427-437 | returns the value of the abstract map, and not-found exactly for absent keys |
| `LudoControlPlane.ControlPlane.UpdateSeed` | deps/ludo/ludo_cp_dp.h:634-698 | gives the bucket its smallest separating seed and changes nothing else; fails exactly when no seed below 255 separates it |
| `LudoControlPlane.ControlPlane.PutItem` | deps/ludo/ludo_cp_dp.h:579-606 | stores a new key in the hole: the invariant of the whole table holds again and the map gains exactly the new binding; fails exactly when no seed separates the bucket with the new key |
| `LudoControlPlane.ControlPlane.MoveItem` | deps/ludo/ludo_cp_dp.h:608-632 | moves the hole one bucket up the path without changing the map or any bucket but the destination; fails exactly when no seed separates the destination with the moved key |
| `LudoControlPlane.ControlPlane.SearchPath` | deps/ludo/ludo_cp_dp.h:722-781 | finds a bucket with room exactly when one is in reach, none with room being closer, and its first free slot, after at most 682 queued entries |
| `LudoControlPlane.ControlPlane.FollowPath` | deps/ludo/ludo_cp_dp.h:742-760 | shifting every key of the path and storing the new key at its root gives the old map plus the new binding, with every invariant restored; this succeeds exactly when every bucket of the path can be separated with the key it receives |
| `LudoControlPlane.CandidateDecides` | deps/ludo/ludo_cp_dp.h:349-372 | when a candidate has room, the key can be placed exactly if the first one with room can be separated with it |
| `LudoControlPlane.PathDecides` | deps/ludo/ludo_cp_dp.h:722-781 | when neither has room, the key can be placed exactly if the one path that the search finds fits |
| `LudoControlPlane.OutOfReach` | deps/ludo/ludo_cp_dp.h:737-781 | with no free slot in reach both candidates are full and the key cannot be placed |
| `LudoControlPlane.ControlPlane.CuckooInsert` | deps/ludo/ludo_cp_dp.h:722-782 | no path exactly when no walk of at most five buckets from a candidate ends in one with a free slot, and then nothing changes; inserted exactly when the path found can be re-seeded, and then the map is the old map plus (k, v), each key stored once, in the candidate bucket its locator bit names, with collision-free seeds; otherwise the seeds are exhausted |
| `LudoControlPlane.ControlPlane.PowerSize` | deps/ludo/ludo_cp_dp.h:250-284 | growth by a power of two never fails: the map, the locator and all invariants are kept, every key keeps its slot and its bucket modulo the old size |
| `LudoControlPlane.ControlPlane.ResizeCapacity` | deps/ludo/ludo_cp_dp.h:289-307 | grows the table to the smallest size with the wanted capacity, never failing and without changing the map |
| `LudoControlPlane.ControlPlane.Insert` | deps/ludo/ludo_cp_dp.h:332-374 | each outcome exactly when the table before, or the grown one if it is at capacity, calls for it: an update for a stored key, no path when no free slot is in reach, exhausted seeds when the place found cannot be separated, otherwise stored; a stored outcome makes the map the old one with k bound to v |
| `LudoControlPlane.ControlPlane.ChangeValue` | deps/ludo/ludo_cp_dp.h:405-424 | rebinds a stored key and leaves an absent one absent |
| `LudoControlPlane.ControlPlane.Remove` | deps/ludo/ludo_cp_dp.h:388-402 | removes exactly the key |
| `LudoControlPlane.ControlPlane.Run` | deps/ludo/ludo_cp_dp.h:332-424 | after any run of operations the table stands for the map obtained by applying them in order; the run stops only at the insertion of a new key that cannot be placed in a valid table of the map so far, for the reason given: no free slot in reach, or a place that cannot be separated |
| `LudoDataPlane.CompileRow` | deps/ludo/ludo_cp_dp.h:1001-1012 | each stored key's cell is at the slot its hash selects under the bucket's seed, and no cell is written twice |
| `LudoDataPlane.LocationsAreDistinct` | deps/ludo/ludo_cp_dp.h:1071-1093 | two stored keys never get the same (bucket, slot) |
| `LudoDataPlane.RowsAgree` | deps/ludo/ludo_cp_dp.h:987-1014 | for every stored key the cell at `lookup_slot(key)` is the one compiled from that key's value |
| `LudoDataPlane.DataPlane.Lookup` | deps/ludo/ludo_cp_dp.h:1071-1093 | computes bucket and slot from locator bit and seed alone, as the specification function used in every theorem |
| `LudoDataPlane.Compile` | deps/ludo/ludo_cp_dp.h:987-1014 | compiling a valid table gives a data plane with its seeds and cells that agree with its map; a cell of no stored key is empty |
| `LudoDataPlane.RunAndCompile` | deps/ludo/ludo_cp_dp.h:332-374 | the whole design: after any run of inserts, changes and removals, growth included, the cell found without a key comparison decodes to the key's value exactly when that value is below 2^40, and distinct keys have distinct cells; the run stops only at a key that cannot be placed, with the table that shows it |
| `LudoSlots.FieldsOfCombine` | outback/ludo_slot.hh:23-43 | a combined cell decodes to the 7-bit fingerprint, 16-bit length and 40-bit address it was made from |
| `LudoSlots.CombineOfFields` | outback/ludo_slot.hh:23-43 | a cell with the flag set is the combination of its own fields |
| `LudoSlots.CellLayout` | outback/ludo_slot.hh:23-43 | flag in bit 63, fingerprint in bits 56 to 62, length in bits 40 to 55, address in bits 0 to 39, and nothing else in a cell |
| `LudoSlots.CacheBitOnly` | outback/ludo_slot.hh:95-97 | setting the cache bit changes no other field |
| `LudoSlots.BulkCellDecodes` | deps/ludo/ludo_cp_dp.h:1001-1010 | the address of a bulk-loaded cell is the stored value exactly when the value is below 2^40, and then the cell is in use with fingerprint 0 |
| `MemoryNode.CheckSlots` | outback/ludo_slot.hh:67-78 | classifies the slot: empty, same fingerprint, room elsewhere in the row, full row - each exactly when that is so |
| `MemoryNode.ReadBucketAddrs` | outback/ludo_slot.hh:99-107 | the used cells of the row, in slot order |
| `MemoryNode.SearchSeed` | outback/outback_server.hh:143-166 | the smallest seed below 255 that sends the given keys to different slots, or none exactly when no such seed exists |
| `MemoryNode.RewriteRow` | outback/outback_server.hh:159-163 | every cell ends at the slot its key hashes to under the new seed, and every other slot is empty |
| `MemoryNode.ReseedKeeps` | outback/outback_server.hh:129-174 | rewriting a row under a separating seed keeps the placement invariant, makes the new key readable and keeps every other readable key readable with its value |
| `MemoryNode.DuplicateKey` | outback/outback_server.hh:134-170 | a key that already has a record in the row cannot be separated from itself: no seed works for the keys a re-seeding would gather |
| `MemoryNode.ForeignTag` | outback/outback_server.hh:96-170 | a key readable under a foreign fingerprint is never the one the handler overwrites: the handler spills it if the row is full and otherwise tries to re-seed, which cannot work |
| `MemoryNode.Server.BulkLoad` | outback/packed_data.hh:62-72 | appends the record at the next index, or stops exactly when the array is full |
| `MemoryNode.Server.ReadBatchKeys` | outback/packed_data.hh:74-82 | the keys of the records the cells point to, in order |
| `MemoryNode.Server.PutFresh` | outback/outback_server.hh:102-109 | an empty slot: the key becomes readable with its value and every other key stays readable |
| `MemoryNode.Server.PutOverwrite` | outback/outback_server.hh:116-119 | a matching key: its value is replaced and every other key stays readable |
| `MemoryNode.Server.PutReseed` | outback/outback_server.hh:129-174 | re-seeding the row under the smallest seed that separates its keys makes the key readable and keeps all others; the server halts exactly if the array is full or no seed separates them, and then nothing readable changes |
| `MemoryNode.Server.PutSpill` | outback/outback_server.hh:120-126 | nothing readable changes and the pair goes to the overflow cache; the server halts exactly if the array is full |
| `MemoryNode.GatheredKeys` | outback/outback_server.hh:134-166 | a seed separates the keys gathered for a re-seeding exactly if no two used cells of the row, nor one of them and the new key, go to one slot |
| `MemoryNode.OutcomeIsOnCells` | outback/outback_server.hh:90-192 | each outcome read off the cells and records: overwritten exactly if the key's slot carries its fingerprint and its record the key; otherwise the server exits if the array is full, and if not: fresh exactly for an empty slot, spilled with reply 1 exactly if fingerprint agrees and key does not, spilled with reply 3 exactly if the fingerprint differs and the row is full, re-seeded exactly if it has room and some seed below 255 separates it, with the smallest such seed |
| `MemoryNode.NodeIsOnCells` | outback/outback_server.hh:90-192 | the node after a PUT read off cells and records: the record written and where, what goes to the overflow cache, the one cell written or flagged, the rewritten row, and nothing else |
| `MemoryNode.Server.Put` | outback/outback_server.hh:78-195 | each outcome exactly when the cells and records of the row call for it, and the whole new state of the node, both also stated on cells and records; every used cell stays at the slot its key hashes to; stored outcomes make the key readable with its value and keep all others |
| `RemoteClient.OnlyReseedingRepliesCarrySeeds` | outback/outback_client.hh:87-94 | reply 0 for fresh, 1 for overwritten and for a clash, 3 for a full row, 256 plus the seed for re-seeding: bit 8 is set exactly for re-seeding, and the low byte is then the new seed |
| `RemoteClient.RemotePut` | outback/outback_client.hh:62-100 | each outcome exactly when the cells and records of the row call for it, and the new state of the node is that of the handler as a function; after the reply the client's seeds equal the server's, and rows of keys never change |
| `RemoteClient.RemoteGet` | outback/outback_client.hh:26-60 | a GET for a readable key returns its value |
| `RemoteClient.PutAll` | outback/outback_client.hh:62-100 | over any run of PUTs of one client every reply, and the whole state of the node, are those of the handler as a function applied PUT by PUT, and the run ends early exactly at the first PUT that halts the server; client and server stay in step, each key is read back with its last stored value however many others were put, a key never put keeps its value, and a key once stored is overwritten ever after |
| `StartUp.CompiledNode` | benchs/outback/server.cc:128-157 | the compiled table over the loaded records is a valid memory node: each cell in place, no two sharing a record |
| `StartUp.CompiledReads` | benchs/outback/server.cc:128-157 | every loaded key is readable at its location, with its record and fingerprint 0 |
| `StartUp.SetUp` | benchs/outback/server.cc:128-157 | loading the records, inserting key to index and compiling starts client and node in step with every loaded key readable, unless a key cannot be placed in the table of the keys before it, which is given |
| `StartUp.PutLoaded` | outback/outback_server.hh:78-195 | the first PUT of a loaded key: overwritten if its fingerprint is 0; otherwise spilled exactly if its row is full and the array is not, and else the server halts |
| `ResizeMachine.StepShaped` | outback/outback_resize.hh:214-238 | every step of every thread keeps the number of epoch slots, lanes and bulk-loaded entries |
| `ResizeSafety.NextVersionIsSafe` | outback/outback_resize.hh:295-296 | with at least three epoch slots the next version is larger, its slot is not 0 and not the slot of the version it replaces |
| `ResizeSafety.NextVersionIs` | outback/outback_resize.hh:295-296 | the next version is the successor, or the one after it exactly if the successor would take slot 0; a version sits in the slot of its remainder |
| `ResizeSafety.TwoSlotsAreTooFew` | outback/outback_resize.hh:295-296 | with two slots every next version would be written into the slot clients read |
| `ResizeSafety.ControlPreserved` | outback/outback_resize.hh:214-238 | every step keeps the control invariant: the record reached through the current version is published and complete, at most one old region is pending, the current region is never released |
| `ResizeSafety.VersionsIncrease` | outback/outback_resize.hh:389-391 | the current version only ever moves to a larger one in another non-zero slot |
| `ResizeSafety.NoPendingRegionIsForgotten` | outback/outback_resize.hh:397-400 | a pending old region stays pending until it is released |
| `ResizeSafety.FlagPreserved` | outback/outback_resize.hh:636-645 | the blocking flag equals the phase's, except between the two stores of a phase change, where it already has the target's value |
| `ResizeSafety.DeferralPreserved` | outback/outback_resize.hh:146-163 | each deferred queue satisfies enqueued = replayed, first in first out, followed by still queued |
| `ResizeSafety.FlagDefers` | outback/outback_resize.hh:136-143 | a handler defers its mutation exactly if it reads the flag set |
| `ResizeSafety.EnqueueAppends` | outback/outback_resize.hh:146-163 | a deferred mutation goes to the end of the queue of its kind, or is dropped exactly if a million are waiting there |
| `ResizeSafety.DrainReplaysEverything` | outback/outback_resize.hh:483-500 | when the drain gives up its lock, each queue has replayed everything of its kind that arrived so far, in order of arrival |
| `ResizeSafety.EveryRunIsSafe` | outback/outback_resize.hh:206-238 | the control, flag and queue invariants hold in every state of every interleaving |
| `ResizeOrder.BatchKeepsOrder` | outback/outback_resize.hh:483-500 | insertions before deletions is the order of arrival of a batch exactly when no deletion in it arrived before an insertion |
| `ResizeOrder.DrainsKeepOrder` | outback/outback_resize.hh:483-500 | over all drains, everything is replayed in order of arrival exactly when no batch has a deletion before an insertion |
| `ResizeOrder.DrainPreserved` | outback/outback_resize.hh:146-163 | every step keeps this: what has been replayed is, for each drained batch, its insertions then its deletions, and the queues hold what arrived since |
| `ResizeOrder.ReplayKeepsArrivalOrder` | outback/outback_resize.hh:483-500 | in every state of every run with no drain under way, replays have kept the order of arrival exactly if no finished drain found a deletion before an insertion |
| `ResizeRuns.OrderIsBroken` | outback/outback_resize.hh:483-500 | a reachable state in which a re-insertion was replayed before the deletion that arrived first |
| `ResizeRuns.QueuesOutsideDrain` | outback/outback_resize.hh:483-500 | in every state of every run outside the draining phase, everything that arrived was replayed by a finished drain or came after the last one, and the queues are empty exactly if nothing did |
| `ResizeRuns.WaitsExactlyBehindFlag` | outback/outback_resize.hh:146-163 | with the flag clear and empty queues, a mutation can still be left waiting for another resize exactly if a handler that read the flag set is on its way |
| `ResizeRuns.MutationMissesDrain` | outback/outback_resize.hh:483-500 | a reachable state, back in the normal phase after a finished drain, whose deletion is still queued |
| `ResizeRuns.FlagDiffersExactly` | outback/outback_resize.hh:636-645 | the flag differs from the value the phase asks for exactly between the two stores of a change between a blocking and a non-blocking phase |
| `ResizeRuns.FlagBeforePhase` | outback/outback_resize.hh:636-645 | a reachable state in which mutations are blocked in a phase that does not block |
| `ResizeRuns.VersionsNeverDecrease` | outback/outback_resize.hh:389-400 | over any run the current version never decreases, released regions stay released and a pending region stays pending until it is released |
| `ResizeStages.PhaseStores` | outback/outback_resize.hh:636-645 | a change of phase stores the flag, set exactly for copying, switching and draining, then the phase, then the generation |
| `ResizeStages.LaneStage` | outback/outback_resize.hh:380-383 | every lane i restarts at the old number of entries plus i |
| `ResizeStages.DrainStage` | outback/outback_resize.hh:483-500 | a drain that nothing interrupts replays the insertion queue, then the deletion queue, each from the front, and empties both |
| `ResizeStages.WholeResize` | outback/outback_resize.hh:214-238 | a resize that nothing interrupts, for every number of lanes and every content of the queues: the exact state it ends in, back in the normal phase with the flag clear, the next version published and current at twice the capacity, the lanes at the first new entry, the old region released and every deferred mutation replayed |
| `ResizeLanes.FetchKeeps` | outback/outback_client_numa.hh:63-66 | a fetch-and-add hands out an index no other client holds and no grant contains |
| `ResizeLanes.CheckKeeps` | outback/outback_client_numa.hh:67-68 | granting after the bound check keeps all grants distinct and below the bound of the epoch they were checked against |
| `ResizeLanes.ResetKeeps` | outback/outback_resize.hh:380-383 | resetting a lane for the new region cannot bring back an index already granted or held |
| `ResizeLanes.SwitchKeeps` | outback/outback_resize.hh:389-391 | publishing the new version keeps every index in flight apart from every later one |
| `ResizeClients.PickTakesCurrent` | outback/outback_client_numa.hh:62-62 | a resting client picks the current version, and nothing else changes |
| `ResizeClients.FetchTakesFromLane` | outback/outback_client_numa.hh:63-66 | the client gets the next index of the lane with its number modulo the lane count, and that lane advances by the lane count; nothing else changes |
| `ResizeClients.CheckGrants` | outback/outback_client_numa.hh:67-68 | a fetched index is granted exactly if it is below the capacity of the version the client picked; nothing else changes |
| `ResizeClients.GrantsChangeExactly` | outback/outback_client_numa.hh:54-69 | a step adds a grant exactly if it is the check of an index below its bound; no step takes one back |
| `ResizeClients.CheckedIndexIsGranted` | outback/outback_client_numa.hh:54-69 | under every interleaving, an index that reaches its check is granted exactly if it is below its bound, and the grant is there, once, after whatever follows |
| `ResizeClients.LaneIsHandedOut` | outback/outback_client_numa.hh:54-69 | k allocations of a client alone, for every k, grant the indices of its lane, in order and without a gap, until they reach the capacity, and nothing after that |
| `ResizeLanes.NoIndexIsGrantedTwice` | outback/outback_client_numa.hh:54-69 | under every interleaving of allocations and resizes no index is granted twice, none is a bulk-loaded entry and each is below the bound of its epoch |
| `AlexBits.ExtractIsSingle` | drtmr/alex/alex_base.h:163-165 | `value & -value` is the word with only the rightmost one of the value |
| `AlexBits.RemoveBits` | drtmr/alex/alex_base.h:169-171 | `value & (value - 1)` loses exactly the rightmost one |
| `AlexBits.CountOnes` | drtmr/alex/alex_base.h:175-183 | the number of set bits among the 64 |
| `AlexBits.TrailingZeros` | drtmr/alex/alex_base.h:185-196 | the position of the rightmost one, 64 exactly for the zero word |
| `AlexBits.LeadingZeros` | drtmr/alex/alex_base.h:198-209 | the number of clear bits above the leftmost one, 64 exactly for the zero word |
| `AlexBits.GetOffset` | drtmr/alex/alex_base.h:214-216 | the slot number of a single bit of a word |
| `AlexBitmap.NextFilledPosition` | drtmr/alex/alex_nodes.h:1514-1538 | the first filled slot at or after (or strictly after) the position, or the capacity if there is none |
| `AlexBitmap.SlotIterator.Advance` | drtmr/alex/alex_nodes.h:631-643 | one step of the iterator goes to the next filled slot, or to its end when none is left |
| `AlexGaps.BothSides` | drtmr/alex/alex_nodes.h:1949-2010 | one distance of the two-sided word search returns a gap with none nearer, or leaves both words known to be full |
| `AlexGaps.SearchBlock` | drtmr/alex/alex_nodes.h:2038-2073 | the search in a word with a gap and its neighbours returns a gap with none nearer |
| `AlexGaps.ClosestGap` | drtmr/alex/alex_nodes.h:1932-2075 | returns an in-capacity gap at minimal distance from the clamped position, all nearer slots being filled, and -1 exactly when no gap exists |
| `AlexSearch.ExponentialSearchUpperBound` | drtmr/alex/alex_nodes.h:1554-1579 | exactly the first slot greater than the key, from every starting slot and for every key, all probes in bounds |
| `AlexSearch.ExponentialSearchLowerBound` | drtmr/alex/alex_nodes.h:1611-1635 | exactly the first slot not less than the key, from every starting slot and for every key |
| `AlexSearch.BinarySearchUpperBound` | drtmr/alex/alex_nodes.h:1585-1595 | the upper bound within a range known to contain it |
| `AlexSearch.BinarySearchLowerBound` | drtmr/alex/alex_nodes.h:1641-1651 | the lower bound within a range known to contain it |
| `AlexSlots.PlaceKeeps` | drtmr/alex/alex_nodes.h:1879-1894 | filling a gap past the upper bound and overwriting the gaps before it inserts exactly the entry, in order, and keeps every gap equal to the next key |
| `AlexSlots.ShiftRightKeeps` | drtmr/alex/alex_nodes.h:1902-1914 | shifting the filled slots up to the gap and storing at the upper bound inserts exactly the entry, in order, and keeps the gap invariant |
| `AlexSlots.ShiftLeftKeeps` | drtmr/alex/alex_nodes.h:1915-1927 | shifting the filled slots down to the gap does the same |
| `AlexSlots.ClearKeeps` | drtmr/alex/alex_nodes.h:2156-2170 | clearing the run of a key removes exactly its entries, counted, and keeps the gap invariant |
| `AlexSlots.StoredIffBeforeUpperBound` | drtmr/alex/alex_nodes.h:1457-1464 | a key below the sentinel is stored exactly when the slot before its upper bound carries it |
| `AlexSlots.InsertKeepsOrder` | drtmr/alex/alex_nodes.h:1704-1718 | the reference insertion keeps the order and adds exactly one entry |
| `AlexEdits.InsertElementAt` | drtmr/alex/alex_nodes.h:1879-1894 | writes the slot, its bit and the keys of the gaps before it, and nothing else |
| `AlexEdits.InsertUsingShifts` | drtmr/alex/alex_nodes.h:1898-1927 | inserts the entry in order by shifting towards the closest gap |
| `AlexEdits.EraseRun` | drtmr/alex/alex_nodes.h:2156-2170 | removes and counts exactly the entries with the key |
| `AlexEdits.EraseSlot` | drtmr/alex/alex_nodes.h:2123-2138 | removes exactly the entry of the slot |
| `AlexPlacement.AtPrediction` | drtmr/alex/alex_nodes.h:1181-1217 | an entry is exactly where the model wants it unless the entry before has that slot or a later one, or those after it would have no room |
| `AlexPlacement.MarksAre` | drtmr/alex/alex_nodes.h:1181-1217 | after a rebuild a slot is filled exactly if it is that of some entry |
| `AlexPlacement.EntryInItsSlot` | drtmr/alex/alex_nodes.h:1181-1217 | in a node so filled the slot of entry i holds entry i |
| `AlexRebuild.StoreKeeps` | drtmr/alex/alex_nodes.h:1205-1216 | placing the next entry behind gaps that carry its key keeps the partial node right |
| `AlexRebuild.FinishBuilding` | drtmr/alex/alex_nodes.h:1223-1225 | sentinels after the last entry complete the gap invariant with exactly the placed entries |
| `AlexRebuild.SpreadValues` | drtmr/alex/alex_nodes.h:1179-1225 | for every predictor the placement yields exactly the given entries, in order, each in the slot the predictor wants as far as order and room allow |
| `AlexRebuild.SpreadSlots` | drtmr/alex/alex_nodes.h:1782-1840 | the same for the entries of a range read through the iterator of an existing node |
| `AlexNode.DataNode.BulkLoad` | drtmr/alex/alex_nodes.h:1155-1232 | the node holds exactly the loaded entries, for every model, in the floor of 10n/7 slots or in n + 1 if that is more, each entry in its slot |
| `AlexNode.CapacitiesAre` | drtmr/alex/alex_nodes.h:1136-1139 | a node for n keys has the floor of 10n/7 slots when loaded, of 10n/6 when made from another or expanded, of 10n/8 when contracted, or n + 1 if that is more |
| `AlexNode.FullFrom` | drtmr/alex/alex_nodes.h:1227-1229 | a node of c slots loaded with n keys is full from the first count that is at least 8 tenths of c and above n, or from c if that comes first; it contracts below 6 tenths |
| `AlexNode.DataNode.BulkLoadFromExisting` | drtmr/alex/alex_nodes.h:1239-1338 | the node holds exactly the entries of the range of the other node, for every model, in the floor of 10n/6 slots or in n + 1 if that is more, each entry in its slot |
| `AlexNode.DataNode.Resize` | drtmr/alex/alex_nodes.h:1735-1865 | same entries, each in its slot under the retrained model, the capacity the density asks for, and room for at least one more key |
| `AlexNode.DataNode.FindKey` | drtmr/alex/alex_nodes.h:1453-1465 | the last slot with the key, which is a real slot, found exactly when the key is stored; the sentinel is found exactly when the last slot is a gap |
| `AlexNode.SentinelIsFound` | drtmr/alex/alex_nodes.h:1453-1465 | an empty node answers a search for the sentinel with a gap |
| `AlexNode.DataNode.FindLower` | drtmr/alex/alex_nodes.h:1470-1476 | the first entry not below the key, or the end |
| `AlexNode.DataNode.FindUpper` | drtmr/alex/alex_nodes.h:1481-1487 | the first entry above the key, or the end |
| `AlexNode.DataNode.FindInsertPosition` | drtmr/alex/alex_nodes.h:1494-1508 | the upper bound, and a slot that is the upper bound or a gap reachable from it through gaps only, as close to the prediction as those gaps allow |
| `AlexNode.DataNode.Insert` | drtmr/alex/alex_nodes.h:1680-1732 | the entry is inserted in order, or nothing changes; -1 exactly for a duplicate that is not allowed in a node that does not refuse; the refusals 1, 2 and 3 are given exactly for cost deviation, catastrophic cost and a node at its maximum; full means at least 8 tenths of the slots and more keys than were loaded, or every slot; an accepted insertion into a full node expands it to the floor of 10n/6 slots or n + 1 |
| `AlexNode.DataNode.Erase` | drtmr/alex/alex_nodes.h:2151-2179 | removes exactly the entries with the key and returns their number; a node left with entries in fewer than 6 tenths of its slots contracts to the floor of 10n/8 slots or n + 1 |
| `AlexNode.DataNode.EraseOneAt` | drtmr/alex/alex_nodes.h:2123-2146 | removes exactly the entry of the slot |
| `AlexNode.DataNode.EraseOne` | drtmr/alex/alex_nodes.h:2110-2120 | removes the left-most entry with the key, and says whether there was one |
| `AlexNode.TwinRuns` | drtmr/alex/alex_nodes.h:1445-1449 | two nodes with the same entries given the same requests keep the same entries, whatever their models, capacities and cost estimates, as long as neither refuses a request the other accepts |
| `AlexNode.Run` | drtmr/alex/alex_nodes.h:1680-1732 | after any run the node holds what an ordered list would hold after the operations done, in order; the run stops early exactly at an insertion the node refuses |
| `AlexValidate.BitmapCountsEntries` | drtmr/alex/alex_nodes.h:2289-2293 | the population of the bitmap is the number of entries |
| `AlexValidate.ValidateStructure` | drtmr/alex/alex_nodes.h:2252-2301 | the answer is true exactly for nodes with a valid cost whose neighbouring slots, last slot and bitmap population pass the test |
| `AlexValidate.AcceptsExactly` | drtmr/alex/alex_nodes.h:2252-2301 | a node meets the invariant with the right count exactly if it is accepted and no entry has the sentinel as its key; an accepted node violates it exactly if a slot before the last holds such an entry |
| `AlexValidate.SentinelEntryGoesUnnoticed` | drtmr/alex/alex_nodes.h:2259-2288 | an accepted node with an entry under the sentinel, for which the invariant fails |
| `BTreeShape.MergeKeeps` | drtmr/btree/btree.h:1590-1619 | merging two neighbours keeps links, positions, depth, intervals and order, and every key |
| `BTreeSplit.SplitKeeps` | drtmr/btree/btree.h:1549-1587 | splitting a node keeps links, positions, depth, intervals and order, and every key |
| `BTreeMoves.RebalanceKeeps` | drtmr/btree/btree.h:1457-1546 | redistributing the keys of two neighbours keeps links, positions, depth, intervals and order, and every key |
| `BTreeRoot.RaiseKeeps` | drtmr/btree/btree.h:2055-2061 | a new root above a leaf root keeps the tree |
| `BTreeRoot.PushKeeps` | drtmr/btree/btree.h:2062-2071 | handing the contents of an internal root to a new node below it keeps the tree |
| `BTreeRoot.LowerKeeps` | drtmr/btree/btree.h:2171-2175 | a leaf that is the only child of an empty root may become the root |
| `BTreeRoot.PullKeeps` | drtmr/btree/btree.h:2176-2181 | an empty root may take over the contents of its only, internal, child |
| `BTreeLeaf.InsertKeeps` | drtmr/btree/btree.h:1420-1436 | a new key between its neighbours in a leaf keeps the tree and adds exactly that key |
| `BTreeLeaf.RemoveKeeps` | drtmr/btree/btree.h:1439-1454 | removing a value of a leaf keeps the tree and removes exactly that key |
| `BTreeLeaf.ReplaceKeeps` | drtmr/btree/btree.h:1863-1877 | replacing a key of an internal node by its predecessor, which leaves its leaf, keeps the tree and removes exactly that key |
| `BTreeHang.MergeThird` | drtmr/btree/btree.h:1605-1618 | the loops of `merge` over children and positions produce exactly the merged nodes |
| `BTreeHang.SplitThird` | drtmr/btree/btree.h:1566-1586 | the loops of `split` produce exactly the split nodes |
| `BTreeHang.RightMoves` | drtmr/btree/btree.h:1469-1500 | the loops of `rebalance_right_to_left` redistribute exactly as stated |
| `BTreeHang.LeftMoves` | drtmr/btree/btree.h:1511-1545 | the loops of `rebalance_left_to_right` redistribute exactly as stated |
| `BTreeSteps.MoveTravels` | drtmr/btree/btree.h:2006-2014 | the adjusted insert position still lies between the same keys and above the same child, and no lower node has changed |
| `BTreeSteps.SplitTravels` | drtmr/btree/btree.h:2087-2090 | the same for the position adjusted after a split |
| `BTreeSteps.MergeTravels` | drtmr/btree/btree.h:2111-2123 | the same for the position of an erasing iterator adjusted after a merge |
| `BTreeErase.EndDescent` | drtmr/btree/btree.h:1866-1868 | the leaf reached by decrementing the iterator holds the predecessor of the key |
| `BTreeSearch.FoundAtLeaf` | drtmr/btree/btree.h:2235-2246 | after the descent the key is stored exactly if it is the next key at or after the position |
| `BTreeSearch.NothingBetween` | drtmr/btree/btree.h:1663-1683 | no stored key lies strictly between the values around a leaf position, whatever nodes they are in |
| `BTreeOrder.InOrderSorted` | drtmr/btree/btree.h:2364-2390 | the in-order sequence of every node is strictly increasing and inside the bounds its ancestors set |
| `BTreeOrder.AllListed` | drtmr/btree/btree.h:2364-2390 | the in-order sequence of the root lists exactly the stored keys |
| `BTreeOrder.LeavesAtEqualDepth` | drtmr/btree/btree.h:1143-1158 | counted in parent links, every leaf is equally far from the root, and only leaves are that far |
| `BTree.BTree.SetChildren` | drtmr/btree/btree.h:574-578 | a loop of `set_child` or `set_position` moves exactly the given children |
| `BTree.BTree.MergeNodes` | drtmr/btree/btree.h:1590-1619 | performs the merge in place, keeping the tree and its keys |
| `BTree.BTree.SplitNode` | drtmr/btree/btree.h:1549-1587 | performs the split in place, keeping the tree and its keys |
| `BTree.BTree.RebalanceRightToLeft` | drtmr/btree/btree.h:1457-1501 | moves keys to the left neighbour in place, keeping the tree and its keys |
| `BTree.BTree.RebalanceLeftToRight` | drtmr/btree/btree.h:1504-1546 | moves keys to the right neighbour in place, keeping the tree and its keys |
| `BTree.BTree.RebalanceOrSplit` | drtmr/btree/btree.h:1985-2091 | through any cascade of rebalances, splits and a growing root: room at the returned node, same keys, same place between the same keys, and no other node left empty; no node is added exactly if the left or the right neighbour can take keys, half of its free room or all of it for an insertion at the far end, and still has room for the new key if that comes to lie in it |
| `BTree.BTree.SplitFor` | drtmr/btree/btree.h:1549-1587 | the node split keeps none of its keys for an insertion before the first, all but one for one behind the last, and the lower half less the key moved up otherwise; keys and place are kept, and the node returned has room |
| `BTree.BTree.Locate` | drtmr/btree/btree.h:2235-2246 | the leaf position where the key belongs; the key is stored exactly if it is the next one from there |
| `BTree.BTree.InternalLast` | drtmr/btree/btree.h:2186-2195 | the next value at or after a position, or the end of the tree |
| `BTree.BTree.InternalInsert` | drtmr/btree/btree.h:2199-2226 | adds exactly the key, restores the structure and the stored size, and returns its place |
| `BTree.BTree.InsertUnique` | drtmr/btree/btree.h:1742-1761 | inserts exactly when the key is absent; the in-order sequence becomes the old one with the key at its sorted place; structure and size are restored, and the iterator returned is where the key is |
| `BTree.BTree.TryMergeOrRebalance` | drtmr/btree/btree.h:2107-2156 | merges exactly if one node can hold the keys of the node and of a neighbour with the key between; otherwise the node ends with half of what the right neighbour has more, if that has over half a node, unless the key erased was the first of several, or else of the left one, unless it was the last; afterwards only a parent that lost a value may be empty; the erasing iterator still lies between the same keys |
| `BTree.BTree.TryShrink` | drtmr/btree/btree.h:2159-2183 | an empty root disappears without losing a key; the empty tree results exactly from the last key |
| `BTree.BTree.EraseAt` | drtmr/btree/btree.h:1861-1920 | removes exactly the key at the position, restores equal leaf depth, no empty node, links and size, and returns the iterator to the next key, through any cascade of merges, or the end exactly if there is none |
| `BTree.BTree.Increment` | drtmr/btree/btree.h:1663-1683 | goes to the next key in order, from leaves and internal nodes, or to the end exactly after the last key |
| `BTree.BTree.Walk` | drtmr/btree/btree.h:777-782 | iterating from begin to end visits exactly the stored keys, in order |
| `BTree.BTree.Erase` | drtmr/btree/btree.h:1932-1940 | removes exactly the key if it is there; the in-order sequence is the old one without it |
| `BTree.BTree.Size` | drtmr/btree/btree.h:1135-1139 | the number of keys |
| `BTree.BTree.InternalVerify` | drtmr/btree/btree.h:2364-2390 | on any arena without cycles: true exactly for the accepted trees, whose values it counts |
| `BTree.BTree.Verify` | drtmr/btree/btree.h:1970-1981 | a valid tree passes its own test of its nodes, its stored size and its first and last leaf |
| `BTreeVerify.AcceptsExactly` | drtmr/btree/btree.h:2364-2390 | the test accepts exactly the trees whose nodes are linked and have a right size and whose values, listed from left to right, never decrease between the bounds |
| `BTreeVerify.ValidIsAccepted` | drtmr/btree/btree.h:2364-2390 | every node of a valid tree is accepted |
| `BTreeVerify.EqualNeighboursPass` | drtmr/btree/btree.h:2364-2390 | an accepted leaf with a key twice, which no valid tree has |
| `BTreeVerify.UnequalDepthsPass` | drtmr/btree/btree.h:2364-2390 | an accepted tree with leaves at different depths, which no valid tree has |
| `BTree.Run` | drtmr/btree/btree.h:1742-1761 | after any run of insertions and erasures the tree is intact, holds what a sorted list would hold, and its size counts it |
| `ClusterHash.RecordsAreDisjoint` | drtmr/clusterhash.h:125-133 | headers and data records are disjoint and inside the arena |
| `ClusterHash.SlotTaken` | drtmr/clusterhash.h:146-157 | the first free slot of the last header takes the record; chains, indices and insertion order stay right |
| `ClusterHash.HeaderTaken` | drtmr/clusterhash.h:158-172 | a new header at the end of the chain takes the record; next indices strictly increase, chains share no header |
| `ClusterHash.ChainsShareNoHeader` | drtmr/clusterhash.h:143-145 | next indices strictly increase along a chain, lead only to overflow headers, and no header follows two others |
| `ClusterHash.ClusterTable.Find` | drtmr/clusterhash.h:199-215 | the walk finds the first record inserted with the key, and nothing exactly when there is none |
| `ClusterHash.ClusterTable.Insert` | drtmr/clusterhash.h:135-173 | appends the record, or refuses exactly when the data records are used up, or the chain is full and the overflow headers are |
| `ClusterHash.ClusterTable.Update` | drtmr/clusterhash.h:175-197 | overwrites the first eight bytes of the record `Get` yields and nothing else |
| `ClusterHash.ClusterTable.Get` | drtmr/clusterhash.h:199-216 | null exactly for keys never inserted, otherwise the value of the first record inserted |
| `ClusterHash.LookAfterInsert` | drtmr/clusterhash.h:135-173 | a second insertion of a key is never seen by `Get` |
| `ClusterHash.LookAfterUpdate` | drtmr/clusterhash.h:175-197 | an update is seen by every `Get` of its key and by no other |
| `ClusterHash.LookSeesOwnKey` | drtmr/clusterhash.h:135-216 | after any run of insertions and updates, a look-up gives what the operations on that key alone leave: the first insertion, with the head of its latest update |
| `ClusterHash.Run` | drtmr/clusterhash.h:135-197 | over any run of insertions and updates the table holds what a list would, every key is seen through its own operations alone, and the run stops exactly at an insertion without room |
| `DisjointSets.SameClassIffConnected` | deps/ludo/tables/disjointset.h:34-36 | two elements have the same root exactly when merged pairs connect them |
| `DisjointSets.DisjointSet.Representative` | deps/ludo/tables/disjointset.h:20-28 | terminates on every reachable state, returns the root of the class, and compression changes no class |
| `DisjointSets.DisjointSet.Merge` | deps/ludo/tables/disjointset.h:30-32 | joins exactly the two classes |
| `DisjointSets.DisjointSet.SameSet` | deps/ludo/tables/disjointset.h:34-36 | true exactly when a chain of merged pairs leads from one element to the other |
| `DisjointSets.DisjointSet.Resize` | deps/ludo/tables/disjointset.h:48-50 | new elements are alone, old classes unchanged |
| `DisjointSets.DisjointSet.Reset` | deps/ludo/tables/disjointset.h:43-45 | every element is alone again |
| `FanoutTree.FuseKeepsTiling` | drtmr/alex/alex_fanout_tree.h:69-96 | replacing two used siblings by their parent keeps the used nodes an exact tiling |
| `FanoutTree.MergeNodesUpwards` | drtmr/alex/alex_fanout_tree.h:63-104 | level by level from the start level, a pair of used siblings fuses exactly if the parent has no keys or the weighted cost of the two plus the node weight is at least the parent's cost, and the climb stops after the first level without a fusion; the cost falls by the sum of the savings; the used nodes still tile the positions of the start level exactly |
| `FanoutTree.CollectUsed` | drtmr/alex/alex_fanout_tree.h:38-49 | lists exactly the used nodes, each once |
| `FanoutTree.SortedTilingIsConsecutive` | drtmr/alex/alex_fanout_tree.h:50-55 | sorted by position, the used nodes follow each other without gap or overlap from the first to the last position |
| `FanoutTree.BestFanout` | drtmr/alex/alex_fanout_tree.h:222-230 | the list holds exactly the nodes that these fusions of the chosen level leave used, each once, consecutive by position, and the cost returned is theirs |
| `FanoutTree.FillChildren` | drtmr/alex/alex.h:1749-1791 | the child-pointer loop writes each slot of its range once, completely and with the node that owns the position, and nothing outside |

## Left out

- LudoControlPlane.ControlPlane.CuckooInsert: a failed search is the outcome `NoPath`, an exception of the seed search the outcome `SeedExhausted`; the rehash with a new hash seed (deps/ludo/ludo_cp_dp.h:783-843) is not modelled, because its nested rebuilds overwrite the saved buckets and count keys twice.
- LudoControlPlane.ControlPlane.Insert: the online mode and the path entries sent to data planes are not modelled.
- LudoControlPlane.ControlPlane.ResizeCapacity: states enlargement only, the one case `insert` reaches; shrinking rebuilds the table.
- LudoControlPlane.ChooseSize: the floating-point load factor is an arbitrary monotone, unbounded capacity function; every positive real load factor gives one (`LoadFactorIsSuitable`).
- LudoDataPlane.DataPlane.Lookup: does not model the version check against concurrent updates of the lock bytes.
- StartUp.SetUp: the records are loaded before the table is filled, and the client's locator and seeds are compiled from the server's table; the source builds a second table from the same keys on the client (benchs/outback/client.cc:55-79).
- MemoryNode.Server.Put: one request at a time; the row lock, and two rows racing on the record counter, are not modelled, and the overflow cache is a list without eviction.
- ResizeLanes.NoIndexIsGrantedTwice: assumes that the epoch slot a client has picked is not recycled before its bound check, sixteen versions later.
- ResizeSafety.ControlPreserved: thresholds, timers, acknowledgements and region creation are arbitrary choices of the environment; the contents copied between regions are not modelled.
- AlexBitmap.NextFilledPosition: requires the position to fall into a word of the bitmap; the capacity itself does not when it is a multiple of 64, and what the source then reads is undefined.
- AlexNode.DataNode.FindLower: requires a bound inside the bitmap for the same reason.
- AlexNode.DataNode.FindUpper: requires a bound inside the bitmap for the same reason.
- AlexNode.DataNode.EraseOne: requires a bound inside the bitmap for the same reason.
- AlexNode.DataNode.Insert: the two cost tests are arbitrary booleans and the retrained model an arbitrary function; statistics that only feed them are dropped.
- AlexNode.DataNode.BulkLoadFromExisting: always counts the keys of the range; a precomputed count is assumed to be that number.
- BTree.BTree.InsertUnique: values are their keys; a mapped value travels with its key and is not modelled, nor are `insert_multi`, hinted insertion and comparison objects.
- BTree.BTree.SetChildren: children are moved one at a time as in the source, while the values of a node move as one slice; the fixed arrays behind them, and the constructors and destructors of values, are not modelled.
- ClusterHash.ClusterTable.Insert: the per-bucket mutexes and concurrent insertions are not modelled; the two failures that abort the program are the outcome `false`, at which a run stops.
- FanoutTree.MergeNodesUpwards: costs are real numbers; rounding of their sums is not modelled.
- FanoutTree.CollectUsed: the library sort is replaced by an insertion sort with the same contract (`SortByStart`).
- Othello, the structure behind the locator, is a map from key to bit with insert, toggle and remove.
- Hash functions are arbitrary; fingerprints are an arbitrary function of the key.
- Machine integers are unbounded except where a width matters: 64-bit words of the ALEX bitmap, 40-bit addresses, 8-bit seeds, 64-bit B-tree keys.
- Transport, remote procedure calls, coroutines, shared memory, memory ordering, benchmarks and logging.
- The NUMA put, search and remove paths, the LRU cache, the MICA log, the RACE table, the Rolex stubs, spin locks and transactional memory.
- ALEX model nodes, cost models, sampling and regression, `erase_range` and key-range statistics: they add no harder invariant.
