# Verified core of the world engine

A Dafny model of the parts of the engine whose correctness is not visible in any one function:

* **The entity command buffer** (`cardinal/gamestate`): a write-back buffer over a key-value store that keeps, for every
  entity, its archetype, the archetype's list of entities, cached component values, a delete set and the origin of moved
  entities, and turns all of it into one atomic batch at the end of a tick. The main theorem,
  `Refinement.BufferRefinesPlainMap`, says that over every run of calls, commits, discards and restarts it answers like a
  plain map from entities to component values.
* **The tick loop and recovery**: the crash-safety of `doTick`, the path of transactions from the pool through the
  sequencer's queue to the chain, and the replay of the chain into a world.
* **Supporting protocols**: the task scheduler, the search algebra and its cache, read-only readers, the nonce window,
  the claiming of beta keys, the receipt ring buffer and the persona index.

Modules follow the program. `Storage`, `Buffer`, `Coherence`, `Commit`, `Views`, `Calls`, `Refinement`, `Hazards` and
`Allocation` treat the command buffer on values; `CommandBuffer` is the object itself, each method proved equal to the
function of the same call. `ReadOnly` is the committed-state reader, `Sequencer`, `Ticks`, `Recovery`, `Delivery` and
`Engine` the tick and recovery protocol, and `Tasks`, `Search`, `Nonce`, `Allowlist`, `Receipts` and `Persona` one
component each. `Base` and `Order` hold facts about sequences and orders. `dafny verify dfyconfig.toml` checks everything.

## How the command buffer proof is built

`Coherence.Inv` is the invariant over buffer and storage: the two indexes are exact inverses, archetype ids are 0..n-1
with distinct sorted component sets, cached values belong to live components, stored values of dead ones are in the
delete set. `Views.View` is the meaning of a buffer over storage: a map from entities to component values, the next id and
the tick; `Views.Saved` is the meaning of storage alone. `Calls` proves for every call what it does to `View`,
`Commit.PipeCommits` that the batch has one effect whatever order Go iterates its maps in, and `Views` that committing
makes `Saved` equal to what `View` was. `Refinement` puts these together.

## Where the code departs from the plain map

`Refinement.Allowed` lists the conditions under which the refinement holds, in terms of what the caller did before. They
are exact: a call simulates the plain model if and only if it is allowed (`Hazards.StepExact`), and a run does so at every
step if and only if every call in it is (`Hazards.RunExact`). The conditions and what breaks without them:

* An entity that is committed must not be used again in the tick that removed it: the lookup falls back to storage and
  finds it (`Hazards.LookupAfterRemoval`). If the tick is then committed, storage keeps the entity's archetype key while
  no active list holds it (`Hazards.CommitAfterLookup`).
* A component that was removed and added back must be set before it is read: a read ignores the delete set and returns
  the old stored value (`Hazards.ReadAfterReadd`).
* `DiscardPending` restores the committed state only if no stored value that differs from zero is in the delete set,
  which it does not clear, so that the next commit deletes it (`Hazards.CommitAfterDiscard`). The package documentation
  says that discarding restores the stored state; the model follows the code.
* Components must be registered: with an unregistered one, the archetype table becomes one that, once committed, no
  restart loads.

`Hazards.HazardReached` reaches, from an empty store, a state from which the first three go wrong.

Elsewhere in the code, with the exact condition and an input that fails:

* Readers that have not refreshed yet share the buffer's archetype table. `GetArchIDForComponents` and
  `GetComponentTypesForArchID` give out uncommitted archetypes exactly for pending ones (`ReadOnly.ArchIdLeaks`,
  `ReadOnly.ArchCompsLeak`), after a single creation on an empty store (`ReadOnly.LeakReached`). All other reads are fixed
  along any run without a commit (`ReadOnly.ReadsFixed`).
* The chain's store overwrites an epoch, so it holds all of an epoch's transactions exactly when a single flush carried
  them (`Sequencer.ChainCompleteIffOneFlush`; `Sequencer.SplitFlushLoses` is a run that loses part of one).
* A finalized tick is never handed to the chain exactly when a crash falls between its commit and its submission
  (`Ticks.LostExactly`; `Ticks.TickLost` is such a run). The chain then publishes the world's ticks if and only if no lost
  tick had transactions (`Delivery.LostTicksBreakTheChain`, `Delivery.LostTickUnpublished`).
* A search cache is a fresh scan exactly when the archetypes it has counted still match as before, which a discard can
  break (`Search.CacheExact`, `Search.DiscardStalesCache`). An `And` of nothing selects nothing: every search computes
  what it means with each empty `And` replaced by an empty `Or` (`Search.ComputesPatched`, `Search.EmptyAnd`).
* A polling client has every tick's receipts exactly when no read met a tick with receipts between the two counter
  increments of `doTick`, or a whole window late (`Receipts.PollingExact`, `Receipts.MissesExactly`;
  `Receipts.GapPollLoses` is a run that loses some).
* The receipt history counts the ticks of a recovery from zero and is then set to the world's tick. Receipts are found
  under their own ticks exactly when its slots agree under the shift (`Receipts.SetTickExact`), which comes down to the
  ring's size dividing the tick the world started at (`Receipts.RecoveredReceiptsExact`; `Receipts.SetTickMisfiles` is a
  recovery after which tick 1 shows what tick 2 recorded).
* Generated beta keys keep users and keys in correspondence exactly when they do not collide with a used key
  (`Allowlist.GenerateExact`).

`cardinal/gamestate/doc.go` also speaks of start-tick and end-tick keys; the code keeps one last-finalized-tick key, and
so does the model.

## Model

| member | source | states |
|---|---|---|
| `Refinement.BufferRefinesPlainMap` | cardinal/gamestate/ecb.go:89-368 | From an empty store, every run of allowed creates, removals, reads, writes, component additions and removals, commits, discards and restarts gives exactly the answers of a plain map entity → component → value, errors included; current and committed meaning equal the map's, and the full invariant (inverse indexes, archetype table, values) holds in the state reached. |
| `Refinement.RunRefines` | cardinal/gamestate/ecb.go:89-368 | The same from any refining state, by induction over the run. |
| `Refinement.StepRefines` | cardinal/gamestate/ecb.go:89-368 | Any one allowed call keeps the refinement and answers like the plain model; a failing call leaves the model as it was. |
| `Refinement.FinalizeRefines` | cardinal/gamestate/tick.go:37-69 | A commit from any refining state succeeds and makes the committed world the current one with the tick advanced by one. |
| `Refinement.DiscardRefines` | cardinal/gamestate/ecb.go:89-126 | A discard, when no removed component has a stored value other than zero, returns the current world to the committed one. |
| `Refinement.RestartLoads` | cardinal/gamestate/redis.go:290-304 | Registration on a new buffer succeeds if and only if every stored component type is registered, and then the buffer means exactly what storage holds and satisfies the invariant. |
| `Refinement.RegisterExact` | cardinal/gamestate/redis.go:290-304 | On any buffer, registration is refused exactly for a stored component that is not registered and, otherwise, for a buffer that already has archetypes; it changes only the registry and, on success over a stored table, the archetypes. |
| `Refinement.RestartRefines` | cardinal/gamestate/ecb.go:76-86 | A restart of a refining system with the same registration goes back to the committed world and keeps the refinement. |
| `Hazards.StepExact` | cardinal/gamestate/ecb.go:89-368 | From every refining state a call simulates the plain model if and only if it is allowed, and a call on an entity gives the plain answer if and only if the entity has not vanished and, for a read, the component is not stale: both decided by the caller's own past calls. |
| `Hazards.RunExact` | cardinal/gamestate/ecb.go:89-368 | A run simulates the plain model at every step if and only if every call in it is allowed when it is made. |
| `Hazards.VanishedAnswers` | cardinal/gamestate/ecb.go:129-357 | What every call answers for a committed entity that is gone: lookups, reads and writes as with its committed components and values; removing it, adding to it or taking from it fails at its active list. |
| `Hazards.NotFoundWhenGone` | cardinal/gamestate/ecb.go:446-466 | A lookup answers like the plain map if and only if the entity is not a committed one removed since the last commit. |
| `Hazards.RemovalMakesGone` | cardinal/gamestate/ecb.go:129-175 | After a committed entity is removed, it is absent from the map and still found by lookups. |
| `Hazards.DiscardExact` | cardinal/gamestate/ecb.go:89-126 | A discard restores the committed meaning if and only if no stored value other than zero is in the delete set. |
| `Hazards.DiscardReads` | cardinal/gamestate/ecb.go:89-126 | After any discard, reads of values, component types and active lists return what a buffer freshly loaded from storage returns. |
| `Hazards.LookupAfterRemoval` | cardinal/gamestate/ecb.go:446-466 | From every state with a committed entity, remove-then-look-up succeeds where the map has nothing. |
| `Hazards.CommitAfterLookup` | cardinal/gamestate/redis.go:196-228 | From every state with a committed entity, remove, look up and commit leaves storage with the entity's archetype key and no list that holds it: incoherent storage. |
| `Hazards.ReadAfterReadd` | cardinal/gamestate/ecb.go:241-357 | From every state with a committed component value other than zero, drop, add back and read returns something other than the map's zero. |
| `Hazards.CommitAfterDiscard` | cardinal/gamestate/ecb.go:89-126 | From every such state, drop, discard and commit changes committed data although nothing but the delete set was pending. |
| `Hazards.HazardReached` | cardinal/gamestate/ecb.go:187-238 | Create, set and commit on an empty store reaches such a state. |
| `Calls.TypesMeans` | cardinal/gamestate/ecb.go:361-373 | Looking up component types returns exactly the entity's component set, or not-found, and changes no meaning. |
| `Calls.SetMeans` | cardinal/gamestate/ecb.go:224-238 | Setting a component changes exactly that value in the map, fails exactly for a missing entity or component, and a failure changes nothing. |
| `Calls.GetMeans` | cardinal/gamestate/ecb.go:241-278 | A read returns the map's value if and only if the component is not one removed since the commit, added back and not set, with a stored value other than zero; errors as in the map. |
| `Calls.CreateMeans` | cardinal/gamestate/ecb.go:187-221 | Creating n entities returns the next n ids and adds exactly those entities with zero values; an empty or repeated component list is refused without a change. |
| `Calls.RemoveMeans` | cardinal/gamestate/ecb.go:129-175 | Removal takes exactly that entity out of the map, marks exactly its components for deletion and drops their cached values. |
| `Calls.AddCompMeans` | cardinal/gamestate/ecb.go:293-315 | Adding a component gives the entity that component at its zero value and leaves every other value and entity alone; errors as in the map. |
| `Calls.RemoveCompMeans` | cardinal/gamestate/ecb.go:319-357 | Removing a component takes exactly it out; missing and last components are refused without a change. |
| `Coherence.CacheArchKeeps` | cardinal/gamestate/ecb.go:446-466 | Caching an entity's archetype keeps the invariant and every entity's place, unless the entity was removed. |
| `Coherence.LoadActiveKeeps` | cardinal/gamestate/ecb.go:518-550 | Lazily loading an active list keeps the invariant and every entity's place. |
| `Coherence.MakeArchKeeps` | cardinal/gamestate/ecb.go:496-515 | Making an archetype keeps ids 0..n-1 with distinct sorted sets, the inverse indexes and every entity's place. |
| `Coherence.SpawnKeeps` | cardinal/gamestate/ecb.go:187-221 | Creating an entity uses an id in use nowhere, puts it in one archetype, and keeps the invariant and every other entity's place. |
| `Coherence.SpawnManyKeeps` | cardinal/gamestate/ecb.go:187-221 | The creation loop keeps the invariant and advances the counter by exactly the number created. |
| `Coherence.DropMoves` | cardinal/gamestate/ecb.go:129-175 | Removing an entity unplaces exactly it and keeps origins consistent with storage. |
| `Coherence.DropKeepsIdx` | cardinal/gamestate/ecb.go:129-175 | Removal keeps the two indexes exact inverses, each id at most once per list. |
| `Coherence.MoveKeeps` | cardinal/gamestate/ecb.go:560-595 | A move between archetypes succeeds, re-places exactly one entity, keeps the indexes inverse and marks both lists modified. |
| `Buffer.SwapRemoveExact` | cardinal/gamestate/active.go:17-36 | Swap-removal takes out exactly one id and keeps every other, each once. |
| `Buffer.Normalize` | cardinal/gamestate/component.go:20-33 | A component list normalises if and only if it is non-empty and duplicate-free, to the strictly increasing list of the same components. |
| `Commit.PipeCommits` | cardinal/gamestate/redis.go:150-346 | Executing the batch leaves the same storage for every iteration order of the four pending maps: deletions before sets, counter, table, changed homes and modified lists only. |
| `Commit.PipeFrame` | cardinal/gamestate/redis.go:150-346 | The batch touches only what changed: other values, archetype keys and lists, and with nothing new the counter and the table, stay as they are, absent keys included. |
| `Commit.MoveCmdsExec` | cardinal/gamestate/redis.go:196-228 | The entity step, which writes nothing for an entity back at its origin, leaves exactly the new homes in storage. |
| `Views.CommitSavesView` | cardinal/gamestate/tick.go:37-69 | What the buffer meant before the commit is what storage alone means after it, one tick later. |
| `Views.CommitKeepsDb` | cardinal/gamestate/redis.go:150-346 | A commit leaves coherent storage: every committed archetype has a list, lists and homes are inverse, every value belongs to a live component. |
| `Views.FinalizeCommits` | cardinal/gamestate/tick.go:37-69 | The commit succeeds on an encodable buffer and leaves a coherent buffer whose meaning equals storage. |
| `Views.FinalizeRefused` | cardinal/gamestate/redis.go:242-287 | A commit is refused exactly without a registry or with a cached value of an unregistered component; storage and the buffer stay, but for the delete set, which is lost in the second case. |
| `Views.DiscardIsClean` | cardinal/gamestate/ecb.go:89-126 | After a discard nothing is pending but the delete set, and the archetype table is the stored one. |
| `Allocation.StepKeepsAlloc` | cardinal/gamestate/ecb.go:469-515 | Whatever call is made, allowed or not, the archetype table stays well formed, stored archetypes keep their ids, and new entity ids lie above every committed one. |
| `Allocation.FirstAlloc` | cardinal/gamestate/ecb.go:55-86 | A first start on an empty store satisfies the allocation invariant. |
| `Allocation.IdsNeverReassigned` | cardinal/gamestate/ecb.go:469-515 | In every run with no condition on the caller, archetype ids are 0..n-1 with distinct, sorted, non-empty sets in buffer and storage, and an entity id that was ever committed is never handed out again. |
| `Allocation.TraceKeepsAlloc` | cardinal/gamestate/redis.go:231-239 | Over every run the stored counter never goes back and committed archetypes never change. |
| `CommandBuffer.SwapRemoveId` | cardinal/gamestate/active.go:17-36 | The scan and overwrite compute the swap-removal, or fail exactly when the id is absent. |
| `CommandBuffer.SortComponentSet` | cardinal/gamestate/component.go:20-33 | Sorting and testing neighbours decides whether the list has repeats. |
| `CommandBuffer.IsComponentSetMatch` | cardinal/gamestate/component.go:35-45 | The element-wise comparison decides equality of sorted component sets. |
| `CommandBuffer.FilterOut` | cardinal/gamestate/ecb.go:319-357 | The loop that builds the reduced component set drops exactly one component and reports whether it was there. |
| `CommandBuffer.EntityCommandBuffer.RegisterComponents` | cardinal/gamestate/ecb.go:76-86 | The object reaches the state and answer of `Buffer.Register`. |
| `CommandBuffer.EntityCommandBuffer.GetArchetypeForEntity` | cardinal/gamestate/ecb.go:446-466 | Cache first, storage second, and the answer is cached. |
| `CommandBuffer.EntityCommandBuffer.GetActiveEntities` | cardinal/gamestate/ecb.go:518-550 | The list is read once and then kept. |
| `CommandBuffer.EntityCommandBuffer.FindArchetype` | cardinal/gamestate/ecb.go:377-398 | The scan over the table finds the archetype of a set if there is one. |
| `CommandBuffer.EntityCommandBuffer.GetOrMakeArchID` | cardinal/gamestate/ecb.go:496-515 | Returns the one archetype with that set, made with the next free id if new. |
| `CommandBuffer.EntityCommandBuffer.NextEntityID` | cardinal/gamestate/ecb.go:469-491 | Returns the next id and advances the counter, loading it from storage on first use. |
| `CommandBuffer.EntityCommandBuffer.CreateManyEntities` | cardinal/gamestate/ecb.go:187-221 | State and answer are those of `Buffer.Create`, though the object appends to a local copy of the active list. |
| `CommandBuffer.EntityCommandBuffer.SpawnEntities` | cardinal/gamestate/ecb.go:202-221 | The loop with the local list does what creating the entities one by one in the buffer does. |
| `CommandBuffer.EntityCommandBuffer.RemoveEntity` | cardinal/gamestate/ecb.go:129-175 | State and answer are those of `Buffer.Remove`, on every error path. |
| `CommandBuffer.EntityCommandBuffer.GetComponentTypesForEntity` | cardinal/gamestate/ecb.go:361-368 | State and answer are those of `Buffer.Types`. |
| `CommandBuffer.EntityCommandBuffer.SetComponentForEntity` | cardinal/gamestate/ecb.go:224-238 | State and answer are those of `Buffer.Set`. |
| `CommandBuffer.EntityCommandBuffer.GetComponentForEntity` | cardinal/gamestate/ecb.go:241-278 | State and answer are those of `Buffer.Get`, with the value cached on a miss. |
| `CommandBuffer.EntityCommandBuffer.MoveEntityByArchetype` | cardinal/gamestate/ecb.go:560-595 | State and answer are those of `Buffer.Move`. |
| `CommandBuffer.EntityCommandBuffer.AddComponentToEntity` | cardinal/gamestate/ecb.go:293-315 | State and answer are those of `Buffer.AddComp`. |
| `CommandBuffer.EntityCommandBuffer.RemoveComponentFromEntity` | cardinal/gamestate/ecb.go:319-357 | State and answer are those of `Buffer.RemoveComp`. |
| `CommandBuffer.EntityCommandBuffer.DiscardPending` | cardinal/gamestate/ecb.go:89-126 | The field-by-field reset leaves the state of `Buffer.Discard`. |
| `CommandBuffer.EntityCommandBuffer.AddComponentChanges` | cardinal/gamestate/redis.go:242-287 | The pipe holds the deletions and then the sets, in some listing of each map, and the delete set is emptied even when an encoding fails. |
| `CommandBuffer.EntityCommandBuffer.AddEntityMoves` | cardinal/gamestate/redis.go:196-228 | The pipe deletes removed entities, writes changed ones and skips those back at their origin. |
| `CommandBuffer.EntityCommandBuffer.AddActiveLists` | cardinal/gamestate/redis.go:322-346 | The pipe writes exactly the modified lists. |
| `CommandBuffer.EntityCommandBuffer.MakePipe` | cardinal/gamestate/redis.go:150-193 | The whole batch, in the source's order of steps, for the iteration orders that happened. |
| `CommandBuffer.EntityCommandBuffer.FinalizeTick` | cardinal/gamestate/tick.go:37-69 | Storage, buffer and answer are those of `Buffer.Finalize`, whatever orders the maps were read in. |
| `ReadOnly.TypesIsolated` | cardinal/gamestate/read_only.go:68-93 | A reader's component types are those of storage alone, whatever is pending. |
| `ReadOnly.ValueIsolated` | cardinal/gamestate/read_only.go:59-66 | A reader's value is the committed one; it fails only for a component whose committed value is zero or that is not there. |
| `ReadOnly.EntitiesIsolated` | cardinal/gamestate/read_only.go:136-149 | Every committed archetype, and no other, has a committed list: exactly the committed entities with its component set, each once. |
| `ReadOnly.ReadersSeeCommitted` | cardinal/gamestate/read_only.go:49-149 | Over every allowed run from an empty store, whatever is pending, a reader returns the components, values and entities of the committed world. |
| `ReadOnly.ReadsFixed` | cardinal/gamestate/read_only.go:49-167 | Along every run without a commit, allowed or not, each answer a reader gives for types, values, lists and search stays what it was. |
| `ReadOnly.ReaderStaysOk` | cardinal/gamestate/read_only.go:38-47 | A reader's private table stays part of the stored one through every commit, discard and restart. |
| `ReadOnly.ArchIdLeaks` | cardinal/gamestate/read_only.go:103-134 | A fresh reader answers with an uncommitted archetype if and only if the set belongs to a pending archetype. |
| `ReadOnly.ArchCompsLeak` | cardinal/gamestate/read_only.go:95-101 | A fresh reader gives the components of an uncommitted archetype if and only if it is pending. |
| `ReadOnly.ArchCompsExact` | cardinal/gamestate/read_only.go:68-80 | What a fresh reader answers for any archetype id: the shared table's components, or that nothing is stored, that a stored component is unknown, or that there is no such archetype. |
| `ReadOnly.LeakReached` | cardinal/gamestate/read_only.go:27-33 | One creation on an empty store reaches both leaks. |
| `ReadOnly.ReadOnlyManager.RefreshTable` | cardinal/gamestate/read_only.go:38-47 | The reader takes the stored table, or fails when there is none or a component is not registered. |
| `ReadOnly.ReadOnlyManager.SearchFrom` | cardinal/gamestate/read_only.go:151-167 | Returns exactly the committed archetypes from a start on that match, in order; nothing pending shows. |
| `ReadOnly.Scan` | cardinal/gamestate/read_only.go:151-167 | The loop over archetype ids returns the matching ones from the start on, and nothing for a start beyond the table. |
| `Ticks.StorageIsWholeTicks` | cardinal/world.go:206-283 | In every run with a crash allowed between any two steps, storage is the world after exactly the finalized ticks and last-finalized-tick is their number; each of them was handed over once, replayed in a recovery, or lost, and lost if and only if a crash fell between its commit and its submission; a restart resumes at that tick with the stored archetype table. |
| `Ticks.LostExactly` | cardinal/world.go:246-265 | A tick is lost if and only if some earlier crash found it committed and not yet submitted by a process that was not recovering. |
| `Ticks.TickLost` | cardinal/world.go:246-265 | Whatever the systems, a first start, one tick with any input and a crash before its submission leaves the tick finalized and lost. |
| `Ticks.NextKeeps` | cardinal/world.go:206-283 | Every step of a tick, every crash and every restart keeps that correspondence. |
| `Ticks.CrashKeeps` | cardinal/world.go:329-334 | A crash at any step changes nothing in storage and reloads tick and table from it. |
| `Ticks.FirstStart` | cardinal/world.go:290-334 | A first start on an empty store is such a state. |
| `Sequencer.PoolConserves` | cardinal/txpool/pool.go:70-106 | Under every interleaving of additions and ticks, each transaction is in exactly one snapshot or still pooled, in arrival order for its message. |
| `Sequencer.TxPool.AddTransaction` | cardinal/txpool/pool.go:70-83 | The transaction becomes its message's last, and for every message the snapshots taken and the pool together hold what ever arrived, in order. |
| `Sequencer.TxPool.CopyTransactions` | cardinal/txpool/pool.go:90-106 | The copy is the next snapshot, and with it every transaction that ever arrived is in exactly one snapshot, in order. |
| `Sequencer.SubmitTxBlob` | cardinal/router/router.go:131-171 | The blob holds every message's transactions in order, whatever order the pool is iterated in. |
| `Sequencer.PickFlatten` | evm/sequencer/server.go:95-113 | Flattening a blob keeps each message's transactions, in order, exactly once. |
| `Sequencer.TxQueue.AddTx` | evm/sequencer/tx_queue.go:57-89 | Appends to the epoch's request, made if new; fails exactly when a new request is invalid, and then no queued transaction changes. |
| `Sequencer.TxQueue.FlushTxQueue` | evm/sequencer/tx_queue.go:93-110 | Returns every queued request once, strictly ordered by namespace and epoch, and leaves the queue empty. |
| `Sequencer.QueueConserves` | evm/sequencer/tx_queue.go:57-110 | Under every interleaving of additions and flushes, for each namespace and epoch the transactions flushed so far followed by those queued are those added, in order. |
| `Sequencer.ChainHoldsLast` | evm/x/shard/keeper/tx_storage.go:54-64 | The chain holds for each epoch the request flushed last. |
| `Sequencer.ChainCompleteIffOneFlush` | evm/x/shard/keeper/tx_storage.go:54-64 | Once all is flushed, the chain holds everything added for an epoch if and only if exactly one flush carried it. |
| `Sequencer.SplitFlushLoses` | evm/x/shard/keeper/tx_storage.go:54-64 | A legal run with a flush between two additions for one epoch leaves only the second on the chain. |
| `Order.BigEndianOrders` | cardinal/router/iterator/iterator.go:140-144 | Big-endian keys of one width compare as bytes the way their numbers compare. |
| `Engine.KeysInOrder` | evm/x/shard/keeper/tx_storage.go:25-52 | Iterating the store in byte order of its keys visits exactly the stored epochs, in ascending order. |
| `Order.SortedNames` | evm/sequencer/tx_queue.go:126-133 | The sorted keys are strictly ascending and exactly the given ones. |
| `Order.SortedNumbers` | evm/sequencer/tx_queue.go:126-133 | The same for numbers. |
| `Recovery.Submit` | evm/sequencer/server.go:95-113 | A submission leaves the queue that enqueueing the blob, flattened by ascending message id, makes: appended to its epoch, no other touched. |
| `Recovery.FlattenCarries` | evm/sequencer/server.go:95-113 | What is queued for a tick carries each message's transactions of its pool, in order. |
| `Recovery.RoundTrip` | cardinal/router/iterator/iterator.go:73-138 | Regrouping an epoch that carries a pool gives back the pool with nothing lost but the salts. |
| `Recovery.ChainPublishes` | evm/x/shard/keeper/tx_storage.go:54-64 | When what was queued carries every tick with its timestamp, all is flushed and no flush split an epoch, the chain holds exactly the non-empty ticks. |
| `Delivery.EnqsAdd` | evm/sequencer/server.go:95-113 | One submission adds exactly its flattened blob to its epoch, ships nothing, and leaves the queue that `Recovery.Submit` leaves. |
| `Delivery.OneShipment` | evm/sequencer/tx_queue.go:57-110 | In every legal run in which no flush falls inside a submission, an epoch submitted once is shipped by one flush. |
| `Delivery.PublishedIff` | evm/x/shard/keeper/tx_storage.go:54-64 | When the ticks handed over were each submitted once and all is flushed, the chain holds exactly the log's non-empty ticks if and only if every tick not handed over was empty. |
| `Delivery.ChainRecovers` | cardinal/world_recovery.go:15-61 | Submit, queue, flush, iterate and recover: for every legal run of submissions with flushes between them, replaying the resulting chain from any stored tick reaches the original world after its last tick with transactions. |
| `Delivery.LostTicksBreakTheChain` | cardinal/world.go:246-265 | At every point of every run with crashes, the chain that received what was handed over publishes the node's ticks if and only if no lost or still unsubmitted tick had transactions. |
| `Delivery.LostTickUnpublished` | cardinal/world.go:246-265 | For every systems and every non-empty input there is a run whose finalized tick no such chain publishes. |
| `Recovery.ReplayMatches` | cardinal/world_recovery.go:25-54 | The replay runs, tick by tick, the original inputs up to salts and the timestamps of empty ticks, each once, and ends right after the last non-empty one. |
| `Recovery.AlikeHistories` | cardinal/world_recovery.go:25-54 | Systems that ignore salts and the timestamps of empty ticks reach the same world from inputs that agree up to those. |
| `Recovery.RecoveryReproduces` | cardinal/world_recovery.go:25-54 | A world holding the first ticks of a run reaches, by replaying the chain, exactly the original world after the last non-empty tick. |
| `Engine.QueryTransactions` | evm/x/shard/keeper/query_server.go:14-40 | On the byte-keyed store, a page of one is the first epoch from the key's number on, and the next key is that of the epoch after it. |
| `Engine.Seek` | evm/x/shard/keeper/tx_storage.go:31-52 | The iterator starts at the first stored epoch whose number is not below the key's. |
| `Engine.ReplaySnoc` | cardinal/world_recovery.go:25-54 | Replaying one more epoch appends its empty ticks and itself to the replay so far. |
| `Engine.Execute` | cardinal/gamestate/ecb.go:129-368 | A system's call, made on the command buffer object, takes it through the step of the call. |
| `Engine.World.constructor` | cardinal/world.go:290-334 | A start over the storage that a run has left is that run's restart: components registered, tick reloaded. |
| `Engine.World.RunSystems` | cardinal/world.go:235-241 | The systems' calls, made one by one on the command buffer, are the working steps of the tick. |
| `Engine.World.Compute` | cardinal/world.go:226-247 | Running the systems and committing leaves storage as the effect of the tick on what it was. |
| `Engine.World.DoTick` | cardinal/world.go:206-283 | A tick on the real store extends the world's run: storage becomes the effect of the pooled transactions on what it was, the pool is consumed once, its blob is handed over unless recovering, and the counter advances by one. |
| `Engine.World.FastForward` | cardinal/world_recovery.go:34-41 | Empty ticks are run on the store up to exactly the target, with the distance to it as measure, and nothing is handed over. |
| `Engine.World.ReplayEpoch` | cardinal/world_recovery.go:29-53 | An epoch is replayed as its missing ticks, empty, and one tick with its regrouped transactions, all at the epoch's timestamp. |
| `Engine.World.CheckMessages` | cardinal/router/iterator/iterator.go:84-105 | An epoch is accepted if and only if all its messages are known. |
| `Engine.ReplayRan` | cardinal/world_recovery.go:34-50 | Tick by tick, a replay runs at the time of the least stored epoch at or above the tick, with that epoch's transactions on its own tick and none before it. |
| `Engine.World.EachEpoch` | cardinal/router/iterator/iterator.go:56-124 | The paging loop terminates having run on the store all stored epochs from the current tick on if every message is known, and otherwise exactly those before the first epoch with an unknown one. |
| `Engine.World.RecoverFromChain` | cardinal/world_recovery.go:15-61 | The world's run, of which storage is the result, is extended by exactly the replay and nothing is handed over; each added tick has the timestamp of the least stored epoch at or above it, and that epoch's transactions if it is its own; if the chain publishes a run whose first ticks are in storage, storage ends up as that run's after its last tick with transactions. |
| `Engine.World.EndRecovery` | cardinal/world.go:348-349 | Leaving recovery changes nothing but the stage, as a step of the world's run. |
| `Engine.World.Play` | cardinal/world.go:369-419 | Every round's arrivals are run by its tick and handed over once, under that tick's number, and no other tick is. |
| `Engine.GatheredExact` | cardinal/txpool/pool.go:70-83 | What a tick finds in the pool is, for every message, what arrived for it since the last tick, in order. |
| `Engine.World.StartGame` | cardinal/world.go:290-367 | Recover, leave recovery and play: recovered ticks are not handed over, played ones are, once each, and storage is the recovered run followed by the ticks played. |
| `Engine.DeliveredRetells` | cardinal/world_recovery.go:15-61 | The chain of a flushed run of submissions, one for every tick with transactions, is one from which `Engine.World.RecoverFromChain` gives back the world. |
| `Tasks.Due` | cardinal/plugin_task.go:61-66 | The due tasks of a list are exactly those with a trigger tick at or below the current one or, without one, a trigger time at or below the current time. |
| `Tasks.ActiveList.SwapRemoveInPlace` | cardinal/gamestate/active.go:17-36 | In place on the backing array: only the freed position is written, everything beyond the new length stays. |
| `Tasks.TaskPass` | cardinal/plugin_task.go:74-112 | Although removals shuffle the ranged slice, a pass over one archetype visits every task of it once in the original order, handles exactly the due ones and leaves exactly the others. |
| `Tasks.TaskSystem` | cardinal/plugin_task.go:74-112 | Over all archetypes that the filter matches, every task is visited once; handled, each once, are exactly those with a trigger tick at or below the current one or, without one, a trigger time at or below the current time; exactly the others remain in each list. |
| `Tasks.PassRemoves` | cardinal/search.go:152-182 | A removal during the pass never disturbs a position the loop has yet to read. |
| `Tasks.PassIsStep` | cardinal/plugin_task.go:74-112 | A pass over the pending tasks makes exactly the step of the run's state. |
| `Tasks.TaskHandledOnce` | cardinal/plugin_task.go:61-134 | In every run each scheduled task is handled exactly once, by the first later pass that reaches its trigger, and is pending until then. |
| `Tasks.TickTaskHandled` | cardinal/world_context.go:117-120 | In every run a task scheduled at a tick with a delay is handled by the first later pass at that tick plus the delay or after, by none before it, and is pending until then. |
| `Tasks.TimeTaskHandled` | cardinal/world_context.go:122-129 | The same for a task scheduled at a time with a duration. |
| `Search.ExactIsSetEquality` | cardinal/filter/exact.go:22-33 | The length-and-membership test is set equality, and matches nothing for a filter with a repeat. |
| `Search.MatchesIsSelects` | cardinal/filter/contains.go:20-28 | Every nested filter's test on a component list is the corresponding property of the component set. |
| `Search.SnapshotFaithful` | cardinal/gamestate/ecb.go:401-424 | A coherent buffer shows a search every live entity in exactly one archetype, the one with its components. |
| `Search.SearchKeepsMeaning` | cardinal/gamestate/ecb.go:401-407 | The lists a search loads change neither what the buffer means nor what the next search sees. |
| `Search.SearchesPlainMap` | cardinal/composedsearch.go:59-157 | Over a coherent buffer every nested search with no empty And selects exactly the union, intersection and complement it denotes on the plain map of entities. |
| `Search.ComputesMeaning` | cardinal/composedsearch.go:59-250 | What is computed is what is meant, at every depth of nesting, for searches with no empty And. |
| `Search.EmptyAnd` | cardinal/composedsearch.go:109-140 | An And of nothing computes what it means if and only if no entity is alive. |
| `Search.ComputesPatched` | cardinal/composedsearch.go:59-250 | Every search, whatever empty Ands are nested in it, computes exactly what it means with each replaced by an empty Or. |
| `Search.Scan` | cardinal/search.go:152-182 | The nested loops yield exactly the matching live entities, none twice. |
| `Search.Collect` | cardinal/search.go:188-199 | For every search tree the result is strictly increasing and exactly the selected entities; with no empty And, exactly those meant. |
| `Search.CollectOr` | cardinal/composedsearch.go:59-80 | The union of the sub-results, strictly increasing. |
| `Search.Tally` | cardinal/composedsearch.go:109-140 | One pass of the counting loop counts an entity of the sub-result once. |
| `Search.HitsAll` | cardinal/composedsearch.go:109-140 | An entity's count equals the number of sub-searches if and only if all of them returned it. |
| `Search.CollectAnd` | cardinal/composedsearch.go:109-157 | The intersection of the sub-results, strictly increasing. |
| `Search.CollectNot` | cardinal/composedsearch.go:220-250 | The live entities the sub-search does not select, strictly increasing. |
| `Search.CountEntities` | cardinal/search.go:202-228 | The counter is the length of the strictly increasing list of entities the search selects. |
| `Search.Count` | cardinal/composedsearch.go:101-107 | The count is the length of the collected list. |
| `Search.AnswersUnique` | cardinal/search.go:188-199 | A search has exactly one answer, order included. |
| `Search.CachedSearch.EvaluateSearch` | cardinal/search.go:270-277 | Only archetypes beyond the seen count are scanned and appended. |
| `Search.CacheExact` | cardinal/search.go:270-277 | An evaluated cache equals a full scan of the new table if and only if its archetypes still match as before. |
| `Search.DiscardStalesCache` | cardinal/search.go:270-277 | Create, search, discard, create and search on an empty store: the cache returns an archetype that a fresh scan does not. |
| `Search.CacheIsFreshScan` | cardinal/search.go:270-277 | However searches and archetype creations interleave, the cache is a fresh full scan: same archetypes, same order, none twice. |
| `Nonce.UseTracks` | cardinal/storage/redis/nonce.go:60-119 | One call answers as the unbounded set of used nonces would, whether or not a cleanup happens or succeeds. |
| `Nonce.AcceptedIff` | cardinal/storage/redis/nonce.go:60-119 | In every run from an empty set a nonce is accepted if and only if it is at most 9007199254740991, was not accepted before, and is less than 1000 below every nonce accepted before; otherwise it is refused as too large, too old or used, exactly as it is. |
| `Nonce.UseBounds` | cardinal/storage/redis/nonce.go:97-119 | A call whose cleanup succeeds leaves at most 1500 stored nonces; it prunes exactly when there would be more, to those less than 1000 below the highest, at most 1000. |
| `Nonce.NoUnderflow` | cardinal/storage/redis/nonce.go:110-119 | In no run does the unsigned subtraction that computes a cleanup's cutoff wrap around. |
| `Nonce.NonceStorage.UseNonce` | cardinal/storage/redis/nonce.go:60-105 | The object's verdict is that of the unbounded set, and no other signer is affected. |
| `Nonce.NonceStorage.UseFor` | cardinal/storage/redis/nonce.go:60-105 | The maps change as the one-signer step says, for this signer only. |
| `Nonce.NonceStorage.CleanupOldNonces` | cardinal/storage/redis/nonce.go:110-119 | The nonces up to the cutoff go, and the tracked size goes down by their number. |
| `Allowlist.WriteKeepsOneToOne` | relay/nakama/allowlist/allowlist.go:157-185 | The conditional double write keeps verified users and used keys in one-to-one correspondence. |
| `Allowlist.GenerateExact` | relay/nakama/allowlist/allowlist.go:66-118 | A batch of keys keeps the correspondence if and only if it does not overwrite a used key. |
| `Allowlist.NextKeeps` | relay/nakama/testutils/testutils.go:209-252 | Every step of every claimer keeps the correspondence; used keys stay used by the same user, verified users stay verified. |
| `Allowlist.FirstState` | relay/nakama/testutils/testutils.go:166-170 | An empty store with nobody claiming is a good first state. |
| `Allowlist.RunKeeps` | relay/nakama/allowlist/allowlist.go:120-231 | The same over every interleaving of any number of claims. |
| `Allowlist.ClaimsAreExclusive` | relay/nakama/allowlist/allowlist.go:120-231 | Whatever the interleaving, no two successful claims share a key or a user. |
| `Allowlist.NakamaStorage.ClaimKey` | relay/nakama/allowlist/allowlist.go:120-155 | Undisturbed, over stored keys without small letters, a claim succeeds if and only if the list is enabled, the user is new and some stored unused key agrees with the typed one letter by letter up to case; then exactly that user and key change, otherwise nothing does; each refusal has its own exact condition. |
| `Allowlist.UpperFinds` | relay/nakama/allowlist/allowlist.go:137-137 | A typed key finds a stored key if and only if the two agree letter by letter up to case. |
| `Allowlist.CapitalsKept` | relay/nakama/allowlist/allowlist.go:66-118 | Stored keys stay without small letters as long as generated ones are. |
| `Receipts.NextMirrors` | cardinal/receipt/receipt.go:75-79 | Advancing the ring keeps it equal to the unbounded log on its whole window. |
| `Receipts.RecordMirrors` | cardinal/receipt/receipt.go:87-103 | Recording keeps that equality. |
| `Receipts.SetTickExact` | cardinal/world.go:346-346 | After SetTick moves a history that counted from 0 to the world's tick, every tick of the window reads its own receipts if and only if the slots agree under the shift. |
| `Receipts.RecoveryRecords` | cardinal/receipt/receipt.go:53-103 | Over every recovery, the history counting from 0 mirrors its own log, and slots it has not come to are empty. |
| `Receipts.RecoveredReceiptsExact` | cardinal/world.go:346-346 | Over every recovery that recorded something unlike the rest, receipts are read under their own ticks if and only if the ring's size divides the tick the world started at. |
| `Receipts.SetTickMisfiles` | cardinal/world.go:346-346 | With a ring of three, a world restarted at tick 1 that recovers ticks 1 and 2 returns for tick 1 what tick 2 recorded. |
| `Receipts.History.SetTick` | cardinal/receipt/receipt.go:81-83 | Only the counter moves, and the object stays that of its log in the new ticks if and only if the slots agree under the shift. |
| `Receipts.History.Advance` | cardinal/receipt/receipt.go:75-79 | The array slot of the new tick is emptied and the log correspondence kept. |
| `Receipts.LogHolds` | cardinal/receipt/receipt.go:87-103 | Over every run, at each tick a transaction has a receipt if and only if something was recorded for it in that tick; its errors are those recorded, in order, and its result is the last one recorded. |
| `Receipts.History.Add` | cardinal/receipt/receipt.go:87-103 | An error is added behind the transaction's earlier ones, a result replaces the earlier one, and no other transaction and no other tick changes; the log correspondence is kept. |
| `Receipts.History.GetReceiptsForTick` | cardinal/receipt/receipt.go:115-132 | The log's entry for every completed tick in the window, the right error for every other tick. |
| `Receipts.GetReceipts` | cardinal/server/handler/receipts.go:47-77 | The reply is empty for a request from the future and otherwise starts at the requested tick, but no further back than the history's size; it holds the readable non-empty ticks from there to the world's tick. |
| `Receipts.PollReturnsAll` | cardinal/server/handler/receipts.go:47-77 | A poll less than a window after the last starts where asked and returns the log from there on. |
| `Receipts.PollReturnsReadable` | cardinal/server/handler/receipts.go:47-77 | A poll at a quiet moment, from however long ago, returns every completed tick that can still be read, and nothing else. |
| `Receipts.EntriesExact` | cardinal/server/handler/receipts.go:63-76 | A stretch of the log comes to exactly its non-empty ticks, in order. |
| `Receipts.PollWhileAdvancing` | cardinal/world.go:267-269 | A poll between the two increments is complete if and only if the finished tick has no receipts. |
| `Receipts.MissesExactly` | cardinal/server/handler/receipts.go:63-76 | A read of a poll misses its tick if and only if the tick has receipts and the read fell between the two increments, or a whole window late. |
| `Receipts.StepLacks` | cardinal/server/handler/receipts.go:47-77 | At every event what a client has received falls short of the log by exactly what its polls have missed. |
| `Receipts.PollingExact` | cardinal/server/handler/receipts.go:47-77 | Over every run, with reads interleaved at any moment with recording and the two increments, a client that feeds each end tick back has every tick's receipts once and in order if and only if no poll passed over a tick with receipts. |
| `Receipts.GapPollLoses` | cardinal/world.go:267-269 | A poll between the increments of the first tick with receipts moves the client past it without them. |
| `Receipts.FirstClient` | cardinal/receipt/receipt.go:53-67 | A client of a new history is a good first state. |
| `Persona.IndexUnique` | cardinal/plugin_persona.go:220-251 | The index is determined by the stored components. |
| `Persona.BuildExact` | cardinal/plugin_persona.go:220-251 | A rebuild gives the derived index in whatever order entities are found; it happens exactly without an index or with one not from an earlier tick, and otherwise nothing changes. |
| `Persona.CreateExact` | cardinal/plugin_persona.go:167-214 | A persona is created if and only if the tag has 3 to 16 letters, digits and underscores and agrees with no stored tag letter by letter up to case; the index stays the derived one. |
| `Persona.LowerSame` | cardinal/plugin_persona.go:187-188 | Two tags have the same index key if and only if they agree letter by letter up to case. |
| `Persona.AuthorizeExact` | cardinal/plugin_persona.go:114-159 | On success the list of the one persona with that tag up to case is the old list if the address was there and otherwise the old list followed by it; no other persona changes; the two refusals have their exact conditions. |
| `Persona.UnspacedExact` | cardinal/plugin_persona.go:135-135 | Taking out spaces leaves every other character, in order. |
| `Persona.HexAddressExact` | cardinal/plugin_persona.go:136-139 | An address is valid if and only if it is forty hexadecimal digits, bare or after 0x. |
| `Persona.IndexAlwaysDerived` | cardinal/plugin_persona.go:114-251 | After every message, rebuild, commit and crash of every run, an index that exists is the one and only index of the stored components, no two tags agree up to case, and no list of authorized addresses has a repeat. |
| `Persona.SignerNeverChanges` | cardinal/plugin_persona.go:114-251 | Once saved, or without a crash once created, a tag up to case belongs to the same entity with the same signer for the rest of every run. |
| `Persona.PersonaPlugin.BuildIndex` | cardinal/plugin_persona.go:220-251 | The loop over the found entities computes `Persona.Build`. |
| `Persona.PersonaPlugin.CreatePersona` | cardinal/plugin_persona.go:167-214 | State and answer are those of `Persona.Create`. |
| `Persona.PersonaPlugin.AuthorizeAddress` | cardinal/plugin_persona.go:114-159 | State and answer are those of `Persona.Authorize`, with the authorized list scanned for the address. |

## Left out

- Wrap-around of 64-bit entity ids, archetype ids and ticks; numbers are unbounded, except in the nonce cutoff.
- Slices as values: the `append` and in-place sort at cardinal/gamestate/ecb.go:301-302 can share memory with the stored
  component set; the model gives every set its own value. Component values are not shared with game code either.
- Buffer.SwapRemove: on sequences; the update in place is modelled for the task scheduler (`Tasks.ActiveList`).
- Component names, ids and schemas are taken to correspond one to one, encoding and decoding are inverse to each other,
  and storage keys are fields of one record.
- Failures of the Redis client; a transaction is one atomic step.
- Engine.World.DoTick: leaves out the receipt history, which `Receipts` models beside it, the broadcast of results, and
  system errors; systems are a deterministic list of calls decided by storage and input, and an error or panic ends the
  process, which is a crash in the model.
- Ticks.StorageIsWholeTicks: systems are required to stay within `Refinement.Allowed` in the worlds they bring about; a
  restart registers the same components.
- EVM transactions and their results, and transaction hashes and salts across a recovery, which the chain does not carry.
- Between the router's job queue, the sequencer and the chain, messages arrive once; no flush falls inside a submission
  in `Delivery` (`Sequencer.SplitFlushLoses` shows what happens otherwise).
- AddInitMsg and FlushInitQueue; namespaces whose store prefixes overlap.
- Engine.World.EachEpoch: does not model decoding errors, cancellation, or failing queries.
- Reloading the highest nonce after a restart (cardinal/storage/redis/nonce.go:128); the nonce theorems are about one
  process that starts with empty sets. A failing cleanup is modelled, other Redis errors are not.
- `evaluateSearch` on composed searches, which no result depends on; `First`, `MustFirst` and callbacks that stop early.
- Tasks.TaskSystem: handlers succeed and neither create nor remove tasks of the same kind.
- Letter case is that of ASCII in persona tags and beta keys; errors of reading a signer component during a rebuild.
- Receipts.History.GetReceiptsForTick: the receipts of a tick are a map, since Go returns them in no fixed order; reading
  one slot is one step.
- Randomness of generated keys; the admin check of GenerateBetaKeys.
- Signatures, HTTP and gRPC handlers, registries, namespaces and world stages other than recovering and running: plumbing
  or easy members.
