# A model of Project E: entity storage, scheduler and session layer

A Dafny 4.11 model of the two cores of the repository, with proofs of what they promise:

* **the entity-component engine** (`libs/lib_ecs`): the chunked archetype pools and the pool of stable handles, queries
  and the systems that map over them, the tree of systems, registration, and the fixed-timestep clock;
* **the session layer** (`libs/lib_net`): packets and buffers, the parse loop shared by two threads, the
  connection table, the UDP handshake and the poll table.

`dafny verify dfyconfig.toml` checks everything.

## How the model is built

Where the source updates an object in place, the model has a class with the same fields and loops (`ArchetypePool`,
`EntityManager`, `Query`, `SystemTree`, `Registry`, `Clock`, `RecvBuffer`, `BufWriter`, `TsQueue`, `UuidGenerator`, `Server`,
`Poll`). Each method is proved equal to a function on the object's abstract value, and the hard properties are
proved about those functions. Where two threads meet, the model is a step system: each thread has a place in its code, and
each locked region, queue operation and change of a shared table is a step of its own. A property of a run is then a
theorem over all sequences of enabled labels.

| modules | subject |
|---|---|
| `Pools`, `Storage` | the value of an archetype pool; its columns of chunks, updated in place |
| `Entities`, `EntityBatch`, `Recycling`, `EntityRuns`, `EntityManagers` | single operations and the invariant; batch operations as refinements of single ones; the order in which positions are handed out; whole runs as a plain map; the manager object |
| `TypeSets`, `QueryMatch` | component lists of aspects; matching of archetypes to queries |
| `Loops`, `SelfCross`, `StatusSystem`, `ParallelMap`, `LostUpdates`, `QueryThreads`, `QueryUses` | what the loops and threads of a query visit and write |
| `SystemTrees`, `Registration`, `FixedSteps` | insertion and run order; who is offered which pool; fixed-step accounting |
| `StatusRuns`, `RegisteredRuns` | whole runs of status systems over their matched pools, and of those registered with the manager |
| `Packets`, `Buffers`, `Framing` | codec; receive window and send buffer; one connection end to end |
| `Queues`, `Connections`, `Uuids`, `Handshake`, `Polls` | the event queue; the two-thread connection table; fresh ids; UDP verification; the poll table |
| `Common` | options and duplicate-free sequences |

## Main results

* **Allocator.** In every state a run of creations, destructions, writes, registrations and resets can reach, free lists are duplicate-free
  and in range, free positions are zeroed, a handle is live iff it points to a live slot of the pool it names that
  points back, and used sizes add up to the live handles (`EntityRuns.StepRefines`, `UsedIsLive`, `RunConserves`). The
  manager refines a plain map from handles to entities, batch calls equal the same number of single calls,
  a handle keeps its slot until it is destroyed, and what was destroyed is handed out again first in, first out.
* **End-to-end framing.** Over every interleaving of accepted writes, partial flushes, arbitrary deliveries, fills and parse steps, the packets
  handled are a prefix of the packets accepted, in order and byte for byte (`Framing.EndToEnd`); the application was given
  exactly the application packets among them, and the well-formed handshake requests were answered. A drained connection
  has handled all.
* **Connection table.** Replaying the unhandled events over the clients' connections gives the live connections, up to the one
  the context thread has changed and not announced, or announced and not changed; and exactly them iff there is no such
  one. Every id's events are one connection, reads, and at most one disconnection. A connection goes iff a request for it is
  acted on or its descriptor fails or is closed, and every request is (`GoneIff`, `AskedIsGone`); no announced data of a
  live connection is passed over (`NoReadIsLost`).
* **UDP handshake.** A packet reaches a client only from an address that has proved knowledge of the client's number; a
  client belongs to the connection it joined on, and goes with it.
* **Queries.** A status system registered once calls, in order and once each, exactly the live entities of its status in matching pools.
  The self cross and the parallel map are exact for every pool matched once, and how often they visit otherwise is stated.
* **Scheduler.** Insertion adds one contiguous block to the run order, where the flags of the call say; registration order does
  not matter; fixed runs are the whole part of
  total time over the step.
* **Poll table.** Output interest agrees with the writers after every preparation.

## Where the code does not do what one would expect

Each of these is stated as an equivalence with the exact condition, or as a construction for a whole family of inputs.

* A pool id has eight bits, so creation keeps the invariant iff the pool's index is below 256 (`Entities.CreateOkIff`).
* Handles have no generation. Batch destruction is safe iff the handles are distinct and live (and of the named pool), and a second
  destruction of a handle frees slot (0, 0) of pool 0 (`EntityBatch.DestroyFromOkIff`, `DestroyEachOkIff`, `StaleDestroy`).
  `EntityRuns.StaleReachable` and `TooManyPools` are runs that lead to the failing inputs of these two.
* `getEntity` by position ignores the stored pool id (`Entities.ByNameIff`).
* The comment at `libs/lib_ecs/Systems/Query.hpp:423-424` says no pair is checked twice; pairs with equal indices in different
  chunks are, and after several uses of one query every pair is (`SelfCross.PairVisits`, `QueryUses.VisitsAfterUses`). The
  loops stay in bounds iff all chunks have one size.
* Each use of a query through the manager adds all matches again (`QueryMatch.ReuseDuplicates`). A parallel map over such a query runs
  two threads on one pool, and agrees with the sequential map iff the query has been used once
  (`LostUpdates.AgreesIffDisjoint`, `QueryThreads.AgreesIffUsedOnce`).
* A registration that fails still offers all pools, so repeating it duplicates them (`Registration.RegisterIff`, `RetryDuplicates`),
  and a status system then calls twice on every entity (`RegisteredRuns.RetriedSeesTwice`; in general `StatusRuns.OnceIff`).
* `addTime` does not end for a negative fixed step unless the accumulator is already below it (`FixedSteps.LoopEndsIff`).
* The size field of a packet has 16 bits: the round trip holds iff the payload is shorter than 65536 bytes. The TCP path
  never exceeds that (`Buffers.AcceptedIsFramed`).
* The receive array is not compacted. The next packet can be handled iff it fits counted from the start of the window
  (`Framing.NextHandledIff`); two messages that fit one by one but not together can lose the second (`Framing.OverrunLosesPacket`).
  A sender that keeps at most one array of bytes outstanding is safe (`Framing.PacedIsHandled`).
* A fill that gets nothing closes the connection while it holds the reader's lock, and the main thread takes the two locks in the
  other order: unless it is outside the parse loop or about to leave it, both wait for ever (`Framing.ClosesIff`, `LockReachable`).
* `handle_events` looks a connection up before it takes the lock and uses it afterwards; the use throws iff the connection was
  erased in between (`Connections.UseThrowsIff`, `UseCanThrow`).
* A client verified from two addresses leaves a cache entry behind when it goes; datagrams from that address are then
  dispatched to the departed client and nobody can be verified from it (`Handshake.StaleEntryIff`, `StaleForever`,
  `StaleReachable`).
* `has_udp_connection` looks the client's address up in the cache, and that of an unverified client is the default one
  (`Handshake.DefaultAddressIff`).
* The filter on datagrams looks at the zero-filled buffer, so cut-off packets pass it; they are ignored later
  (`Handshake.AdmittedIff`, `CutOffIsIgnored`).
* `docs/src/engine/modules/modules/network/protocol.md:13-14` gives the size field four bytes, and line 30 message 3 as an acknowledgement. The code
  has a 16-bit size followed by two padding bytes, and PING and PONG (`libs/lib_net/Packet.hpp:15-27`). The model follows the code.

## What is asked of callers

Chunk sizes are positive, and a pool object is registered once. Entities are created only of registered archetypes: the source
dereferences a null pool otherwise. Handles passed to destroy resolve to stored rows, and over whole runs they are live and
distinct and there are at most 256 pools; the equivalences above say what happens otherwise. Sockets report at most as many
bytes as they were given. Where a theorem says so (`AllGenuine`), a datagram's source is never the default address. A new
descriptor is not one that is still in use. What else a theorem asks stands in its `requires`.

## Model

| member | source | states |
|---|---|---|
| `Pools.AddChunkOk` | libs/lib_ecs/Entities/ArchetypePool.hpp:62-73 | growing a pool keeps its shape, keeps its free list duplicate-free and in range, moves or changes no stored row, makes no position live, and adds exactly one chunk of free positions |
| `Pools.AddChunkAt` | libs/lib_ecs/Components/ComponentPool.hpp:202-205 | position by position: a grown pool stores the old positions and those of the next chunk, which are zeroed |
| `Pools.UsedSizeCountsLive` | libs/lib_ecs/Entities/ArchetypePool.hpp:45-48 | the used size is the number of positions handed out and not returned |
| `Storage.SetCellRow` | libs/lib_ecs/Chunks/AChunkPool.hpp:94-122 | writing one element of one chunk pool changes one row of the archetype in one place and nothing else |
| `Storage.AddChunkRows` | libs/lib_ecs/Entities/ArchetypePool.hpp:66-68 | adding a zeroed chunk to every component pool adds exactly the zeroed rows of that chunk and keeps the pools in lockstep |
| `Storage.ResetRows` | libs/lib_ecs/Entities/ArchetypePool.hpp:108-121 | zeroing every component pool at a set of positions zeroes exactly those rows |
| `Storage.RowCount` | libs/lib_ecs/Chunks/AChunkPool.hpp:180-187 | a pool of c chunks of s elements has c times s positions |
| `Storage.ArchetypePool.constructor` | libs/lib_ecs/Entities/ArchetypePool.hpp:24-37 | a new pool stores nothing and has no free position |
| `Storage.ArchetypePool.AddChunk` | libs/lib_ecs/Entities/ArchetypePool.hpp:62-73 | the loops over component pools and over indices build the grown pool value: same rows, a zeroed chunk, its positions appended to the free list in index order |
| `Storage.ArchetypePool.SetCellAt` | libs/lib_ecs/Components/ComponentPool.hpp:76-79 | an indexed write replaces one cell of one row |
| `Storage.ArchetypePool.SetLinkAt` | libs/lib_ecs/EntityManager.hpp:173-173 | writing a chunk position component replaces the link of one row |
| `Storage.ArchetypePool.SetStatusAt` | libs/lib_ecs/Components/ComponentPool.hpp:116-123 | the scatter loop gives every listed row the status and leaves all others alone |
| `Storage.ArchetypePool.SetLinksAt` | libs/lib_ecs/Components/ComponentPool.hpp:145-152 | the pairwise scatter loop gives the k-th listed row the k-th link, in order |
| `Storage.ArchetypePool.SetIdAt` | libs/lib_ecs/EntityManager.hpp:218-218 | the scatter loop gives every listed handle row the pool id |
| `Storage.ArchetypePool.SetValueAtIndexes` | libs/lib_ecs/Chunks/AChunkPool.hpp:94-115 | one chunk pool afterwards holds the value exactly at the listed positions and its old elements elsewhere; the other chunk pools are untouched |
| `Storage.ArchetypePool.ResetEntityAtIndexes` | libs/lib_ecs/Entities/ArchetypePool.hpp:108-121 | component pool by component pool, the listed rows become zero and all others keep their cells |
| `Storage.ArchetypePool.WriteRow` | libs/lib_ecs/Systems/Query.hpp:141-147 | writing through the references of one entity changes that row only, link excepted |
| `Storage.ArchetypePool.DeleteEverything` | libs/lib_ecs/Entities/ArchetypePool.hpp:126-132 | afterwards no chunk is stored and the free list is empty |
| `Storage.ArchetypePool.GetUsedSize` | libs/lib_ecs/Entities/ArchetypePool.hpp:45-48 | the element count of the first component pool less the free positions is the number of live positions |
| `Entities.TakeOk` | libs/lib_ecs/EntityManager.hpp:168-181 | linking one free slot with one free handle keeps the two pools in bijection |
| `Entities.CreateOkIff` | libs/lib_ecs/EntityManager.hpp:152-184 | creation in pool i keeps the invariant if and only if i fits the eight-bit pool id |
| `Entities.DestroyOk` | libs/lib_ecs/EntityManager.cpp:63-71 | destroying a live handle keeps the invariant: both positions return to the free lists, zeroed, and every other link still holds |
| `Entities.WriteOk` | libs/lib_ecs/Systems/Query.hpp:141-147 | an in-place change of status and cells through a live handle keeps the invariant |
| `Entities.ByNameIff` | libs/lib_ecs/EntityManager.hpp:35-42 | resolving a live handle by archetype name reaches the entity of that handle if and only if the name is that of the pool it was created in |
| `Entities.LiveIsResolvable` | libs/lib_ecs/EntityManager.hpp:27-33 | a live handle names a registered pool and a live slot of it |
| `Entities.RegisterPoolOk` | libs/lib_ecs/AEntityManager.cpp:76-82 | registering an empty pool keeps the invariant |
| `Entities.DeleteEverythingOk` | libs/lib_ecs/EntityManager.hpp:87-93 | deleting everything restores the invariant from any well-shaped state |
| `Entities.FindPool` | libs/lib_ecs/AEntityManager.cpp:119-130 | the search finds the first registered pool of the name, or reports that there is none |
| `EntityBatch.GrowToNext` | libs/lib_ecs/EntityManager.hpp:197-202 | the growth loop for n + 1 positions adds one chunk more than the one for n exactly when n used the free list up |
| `EntityBatch.TakeSlotsGrow` | libs/lib_ecs/EntityManager.hpp:197-231 | growing first and then taking a batch leaves the same pool as taking the batch and growing afterwards |
| `EntityBatch.BatchThenCreate` | libs/lib_ecs/EntityManager.hpp:186-234 | a batch of n followed by one creation is a batch of n + 1 |
| `EntityBatch.BatchCreateIsCreateN` | libs/lib_ecs/EntityManager.hpp:186-234 | one call for n entities leaves the same free lists, chunks, links, statuses and pool ids as n single calls, growth of either pool included |
| `EntityBatch.BatchCreateOk` | libs/lib_ecs/EntityManager.hpp:103-150 | batch creation keeps the invariant |
| `EntityBatch.DestroyFromOne` | libs/lib_ecs/EntityManager.cpp:63-71 | single destruction is a batch of one, for live and stale handles alike |
| `EntityBatch.DestroyFromIsDestroyN` | libs/lib_ecs/EntityManager.cpp:110-130 | destroying a batch as entities of one pool equals destroying its members one after the other |
| `EntityBatch.DestroyEachIsDestroyN` | libs/lib_ecs/EntityManager.cpp:85-108 | destroying a batch of entities of any pools equals destroying its members one after the other |
| `EntityBatch.DestroyN` | libs/lib_ecs/EntityManager.cpp:63-71 | destroying live distinct handles one after the other keeps the invariant and leaves exactly the other handles live, their rows unchanged |
| `EntityBatch.DestroyFromOkIff` | libs/lib_ecs/EntityManager.cpp:110-130 | batch destruction by pool keeps the invariant if and only if the handles are pairwise distinct, live and of that pool |
| `EntityBatch.DestroyEachOkIff` | libs/lib_ecs/EntityManager.cpp:85-108 | mixed batch destruction keeps the invariant if and only if the handles are pairwise distinct and live |
| `EntityBatch.StaleDestroy` | libs/lib_ecs/EntityManager.cpp:63-71 | destroying a handle a second time frees the first slot of the first pool and breaks the invariant: handles carry no generation |
| `Recycling.FirstPositions` | libs/lib_ecs/Entities/ArchetypePool.hpp:62-73 | a new pool hands out its positions chunk by chunk and in index order |
| `Recycling.ReturnedInOrder` | libs/lib_ecs/EntityManager.cpp:110-130 | first in, first out: after a batch was destroyed, all handles and slots that were free before are handed out first, then those of the batch in the order it named them |
| `EntityManagers.EntityManager.constructor` | libs/lib_ecs/EntityManager.hpp:24-24 | a new manager has no pools and no handles |
| `EntityManagers.EntityManager.RegisterEntityPool` | libs/lib_ecs/AEntityManager.cpp:76-82 | appends the pool |
| `EntityManagers.EntityManager.FindEntityPool` | libs/lib_ecs/AEntityManager.cpp:119-130 | the loop finds the first pool of the name |
| `EntityManagers.EntityManager.CreateEntity` | libs/lib_ecs/EntityManager.hpp:152-184 | the object goes from any well-shaped state to the one single creation prescribes; the slot returned was not live and now is, has the status asked for, and it and the new handle name each other |
| `EntityManagers.EntityManager.CreateEntities` | libs/lib_ecs/EntityManager.hpp:186-234 | the growth loops, the scatter passes and the two erasures together have the effect of batch creation; the slots come back in free-list order |
| `EntityManagers.EntityManager.DestroyEntity` | libs/lib_ecs/EntityManager.cpp:63-71 | the object goes to the state in which slot and handle are released and zeroed |
| `EntityManagers.EntityManager.DestroyNamed` | libs/lib_ecs/EntityManager.cpp:73-83 | destroys by archetype name, and does nothing when the name is unknown |
| `EntityManagers.EntityManager.DestroyFromPool` | libs/lib_ecs/EntityManager.cpp:110-130 | the free lists are extended and the rows reset as batch destruction by pool prescribes |
| `EntityManagers.EntityManager.DestroyMixed` | libs/lib_ecs/EntityManager.cpp:85-108 | all links and pool ids are read before any row is reset, and slots are released in order |
| `EntityManagers.EntityManager.GetEntity` | libs/lib_ecs/EntityManager.hpp:27-33 | returns the pool and slot stored in the handle row |
| `EntityManagers.EntityManager.GetEntityAs` | libs/lib_ecs/EntityManager.hpp:35-42 | returns the slot of the handle row in the pool of the given name, which is the live entity when that pool is the stored one |
| `EntityManagers.EntityManager.DeleteEverything` | libs/lib_ecs/EntityManager.hpp:87-93 | every registered pool and the handle pool end up empty |
| `EntityRuns.GrowAbs` | libs/lib_ecs/Entities/ArchetypePool.hpp:62-73 | growth is invisible to callers: it changes no live entity |
| `EntityRuns.CreateAbs` | libs/lib_ecs/EntityManager.hpp:152-184 | creation adds exactly one fresh key to the plain map from handles to entities, bound to a zeroed entity of the given status |
| `EntityRuns.BatchCreateAbs` | libs/lib_ecs/EntityManager.hpp:186-234 | batch creation adds n pairwise distinct fresh keys, all bound to the same zeroed entity |
| `EntityRuns.DestroyAbs` | libs/lib_ecs/EntityManager.cpp:63-71 | destruction removes exactly the key it names |
| `EntityRuns.DestroyNAbs` | libs/lib_ecs/EntityManager.cpp:110-130 | destroying several handles removes exactly their keys |
| `EntityRuns.WriteAbs` | libs/lib_ecs/Systems/Query.hpp:141-147 | a write changes the value of one key |
| `EntityRuns.StepRefines` | libs/lib_ecs/EntityManager.hpp:45-93 | every call a caller is allowed to make keeps the invariant and acts on the plain map as its specification says; created keys are fresh and distinct |
| `EntityRuns.UsedIsLive` | libs/lib_ecs/Entities/ArchetypePool.hpp:45-48 | the used sizes of the archetype pools add up to the number of live handles |
| `EntityRuns.RunConserves` | libs/lib_ecs/EntityManager.hpp:45-93 | over any run of calls the used sizes change by entities created minus entities destroyed |
| `EntityRuns.RunKeepsSlot` | libs/lib_ecs/EntityManager.hpp:27-42 | through any run a handle resolves to the same slot of the same pool until it is destroyed |
| `EntityRuns.NewManagerOk` | libs/lib_ecs/EntityManager.hpp:24-24 | runs start in a state that satisfies the invariant with an empty map |
| `EntityRuns.StaleReachable` | libs/lib_ecs/EntityManager.cpp:63-71 | register a pool, create one entity, destroy it: the handle then resolves although it is not live, so the second destruction of StaleDestroy is a call the manager takes |
| `EntityRuns.TooManyPools` | libs/lib_ecs/AEntityManager.cpp:76-82 | registration sets no bound: after 257 registrations the invariant holds, and creating in the last pool breaks it |
| `TypeSets.TypeSetIsSet` | libs/lib_ecs/Utils/TypeSet.hpp:37-52 | a type set has the members of its argument, each once |
| `TypeSets.TypeSetOrder` | libs/lib_ecs/Utils/TypeSet.hpp:26-52 | its order is the last occurrences of the argument, reversed |
| `TypeSets.TypeSetReverses` | libs/lib_ecs/Utils/TypeSet.hpp:37-52 | on a list without repeats it is the reversal |
| `TypeSets.TupConcatMember` | libs/lib_ecs/Utils/TupConcat.hpp:13-29 | the folded concatenation has exactly the members of its tuples |
| `TypeSets.TupConcatOrder` | libs/lib_ecs/Utils/TupConcat.hpp:13-29 | folding pairs from the left gives the tuples one after the other, in order, repeats included |
| `TypeSets.AllComponentsUnion` | libs/lib_ecs/Entities/Aspect.hpp:28-32 | the components of an aspect are the union over all aspects nested in it at any depth, without repeats |
| `TypeSets.ArchComponentsUnion` | libs/lib_ecs/Entities/Aspect.hpp:34-36 | an archetype has those and the two base components, without repeats |
| `QueryMatch.CorrectIffDistinct` | libs/lib_ecs/Systems/Query.hpp:50-75 | matching is right for every query (it succeeds iff all names are present, and slot j then holds the pool of name j) if and only if the component list has no repeats |
| `QueryMatch.WrongPoolExample` | libs/lib_ecs/Systems/Query.hpp:58-74 | with a repeated component a query can be given a pool for the wrong name |
| `QueryMatch.ArchetypesMatch` | libs/lib_ecs/Systems/Query.hpp:50-75 | every archetype built from aspects is matched correctly by every query |
| `QueryMatch.TooMany` | libs/lib_ecs/Systems/Query.hpp:60-66 | giving up at one match too many loses nothing: such a search can never end with the right number |
| `QueryMatch.Query.FindComponents` | libs/lib_ecs/Systems/Query.hpp:52-66 | the nested search with its early exit computes the specified match |
| `QueryMatch.Query.TryAddEntityPool` | libs/lib_ecs/Systems/Query.hpp:50-75 | appends the matched component pools, or leaves the query as it was |
| `QueryMatch.Query.Initialize` | libs/lib_ecs/AEntityManager.cpp:84-91 | offers every registered pool in order, on top of what the query already holds |
| `QueryMatch.ReuseDuplicates` | libs/lib_ecs/Systems/Query.hpp:93-97 | a query mapped through the manager that matches anything holds each matching pool once if and only if it has been used once |
| `SelfCross.SelfCrossLoop` | libs/lib_ecs/Systems/Query.hpp:309-325 | the loops over matched pools, each with each, and over their chunks make the specified calls in order, also when a pool is matched more than once |
| `SelfCross.TriangleLoop` | libs/lib_ecs/Systems/Query.hpp:422-437 | the triangle loop, with its skip on the diagonal of one chunk, makes the specified calls in order |
| `SelfCross.CallsAre` | libs/lib_ecs/Systems/Query.hpp:402-438 | with every pool matched once, exactly the pairs of slots whose first index is at least the second are called, each once, and no slot with itself |
| `SelfCross.CallTimes` | libs/lib_ecs/Systems/Query.hpp:309-325 | a call is made once for each match of its first pool and each match of its second |
| `SelfCross.PairVisits` | libs/lib_ecs/Systems/Query.hpp:411-428 | chunks are compared by identity: no slot is paired with itself, and two distinct slots of pools matched a and b times are visited a b times, twice that with equal indices in different chunks |
| `SelfCross.CallCount` | libs/lib_ecs/Systems/Query.hpp:276-330 | with M chunks of s slots over all matches, every pool matched t times, there are M s (M s + M - 2 t) / 2 calls |
| `SelfCross.InBoundsIff` | libs/lib_ecs/Systems/Query.hpp:408-409 | the loops stay in bounds on all pairs of chunks if and only if all chunks have one size |
| `QueryUses.VisitsAfterUses` | libs/lib_ecs/Systems/Query.hpp:111-115 | after t uses of the query through the manager the self cross visits each pair t t times, twice that with equal indices in different chunks |
| `QueryUses.NoPairTwiceIff` | libs/lib_ecs/Systems/Query.hpp:422-428 | a pair is visited at most once iff the query was not used, or used once and the indices differ |
| `StatusSystem.CallsAreLiving` | libs/lib_ecs/Systems/AMonoSystem.hpp:60-82 | in each matched pool, for a status other than none: one call for each live slot of that status, none for any other position |
| `StatusSystem.CallsAreHandles` | libs/lib_ecs/Systems/AMonoSystem.hpp:60-82 | those slots are exactly the ones live handles of the manager point to |
| `StatusSystem.NoneSeesFreeIff` | libs/lib_ecs/Systems/AMonoSystem.hpp:71-78 | for the status none, a run stays away from free slots if and only if there are none |
| `StatusSystem.RunOnPool` | libs/lib_ecs/Systems/Query.hpp:206-228 | the loops over chunks and indices of one matched pool call in chunk and index order and change exactly the rows called on |
| `StatusRuns.RunMatched` | libs/lib_ecs/Systems/Query.hpp:263-273 | the loop over the matched pools calls, match after match, what a run on the pool as it then is calls, and leaves the pools as those runs do |
| `StatusRuns.OnceIff` | libs/lib_ecs/Systems/AMonoSystem.hpp:60-82 | a whole run, whatever pools are matched how often: a position is called on iff it is a live slot of the status in a matched pool; every such slot is called on exactly once iff each lies in a pool matched once or is given another status by its first call |
| `StatusRuns.OnceIffMatchedOnce` | libs/lib_ecs/Systems/AMonoSystem.hpp:71-78 | for an operation that keeps the status, as one that is not handed it does: exactly once each iff no matched pool holding such an entity is matched twice |
| `StatusRuns.VisitCount` | libs/lib_ecs/Systems/AMonoSystem.hpp:60-82 | how often any position is called on, from its row and from how often its pool is matched; a free slot never |
| `StatusRuns.CallsInOrder` | libs/lib_ecs/Systems/Query.hpp:263-273 | with the pools matched in registration order, calls come in pool, chunk, index order and none comes twice |
| `RegisteredRuns.MatchedIsMatchList` | libs/lib_ecs/Systems/Query.hpp:50-75 | the pools a run goes over are those of the match list of the system's query, match by match |
| `RegisteredRuns.RegisteredOnceSeesLiving` | libs/lib_ecs/AEntityManager.cpp:33-82 | a status system registered once, in any interleaving of registrations: a run calls, in order and each once, exactly the slots of live handles whose entity has the status and whose pool has all requested components |
| `RegisteredRuns.RetriedSeesTwice` | libs/lib_ecs/AEntityManager.cpp:33-39 | a system whose first registration failed and was repeated calls its operation twice on every living entity of the status |
| `StatusSystem.Visit` | libs/lib_ecs/Systems/AMonoSystem.hpp:71-78 | one row is read and the operation applied in place when the status matches |
| `ParallelMap.ParallelIsSequential` | libs/lib_ecs/Systems/Query.hpp:239-274 | with pairwise disjoint pools every finished interleaving of the per-pool threads ends in the memory of the sequential loops, each slot stored to once |
| `ParallelMap.RunInv` | libs/lib_ecs/Systems/Query.hpp:239-262 | in every reachable state the slots before a thread's position hold the mapped value and all others the original one |
| `LostUpdates.AgreesIffDisjoint` | libs/lib_ecs/Systems/Query.hpp:239-274 | all finished interleavings of an increment agree with the sequential loops if and only if no two of the pools share a slot |
| `LostUpdates.LosesUpdate` | libs/lib_ecs/Systems/Query.hpp:239-262 | two threads on pools that share a slot have an interleaving that loses an update |
| `LostUpdates.SequentialAt` | libs/lib_ecs/Systems/Query.hpp:263-273 | the sequential loops increment a slot once for each pool holding it |
| `QueryThreads.OnceDisjoint` | libs/lib_ecs/Systems/Query.hpp:245-254 | matches that name each pool once give threads that share no slot |
| `QueryThreads.TwiceShared` | libs/lib_ecs/Systems/Query.hpp:93-97 | after two uses through the manager two threads share the slots of a matching pool |
| `QueryThreads.AgreesIffUsedOnce` | libs/lib_ecs/Systems/Query.hpp:93-97 | a query that matches a pool with a slot, mapped in parallel through the manager: every finished interleaving of an increment agrees with the sequential loops if and only if the query has been used at most once |
| `SystemTrees.InsertInsideTrace` | libs/lib_ecs/Systems/SystemTree.cpp:64-103 | with all nodes enabled, inserting inside a group succeeds iff the tree has it and puts exactly one contiguous block into the run order, at the first node of the group in pre-order |
| `SystemTrees.EditedNodeTrace` | libs/lib_ecs/Systems/SystemTree.cpp:66-95 | inside that node the block stands after the start systems, after the children or after the end systems, as the call asks |
| `SystemTrees.InsertSystemTrace` | libs/lib_ecs/Systems/SystemTree.cpp:64-80 | with all nodes enabled, a system is added iff its group exists; it then runs at the group's first node in pre-order: with atStart after the node's start systems and before its children, otherwise after everything in the node |
| `SystemTrees.InsertNodeInsideTrace` | libs/lib_ecs/Systems/SystemTree.cpp:82-103 | a node inserted inside a group runs in the group's first node: before its children with addBefore, after them otherwise, between start and end systems in either case |
| `SystemTrees.InsertBesideTrace` | libs/lib_ecs/Systems/SystemTree.cpp:105-118 | beside a direct child of the root the block stands immediately before or after that child's systems, and insertion succeeds iff there is such a child |
| `SystemTrees.InsertExtends` | libs/lib_ecs/Systems/SystemTree.cpp:82-119 | inserting a node adds exactly its groups to those the tree has, and disables nothing |
| `SystemTrees.AddGroupKeepsTrace` | libs/lib_ecs/Systems/SystemTree.cpp:26-62 | adding an empty group leaves the run order unchanged |
| `SystemTrees.GroupThenSystem` | libs/lib_ecs/Systems/SystemTree.cpp:26-62 | a group that was added changes nothing that runs; a system can then be added under its name, and it runs |
| `SystemTrees.FirstAtIsPreorder` | libs/lib_ecs/Systems/SystemTree.cpp:74-78 | the recursive search selects the first node of the group in pre-order, and finds one iff there is one |
| `SystemTrees.Descend` | libs/lib_ecs/Systems/SystemTree.cpp:64-80 | the recursive descent succeeds iff the group exists and otherwise leaves the node as it was |
| `SystemTrees.RunNode` | libs/lib_ecs/Systems/SystemTree.cpp:135-154 | the recursive run executes exactly the run order: start systems, children, end systems, and nothing of a disabled node |
| `SystemTrees.RunsIff` | libs/lib_ecs/Systems/SystemTree.cpp:135-154 | a system runs iff it stands in a node that is enabled with every node above it |
| `SystemTrees.SystemTree.AddSystem` | libs/lib_ecs/Systems/SystemTree.cpp:64-80 | the tree is replaced by the edited one, or left unchanged when false is returned; with all nodes enabled, true is returned iff the group exists and the new system then runs where atStart says |
| `SystemTrees.SystemTree.AddSystemTreeNode` | libs/lib_ecs/Systems/SystemTree.cpp:82-119 | inside or beside insertion, or an unchanged tree when false is returned; inside, the node runs where addBefore says |
| `SystemTrees.SystemTree.AddSystemGroup` | libs/lib_ecs/Systems/SystemTree.cpp:26-62 | the same for an empty group |
| `Registration.AnyOrder` | libs/lib_ecs/AEntityManager.cpp:33-82 | for systems registered once, whatever the interleaving of registrations, every system reachable in either tree occurs once and has been offered exactly the registered pools in order |
| `Registration.StepInStep` | libs/lib_ecs/AEntityManager.cpp:33-82 | one registration of any kind keeps that |
| `Registration.MatchesDoNotDependOnOrder` | libs/lib_ecs/Systems/AMonoSystem.hpp:23-26 | so the match list of a system's query depends only on the order of the pools |
| `Registration.RegisterIff` | libs/lib_ecs/AEntityManager.cpp:33-39 | without that restriction: registering leaves a system offered exactly the registered pools if and only if it had been offered none before |
| `Registration.RetryDuplicates` | libs/lib_ecs/AEntityManager.cpp:33-39 | a registration that failed for want of its group, repeated once the group exists, has offered every pool twice |
| `Registration.GrownSystems` | libs/lib_ecs/Systems/SystemTree.cpp:64-119 | a successful insertion adds exactly the new systems to its tree, counting repetitions |
| `Registration.RegisterPlaces` | libs/lib_ecs/AEntityManager.cpp:26-74 | registering with either tree changes that tree only: the system or node then runs where the flags of the call say, a new group changes nothing that runs, and a failed registration leaves both trees alone |
| `Registration.OfferEachAt` | libs/lib_ecs/Systems/SystemTree.cpp:121-133 | offering a pool to a node offers it once to each system of the node and to no other |
| `Registration.Registry.RegisterEntityPool` | libs/lib_ecs/AEntityManager.cpp:76-82 | both trees are offered the pool before it is appended |
| `Registration.Registry.RegisterSystem` | libs/lib_ecs/AEntityManager.cpp:33-39 | all pools are offered before the insertion is tried; the fixed variant does the same on the other tree |
| `Registration.Registry.RegisterSystemNode` | libs/lib_ecs/AEntityManager.cpp:41-49 | the same for every system of the node |
| `Registration.Registry.RegisterSystemGroup` | libs/lib_ecs/AEntityManager.cpp:26-31 | only the tree changes |
| `Registration.Registry.OfferToNode` | libs/lib_ecs/Systems/SystemTree.cpp:121-133 | the recursion offers the pool to start systems, children and end systems in that order |
| `FixedSteps.Clock.AddTime` | libs/lib_ecs/AEntityManager.cpp:93-117 | one frame: time passed grows by it, the accumulator keeps what is left of a step, and the fixed runs are the whole steps it held |
| `FixedSteps.LoopEndsIff` | libs/lib_ecs/AEntityManager.cpp:109-113 | the loop terminates if and only if the fixed step is positive or the accumulator is below it at once |
| `FixedSteps.FramesAccount` | libs/lib_ecs/AEntityManager.cpp:93-117 | for a positive step and frames of any non-negative lengths: the accumulator is in [0, f), total time is f times the fixed runs plus it, and the fixed runs are the whole part of total time over f |
| `FixedSteps.SlicingDoesNotMatter` | libs/lib_ecs/AEntityManager.cpp:93-117 | two ways to slice the same total time make the same number of fixed runs |
| `Packets.HeaderLayout` | libs/lib_net/Packet.cpp:11-11 | where the header fields stand on the wire, byte by byte, low byte first, two padding bytes last |
| `Packets.RoundTrip` | libs/lib_net/Packet.cpp:43-59 | a framed packet is read back whatever bytes follow it |
| `Packets.RoundTripIff` | libs/lib_net/Packet.cpp:16-23 | wrapping, serializing and reading back returns type and payload if and only if the payload has fewer than 65536 bytes |
| `Packets.PrefixFree` | libs/lib_net/Packet.cpp:47-53 | no proper prefix of a framed packet reads as a packet |
| `Packets.ReadIsPrefix` | libs/lib_net/Packet.cpp:43-59 | whatever is read is framed and is byte for byte the start of the input |
| `Packets.ReadStable` | libs/lib_net/Packet.cpp:43-59 | more bytes never change what was already readable |
| `Packets.UniqueParse` | libs/lib_net/super/Server.cpp:169-192 | two lists of framed packets on one byte stream agree: the shorter is a prefix of the longer |
| `Packets.SerializeInto` | libs/lib_net/Packet.cpp:7-14 | the buffer filled in place holds header and payload |
| `Packets.PairRoundTrip` | libs/lib_net/Packet.hpp:50-57 | a packed pair of 64-bit fields reads back from a payload of exactly its size and from no longer one |
| `Packets.PairLayout` | libs/lib_net/Packet.hpp:50-57 | of a packed pair the first eight bytes are the first field and the last eight the second, low byte first |
| `Buffers.FillView` | libs/lib_net/io/buffered/Buffer.hpp:72-99 | a fill appends to the unconsumed bytes exactly what the socket delivered; it fails iff there was room and the read failed, reports nothing iff there was no room or the read was empty, and otherwise reports how many bytes joined |
| `Buffers.FillKeepsBytes` | libs/lib_net/io/buffered/Buffer.hpp:72-99 | the bytes of a non-empty window stay where they are, and its start does not move |
| `Buffers.NoSpaceIff` | libs/lib_net/io/buffered/Buffer.hpp:74-81 | a fill finds no room if and only if unconsumed bytes reach the end of the array, and the whole array if and only if nothing is unconsumed |
| `Buffers.ConsumeView` | libs/lib_net/io/buffered/Buffer.hpp:50-53 | consuming drops that many bytes from the front, or all of them |
| `Buffers.RecvBuffer.FillBuf` | libs/lib_net/io/buffered/Buffer.hpp:72-99 | in place: an error iff there was room and the socket failed, an empty result iff there was no room or nothing was read, otherwise the number of bytes by which the unconsumed ones grew; nothing else changes them |
| `Buffers.RecvBuffer.ConsumeBytes` | libs/lib_net/io/buffered/Buffer.hpp:50-53 | only the start index moves, clamped to the filled part |
| `Buffers.BufWriter.Write` | libs/lib_net/io/buffered/BufWriter.hpp:92-103 | a message is appended whole, or not at all when it does not leave a byte of capacity free |
| `Buffers.BufWriter.FlushBuf` | libs/lib_net/io/buffered/BufWriter.hpp:156-174 | bytes sent plus bytes kept are the bytes held before, also for a partial write and for an error |
| `Buffers.AcceptedIsFramed` | libs/lib_net/io/buffered/BufWriter.hpp:92-96 | every message the writer takes has an exact 16-bit size field |
| `Framing.OnTcpData` | libs/lib_net/super/Server.cpp:157-194 | the parse loop handles exactly the packets at the front of the reader and leaves the incomplete rest: the application gets, in order and unchanged, exactly those that are no handshake requests, and exactly the requests with a 16-byte payload are answered with the id and number in it |
| `Framing.DispatchMeets` | libs/lib_net/super/Server.cpp:174-186 | each packet is handed to the application unless it is a handshake request; a request is answered with the pair whose encoding its payload is, and ignored only if the payload has another size |
| `Framing.AllMeetInOrder` | libs/lib_net/super/Server.cpp:173-192 | so over many packets nothing is handed over or answered twice, dropped, or out of order |
| `Framing.ParseAllSplits` | libs/lib_net/super/Server.cpp:169-192 | that splits the bytes losslessly into packets and a rest that holds none |
| `Framing.StepInv` | libs/lib_net/super/Server.cpp:157-194 | every step of the sender, the network, the context thread or the main thread, queue operations, locked reads, the nested locks of a close and unlocked decodes each on their own, keeps: consumed frames, window, bytes in flight and send buffer make up the accepted frames |
| `Framing.FillStep` | libs/lib_net/super/BaseServer.cpp:305-323 | a fill is the step its result names: new bytes are announced, an error leaves the connection as it is, an empty result starts to close it |
| `Framing.StepIsFill` | libs/lib_net/super/BaseServer.cpp:305-323 | and each of these steps is a fill with that result |
| `Framing.EndToEnd` | libs/lib_net/super/Server.cpp:157-194 | over every interleaving the packets handled are a prefix of the packets the writer accepted, in order and byte for byte; the application was given exactly the application packets among them and exactly the well-formed requests among them were answered |
| `Framing.DrainedIsComplete` | libs/lib_net/super/Server.cpp:157-194 | once network and event queue are drained, every accepted packet has been handled, given to the application or answered |
| `Framing.SpanStable` | libs/lib_net/super/Server.cpp:166-172 | a span taken under the lock denotes the same bytes at an unmoved position after any number of steps of the others |
| `Framing.DecodeInv` | libs/lib_net/super/Server.cpp:191-191 | decoding that span outside the lock reads the frame that is still at the front of the window |
| `Framing.ConsumeIsExact` | libs/lib_net/super/Server.cpp:187-190 | the clamp in consume never fires: the handled packet lies wholly inside the window |
| `Framing.NextHandledIff` | libs/lib_net/io/buffered/Buffer.hpp:72-99 | with the main thread idle on an open connection, some run handles the next accepted packet if and only if the connection is not about to close and the packet fits the array counted from the start of the window: the window is not moved while it holds a byte |
| `Framing.PacedIsHandled` | libs/lib_net/io/buffered/Buffer.hpp:72-99 | a sender that has at most one array of bytes outstanding since all it sent was last consumed never meets that: in every state its runs reach, the next packet can be handled while the connection is open and not closing |
| `Framing.ClosesIff` | libs/lib_net/super/BaseServer.cpp:310-322 | a fill that got nothing holds the reader's lock while it waits for the connection's lock: some run closes the connection iff the main thread is outside the parse loop or leaves it without another locked read; otherwise neither thread ever goes on |
| `Framing.LockReachable` | libs/lib_net/super/BaseServer.cpp:310-322 | a peer that closes while its data is about to be parsed leads there |
| `Framing.OverrunLosesPacket` | libs/lib_net/io/buffered/Buffer.hpp:79-81 | any two messages that fit the array one by one but not together can leave the second one unhandled for ever |
| `Connections.StepInv` | libs/lib_net/super/BaseServer.cpp:207-438 | every change of a table, queue operation and locked region of either thread, each a step of its own, keeps the connection table and the client table linked through the event queue |
| `Connections.GoneIff` | libs/lib_net/super/BaseServer.cpp:297-347 | over any run, one step takes a stored connection away iff it is an acted-on request to disconnect it, or an error, a failed write or an empty read on the descriptor it was accepted with; the context thread is then about to announce its disconnection, and in no other case |
| `Connections.AnnouncedNext` | libs/lib_net/super/BaseServer.cpp:427-427 | what the context thread is about to announce is the next event pushed |
| `Connections.AskedIsGone` | libs/lib_net/super/BaseServer.cpp:205-205 | a request to disconnect is carried out: over any run, once no request waits or is being acted on, the connection is gone |
| `Connections.ReadIff` | libs/lib_net/super/BaseServer.cpp:280-323 | one step announces data for an id iff data arrived on its descriptor or on the outgoing connection, and the outgoing connection is announced as gone iff it broke: an empty read on it is no reason |
| `Connections.NoReadIsLost` | libs/lib_net/super/BaseServer.cpp:207-233 | over any run, the main thread has gone through a live connection's data once for each announcement it has popped, but for the one it is busy with |
| `Connections.UnhandledReplaysToLive` | libs/lib_net/super/BaseServer.cpp:207-233 | in every reachable state, replaying the unhandled events over the clients' connections gives the live ids, plus the one erased but not announced yet, less the one stored and not announced yet or announced as gone; exactly the live ids iff the context thread is at neither place |
| `Connections.HalfStepsReachable` | libs/lib_net/super/BaseServer.cpp:423-427 | both places are reached, after an accept and after an accepted connection broke |
| `Connections.EventGrammar` | libs/lib_net/super/BaseServer.cpp:245-438 | each connection id has one connection event, then reads, then at most one disconnection, which is missing exactly while the id is live and settled or its disconnection is about to be pushed |
| `Connections.HeldEventFindsClient` | libs/lib_net/super/Server.cpp:116-135 | a read or disconnection the main thread holds always has exactly one client: the fallback branch is never reached |
| `Connections.UseThrowsIff` | libs/lib_net/super/BaseServer.cpp:225-227 | the connection is looked up without the lock and used under it: the use throws iff some step in between erased the connection |
| `Connections.UseCanThrow` | libs/lib_net/super/BaseServer.cpp:225-227 | and a run does: the connection breaks right after its data was looked up |
| `Connections.PhaseShape` | libs/lib_net/super/BaseServer.cpp:390-428 | the running summary of one id's events that the invariant uses says exactly that grammar |
| `Queues.TsQueue.Push` | libs/lib_net/super/TSQueue.hpp:48-64 | appends to everything ever pushed |
| `Queues.TsQueue.WaitPop` | libs/lib_net/super/TSQueue.hpp:66-78 | values leave in the order they were pushed; nothing is returned only when the queue is stopped and drained |
| `Queues.TsQueue.TryPop` | libs/lib_net/super/TSQueue.hpp:80-105 | nothing is returned exactly when nothing is queued |
| `Queues.TsQueue.Clear` | libs/lib_net/super/TSQueue.hpp:107-113 | drops exactly what was queued |
| `Queues.TsQueue.Stop` | libs/lib_net/super/TSQueue.hpp:121-128 | drops nothing |
| `Uuids.UuidGenerator.NewUuid` | libs/lib_net/uuid/UuidGenerator.hpp:41-50 | returns the first draw that was never issued before |
| `Handshake.TransformInjective` | libs/lib_net/super/Server.cpp:22-27 | different numbers give different results, none is its own result, and the secret is the one in the source |
| `Handshake.StepInv` | libs/lib_net/super/Server.cpp:105-261 | every connection, disconnection and datagram with a real source keeps the invariant that links clients, cache and the history of datagrams |
| `Handshake.DispatchIsProved` | libs/lib_net/super/Server.cpp:141-154 | over any run, a packet is dispatched from an address to a client only after that address sent the transform of the number told to that client |
| `Handshake.CacheIsReverseIndex` | libs/lib_net/super/Server.cpp:196-204 | a live client is reported as connected iff it was verified; its address then maps back to it, and no two live clients share one |
| `Handshake.ClientIsFromJoin` | libs/lib_net/super/Server.cpp:105-114 | over any run, a live client has the connection and the number of the one join that issued its id |
| `Handshake.DisconnectSelects` | libs/lib_net/super/Server.cpp:119-122 | over any run, disconnecting a connection that was joined on once selects exactly the client that joined on it, or nobody if that has gone |
| `Handshake.JoinThenDisconnect` | libs/lib_net/super/Server.cpp:105-135 | joining on a connection no live client has and disconnecting it restores the clients, and the cache unless the default address is in it |
| `Handshake.DisconnectKeepsOthers` | libs/lib_net/super/Server.cpp:116-135 | whoever else disconnects, a client keeps its record and stays connected or not as it was |
| `Handshake.DefaultAddressIff` | libs/lib_net/super/Server.cpp:196-204 | over any run, datagrams from the default address included: a live client that was never verified is reported as connected iff a proof for some client came from the default address and no client at that address has left since |
| `Handshake.StaleEntryIff` | libs/lib_net/super/Server.cpp:125-129 | a departing client leaves a cache entry behind if and only if it had been verified from two addresses |
| `Handshake.StaleForever` | libs/lib_net/super/Server.cpp:141-154 | such an entry never names a later client, and nobody is ever verified from its address again |
| `Handshake.StaleReachable` | libs/lib_net/super/Server.cpp:238-261 | a client that answers from two addresses and leaves does leave such an entry |
| `Handshake.HonestHandshake` | libs/lib_net/super/Server.cpp:238-261 | a live client that answers the number it was told, from an address not cached, is verified |
| `Handshake.ResponseIff` | libs/lib_net/super/Server.cpp:238-249 | a datagram counts as a response iff it starts with a response packet whose payload is exactly the id and the number |
| `Handshake.EchoIsRejected` | libs/lib_net/super/Server.cpp:248-255 | a client that sends back the number itself is not verified |
| `Handshake.AdmittedIff` | libs/lib_net/super/BaseServer.cpp:350-370 | the first n bytes of a packet, whole or cut off, pass the filter iff the size field they show is not zero and announces no more than the buffer holds: the zeros of the buffer let cut-off packets through |
| `Handshake.CutOffIsIgnored` | libs/lib_net/super/Server.cpp:141-154 | a cut-off packet that passed changes nothing |
| `Handshake.Server.OnTcpConnection` | libs/lib_net/super/Server.cpp:105-114 | stores an unverified client with this connection and number under a fresh id and builds the request packet |
| `Handshake.Server.OnTcpDisconnection` | libs/lib_net/super/Server.cpp:116-135 | removes the first client of the connection and its current cache entry, or does nothing |
| `Handshake.Server.FindByConnection` | libs/lib_net/super/Server.cpp:119-122 | finds the first client, in id order, of a connection |
| `Handshake.Server.OnUdpData` | libs/lib_net/super/Server.cpp:141-154 | dispatches to the cached client, or treats the datagram as a handshake response |
| `Polls.AddLookup` | libs/lib_net/net/Poll.cpp:9-22 | adding sets the input bit of one descriptor, keeps its output bit and all other descriptors, and keeps descriptors distinct |
| `Polls.AddWriteLookup` | libs/lib_net/net/Poll.cpp:54-67 | the same for the output bit |
| `Polls.RemoveOrder` | libs/lib_net/net/Poll.cpp:84-91 | removal deletes the one entry of the descriptor, if any, and keeps the others in order |
| `Polls.RemoveLookup` | libs/lib_net/net/Poll.cpp:84-91 | afterwards the descriptor is not watched and all others are as before |
| `Polls.RemoveWriteLookup` | libs/lib_net/net/Poll.cpp:141-153 | clears the output bit, and drops the entry exactly when nothing else is waited for |
| `Polls.ShiftOut` | libs/lib_net/net/Poll.cpp:147-147 | deletes exactly one entry and keeps the rest in order although the value compared against is overwritten on the way |
| `Polls.Poll.AddRead` | libs/lib_net/net/Poll.cpp:9-22 | the scan and append have the specified effect |
| `Polls.Poll.AddOutput` | libs/lib_net/net/Poll.cpp:54-67 | the scan and append have the specified effect |
| `Polls.Poll.RemoveFd` | libs/lib_net/net/Poll.cpp:84-91 | the filter loop has the specified effect |
| `Polls.Poll.RemoveOutput` | libs/lib_net/net/Poll.cpp:141-153 | the scan with its aliased removal has the specified effect |
| `Polls.Poll.PrepareWrite` | libs/lib_net/super/BaseServer.cpp:464-520 | visits every stream and the datagram socket once |
| `Polls.PrepareLookup` | libs/lib_net/super/BaseServer.cpp:464-520 | each visited descriptor then agrees with its writer, all others are as before |
| `Polls.StepInv` | libs/lib_net/super/BaseServer.cpp:245-272 | accepts, closes, writes and flushes keep descriptors distinct and every live stream watched for input |
| `Polls.AgreesWithWriters` | libs/lib_net/super/BaseServer.cpp:464-520 | after any run that ends by preparing, a live stream waits for input, and for output if and only if its writer holds data |

## Left out

- ParallelMap.ParallelIsSequential: the callbacks before and after each pool and chunk, and thread creation itself; a thread's work on one slot is one load and one store.
- LostUpdates.AgreesIffDisjoint: stated for an increment on natural numbers; an operation that is its own repetition would not show the lost update.
- FixedSteps.Clock.AddTime: exact reals stand for the source's double and float, so rounding is not captured; what the systems do with the time is not part of it.
- Framing.StepInv: the network delivers bytes in order and loses none until the connection closes, and bytes of a closed connection are not followed further. It is an accepted connection; the outgoing one ignores a fill that got nothing and has no connection lock.
- Connections.StepInv: the outgoing connection is tested and used without any lock, which is one step here, and the two writes that reset it are one step. That an erase also waits for the parse loop, and can wait for ever, is in `Framing` and not repeated here.
- StatusRuns.RunMatched: the callbacks around pools and chunks, and an operation that creates or destroys entities while the run goes on.
- Queues.TsQueue.WaitPop: blocking, wake-ups and time-outs; the method is the moment at which a waiting caller goes on.
- Uuids.UuidGenerator.NewUuid: the random source is a given list that contains a new value; the source would loop for ever once all ids are issued. `delete_uuid` and `reset`, which nothing in the library calls on a generator, are not modelled.
- Handshake.StepInv: the hosting side only (`_udp_confirmed` false). Addresses and ids are naturals compared for equality; the order on addresses, where the two address families do not compare, is not modelled.
- Handshake.HonestHandshake: ids are below 2^64 on the wire; the transport of the request and the reply is not repeated here.
- EntityManagers.EntityManager.CreateEntities: returns positions; the lazy view over a shared static buffer that the source returns is not modelled, so neither is a later batch overwriting it.
- Storage.ArchetypePool.SetCellAt: a component scalar is a raw bit pattern, and columns are owned by the pool; the source passes component pools by value with shared chunk pointers, which has the same effect on elements.
- Packets.SerializeInto: a little-endian host is assumed, as on the wire the source copies the header's memory.
- EntityRuns.StepRefines: single creation appears as a batch of one, which `EntityBatch.BatchCreateIsCreateN` proves equal.
- The cross of two different queries: a plain product of loops without the triangle; and the parallel cross, which repeats the parallel map.
- `EntityManager::_createEntities` outside the template (`libs/lib_ecs/EntityManager.cpp`), which no caller uses.
- `startCallback` of a system node, which may change the tree while it runs; run-step data passed to systems.
- `BufReader::read`, `Buffer::unconsume`, `consume_with`, `BufWriter::write_all`, `write_cold` and `write_vectored`: not on the server's path.
- Sockets, address parsing and printing, `getaddrinfo`, the poll system call: operating system calls, which appear as steps that deliver or accept some bytes.
- Destructors, mutex and vector lifetime, double close, and the capacity `std::vector::reserve` gives beyond what is asked.
- Rendering, assets, module loading, logging, the physics systems and the build files.
