# Verified models of netsystem's infrastructure

netsystem rewrites the core of VPP in Rust. This project models its infrastructure structures and its cross-thread
protocols in Dafny 4.11 and proves what they promise. Code that works in place is modelled by classes and methods with
loops, whose contracts tie each call to a specification; concurrent code is modelled as a step system, one atomic
operation per step; the specifications then carry the theorems over runs, round trips and refinements.

`dafny verify dfyconfig.toml` checks every file.

## What is modelled

- **Timer wheel** (`TimerRuns`, `WheelArithmetic`, `TimerArena`, `TimerWheel`, `TimerIdTables`, `TimerIds`): one to three
  rings with an optional overflow list, circular doubly linked lists in an index arena, cascades, and the layer that names timers by
  slot, generation and id. The invariant says, for every timer, in which list it waits and how its due tick compares
  with the current tick digit by digit. Every operation is proved to be a step of a small abstract wheel, and in every
  run of that wheel each timer left alone fires once, in its due tick.
- **Lock-free ring** (`SlotIndex`, `LockFreeRing`, `RingCalls`): the multi-producer multi-consumer ring as a step system
  for any number of threads, down to each load, compare-and-swap and store, with spurious failures of the weak exchange;
  and over every run what each whole call has done when it returns.
- **Handoff queues** (`HandoffQueue`, `HandoffCalls`, `HandoffWorker`, `HandoffCopy`, `ThreadGrouping`): reservation of
  several slots by one compare-and-swap, copying in any order, publication by the first word, consumption, how much of
  each offered batch is accepted over every interleaving, the pending bitmap of a worker with any number of queues, the
  vectorised slot copies, and the grouping of a frame by target thread.
- **Red-black tree** (`RbShapes`, `RbBalance`, `RbFacts`, `SortedEntries`, `RbTree`, `RbIter`): the pool of nodes with
  a mutable nil sentinel. The proof follows a focus and its surroundings, so each local rewrite is a local argument; the
  left and right mirror images of the source are one method over a side.
- **Page allocator** (`PageTiling`, `ChunkList`, `Pmalloc`, `PmallocMap`, `PmallocMain`): the chunk list of a page refines
  a tiling of its blocks, and the address map is a bijection with the live chunks of all pages.
- **Heap** (`HeapRuns`, `Heap`): the maps of allocations and free runs refine the same kind of tiling.
- **IPv4 mtrie** (`MtrieLeaf`, `Mtrie`, `MtrieRoutes`): the 16-8-8 tables against a function from addresses to values.
- **Registration order** (`InitOrder`, `TopologicalOrder`): the ready heap against cycles and greedy orders.
- **Internet checksum** (`Checksum`): chunks, vector widths and odd splits against the one's-complement sum of RFC 1071.
- **Node graph** (`NodeTables`, `NodeGraph`): sibling cliques, named next nodes and batches of edges that are added or rolled back.
- **Sparse vector** (`SparseVec`): rank bitmaps against a map.

`Common`, `Arithmetic` and `BitWords` hold shared definitions.

## Where a promise does not hold as such

- A wheel of two or three rings without overflow accepts intervals up to its horizon that it fires early.
  `WheelArithmetic.EarlyExample` gives one, and `WheelArithmetic.OnTimeIffPunctual` proves which accepted intervals are
  on time: exactly those for which the interval plus the current tick's digits below the top ring stays under the horizon.
- In the timer-id layer, cancelling, re-arming or resetting a timer that has expired and was not collected can stop
  another timer, which has got its wheel entry. `TimerIdLayer.CancelStopsAnother` is a run that does so.
  `TimerIdTables.StopMatched` gives the exact condition: no uncollected bit that is cleared points at an entry running a
  timer that is not itself cleared. Collecting is safe exactly for payloads that are awaited (`TimerIdTables.TakeMatched`),
  and an update means its own timer exactly when its bit is not aliased (`TimerIdTables.RetimeMatched`).
- The payload of a timer is its flat index cut to 32 bits, and names the timer exactly when the index fits
  (`TimerIdTables.StartMatched`).
- A failed resolution of named next nodes keeps what it had resolved, so siblings may be left with different tables, as
  in the run `NodeGraph.FailedThenResolved`. `NodeTables.StoppedUnchanged` and `NodeTables.StoppedAgreement` say exactly
  when the tables and the agreement of siblings survive; the next successful resolution restores it.
- Full and empty answers of the lock-free ring may be spurious, when another thread has overtaken the caller between its
  loads: `LockFreeRing.SpuriousFull` and `LockFreeRing.SpuriousEmpty` are such runs. `LockFreeRing.FullMeans` and
  `LockFreeRing.EmptyMeans` say for every reachable state, current head or stale, exactly when each answer is given.
- The page allocator aligns a block within its page. The address is aligned exactly when the page address is; beyond the
  page size that can fail, as in `PmallocMain.MissedAlignment`.
- A 32-bit mtrie value whose top bit is set loses it, and a ply index from 2^31 - 1 on does not fit a leaf:
  `MtrieLeaves.ValueSurvives` and `MtrieLeaves.PlySurvives` give the exact conditions, and `MtrieRoutes.Mtrie.Insert` and
  `MtrieRoutes.FromEntries` state what is stored for every value.

## Reading the model

- Positions and ticks of the concurrent queues are unbounded numbers; ticks, offsets, slot numbers and leaf words are
  bounded where the source bounds them.
- `Pool` indices are fresh natural numbers without a 32-bit limit, invalid indices are `None`, tree keys are integers. `BTreeMap`, `HashMap`,
  `BinaryHeap` and `sort_by_key` appear as maps, sets and sequences with the queries the source makes of them.
- Slot counts of the timer wheel and sizes of the rings are any positive number, of which the powers of two are a case.

## Model

| member | source | states |
|---|---|---|
| `TimerRuns.FiresExactlyOnce` | crates/hammer-infra/src/timer_wheel.rs:165-365 | Over every run of start, stop, update and tick steps, a timer nobody stops or updates is still running before its due tick, is fired in exactly the step whose tick is its due tick, fires in no other step, and is gone afterwards. |
| `TimerRuns.AllDueLater` | crates/hammer-infra/src/timer_wheel.rs:248-277 | In every reachable state every live timer is due strictly after the current tick. |
| `WheelArithmetic.OffsetsAreDigits` | crates/hammer-infra/src/timer_wheel.rs:429-469 | The offsets built with per-ring carries are the base-`SLOTS` digits of the expiration tick, on one, two and three rings, and zero for rings that are not there. |
| `WheelArithmetic.OffsetsChooseHome` | crates/hammer-infra/src/timer_wheel.rs:414-427 | The branch taken by direct placement picks the list of the highest ring on which the expiration tick differs from the current tick. |
| `WheelArithmetic.OverflowIff` | crates/hammer-infra/src/timer_wheel.rs:471-479 | An interval goes to the overflow list exactly when its expiration lies in a later horizon (`SLOTS` cubed ticks). |
| `WheelArithmetic.VisitFacts` | crates/hammer-infra/src/timer_wheel.rs:334-365 | The first tick at which a ring comes round to a slot with matching lower digits is after now, not after the expiration, at most one turn away, and equals the expiration exactly when that is at most one turn away. |
| `WheelArithmetic.DuePlaced` | crates/hammer-infra/src/timer_wheel.rs:414-427 | A directly placed timer satisfies the digit invariant of its ring for the tick in which it will fire, and that tick is after now and not after the expiration. |
| `WheelArithmetic.OnTimeIffPunctual` | crates/hammer-infra/src/timer_wheel.rs:536-547 | For every accepted interval the wheel never fires late, and fires in the tick asked for if and only if there is one ring, or the overflow list is in use, or the interval plus the low digits of the current tick stays inside one turn of the top ring. |
| `WheelArithmetic.EarlyExample` | crates/hammer-infra/src/timer_wheel.rs:586-592 | An accepted interval that is not punctual: on two rings of 32 slots, 1023 ticks asked for at tick 1 fire at tick 32. |
| `WheelArithmetic.AllowedGeometries` | crates/hammer-infra/src/timer_wheel.rs:549-585 | The geometries of the model are one to three rings with a positive slot count within 32 bits, the powers of two the source asks for among them, and a horizon, slots to the power of the rings, within 64 bits. |
| `WheelArithmetic.AcceptedIntervals` | crates/hammer-infra/src/timer_wheel.rs:536-547 | With three rings and the overflow list every non-zero interval that keeps the tick within 64 bits is accepted; without the list exactly those below the slot count to the power of the number of rings, and on a single ring also the slot count itself. |
| `WheelArithmetic.TickKeepsPlaced` | crates/hammer-infra/src/timer_wheel.rs:248-277 | Advancing the clock by one keeps every timer placed, up to the lists whose slot has just come up. |
| `WheelArithmetic.IndicesStep` | crates/hammer-infra/src/timer_wheel.rs:248-288 | After the ring indices advance with their carries they are again the digits of the tick, and each wrap flag tells exactly whether the tick is a multiple of that ring's turn. |
| `WheelArithmetic.Cascade` | crates/hammer-infra/src/timer_wheel.rs:314-349 | A timer that comes up in a slower ring has exactly its next lower digit left to wait, so it belongs in the ring below. |
| `WheelArithmetic.Settled` | crates/hammer-infra/src/timer_wheel.rs:290-365 | Once the list that came up on a ring has been emptied, the stricter placement invariant of that ring holds again. |
| `WheelArithmetic.NotPast` | crates/hammer-infra/src/timer_wheel.rs:290-312 | At the first tick of a horizon no overflow entry lies in the past. |
| `TimerArena.PushKeepsLinked` | crates/hammer-infra/src/timer_wheel.rs:488-495 | Pushing an entry behind a list head keeps every circular list of the arena doubly linked and puts the entry first on that list alone. |
| `TimerArena.UnlinkKeepsLinked` | crates/hammer-infra/src/timer_wheel.rs:497-505 | Unlinking an entry through its own links leaves every list circular and doubly linked, without that entry. |
| `TimerArena.TakeKeepsLinked` | crates/hammer-infra/src/timer_wheel.rs:507-512 | Taking a list leaves its head alone, and the detached chain still walks through exactly the entries that were on it. |
| `TimerWheels.TimerWheel.constructor` | crates/hammer-infra/src/timer_wheel.rs:112-148 | A new wheel is valid, at tick 0, with no timers. |
| `TimerWheels.TimerWheel.Start` | crates/hammer-infra/src/timer_wheel.rs:165-174 | Succeeds exactly for non-zero intervals that keep the tick within 64 bits and, unless there are three rings with an overflow list, lie below the slot count to the power of the number of rings (or equal the slot count on one ring); zero has its own error. The handle was not in use, and it makes exactly the `Started` step of the abstract run, with the due tick of the placement. |
| `TimerWheels.TimerWheel.Stop` | crates/hammer-infra/src/timer_wheel.rs:176-185 | Answers whether the handle is live; then removes exactly that timer. |
| `TimerWheels.TimerWheel.Update` | crates/hammer-infra/src/timer_wheel.rs:187-202 | Fails exactly for the intervals that starting would refuse, with the same errors, answers whether the handle is live, and then makes exactly the `Updated` step, keeping the payload. |
| `TimerWheels.TimerWheel.HandleIsLive` | crates/hammer-infra/src/timer_wheel.rs:205-207 | The arena's live flag agrees with the set of running timers. |
| `TimerWheels.TimerWheel.Len` | crates/hammer-infra/src/timer_wheel.rs:156-158 | The stored count is the number of running timers. |
| `TimerWheels.TimerWheel.Expire` | crates/hammer-infra/src/timer_wheel.rs:209-221 | Pushes the payloads of exactly the timers due up to the tick it reaches, stops early only after the tick that exhausted the expiration budget, and finishes that tick. |
| `TimerWheels.TimerWheel.FirstExpiresInTicks` | crates/hammer-infra/src/timer_wheel.rs:223-237 | The distance from the current slot to the nearest slot with a set bit, or the slot count without one; no timer fires earlier than that distance or the next wrap of the fast ring. |
| `TimerWheels.TimerWheel.AdvanceOneTick` | crates/hammer-infra/src/timer_wheel.rs:248-277 | One tick pushes exactly the timers due in the new tick, each once, and keeps the invariant: the `Ticked` step of the abstract run. |
| `TimerWheels.TimerWheel.AdvanceRing` | crates/hammer-infra/src/timer_wheel.rs:279-288 | The ring index moves on by one modulo the slot count and the result tells whether it wrapped. |
| `TimerWheels.TimerWheel.ProcessOverflow` | crates/hammer-infra/src/timer_wheel.rs:290-312 | At a new horizon the overflow entries that are due are pushed and the others move to their rings or stay. |
| `TimerWheels.TimerWheel.CascadeGlacier` | crates/hammer-infra/src/timer_wheel.rs:314-332 | When the middle ring wraps, the third-ring slot that came up is emptied into the lower rings or pushed. |
| `TimerWheels.TimerWheel.CascadeSlow` | crates/hammer-infra/src/timer_wheel.rs:334-349 | When the fast ring wraps, the second-ring slot that came up is emptied into the fast ring or pushed. |
| `TimerWheels.TimerWheel.ExpireFastSlot` | crates/hammer-infra/src/timer_wheel.rs:351-365 | The timers of the current fast slot are exactly due now, and all of them are pushed. |
| `TimerWheels.TimerWheel.ExpireTimer` | crates/hammer-infra/src/timer_wheel.rs:367-374 | Pushes the payload of one due timer and frees its entry. |
| `TimerWheels.TimerWheel.AllocateTimer` | crates/hammer-infra/src/timer_wheel.rs:376-393 | Hands out a free or a new entry, different from every running timer, without touching the other entries. |
| `TimerWheels.TimerWheel.FreeTimer` | crates/hammer-infra/src/timer_wheel.rs:395-404 | Returns one entry to the free list; the entries stay accounted for as heads, live or free. |
| `TimerWheels.TimerWheel.PlaceTimer` | crates/hammer-infra/src/timer_wheel.rs:406-412 | Puts an unlinked timer in the overflow list or a ring so that the whole invariant holds. |
| `TimerWheels.TimerWheel.PlaceTimerDirect` | crates/hammer-infra/src/timer_wheel.rs:414-427 | Links a timer into the ring list of its digits, in the middle of a tick as well as between ticks. |
| `TimerWheels.TimerWheel.AddToList` | crates/hammer-infra/src/timer_wheel.rs:488-495 | Links one loose entry behind a head without disturbing the chain being walked. |
| `TimerWheels.TimerWheel.Unlink` | crates/hammer-infra/src/timer_wheel.rs:497-505 | Takes one live timer off its list. |
| `TimerWheels.TimerWheel.TakeList` | crates/hammer-infra/src/timer_wheel.rs:507-512 | Empties one list and returns the start of the chain of exactly its members. |
| `TimerWheels.TimerWheel.ValidateInterval` | crates/hammer-infra/src/timer_wheel.rs:536-547 | Accepts exactly the intervals described for starting, and names zero. |
| `TimerIdLayer.FlatRoundTrip` | crates/hammer-infra/src/timer_wheel.rs:729-741 | The flat index of a slot and a timer id determines both. |
| `TimerIdLayer.TimerIds.constructor` | crates/hammer-infra/src/timer_wheel.rs:604-609 | Starts with empty tables on an empty wheel. |
| `TimerIdLayer.TimerIds.ArmTimer` | crates/hammer-infra/src/timer_wheel.rs:611-625 | In every state, collected or not: the exact tables afterwards (slot claimed, the bit of the timer cleared and what ran at its entry stopped, then started under an unused handle, with the flat index cut to 32 bits as payload, exactly when the interval is accepted). The bijection of set bits and timers is kept if and only if no uncollected bit that was cleared points at an entry running a timer of another flat index, and the flat index of a started timer fits 32 bits; then exactly the one timer is armed anew. |
| `TimerIdLayer.TimerIds.CancelTimer` | crates/hammer-infra/src/timer_wheel.rs:627-644 | The exact tables and answer in every state. The bijection is kept if and only if the bit is not an uncollected one whose entry runs another timer; then exactly that timer is disarmed and the answer says whether it was armed. |
| `TimerIdLayer.TimerIds.UpdateTimer` | crates/hammer-infra/src/timer_wheel.rs:646-665 | The exact tables in every state, including a bit whose entry is no longer live, which is cleared and armed anew. The bijection is kept if and only if claiming the slot keeps it and the payload of a timer armed anew tells its flat index; the armed timers change in just this timer if and only if, besides, its bit is not aliased. |
| `TimerIdLayer.TimerIds.TakeExpiredTimer` | crates/hammer-infra/src/timer_wheel.rs:667-680 | Names slot, generation and id exactly when the bit is set. Collecting keeps the bijection if and only if the payload is awaited: otherwise a running timer loses its bit. |
| `TimerIdLayer.TimerIds.PrepareSlot` | crates/hammer-infra/src/timer_wheel.rs:682-706 | The tables reach the slot; a generation change clears exactly the bits of that slot and stops what they point at; every other bit stays, and every other slot keeps its generation. |
| `TimerIdLayer.TimerIds.ResetSlot` | crates/hammer-infra/src/timer_wheel.rs:708-727 | Clears exactly the bits of the slot and stops what runs at their entries; the bijection is kept if and only if none of them is aliased to a timer outside the slot. |
| `TimerIdLayer.TimerIds.Expire` | crates/hammer-infra/src/timer_wheel.rs:209-221 | Reaches the last tick unless the expiration budget was met, in which case the timers that met or exceeded it were all due in the tick reached; the count is the number fired. From a bijection, the timers that stop being armed are exactly those due by that tick, and their bits wait to be collected. |
| `TimerIdLayer.TimerIds.StopFlat` | crates/hammer-infra/src/timer_wheel.rs:634-643 | Clears one set bit, stops what runs at its entry, and passes on the answer of the wheel. |
| `TimerIdLayer.TimerIds.UpdateClaimed` | crates/hammer-infra/src/timer_wheel.rs:655-664 | The part of an update after the slot is claimed: retimes what runs at the entry of a set bit, or clears the bit and arms the timer. |
| `TimerIdTables.StopMatched` | crates/hammer-infra/src/timer_wheel.rs:634-643 | For any set of flat indices: clearing their bits and stopping their entries keeps the bijection if and only if no uncollected bit among them points at an entry running a timer outside the set. |
| `TimerIdTables.StopKeeps` | crates/hammer-infra/src/timer_wheel.rs:634-643 | Under that condition exactly the armed timers of the set are disarmed. |
| `TimerIdTables.StopLoses` | crates/hammer-infra/src/timer_wheel.rs:634-643 | Otherwise an armed timer outside the set is lost: its bit stays set and is not awaited, though nothing runs for it. |
| `TimerIdTables.TakeMatched` | crates/hammer-infra/src/timer_wheel.rs:667-680 | Clearing a bit without stopping keeps the bijection if and only if the bit is uncollected. |
| `TimerIdTables.ExpireMatched` | crates/hammer-infra/src/timer_wheel.rs:209-221 | Expiring keeps the bijection and moves exactly the due timers from armed to uncollected. |
| `TimerIdTables.RetimeMatched` | crates/hammer-infra/src/timer_wheel.rs:655-661 | Retiming the entry of a set bit keeps the bijection, and updates the timer meant if and only if the bit is not aliased. |
| `TimerIdTables.StartMatched` | crates/hammer-infra/src/timer_wheel.rs:619-623 | Starting a timer keeps the bijection if and only if its payload is its flat index. |
| `TimerIdLayer.UpdateMeans` | crates/hammer-infra/src/timer_wheel.rs:646-665 | From a bijection, an update changes the armed timers in just the timer meant if and only if its bit is not aliased and a timer armed anew has its flat index as payload. |
| `TimerIdLayer.ClaimMatched` | crates/hammer-infra/src/timer_wheel.rs:682-706 | Claiming a slot keeps the bijection if and only if no uncollected bit of the slot it clears is aliased to a timer outside it. |
| `TimerIdLayer.ArmMatched` | crates/hammer-infra/src/timer_wheel.rs:611-625 | The same for arming, over the slot on a generation change and the timer itself, and only if the payload tells the flat index. |
| `TimerIdLayer.UpdateMatched` | crates/hammer-infra/src/timer_wheel.rs:646-665 | The same for updating, over the slot alone, and only if the payload of a timer armed anew tells the flat index. |
| `TimerIdLayer.ReusedEntry` | crates/hammer-infra/src/timer_wheel.rs:376-404 | A run: timer 0 is armed, expires and is not collected, and timer 1 gets the same wheel entry. |
| `TimerIdLayer.CancelStopsAnother` | crates/hammer-infra/src/timer_wheel.rs:627-644 | The run continued: cancelling timer 0 answers true and stops timer 1, whose bit stays set. |
| `LockFreeRing.StepKeepsInv` | crates/hammer-infra/src/ring.rs:621-696 | Every atomic step of an enqueue or dequeue by any thread, from any state that satisfies the invariant, is well defined and keeps the invariant. |
| `LockFreeRing.EveryRunSafe` | crates/hammer-infra/src/ring.rs:621-696 | Every state of every run of any number of producers and consumers satisfies the invariant. |
| `LockFreeRing.NoSlotShared` | crates/hammer-infra/src/ring.rs:644-654 | Two threads that hold a reservation never hold the same slot, whether they produce or consume. |
| `LockFreeRing.ReadSeesItsValue` | crates/hammer-infra/src/ring.rs:683-690 | A consumer about to read finds the slot written, with the value enqueued at its position; the position was not delivered before and no producer is at the slot. |
| `LockFreeRing.CursorOrder` | crates/hammer-infra/src/ring.rs:621-696 | Consumer tail, consumer head, producer tail and producer head are always in that order and reservations never exceed the capacity. |
| `LockFreeRing.AtRest` | crates/hammer-infra/src/ring.rs:621-696 | With no operation in flight every reserved position is published, tails meet heads, and everything claimed was delivered. |
| `LockFreeRing.SoloEnqueue` | crates/hammer-infra/src/ring.rs:621-656 | From rest, an undisturbed enqueue appends the value exactly when the ring is not full and otherwise changes nothing. |
| `LockFreeRing.SoloDequeue` | crates/hammer-infra/src/ring.rs:664-696 | From rest, an undisturbed dequeue delivers the oldest value exactly when there is one and otherwise changes nothing. |
| `LockFreeRing.FullMeans` | crates/hammer-infra/src/ring.rs:623-631 | In every reachable state and for every head a producer may hold: at the first check it is told the ring is full if and only if the consumers have passed its head, or its head is current and every slot is reserved; at the second if and only if its position was reserved and published since, or is next and its slot is still held by the consumer of the lap before. |
| `LockFreeRing.EmptyMeans` | crates/hammer-infra/src/ring.rs:666-670 | In every reachable state and for every head a consumer may hold: it is told the ring is empty if and only if its position was claimed since and its slot released, or is next and nothing is reserved there or the value is still being written. |
| `LockFreeRing.SpuriousFull` | crates/hammer-infra/src/ring.rs:623-631 | A run in which a producer overtaken between its loads is told the ring is full, with one of three places taken and nothing in flight. |
| `LockFreeRing.SpuriousEmpty` | crates/hammer-infra/src/ring.rs:666-670 | A run in which a consumer overtaken between its loads is told the ring is empty, with a value there and nothing in flight. |
| `LockFreeRing.ClaimedSlot` | crates/hammer-infra/src/ring.rs:689-694 | A claimed position carries the next number exactly while its consumer holds the slot, and never its own number again, however many laps have passed. |
| `LockFreeRing.PassedHead` | crates/hammer-infra/src/ring.rs:644-654 | A reserved position carries its own number exactly while its producer writes, however many laps have passed. |
| `RingCalls.EndsOnlyBy` | crates/hammer-infra/src/ring.rs:621-696 | In every reachable state a call of enqueue or dequeue ends exactly by the store that releases its slot or by a refusal, which changes nothing. |
| `RingCalls.FailedSwap` | crates/hammer-infra/src/ring.rs:633-642 | A compare-and-swap that fails, spuriously or not, changes nothing but sends its caller back to the load of the head with the same value; unless it failed spuriously, another thread has moved the head on since. |
| `RingCalls.InCall` | crates/hammer-infra/src/ring.rs:621-696 | At every point inside a call, over every run of any number of threads, the thread has appended one value at its position if it has reserved and none otherwise, and delivered one value if it has read and none otherwise. |
| `RingCalls.EnqueueEnds` | crates/hammer-infra/src/ring.rs:621-656 | Over every run: a call of enqueue with a value either ends refused, having appended nothing, or has appended that value exactly once, and on return the slot of that position holds it, published. |
| `RingCalls.DequeueEnds` | crates/hammer-infra/src/ring.rs:664-696 | Over every run: a call of dequeue either ends refused, having delivered nothing, or has delivered exactly once, and returns the value enqueued at that position, the slot being free for the next lap. |
| `RingCalls.EveryAppendIsACall` | crates/hammer-infra/src/ring.rs:633-641 | Conversely, whatever is appended is the value of a call of enqueue that is running. |
| `RingCalls.EveryDeliveryIsACall` | crates/hammer-infra/src/ring.rs:684-695 | Conversely, whatever is delivered is delivered to a call of dequeue that is running. |
| `HandoffQueues.EventKeepsInv` | crates/hammer-runtime/src/handoff.rs:336-434 | Every event of the protocol (offer, reserve by compare-and-swap, any order of slot writes, publish, count, consume) keeps the invariant for any number of producers. |
| `HandoffQueues.HandedOverInOrder` | crates/hammer-runtime/src/handoff.rs:336-434 | What was consumed is a prefix of the accepted batches in the order of their tail reservations, tail minus head never exceeds the size, offered equals accepted plus dropped once the producers have returned, and an emptied queue has delivered everything. |
| `HandoffQueues.FrontPublished` | crates/hammer-runtime/src/handoff.rs:575-580 | A non-zero first word at the consumer's position belongs to a finished batch, and the slot carries exactly its chunk. |
| `HandoffQueues.FrontUnfinished` | crates/hammer-runtime/src/handoff.rs:288-294 | While the batch at the front is unfinished its first word is zero, so the consumer does not enter it. |
| `HandoffQueues.ReserveKeepsInv` | crates/hammer-runtime/src/handoff.rs:356-387 | A successful swap of the tail reserves a run that no other producer holds, for the part of the batch that was accepted. |
| `HandoffQueues.PublishKeepsInv` | crates/hammer-runtime/src/handoff.rs:331-331 | The store of the first word releases the whole run at once. |
| `HandoffQueues.ReadKeepsInv` | crates/hammer-runtime/src/handoff.rs:588-614 | The copy taken from a published slot has the length and the items of its chunk. |
| `HandoffQueues.ClearKeepsInv` | crates/hammer-runtime/src/handoff.rs:621-623 | Clearing the first word hands the slot back for the next lap. |
| `HandoffQueues.ChunksFacts` | crates/hammer-runtime/src/handoff.rs:276-332 | Cutting a batch into slots loses nothing and leaves every slot a non-empty run of at most 32 items. |
| `HandoffQueues.CarriedItems` | crates/hammer-runtime/src/handoff.rs:144-184 | A slot that carries a chunk has exactly that chunk as its prefix of non-zero words. |
| `HandoffWorkers.EveryRunSafe` | crates/hammer-runtime/src/handoff.rs:643-667 | Every state of every run of a worker with any number of queues and producers satisfies the invariant of each queue and of the pending bitmap. |
| `HandoffWorkers.EventKeepsWorkerInv` | crates/hammer-runtime/src/handoff.rs:556-667 | Every producer event, the swap of the bitmap, and every step of the dequeue passes keep that invariant, also when the vector limit stops a queue in the middle. |
| `HandoffWorkers.NothingStranded` | crates/hammer-runtime/src/handoff.rs:643-667 | Outside a pass, a queue with a published slot at its head has its pending bits raised or a producer about to raise them. |
| `HandoffWorkers.WorkerCanGo` | crates/hammer-runtime/src/handoff.rs:643-667 | In every reachable state the worker has exactly one thing to do: begin a pass, visit the next queue of it, or go on with the queue it is at. |
| `HandoffWorkers.WorklistNames` | crates/hammer-runtime/src/handoff.rs:650-662 | The list of a pass ascends without repetition and contains only existing queues: every one when all bits are raised, so that queue 64 and above are reached, and otherwise exactly those whose own bit is. |
| `HandoffWorkers.OwnBitsRaised` | crates/hammer-runtime/src/data_plane/handoff.rs:77-77 | An event of a queue below 64 raises its own bit and no other; only queues from 64 on raise further bits. |
| `HandoffCalls.OfferAccepts` | crates/hammer-runtime/src/handoff.rs:336-434 | Over every interleaving: a call that has returned has sent exactly the prefix of its batch that fitted into the free slots of one state within the call, min(batch, 32 times free slots), and has counted exactly the rest as dropped. |
| `HandoffCalls.InOffer` | crates/hammer-runtime/src/handoff.rs:356-413 | At every point inside a call the producer is at, what it has sent and dropped so far is known exactly, through failed swaps and re-reads. |
| `HandoffCalls.Undisturbed` | crates/hammer-runtime/src/handoff.rs:356-413 | Left alone, a producer is refused its whole batch exactly with a full ring, and otherwise reserves min(ceil(batch / 32), free slots) slots and sends min(batch, 32 times free slots) items. |
| `HandoffCalls.RefusedIffFull` | crates/hammer-runtime/src/handoff.rs:357-370 | In every reachable state a producer that reads a head not beyond its tail gives up exactly when the ring is full at that moment, however old its tail is. |
| `HandoffCalls.SwapAccepts` | crates/hammer-runtime/src/handoff.rs:365-387 | A swap that succeeds reserves all slots the batch needs or all that were free when the head was read, and accepts exactly what fits them. |
| `HandoffCalls.PassGoesOn` | crates/hammer-runtime/src/handoff.rs:575-580 | A dequeue pass takes the next slot exactly when it is below its vector limit and the slot belongs to a finished batch. |
| `HandoffCalls.PassStores` | crates/hammer-runtime/src/handoff.rs:625-633 | A pass that ends has moved the head over exactly the items it counts, fewer than the vector limit and one slot more, and raises the bits of the queue again exactly when it has reached the limit. |
| `HandoffCalls.ProducerCanGo` | crates/hammer-runtime/src/handoff.rs:336-434 | In every reachable state a producer has its next step, or may write every word of its reserved run except the one that publishes it. |
| `HandoffCalls.ConsumerCanGo` | crates/hammer-runtime/src/handoff.rs:556-640 | In every reachable state the consumer can begin a pass exactly outside one, and go on exactly inside one. |
| `HandoffCopy.SlotArea.CopyAux` | crates/hammer-runtime/src/handoff.rs:389-405 | The auxiliary words of a batch land slot by slot in its reserved run, and no other row changes. |
| `HandoffCopy.SlotArea.CopyBatch` | crates/hammer-runtime/src/handoff.rs:281-330 | All words of a batch except the first land in the reserved run, short slots are zero-filled, and no other slot changes. |
| `HandoffCopy.SlotArea.CopyAndPublish` | crates/hammer-runtime/src/handoff.rs:276-332 | After the final store the run carries the whole batch. |
| `HandoffCopy.CopyFills` | crates/hammer-runtime/src/handoff.rs:276-332 | The imperative copies establish the condition under which the protocol allows a batch to be published. |
| `HandoffCopy.ChunkAt` | crates/hammer-runtime/src/handoff.rs:302-330 | The k-th slot of a run is the k-th share of the batch. |
| `HandoffCopy.PublishedShape` | crates/hammer-runtime/src/handoff.rs:144-184 | A published slot meets what the slot copy relies on: a non-zero first word and only zeros after the first zero. |
| `HandoffCopy.CopyFromSlot` | crates/hammer-runtime/src/handoff.rs:144-226 | Copying by vectors of four or eight lanes and then single words returns the length of the non-zero prefix, copies exactly it and writes nothing beyond it. |
| `ThreadGrouping.SqueezeLanes` | crates/hammer-infra/src/mask_compare.rs:61-64 | The shift-and-mask packing of a 16-bit byte mask yields the eight lane results, for every mask. |
| `ThreadGrouping.MaskComparePacked` | crates/hammer-infra/src/mask_compare.rs:41-76 | The packed path sets exactly the bits of the equal values, leaves the other words alone, and counts them. |
| `ThreadGrouping.MaskCompareScalar` | crates/hammer-infra/src/mask_compare.rs:86-111 | The scalar path meets the same specification, so the two paths agree. |
| `ThreadGrouping.Compress` | crates/hammer-infra/src/mask_compare.rs:116-135 | Clearing lowest set bits one by one yields the selected values in order. |
| `ThreadGrouping.SelectIsOwn` | crates/hammer-infra/src/mask_compare.rs:116-135 | Selecting by the mask of one thread is the stable filter of that thread's packets. |
| `ThreadGrouping.TakeThread` | crates/hammer-runtime/src/handoff.rs:455-461 | One round hands a thread exactly its own indices and auxiliary words in order, with the count of its mask. |
| `ThreadGrouping.FirstClear` | crates/hammer-runtime/src/handoff.rs:478-483 | The next position is the first one no earlier thread took. |
| `ThreadGrouping.GroupByThread` | crates/hammer-runtime/src/handoff.rs:437-487 | For every frame of at most 256 packets the loop ends, each target thread is served once, in the order of the first packets, and it gets exactly its own indices and auxiliary words in their original order. |
| `ThreadGrouping.EachPacketOnce` | crates/hammer-runtime/src/handoff.rs:454-485 | Every packet of the frame is in exactly one group, that of its thread, behind exactly the earlier packets of that thread, with its own auxiliary word; the group holds no more than these. |
| `RbBalance.PlugSound` | crates/hammer-infra/src/rbtree.rs:364-492 | Red-black soundness of a whole tree splits into soundness of any subtree and of its surroundings. |
| `RbBalance.RedUncle` | crates/hammer-infra/src/rbtree.rs:370-374 | Recolouring a red parent and a red uncle moves the only red-red edge up two levels. |
| `RbBalance.InnerChild` | crates/hammer-infra/src/rbtree.rs:376-379 | Rotating an inner red child makes it an outer one without other damage. |
| `RbBalance.BlackUncle` | crates/hammer-infra/src/rbtree.rs:380-384 | Recolouring and rotating at the grandparent removes the red-red edge. |
| `RbBalance.InsertDone` | crates/hammer-infra/src/rbtree.rs:406-407 | With the root painted black the tree is red-black again. |
| `RbBalance.RedSibling` | crates/hammer-infra/src/rbtree.rs:427-432 | A red sibling is turned into a black one, with the black shortage in place. |
| `RbBalance.BlackNephews` | crates/hammer-infra/src/rbtree.rs:433-441 | A black sibling with black children turns red and the shortage moves up one level. |
| `RbBalance.NearNephew` | crates/hammer-infra/src/rbtree.rs:443-448 | A red near nephew is rotated to the far side, with the shortage in place. |
| `RbBalance.FarNephew` | crates/hammer-infra/src/rbtree.rs:449-455 | A red far nephew pays for the shortage: the whole tree is sound. |
| `RbBalance.DeleteDone` | crates/hammer-infra/src/rbtree.rs:491-491 | Painting the focus black ends the fixup with a red-black tree. |
| `RbBalance.OneChild` | crates/hammer-infra/src/rbtree.rs:160-165 | Replacing a node with a missing child by the other child leaves a shortage exactly when the node was black. |
| `RbBalance.TwoChildren` | crates/hammer-infra/src/rbtree.rs:166-184 | Replacing a node by its successor leaves a shortage exactly where the successor was, when the successor was black. |
| `RbShapes.RotatedEntries` | crates/hammer-infra/src/rbtree.rs:326-362 | A rotation in either direction keeps the in-order entries. |
| `RbFacts.HeightBound` | crates/hammer-infra/src/rbtree.rs:364-492 | In a red-black tree of n entries every way down from the root, of whatever length h, satisfies 2^(h/2) <= n + 1. |
| `RbFacts.HeightIsLongest` | crates/hammer-infra/src/rbtree.rs:364-492 | No way down is longer than the height. |
| `RbFacts.LongestWay` | crates/hammer-infra/src/rbtree.rs:364-492 | Some way down is as long as the height. |
| `SortedEntries.MapInjective` | crates/hammer-infra/src/rbtree.rs:229-238 | A finite map has only one sorted entry sequence, so the in-order entries are determined by the contents. |
| `SortedEntries.MapPut` | crates/hammer-infra/src/rbtree.rs:118-150 | Putting an entry between the smaller and the larger ones is a map insertion. |
| `SortedEntries.MapDrop` | crates/hammer-infra/src/rbtree.rs:152-192 | Taking an entry out of its place is a map removal. |
| `RbTrees.RbTree.constructor` | crates/hammer-infra/src/rbtree.rs:30-48 | A new tree is valid and empty. |
| `RbTrees.RbTree.Len` | crates/hammer-infra/src/rbtree.rs:51-53 | The number of pool nodes besides nil is the size of the map. |
| `RbTrees.RbTree.Get` | crates/hammer-infra/src/rbtree.rs:107-110 | Agrees with the map. |
| `RbTrees.RbTree.FindNode` | crates/hammer-infra/src/rbtree.rs:265-277 | Descends to the node of the key, or to the only place where it could be attached. |
| `RbTrees.RbTree.Insert` | crates/hammer-infra/src/rbtree.rs:118-150 | Contents become the old map with the key set, the old value is returned, and search order, parent links, colours and black heights are kept. |
| `RbTrees.RbTree.Exchange` | crates/hammer-infra/src/rbtree.rs:126-129 | An existing key only has its value exchanged. |
| `RbTrees.RbTree.Attach` | crates/hammer-infra/src/rbtree.rs:133-147 | A missing key becomes a red leaf that breaks nothing but possibly the red-red rule at itself. |
| `RbTrees.RbTree.InsertPass` | crates/hammer-infra/src/rbtree.rs:364-405 | One pass of the loop keeps everything but one red-red edge and moves it strictly up, so the loop ends. |
| `RbTrees.RbTree.InsertFixup` | crates/hammer-infra/src/rbtree.rs:364-408 | Restores the red-black rules without changing entries or payloads. |
| `RbTrees.RbTree.Rotate` | crates/hammer-infra/src/rbtree.rs:326-362 | Both rotations, including the write to the parent of nil, turn the pool's tree into its rotation and leave entries, identities and payloads alone. |
| `RbTrees.RbTree.Remove` | crates/hammer-infra/src/rbtree.rs:152-192 | Contents become the old map without the key, its value is returned, and all tree invariants are kept. |
| `RbTrees.RbTree.RemoveAt` | crates/hammer-infra/src/rbtree.rs:153-191 | The found branch removes exactly the node of the key and frees exactly its pool slot. |
| `RbTrees.RbTree.Unhook` | crates/hammer-infra/src/rbtree.rs:156-184 | All three branches leave the focus with a parent link that is right even when the focus is nil, and a shortage exactly when the removed colour was black. |
| `RbTrees.RbTree.SpliceOut` | crates/hammer-infra/src/rbtree.rs:160-165 | A node with a missing child is replaced by the other child, and nil learns its new parent when it is that child. |
| `RbTrees.RbTree.Succeed` | crates/hammer-infra/src/rbtree.rs:166-184 | With two children the successor takes the place and the colour of the removed node. |
| `RbTrees.RbTree.Transplant` | crates/hammer-infra/src/rbtree.rs:410-420 | One subtree takes the place of another; only the new root's parent and one child link are written. |
| `RbTrees.RbTree.BlackSibling` | crates/hammer-infra/src/rbtree.rs:423-432 | The parent of the focus, possibly nil, is read once per pass, before any rotation can overwrite it; afterwards the sibling is black. |
| `RbTrees.RbTree.DeletePass` | crates/hammer-infra/src/rbtree.rs:423-490 | One pass keeps the shortage invariant and moves strictly up or ends on a red focus or at the root. |
| `RbTrees.RbTree.DeleteFixup` | crates/hammer-infra/src/rbtree.rs:422-492 | Restores the red-black rules from any one-node black shortage. |
| `RbTrees.RbTree.Extreme` | crates/hammer-infra/src/rbtree.rs:279-293 | Walks to the smallest or the largest node of a subtree. |
| `RbTrees.RbTree.Edge` | crates/hammer-infra/src/rbtree.rs:195-213 | The first and last entries are the smallest and the largest keys of the map, and exist unless it is empty. |
| `RbTrees.RbTree.Predecessor` | crates/hammer-infra/src/rbtree.rs:295-309 | The entry with the largest key below the given one, which need not be present, or none. |
| `RbTrees.RbTree.Successor` | crates/hammer-infra/src/rbtree.rs:311-324 | The entry with the smallest key above the given one, or none. |
| `RbIters.RbIter.constructor` | crates/hammer-infra/src/rbtree.rs:229-238 | A new iterator has all entries of the tree, in key order, still to come. |
| `RbIters.RbIter.Next` | crates/hammer-infra/src/rbtree.rs:527-537 | Yields the first entry still to come and leaves the rest, or nothing at the end. |
| `PageTiling.AllocatedLaid` | crates/hammer-infra/src/pmalloc.rs:510-596 | Carving blocks out of a free chunk keeps the page tiled, no chunk across a subpage and no two free neighbours in one subpage, and changes the free counts by the exact amounts. |
| `PageTiling.FreedLaid` | crates/hammer-infra/src/pmalloc.rs:314-350 | Freeing a chunk and joining its free neighbours of the same subpage keeps all of that, again with exact counts. |
| `PageTiling.AllocFree` | crates/hammer-infra/src/pmalloc.rs:298-351 | Freeing what an allocation carved out restores the tiling exactly. |
| `PageTiling.AllocThenFree` | crates/hammer-infra/src/pmalloc.rs:298-351 | The same for the block found by its start, wherever it stands in the list. |
| `PageTiling.OffsetAligns` | crates/hammer-infra/src/pmalloc.rs:510-513 | The offset is smaller than the alignment and makes the start aligned. |
| `PageTiling.FitsMeans` | crates/hammer-infra/src/pmalloc.rs:500-503 | The test of a chunk succeeds exactly when some aligned run of that many blocks lies inside the free chunk, and the place it uses is the lowest. |
| `ChunkList.SplitChain` | crates/hammer-infra/src/pmalloc.rs:514-545 | Splitting a chunk keeps previous and next inverse to each other and changes the list by exactly that split. |
| `ChunkList.MergeChain` | crates/hammer-infra/src/pmalloc.rs:319-333 | Absorbing the next chunk keeps the list doubly linked and changes it by exactly that merge. |
| `ChunkList.MarkChain` | crates/hammer-infra/src/pmalloc.rs:590-594 | Changing a used flag changes one block of the list. |
| `ChunkList.AppendChain` | crates/hammer-infra/src/pmalloc.rs:472-490 | Building the first list keeps it doubly linked at every step. |
| `Pmalloc.Page.constructor` | crates/hammer-infra/src/pmalloc.rs:694-703 | A mapped page without chunks already stands for one free chunk per subpage. |
| `Pmalloc.Page.MakeChunks` | crates/hammer-infra/src/pmalloc.rs:468-492 | The first allocation lays down exactly those chunks. |
| `Pmalloc.Page.SplitAfter` | crates/hammer-infra/src/pmalloc.rs:514-545 | The in-place split refines the split of the tiling. |
| `Pmalloc.Page.AbsorbNext` | crates/hammer-infra/src/pmalloc.rs:324-332 | The in-place join refines the merge of the tiling. |
| `Pmalloc.Page.FindFit` | crates/hammer-infra/src/pmalloc.rs:497-508 | Finds the first chunk in list order that has an aligned run of the blocks inside it and the lowest such place, and finds none exactly when no chunk has one. |
| `Pmalloc.Page.Carve` | crates/hammer-infra/src/pmalloc.rs:510-596 | The fitting chunk becomes free head, used block and free tail, with exact counters. |
| `Pmalloc.Page.AllocChunk` | crates/hammer-infra/src/pmalloc.rs:459-606 | Refuses exactly when no free chunk has room for the blocks at any aligned place, and then changes nothing; otherwise it grants the lowest aligned place of the first chunk with room. |
| `Pmalloc.Page.FreeChunk` | crates/hammer-infra/src/pmalloc.rs:298-351 | The chunk becomes free and is joined with its free neighbours of the subpage, and every other live chunk stays. |
| `PmallocMap.VaInjective` | crates/hammer-infra/src/pmalloc.rs:129-137 | An address determines its page and its block. |
| `PmallocMap.LiveRegionsApart` | crates/hammer-infra/src/pmalloc.rs:597-605 | No two live regions share a byte, on one page or on two. |
| `PmallocMap.Register` | crates/hammer-infra/src/pmalloc.rs:597-605 | The address of a new block is not in the map yet, and adding it keeps the map a bijection with the live chunks. |
| `PmallocMap.Deregister` | crates/hammer-infra/src/pmalloc.rs:298-304 | Removing an address removes exactly its chunk from that bijection. |
| `PmallocMain.AlignedVa` | crates/hammer-infra/src/pmalloc.rs:597-603 | The address of an aligned block is a multiple of the alignment if and only if the address of its page is. |
| `PmallocMain.AlignedPage` | crates/hammer-infra/src/pmalloc.rs:161-168 | Every page address is a multiple of the alignment when the base is aligned to a page and the alignment divides a page. |
| `PmallocMain.MissedAlignment` | crates/hammer-infra/src/pmalloc.rs:353-371 | A run with pages of 4096 bytes from address 8192 on and an alignment of 8192 bytes asked for on page 1: the allocation is granted at 12288, which is not aligned. |
| `PmallocMain.LiveApart` | crates/hammer-infra/src/pmalloc.rs:459-606 | The live chunks of a tiled page do not overlap. |
| `PmallocMain.PmallocMain.AddPage` | crates/hammer-infra/src/pmalloc.rs:690-706 | Adding a mapped page leaves the other pages and the address map alone. |
| `PmallocMain.PmallocMain.Alloc` | crates/hammer-infra/src/pmalloc.rs:459-606 | An allocation fails exactly when no free block of the page has room for the blocks at any aligned place; otherwise it takes the lowest aligned place of the first block with room, and exactly one live block and its address, base plus 64 times the block number, are added. The address is aligned as asked if and only if the page address is, and so always when the base is page-aligned and the alignment divides a page. |
| `PmallocMain.PmallocMain.Free` | crates/hammer-infra/src/pmalloc.rs:298-351 | Freeing a known address removes exactly that live block and that address. |
| `MtrieLeaves.LeafKinds` | crates/hammer-infra/src/mtrie.rs:385-418 | A leaf is exactly one of a value, a child ply and a miss, and each decodes to what was encoded. |
| `MtrieLeaves.ValueSurvives` | crates/hammer-infra/src/mtrie.rs:389-411 | A 32-bit value survives the leaf encoding if and only if it is below 2^31. |
| `MtrieLeaves.PlySurvives` | crates/hammer-infra/src/mtrie.rs:395-418 | A ply index survives the leaf encoding if and only if it is below 2^31 - 1. |
| `MtrieLeaves.SharesRoot` | crates/hammer-infra/src/mtrie.rs:162-170 | A prefix of at most 16 bits covers exactly an aligned span of root slots. |
| `MtrieLeaves.SharesFirst` | crates/hammer-infra/src/mtrie.rs:172-182 | A prefix of 17 to 24 bits covers exactly an aligned span of slots under one root slot. |
| `MtrieLeaves.SharesSecond` | crates/hammer-infra/src/mtrie.rs:184-192 | A prefix of 25 to 32 bits covers exactly an aligned span of slots under two slots. |
| `Mtries.FillStride` | crates/hammer-infra/src/mtrie.rs:313-321 | Writes the leaf to exactly the aligned span of the base. |
| `Mtries.RootFilled` | crates/hammer-infra/src/mtrie.rs:166-170 | Filling root slots changes lookups exactly inside the span and keeps the plies from aliasing. |
| `Mtries.RootPlyAdded` | crates/hammer-infra/src/mtrie.rs:254-264 | Hanging a new ply under a root slot changes no lookup. |
| `Mtries.ChildPlyAdded` | crates/hammer-infra/src/mtrie.rs:269-280 | Hanging a new ply under a child slot changes no lookup. |
| `Mtries.FirstFilled` | crates/hammer-infra/src/mtrie.rs:172-182 | Filling a first-level ply changes lookups exactly under its root slot and inside the span. |
| `Mtries.SecondFilled` | crates/hammer-infra/src/mtrie.rs:184-192 | Filling a second-level ply changes lookups exactly under its two slots and inside the span. |
| `MtrieRoutes.Mtrie.constructor` | crates/hammer-infra/src/mtrie.rs:155-160 | An empty trie misses every address. |
| `MtrieRoutes.Mtrie.Search` | crates/hammer-infra/src/mtrie.rs:200-211 | The three table steps compute the lookup function. |
| `MtrieRoutes.Mtrie.EnsureRootPly` | crates/hammer-infra/src/mtrie.rs:254-264 | The root slot then has its own ply and no lookup changed. |
| `MtrieRoutes.Mtrie.EnsureChildPly` | crates/hammer-infra/src/mtrie.rs:269-280 | The child slot then has its own ply and no lookup changed. |
| `MtrieRoutes.Mtrie.Insert` | crates/hammer-infra/src/mtrie.rs:162-193 | In any order of insertions, the lookup function changes to the value on exactly the addresses that share the top bits of the key and nowhere else. |
| `MtrieRoutes.LongestIsLongest` | crates/hammer-infra/src/mtrie.rs:97-107 | The reference answer matches the address, no matching route is longer and none as long is given later; it is missing exactly when no route matches. |
| `MtrieRoutes.SortedByLen` | crates/hammer-infra/src/mtrie.rs:100-101 | The routes are inserted in order of length and none is lost or added. |
| `MtrieRoutes.LastOfSorted` | crates/hammer-infra/src/mtrie.rs:100-105 | In that order the last matching route is the longest one, the later of two equals. |
| `Mtries.PlyBound` | crates/hammer-infra/src/mtrie.rs:283-287 | Plies that all still hang where they were first put are at most one per root slot and one per slot of those, 65536 times 257. |
| `MtrieRoutes.FromEntries` | crates/hammer-infra/src/mtrie.rs:97-107 | The trie built from any number of routes answers every address with the longest matching prefix, the rule of section 5.2.4.3 of RFC 1812; inserting in order of length never cuts a ply off, so the plies stay within their bound and their indices within a leaf. |
| `InitOrder.GreedyDistinct` | crates/hammer-runtime/src/init.rs:185-194 | No registration is placed twice. |
| `InitOrder.GreedyRespects` | crates/hammer-runtime/src/init.rs:185-194 | Every registration is placed after all registrations it must follow. |
| `InitOrder.GreedyComplete` | crates/hammer-runtime/src/init.rs:185-194 | An order of full length is a permutation. |
| `InitOrder.GreedyOrderly` | crates/hammer-runtime/src/init.rs:185-194 | A full greedy order places everything once, after what it asks to run after and before what it asks to run before. |
| `InitOrder.OrderlyAcyclic` | crates/hammer-runtime/src/init.rs:196-203 | If any order does that, there is no cycle. |
| `InitOrder.GreedyAcyclic` | crates/hammer-runtime/src/init.rs:185-204 | If an order of full length exists, the constraints are acyclic. |
| `InitOrder.BlockedCycle` | crates/hammer-runtime/src/init.rs:196-203 | A set of registrations each waiting for another of the set contains a cycle. |
| `TopologicalOrder.IndexNames` | crates/hammer-runtime/src/init.rs:142-147 | Fails exactly on a repeated name, naming the first repetition. |
| `TopologicalOrder.Collect` | crates/hammer-runtime/src/init.rs:149-177 | Collects exactly the constraints of both directions, each counted once, or fails on the first unresolved name of the first item that has one. |
| `TopologicalOrder.PlaceOne` | crates/hammer-runtime/src/init.rs:186-194 | Placing the smallest ready registration keeps the counts equal to the numbers of unplaced predecessors and the ready set exact. |
| `TopologicalOrder.FirstOpen` | crates/hammer-runtime/src/init.rs:197-199 | When registrations are left over, the one named is the smallest that belongs to any set of registrations waiting for each other, and the constraints have a cycle. |
| `TopologicalOrder.PlacedUnblocked` | crates/hammer-runtime/src/init.rs:186-199 | A placed registration belongs to no set of registrations waiting for each other. |
| `TopologicalOrder.TopologicalOrder` | crates/hammer-runtime/src/init.rs:141-205 | Succeeds if and only if names are unique, dependencies resolve and some order places every registration after those it asks to run after and before those it asks to run before, that is, without a cycle; it returns such an order, at each place the smallest index whose predecessors have all run; each error is named exactly. |
| `Checksum.OnesIsFolded` | crates/hammer-infra/src/checksum.rs:91-96 | Folding carries of the plain word sum gives the one's-complement sum of section 1 of RFC 1071. |
| `Checksum.ChecksumChecks` | crates/hammer-plugins/net/ip/src/input.rs:451-451 | A message of any length with its checksum written over a zero word at an even place has checksum zero, which is how a receiver checks it. |
| `Checksum.FoldSum` | crates/hammer-infra/src/checksum.rs:91-96 | The loop ends in the value congruent modulo 65535, with zero only for zero. |
| `Checksum.SwapEachSwaps` | crates/hammer-infra/src/checksum.rs:211-213 | The masks and shifts exchange the bytes of each pair in a 64-bit load. |
| `Checksum.EightLanes` | crates/hammer-infra/src/checksum.rs:190-199 | The four lanes of a swapped load add up to the big-endian words of the eight bytes. |
| `Checksum.AccumulateWords` | crates/hammer-infra/src/checksum.rs:187-208 | Eight and then two bytes at a time give the word sum. |
| `Checksum.ReduceSum` | crates/hammer-infra/src/checksum.rs:112-118 | The swapped lanes of one vector add up to its words, without 32-bit overflow. |
| `Checksum.AccumulateSimd` | crates/hammer-infra/src/checksum.rs:104-122 | Any vector width gives the word sum. |
| `Checksum.Accumulate` | crates/hammer-infra/src/checksum.rs:125-133 | All four widths give the same sum. |
| `Checksum.InternetChecksum.Write` | crates/hammer-infra/src/checksum.rs:43-69 | Writing more bytes, at odd or even positions, adds exactly them to what the state stands for. |
| `Checksum.InternetChecksum.TakeTrailing` | crates/hammer-infra/src/checksum.rs:47-57 | A kept-back byte is completed by the first new byte into the right word. |
| `Checksum.InternetChecksum.AddChunks` | crates/hammer-infra/src/checksum.rs:59-67 | Folding after each chunk keeps the one's-complement sum, with no 64-bit overflow. |
| `Checksum.InternetChecksum.Finish` | crates/hammer-infra/src/checksum.rs:28-34 | Returns the complement of the one's-complement sum of everything written. |
| `Checksum.ChecksumParts` | crates/hammer-infra/src/checksum.rs:77-88 | For any split into parts and any width the result is the checksum of the concatenation. |
| `NodeTables.SiblingClique` | crates/hammer-runtime/src/node.rs:1096-1129 | The sibling relation is irreflexive, symmetric and transitive. |
| `NodeGraph.NodeMain.constructor` | crates/hammer-runtime/src/node.rs:1380-1422 | An empty graph is valid. |
| `NodeGraph.NodeMain.PushNode` | crates/hammer-runtime/src/node.rs:947-995 | A new node is alone in its clique. |
| `NodeGraph.NodeMain.RegisterNext` | crates/hammer-runtime/src/node.rs:997-1095 | Succeeds exactly when the name is new and slots, targets and names agree. The new table has the declared number of slots, slot by slot the given targets or open; pending are slot by slot the given names, or none without names. A failure changes nothing and names the first check that fails. |
| `NodeGraph.NodeMain.RegisterSibling` | crates/hammer-runtime/src/node.rs:1096-1129 | Succeeds exactly when the name is new and the owner known, and otherwise names which is not; the node joins the whole clique of its owner with the same table. |
| `NodeTables.ResolveNames` | crates/hammer-runtime/src/node.rs:1141-1166 | Slot by slot: a declared name leads to its node, another to the drop node, a slot without a name stays; exactly the undeclared names stay pending. Fails exactly when a name has neither node nor drop node, with the names before the first such one resolved and the others untouched. |
| `NodeTables.ResolveAll` | crates/hammer-runtime/src/node.rs:1133-1169 | All nodes in slot order; a failure leaves the nodes before the failing one resolved, that node resolved up to its first unresolvable name, and the rest untouched. |
| `NodeTables.FollowOwners` | crates/hammer-runtime/src/node.rs:1170-1178 | Copying tables from owners in slot order gives every sibling the table of the first of its clique. |
| `NodeGraph.NodeMain.Resolve` | crates/hammer-runtime/src/node.rs:1133-1181 | From any state, also after a failure: succeeds exactly when every pending name is declared or there is a drop node, and then all tables of a clique are identical and resolved. A failure leaves exactly the prefix resolved; the tables are unchanged if and only if no name waits before the failing one, and siblings still agree if and only if every node with such a name has no siblings; everything else of the invariant survives. |
| `NodeTables.StoppedUnchanged` | crates/hammer-runtime/src/node.rs:1146-1163 | A failed resolution changes no table if and only if no name waits before the failing one. |
| `NodeTables.StoppedAgreement` | crates/hammer-runtime/src/node.rs:1146-1163 | After a failed resolution siblings agree if and only if the nodes with a name before the failing one have no siblings. |
| `NodeTables.StoppedRest` | crates/hammer-runtime/src/node.rs:1146-1163 | Everything but the agreement of siblings survives a failed resolution. |
| `NodeTables.ResolvedRest` | crates/hammer-runtime/src/node.rs:1170-1178 | A successful resolution makes siblings agree, whether or not they did before. |
| `NodeGraph.FailedThenResolved` | crates/hammer-runtime/src/node.rs:1133-1181 | A run with the names of two nodes and a sibling: resolving fails and leaves the siblings with different tables; after the missing name is registered, resolving makes them agree. |
| `NodeGraph.NodeMain.SetNextSlot` | crates/hammer-runtime/src/node.rs:1200-1247 | Succeeds exactly for an existing slot, and otherwise names node or slot; it writes the slot of every clique member, forgets the names pending there, changes nothing else, and reports whether anything changed. |
| `NodeGraph.NodeMain.PushGroup` | crates/hammer-runtime/src/node.rs:1320-1344 | Every member of a clique gets the same new last slot, which waits for no name. |
| `NodeGraph.NodeMain.AddOne` | crates/hammer-runtime/src/node.rs:1303-1347 | An existing edge keeps its first slot, a missing one is added for the whole clique, and it fails exactly when the edge is missing and the table already has 65536 slots. |
| `NodeGraph.NodeMain.AddEach` | crates/hammer-runtime/src/node.rs:1302-1348 | Adds exactly the missing edges in order, and fails exactly when one of them finds no room. |
| `NodeGraph.ExistingSlots` | crates/hammer-runtime/src/node.rs:1277-1295 | Fails exactly on an unregistered node, naming the first; when every edge is there, adding the batch would change nothing. |
| `NodeGraph.CheckShared` | crates/hammer-runtime/src/node.rs:1260-1276 | Finds a mismatch exactly when the edges of some shared range have different slots, and reports the first of the first such range. |
| `NodeGraph.NodeMain.AddNextSlots` | crates/hammer-runtime/src/node.rs:1249-1361 | Either the tables are exactly those with the missing edges added, earlier slots unchanged, each edge with its first slot and shared ranges in one slot; or tables and pending names are as before, and the error names the first unregistered node, the first edge whose node had 65536 slots, or the first mismatch of a shared range. |
| `NodeGraph.SlotsDetermined` | crates/hammer-runtime/src/node.rs:1249-1361 | The slots of a batch are determined by the tables, so a batch cannot be both accepted and refused. |
| `HeapRuns.SplitRuns` | crates/hammer-infra/src/heap.rs:63-73 | Splitting a run of the tiling is the matching change of the run map. |
| `HeapRuns.MergeRuns` | crates/hammer-infra/src/heap.rs:118-143 | Merging two runs of one kind is the matching change of the run map. |
| `HeapRuns.MarkRuns` | crates/hammer-infra/src/heap.rs:103-107 | Changing the kind of a run moves one entry between the maps. |
| `HeapRuns.ReuseRuns` | crates/hammer-infra/src/heap.rs:63-73 | Serving an allocation from a free run changes both maps exactly so. |
| `HeapRuns.GrowRuns` | crates/hammer-infra/src/heap.rs:74-82 | Growing at the end adds one allocation and keeps the partition. |
| `HeapRuns.FreedRuns` | crates/hammer-infra/src/heap.rs:118-147 | The two coalescing steps on the free-run map are the freeing of the tiling. |
| `Heaps.BeforeIs` | crates/hammer-infra/src/heap.rs:120-132 | The last free run below an allocation ends at it exactly when the block before it is free. |
| `Heaps.AfterIs` | crates/hammer-infra/src/heap.rs:133-142 | The first free run from its end on starts there exactly when the block after it is free. |
| `Heaps.Heap.constructor` | crates/hammer-infra/src/heap.rs:34-40 | A new heap is empty and valid. |
| `Heaps.Heap.Reserve` | crates/hammer-infra/src/heap.rs:58-82 | Takes the first free run in offset order that is long enough, or the end of the space when there is none. |
| `Heaps.Heap.Alloc` | crates/hammer-infra/src/heap.rs:52-95 | Adds exactly one allocation filled with the element; other allocations keep their offsets and contents; live and free runs still partition the space with no two free runs adjacent. |
| `Heaps.Heap.Coalesce` | crates/hammer-infra/src/heap.rs:118-147 | The freed run is joined with exactly its adjacent free runs. |
| `Heaps.Heap.Remove` | crates/hammer-infra/src/heap.rs:103-147 | Removes exactly one allocation and moves or changes nothing outside it. |
| `Heaps.Heap.AllocationEnd` | crates/hammer-infra/src/heap.rs:200-206 | The end of the one allocation that contains the offset, or none. |
| `Heaps.Heap.GetSlice` | crates/hammer-infra/src/heap.rs:167-181 | Succeeds exactly for non-empty ranges inside one allocation and returns their initialised contents. |
| `Heaps.AllocRemove` | crates/hammer-infra/src/heap.rs:52-147 | An allocation served from a free run and then removed restores the runs exactly. |
| `SparseVectors.RankInWord` | crates/hammer-infra/src/sparse_vec.rs:115-123 | The stored count before a word plus the ones below the bit is the rank of the index. |
| `SparseVectors.RankSet` | crates/hammer-infra/src/sparse_vec.rs:77-82 | Setting or clearing a bit moves exactly the ranks above it by one. |
| `SparseVectors.MemberAdded` | crates/hammer-infra/src/sparse_vec.rs:76-84 | Setting a bit and inserting at its rank is a map insertion. |
| `SparseVectors.MemberRemoved` | crates/hammer-infra/src/sparse_vec.rs:94-101 | Clearing a bit and removing at its rank is a map removal. |
| `SparseVectors.Replaced` | crates/hammer-infra/src/sparse_vec.rs:71-74 | Writing at the rank of a member is a map update. |
| `SparseVectors.SparseVec.constructor` | crates/hammer-infra/src/sparse_vec.rs:17-30 | Starts empty, with room for exactly the asserted index range. |
| `SparseVectors.SparseVec.DenseIndex` | crates/hammer-infra/src/sparse_vec.rs:115-123 | The dense index is the number of members below. |
| `SparseVectors.SparseVec.Get` | crates/hammer-infra/src/sparse_vec.rs:54-57 | Agrees with the map for every index, in range or not. |
| `SparseVectors.SparseVec.Insert` | crates/hammer-infra/src/sparse_vec.rs:66-85 | Sets one key of the map and returns the old value; prefix counts stay exact and values ordered by index. |
| `SparseVectors.SparseVec.Remove` | crates/hammer-infra/src/sparse_vec.rs:88-102 | Removes one key of the map and returns its value, or nothing for a missing or out-of-range index. |

## Left out

- Weak memory orderings and the wrap-around of 32-bit ring cursors: steps are sequentially consistent and positions unbounded, as the comment at crates/hammer-infra/src/ring.rs:613-619 assumes.
- Batch enqueue and dequeue of the lock-free ring, `LocalRing` and `IndexedRing`: loops and wrappers around the modelled operations.
- Sleep and wake signalling, the worker barrier, frame dispatch, tracing and buffer release of the handoff path: only the queues and the pending bitmap are modelled.
- Resizing a handoff queue under the worker barrier: it copies slots while nothing runs.
- The masked-store variant of the slot copy (`copy_indices_from_slot_v4`): it differs from the wider variant by one processor instruction.
- mmap, NUMA placement, physical addresses, shared arenas, and the choice of a page within an arena: a page comes mapped, at its index times the page size.
- `prefix_lens`, `base_len` and `n_non_empty` of mtrie plies: no lookup reads them.
- Vector totals, trace formatters, handles, node states and error columns of the node graph: they do not affect next tables.
- Registration without a name and a sibling registration with named nexts: they are refused, or add a node with an empty table.
- Proc macros, command line, sockets, plugins, processes, statistics and configuration: input and output or thin wrappers.
- `Pool`, `Bitmap`, linked list, queue, stack and spin lock on their own: easy members, abstracted where the models use them.
- Prefetching, capacity management, cloning and dropping: no effect on the modelled state.
- The debug assertion on stopping a timer that is not live: `Stop` answers false there, as in a release build.
- TimerWheels.TimerWheel.Stop: a handle whose entry was freed and handed out again stops the new timer, as in the source, because handles carry no generation.
- TimerWheels.TimerWheel.FirstExpiresInTicks: exact about the bitmap but only a lower bound for the timers, because stopped timers leave their bits set and slower rings are not consulted.
- TimerWheels.TimerWheel.Expire: requires that the tick stays within 64 bits, where the source's addition panics.
- TimerWheels.TimerWheel.Start: requires that a new entry index fits 32 bits, where the source panics.
- Heaps.Heap.Alloc: requires that the element space fits 32-bit offsets, where the source panics, unless a free run is long enough.
- Checksum.ChecksumParts: requires at most 2^48 bytes in all, which rules out 64-bit overflow between folds.
- SparseVectors.SparseVec.Insert: does not model the panic on a count beyond 32 bits.
- MtrieRoutes.Mtrie.Insert: requires that the indices of the plies it may add survive the leaf encoding; a covering route inserted after a longer one cuts plies off, so alternating such insertions can use them up.
- NodeGraph.NodeMain.Resolve: the check that a declared node exists cannot fail and is not modelled.
- TimerIdLayer.TimerIds.ArmTimer: requires that a wheel entry is to be had, where the source panics.
- TimerIdLayer.TimerIds.UpdateTimer: requires the same.
- NodeGraph.NodeMain.AddNextSlots: requires that no target looked for is to be found only beyond slot 65535, where the source panics; edges after one with an unregistered node are not looked for.
