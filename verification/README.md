# NABD, verified in Dafny

NABD is a lock-free ring buffer in shared memory: one producer and one consumer
move messages through fixed-size slots with two 64-bit counters, consumer groups
read the same slots with tails of their own, and checkpoints, diagnosis and
retrying pushes are built on top. This project models that logic and proves what
its interleavings, byte layout and arithmetic guarantee. `dafny verify
dfyconfig.toml` checks everything.

## How the model is built

| file | what it holds |
|---|---|
| `Words.dfy` | 64-bit words: wrapping counters, `&`, `\|`, `^`, `>>` defined digit by digit, `index & mask` = `mod` |
| `Layout.dfy` | power-of-two utilities, size normalisation, region layout |
| `Payload.dfy` | bytes, little-endian fields, the 16-bit length (`Wire`) |
| `Spsc.dfy` | the protocol as a machine of small steps, one definition for unbounded and for wrapping counters |
| `SpscInvariant.dfy`, `SpscRuns.dfy` | inductive invariant; theorems over whole runs |
| `SpscProgress.dfy` | wait-freedom of both sides |
| `SpscWrapped.dfy` | the wrapping machine simulates the unbounded one |
| `SpscLinear.dfy` | the step machine linearizes to the bounded queue |
| `SpscWitness.dfy` | concrete runs for three claims that do not hold |
| `BoundedQueue.dfy` | the abstract bounded FIFO over whole calls; conservation; zero-copy erasure |
| `Ring.dfy` | the ring as a class over one byte array, each call and every sequence of calls proved to be the queue's |
| `Groups.dfy`, `GroupsInvariant.dfy`, `GroupsRuns.dfy`, `GroupsWitness.dfy` | consumer groups, creators, crash and resume, minimum scan, interleaved with the ring |
| `GroupsCalls.dfy` | what every pop, peek and release of a group's handle returns |
| `GroupsCreates.dfy` | what every create and resume tries, and with what it ends |
| `GroupsScan.dfy` | the answer and the progress of the minimum scan |
| `GroupsRetention.dfy` | exactly when a push keeps the rule that slots are reused only after all groups have read them |
| `GroupsProgress.dfy` | step bounds for group handles, creates and resumes |
| `GroupTable.dfy` | the group loops with nobody else running |
| `Checkpoint.dfy` | checkpoint records, checksum, save and load |
| `Diagnosis.dfy` | the verdict on a control block, the laws of recovery, and live observers of the counters |
| `Recovery.dfy` | diagnose and recover on a region that holds a ring, and the ring after a reset |
| `Backpressure.dfy` | push with timeout and push with backoff |

The step machine (`Spsc.PApply`, `Spsc.CApply`) gives every shared access of a
call its own step: load own index, load the other index, check, copy one byte,
store one header field, store the index. The load of the other side's index may
return any value between the one last seen and the current one; this is the
abstraction of acquire/release used here (sections 5.1.2.4 and 7.17.3 of ISO/IEC
9899:2011). Histories record payloads (`published`, `delivered`) and where the
other side's index stood when a call began (`callTail`, `callHead`).

Usage rules that the code relies on are step guards or preconditions: one
producer and one consumer; no push between reserve and commit; committed length
at most the reserved one; release only after a successful peek; one handle per
group at a time. Payloads longer than 65535 bytes are not excluded: the model
follows `(uint16_t)len`, and `Wire` is what arrives.

The clock, the consumer's progress and stale loads during a retry loop, spurious
compare-and-swap failures, allocation failures and the success of opening or
mapping a region are parameters.

## What turned out not to hold

- A FULL answer does not imply that the queue was full at some moment: a stale
  tail can be combined with a newer head (`SpscWitness.FullWithoutFull`), and an
  EMPTY answer does not imply that it was empty (`SpscWitness.EmptyWithoutEmpty`).
  Exactly: the queue is full at some moment of the call if and only if the loaded
  tail was still current when the call began (`SpscRuns.FullInTime`), and likewise
  for EMPTY (`SpscRuns.EmptyInTime`) and for the EMPTY of a group's handle
  (`GroupsCalls.GroupEmptyInTime`). Runs linearize to the bounded queue with
  every refusal of that kind in place; the only answers left out are refusals by
  a value that had been replaced before the call, and they change nothing
  (`SpscLinear.Linearizes`, `SpscLinear.OutdatedFull`, `SpscLinear.ExactlyOnce`).
- `nabd_push` does not keep the rule "slots are only reused when all active
  groups have read them" (README.md:90, include/nabd/nabd.h:216;
  `GroupsWitness.PushIgnoresGroups`). Exactly: the slot a push or reserve is
  admitted to has been read by every group in use if and only if the distance
  from the least of their tails to head is below the capacity
  (`GroupsRetention.PushKeepsRuleExactly`). A group keeps all its unread messages
  through an admission, and through a whole stretch of a run, under the same
  condition (`GroupsRetention.AdmissionRetainsExactly`, `RetainedExactly`). Group
  delivery is proved, group by group, for handles that were not overrun, which the
  rule implies; `GroupsRuns.RetentionExact` says exactly when a single position can
  still be read.
- `nabd_stats` subtracts two loads without a guard; its used count is right
  exactly when the loaded tail is not ahead of the loaded head
  (`Diagnosis.StatsExactly`), and the bad case is reachable
  (`Diagnosis.StatsUnderflows`). `nabd_fill_level` divides that count: a percentage
  of at most 100 in the good case; with tail ahead by d, the quotient of a word
  100 d below a multiple of 2^64 (`Diagnosis.FillLevelExactly`).
- Forced recovery leaves consistent counters (a wrapping distance of at most the
  capacity) exactly when the block is not a recognised one with tail ahead of head
  at a larger distance (`Diagnosis.RecoverConsistentExactly`). That case is
  diagnosed EMPTY and left as it is; the check of push then says FULL exactly until
  tail has moved on so far that the distance is below the capacity
  (`Diagnosis.TailAheadStaysStuck`). Any tail ahead of head, a legitimate wrap
  included, is diagnosed EMPTY although push and pop find messages
  (`Diagnosis.PendingExactly`).
- A payload arrives byte for byte exactly when it is shorter than 65536 bytes
  (`Payload.WireExact`).
- Rounding a capacity of 0 or above 2^63 gives 0 (`Layout.NextPowerOfTwo`), and
  slots lie inside the region exactly when its size computation does not overflow
  (`Layout.RegionHoldsSlots`).
- The padding word of a checkpoint is not covered by its checksum
  (`Checkpoint.PaddingUnchecked`).
- docs/protocol.md:130 speaks of a wasted slot; the code uses every slot
  (src/nabd.c:292), and so does the model.
- include/nabd/nabd.h:228 says that processes with the same group id share one
  group; `nabd_consumer_resume` claims a new entry whenever it can, beside an active
  one with the same id, and joins exactly when it cannot
  (`GroupTable.Table.Resume`).

## Model

| member | source | states |
|---|---|---|
| `Words.MaskedIndex` | include/nabd/internal.h:141-142 | the masked index of a wrapped counter is the true position mod capacity, for every position |
| `Words.DiffOfWraps` | src/nabd.c:286-293 | subtracting wrapped counters gives the true distance whenever it is below 2^64 |
| `Words.ModDistinct` | src/nabd.c:58-60 | positions less than capacity apart never share a slot |
| `Words.XorBit` | src/persistence.c:38-40 | each binary digit of an exclusive or is 1 exactly when the two digits differ |
| `Layout.IsPowerOfTwoExact` | include/nabd/internal.h:123-124 | `n && !(n & (n - 1))` holds exactly for powers of two |
| `Layout.SpreadStep` | include/nabd/internal.h:129-136 | one shift-or line doubles the run of leading ones, saturating at all ones |
| `Layout.NextPowerOfTwo` | include/nabd/internal.h:126-139 | for 1..2^63 the least power of two at or above n; 0 outside that range |
| `Layout.Normalise` | src/nabd.c:96-112 | created sizes: defaults for 0, least power of two for capacity, and for any other slot size the least one at or above it with room for the header and 8 bytes; capacity above 2^63 becomes 0 |
| `Layout.RegionHoldsSlots` | src/nabd.c:148-152 | every counter value's slot lies in the mapped region if and only if 256 + capacity * slot_size fits size_t |
| `Layout.RegionEndsWithSlots` | src/nabd.c:148-152 | a region whose size fits ends where its last slot ends |
| `Layout.SlotPlace` | src/nabd.c:58-60 | the slot of a position is row position mod capacity behind the 256 bytes of the control block, across counter wraps |
| `Layout.LiveSlotsDisjoint` | src/nabd.c:58-74 | slots at positions less than capacity apart share no byte, across counter wraps |
| `Payload.WireExact` | src/nabd.c:306-307 | what arrives equals what was sent exactly for payloads below 65536 bytes; otherwise it is a prefix shorter by a multiple of 65536 |
| `Payload.LittleJoins` | include/nabd/types.h:73-78 | little-endian: the byte at place k of a field weighs 256^k |
| `Spsc.ShapeKept` | src/nabd.c:277-443 | every step of every call stays within slot and payload bounds, in both arithmetics |
| `SpscInvariant.StepInv` | src/nabd.c:277-443 | each step of push, pop, reserve, commit, peek, release keeps the protocol invariant |
| `SpscInvariant.RunInv` | src/nabd.c:277-443 | the invariant holds in every state of every interleaving |
| `SpscRuns.FifoDelivery` | src/nabd.c:277-362 | delivered payloads are the published ones in order from the first; undelivered ones are exactly [tail, head), intact; both logs only grow |
| `SpscRuns.NoTornReads` | docs/protocol.md:113-119 | the slot being written is never the slot being read, and a published slot's bytes and header stay fixed until tail passes it |
| `SpscRuns.PublishedSlotStays` | src/nabd.c:296-312 | a published slot is unchanged until the producer is admitted to it again |
| `SpscRuns.PeekedPayload` | src/nabd.c:414-430 | at every moment between peek and release the pointer shows exactly that payload |
| `SpscRuns.ObserverLoads` | src/metrics.c:35-37 | an observer has in hand head of the moment of its first load and tail of the moment of its second |
| `SpscRuns.FullAnswer` | src/nabd.c:286-294 | full at the load if and only if the answer is FULL and the load fresh; otherwise there is room |
| `SpscRuns.EmptyAnswer` | src/nabd.c:325-333 | empty at the load if and only if the answer is EMPTY and the load fresh; otherwise the slot at tail is published and intact |
| `SpscRuns.FullInTime` | src/nabd.c:286-294 | at some moment of a refused call the queue is full if and only if the tail it loaded was still current when the call began; the loaded value is a full queue behind head and was the tail once |
| `SpscRuns.EmptyInTime` | src/nabd.c:418-423 | the same for EMPTY and the loaded head |
| `SpscRuns.AdmissionIsSafe` | src/nabd.c:291-312 | from the check to the publication no live slot can be overwritten |
| `SpscProgress.PushIsWaitFree` | README.md:12 | however the consumer is scheduled, a producer call takes at most maxPayload + 8 steps of its own, in both arithmetics |
| `SpscProgress.PopIsWaitFree` | README.md:12 | however the producer is scheduled, a consumer call takes at most maxPayload + 6 steps of its own, in both arithmetics |
| `SpscProgress.ProducerCanStep` | src/nabd.c:277-315 | in every reachable state a producer call in progress has an enabled step, in both arithmetics |
| `SpscProgress.ConsumerCanStep` | src/nabd.c:320-362 | in every reachable state a consumer call in progress has an enabled step, in both arithmetics |
| `SpscWrapped.Simulates` | src/nabd.c:286-312 | one step with wrapping counters, wrapped subtraction and mask is one unbounded step |
| `SpscWrapped.LiftRun` | src/nabd.c:277-362 | every run of the wrapping machine, of any length, is the image of an unbounded run |
| `SpscWrapped.WrappedFifo` | src/nabd.c:277-362 | FIFO delivery with 64-bit counters past any number of wraps; every undelivered message is intact in the slot its masked position names |
| `SpscWrapped.WrappedNoTornReads` | src/nabd.c:296-312 | with masked indices, no slot is written and read at once, and a published slot stays fixed until tail passes it |
| `SpscLinear.StepRefines` | src/nabd.c:277-443 | every step is invisible to the bounded queue or answers one of its calls, with the queue's own answer |
| `SpscLinear.RefusalRefines` | src/nabd.c:291-294 | a FULL or EMPTY refusal is the queue's answer at the step where its call begins |
| `SpscLinear.OutdatedFull` | src/nabd.c:288-294 | a FULL answer is left out of the linearization if and only if the queue is not full at any moment of its call |
| `SpscLinear.OutdatedEmpty` | src/nabd.c:327-333 | the same for EMPTY |
| `SpscLinear.EffectWraps` | src/nabd.c:286-293 | a step with wrapping counters has the same effect and answer as the unbounded step behind it |
| `SpscLinear.Linearizes` | src/nabd.c:277-443 | the calls of any interleaved run, ordered by where they take effect, are a run of the bounded queue with the same answers and the same messages in and out; refusals, zero-copy calls and counter wraps included |
| `SpscLinear.ExactlyOnce` | src/nabd.c:277-443 | for each call of either side: it has taken effect exactly once, or was refused by an outdated load, or is still in progress |
| `SpscLinear.PushArguments` | src/nabd.c:277-315 | whatever takes effect from the beginning of a push until the producer's next call is a push of exactly the bytes given |
| `SpscLinear.ReserveArguments` | src/nabd.c:367-389 | a reservation refused where it begins is refused for the length asked for |
| `SpscLinear.CommitArguments` | src/nabd.c:394-409 | whatever takes effect from a commit until the producer's next call is a push of the bytes in the reserved slot, up to the committed length |
| `SpscLinear.ReserveHolds` | src/nabd.c:367-389 | a reservation hands out the length asked for, and what is committed is no longer |
| `SpscLinear.WrittenIsCommitted` | include/nabd/nabd.h:91-104 | the byte that the application stored last in a place of the reserved slot is the one that is committed there, however the consumer is scheduled |
| `SpscLinear.PopArguments` | src/nabd.c:320-362 | whatever takes effect from the beginning of a pop or peek until the consumer's next call is that pop, with the room given, or that peek |
| `SpscLinear.HistoryCounts` | src/nabd.c:277-443 | the linearized history holds what took effect on the two sides and nothing else |
| `SpscWitness.FullWithoutFull` | src/nabd.c:288-294 | a run in which FULL is answered although the queue never was full |
| `SpscWitness.EmptyWithoutEmpty` | src/nabd.c:327-333 | a run in which EMPTY is answered at position 1 with head at 2, although the queue never was empty there |
| `SpscWitness.ObservedTailAhead` | src/nabd.c:452-456 | a run in which an observer loads head 0 and then tail 1 |
| `BoundedQueue.CodesExactly` | src/nabd.c:277-443 | each return code of each call is given if and only if its condition holds, INVALID for a second reserve or a commit without one included; only OK changes anything |
| `BoundedQueue.OutputExactly` | src/nabd.c:335-356 | pop and peek hand out the oldest message, or its length with TOOBIG |
| `BoundedQueue.CommitCarriesWrites` | src/nabd.c:367-409 | reserve, any writes, commit: one message is added, each byte the one stored there last or, where nothing was stored, what the slot contained |
| `BoundedQueue.Conservation` | src/nabd.c:277-443 | over any rule-following calls, what was sent is appended and what was received is the slice between old and new read position |
| `BoundedQueue.FifoFromEmpty` | src/nabd.c:277-362 | from an empty queue, received followed by still queued is exactly what was sent |
| `BoundedQueue.ZeroCopyErases` | src/nabd.c:367-443 | any mix with reserve/write/commit and peek/release sends, receives and ends like the run with only push and pop |
| `BoundedQueue.ReserveAnswersAsPush` | src/nabd.c:367-382 | reserve is refused exactly when a push of that length would be, with the same code |
| `Ring.Ring.constructor` | src/nabd.c:177-185 | a created ring is the empty queue of its capacity and payload size |
| `Ring.Ring.Attach` | src/nabd.c:210-234 | an attached handle takes its sizes from the control block and sees the queue that the region holds |
| `Ring.Ring.Push` | src/nabd.c:277-315 | byte-level push is the queue's push: TOOBIG, FULL exactly at capacity, else appended; no byte outside its slot changes, none at all when refused |
| `Ring.Ring.Pop` | src/nabd.c:320-362 | byte-level pop is the queue's pop: EMPTY exactly when empty, TOOBIG with the length and nothing consumed, else the oldest payload in the caller's buffer and no byte beyond it changed |
| `Ring.Ring.Reserve` | src/nabd.c:367-389 | reserve answers as the queue does and hands out the next position's payload area |
| `Ring.Ring.WriteReserved` | include/nabd/nabd.h:91-104 | a store through the reserved pointer changes the staged bytes and no queued message |
| `Ring.Ring.Commit` | src/nabd.c:394-409 | commit publishes the staged prefix with the right header and changes no other slot; INVALID without a reservation |
| `Ring.Ring.Peek` | src/nabd.c:414-430 | peek changes nothing and points at the oldest payload, or answers EMPTY |
| `Ring.Ring.Release` | src/nabd.c:435-443 | release drops exactly the oldest message |
| `Ring.Ring.IsEmpty` | src/nabd.c:464-472 | wrapped equality of the counters is emptiness |
| `Ring.Ring.Status` | src/nabd.c:448-485 | with nobody else running, full and used are those of the queue |
| `Ring.Ring.PerformAll` | src/nabd.c:277-443 | any rule-following sequence of calls on the bytes gives the answers, and ends in the state, of that sequence on the queue |
| `Ring.Ring.ForceReset` | src/persistence.c:160-162 | whatever the counters were, the reset ring is the empty queue at head; a handle keeps its reservation |
| `Ring.CopyIn` | src/nabd.c:304 | the copy loop writes exactly the given bytes and nothing outside their range |
| `Ring.WriteHeader` | src/nabd.c:306-309 | the three fields read back as length, 0 and sequence; no other byte changes |
| `Groups.GShapeKept` | src/nabd.c:532-760 | every group step stays within the 16 entries and the slot bounds |
| `GroupsInvariant.GStepInv` | src/nabd.c:532-760 | every step of groups, creators, scans and ring keeps the group invariant, with the contents of every group that is not overrun |
| `GroupsInvariant.GRunInv` | src/nabd.c:532-760 | the invariant in every state of every run |
| `GroupsInvariant.GRunFrom` | src/nabd.c:636-675 | from any moment on, the contents part lasts for the groups that are not overrun, whatever happens to the others |
| `GroupsRuns.GroupDelivery` | src/nabd.c:636-712 | a handle that was not overrun has delivered exactly the contiguous published messages from its start, whatever other groups, creators and crashes do |
| `GroupsCalls.PopOutcome` | src/nabd.c:636-675 | each pop of a handle that was not overrun returns once: EMPTY if and only if the head it loaded is not beyond the tail, TOOBIG with the length if and only if the message there has no room, else exactly that message, and only then the tail moves, by one |
| `GroupsCalls.PeekOutcome` | src/nabd.c:680-699 | the same for peek, which shows the message at the tail and moves nothing |
| `GroupsCalls.ReleaseOutcome` | src/nabd.c:704-712 | a release takes exactly the message at the tail |
| `GroupsCalls.GroupEmptyInTime` | src/nabd.c:646-651 | with a fresh load EMPTY is answered if and only if the group has read everything at that moment; with any load it has at some moment of the call if and only if the loaded head was still current when the call began |
| `GroupsRuns.RuleRetains` | README.md:90 | the documented rule, followed for one group, means that its handle is not overrun |
| `GroupsRuns.RetentionExact` | src/nabd.c:654-668 | a position is safe when its record is in its slot and the producer is not storing to it; a position no older than head - capacity, or head + 1 - capacity once the producer is admitted, is safe at any lag, and for lags below 2^32 no other is |
| `GroupsRuns.OverrunServesNewer` | src/nabd.c:654-668 | an overrun position's slot carries a later message, unless it is being refilled right now |
| `GroupsRuns.ResumeRestores` | src/persistence.c:248-258 | the handle returned by a resume with a tail the group had reached starts exactly there, by a new entry or by joining |
| `GroupsRuns.CrashReplay` | src/persistence.c:174-261 | checkpoint, further pops, death, resume: delivered before the checkpoint plus delivered by the restored handle is one contiguous slice, with no gap and no repeat before the checkpoint |
| `GroupsRuns.ResumeNeverAhead` | src/persistence.c:248-258 | a resume puts the tail at the saved one, or at the head it loaded when the saved one lies beyond that, and never beyond head |
| `GroupsCreates.HandleOutcome` | src/persistence.c:240-258 | the group that a create or resume returned has the id asked for, or its entry's number for id 0, and started at the head that the call loaded, or at the saved tail when that is older |
| `GroupsCreates.CallOutcome` | src/nabd.c:547-612 | a create gets the first entry whose compare-and-swap succeeds and fails only when all 16 fail or there is no memory; a resume then joins the first active entry with its id and fails only for id 0, no match, or no memory |
| `GroupsRuns.ClaimsAreExclusive` | src/nabd.c:547-572 | no entry has two winners; active entries are wins minus undone claims, under spurious failures |
| `GroupsRuns.StartsDuringCall` | src/nabd.c:555-558 | a completed create starts at a head value between those of its beginning and its end |
| `GroupsRuns.TailMoves` | src/nabd.c:671-711 | a group's tail changes only by its own handle, by one, or by the call that is setting its entry up |
| `GroupsRuns.MinTailIsSafe` | src/nabd.c:737-760 | the concurrent scan's answer is at most the final tail of every group created before it, although its loads may return old values |
| `GroupsScan.ScanAnswer` | src/nabd.c:742-758 | the concurrent scan looks at each of the 16 entries and answers the least tail it loaded, or the ring's when none is below UINT64_MAX |
| `GroupsScan.MinTailIsTight` | src/nabd.c:737-760 | when every entry seen active was in use before the scan, the answer is at least the least of all their tails and the ring's at its beginning |
| `GroupsScan.ScanIsWaitFree` | README.md:12 | whatever others do, a scan takes at most 33 steps of its own |
| `GroupsScan.ScanCanStep` | src/nabd.c:737-760 | a scan without an answer always has an enabled step |
| `GroupsRuns.MinTailGuards` | src/nabd.c:733-736 | a producer that admits pushes only while head - result < capacity keeps every unread message of every group created before the scan |
| `GroupsRetention.PushKeepsRuleExactly` | README.md:90 | at any admitted push or reserve of any run: every group in use has read the slot it takes if and only if each is less than capacity behind head, that is head - least tail < capacity |
| `GroupsRetention.AdmissionRetainsExactly` | src/nabd.c:288-294 | an admission leaves a group all its unread messages if and only if its tail was less than capacity behind head |
| `GroupsRetention.RetainedExactly` | include/nabd/nabd.h:216 | over a stretch of a run a group keeps all its unread messages if and only if every push admitted in it finds the group less than capacity behind |
| `GroupsProgress.GroupPopIsWaitFree` | README.md:12 | whatever others do, a group's pop takes at most maxPayload + 6 steps of its own |
| `GroupsProgress.HandleCanStep` | src/nabd.c:636-712 | in every reachable state a handle's call in progress has an enabled step, overrun or not |
| `GroupsProgress.CreateIsWaitFree` | src/nabd.c:547-572 | a create takes at most 20 steps of its own and a resume at most 38, spurious compare-and-swap failures included |
| `GroupsProgress.CreatorCanStep` | src/nabd.c:532-579 | a create, resume or join in progress always has an enabled step |
| `GroupsWitness.PushIgnoresGroups` | src/nabd.c:288-294 | a run in which push is admitted to a slot an active group has not read |
| `GroupTable.Table.MinTail` | src/nabd.c:737-760 | with nobody else running, the exact minimum over active groups, or the ring's tail |
| `GroupTable.Table.Create` | src/nabd.c:544-572 | claims the first free entry whose compare-and-swap succeeds and changes no other; gives it back when there is no memory for the handle |
| `GroupTable.Table.Join` | src/nabd.c:584-612 | the first active entry with the id; none for id 0 or without memory |
| `GroupTable.Table.Resume` | src/persistence.c:234-261 | tail restored to the older of saved and head; takes the first claimable entry if there is one and memory for the handle, else joins the first active entry with the id, else fails, each exactly; other active entries unchanged |
| `Checkpoint.ComputeChecksum` | src/persistence.c:36-43 | digit k + 13 of the checksum, round the 64 digits, is the parity of digit k of magic, timestamp, group id and tail |
| `Checkpoint.RotateValue` | src/persistence.c:41 | the shift-or moves the low 51 bits up by 13 and the high 13 bits down |
| `Checkpoint.RotateInjective` | src/persistence.c:41 | the rotation loses nothing |
| `Checkpoint.EveryFieldCounts` | src/persistence.c:36-43 | changing any one of magic, timestamp, group id and tail alone changes the checksum |
| `Checkpoint.EncodeFields` | include/nabd/persistence.h:61-68 | the record's bytes are its six fields, little-endian, in the struct's order |
| `Checkpoint.CodecRoundTrip` | include/nabd/persistence.h:61-68 | the 40-byte record reads back field by field |
| `Checkpoint.Save` | src/persistence.c:174-196 | loading a saved checkpoint returns it with OK for all field values: the right magic, the time, id and tail given, and a checksum that covers them |
| `Checkpoint.LoadAccepts` | src/persistence.c:213-228 | a record is accepted exactly when magic and checksum match |
| `Checkpoint.LoadExactly` | src/persistence.c:201-228 | any file at all: NOTFOUND if and only if it is missing, a record if and only if the file begins with the bytes of that record and the record is genuine, CORRUPTED otherwise |
| `Checkpoint.OneChangeDetected` | src/persistence.c:217-226 | changing any single one of magic, timestamp, group id, tail, checksum is always rejected |
| `Checkpoint.PaddingUnchecked` | src/persistence.c:36-43 | changing the padding word is never rejected |
| `Recovery.Region.Diagnose` | src/persistence.c:48-113 | codes for missing and unmappable regions; HEALTHY if and only if the block is recognised and 0 < head - tail <= capacity, EMPTY if and only if recognised and head <= tail, VERSION_ERR for a wrong version, CORRUPTED otherwise; on a ring with head not behind tail, HEALTHY means exactly that messages are queued, and pending is their number |
| `Recovery.Region.Recover` | src/persistence.c:118-169 | either nothing changes or the ring is reset to the empty queue at head; the unlink branch is never taken; exact return codes |
| `Recovery.ResetAndRun` | src/persistence.c:144-168 | after a forced reset, any calls are answered as by an empty queue, and what comes out, followed by what is still queued, is exactly what was put in since |
| `Diagnosis.StateExactly` | src/persistence.c:73-107 | the four verdicts on a control block, each if and only if its fields say so |
| `Diagnosis.RecoverIdempotent` | src/persistence.c:118-169 | recovering twice is recovering once |
| `Diagnosis.ResetIsEmpty` | src/persistence.c:97-107 | after a reset diagnosis says EMPTY exactly when magic and version are right |
| `Diagnosis.RecoverConsistentExactly` | src/persistence.c:97-104 | forced recovery yields a wrapping distance of at most capacity if and only if the block is not a recognised one with tail ahead of head at a larger distance |
| `Diagnosis.PendingExactly` | src/persistence.c:97-104 | diagnosis counts the messages right if and only if tail is not ahead of head; otherwise it says EMPTY although there are some |
| `Diagnosis.TailAheadStaysStuck` | src/persistence.c:97-104 | that case is diagnosed EMPTY and left unchanged, and the check of push says FULL exactly until tail has moved on by more than the distance minus capacity |
| `Diagnosis.ObserverIsSane` | src/metrics.c:35-48 | a live observer's pending count stays within 0..capacity, so diagnose never says CORRUPTED and fill_pct stays within 0..100 |
| `Diagnosis.ObserverUndercounts` | src/metrics.c:35-48 | the two loads differ from the number of messages at either moment by exactly what was popped, or pushed, between them, so pending is never too high |
| `Diagnosis.FillPercentBound` | src/backpressure.c:61 | at most capacity messages never read as more than 100 percent, even when the product wraps |
| `Diagnosis.StatsExactly` | src/nabd.c:452-456 | used is right if and only if the loaded tail is not ahead of the loaded head, else above capacity |
| `Diagnosis.FillLevelExactly` | src/backpressure.c:45-62 | with tail loaded not ahead: the percentage, at most 100; ahead by d: a word 100 d below a multiple of 2^64, divided by the capacity |
| `Diagnosis.StatsUnderflows` | src/nabd.c:452-456 | a run in which used is 2^64 - 1 and the fill level does not fit `int` |
| `Backpressure.Sender.PushBackoff` | src/backpressure.c:127-156 | ends; attempts go on exactly while they are refused by a queue that is full after the consumer's turn or looks full through a stale tail; FULL if and only if a limit is set and that many attempts are refused, else the answer of the first that is not; its sleeps are the first delays of the schedule, one fewer than the attempts; the doubling fits `int` exactly for bases up to 2^30 - 1 or when no sleep is needed |
| `Backpressure.DelayClosedForm` | src/backpressure.c:150-154 | the first delay is the base, or 1 below 1; the k-th after it is min(first * 2^k, 100000), for any base |
| `Backpressure.TotalDelayBound` | src/backpressure.c:147-154 | n sleeps take at most first * (2^n - 1), and at most n * 100000 microseconds for a base up to 100000, or that and the first sleep |
| `Backpressure.SleptInAll` | src/backpressure.c:147-154 | the sleeps a retrying push adds are each delay in turn; together they last the sum of the delays, within the bounds above |
| `Backpressure.Sender.PushWait` | src/backpressure.c:77-122 | attempts go on exactly while they are refused and the answer is the last one's; FULL only for timeout 0 or by the first clock reading at or past the deadline, never for a negative timeout; the first 100 retries only spin, each further one adds one sleep of 10 microseconds; states exactly when the deadline fits `int64_t` |
| `Backpressure.Sender.RetryUntil` | src/backpressure.c:98-121 | each refused attempt is followed by one reading of the clock, if there is a deadline, and one spin or sleep; the loop ends at the first reading past the deadline or the first attempt that is not refused |
| `Backpressure.Sender.SpinOrSleep` | src/backpressure.c:110-120 | one step of the spin count up to 100; from then on a sleep of exactly 10 microseconds |

## Left out

- Operating system plumbing of open, close and unlink; handle allocation apart from its failure in create and join.
- Null handles and pointers, and the INVALID or NULL answers to them.
- Creating over a region that is in use: it reinitialises shared state under other processes.
- Two handles popping one group at the same time: load-then-store does not deliver exactly once.
- Group pops, diagnosis and metrics across a 2^64 counter wrap: they compare with `>=`.
- Weak-memory behaviour beyond a stale index load; prefetch, padding and CPU pause.
- Formatting, error strings, placeholders (`nabd_last_activity`, `nabd_set_backpressure`), throughput, and the remaining fields of `nabd_get_metrics`.
- `nabd_consumer_stats` and `nabd_is_pressured`: one comparison each.
- Language bindings, examples, benchmarks.
- Backpressure.Sender.PushWait: when the deadline does not fit `int64_t` (exactly stated by `fits`), C leaves the computation undefined, and the other clauses describe the mathematical one.
- Backpressure.Sender.PushBackoff: when the doubling does not fit `int` (exactly stated by `fits`), C leaves it undefined, and the other clauses describe the mathematical one.
- GroupsRuns.RetentionExact: that an overrun position has lost its record is stated for lags below 2^32, the range the header's sequence number can tell apart.
- GroupsCalls.PopOutcome: calls of a handle that was overrun are left out; what its slot then holds is `GroupsRuns.OverrunServesNewer`.
- GroupsRuns.MinTailIsSafe: a group whose tail a resume moves back during the scan is excluded, and head is at most 2^64 - 1.
- Groups.GShapeKept: the header words of `nabd_multi_consumer_t` and its attachment to a handle are taken as given; no code in the repository assigns `q->multi`.
