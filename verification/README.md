# Verification of Minos components

Dafny models of the parts of the Minos hypervisor whose correctness is hardest to see, with
proofs about them. Each file is one component.

- **Flattened device tree** (`FdtFormat`, `FdtReader`, `FdtWriter`, `FdtRoundTrip`, `FdtTree`,
  `FdtEdit`, `FdtLookup`, `FdtPath`): libfdt as a printer, a parser and an in-place editor over one byte
  buffer. Tokens, names and values are abstracted from the bytes; the sequential writer with
  names counted from the buffer's end, `fdt_resize` over overlapping memory and the relocation in
  `fdt_finish` is proved to round-trip through the reader; every edit is proved to change the
  token sequence exactly as named, and what it does to every property, subnode and end that can
  be looked up anywhere in the tree; paths are proved to lead back to their node exactly when they
  are not ambiguous.
- **Scheduler and priority events** (`PrioBitmap`, `Sched`, `Mutex`): the two-level ready bitmap,
  the matching of ready priorities to CPUs, its stability, and mutex hand-off racing with
  time-outs, as step systems over whole runs.
- **Block request queue** (`BlockQueue`): eight workers, dependency blocking, cancel and close.
- **Split virtqueue** (`Virtqueue`): 16-bit indices refine unbounded queues; interrupt suppression.
- **Memory** (`PageTable`, `GuestMemory`, `Slab`, `WordBits`, `Bitmap`): multi-level tables against
  their walk, guest/host aliasing, slab chunks, word bitmaps against bit sequences.
- **Virtual interrupts and traps** (`Virq`, `Trap`): pending and active lists, idle against kick,
  and the `host_index`/`guest_index` handshake.

`Wrappers` and `Bitwise` hold what several components share (optional values, lists without
duplicates, the `&` of C). `Sealing` holds two small devices that keep large definitions closed
while a proof does not need them. `dafny verify dfyconfig.toml` checks the whole project.

Where a promise turned out not to hold of the code, the model keeps the code, proves exactly when
the promise holds, and shows a failing case:

- room for a new name in the sequential writer: `RoomTest`, `RoomTestMisses`;
- the length test of in-place property writes: `LengthTest`, `LengthTestMisses`;
- paths under the omitted-unit-address rule: `PathRoundTrip`, `PathGoesAstray`;
- subnode lookups beside a new node under that rule: `AddSubnodeLookups`, `NewNodeShadows`;
- the tag walker moving on: `NextTagAdvances`, `StandsStill`;
- block mappings off the 2M grid: `ExactTranslation`, `BlockMappingShifts`;
- counts and exact fits of indirect descriptors: `IndirectExact`, `IndirectCounts`,
  `IndirectMiscounts`, `ExactFitFails`;
- block requests after the last worker's exit: `RequestKeepsLive`, `StallsWhenLate`;
- time-outs of a mutex's own holder: `TimeoutOwner`, `TimeoutToOwner`;
- the size of what `get_big_slab` returns: `FromBigSlab`, `Malloc`, `BigSlabTooSmall`;
- what a split of a cached chunk drops (left_size has 32 bits): `LittleDropped`;
- the aligned zero-area search for an empty area: `NeverReturns`, `EndlessSearch`.

`vm_mmap` never returns `-EIO` (`NeverAnError`). Where code and comments disagree the code is
followed: a flush request ends at offset 128 (`1 << 7`, not the largest offset).

## Model

| member | source | states |
|---|---|---|
| `FdtRoundTrip.RunWriter` | mvm/libfdt/fdt_sw.c:144-365 | whole-run round trip: after fdt_create and any sequence of calls in any order and any phase (reserve entries, resizes to any overlapping place, also before the reserve map is finished, nodes, properties, calls that fail and are made again) in which fdt_finish succeeded, walking the blob from offset 0 yields exactly the tokens, names and value bytes of the calls that returned 0, in order; their reserve entries lie where the header says, and the header passes fdt_check_header |
| `FdtRoundTrip.RunCall` | mvm/libfdt/fdt_sw.c:144-365 | one call in any phase: only a success adds its token or reserve entry and moves the phase on |
| `FdtRoundTrip.FinishedReads` | mvm/libfdt/fdt_sw.c:322-365 | a finished blob reads back as the tokens its calls stood for, although names were moved and recounted |
| `FdtRoundTrip.FinishedChecks` | mvm/libfdt/fdt.c:113-152 | a finished blob passes every check of fdt_check_header |
| `FdtRoundTrip.CheckHeader` | mvm/libfdt/fdt.c:113-152 | a header that passes keeps the structure block (version 17) and the strings block inside totalsize, in spite of 32-bit sums that wrap |
| `FdtRoundTrip.CheckHeaderExact` | mvm/libfdt/fdt.c:113-152 | each error's exact condition, and 0 if and only if magic and versions fit and reserve map, structure block and strings block lie between the header and totalsize in unbounded sums |
| `FdtRoundTrip.GetStringInTable` | mvm/libfdt/fdt_ro.c:79-131 | a name stored in the strings block is what fdt_get_string returns for its offset |
| `FdtRoundTrip.GetStringExact` | mvm/libfdt/fdt_ro.c:79-131 | fdt_get_string gives a string for an offset if and only if that string, with its zero byte, stands there in the table |
| `FdtReader.OffsetPtrWraps` | mvm/libfdt/fdt.c:154-169 | the three wrapping comparisons of fdt_offset_ptr accept exactly the ranges that lie in the block and the blob over unbounded integers |
| `FdtReader.NextTagLoop` | mvm/libfdt/fdt.c:171-222 | fdt_next_tag, loop over the name included, computes the tag and next offset of its specification, on every blob and offset |
| `FdtReader.NextTagAt` | mvm/libfdt/fdt.c:171-222 | on a block that encodes a token sequence, fdt_next_tag at each token's offset gives its tag and the next token's offset |
| `FdtReader.NextTagInside` | mvm/libfdt/fdt.c:171-222 | on every blob and offset, whatever it holds: a tag returned with an offset is the word there and its whole token lies in the structure block |
| `FdtReader.NextTagErrors` | mvm/libfdt/fdt.c:171-222 | errors come with the end tag; -FDT_ERR_TRUNCATED exactly when the tag word itself is out of reach |
| `FdtReader.NextTagAdvances` | mvm/libfdt/fdt.c:171-222 | from an aligned offset the walker moves on if and only if the token is not a property with length word 2^32 - 12, for which the sum wraps |
| `FdtReader.StandsStill` | mvm/libfdt/fdt.c:171-222 | a blob on which fdt_next_tag returns the offset it was given |
| `FdtReader.FindString` | mvm/libfdt/fdt.c:310-320 | the first place where the string with its zero byte lies, at any byte (suffix sharing), or -1 exactly when there is none |
| `FdtReader.ReadBack` | mvm/libfdt/fdt_ro.c:79-131 | walking a structure block with fdt_next_tag and fdt_get_string gives the named tokens from any token on |
| `FdtWriter.Writer.Create` | mvm/libfdt/fdt_sw.c:144-165 | -FDT_ERR_NOSPACE exactly below the header size, else an empty writer on the whole buffer |
| `FdtWriter.Writer.AddReserveEntry` | mvm/libfdt/fdt_sw.c:203-221 | appends one entry, or fails with the named error and changes nothing |
| `FdtWriter.Writer.FinishReservemap` | mvm/libfdt/fdt_sw.c:223-232 | appends the zero entry and opens the structure phase |
| `FdtWriter.Writer.Resize` | mvm/libfdt/fdt_sw.c:167-201 | moving head and tail inside one memory keeps tokens, names and reserve map whatever the overlap; succeeds exactly when the parts fit |
| `FdtWriter.MoveBuffer` | mvm/libfdt/fdt_sw.c:183-195 | both memmoves, in the order the code picks, leave the head and the tail intact in their new places for every overlap |
| `FdtWriter.Writer.GrabSpace` | mvm/libfdt/fdt_sw.c:129-142 | grants room exactly when the gap between block and strings is large enough |
| `FdtWriter.Writer.BeginNode` | mvm/libfdt/fdt_sw.c:234-249 | appends one begin token with its name, exact error otherwise |
| `FdtWriter.Writer.EndNode` | mvm/libfdt/fdt_sw.c:251-263 | appends one end token, exact error otherwise |
| `FdtWriter.Writer.FindAddString` | mvm/libfdt/fdt_sw.c:265-286 | returns a negative distance from the table's end at which the name lies, adding it only if no place holds it; 0 exactly when it is new and does not fit |
| `FdtWriter.Writer.Property` | mvm/libfdt/fdt_sw.c:288-320 | appends one property token with its name and value; each failure's exact condition and what it leaves behind |
| `FdtWriter.NamesSurvive` | mvm/libfdt/fdt_sw.c:265-286 | adding a string leaves every earlier name where its negative offset says |
| `FdtWriter.RelocatedName` | mvm/libfdt/fdt_sw.c:344-357 | adding the table size to a negative offset names the same string counted from the table's start |
| `FdtWriter.LoopTurn` | mvm/libfdt/fdt_sw.c:344-357 | rewriting one name offset turns the block into the encoding in which the first i+1 properties are recounted |
| `FdtWriter.Writer.CorrectNames` | mvm/libfdt/fdt_sw.c:344-359 | the loop recounts every property and nothing else, walking tags it has partly rewritten |
| `FdtWriter.Writer.Finish` | mvm/libfdt/fdt_sw.c:322-365 | closes the block, keeps tokens, reserve map and strings; exact error otherwise |
| `FdtWriter.RoomTest` | mvm/libfdt/fdt_sw.c:278-281 | the room test is an unsigned sum: it decides room correctly if and only if strings and new name together are within totalsize |
| `FdtWriter.RoomTestMisses` | mvm/libfdt/fdt_sw.c:278-281 | beyond that it wraps and lets a name pass for which there is no room (concrete sizes) |
| `FdtTree.TreeReads` | mvm/libfdt/fdt_ro.c:79-131 | a well-formed version-17 tree reads back as its tokens |
| `FdtTree.FinishedIsTree` | mvm/libfdt/fdt_sw.c:322-365 | what fdt_finish leaves is a well-formed tree for the editing functions |
| `FdtTree.NextNode` | mvm/libfdt/fdt.c:242-280 | next node and depth as defined on the token sequence, with depth -1 at the end of the depth and the exact errors |
| `FdtTree.NodeEndOffset` | mvm/libfdt/fdt_wip.c:119-127 | the offset after the token that closes the node |
| `FdtTree.NextProp` | mvm/libfdt/fdt_ro.c:211-233 | the next property past nops, or the exact error |
| `FdtTree.GetProperty` | mvm/libfdt/fdt_ro.c:403-430 | the first property of the node with that name, or the exact error |
| `FdtTree.SubnodeOffset` | mvm/libfdt/fdt_ro.c:235-252 | the first direct subnode that answers to the name, whole or up to its unit address |
| `FdtLookup.EndFromIs` | mvm/libfdt/fdt_wip.c:119-127 | counting begin and end tags: the end of a node is the token after the one at which the count returns to its start, and the search fails exactly when there is none |
| `FdtLookup.NodeFromIs` | mvm/libfdt/fdt.c:242-280 | the next node is the next begin tag, one level below the count so far, or the end of the depth; the search fails only at the end of the tokens |
| `FdtLookup.FindSubnodeIs` | mvm/libfdt/fdt_ro.c:235-252 | the subnode found is the first begin tag at count zero that answers to the name, and none is found exactly when there is none |
| `FdtLookup.PropNotFound` | mvm/libfdt/fdt_ro.c:211-233 | -FDT_ERR_NOTFOUND exactly when the node's properties and nops end at a node tag without the name |
| `FdtLookup.SetPropLookups` | mvm/libfdt/fdt_rw.c:272-303 | after fdt_setprop the node has the property with the new value, and every other lookup (properties, subnodes and ends of every node) finds what it found |
| `FdtLookup.AppendPropLookups` | mvm/libfdt/fdt_rw.c:305-330 | likewise with the value grown at its end |
| `FdtLookup.DelPropLookups` | mvm/libfdt/fdt_rw.c:332-345 | after deletion, or overwriting with nops, every lookup but that of the property finds what it found |
| `FdtLookup.DelPropNext` | mvm/libfdt/fdt_rw.c:332-345 | under its name the node then has the next property of that name, or none |
| `FdtLookup.AddSubnodeLookups` | mvm/libfdt/fdt_rw.c:347-391 | the parent finds the new node, keeps all its properties, and keeps its other subnodes except under names the new node answers to |
| `FdtLookup.AddSubnodeOthers` | mvm/libfdt/fdt_rw.c:347-391 | every other node keeps its end, its properties and its subnodes |
| `FdtLookup.NewNodeShadows` | mvm/libfdt/fdt_rw.c:347-391 | adding a@1 beside a makes the name a lead to a@1 |
| `FdtLookup.DelNodeLookups` | mvm/libfdt/fdt_rw.c:393-405 | nodes behind a deleted node find all as before; nodes before it keep their end, find the next subnode that answers in its place, and find properties exactly as the tokens say |
| `FdtLookup.PropsBeforeNodes` | mvm/libfdt/fdt_rw.c:393-405 | property lookups stay as they were when no property follows the deleted node |
| `FdtLookup.SetNameLookups` | mvm/libfdt/fdt_rw.c:249-270 | only subnode lookups in the parent can change: an earlier subnode, else the renamed one if it answers, else the next |
| `FdtEdit.Tree.SpliceStruct` | mvm/libfdt/fdt_rw.c:97-137 | one memmove and two header words: what lies before and after the splice is kept, exact error without room |
| `FdtEdit.Tree.SetProp` | mvm/libfdt/fdt_rw.c:272-303 | exactly the named property's value changes, or the property is added first in the node; all other tokens, names and values stay; exact error conditions |
| `FdtEdit.Tree.AppendProp` | mvm/libfdt/fdt_rw.c:305-330 | the value is appended to the named property, or the property added; frame and exact errors |
| `FdtEdit.Tree.DelProp` | mvm/libfdt/fdt_rw.c:332-345 | exactly that property token goes; frame and exact errors |
| `FdtEdit.Tree.SetName` | mvm/libfdt/fdt_rw.c:249-270 | exactly that node's name changes; frame and exact errors |
| `FdtEdit.Tree.AddSubnode` | mvm/libfdt/fdt_rw.c:347-391 | an empty node appears at the returned offset, with only properties and nops between it and its parent's tag and none behind; -FDT_ERR_EXISTS when a subnode answers to the name; frame and exact errors |
| `FdtEdit.Tree.DelNode` | mvm/libfdt/fdt_rw.c:393-405 | the node with everything in it goes; frame and exact errors |
| `FdtEdit.Tree.FindAddName` | mvm/libfdt/fdt_rw.c:152-172 | names keep their offsets when the table grows at its end |
| `FdtEdit.Tree.Pack` | mvm/libfdt/fdt_rw.c:493-505 | blocks move together without overwriting each other; tokens, strings and reserve entries stay |
| `FdtEdit.Tree.NumMemRsv` | mvm/libfdt/fdt_ro.c:199-209 | the number of the first entry with size zero; -FDT_ERR_TRUNCATED exactly when no such entry lies inside the blob |
| `FdtEdit.Tree.SetPropInplacePartial` | mvm/libfdt/fdt_wip.c:59-77 | wherever the length test is right: bytes idx.. of the value change, nothing else; -FDT_ERR_NOSPACE exactly when they do not fit |
| `FdtEdit.LengthTest` | mvm/libfdt/fdt_wip.c:72-73 | the unsigned length test agrees with the bounds of the value if and only if the sum does not wrap or is too large even so |
| `FdtEdit.LengthTestMisses` | mvm/libfdt/fdt_wip.c:72-73 | idx 0xffffffff with two bytes passes for a value of one byte |
| `FdtEdit.Tree.NopProperty` | mvm/libfdt/fdt_wip.c:105-117 | exactly the property's words become nops, which means the same tree as deleting the property |
| `FdtEdit.Tree.NopNode` | mvm/libfdt/fdt_wip.c:129-140 | exactly the node's words become nops, which means the same tree as deleting the node |
| `FdtEdit.NopIsDelete` | mvm/libfdt/fdt_wip.c:97-103 | replacing any run of tokens by nops and deleting it give the same tree |
| `FdtPath.GetPath` | mvm/libfdt/fdt_ro.c:545-595 | leaves the names of the node's chain, joined by slashes, and a zero byte; succeeds exactly when the buffer has two bytes and the names with their slashes fit; bytes past buflen stay |
| `FdtPath.PathOffset` | mvm/libfdt/fdt_ro.c:260-303 | follows the components one subnode search at a time |
| `FdtPath.FollowIsWalk` | mvm/libfdt/fdt_ro.c:260-303 | following a path is going from node to subnode by the non-empty names between its slashes, for every path and start |
| `FdtPath.PathRoundTrip` | mvm/libfdt/fdt_ro.c:58-77 | a node's path leads back to it if and only if no earlier sibling of it or of an ancestor answers to the same name |
| `FdtPath.PathThereAndBack` | mvm/libfdt/fdt_ro.c:260-308 | for every node and buffer: fdt_path_offset of the fdt_get_path result is that node if and only if the path is not ambiguous |
| `FdtPath.PathGoesAstray` | mvm/libfdt/fdt_ro.c:71-74 | a tree with /a@1 before /a, where the path of /a does not lead to it |
| `FdtPath.SupernodeAtDepth` | mvm/libfdt/fdt_ro.c:597-631 | returns the ancestor at that depth and the node's depth, -FDT_ERR_NOTFOUND exactly outside 0..depth |
| `PrioBitmap.FfsLowest` | os/core/bitmap.c:23-40 | the table entry of a non-zero byte is its lowest set bit |
| `PrioBitmap.SetAdds` | os/core/sched.c:111-145 | setting the two bits adds exactly that priority to the ready set |
| `PrioBitmap.ClearRemoves` | os/core/sched.c:147-170 | clearing removes exactly that priority and keeps group and rows consistent |
| `PrioBitmap.LowestIsMinimum` | os/core/sched.c:186-194 | two table look-ups find the highest-priority ready task |
| `Sched.NcpuHighest` | os/core/sched.c:255-273 | the first loop collects the N highest ready priorities in order |
| `Sched.HasCurrentPrio` | os/core/sched.c:211-221 | the position, counted from 1, of an untaken slot with that priority; 0 exactly when there is none |
| `Sched.HasHighPrio` | os/core/sched.c:196-209 | true exactly when a CPU not known to keep its task runs that priority |
| `Sched.RankInFree` | os/core/sched.c:282-293 | for a CPU that must change, fewer free slots are taken than there are, so the inner search always finds one |
| `Sched.TakeSlot` | os/core/sched.c:275-295 | one turn of the matching: the CPU gets its own priority if that is among the slots, else the next slot that is nobody's current priority; both maps keep their meaning |
| `Sched.SchedNew` | os/core/sched.c:223-318 | computes the closed form of the matching (Highest) |
| `Sched.KeepersKeep` | os/core/sched.c:276-280 | a CPU whose task is among the N highest keeps it |
| `Sched.AssignedInTop` | os/core/sched.c:223-318 | every real-time value assigned is among the N highest ready priorities |
| `Sched.TopIsAssigned` | os/core/sched.c:223-318 | each of the min(N,k) highest ready priorities is assigned to some CPU |
| `Sched.AssignedOnce` | os/core/sched.c:223-318 | and to only one |
| `Sched.ChangersInOrder` | os/core/sched.c:275-295 | among the CPUs that change their task, lower numbers get higher priorities |
| `Sched.RunSafe` | os/core/sched.c:533-561 | over any interleaving of ready, sleep and resched steps no real-time priority is current on two CPUs |
| `Sched.ReadyIffLast` | os/core/sched.c:111-170 | over every run a priority is ready if and only if it was made ready, or was at the start, and has not been put to sleep since |
| `Sched.CurrentKept` | os/core/sched.c:533-561 | over every run a CPU's current priority changes only by its own resched |
| `Sched.AdoptingIsStable` | os/core/sched.c:347-359 | with the ready set fixed, a CPU adopting its assignment leaves every CPU's assignment unchanged |
| `Sched.ReschedsReachTop` | os/core/sched.c:533-561 | one resched of every flagged CPU, in any order, and exactly the N highest ready priorities run |
| `Sched.Scheduler.SetTaskReady` | os/core/sched.c:111-145 | the ready set gains exactly that priority; current and assigned priorities stay |
| `Sched.Scheduler.SetTaskSleep` | os/core/sched.c:147-170 | the ready set loses exactly that priority; current and assigned priorities stay |
| `Sched.Scheduler.GlobalSched` | os/core/sched.c:402-419 | one CPU adopts its assignment and exactly the CPUs whose current task differs from theirs are flagged |
| `BlockQueue.BlockIf.Enqueue` | mvm/devices/block_if.c:152-195 | the request is last in line with its end at offset plus the sum of its buffer lengths (128 for a flush), ready if and only if no pending or busy element ends at its offset; all else stays; invariant kept |
| `BlockQueue.BlockIf.Dequeue` | mvm/devices/block_if.c:197-215 | the first dispatchable request goes to the worker, or none is; invariant kept |
| `BlockQueue.BlockIf.Complete` | mvm/devices/block_if.c:217-234 | the element is freed and everything waiting on its end is released; every other blocked element still has its blocker |
| `BlockQueue.BlockIf.CancelPending` | mvm/devices/block_if.c:753-776 | completes a pending request with that id if there is one, changes nothing otherwise |
| `BlockQueue.RunPartition` | mvm/devices/block_if.c:152-234 | in every reachable state each element is on exactly one of the free, pending and busy queues, and a busy one is processed by exactly one worker |
| `BlockQueue.HeldBackExactly` | mvm/devices/block_if.c:152-234 | over every run a request still in line is held back if and only if one in line or in flight ended at its offset when it came and none ending there has been completed or cancelled since |
| `BlockQueue.NotBeforeItsBlocker` | mvm/devices/block_if.c:152-215 | over every run no worker takes a request before one it depended on has been completed or cancelled |
| `BlockQueue.WorkDecides` | mvm/devices/block_if.c:362-396 | over every run a worker takes the first request in line that is not held back, and sleeps (or exits when closing) exactly when there is none |
| `BlockQueue.CloseWakesAll` | mvm/devices/block_if.c:830-847 | after the broadcast of blockif_close no worker sleeps again |
| `BlockQueue.StepInv` | mvm/devices/block_if.c:362-396 | every step of workers, clients, cancel and close keeps the queues in order, and keeps work attended by a live worker unless it is a request after the last exit |
| `BlockQueue.NeverStalls` | mvm/devices/block_if.c:695-723 | in every reachable state, requests racing with close included, a blocked element has one ending at its offset earlier in line or in flight, and pending work has a worker that is not asleep (also after a cancel that signals nobody) unless a request came after the last worker's exit |
| `BlockQueue.CloseDrains` | mvm/devices/block_if.c:830-847 | when all workers have exited nothing is in flight, and nothing is pending unless a request came after that |
| `BlockQueue.ClosedInTime` | mvm/devices/block_if.c:830-847 | without requests after closing is set none comes too late, so both queues are empty then |
| `BlockQueue.StallsWhenLate` | mvm/devices/block_if.c:695-723 | a run that closes, lets all workers leave and submits a request, which stays queued |
| `BlockQueue.RequestKeepsLive` | mvm/devices/block_if.c:695-723 | a request finds or wakes a live worker if and only if some worker has not exited |
| `BlockQueue.RequestAfterExit` | mvm/devices/block_if.c:695-723 | a request after the last exit stays queued and no worker step can follow |
| `BlockQueue.WorkerProgress` | mvm/devices/block_if.c:362-396 | each worker step lowers the work left, so workers alone empty the queues |
| `BlockQueue.LiveCanStep` | mvm/devices/block_if.c:362-396 | some worker can step if and only if one is live (no deadlock) |
| `Virtqueue.VirtQueue.GetDescs` | mvm/devices/virtio/virtio.c:237-310 | across 16-bit wraps, heads come out once and in published order; an error or an empty queue consumes nothing |
| `Virtqueue.VirtQueue.HasDescsExact` | mvm/include/virtio.h:130-133 | the comparison of 16-bit indices says exactly whether a published head is left |
| `Virtqueue.RingSlot` | mvm/devices/virtio/virtio.c:265-265 | an index modulo 2^16, masked with num - 1, is the unbounded counter modulo num |
| `Virtqueue.VirtQueue.NextHead` | mvm/devices/virtio/virtio.c:248-269 | the head at the masked index is the next published one |
| `Virtqueue.VirtQueue.DiscardDesc` | mvm/devices/virtio/virtio.c:312-316 | the index goes back by n modulo 2^16; the last n heads will come out again when so many are outstanding |
| `Virtqueue.VirtQueue.AddUsedPart` | mvm/devices/virtio/virtio.c:318-344 | a run of completions lands in its slots, and the recorded signal is dropped exactly when the distance to it reaches 2^16 |
| `Virtqueue.VirtQueue.AddUsedN` | mvm/devices/virtio/virtio.c:346-367 | the i-th completion is in slot i mod num also when the batch passes the ring's end; the queue stays valid as long as no more is completed than was taken |
| `Virtqueue.VirtQueue.NeedNotify` | mvm/devices/virtio/virtio.c:380-406 | with event indices the interrupt fires whenever used_event was crossed since the recorded signal and, with a valid record and without NOTIFY_ON_EMPTY, only then |
| `Virtqueue.NeedEventIsCrossing` | mvm/include/virtio.h:135-140 | for counters less than 2^16 apart the 16-bit test is exactly the crossing of the event position |
| `Virtqueue.TurnCrosses` | mvm/devices/virtio/virtio.c:380-406 | after a whole turn every position has been crossed, so firing without a valid record is never wrong by omission |
| `Virtqueue.SignalTest` | mvm/devices/virtio/virtio.c:337-341 | the 16-bit comparison sees exactly the step at which the distance becomes ambiguous |
| `Virtqueue.DirectExact` | mvm/devices/virtio/virtio.c:271-305 | a plain chain is accepted exactly when it fits, in order and counted by its own flags |
| `Virtqueue.IndirectExact` | mvm/devices/virtio/virtio.c:148-194 | a well-formed indirect table is accepted exactly when it leaves an iovec entry unused; buffers in order |
| `Virtqueue.ChainExact` | mvm/devices/virtio/virtio.c:237-310 | a chain of plain and indirect descriptors is accepted if and only if its buffers fit, with an entry to spare when its last descriptor is indirect; then all are there in order, each table's counted by its own outer flag |
| `Virtqueue.ChainAccepts` | mvm/devices/virtio/virtio.c:237-310 | only well-formed chains are accepted: in range, with tables of whole entries that hold plain chains from entry 0 on |
| `Virtqueue.IndirectCounts` | mvm/devices/virtio/virtio.c:148-194 | its in/out counts are the descriptors' own if and only if all agree with the outer descriptor's flag |
| `Virtqueue.IndirectMiscounts` | mvm/devices/virtio/virtio.c:148-194 | a writable descriptor behind a non-writable one is counted as output (concrete table) |
| `Virtqueue.ExactFitFails` | mvm/devices/virtio/virtio.c:148-194 | a table that exactly fills the iovec is refused (concrete case) |
| `Mutex.WaiterIsFirst` | os/core/event.c:100-111 | a waiter is found exactly when one waits: the highest-priority real-time one, else the first listed |
| `Mutex.HighestTaskReady` | os/core/event.c:125-159 | the retry loop takes off timed-out waiters and picks the highest-priority one still pending, else the first listed one still pending; everybody else keeps waiting |
| `Mutex.StepInv` | os/core/mutex.c:117-235 | every step of accept, pend, time-out, post and hand-off keeps the invariant; in particular the owner has been told 0 or is about to be, unless it is giving the mutex away |
| `Mutex.RunSafe` | os/core/mutex.c:117-190 | in every run, tasks pending on their own mutex included, at most one task holds the mutex, it is never unavailable without owner, and a return of 0 means owner |
| `Mutex.CallsDecide` | os/core/mutex.c:117-235 | in every run: accept and pend on a free mutex make the caller owner at once, an owned one is never taken away, only the owner's post has an effect, and a sleeper leaves the waiters when it returns |
| `Mutex.PostHandsOver` | os/core/mutex.c:192-235 | whatever other tasks and timers do, once the poster has made as many steps as tasks waited, and one more, it is out of mutex_post and the mutex is free with nobody pending, or belongs to the waiter that deserved it, who has been told or is about to be |
| `Mutex.PosterCanStep` | os/core/mutex.c:192-235 | until then the poster can always make its next step |
| `Mutex.ListedInTurn` | os/core/event.c:63-98 | per-CPU waiters stay in the order in which they came |
| `Mutex.TimeoutOwner` | os/core/mutex.c:167-189 | -ETIMEDOUT goes to the owner if and only if the owner itself made the call that times out |
| `Mutex.TimeoutToOwner` | os/core/mutex.c:117-190 | a run in which that happens: a task takes the mutex, pends on it again and times out as its owner |
| `Mutex.HandOffPicks` | os/core/mutex.c:192-235 | hand-off goes to the highest-priority still-pending real-time waiter, else to the first listed one |
| `Mutex.RetryTerminates` | os/core/event.c:125-159 | each retry has one waiter fewer, and none can join while the lock is held |
| `Mutex.ReleasedOnlyWhenUnwanted` | os/core/mutex.c:192-235 | the mutex becomes available only when nobody is pending |
| `PageTable.AddressSpace.CreatePageEntry` | os/core/mmu.c:131-159 | the entries of the range become leaves for consecutive physical addresses; walks of other addresses stay |
| `PageTable.AddressSpace.CreateTableEntry` | os/core/mmu.c:161-241 | recursion over tables: every address of the range is mapped, by block or page as get_map_type decides, others keep their walk |
| `PageTable.AddressSpace.CreateMemMapping` | os/core/mmu.c:243-278 | if the range was unmapped it succeeds whenever there is a free page for each table it needs in an empty space; success makes every address of it translate to its target and leaves every other address's translation unchanged |
| `PageTable.ExactTranslation` | os/core/mmu.c:103-113 | the target is pa + (a - va) if and only if a is mapped by pages or the two bases agree modulo 2M |
| `PageTable.BlockMappingShifts` | os/core/mmu.c:103-113 | mapping virtual 0 to physical 0x1000 for 2M sends address 0 to 0 |
| `PageTable.OneTableNeeded` | os/core/mmu.c:161-241 | a range behind one entry that is mapped by leaves of the next level needs one page |
| `PageTable.StoreFrame` | os/core/mmu.c:355-374 | a store leaves the walk, from any table, of every address outside that entry's slot unchanged |
| `PageTable.InstallFrame` | os/core/mmu.c:186-194 | hanging an empty table into an empty entry changes no walk |
| `GuestMemory.MapBlocks` | os/virt/vmm.c:348-359 | after the mapping loop the k-th 2M block of the guest is its k-th memory block, other addresses unchanged; a free page per block is always enough |
| `GuestMemory.AllocGuestPmd` | os/core/mmu.c:414-433 | the PMD table of the address exists and no translation changed; it fails only without a free page |
| `GuestMemory.CopyBlock` | os/virt/vmm.c:252-270 | one more block is aliased and the cursor of VM 0 is at the next one, in the next table when it passed the end |
| `GuestMemory.VmMmap` | os/virt/vmm.c:213-280 | -EINVAL exactly for a size above the region's; on success VM 0 sees at its mmap base plus the offset, address by address, the physical memory the guest sees at its base plus the offset, for as many blocks as the size arithmetic gives; other addresses of VM 0 unchanged; it succeeds when VM 0 has more free pages than blocks are copied |
| `GuestMemory.ShareMemory` | os/virt/vmm.c:320-361 | end to end: after the mapping loop of alloc_vm_memory and a successful vm_mmap, the k-th 2M of VM 0 from its mmap base and the k-th 2M of the guest from its base are both the k-th memory block, other addresses of VM 0 unchanged; it succeeds when both have enough free pages |
| `GuestMemory.CountFits` | os/virt/vmm.c:224-235 | the blocks copied are the size rounded up, or all the rest of the region when that is more than it has free; they never reach beyond it, and there are none for an offset beyond it |
| `GuestMemory.NeverAnError` | os/virt/vmm.c:244-246 | the -EIO branch is never taken: a missing PMD table is not recognised as an error |
| `Slab.RunHeap` | os/core/mm_default.c:825-1187 | over any run of malloc, free and add_slab_mem on fresh memory all chunks and the bump region are pairwise disjoint, inside the memory given, and each chunk is live or on exactly one list; conservation: of the bytes given each operation loses fewer than a minimal chunk, unless a single piece has 4 GiB or more |
| `Slab.SlabHeap.Malloc` | os/core/mm_default.c:1161-1187 | a chunk that was not live becomes live and live chunks stay; it has at least the rounded size if and only if one of the first five strategies can serve the request, or the size is at most 528, or the first chunk of the pool of big chunks is large enough; for sizes above 528 also exactly when there is a chunk at all; the bytes in no chunk grow by exactly what a split drops |
| `Slab.SlabHeap.Free` | os/core/mm_default.c:1353-1366 | with the magic number in place a live chunk goes to the pool of its size; anything else changes nothing, first in its list; no byte is lost |
| `Slab.SlabHeap.AddSlabMem` | os/core/mm_default.c:838-889 | fresh memory becomes a free chunk or nothing; live chunks stay; the bytes dropped are exactly those of the rounding |
| `Slab.SlabHeap.FromPool` | os/core/mm_default.c:936-953 | exactly when the size class has a chunk, and then one at least as large as asked |
| `Slab.SlabHeap.FromBigPool` | os/core/mm_default.c:955-990 | exactly when a big chunk fits exactly |
| `Slab.SlabHeap.FromCache` | os/core/mm_default.c:1064-1125 | exactly when a cached chunk is large enough: the first such is split; a rest above 96 bytes takes its place in the cache, a smaller one is first in its pool, and only less than a minimal chunk (or the part beyond 32 bits) is dropped |
| `Slab.SlabHeap.FromSlabFree` | os/core/mm_default.c:992-1019 | exactly when the bump region is large enough: its next bytes, with its end when little is left |
| `Slab.SlabHeap.FromNewSlab` | os/core/mm_default.c:1021-1062 | exactly when a block can be had and is large enough; the rest of the bump region is kept as a chunk, with no byte lost |
| `Slab.SlabHeap.FromBigSlab` | os/core/mm_default.c:1127-1147 | takes from the first non-empty pool at or above the class; the chunk is large enough if and only if the size is at most 528 or the first big chunk is |
| `Slab.BigSlabTooSmall` | os/core/mm_default.c:1127-1147 | a run of add_slab_mem, malloc(528), free and malloc(1024) that ends with a chunk of 528 bytes |
| `Slab.LittleDropped` | os/core/mm_default.c:1064-1125 | less than a minimal chunk is dropped of a split if and only if the rest fits a 32-bit number |
| `Slab.FreeThenMalloc` | os/core/mm_default.c:1353-1366 | free then malloc of the same size class (of the same size above 512 bytes) returns the same chunk and leaves the heap as it was |
| `Bitmap.BitmapSet` | os/core/bitmap.c:82-100 | exactly the bits start..start+len-1 become set, every other bit of the map stays |
| `Bitmap.BitmapClear` | os/core/bitmap.c:102-120 | exactly the bits start..start+len-1 become clear, every other bit of the map stays |
| `Bitmap.FindNextBit` | os/core/find_bit.c:27-50 | the least position of the wanted kind in start..nbits-1, or nbits when there is none |
| `Bitmap.FindNextBitLoop` | os/core/find_bit.c:67-82 | the least match at or after the offset, else the least match of the map, else size |
| `Bitmap.FindZeroAreaOff` | os/core/bitmap.c:135-158 | for nr >= 1 the least aligned all-zero run, or a value above size exactly when none exists; for nr = 0 the next clear bit rounded up |
| `Bitmap.FindZeroAreaAlign` | os/core/bitmap.c:160-185 | for any alignment and nr >= 1 the least all-zero run at a place without a bit of align - 1, or a value above size exactly when none exists; the retry ends |
| `Bitmap.AlignIsMod` | os/core/bitmap.c:174-177 | for a power of two those places are its multiples |
| `Bitmap.NeverReturns` | os/core/bitmap.c:160-185 | the condition for the end of the retry is exact: for nr = 0 without an aligned clear bit or an aligned size, every pass leads to another such pass |
| `Bitmap.EndlessSearch` | os/core/bitmap.c:160-185 | a map of one set bit, nr = 0 and alignment 2: for every n there are n passes that all go back |
| `WordBits.FindFirstSet` | os/arch/aarch64/include/asm/bitops.h:12-41 | halving finds the least set bit of every non-zero word |
| `WordBits.FirstWordMask` | os/include/minos/bitmap.h:82-82 | the mask has exactly the bits from start on |
| `WordBits.LastWordMask` | os/include/minos/bitmap.h:83-83 | the mask has exactly the bits below nbits, all of them when nbits is a multiple of 64 |
| `Virq.VirqStruct.Send` | os/virt/virq.c:45-80 | the pending flag is set, an SGI records its sender; an idle descriptor joins the pending list and is counted, an active one stays where it is; invariant kept |
| `Virq.VirqStruct.SendVirq` | os/virt/virq.c:82-117 | -EINVAL for an offline or rebooting VM, -EAGAIN for a suspended one that the virq cannot wake, else the virq is sent |
| `Virq.VirqStruct.GetPending` | os/virt/virq.c:351-374 | the first pending virq becomes active with its flag cleared, nothing happens on an empty list; invariant kept |
| `Virq.VirqStruct.ClearPending` | os/virt/virq.c:314-349 | an active virq leaves the active list and is re-queued at the tail exactly when it was sent again |
| `Virq.VirqStruct.HasIrq` | os/virt/virq.c:376-385 | true exactly when some virq is pending or active |
| `Virq.StepInv` | os/virt/vcpu.c:132-160 | every step, the separate list reads of vcpu_idle included, keeps the invariant |
| `Virq.FlagIsSent` | os/virt/virq.c:45-80 | in every run the pending flag means exactly: sent since it was last taken |
| `Virq.NoLostVirq` | os/virt/virq.c:314-349 | a virq sent since last taken is on exactly one list, and if it is active its end re-queues it |
| `Virq.NoLostWakeup` | os/virt/vcpu.c:143-160 | a suspended vCPU with such a virq has a sender that queued and has not kicked, whose kick can run and makes it ready |
| `Virq.WakeDelivers` | os/virt/vcpu.c:143-160 | after that kick the vCPU can be dispatched, go on and take the first pending virq |
| `Virq.IdleSuspends` | os/virt/vcpu.c:132-160 | a vCPU that idles undisturbed is suspended if and only if nothing is pending or active, and otherwise is back in the guest |
| `Virq.TakenInTurn` | os/virt/virq.c:351-374 | a virq with k others before it is the one taken by the (k+1)-st taking, whatever happens in between |
| `Virq.TakenOnce` | os/virt/virq.c:45-80 | conservation: accepted sends equal takings, plus one while the virq is pending |
| `Trap.RunInv` | os/virt/vmcs.c:24-117 | the handshake invariant holds in every state of every interleaving of single accesses |
| `Trap.IndexGap` | mvm/main/mvm.c:433-440 | host_index - guest_index is 0 or 1 (modulo 2^64), and the eventfd never counts more than one |
| `Trap.ServedOnce` | mvm/main/mvm.c:492-519 | each posted trap is served exactly once, in order and from its own arguments; the uninitialised default branch is never taken |
| `Trap.NotOverwritten` | os/virt/vmcs.c:49-75 | from post to acknowledge the fields stay as posted, and the vCPU writes only while no trap is open |
| `Trap.OwnResult` | os/virt/vmcs.c:99-116 | a blocking trap returns the result and return code of the request that this very call posted |
| `Trap.CallTrace` | os/virt/vmcs.c:24-117 | over every run a call with known type and reason begins and any other is refused without effect; one that has begun posts its own request exactly once if it returns, and nothing if its send fails |
| `Trap.CallEnds` | os/virt/vmcs.c:24-117 | each step of the vCPU brings its call nearer to the end and no step of the mvm thread sets it back |
| `Trap.FailureUndone` | os/virt/vmcs.c:77-85 | when a call whose send failed returns, the indices agree again, no trap is open, everything posted has been served, and the page holds -EPERM and 0 |
| `Trap.Progress` | os/virt/vmcs.c:49-59 | a waiting trap is never stuck: the mvm thread can step, every step of either side leaves the acknowledge as near or brings it nearer, and the last one frees the trap |

## Left out

- FdtWriter.Writer.Property: new names for which strings plus name exceed totalsize; by RoomTest these are exactly the names for which the code's test is wrong, and the code then writes before the buffer. A run that asks for one ends there.
- FdtWriter.Writer.FindAddString: the same names.
- FdtEdit.Tree.SetPropInplacePartial: exactly the calls whose wrapped length test passes out of bounds (LengthTest).
- FdtEdit.Tree.Pack: a reserve map whose end entry is not below the structure block.
- FdtPath.PathOffset: paths that start with an alias.
- FdtPath.GetPath: node offsets that are not a node at or below the root; the naming rules (no slash in a name, root without a name) are assumed.
- FdtPath.SupernodeAtDepth: node offsets that are not a node at or below the root.
- PageTable.AddressSpace.CreateMemMapping: ranges already mapped and the failure path, in which a table page is freed while the entry above still points to it; host ranges that are not 2M-aligned; descriptor attribute bits.
- GuestMemory.VmMmap: guest blocks that are not mapped by block entries (the code then copies whatever word it finds), bases off the 2M grid, offsets of 2^52 and more.
- Slab.SlabHeap.Free: the word at the header is a parameter, taken to be the magic number exactly for live chunks (the field shares its place with the list link, and 0xdeadbeef is no header's address).
- Bitmap.FindZeroAreaOff: sizes, offsets and masks whose 64-bit sums wrap, and masks not of the form 2^k - 1, which the function's comment excludes.
- Virtqueue.VirtQueue.AddUsedN: batches longer than the ring.
- libfdt: the header is a record rather than bytes; the writer (except `fdt_resize`) and the editor update the buffer as a sequence value, so aliasing of the caller's pointers is not captured; versions below 17; `fdt_add_mem_rsv`, `fdt_del_mem_rsv`, `fdt_open_into`, overlays, phandle and string-list queries.
- FdtEdit.Tree.SetProp: offsets into the middle of a token; the offset is that of some token of the tree, node or not.
- FdtEdit.Tree.AppendProp: offsets into the middle of a token; the offset is that of some token of the tree, node or not.
- FdtEdit.Tree.DelProp: offsets into the middle of a token; the offset is that of some token of the tree, node or not.
- FdtEdit.Tree.SetName: offsets into the middle of a token; the offset is that of some token of the tree, node or not.
- FdtEdit.Tree.AddSubnode: offsets into the middle of a token; the offset is that of some token of the tree, node or not.
- FdtEdit.Tree.DelNode: offsets into the middle of a token; the offset is that of some token of the tree, node or not.
- FdtEdit.Tree.NopProperty: offsets into the middle of a token; the offset is that of some token of the tree, node or not.
- FdtEdit.Tree.NopNode: offsets into the middle of a token; the offset is that of some token of the tree, node or not.
- FdtTree.NextNode: offsets into the middle of a token; the offset is that of some token of the tree, node or not.
- FdtTree.NodeEndOffset: offsets into the middle of a token; the offset is that of some token of the tree, node or not.
- FdtTree.GetProperty: offsets into the middle of a token; the offset is that of some token of the tree, node or not.
- FdtTree.SubnodeOffset: offsets into the middle of a token; the offset is that of some token of the tree, node or not.
- FdtTree.NextProp: offsets into the middle of a token; the offset is that of some token of the tree, node or not.
- Mutex and Trap: step systems over values; update in place appears as the new state of a step, which is one critical section or one access of the code.
- Scheduler: local CPU classes and the real-time core 0 option; tick accounting and context switching. All CPUs start on a per-CPU task, so current real-time priorities are distinct.
- block_if: file I/O, cancel of a request in flight, opening and the rest of closing.
- virtio: kick suppression towards the device, device configuration, feature negotiation; descriptor addresses are not translated.
- Page and section allocation, `destroy_mem_mapping`, pool counters.
- `find_first_bit`, `find_first_zero_bit`, `find_last_bit`, `__bitmap_weight`.
- Virtual interrupts: the GIC back ends that move virqs to list registers, reset, power-off; one vCPU at a time, each descriptor bound to it.
- Traps: argument checks other than type and reason, what a handler does, interrupt flags (not restored after a failed send).
- Memory ordering, TLB and cache maintenance: each step is atomic under the lock or the single access named.
