# Coroutine channel bus and in-memory file system, modelled in Dafny

This project models two state-holding cores of a C repository and proves
properties of them.

**The channel bus of `1/corobus.c`.** A bus is a table of slots addressed by
integer handles. Each slot is empty or holds a channel, and each channel has:
- a size limit;
- a FIFO queue of `unsigned` messages;
- two wait lists of parked coroutines, one for senders and one for receivers.

The model covers:
- the growable message buffer `data_vector`: a class over an array with
  `size` and `capacity`;
- opening and closing channels, with reuse of the lowest empty slot;
- the non-blocking operations `try_send`, `try_recv`, `try_broadcast`,
  `try_send_v` and `try_recv_v`;
- the single non-suspending pass of the blocking ones;
- parking on and resuming from the wait lists.

A coroutine is a `TaskId`. Every `coro_wakeup` an operation makes is returned,
in order, as the `woken` sequence. `global_error` becomes the error of a
`Fail` result.

**The file system of `3/userfs.c`.** It consists of:
- a global list of files, each a chain of 512-byte blocks;
- a growable table of file descriptors whose empty slots are reused;
- a reference count per file, with deletion deferred until the last
  descriptor closes.

A `struct file *` is a `FileId` key of the `files` map. The doubly linked
`file_list` is the sequence `fileList`, head first. The descriptor table is a
sequence of optional descriptors. The bytes of a file are defined position by
position from its blocks (`FileBlocks.Content`): position `p` lives in block
`p / 512` at offset `p % 512`.

The write and read chunk loops are proved against that definition:
- a write lays the buffer over the old bytes (`Overlay`);
- a read returns the slice of the bytes it covers.

`ufs_error_code` becomes the error of a `Fail` result.

Client code in `scenarios.dfy` and `fs_scenarios.dfy` drives both cores
through what their APIs promise: bounded FIFO channels with all-or-nothing
broadcast, and files that read back what was written and outlive their
deletion while still open. It uses only the contracts of the operations.

The model follows the code in one place where a reader might expect more:
the blocking `send_v` returns after its first pass that moves any value
(1/corobus.c:469-479), rather than looping until every value has been sent.

In two places the operations model the evidently intended behaviour rather
than the code. The code's behaviour is modelled separately and compared with
it under Findings:
- **`Bus.TryRecv` checks the handle's range.** It rejects an out-of-range
  handle with NoChannel. The code never compares the handle with the table
  bounds (1/corobus.c:283, 304); `TryRecvGuardAsWritten` models that test.
- **`Bus.TrySendV` uses the true room.** It takes the room from
  `Channel.Space`, the `size_t` difference. The code truncates the room to a
  32-bit `unsigned` (1/corobus.c:496); `SpaceAsWritten` models that value.

The readiness test of the blocking broadcast (1/corobus.c:352) is modelled as
written, by `BroadcastReadyAsWritten`. It admits a full channel that has a
parked receiver, so the capacity bound can be exceeded; this is also under
Findings.

## Model

| member | source | states |
|---|---|---|
| Lists.Unlink | 3/userfs.c:71-80 | remove_file_from_list and the `rlist_del_entry` of a resumed waiter (1/corobus.c:86): the list with the entry unlinked, never longer than before. That exactly that entry goes and the rest keep their order is proved in UnlinkMembers and UnlinkAt. |
| Lists.UnlinkMembers | 3/userfs.c:71-80 | Unlinking an entry keeps the list free of duplicates. It removes exactly that entry and keeps every other one. The length drops by one when the entry was linked; a list without it is returned unchanged. |
| Lists.UnlinkAt | 3/userfs.c:71-80 | Unlinking the entry at index i splices its neighbours together; every other entry keeps its order. |
| DataVectors.GrownCapacity | 1/corobus.c:24-30 | The new capacity always holds size + count. It is unchanged when the values already fit. Otherwise it is 4 from an empty buffer or double the old one, raised to exactly size + count when that is not enough. |
| DataVectors.DataVector.constructor | 1/corobus.c:159-161 | A channel's buffer starts empty with capacity 0. |
| DataVectors.DataVector.Reserve | 1/corobus.c:31-32 | The realloc gives new storage of the requested capacity with the same size and the same pending values. |
| DataVectors.DataVector.AppendMany | 1/corobus.c:22-36 | The contents become the old contents followed by the values. The size grows by their count and the capacity becomes GrownCapacity. The storage is kept when the values fit and is replaced otherwise. |
| DataVectors.DataVector.CopyToTail | 1/corobus.c:34-35 | The memcpy puts the values after the first `size` slots, leaves those slots unchanged and raises the size by the count. |
| DataVectors.DataVector.Append | 1/corobus.c:39-42 | One value joins the tail; the capacity grows as for a one-value append. |
| DataVectors.DataVector.PopFirstMany | 1/corobus.c:46-51 | With count <= size, the first count values come out in order and exactly the remaining suffix stays. Storage and capacity are unchanged. |
| DataVectors.DataVector.PopFirst | 1/corobus.c:54-59 | The oldest value comes out and the rest remain in order. |
| DataVectors.FifoRoundTrip | 1/corobus.c:22-51 | Appending values to an empty buffer and then popping as many gives them back in the same order. |
| CoroBus.Channel.Space | 1/corobus.c:496-502 | The room left is 0 exactly when the channel is full, and size + room equals the limit. |
| CoroBus.WakeupFirst | 1/corobus.c:90-97 | At most one coroutine is woken. It is the oldest waiter, and there is one exactly when the list is non-empty. The list itself is left as it is. |
| CoroBus.RepeatPeriodic | 1/corobus.c:507-510 | The wakeups of the send_v loop are the same wakeup over and over: the sequence starts and ends with it and dropping the first wakeup leaves the same sequence as dropping the last. |
| CoroBus.SendEach | 1/corobus.c:507-510 | The first n values join the tail of the queue in order. The oldest receiver is woken once per value. |
| CoroBus.Broadcast | 1/corobus.c:420-429 | The table keeps its length, and every slot stays open or empty as it was. |
| CoroBus.BroadcastReady | 1/corobus.c:410-429 | A table that passes try_broadcast's test, with every channel within its limit, stays within every limit whatever value is then broadcast. |
| CoroBus.BroadcastKeepsCapacity | 1/corobus.c:410-429 | After a try_broadcast admitted by "no open channel is full", every channel is still within its limit. Each open channel grows by exactly one message. |
| CoroBus.BroadcastReadyAsWritten | 1/corobus.c:348-356 | The blocking broadcast's readiness test as written. It admits everything the all-not-full test admits, and more. |
| CoroBus.BroadcastAsWrittenOverfills | 1/corobus.c:352-366 | A valid channel of limit 1, holding one message with one parked receiver, passes that test. The committed broadcast leaves it holding two. |
| CoroBus.SpaceAsWritten | 1/corobus.c:496 | The room as an `unsigned` difference is below 2^32. It equals the true room whenever that room fits in 32 bits. |
| CoroBus.SpaceAsWrittenHidesRoom | 1/corobus.c:496-502 | An empty channel of limit 2^32 has room, yet its truncated room is 0, which reads as WouldBlock. |
| CoroBus.TryRecvGuardAsWritten | 1/corobus.c:304-307 | On a non-empty table, the admission test of try_recv reads outside the table exactly when the handle is out of range. It admits a call only for an open slot. |
| CoroBus.TryRecvGuardReadsOutside | 1/corobus.c:304-309 | With one open channel, handles 1 and -1 both get past the test to an out-of-range read. |
| CoroBus.Bus.constructor | 1/corobus.c:128-134 | A new bus has no slots. |
| CoroBus.Bus.LowestFreeSlot | 1/corobus.c:165-170 | It returns the lowest empty slot, with every slot below it taken. None means every slot is taken. |
| CoroBus.Bus.Open | 1/corobus.c:151-184 | The new channel, with the given limit, an empty queue and empty wait lists, goes into the lowest empty slot. When every slot is taken it goes into a new slot at the end. The handle is its index and no other slot changes. |
| CoroBus.Bus.Close | 1/corobus.c:186-217 | An invalid or empty handle changes nothing. Otherwise every receiver and then every sender is woken, oldest first, and the slot is emptied. All other slots are untouched. |
| CoroBus.Bus.Park | 1/corobus.c:80-85 | The coroutine joins the tail of the send or the receive wait list of an open channel. Nothing else changes and the lists stay duplicate-free. |
| CoroBus.Bus.Resume | 1/corobus.c:85-86 | The resumed coroutine unlinks its own entry. When the channel has been closed meanwhile, nothing changes. |
| CoroBus.Bus.TrySend | 1/corobus.c:257-279 | An invalid handle gives NoChannel and a full channel gives WouldBlock, both changing nothing. Otherwise the value joins the tail and only the oldest receiver is woken; the limit is kept. |
| CoroBus.Bus.SendAttempt | 1/corobus.c:232-248 | One pass of the blocking send. Its outcomes are those of TrySend, except that a success wakes the oldest receiver and then the oldest sender. |
| CoroBus.Bus.TryRecv | 1/corobus.c:302-319 | An invalid handle gives NoChannel and an empty queue gives WouldBlock, both changing nothing. Otherwise the head is returned, the queue keeps its tail and the oldest sender is woken. |
| CoroBus.Bus.AnyLive | 1/corobus.c:397-403 | It answers whether some slot is open. |
| CoroBus.Bus.AnyFull | 1/corobus.c:410-418 | It answers whether some open channel is full. |
| CoroBus.Bus.TryBroadcast | 1/corobus.c:386-435 | With no open channel it gives NoChannel, and with any open channel full it gives WouldBlock; neither modifies any channel. Otherwise the value joins every open channel and nothing else changes. The oldest receiver of each channel is woken, in slot order. |
| CoroBus.Bus.TrySendV | 1/corobus.c:484-516 | It gives NoChannel or WouldBlock as TrySend does. Otherwise the first min(count, room) values join the tail in order and that number is returned. Receivers are woken once per value and the oldest sender once at the end. |
| CoroBus.Bus.TryRecvV | 1/corobus.c:545-570 | It gives NoChannel or WouldBlock as TryRecv does. Otherwise the oldest min(capacity, size) values come out in order, the rest stay, and the oldest sender is woken. |
| CoroBus.Bus.RecvVAttempt | 1/corobus.c:519-542 | The pass of the blocking recv_v that finds data. It does what TryRecvV does, and also wakes the oldest receiver when messages remain. |
| FileBlocks.BlockCount | 3/userfs.c:206-230 | The number of blocks that holds `size` bytes, with less than one block to spare. |
| FileBlocks.InBlock | 3/userfs.c:191-192 | In a laid-out file, position p lies in an existing block, p / 512, at an offset below that block's `occupied`. |
| FileBlocks.Overlay | 3/userfs.c:245-248 | After a write the file's length is the larger of the old size and the end of the write. |
| FileBlocks.OverlayNothing | 3/userfs.c:187-190 | Writing nothing leaves the bytes as they were. |
| FileBlocks.OverlayReadBack | 3/userfs.c:232-235 | The written range reads back as the data. Every byte before it, and every old byte after it, is unchanged. |
| FileBlocks.OverlayTwice | 3/userfs.c:237-238 | Two writes back to back, the second starting where the first ended, equal one write of both. |
| FileBlocks.EmptyBlock | 3/userfs.c:208-222 | The block linked at the tail has BLOCK_SIZE bytes of memory and nothing occupied. |
| FileBlocks.CopyIn | 3/userfs.c:232-235 | The memcpy puts the chunk at the offset and leaves every other byte of the block unchanged. `occupied` becomes the larger of its old value and the end of the chunk. |
| FileBlocks.WriteAt | 3/userfs.c:198-235 | Writing into block `index` keeps the chain's length when the block exists. When the position is just past the last block, one new block is linked. |
| FileBlocks.ChunkIndex | 3/userfs.c:198-207 | For a position up to the end of a laid-out file, the walk finds an existing block. At the end of the file on a block boundary, the block is the next one to link. |
| FileBlocks.WriteChunkLayout | 3/userfs.c:190-235 | Writing one chunk that stays within a block keeps every block 512 bytes long with the right `occupied` for the new size. |
| FileBlocks.WriteChunkContent | 3/userfs.c:190-235 | Writing one chunk lays it over the file's bytes at the current position. |
| FileBlocks.ReadChunk | 3/userfs.c:279-307 | Within one block, the requested bytes are below `occupied`, and the memcpy from that block yields the file's bytes at those positions. |
| FileBlocks.ChunkSize | 3/userfs.c:191-195 | A chunk never crosses a block boundary and never exceeds what is left. It is non-empty while bytes are left, and it ends at a block boundary unless it finishes the data. |
| FileBlocks.OverlayStep | 3/userfs.c:237-238 | The bytes written so far followed by one more chunk equal one write of both. |
| FileBlocks.WriteStep | 3/userfs.c:190-238 | One turn of the write loop keeps its invariant: the blocks are laid out for the new size, and the data written so far is laid over the file. |
| FileBlocks.WriteBlocks | 3/userfs.c:187-243 | The chunk loop of ufs_write leaves the chain laid out for max(size, pos + n). The file's bytes are the old bytes with the data laid over them from pos. |
| FileBlocks.ReadBlocks | 3/userfs.c:275-310 | The chunk loop of ufs_read returns exactly the file's bytes from pos to pos + count. |
| UserFs.OpenCountZero | 3/userfs.c:348-353 | A file's descriptor count is 0 exactly when no slot refers to it. |
| UserFs.OpenCountSet | 3/userfs.c:334-336 | Replacing one slot changes each file's count by what the old and the new slot contributed. |
| UserFs.OpenCountAppend | 3/userfs.c:95-101 | The count over a table extended by new slots is the sum of the two counts. |
| UserFs.NoSlots | 3/userfs.c:95-97 | It gives n slots, all empty. |
| UserFs.GrownCapacity | 3/userfs.c:90 | A full descriptor table grows to 16 from empty and doubles otherwise, so it always grows. |
| UserFs.AllocatedCounts | 3/userfs.c:149-155 | Allocating a descriptor adds one to its file's count and leaves every other file's count unchanged. |
| UserFs.AllocatedSlot | 3/userfs.c:82-103 | The allocated slot holds the descriptor. Every other old slot is unchanged and every new slot is empty. |
| UserFs.NoDescriptorOn | 3/userfs.c:125-129 | A file that is not allocated has no descriptor on it, so a new file starts with refs 0. |
| UserFs.DescriptorCounts | 3/userfs.c:326-329 | The file of an open descriptor is allocated and has refs > 0, so the decrement in ufs_close stays non-negative. |
| UserFs.NamesUpdate | 3/userfs.c:352 | Changing a file without renaming it or reviving it from deletion keeps live names unique. |
| UserFs.NamesAdd | 3/userfs.c:109-136 | Adding a file under a name no live file has keeps live names unique. |
| UserFs.NamesRemove | 3/userfs.c:330-332 | Freeing a file keeps live names unique. |
| UserFs.CreateKeepsWf | 3/userfs.c:114-136 | An empty file with no references, linked at the head of the list, keeps the file system consistent. |
| UserFs.OpenKeepsWf | 3/userfs.c:139-155 | A new descriptor at position 0, counted in its file's refs, keeps the file system consistent. |
| UserFs.MoveKeepsWf | 3/userfs.c:245-248 | A descriptor moving within its file, possibly grown by a write, keeps the file system consistent. |
| UserFs.CloseKeepsWf | 3/userfs.c:320-339 | Emptying a slot and dropping its reference keeps the file system consistent. This includes freeing a deleted file at its last reference. |
| UserFs.DeleteKeepsWf | 3/userfs.c:341-356 | Freeing an unreferenced file, or marking a referenced one deleted, keeps the file system consistent. |
| UserFs.FileSystem.constructor | 3/userfs.c:34-44 | The file system starts with no files and no descriptors. |
| UserFs.FileSystem.FindFile | 3/userfs.c:50-57 | It returns only a live, non-deleted file with that name, and returns None exactly when there is none. |
| UserFs.FileSystem.AllocateFd | 3/userfs.c:82-103 | The descriptor goes into the lowest empty slot. When there is none, the table grows to GrownCapacity with all new slots empty and the descriptor in the first of them, the old capacity. Nothing else changes. |
| UserFs.FileSystem.Open | 3/userfs.c:105-168 | A missing name without create gives NoFile and changes nothing. With create it makes a new empty file at the head of the list. Any success adds one to the file's refs and gives a descriptor at position 0 from allocate_fd. |
| UserFs.FileSystem.CreateFile | 3/userfs.c:114-137 | The new file is fresh, empty and unreferenced, and is linked at the head of the file list. The descriptors are unchanged. |
| UserFs.FileSystem.AttachDescriptor | 3/userfs.c:139-167 | The file gains one reference and a descriptor at position 0 in the slot allocate_fd picks. |
| UserFs.FileSystem.Write | 3/userfs.c:170-255 | A bad descriptor gives NoFile and changes nothing, as does a write that cannot add a byte at MAX_FILE_SIZE, which gives NoMem. Otherwise n = min(len, MAX_FILE_SIZE - pos) bytes are written and n is returned. The file's bytes are the old bytes with those n bytes laid over them at pos, the size becomes max(size, pos + n), and pos advances by n. |
| UserFs.FileSystem.Read | 3/userfs.c:257-318 | A bad descriptor gives NoFile and changes nothing. Otherwise it returns the file's bytes from pos, min(size asked, file size - pos) of them, which is none at or past the end, and pos advances by that many. |
| UserFs.FileSystem.Close | 3/userfs.c:320-339 | A bad descriptor gives NoFile and changes nothing. Otherwise the slot is emptied and the file loses a reference; a file awaiting deletion is unlinked and freed at its last one. |
| UserFs.FileSystem.Delete | 3/userfs.c:341-356 | A missing name gives NoFile. An unreferenced file is unlinked and freed; a referenced one is marked deleted. Either way no live file has the name afterwards, and the descriptors are untouched. |
| FsScenarios.WriteThenReadBack | 3/userfs.c:105-318 | Bytes written through one descriptor read back unchanged through a second descriptor opened afterwards on the same name. |

## Left out

- Suspension itself (`coro_suspend`, `coro_wakeup`, `coro_yield`) and the scheduler are not part of this model. The blocking `send`, `recv`, `send_v` and `recv_v` are modelled only as their single non-suspending pass: SendAttempt, TryRecv, TrySendV and RecvVAttempt. Parking is modelled as Park and Resume. The re-check after waking that the handle still names the same channel is not modelled.
- The blocking `coro_bus_broadcast` (1/corobus.c:324-384) is not modelled as an operation, only through its readiness test (BroadcastReadyAsWritten) and the commit it leads to (Broadcast). Its suspend-on-every-full-channel loop needs the scheduler.
- Allocation failures (`malloc`, `realloc`, `strdup` returning NULL) are not modelled: allocation always succeeds. This drops the NoMem paths of ufs_open and allocate_fd and the mid-loop NoMem return of ufs_write. It also drops the NO_CHANNEL return when coro_bus_channel_open cannot grow the table. `data_vector_append_many` ignores a failed realloc.
- The error globals `global_error` and `ufs_error_code` are not state here: each failure is the error of a `Fail` result. The few writes to them on other paths are not modelled. These are close's writes, listed next, and the reset to CORO_BUS_ERR_NONE that the blocking recv_v makes before parking (1/corobus.c:529), which is part of its suspension.
- CoroBus.Bus.Close: does not model close setting `global_error` to CORO_BUS_ERR_NO_CHANNEL once for each waiter it drains (1/corobus.c:195, 205). Close returns no status, the error global is not state in this model, and the parked coroutines learn of the close from their own re-check after waking.
- Teardown is not modelled: `coro_bus_delete`, `ufs_destroy` and `free_file` only free memory.
- `ufs_resize` is a stub that returns 0, so there is nothing to model.
- 2/solution.c, a shell executor built on OS processes, is not part of this model.
- The descriptor fields `cur_block` and `flags` are not modelled. `cur_block` only gates an assignment to `pos` that the end of the loop repeats, and `flags` is stored but never read again. The UFS_CREATE bit of the open flags is the boolean `create`, because its value is defined in userfs.h, which is not part of this model.
- A fresh block's memory is modelled as zeros. Its bytes beyond `occupied` are never read.
- The `data == NULL` arguments of the batch operations and `bus == NULL` cannot arise: sequences and objects are never null.
- Integer widths are modelled only where they matter: Msg is 32-bit and the `unsigned` room of try_send_v is a finding. Counts, sizes, `refs` and the descriptor capacity are unbounded. The `int` overflow of `refs` or of `file_descriptor_capacity * 2` is not modelled.
- The channel queue inside Bus is a sequence. The data_vector class separately proves that its append and pop behave as sequence concatenation and suffix. The Bus does not hold DataVector objects, so aliasing between channels' buffers is not modelled.
- The chunk loops' early exits are not modelled, because they are unreachable for a file whose blocks are laid out for its size (WriteBlocks and ReadBlocks require that layout). These are the walk that meets a NULL block before `block_index` and the `offset_in_block >= occupied` break.
- Pointers are modelled as ids and the doubly linked lists as sequences, so the `prev`/`next` fix-ups of remove_file_from_list are the sequence splice proved in Lists.UnlinkAt.

## Findings

| source | as written | input that shows it | evidently intended | confidence | as-written member | corrected member |
|---|---|---|---|---|---|---|
| 1/corobus.c:352 | The blocking broadcast counts a full channel as ready when a receiver is parked on it, then appends to it | a channel with limit 1 holding one message and one parked receiver | The two statements of intent conflict. The channel API describes broadcast as waiting until every channel has room or an immediately available receiver, and line 352 follows that wording. Only the capacity invariant, that no queue ever holds more than its limit, is broken by the code. The model keeps the invariant: commit only when no open channel is full, as try_broadcast does | medium, not executed | CoroBus.BroadcastAsWrittenOverfills | CoroBus.BroadcastKeepsCapacity |
| 1/corobus.c:496 | The room is computed as an `unsigned` difference of two `size_t` values, which truncates it modulo 2^32 | an empty channel with size_limit 2^32 gives room 0 and reports WouldBlock | the room as a `size_t`, which is 0 only when the channel is full | low, not executed | CoroBus.SpaceAsWrittenHidesRoom | CoroBus.Bus.TrySendV |
| 1/corobus.c:304 | try_recv (and recv at line 283) reads `channels[channel]` without comparing the handle with 0 and `channel_count` | one open channel and handle 1 or -1 | reject an out-of-range handle with NoChannel, as try_send does at line 264 | high, not executed | CoroBus.TryRecvGuardReadsOutside | CoroBus.Bus.TryRecv |
