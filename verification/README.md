# Verified model of an RPMsg Ethernet link and parts of lwIP 2.1.1

This project models the stateful core of the repository in Dafny and proves what it is meant to guarantee:

* the lwIP heap, with `mem_free` and `mem_trim` called by other contexts in every window that `mem_malloc`
  opens (`HeapLayout`, `HeapHeaders`, `HeapProperties`, `Heap`);
* the transmit path of the Linux driver, a protocol between xmit, two workers and remove (`RpmsgTx`);
* wake-up of threads blocked in `lwip_select` and `lwip_poll` (`SelectList`, `SelectWakeup`, `SelectLimits`);
* receiving from a TCP socket (`TcpRecv`) and the resumable vectored write (`VectorWrite`);
* the Internet checksum (`Checksum`);
* the DNS resolver: names (`DnsNames`), table and requests (`DnsTable`, `DnsResolver`);
* the TFTP read transfer between the FreeRTOS example server and client (`Tftp`);
* fixed-size pools (`Memp`).

Code that changes state in place is a class or a method with loops, proved against functions on values; the
lemmas are about these functions. The concurrent protocols are state machines whose steps are interleaved at
every unlock. What the other side does (the scheduler, the network, the TCP/IP thread, TCP itself) is a list of
arbitrary events, so that every statement holds for all of them.

`dafny verify dfyconfig.toml` checks the whole project.

## What differs from the documentation

* Heap: the assertion at core/mem.c:791 does not hold when the block being trimmed is the last one; it is
  compiled to nothing, and the code is right without it (`HeapProperties.LastBlockTrimmed`). Both corrections
  of `lfree` in `plug_holes` are redundant.
* Heap: `mem_sanity` does not check the link from the second block back to the first one; a link to itself passes
  (`Heap.Heap.Sanity`, in the predicate `BackAt`).
* Linux driver: `rpmsg_eth_open` starts the queue without looking at the worker. Stopping and reopening the
  interface while the worker is in its cleanup can overwrite the slot, also when the slot is empty at that moment
  (`RpmsgTx.ReopenExact`; a run that loses a frame that way: `RpmsgTx.ReopenLoses`).
* select and poll: a wake-up can be lost if and only if a mailbox has more than 32765 places, so that the 16-bit
  receive counter wraps around, or more than 255 threads can be in select or poll at the same time: when
  `select_waiting` of a socket overflows, `lwip_poll` leaves by lowering it for all its sockets, also those for
  which it has not raised it (`SelectLimits.WakeupsExact`). The mailboxes of this port have at most 200 places.
* TCP receive: in exactly one race the end of the stream is reported before data that are still queued
  (`TcpRecv.Socket.Recv`, the predicate `Racing`; an instance: `TcpRecv.EarlyEof`).
* Vectored write: the comparison with a remainder truncated to 16 bits makes a blocking write spin while the send
  buffer is full, in exactly one situation (`VectorWrite.SpinExact`). A total above SSIZE_MAX is cut only in the
  length of the message, while all vectors are still handed over: a blocking write can then run past the end of
  the array of vectors, and a non-blocking one can report more than SSIZE_MAX bytes, each exactly for such totals
  (`VectorWrite.OverrunExact`, `VectorWrite.ReportExact`).
* DNS: the comparison of names checks neither the dots nor the end of the query (`DnsNames.CompareExact`).
* TFTP: the server keeps the result of `recv` in an unsigned variable, so that its test for an error stops it
  exactly for an empty datagram (`Tftp.RecvTestExact`); a failed `recv` is taken for a datagram of whatever kind
  the buffer still holds (`Tftp.FailureUnnoticed`).
* TFTP: from 65537 blocks on, block numbers are ambiguous. Then, and only then, the client may hold something that
  is no prefix of the file, and either side may report completion of a wrong one (`Tftp.PrefixExact`,
  `Tftp.CompletionExact`, `Tftp.ClientCompletionExact`).

## Assumptions

* Heap: offsets are 32 bits wide; header size, minimum size and alignment are symbolic. `mem_mutex` admits one
  `mem_malloc` at a time. Callers free and trim only blocks they own.
* Linux driver: the network stack calls xmit only while the interface is open and its queue awake, one call at a
  time. A work item that is queued or running is modelled as in the kernel's work queues: it can be queued again
  while it runs and does not run twice at once.
* select and poll: the configuration without core locking, in which the waiter list may change between any two entries of a
  walk. The port leaves LWIP_TCPIP_CORE_LOCKING at 1 (include/lwip/opt.h:194), where a walk is not interrupted; its
  runs are those of this model in which all steps of a walk follow each other. Sockets stay open, and one thread at
  a time reads from a socket. A connection posts a message and then raises `NETCONN_EVT_RCVPLUS`, takes one and
  then raises `NETCONN_EVT_RCVMINUS`, fails at most once, and closes its receiving side at most once, behind a FIN.
* TCP: `tcp_write` takes all or nothing; TCP hands over no data after a FIN, and calls nothing once the pcb is
  gone. The model lets ERR_CLSD come at any time; TCP reports it in LAST_ACK (core/tcp_in.c:604-611, 1035), so the
  early end of the stream needs another thread that shuts down the sending side during the call. It never happens
  to a call that begins behind the end (`TcpRecv.EndedNoRace`).
* Checksum: little-endian host; `FOLD_U32T` and `SWAP_BYTES_IN_WORD` as defined in
  include/lwip/inet_chksum.h:46-53, on 16-bit values for the latter.
* DNS: one address type; callbacks do not call the resolver; DNS_MAX_SERVERS and DNS_MAX_RETRIES are at least 1.

## Model

| member | source | states |
|---|---|---|
| `Heap.Heap.Malloc` | lwip211_v1_8/src/lwip-2.1.1/src/core/mem.c:832-977 | with any mem_free and mem_trim calls of other contexts in every window: the invariant holds, and the result is that of one atomic first-fit allocation between the calls made before it and those made after it: the lowest free block with at least the requested number of data bytes, NULL exactly if there is none; NULL at once for size 0 or more than the heap |
| `Heap.AllocatedSafe` | lwip211_v1_8/src/lwip-2.1.1/src/core/mem.c:862-976 | whatever the other contexts did, the block returned is aligned, large enough, larger than the smallest suitable size by less than a header and a minimal block, and disjoint from every other block; every other used block is an old one that was at most shrunk, and blocks nobody named are untouched |
| `Heap.SequentialMalloc` | lwip211_v1_8/src/lwip-2.1.1/src/core/mem.c:871-951 | without interference NULL is returned exactly when no free block fits, and otherwise the lowest block that fits is taken: starting at lfree hides none |
| `HeapProperties.RequestSizeExact` | lwip211_v1_8/src/lwip-2.1.1/src/core/mem.c:841-857 | with the wrap-around of the 32-bit alignment macro: a request is refused exactly when it is larger than the heap, and otherwise becomes an aligned size that is large enough |
| `HeapProperties.RequestSizeLeast` | lwip211_v1_8/src/lwip-2.1.1/src/core/mem.c:847-857 | and that size is the smallest aligned one that is not below the request or the minimum |
| `Heap.ServedExact` | lwip211_v1_8/src/lwip-2.1.1/src/core/mem.c:847-885 | so that a request succeeds exactly if a free block has as many data bytes as were asked for |
| `Heap.Heap.ScanOnce` | lwip211_v1_8/src/lwip-2.1.1/src/core/mem.c:864-885 | a pass that no call disturbed finds the first fit of the heap as it then is, or that there is none; a disturbed pass has used up a window, so the restart loop ends |
| `Heap.Heap.AdjustLfree` | lwip211_v1_8/src/lwip-2.1.1/src/core/mem.c:930-951 | with calls in every window of the walk, lfree ends at the lowest free block or ram_end, although it may have pointed at the taken block or been moved meanwhile |
| `Heap.Heap.TakeBlock` | lwip211_v1_8/src/lwip-2.1.1/src/core/mem.c:887-928 | splitting or taking the block in the header array turns the layout into that of an allocation, and adds exactly the extent taken to `used` |
| `Heap.Heap.Free` | lwip211_v1_8/src/lwip-2.1.1/src/core/mem.c:618-687 | accepted pointers: the layout after is that of freeing the block, its owner gives it up; rejected pointers change nothing |
| `Heap.Heap.Trim` | lwip211_v1_8/src/lwip-2.1.1/src/core/mem.c:700-821 | the layout after is the trimmed one; NULL exactly when the block has fewer data bytes than asked for; otherwise it gets the smallest suitable size, or keeps its end where no header and minimal block could be won and nothing free is behind it; foreign pointers are returned unchanged |
| `Heap.Heap.PlugHolesAt` | lwip211_v1_8/src/lwip-2.1.1/src/core/mem.c:475-511 | relinking the headers in place merges the block with free neighbours on either side, and corrects lfree |
| `Heap.FreeLfree` | lwip211_v1_8/src/lwip-2.1.1/src/core/mem.c:486-510 | both corrections of lfree in plug_holes change nothing when mem_free calls it: lowering lfree before is enough for it to point at the lowest free block afterwards |
| `Heap.TrimLfreeOk` | lwip211_v1_8/src/lwip-2.1.1/src/core/mem.c:754-805 | the assignments to lfree in mem_trim keep it at the lowest free block, also while mem_malloc holds a block that lfree still points at |
| `Heap.Heap.constructor` | lwip211_v1_8/src/lwip-2.1.1/src/core/mem.c:517-546 | mem_init builds a heap that satisfies the invariant, with one free block |
| `Heap.Heap.Sanity` | lwip211_v1_8/src/lwip-2.1.1/src/core/mem.c:569-608 | on header arrays of which only the next pointers are known to be right, the walk finds nothing wrong exactly if all blocks are on the grid, no two neighbours are free, the links back are right (with the one exception about the second block) and the end mark is in place |
| `Heap.Heap.ValidSane` | lwip211_v1_8/src/lwip-2.1.1/src/core/mem.c:569-608 | which is so in every heap that satisfies the invariant |
| `Heap.Heap.FreeRefused` | lwip211_v1_8/src/lwip-2.1.1/src/core/mem.c:652-669 | mem_free refuses the data pointer of a block that is free |
| `Heap.Heap.StaleRefused` | lwip211_v1_8/src/lwip-2.1.1/src/core/mem.c:660-669 | and a pointer behind old header bytes inside a block whose next pointer leads to a block |
| `Heap.Heap.Replay` | lwip211_v1_8/src/lwip-2.1.1/src/core/mem.c:475-977 | any series of mem_malloc, mem_free and mem_trim keeps the invariant, and used plus free extents are the whole heap |
| `HeapLayout.FreeWellFormed` | lwip211_v1_8/src/lwip-2.1.1/src/core/mem.c:475-511 | freeing keeps tiling, minimum sizes and absence of adjacent free blocks |
| `HeapLayout.TrimWellFormed` | lwip211_v1_8/src/lwip-2.1.1/src/core/mem.c:751-805 | so does trimming, in each of its branches |
| `HeapLayout.AllocWellFormed` | lwip211_v1_8/src/lwip-2.1.1/src/core/mem.c:887-928 | so does allocating, with and without a split |
| `HeapHeaders.RepJoin` | lwip211_v1_8/src/lwip-2.1.1/src/core/mem.c:486-510 | joining two blocks by pointer changes keeps next and prev mutually inverse |
| `HeapHeaders.RepSplit` | lwip211_v1_8/src/lwip-2.1.1/src/core/mem.c:903-917 | so does splitting one |
| `HeapHeaders.RepMove` | lwip211_v1_8/src/lwip-2.1.1/src/core/mem.c:757-779 | so does moving the border of a block |
| `HeapHeaders.BlocksLinkValid` | lwip211_v1_8/src/lwip-2.1.1/src/core/mem.c:552-565 | mem_link_valid accepts every block of a well-formed heap |
| `HeapProperties.FreeAllAnyOrder` | lwip211_v1_8/src/lwip-2.1.1/src/core/mem.c:475-511 | from any sound heap, freeing all used blocks in any order leaves the single free block of mem_init |
| `HeapProperties.Conservation` | lwip211_v1_8/src/lwip-2.1.1/src/core/mem.c:517-546 | used and free extents add up to MEM_SIZE_ALIGNED |
| `HeapProperties.FreeUsed` | lwip211_v1_8/src/lwip-2.1.1/src/core/mem.c:671-681 | mem_free takes exactly the extent of the block off the used bytes |
| `HeapProperties.TrimUsed` | lwip211_v1_8/src/lwip-2.1.1/src/core/mem.c:754-805 | mem_trim takes off exactly what it gives back, and nothing if it gives nothing back |
| `HeapProperties.AllocUsed` | lwip211_v1_8/src/lwip-2.1.1/src/core/mem.c:892-928 | mem_malloc adds exactly what it takes |
| `HeapProperties.FreeSurvivors` | lwip211_v1_8/src/lwip-2.1.1/src/core/mem.c:475-511 | mem_free removes the freed block from the used blocks and leaves all others as they are |
| `HeapProperties.TrimSurvivors` | lwip211_v1_8/src/lwip-2.1.1/src/core/mem.c:751-805 | mem_trim shortens its block and leaves all other used blocks as they are |
| `HeapProperties.RunSound` | lwip211_v1_8/src/lwip-2.1.1/src/core/mem.c:618-821 | any series of calls by other contexts keeps the layout well formed and aligned, also while a block is held |
| `HeapProperties.LastBlockTrimmed` | lwip211_v1_8/src/lwip-2.1.1/src/core/mem.c:788-805 | the assertion at line 791 fails: a block that took the whole heap ends at MEM_SIZE_ALIGNED, and trimming it cuts it there |
| `HeapProperties.NextIsEnd` | lwip211_v1_8/src/lwip-2.1.1/src/core/mem.c:763-791 | the next pointer of a block is MEM_SIZE_ALIGNED exactly for the last block, so that this is the only case in which that assertion fails |
| `RpmsgTx.ReachableInv` | linux/rpmsg_eth.c:68-173 | the invariant holds in every interleaving of xmit, the immediate worker, the delayed worker and remove |
| `RpmsgTx.ExactlyOnce` | linux/rpmsg_eth.c:68-173 | no frame is consumed twice; every frame that has left xmit and the slot has been consumed; after remove every frame has been consumed exactly once |
| `RpmsgTx.NeverOverwritten` | linux/rpmsg_eth.c:78-82 | whenever xmit stores a frame the slot is empty |
| `RpmsgTx.QuietForever` | linux/rpmsg_eth.c:278-303 | after both cancels in remove nothing is pending or running, and nothing ever will be |
| `RpmsgTx.InOrderOnce` | linux/rpmsg_eth.c:119-156 | each frame is tried at most twice, and the frames sent are an in-order, duplicate-free subsequence of those accepted |
| `RpmsgTx.TwoAttempts` | linux/rpmsg_eth.c:119-161 | a frame that was stored in the slot and has been consumed was sent or tried twice; only the end of remove consumes one without |
| `RpmsgTx.KickWanted` | linux/rpmsg_eth.c:96-112 | whenever the delayed worker runs before shutdown, a frame is in the slot that has been tried once and waits for its second attempt |
| `RpmsgTx.QueueExact` | linux/rpmsg_eth.c:74-185 | the queue is awake exactly if it was opened, or woken by a worker before shutdown, since it was last stopped, given a frame or shut down |
| `RpmsgTx.NeverStuck` | linux/rpmsg_eth.c:74-82 | while open and not shut down, a stopped queue means that xmit is under way, that the frame in the slot has work outstanding, or that the worker is cleaning up |
| `RpmsgTx.Progress` | linux/rpmsg_eth.c:97-173 | in those situations some handler can step, and every step of a handler brings the wake-up of the queue closer |
| `RpmsgTx.ReopenExact` | linux/rpmsg_eth.c:175-185 | rpmsg_eth_open on a stopped interface loses no frame exactly if the slot is empty and the worker is not about to reset or wake, or the driver is shut down |
| `RpmsgTx.LoseReset` | linux/rpmsg_eth.c:165-172 | from any state in which the reopened interface meets a worker between the clearing of the slot and the reset, some run loses a frame |
| `RpmsgTx.ReopenLoses` | linux/rpmsg_eth.c:165-185 | a whole run from probe on: the interface is closed while the worker is in its cleanup, the slot is empty, reopening is possible, and a frame is lost |
| `SelectWakeup.NoLostWakeup` | lwip211_v1_8/src/lwip-2.1.1/src/api/sockets.c:1995-2490 | with mailboxes of at most 32765 places and at most 255 threads in select and poll, from new sockets with counter 0: a thread blocked there with an event on a watched socket can take its semaphore, or a walk that knows of the event is bound to visit it; with no walk under way it can run |
| `SelectLimits.WakeupsExact` | lwip211_v1_8/src/lwip-2.1.1/src/api/sockets.c:2201-2306 | in all runs from new sockets no wake-up is lost, exactly if mailboxes have at most 32765 places and at most 255 threads are in select and poll at the same time, or if there is no thread |
| `SelectWakeup.CounterSuffices` | lwip211_v1_8/src/lwip-2.1.1/src/api/sockets.c:2551-2560 | the receive counter is the number of messages announced and not yet taken off, plus one each for a failure (unless it was ERR_CLSD and its message is counted) and a closed receiving side, and with such mailboxes it never wraps around |
| `SelectLimits.MailboxLoses` | lwip211_v1_8/src/lwip-2.1.1/src/api/sockets.c:2551-2560 | for every larger mailbox, the run from a new socket in which the counter wraps around and a thread in select is not woken |
| `SelectLimits.CrowdLoses` | lwip211_v1_8/src/lwip-2.1.1/src/api/sockets.c:2250-2267 | for every larger number of threads, the run in which a poll call lowers select_waiting without having raised it, so that the last of the waiting threads is not woken |
| `SelectWakeup.WaitersSuffice` | lwip211_v1_8/src/lwip-2.1.1/src/api/sockets.c:2250-2267 | in a state with the invariant and at most 255 threads in select and poll, select_waiting does not overflow in lwip_pollscan |
| `SelectWakeup.SelectInv` | lwip211_v1_8/src/lwip-2.1.1/src/api/sockets.c:2043-2432 | the steps of select and poll, each at its own unlock, keep the invariant, unless select_waiting overflows in lwip_pollscan |
| `SelectWakeup.EventInv` | lwip211_v1_8/src/lwip-2.1.1/src/api/sockets.c:2508-2592 | so does event_callback, which starts a walk for every event that makes the socket ready |
| `SelectWakeup.WalkInv` | lwip211_v1_8/src/lwip-2.1.1/src/api/sockets.c:2607-2679 | so does each step of select_check_waiters between two unlocks |
| `SelectWakeup.NeverUnlinked` | lwip211_v1_8/src/lwip-2.1.1/src/api/sockets.c:2666-2675 | a walk never goes on from, or to, an entry that has been unlinked: the generation counter makes it start over first |
| `SelectWakeup.WalkProgress` | lwip211_v1_8/src/lwip-2.1.1/src/api/sockets.c:2618-2677 | a walk can always go on and comes closer to its end with every step until the list changes |
| `SelectWakeup.CallProgress` | lwip211_v1_8/src/lwip-2.1.1/src/api/sockets.c:2043-2440 | a call of select or poll that is not blocked can always make a step, also when select_waiting is full, and comes closer to blocking or returning by it |
| `SelectWakeup.CallsTruthful` | lwip211_v1_8/src/lwip-2.1.1/src/api/sockets.c:1870-1925 | in every run the second scan finds something exactly if a socket had something to offer that the call watches when it was looked at, left-over data of a short recv included; a blocked thread has looked at all its sockets in vain; a thread is signalled at most once, and only by a walk for something it watches |
| `SelectWakeup.EventsExact` | lwip211_v1_8/src/lwip-2.1.1/src/api/sockets.c:2551-2577 | sendevent is the last of the two kinds of send events, errevent whether there was an error event |
| `SelectWakeup.WalkExact` | lwip211_v1_8/src/lwip-2.1.1/src/api/sockets.c:2580-2590 | a walk is for the socket of the event and carries exactly what that socket is ready for |
| `SelectWakeup.SilentlyReadyExact` | lwip211_v1_8/src/lwip-2.1.1/src/api/sockets.c:2547-2577 | an event makes a socket ready without asking for a check of the waiters exactly when NETCONN_EVT_RCVMINUS takes the 16-bit receive counter below its minimum |
| `SelectList.SelectCbList.Link` | lwip211_v1_8/src/lwip-2.1.1/src/api/sockets.c:1802-1822 | the new entry becomes the head of the doubly linked list, and the generation counter moves |
| `SelectList.SelectCbList.Unlink` | lwip211_v1_8/src/lwip-2.1.1/src/api/sockets.c:1826-1847 | exactly the given entry leaves the list, whose links stay mutually inverse |
| `TcpRecv.Session` | lwip211_v1_8/src/lwip-2.1.1/src/api/sockets.c:920-1018 | over any series of calls, with data, a FIN or an error arriving in every window: what was consumed, what is left over and what is queued make up what arrived; while the pcb lives the window credit is what was consumed; every call answers as Replies says, and one that reports the end of the stream does so behind the last byte that ever arrives, except exactly in the race of Racing |
| `TcpRecv.Socket.Recv` | lwip211_v1_8/src/lwip-2.1.1/src/api/sockets.c:920-1018 | data, the end of the stream, the error or waiting, as Replies says from the state before the call and what happens in its windows; a call that returns fewer bytes than asked for, or none, has delivered everything that had arrived when it was called; peeking consumes nothing and shows the next bytes; a FIN stays until a call reports it, which then closes the receiving side; the end is reported in front of undelivered bytes if and only if a call that may not block finds nothing and data and ERR_CLSD come between its look into the mailbox and netconn_err |
| `TcpRecv.OrderlyEnd` | lwip211_v1_8/src/lwip-2.1.1/src/api/api_lib.c:747-768 | with everything read and a FIN next, on a live connection to which no error comes meanwhile, the call returns 0 |
| `TcpRecv.BrokenEnd` | lwip211_v1_8/src/lwip-2.1.1/src/api/api_lib.c:749-757 | on a connection that is gone the pending error is returned instead, or a reset |
| `TcpRecv.FailureNext` | lwip211_v1_8/src/lwip-2.1.1/src/api/api_lib.c:639-648 | an error that is next in the mailbox is returned, whatever happens meanwhile |
| `TcpRecv.FailureArrives` | lwip211_v1_8/src/lwip-2.1.1/src/api/api_msg.c:440-466 | an error that err_tcp reports while nothing is there is the one that is returned |
| `TcpRecv.DataNext` | lwip211_v1_8/src/lwip-2.1.1/src/api/sockets.c:941-963 | data that are left over or next in the mailbox are returned |
| `TcpRecv.NothingNext` | lwip211_v1_8/src/lwip-2.1.1/src/api/api_lib.c:597-626 | with nothing there and nothing happening: the pending error, ERR_CONN when the connection is gone, ERR_WOULDBLOCK for a call that may not wait, and waiting otherwise |
| `TcpRecv.Socket.RecvDataTcp` | lwip211_v1_8/src/lwip-2.1.1/src/api/api_lib.c:703-769 | a FIN that cannot be reported is kept, and reported only when nothing is left; a failure comes only after all data that had arrived before |
| `TcpRecv.Socket.RecvData` | lwip211_v1_8/src/lwip-2.1.1/src/api/api_lib.c:579-673 | fetching, waiting and polling never lose, repeat or reorder data, with windows also between the look into the mailbox and netconn_err |
| `TcpRecv.Socket.DoRecv` | lwip211_v1_8/src/lwip-2.1.1/src/api/api_msg.c:1599-1615 | the pieces of at most 0xffff bytes passed to tcp_recved add up to the length |
| `TcpRecv.EarlyEof` | lwip211_v1_8/src/lwip-2.1.1/src/api/api_lib.c:597-613 | a run of the call in which that happens: it returns 0 while a byte that has arrived is in the mailbox |
| `TcpRecv.EndedNoRace` | lwip211_v1_8/src/lwip-2.1.1/src/api/api_lib.c:597-613 | a call that begins behind the end of the stream never reports it early |
| `VectorWrite.Connection.WriteVectors` | lwip211_v1_8/src/lwip-2.1.1/src/api/api_lib.c:997-1078 | over all callbacks, what was handed to TCP is a prefix of the concatenated vectors; with ERR_OK a blocking write has handed over everything, up to SSIZE_MAX, and a non-blocking one the positive number of bytes it reports; ERR_VAL exactly when nobody would be told how much was written or the total overflows; a pending error, a write in progress or a lost connection is reported as such; on a free connection the outcome is that of the function WholeWrite, also for totals above SSIZE_MAX |
| `VectorWrite.Connection.DoWriteMore` | lwip211_v1_8/src/lwip-2.1.1/src/api/api_msg.c:1650-1813 | one call leaves the cursor, the unfinished or finished state with its error code, and the answers of TCP not yet used that the function Call says |
| `VectorWrite.CallEnds` | lwip211_v1_8/src/lwip-2.1.1/src/api/api_msg.c:1740-1795 | a non-blocking write ends with the call; ERR_OK means that exactly the length of the message was written, or for a non-blocking write something; ERR_WOULDBLOCK means that nothing was; a write that goes on has vectors left unless its length was cut |
| `VectorWrite.CallExact` | lwip211_v1_8/src/lwip-2.1.1/src/api/api_msg.c:1686-1795 | of the answers of TCP that a call uses all but the last are successes, and the last one decides how it ends: a failure with its code, no route with ERR_RTE, lack of memory or room with going on for a blocking write, and with ERR_OK or ERR_WOULDBLOCK for a non-blocking one |
| `VectorWrite.WriteCause` | lwip211_v1_8/src/lwip-2.1.1/src/api/api_msg.c:1740-1795 | a whole write ends with ERR_RTE only if there was no route, and with another error only if tcp_write or an error callback has reported it |
| `VectorWrite.BlockingGoesOn` | lwip211_v1_8/src/lwip-2.1.1/src/api/api_msg.c:1767-1788 | without such a cause a blocking write goes on until all of its length is written, whatever memory lacks meanwhile |
| `VectorWrite.NonBlockingEnds` | lwip211_v1_8/src/lwip-2.1.1/src/api/api_msg.c:1767-1788 | and a non-blocking one ends at once, with ERR_OK if anything was written and ERR_WOULDBLOCK if not |
| `VectorWrite.Connection.Loop` | lwip211_v1_8/src/lwip-2.1.1/src/api/api_msg.c:1686-1787 | for every list of answers of tcp_sndbuf, tcp_write and tcp_output the loop hands over the bytes, moves the cursor and ends with the error code that the specification function says; the stream is always the first `offset` bytes |
| `VectorWrite.Connection.Callback` | lwip211_v1_8/src/lwip-2.1.1/src/api/api_msg.c:357-422 | sent and poll callbacks make one more such call, an error callback ends the write with its error; none repeats or skips bytes |
| `VectorWrite.AdvanceOk` | lwip211_v1_8/src/lwip-2.1.1/src/api/api_msg.c:1722-1735 | moving the cursor by len over a vector boundary stands for the next len bytes of the concatenation |
| `VectorWrite.OverrunExact` | lwip211_v1_8/src/lwip-2.1.1/src/api/api_lib.c:1029-1040 | for some answers of TCP and some callbacks the vector pointer runs past the array, exactly for blocking writes of more than SSIZE_MAX bytes |
| `VectorWrite.OverrunHappens` | lwip211_v1_8/src/lwip-2.1.1/src/api/api_msg.c:1722-1735 | the run: TCP takes all vectors in the first call, the write is not finished, and the zero bytes of the next callback count vector_cnt down from 0 |
| `VectorWrite.ReportExact` | lwip211_v1_8/src/lwip-2.1.1/src/api/sockets.c:1463 | a non-blocking write can report more than SSIZE_MAX bytes exactly if it has more, so that the cast of the number is not always right |
| `VectorWrite.WriteEnds` | lwip211_v1_8/src/lwip-2.1.1/src/api/api_msg.c:1650-1813 | every blocking write of at most SSIZE_MAX bytes ends with everything written if TCP has some room, however little, before each round and keeps calling back, also if tcp_write lacks memory any finite number of times |
| `VectorWrite.SpinExact` | lwip211_v1_8/src/lwip-2.1.1/src/api/api_msg.c:1686-1736 | a round goes round again without progress exactly for a blocking write when the send buffer is full, tcp_write accepts zero bytes, the remainder of the vector is a positive multiple of 65536 and more vectors follow |
| `VectorWrite.RoundAdvances` | lwip211_v1_8/src/lwip-2.1.1/src/api/api_msg.c:1711-1736 | every other round after which the loop goes round again leaves fewer bytes or vectors |
| `VectorWrite.SpinsOn` | lwip211_v1_8/src/lwip-2.1.1/src/api/api_msg.c:1686-1736 | in that situation the loop stays where it is for as many rounds as the send buffer stays full |
| `VectorWrite.StuckAtStart` | lwip211_v1_8/src/lwip-2.1.1/src/api/api_msg.c:1686-1698 | a blocking write whose first vector of several has 65536 bytes starts in that situation |
| `VectorWrite.TotalSize` | lwip211_v1_8/src/lwip-2.1.1/src/api/api_lib.c:1020-1028 | the overflow test of the summing loop finds exactly the totals that do not fit size_t |
| `Checksum.Chksum3` | lwip211_v1_8/src/lwip-2.1.1/src/core/inet_chksum.c:189-255 | algorithm 3 returns the sum of section 1 of RFC 1071 for every content, every length and every start alignment |
| `Checksum.Chksum1` | lwip211_v1_8/src/lwip-2.1.1/src/core/inet_chksum.c:80-114 | so does algorithm 1, for the lengths that its accumulator allows |
| `Checksum.Unrolled` | lwip211_v1_8/src/lwip-2.1.1/src/core/inet_chksum.c:211-225 | the unrolled loop loses no carry of the 32-bit accumulator, and stays on 4-byte boundaries |
| `Checksum.AddFour` | lwip211_v1_8/src/lwip-2.1.1/src/core/inet_chksum.c:213-222 | one load of 32 bits, which has to be on a 4-byte boundary, keeps the sum modulo 0xffff |
| `Checksum.AddCarry` | lwip211_v1_8/src/lwip-2.1.1/src/core/inet_chksum.c:214-222 | adding with an end-around carry on 32 bits is addition modulo 0xffff |
| `Checksum.SwapOrder` | lwip211_v1_8/src/lwip-2.1.1/src/core/inet_chksum.c:250-252 | swapping the bytes of a sum of words changes the byte order it was formed in |
| `Checksum.FoldTwice` | lwip211_v1_8/src/lwip-2.1.1/src/core/inet_chksum.c:247-248 | two folds bring any 32-bit sum to 16 bits without changing what it stands for |
| `Checksum.SumChain` | lwip211_v1_8/src/lwip-2.1.1/src/core/inet_chksum.c:265-283 | over a chain of buffers of odd and even lengths, with its swaps, the accumulator is the sum of the concatenated bytes |
| `Checksum.AddBuffer` | lwip211_v1_8/src/lwip-2.1.1/src/core/inet_chksum.c:269-277 | after each buffer the accumulator fits 16 bits again, so that a swap loses nothing |
| `Checksum.InetChksum` | lwip211_v1_8/src/lwip-2.1.1/src/core/inet_chksum.c:555-558 | the inverted sum of the bytes |
| `Checksum.InetChksumPbuf` | lwip211_v1_8/src/lwip-2.1.1/src/core/inet_chksum.c:568-588 | the checksum of a chain is that of its concatenated bytes |
| `Checksum.InetChksumPseudo` | lwip211_v1_8/src/lwip-2.1.1/src/core/inet_chksum.c:310-327 | with the IPv4 pseudo-header the checksum is that of addresses, protocol, length and all buffers in one |
| `Checksum.Ip6ChksumPseudo` | lwip211_v1_8/src/lwip-2.1.1/src/core/inet_chksum.c:343-363 | the same with the IPv6 pseudo-header |
| `Checksum.SumPart` | lwip211_v1_8/src/lwip-2.1.1/src/core/inet_chksum.c:407-429 | the loop over only the first chksum_len bytes sums exactly those bytes |
| `Checksum.InetChksumPseudoPartial` | lwip211_v1_8/src/lwip-2.1.1/src/core/inet_chksum.c:456-473 | the checksum over only the first chksum_len bytes is that of exactly these bytes behind the pseudo-header |
| `Checksum.FilledInVerifies` | lwip211_v1_8/src/lwip-2.1.1/src/core/inet_chksum.c:545-558 | a packet whose checksum field is filled with the result sums to zero at the receiver |
| `DnsNames.Encode` | lwip211_v1_8/src/lwip-2.1.1/src/core/dns.c:788-809 | the loop writes, in place, exactly the question name of section 4.1.2 of RFC 1035 and nothing else; it gives up exactly when the name does not fit 16-bit offsets |
| `DnsNames.CompareRoundTrip` | lwip211_v1_8/src/lwip-2.1.1/src/core/dns.c:651-698 | the name that was encoded is recognised again, whatever happened to the case of its letters, and the offset behind it is returned |
| `DnsNames.CompareExact` | lwip211_v1_8/src/lwip-2.1.1/src/core/dns.c:651-698 | on the encoding of a valid name the comparison accepts exactly the queries that agree, apart from the case of letters, at every byte that is not a dot |
| `DnsNames.LowerExact` | lwip211_v1_8/src/lwip-2.1.1/src/core/dns.c:674 | lwip_tolower makes letters equal that differ in case, and nothing else |
| `DnsNames.CompareSound` | lwip211_v1_8/src/lwip-2.1.1/src/core/dns.c:651-698 | whatever the packet and the query, only a name that consists of labels without compression inside the packet is accepted, and the offset behind its end mark is returned |
| `DnsNames.SeparatorsIgnored` | lwip211_v1_8/src/lwip-2.1.1/src/core/dns.c:685 | a query that differs from the name in the packet and is accepted |
| `DnsNames.CompareName` | lwip211_v1_8/src/lwip-2.1.1/src/core/dns.c:651-698 | the two nested loops compute the function that the lemmas are about, for every packet and every query buffer |
| `DnsNames.SkipName` | lwip211_v1_8/src/lwip-2.1.1/src/core/dns.c:708-739 | the same for skipping, with the 16-bit offsets that wrap around |
| `DnsNames.SkipCompare` | lwip211_v1_8/src/lwip-2.1.1/src/core/dns.c:708-739 | skipping returns the offset that comparing returns |
| `DnsNames.SkipPointer` | lwip211_v1_8/src/lwip-2.1.1/src/core/dns.c:719-722 | a name that ends in a compression pointer ends behind its two bytes |
| `DnsNames.SkipExact` | lwip211_v1_8/src/lwip-2.1.1/src/core/dns.c:708-739 | whatever the packet, skipping returns the end of a name that lies in it, and gives up exactly if there is none |
| `DnsResolver.Resolver.Run` | lwip211_v1_8/src/lwip-2.1.1/src/core/dns.c:942-1503 | over any series of requests, ticks, responses and server changes: each accepted request is waiting or has been called back, exactly once; it has been called back after DNS_MAX_SERVERS * (1 + M(M-1)/2) ticks; an address it was called back with came in a response to its question; transaction ids of entries in state ASKING differ |
| `DnsTable.ExactlyOnce` | lwip211_v1_8/src/lwip-2.1.1/src/core/dns.c:961-968 | the ledger means: waiting in one slot and never called back, or in none and called back once |
| `DnsTable.Deadline` | lwip211_v1_8/src/lwip-2.1.1/src/core/dns.c:1047-1118 | a request that was accepted that many ticks ago has been called back, whatever was received |
| `DnsTable.BoundFormula` | lwip211_v1_8/src/lwip-2.1.1/src/core/dns.c:1070-1096 | the bound, added up from the timers, is DNS_MAX_SERVERS * (1 + M(M-1)/2) |
| `DnsTable.GivenUpExactly` | lwip211_v1_8/src/lwip-2.1.1/src/core/dns.c:1070-1096 | with all servers set and no response an entry is given up in the tick that the bound says and not before, so that no retry and no server is left out |
| `DnsTable.KeptExactly` | lwip211_v1_8/src/lwip-2.1.1/src/core/dns.c:1104-1111 | a completed entry is kept for exactly as many ticks as its time to live |
| `DnsResolver.Resolver.CreateTxid` | lwip211_v1_8/src/lwip-2.1.1/src/core/dns.c:1000-1018 | the id is used by no entry in state ASKING, and is found with at most one try more than there are such entries, also where the 16-bit counter wraps around |
| `DnsResolver.Resolver.CallFound` | lwip211_v1_8/src/lwip-2.1.1/src/core/dns.c:942-968 | exactly the requests for the entry are called back, in the order of their slots, with this address; the others keep waiting |
| `DnsResolver.Resolver.CheckAsking` | lwip211_v1_8/src/lwip-2.1.1/src/core/dns.c:1070-1101 | one tick does to an entry what the timing function says, and to nothing else; giving up calls back its requests |
| `DnsResolver.Resolver.Tick` | lwip211_v1_8/src/lwip-2.1.1/src/core/dns.c:1124-1131 | every entry makes its step, also when others are given up in the same tick |
| `DnsResolver.Resolver.Enqueue` | lwip211_v1_8/src/lwip-2.1.1/src/core/dns.c:1375-1503 | ERR_MEM is the answer exactly if no slot is free, or the name is not being asked for and no entry is unused or completed with a positive age, and it changes nothing; ERR_INPROGRESS numbers exactly one new request, which, if there is a server, waits for an entry that is asked for with this name |
| `DnsResolver.Resolver.PickEntry` | lwip211_v1_8/src/lwip-2.1.1/src/core/dns.c:1414-1444 | an unused entry if there is one, else the oldest completed one, with the 8-bit age that wraps around |
| `DnsResolver.AgeExact` | lwip211_v1_8/src/lwip-2.1.1/src/core/dns.c:1424-1430 | an entry is 1 old when it has been started, and gets older by 1 with each that is started later |
| `DnsResolver.Resolver.Start` | lwip211_v1_8/src/lwip-2.1.1/src/core/dns.c:1465-1499 | a new entry is asked for with a fresh id, from the first server on and with the full time, and nothing else changes; nobody waits for a completed entry that is reused |
| `DnsResolver.Resolver.Handle` | lwip211_v1_8/src/lwip-2.1.1/src/core/dns.c:1201-1355 | what each kind of response does: ignored without effect, answered with the address, passed on to the backup server, or failed |
| `DnsResolver.Resolver.Receive` | lwip211_v1_8/src/lwip-2.1.1/src/core/dns.c:1186-1355 | a response reaches only the entry that is asked for with its transaction id; there it is ignored unless it is a response to the question from the server asked, answers all requests and is kept, moves the entry to the backup server, or ends it with callbacks without an address; without such an entry it changes nothing; a callback with an address means that the response brought it |
| `DnsResolver.Resolver.CorrectResponse` | lwip211_v1_8/src/lwip-2.1.1/src/core/dns.c:1137-1164 | all requests for the name get the address; the entry is kept with a limited time to live, or dropped at once |
| `Tftp.Faithful` | lwip211_v1_8/examples/freertos_lwip_example_tftp_server.c:116-174 | over any run with loss, duplication and reordering, for files of at most 65536 blocks: the client holds a prefix of the file, the server is never ahead of the client, and completion on either side means the whole file has arrived |
| `Tftp.SentAtMost` | lwip211_v1_8/examples/freertos_lwip_example_tftp_server.c:101-178 | for every file, in every run, no block is sent more than four times, and the datagrams on the wire are exactly these tries, in order, under their 16-bit numbers |
| `Tftp.StepInv` | lwip211_v1_8/examples/freertos_lwip_example_tftp_client.c:242-322 | every step of either side keeps the invariant that carries this |
| `Tftp.LockStepExact` | lwip211_v1_8/examples/freertos_lwip_example_tftp_server.c:105 | the server never runs ahead of the client exactly for files of at most 65536 blocks |
| `Tftp.PrefixExact` | lwip211_v1_8/examples/freertos_lwip_example_tftp_client.c:242-322 | in all runs what the client has written is a prefix of the file exactly for files of at most 65536 blocks; every longer one has a run in which an old block is taken for the last |
| `Tftp.CompletionExact` | lwip211_v1_8/examples/freertos_lwip_example_tftp_server.c:116-174 | in all runs completion reported by the server means that the client has the file, exactly for files of at most 65536 blocks |
| `Tftp.ClientCompletionExact` | lwip211_v1_8/examples/freertos_lwip_example_tftp_client.c:219-323 | the same for completion reported by the client |
| `Tftp.Completes` | lwip211_v1_8/examples/freertos_lwip_example_tftp_server.c:116-174 | without faults every file of any length is transferred and both sides report completion |
| `Tftp.ClientTolerates` | lwip211_v1_8/examples/freertos_lwip_example_tftp_client.c:242-322 | a client that gets all blocks in order, with up to three wrong ones in front of each, writes the whole file and acknowledges every packet, a wrong one with the number of the block before |
| `Tftp.OneTooMany` | lwip211_v1_8/examples/freertos_lwip_example_tftp_client.c:256-275 | the fourth wrong one in a row ends its transfer |
| `Tftp.ServerTolerates` | lwip211_v1_8/examples/freertos_lwip_example_tftp_server.c:116-174 | a server whose blocks are all acknowledged, with up to three wrong acknowledgements in front of each right one, sends the block again for each of them, and completes |
| `Tftp.ReceiveLast` | lwip211_v1_8/examples/freertos_lwip_example_tftp_client.c:276-318 | an error packet, a packet of another kind and a failing f_write end the transfer of the client, the last two with an error packet |
| `Tftp.ReadProcess` | lwip211_v1_8/examples/freertos_lwip_example_tftp_server.c:101-178 | the loop with its goto, a 16-bit block number, a 16-bit result of recv and a byte position sends what the protocol steps send, for any results of recv and any failing file or socket call |
| `Tftp.RecvTestExact` | lwip211_v1_8/examples/freertos_lwip_example_tftp_server.c:121-137 | the test of the unsigned length stops the server for an empty datagram and nothing else |
| `Tftp.FailureUnnoticed` | lwip211_v1_8/examples/freertos_lwip_example_tftp_server.c:136-156 | a failed recv is taken for a stray datagram that the network may deliver anyway, and never for an acknowledgement of a block |
| `Tftp.HandleReadResponse` | lwip211_v1_8/examples/freertos_lwip_example_tftp_client.c:219-323 | the same for the client, including what it has written |
| `Tftp.Projection` | lwip211_v1_8/examples/freertos_lwip_example_tftp_client.c:219-323 | in every run of the transfer each side does what its program does with the datagrams it gets |
| `Memp.Sanity` | lwip211_v1_8/src/lwip-2.1.1/src/core/memp.c:101-116 | terminates on every list and answers 1 exactly when the list has no cycle |
| `Memp.Meeting` | lwip211_v1_8/src/lwip-2.1.1/src/core/memp.c:105-113 | on a cyclic list the two pointers meet after no more rounds than the pool has elements |
| `Memp.RepeatIsCycle` | lwip211_v1_8/src/lwip-2.1.1/src/core/memp.c:109-111 | an element that comes up twice means that the list never ends |
| `Memp.Pool.constructor` | lwip211_v1_8/src/lwip-2.1.1/src/core/memp.c:175-206 | the free list holds every element of the pool once |
| `Memp.Pool.Malloc` | lwip211_v1_8/src/lwip-2.1.1/src/core/memp.c:257-300 | the head of the free list becomes outstanding; NULL exactly when all elements are outstanding; free list and outstanding elements partition the pool |
| `Memp.Pool.Free` | lwip211_v1_8/src/lwip-2.1.1/src/core/memp.c:359-394 | an outstanding element goes back to the head of the free list |
| `Memp.ChainAcyclic` | lwip211_v1_8/src/lwip-2.1.1/src/core/memp.c:101-116 | a free list that the pool operations build is accepted by the check |
| `Memp.Pool.Overwrite` | lwip211_v1_8/src/lwip-2.1.1/src/include/lwip/priv/memp_priv.h:59-71 | the link lies in the memory of the element: a caller may overwrite it while the element is outstanding |

## Left out

- Heap statistics `err`, `illegal` and `max`, overflow guard regions, `mem_calloc`, and the libc and pool variants: configuration or bookkeeping with little to prove.
- Heap.Heap.Trim: `mem_trim` reads the size of its block before it takes the lock; the model does both in one step, which is the same because only the owner of a block changes its end.
- Heap.Heap.Trim: a foreign pointer is the only illegal one modelled; a pointer into the heap has to belong to a block of the caller, as the source demands.
- Linux driver: probe, receive and statistics; `tx_packets` and `tx_bytes` read the frame after it has been handed on.
- SelectWakeup.NoLostWakeup: assumes that `select_cb_ctr` does not wrap around, that sockets are not closed meanwhile, that one thread at a time reads from each, and that a call of `lwip_poll` names a socket once.
- SelectWakeup.SelectInv: the first scan of select and poll, before a waiter is linked, only returns early and is not modelled.
- TcpRecv.Socket.DoRecv: the pieces add up to the length and each fits 16 bits; into how many pieces a length is cut is not stated.
- TcpRecv.Socket.Recv: full-duplex mode, receive timeouts and `recv_avail` are configured off; closing of the receiving side by another thread during a call is not modelled, a shutdown of the sending side is (it only matters through ERR_CLSD).
- VectorWrite.Connection.WriteVectors: once the vector pointer has left the array the model stops with `Overrun`; what the code then reads as further vectors is unknown memory.
- VectorWrite: segment flags (`TCP_WRITE_FLAG_MORE`), write-space events and send timeouts (configured off).
- Checksum.Chksum1: the length is limited to 128 KiB, where its 32-bit accumulator cannot overflow; algorithm 2 and `lwip_chksum_copy` are not selected by the port.
- DNS: source-port allocation, random transaction ids, the local host list, multicast DNS, the fallback between address types, and the parsing of answer records (a response is given in decoded form, except for names).
- DnsResolver.Resolver.CreateTxid: the bound on tries is for the sequential generator; with random ids the loop ends only with probability one.
- TFTP: write requests, the raw-API examples, opening files on the client; a datagram with a data header that the server never sent.
- Pools: statistics, overflow checks, and pools over the C library.
- FreeRTOS glue, TCP, UDP, IP and ARP internals, socket options, the web server and the platform examples: I/O, hardware or thin forwarding; TCP internals are not part of this model.
