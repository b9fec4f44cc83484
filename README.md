# Lustre o2iblnd header, pinger and procfs handlers in Dafny

This project models the core of an early Lustre tree. Each part has its own module:

* **The LNet InfiniBand driver's header** (`lnet/klnds/o2iblnd/o2iblnd.h`):
  * `IblndSizing`: the queue and CQ sizing macros, for protocol version 1 and for later versions.
  * `IblndWreqId`: work-request ids that pack a pointer together with a 2-bit type.
  * `IblndMsg`: the wire message header, `kiblnd_init_msg` and `kiblnd_rd_msg_size`.
  * `IblndRdma`: RDMA descriptors. This covers their total size and fragment consumption in place over the descriptor's array.
  * `IblndConn`: peers and connections with their reference counts, the peer hash table and zombie list, and the keepalive and NOOP decisions.
* **The ptlrpc pinger** (`Pinger`): next-ping and reconnect scheduling, and the per-import ping decision. It also covers the pinger's import list, the sorted timeout list and its clients, and the ping evictor's start/stop reference count and eviction scan.
* **llite procfs handlers** (`LprocLlite`):
  * the statfs readers, read_ahead and max_read_ahead_mb;
  * counter initialisation from the opcode table;
  * the page-cache dump cursor, which moves a dummy entry through the superblock's page list.
* **osd-ldiskfs procfs handlers** (`OsdLproc`): the statfs readers guarded by the mount check, the cache and pdo switches, force_sync, and proc directory setup and teardown.
* **Shared statfs arithmetic** (`LprocStatfs`): the shift loop that turns blocks into KiB in 64-bit unsigned arithmetic.
* **Two small headers:**
  * `LustreNet` (`lustre/include/linux/lustre_net.h`): the RPC ring index, the service flags and the portal event kinds.
  * `LustreIdmap` (`lustre/include/lustre_idmap.h`): the block-wise group array indexing.
* **`Kernel`**: errno values, C integer widths, truncating division, 32-bit wrap-around and `Option`.

The modelling choices follow the source's form:

* Objects whose fields the C code updates in place become classes with `modifies` frames: `Peer`, `Conn`, `KibData`, `Msg`, `RdmaDesc`, `Import`, `PingerState`, `PingEvictor`, `SbInfo`, `OsdDevice` and `PdoSwitch`.
* Macros and inline computations become functions.
* Loops become methods with invariants, proved against specification functions: `RdmaDesc.Size`, `BlocksToKbytes`, `InitCounters`, `NextLlap`, `LookupEvent`, `LocateInsert` and `EvictExports`.
* Kernel lists become `seq` fields.
* Results the code obtains from callees it does not own enter as parameters. These are allocation success, the return code of `lprocfs_write_helper`, the statfs result and the current jiffies value.

## Model

| member | source | states |
|---|---|---|
| IblndSizing.ConcurrentSendsV1 | lnet/klnds/o2iblnd/o2iblnd.h:145-155 | the tunable is clamped into [MSG_QUEUE_SIZE_V1/2, MSG_QUEUE_SIZE_V1*2]; an in-range value is kept, and values above or below are cut to the bound |
| IblndSizing.PagesFor | lnet/klnds/o2iblnd/o2iblnd.h:176-183 | the rounded-up page count is the least number of pages covering the bytes |
| IblndSizing.V1Sizing | lnet/klnds/o2iblnd/o2iblnd.h:132-188 | for version 1: queue 8, highwater 7, no OOB messages, 16 receive buffers, LNET_MAX_IOV fragments, 4..16 concurrent sends and the matching send-WR and CQ bounds |
| IblndSizing.RxAndCqSizing | lnet/klnds/o2iblnd/o2iblnd.h:181-188 | receive buffers are twice the queue size plus the 2 OOB buffers of later versions; CQ entries are receive WRs plus (frags+1) per concurrent send |
| IblndSizing.LaterVersionSizing | lnet/klnds/o2iblnd/o2iblnd.h:138-172 | after version 1 every sizing macro takes its tunable (peer credits, highwater, concurrent sends, map_on_demand or LNET_MAX_IOV), and 2 OOB messages are reserved |
| IblndWreqId.Ptr2WreqId | lnet/klnds/o2iblnd/o2iblnd.h:640-648 | for an aligned pointer and a type in 0..3, decoding the id gives back both the pointer and the type |
| IblndWreqId.WreqId2Ptr | lnet/klnds/o2iblnd/o2iblnd.h:650-654 | the pointer part is aligned and not above the id |
| IblndWreqId.WreqId2Type | lnet/klnds/o2iblnd/o2iblnd.h:656-660 | the type part is in 0..3 |
| IblndWreqId.WreqIdSplit | lnet/klnds/o2iblnd/o2iblnd.h:640-660 | re-encoding the decoded pointer and type reproduces any id |
| IblndWreqId.Ptr2WreqIdInjective | lnet/klnds/o2iblnd/o2iblnd.h:640-648 | distinct (pointer, type) pairs get distinct ids |
| IblndMsg.IbmUOffset | lnet/klnds/o2iblnd/o2iblnd.h:335-358 | the message union starts 48 bytes into kib_msg_t, after the packed header fields |
| IblndMsg.MsgTypesFitInByte | lnet/klnds/o2iblnd/o2iblnd.h:362-375 | the ten message types are distinct and fit the one-byte ibm_type |
| IblndMsg.Msg.Init | lnet/klnds/o2iblnd/o2iblnd.h:669-674 | the type is stored truncated to a byte, nob is the header offset plus the body length mod 2^32, and no other header field changes |
| IblndMsg.InitMsgNob | lnet/klnds/o2iblnd/o2iblnd.h:669-674 | a body that fits in IBLND_MSG_SIZE gives nob = 48 + body, with no wrap |
| IblndMsg.RdMsgSizeFits | lnet/klnds/o2iblnd/o2iblnd.h:719-728 | each fragment adds exactly one kib_rdma_frag_t; GET_REQ exceeds PUT_ACK by the LNet header less the cookie; any descriptor of at most LNET_MAX_IOV fragments fits a message, and 331 fragments do not |
| IblndRdma.SumNob | lnet/klnds/o2iblnd/o2iblnd.h:676-686 | the total is at least each fragment's length |
| IblndRdma.SumNobConcat | lnet/klnds/o2iblnd/o2iblnd.h:676-686 | the total of a concatenation is the sum of the totals |
| IblndRdma.SumNobUpdate | lnet/klnds/o2iblnd/o2iblnd.h:706-717 | replacing one fragment changes the total by the difference of the lengths |
| IblndRdma.ConsumeFragsProgress | lnet/klnds/o2iblnd/o2iblnd.h:706-717 | consuming nob bytes either finishes the fragment and moves to the next, or shortens it by nob and advances its address; the remaining total drops by exactly min(nob, frag length) |
| IblndRdma.RdmaDesc.Size | lnet/klnds/o2iblnd/o2iblnd.h:676-686 | the loop returns the sum of the first nfrags fragment lengths |
| IblndRdma.RdmaDesc.FragAddr | lnet/klnds/o2iblnd/o2iblnd.h:688-692 | the fragment's 64-bit address |
| IblndRdma.RdmaDesc.FragSize | lnet/klnds/o2iblnd/o2iblnd.h:694-698 | the fragment's 32-bit length |
| IblndRdma.RdmaDesc.FragKey | lnet/klnds/o2iblnd/o2iblnd.h:700-704 | every fragment answers with the descriptor's one key |
| IblndRdma.RdmaDesc.ConsumeFrag | lnet/klnds/o2iblnd/o2iblnd.h:706-717 | the array and the returned index are those of the ConsumeFrags specification |
| IblndConn.Peer.Addref | lnet/klnds/o2iblnd/o2iblnd.h:535-542 | the reference count grows by one |
| IblndConn.Peer.Decref | lnet/klnds/o2iblnd/o2iblnd.h:544-552 | the count drops by one, and the peer is destroyed exactly when it reaches zero |
| IblndConn.Conn.SetState | lnet/klnds/o2iblnd/o2iblnd.h:662-667 | the new state is stored |
| IblndConn.SendNoopIffNoPiggyback | lnet/klnds/o2iblnd/o2iblnd.h:586-604 | a NOOP is sent exactly when credits are due and no queued message can carry them |
| IblndConn.SendNoopCases | lnet/klnds/o2iblnd/o2iblnd.h:578-604 | below the highwater and without a due keepalive nothing is sent; a non-empty no-credit queue suppresses the NOOP; version 1 looks only at the credit queue, and later versions also look at the reserved queue |
| IblndConn.SendKeepaliveMonotone | lnet/klnds/o2iblnd/o2iblnd.h:578-584 | a due keepalive stays due as time passes; a non-positive keepalive tunable disables it; it is only due strictly after the last send |
| IblndConn.Nid2PeerList | lnet/klnds/o2iblnd/o2iblnd.h:554-560 | the bucket is within the hash table |
| IblndConn.Nid2PeerListLowBits | lnet/klnds/o2iblnd/o2iblnd.h:554-560 | only the low 32 bits of the nid choose the bucket, and a small nid is its own bucket |
| IblndConn.GetConnLocked | lnet/klnds/o2iblnd/o2iblnd.h:569-576 | the connection returned is the first on the peer's list |
| IblndConn.Queue2StrInjective | lnet/klnds/o2iblnd/o2iblnd.h:613-630 | distinct transmit queues get distinct names |
| IblndConn.KibData.ConnAddref | lnet/klnds/o2iblnd/o2iblnd.h:511-517 | the connection's reference count grows by one; the driver's tables stay well-formed |
| IblndConn.KibData.ConnDecref | lnet/klnds/o2iblnd/o2iblnd.h:519-533 | the count drops by one; the connection is appended to the zombie list exactly when it reaches zero |
| IblndConn.KibData.PeerActiveIffHashed | lnet/klnds/o2iblnd/o2iblnd.h:562-567 | a peer is active exactly when it is on some hash list, and then it is on the list its nid hashes to |
| Pinger.Import.UpdateNextPing | lustre/ptlrpc/pinger.c:118-130 | the next ping is now plus NextPingInterval seconds in jiffies |
| Pinger.NextPingInterval | lustre/ptlrpc/pinger.c:118-130 | the short or normal interval, cut for a disconnected import to no less than min(interval, CONNECTION_SWITCH_MIN) and to the switch minimum or the latency |
| Pinger.NextPingInFuture | lustre/ptlrpc/pinger.c:118-130 | with positive intervals the next ping is strictly later than now |
| Pinger.NextReconnect | lustre/ptlrpc/pinger.c:143-149 | a reconnect is due obd_timeout/2 seconds after now on a server timeout, and obd_timeout seconds otherwise |
| Pinger.NextReconnectBounds | lustre/ptlrpc/pinger.c:143-149 | a server timeout at most halves the delay, and neither delay is negative |
| Pinger.PingDecision | lustre/ptlrpc/pinger.c:188-239 | an import is skipped iff it is not yet due and not forced; it reconnects iff it is disconnected and active; it is pinged iff it is FULL, recoverable, active, and pingable and unsuppressed or forced |
| Pinger.ForcedImportIsProcessed | lustre/ptlrpc/pinger.c:188-239 | a forced import is never skipped, and a due, healthy, pingable import is pinged |
| Pinger.InsertPos | lustre/ptlrpc/pinger.c:449-466 | the insertion point is after every earlier timeout and before every later-or-equal one |
| Pinger.InsertKeepsSorted | lustre/ptlrpc/pinger.c:449-466 | inserting at InsertPos keeps the timeout list in increasing order |
| Pinger.InsertKeepsDistinct | lustre/ptlrpc/pinger.c:472-496 | inserting a new event keeps events unique |
| Pinger.InsertPosUnique | lustre/ptlrpc/pinger.c:449-466 | the insertion point is the only split with a smaller timeout just before it and none smaller from it on |
| Pinger.RemoveKeepsOrder | lustre/ptlrpc/pinger.c:519-545 | unlinking one item keeps the timeout list sorted and its events distinct |
| Pinger.FindEvent | lustre/ptlrpc/pinger.c:472-496 | it finds an item with the event, and it finds none exactly when no item has it |
| Pinger.FindEventFirst | lustre/ptlrpc/pinger.c:472-496 | the search returns the first item with the event |
| Pinger.Without | lustre/ptlrpc/pinger.c:519-545 | the client is gone and every other member is kept |
| Pinger.PingerState.IrUp | lustre/ptlrpc/pinger.c:174-178 | imperative recovery is marked up |
| Pinger.PingerState.IrDown | lustre/ptlrpc/pinger.c:181-185 | imperative recovery is marked down |
| Pinger.PingerState.WaitSeconds | lustre/ptlrpc/pinger.c:151-168 | the wait is the ping interval, or the first registered timeout when that is smaller |
| Pinger.PingerState.CheckTimeout | lustre/ptlrpc/pinger.c:151-168 | the pinger wakes no later than one ping interval after the pass started; on the sorted list with non-negative timeouts it also wakes no later than any registered timeout |
| Pinger.PingerState.WaitSecondsIsGlobalMin | lustre/ptlrpc/pinger.c:151-168 | because the list is sorted, looking at the first item gives a wait no longer than any registered timeout |
| Pinger.PingerState.LookupEvent | lustre/ptlrpc/pinger.c:472-496 | the list walk returns FindEvent's answer |
| Pinger.PingerState.LocateInsert | lustre/ptlrpc/pinger.c:449-466 | the list walk returns InsertPos's answer |
| Pinger.PingerState.RegisterTimeout | lustre/ptlrpc/pinger.c:472-496 | an existing event is returned unchanged; otherwise a new item is inserted in order, or nothing happens when allocation fails |
| Pinger.PingerState.AddTimeoutClient | lustre/ptlrpc/pinger.c:498-516 | -EINVAL exactly when the event is new and allocation fails, with the list unchanged; otherwise the client heads the client list of the event's item, so its callback runs when that timeout comes. An existing item leaves the timeout list as it was. A new item carries the requested timeout and is inserted at InsertPos, so the list stays sorted. No other item's client list changes |
| Pinger.PingerState.DelTimeoutClient | lustre/ptlrpc/pinger.c:519-545 | an unlinked client changes nothing; a linked one is unlinked, and the item is dropped when its last client goes |
| Pinger.PingerState.RemoveTimeouts | lustre/ptlrpc/pinger.c:548-560 | the timeout list is emptied |
| Pinger.PingerState.AddImport | lustre/ptlrpc/pinger.c:404-424 | a chained import gives -EALREADY, with the list, reference count, next ping and recovery flag unchanged; otherwise it is appended and chained, recovery is re-enabled, a reference is taken and the next ping is scheduled from the import's state and latency; no other import field is touched |
| Pinger.PingerState.DelImport | lustre/ptlrpc/pinger.c:427-442 | an unchained import, including one never added, gives -ENOENT, with the list, reference count and recovery flag unchanged; otherwise it is cut out of the list with the others in order, unchained, recovery is disabled and its reference dropped |
| Pinger.PingerState.ProcessImport | lustre/ptlrpc/pinger.c:188-239 | the action is PingDecision of the sampled state; force_verify is cleared; force_next_verify is cleared unless skipped; a reconnect reschedules via NextReconnect |
| Pinger.CommitExpected | lustre/ptlrpc/pinger.c:389-402 | the next ping is rescheduled soon, and force_next_verify is set for an import that is not FULL or is pingless |
| Pinger.ExpiredPrefix | lustre/ptlrpc/pinger.c:640-669 | the evicted exports are the longest prefix whose last request is older than the expiry time |
| Pinger.EvictionComplete | lustre/ptlrpc/pinger.c:640-669 | on a list sorted by last request, every export left behind is not expired |
| Pinger.EvictExports | lustre/ptlrpc/pinger.c:640-669 | the loop evicts exactly ExpiredPrefix, and the list keeps the rest |
| Pinger.ExpiredPrefixUpTo | lustre/ptlrpc/pinger.c:640-669 | the expired prefix is exactly the exports before the first unexpired one |
| Pinger.PingEvictor.Start | lustre/ptlrpc/pinger.c:683-698 | only the first start launches the evictor (state READY); later starts only count |
| Pinger.PingEvictor.Stop | lustre/ptlrpc/pinger.c:701-708 | the count drops, and the evictor is told to terminate exactly when it reaches zero |
| LprocStatfs.BitLength | lustre/llite/lproc_llite.c:64-85 | the bit length is zero only for zero |
| LprocStatfs.BitLengthBounds | lustre/llite/lproc_llite.c:64-85 | 2^(len-1) <= x < 2^len |
| LprocStatfs.BlocksToKbytes | lustre/llite/lproc_llite.c:64-85 | the shift loop yields KbytesOf, blocks doubled once per halving of bsize above 1024, in 64-bit unsigned arithmetic |
| LprocStatfs.BitLengthPow2 | lustre/llite/lproc_llite.c:64-85 | 2^j has bit length j+1 |
| LprocStatfs.ShiftCountPow2 | lustre/llite/lproc_llite.c:64-85 | a block size of 1024*2^k takes k doublings |
| LprocStatfs.KbytesPowerOfTwo | lustre/llite/lproc_llite.c:64-85 | for a power-of-two block size of at least 1 KiB and no overflow, the result is exactly blocks*bsize/1024 |
| LprocStatfs.KbytesSmallBlocks | lustre/llite/lproc_llite.c:64-85 | block sizes below 2048 report the block count itself |
| LprocStatfs.KbytesFactorBounds | lustre/llite/lproc_llite.c:64-85 | the multiplier 2^shifts is within a factor of two of bsize/1024 |
| LprocLlite.RdKbytes | lustre/llite/lproc_llite.c:64-129 | a statfs error is returned; otherwise the chosen field is printed in KiB |
| LprocLlite.RdReadAhead | lustre/llite/lproc_llite.c:184-196 | it prints 1 iff the read-ahead flag is set, else 0 |
| LprocLlite.ReadAheadRoundTrip | lustre/llite/lproc_llite.c:184-215 | after writing v, reading gives 1 iff v is non-zero |
| LprocLlite.ReadAheadKeepsOtherBits | lustre/llite/lproc_llite.c:198-215 | writing read_ahead leaves every other superblock flag alone |
| LprocLlite.RdMaxReadAheadMb | lustre/llite/lproc_llite.c:228-240 | the printed value is a 32-bit unsigned |
| LprocLlite.MbToPagesAsWritten | lustre/llite/lproc_llite.c:242-261 | the stored page count, computed with the 32-bit `val << 20`, is a 64-bit unsigned |
| LprocLlite.MaxReadAheadRoundTrip | lustre/llite/lproc_llite.c:228-261 | with the shift done without overflow, every accepted value reads back unchanged |
| LprocLlite.MbToPagesExact | lustre/llite/lproc_llite.c:242-261 | for page sizes up to 1 MiB the stored count is val * 2^(20 - PAGE_CACHE_SHIFT), worth exactly val MiB |
| LprocLlite.ReadBack | lustre/llite/lproc_llite.c:228-240 | a page count worth exactly val MiB (val within int range) is printed as val |
| LprocLlite.AsWrittenAgreesBelow2048 | lustre/llite/lproc_llite.c:242-261 | below 2048 MiB the code as written stores the intended page count |
| LprocLlite.AsWrittenOverflow | lustre/llite/lproc_llite.c:242-261 | writing 2048 with 4 KiB pages stores 2^64-2^19 pages, and the file then reads 4294965248 |
| LprocLlite.UnitOf | lustre/llite/lproc_llite.c:375-391 | "regs" iff TYPE_REGS is set, otherwise "bytes" iff TYPE_BYTES, otherwise "pages" iff TYPE_PAGES, otherwise no unit |
| LprocLlite.UnitIgnoresConfig | lustre/llite/lproc_llite.c:375-391 | the AVGMINMAX and STDDEV bits do not affect the unit |
| LprocLlite.InitCounters | lustre/llite/lproc_llite.c:375-391 | counter i gets the table row's index, AVGMINMAX bit, name and UnitOf unit |
| LprocLlite.LliteTableUnits | lustre/llite/lproc_llite.c:287-330 | the table has 23 rows, each with a unit; only read_bytes and write_bytes count bytes; every averaged counter has a non-register unit |
| LprocLlite.FirstPaged | lustre/llite/lproc_llite.c:461-477 | the first entry from `from` on that has a page, or none exactly when none has |
| LprocLlite.CountPagedConcat | lustre/llite/lproc_llite.c:540-570 | page counts add over concatenation |
| LprocLlite.CountPagedNone | lustre/llite/lproc_llite.c:461-477 | a stretch skipped by the search holds no pages |
| LprocLlite.CursorMove | lustre/llite/lproc_llite.c:540-570 | moving the dummy behind the next paged entry keeps the list length and every other entry's order, and passes exactly one page |
| LprocLlite.PassedOnePage | lustre/llite/lproc_llite.c:540-570 | the entries the cursor jumps over hold exactly one page |
| LprocLlite.SbInfo.WrReadAhead | lustre/llite/lproc_llite.c:198-215 | a parse error gives -EINVAL with no change; otherwise the flag is set from the value and count is returned |
| LprocLlite.SbInfo.WrMaxReadAheadMb | lustre/llite/lproc_llite.c:242-261 | a helper error is returned; a value outside [0, physical MiB] gives -ERANGE; otherwise the page count MbToPages is stored and count is returned |
| LprocLlite.SbInfo.NextLlap | lustre/llite/lproc_llite.c:461-477 | the list walk returns FirstPaged |
| LprocLlite.SbInfo.SeqOpen | lustre/llite/lproc_llite.c:594-622 | allocation failure gives -ENOMEM; a seq_open failure is returned; on success a fresh dummy with magic 0 is put at the head of the list |
| LprocLlite.SbInfo.SeqNext | lustre/llite/lproc_llite.c:530-570 | the first call only passes the banner; then the dummy moves behind the next paged entry (or leaves the list at the end), and iteration continues iff another paged entry follows |
| LprocLlite.SbInfo.MoveCursor | lustre/llite/lproc_llite.c:540-570 | the cursor is unlinked; with a paged entry after it, it is relinked just behind that entry and the walk continues iff another paged entry follows; otherwise, or at the end, it enters the end state |
| LprocLlite.SbInfo.SeqRelease | lustre/llite/lproc_llite.c:624-638 | the dummy is taken off the list, and nothing else changes |
| OsdLproc.OsdDevice.ReadStat | lustre/osd-ldiskfs/osd_lproc.c:163-289 | an unmounted device gives -EINPROGRESS whatever statfs says; then the statfs error, or the block size, KiB count or file count |
| OsdLproc.OsdDevice.RdMntdev | lustre/osd-ldiskfs/osd_lproc.c:300-312 | an unmounted device gives -EINPROGRESS; otherwise the device name |
| OsdLproc.OsdDevice.WrCache | lustre/osd-ldiskfs/osd_lproc.c:323-337 | a parse error changes nothing; otherwise the read cache becomes 0 or 1, and only it changes |
| OsdLproc.OsdDevice.WrWcache | lustre/osd-ldiskfs/osd_lproc.c:349-363 | the same for the writethrough cache |
| OsdLproc.PdoSwitch.WrPdo | lustre/osd-ldiskfs/osd_lproc.c:395-408 | a parse error changes nothing; otherwise pdo becomes 0 or 1 |
| OsdLproc.OsdDevice.ProcfsFini | lustre/osd-ldiskfs/osd_lproc.c:137-150 | stats and the proc directory are both released, and 0 is returned |
| OsdLproc.OsdDevice.ProcfsInit | lustre/osd-ldiskfs/osd_lproc.c:98-135 | an existing directory gives 0 with no change; otherwise the first failure's code is returned, success means both directory and stats exist, and failure leaves neither |
| OsdLproc.OsdDevice.StatsInit | lustre/osd-ldiskfs/osd_lproc.c:53-96 | allocation failure gives -ENOMEM; otherwise the register result, with stats present |
| OsdLproc.ForceSyncResult | lustre/osd-ldiskfs/osd_lproc.c:366-384 | an env error, otherwise count on a successful sync, otherwise the sync error |
| OsdLproc.ForceSyncReportsFailure | lustre/osd-ldiskfs/osd_lproc.c:366-384 | with kernel-style error codes, the result is non-negative iff both steps succeeded, and is then the full count |
| OsdLproc.OsdKbytesExact | lustre/osd-ldiskfs/osd_lproc.c:182-204 | the osd reader gives exactly blocks*bsize/1024 for power-of-two block sizes |
| LustreNet.NextIndex | lustre/include/linux/lustre_net.h:57 | for an index in range, the next index is (index+1) mod max |
| LustreNet.AdvanceIsModular | lustre/include/linux/lustre_net.h:57 | n steps of NEXT_INDEX land on (index+n) mod max |
| LustreNet.FullCircle | lustre/include/linux/lustre_net.h:57 | max steps return to the start |
| LustreNet.DefaultRingAlternates | lustre/include/linux/lustre_net.h:54-57 | with RPC_RING_LENGTH 2 the index alternates 0, 1, 0, … |
| LustreNet.SvcFlagsAreDisjointBits | lustre/include/linux/lustre_net.h:59-65 | each SVC_* flag is a single bit, and no two share one |
| LustreNet.BulkKindsCoincide | lustre/include/linux/lustre_net.h:90-96 | PTL_BULK_SENT and PTL_BULK_RCVD are the same value, distinct from the five RPC kinds |
| LustreIdmap.NgroupsPerBlock | lustre/include/lustre_idmap.h:52 | the number of gids that fit in a page: at least one, and one more would not fit |
| LustreIdmap.GroupSlot | lustre/include/lustre_idmap.h:54-55 | (block, offset) with offset below the block size, and block*n + offset = i |
| LustreIdmap.GroupSlotInjective | lustre/include/lustre_idmap.h:54-55 | distinct indices address distinct slots |
| LustreIdmap.GroupSlotFirstBlock | lustre/include/lustre_idmap.h:54-55 | indices below one block's worth are in block 0 at their own offset |
| LustreIdmap.FlattenLength | lustre/include/lustre_idmap.h:52-55 | full blocks hold |blocks|*n gids |
| LustreIdmap.GroupAtIsFlatIndex | lustre/include/lustre_idmap.h:54-55 | CFS_GROUP_AT(i) is the i-th gid of the blocks laid end to end |
| LustreIdmap.GroupAtStep | lustre/include/lustre_idmap.h:54-55 | past the first block, CFS_GROUP_AT(i) is CFS_GROUP_AT(i - n) of the remaining blocks |

## Left out

- The DMA mapping wrappers, the function prototypes, and the structures for pools, devices, networks and schedulers in o2iblnd.h. They are thin calls into the verbs API or declarations without behaviour.
- `kiblnd_abort_receives`: it only calls `ib_modify_qp`.
- Locks, atomics, wait queues and threads. Each method is the critical section it models. The pinger and evictor thread bodies are reduced to the per-import decision, the wait computation and the eviction scan. `ptlrpc_pinger_main`, `pinger_check_rpcs`, the liblustre variants and the ping RPC itself are left out.
- Jiffies wrap-around: time values are unbounded integers, and `cfs_time_aftereq` is a plain comparison.
- `OBD_FAIL_CHECK` fault injection is treated as off.
- Parsing and formatting: `lprocfs_write_helper`, `snprintf` and the seq_file show callback. Their outcomes enter as parameters or as `ProcRead` values.
- `ll_wr_config_update`, `ll_rd_sb_uuid`, `ll_rd_fstype`, `ll_rd_blksize`, `ll_rd_filestotal` and `ll_rd_filesfree` print a field unchanged, as the osd readers do for the same fields. `lprocfs_register_mountpoint` apart from its counter initialisation loop is left out too.
- `llite_dump_pgcache_seq_show` and `seq_stop`: output only. The page state they print is not modelled.
- The values of `LL_SBI_READAHEAD`, the `LPROCFS_*` counter flags and `LPROC_LL_*` are not in the modelled files. The read-ahead bit is a parameter, the counter flags are a set, and the counter numbers are the table positions.
- `PAGE_SIZE`, `PAGE_CACHE_SHIFT` and `num_physpages` are parameters. `ll_max_read_ahead_pages` is taken to be a 64-bit unsigned long, `lnet_hdr_t` to be 72 bytes and `gid_t` to be 4 bytes. `LNET_MAX_IOV` is taken to be 256; the 257-fragment bounds of IblndSizing.V1Sizing and the 331-fragment case of IblndMsg.RdMsgSizeFits depend on it. `CFS_TICK` is taken to be one jiffy, so the pinger's `5 * CFS_TICK` margin is 5.
- lustre/osp/osp_dev.c and lustre/include/linux/obd.h are context and not part of this model.
- IblndRdma.RdmaDesc.Size: the C accumulator is an `int`. The model sums without 32-bit overflow, so descriptors whose total exceeds 2^31-1 are not modelled as wrapping.
- IblndMsg.RdMsgSize carries no contract of its own. Its properties are stated by RdMsgSizeFits.
- LprocLlite.SbInfo.WrMaxReadAheadMb stores the corrected page count MbToPages, not the overflowing `(val << 20)` of the code as written. The as-written value is MbToPagesAsWritten; see Findings.
- LprocLlite.SbInfo.SeqNext states the cursor's movement and its continuation, but not the seq_file position counter.
- Pinger.NextReconnect: ptlrpc_next_reconnect returns `int`, so the C code narrows the 64-bit jiffies value to 32 bits before storing it in `imp_next_ping`. The model keeps the exact value. It also takes the pass's `this_ping` as the current time where the C code reads `cfs_time_current()` again.
- Pinger.EvictExports: `class_fail_export` is taken to unlink the export from `obd_exports_timed`. The C loop re-reads the head of the list after each call and ends only because of that. The model cuts the expired prefix off the list itself.
- Pinger.PingerState.RegisterTimeout: the callback pointer and data are opaque integers. They are stored, not called.
- LustreIdmap.GroupSlot takes a non-negative index. The C macro with a negative `int` index would truncate toward zero and address outside the array.

## Findings

| source | as written | input that shows it | evidently intended | confidence | as-written member | corrected member |
|---|---|---|---|---|---|---|
| lustre/llite/lproc_llite.c:242-261 | `(val << 20)` is computed in 32-bit `int`, so it overflows for val >= 2048 before the shift by PAGE_CACHE_SHIFT and the store to an unsigned long | val = 2048, PAGE_CACHE_SHIFT = 12, at least 2 GiB of memory: the result is 2^64-2^19 pages, and max_read_ahead_mb then reads back 4294965248 | the page count val MiB / page size, so that every accepted value reads back unchanged | not executed | LprocLlite.AsWrittenOverflow | LprocLlite.MaxReadAheadRoundTrip |
