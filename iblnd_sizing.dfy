/** Protocol versions and the version-dependent sizing of an o2iblnd
    connection: message queue depth, credit high-water mark, out-of-band
    message allowance, receive/send work requests and completion-queue
    entries (lnet/klnds/o2iblnd/o2iblnd.h). */
module IblndSizing {
  import opened Kernel

  const IBLND_MSG_VERSION_1: int := 0x11
  const IBLND_MSG_VERSION_2: int := 0x12
  const IBLND_MSG_VERSION: int := IBLND_MSG_VERSION_2

  const IBLND_PEER_HASH_SIZE: int := 101
  const IBLND_MSG_QUEUE_SIZE_V1: int := 8
  const IBLND_CREDIT_HIGHWATER_V1: int := 7
  const IBLND_CREDITS_DEFAULT: int := 8
  const IBLND_CREDITS_MAX: int := 4096

  /** Maximum size of a queued message, header included (4 << 10). */
  const IBLND_MSG_SIZE: int := 4 * 1024
  /** LNET_MAX_IOV, the LNet limit on fragments per message. */
  const LNET_MAX_IOV: int := 256
  const IBLND_MAX_RDMA_FRAGS: int := LNET_MAX_IOV

  /** The module tunables the sizing macros read (kiblnd_tunables). */
  datatype Tunables = Tunables(
    peerTxCredits: int,     // kib_peertxcredits
    peerCreditsHiw: int,    // kib_peercredits_hiw
    concurrentSends: int,   // kib_concurrent_sends
    mapOnDemand: int,       // kib_map_on_demand
    ntx: int,               // kib_ntx
    keepalive: int)         // kib_keepalive (seconds)

  /** IBLND_MSG_QUEUE_SIZE(v): messages/RDMAs in flight per connection. */
  function MsgQueueSize(t: Tunables, v: int): int
  {
    if v == IBLND_MSG_VERSION_1 then IBLND_MSG_QUEUE_SIZE_V1 else t.peerTxCredits
  }

  /** IBLND_CREDITS_HIGHWATER(v): when to return credits eagerly. */
  function CreditsHighwater(t: Tunables, v: int): int
  {
    if v == IBLND_MSG_VERSION_1 then IBLND_CREDIT_HIGHWATER_V1 else t.peerCreditsHiw
  }

  /** kiblnd_concurrent_sends_v1: the tunable clamped to
      [QUEUE_SIZE_V1 / 2, QUEUE_SIZE_V1 * 2]. */
  function ConcurrentSendsV1(t: Tunables): (n: int)
    ensures IBLND_MSG_QUEUE_SIZE_V1 / 2 <= n <= IBLND_MSG_QUEUE_SIZE_V1 * 2
    ensures IBLND_MSG_QUEUE_SIZE_V1 / 2 <= t.concurrentSends <= IBLND_MSG_QUEUE_SIZE_V1 * 2 ==>
              n == t.concurrentSends
    ensures t.concurrentSends > IBLND_MSG_QUEUE_SIZE_V1 * 2 ==> n == IBLND_MSG_QUEUE_SIZE_V1 * 2
    ensures t.concurrentSends < IBLND_MSG_QUEUE_SIZE_V1 / 2 ==> n == IBLND_MSG_QUEUE_SIZE_V1 / 2
  {
    if t.concurrentSends > IBLND_MSG_QUEUE_SIZE_V1 * 2 then IBLND_MSG_QUEUE_SIZE_V1 * 2
    else if t.concurrentSends < IBLND_MSG_QUEUE_SIZE_V1 / 2 then IBLND_MSG_QUEUE_SIZE_V1 / 2
    else t.concurrentSends
  }

  function ConcurrentSends(t: Tunables, v: int): int
  {
    if v == IBLND_MSG_VERSION_1 then ConcurrentSendsV1(t) else t.concurrentSends
  }

  /** IBLND_OOB_CAPABLE(v): every version after V1 reserves out-of-band messages. */
  predicate OobCapable(v: int)
  {
    v != IBLND_MSG_VERSION_1
  }

  /** IBLND_OOB_MSGS(v): one keepalive plus one credit return. */
  function OobMsgs(v: int): int
  {
    if OobCapable(v) then 2 else 0
  }

  /** IBLND_CFG_RDMA_FRAGS: map_on_demand when set, otherwise the maximum. */
  function CfgRdmaFrags(t: Tunables): int
  {
    if t.mapOnDemand != 0 then t.mapOnDemand else IBLND_MAX_RDMA_FRAGS
  }

  function RdmaFrags(t: Tunables, v: int): int
  {
    if v == IBLND_MSG_VERSION_1 then IBLND_MAX_RDMA_FRAGS else CfgRdmaFrags(t)
  }

  /** Pages needed for `bytes` bytes: ((bytes + PAGE_SIZE - 1) / PAGE_SIZE), C division. */
  function PagesFor(bytes: int, pageSize: int): (pages: int)
    requires pageSize > 0
    ensures bytes >= 0 ==> pages >= 0 && (pages - 1) * pageSize < bytes <= pages * pageSize
  {
    CDiv(bytes + pageSize - 1, pageSize)
  }

  // TX messages (shared by all connections)
  function TxMsgs(t: Tunables): int { t.ntx }
  function TxMsgBytes(t: Tunables): int { TxMsgs(t) * IBLND_MSG_SIZE }
  function TxMsgPages(t: Tunables, pageSize: int): int
    requires pageSize > 0
  {
    PagesFor(TxMsgBytes(t), pageSize)
  }

  // RX messages (per connection)
  function RxMsgs(t: Tunables, v: int): int
  {
    MsgQueueSize(t, v) * 2 + OobMsgs(v)
  }
  function RxMsgBytes(t: Tunables, v: int): int { RxMsgs(t, v) * IBLND_MSG_SIZE }
  function RxMsgPages(t: Tunables, v: int, pageSize: int): int
    requires pageSize > 0
  {
    PagesFor(RxMsgBytes(t, v), pageSize)
  }

  // work requests and completion-queue entries (per connection)
  function RecvWrs(t: Tunables, v: int): int { RxMsgs(t, v) }
  function SendWrs(t: Tunables, v: int): int
  {
    (RdmaFrags(t, v) + 1) * ConcurrentSends(t, v)
  }
  function CqEntries(t: Tunables, v: int): int
  {
    RecvWrs(t, v) + SendWrs(t, v)
  }

  /** Every quantity of a V1 connection is fixed except the clamped
      concurrent-sends count, whatever the tunables. */
  lemma V1Sizing(t: Tunables)
    ensures MsgQueueSize(t, IBLND_MSG_VERSION_1) == 8
    ensures CreditsHighwater(t, IBLND_MSG_VERSION_1) == 7
    ensures OobMsgs(IBLND_MSG_VERSION_1) == 0
    ensures RxMsgs(t, IBLND_MSG_VERSION_1) == 16
    ensures RecvWrs(t, IBLND_MSG_VERSION_1) == 16
    ensures RdmaFrags(t, IBLND_MSG_VERSION_1) == IBLND_MAX_RDMA_FRAGS
    ensures 4 <= ConcurrentSends(t, IBLND_MSG_VERSION_1) <= 16
    ensures 257 * 4 <= SendWrs(t, IBLND_MSG_VERSION_1) <= 257 * 16
    ensures 16 + 257 * 4 <= CqEntries(t, IBLND_MSG_VERSION_1) <= 16 + 257 * 16
  {
    var cs := ConcurrentSends(t, IBLND_MSG_VERSION_1);
    assert SendWrs(t, IBLND_MSG_VERSION_1) == 257 * cs;
  }

  /** RX buffers: two per queue slot, plus the two out-of-band slots on
      OOB-capable versions; the CQ holds every receive and send request. */
  lemma RxAndCqSizing(t: Tunables, v: int)
    ensures RxMsgs(t, v) == 2 * MsgQueueSize(t, v) + (if v != IBLND_MSG_VERSION_1 then 2 else 0)
    ensures CqEntries(t, v) == RxMsgs(t, v) + (RdmaFrags(t, v) + 1) * ConcurrentSends(t, v)
    ensures v != IBLND_MSG_VERSION_1 ==> RxMsgs(t, v) == 2 * t.peerTxCredits + 2
  {
  }

  /** Any version other than V1 takes its queue depth, credit high-water
      mark, concurrent sends and fragment limit from the tunables, and
      keeps two out-of-band message slots. */
  lemma LaterVersionSizing(t: Tunables, v: int)
    requires v != IBLND_MSG_VERSION_1
    ensures MsgQueueSize(t, v) == t.peerTxCredits
    ensures CreditsHighwater(t, v) == t.peerCreditsHiw
    ensures ConcurrentSends(t, v) == t.concurrentSends
    ensures RdmaFrags(t, v) == (if t.mapOnDemand != 0 then t.mapOnDemand else IBLND_MAX_RDMA_FRAGS)
    ensures OobCapable(v) && OobMsgs(v) == 2
  {
  }
}
