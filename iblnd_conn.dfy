/** Connections and peers of the o2iblnd driver: reference counting with
    the connd zombie list, the peer hash table, the NOOP/keepalive
    credit-return rule and the small connection helpers
    (lnet/klnds/o2iblnd/o2iblnd.h). All updates are taken to happen
    under the locks the source holds, one at a time. */
module IblndConn {
  import opened Kernel
  import opened IblndSizing

  // ibc_state values
  const IBLND_CONN_INIT: int := 0
  const IBLND_CONN_ACTIVE_CONNECT: int := 1
  const IBLND_CONN_PASSIVE_WAIT: int := 2
  const IBLND_CONN_ESTABLISHED: int := 3
  const IBLND_CONN_CLOSING: int := 4
  const IBLND_CONN_DISCONNECTED: int := 5

  /** The four transmit lists of a connection that kiblnd_queue2str names. */
  datatype TxQueueId = TxQueue | TxQueueRsrvd | TxQueueNocred | ActiveTxs

  /** kib_peer_t. `hashed` stands for a non-empty ibp_list, i.e. the peer
      is linked into one of the kib_peers hash chains. */
  class Peer {
    var nid: int                 // ibp_nid (u64)
    var refcount: int            // ibp_refcount
    var conns: seq<Conn>         // ibp_conns, head first
    var hashed: bool             // !list_empty(&ibp_list)
    var version: int             // ibp_version
    var incarnation: int         // ibp_incarnation

    constructor (nid: int)
      ensures this.nid == nid && refcount == 1 && conns == [] && !hashed
    {
      this.nid := nid;
      refcount := 1;
      conns := [];
      hashed := false;
      version := IBLND_MSG_VERSION;
      incarnation := 0;
    }

    /** kiblnd_peer_addref: the caller must already hold a reference. */
    method Addref()
      requires refcount > 0
      modifies this`refcount
      ensures refcount == old(refcount) + 1
    {
      refcount := refcount + 1;
    }

    /** kiblnd_peer_decref: drop a reference; `destroy` says whether
        kiblnd_destroy_peer is called, which happens exactly when the last
        reference goes. */
    method Decref() returns (destroy: bool)
      requires refcount > 0
      modifies this`refcount
      ensures refcount == old(refcount) - 1
      ensures destroy <==> refcount == 0
    {
      refcount := refcount - 1;
      destroy := refcount == 0;
    }
  }

  /** kib_conn_t: the fields the header's helpers read or write. Transmit
      descriptors on the queues are represented by their ids. */
  class Conn {
    var peer: Peer?              // ibc_peer
    var version: int             // ibc_version
    var incarnation: int         // ibc_incarnation
    var refcount: int            // ibc_refcount
    var state: int               // ibc_state
    var credits: int             // ibc_credits
    var outstandingCredits: int  // ibc_outstanding_credits
    var reservedCredits: int     // ibc_reserved_credits
    var lastSend: int            // ibc_last_send (jiffies)
    var txQueue: seq<nat>        // ibc_tx_queue
    var txQueueNocred: seq<nat>  // ibc_tx_queue_nocred
    var txQueueRsrvd: seq<nat>   // ibc_tx_queue_rsrvd
    var activeTxs: seq<nat>      // ibc_active_txs

    constructor (peer: Peer?, version: int)
      ensures this.peer == peer && this.version == version
      ensures refcount == 1 && state == IBLND_CONN_INIT
      ensures txQueue == [] && txQueueNocred == [] && txQueueRsrvd == [] && activeTxs == []
    {
      this.peer := peer;
      this.version := version;
      incarnation := 0;
      refcount := 1;
      state := IBLND_CONN_INIT;
      credits := 0;
      outstandingCredits := 0;
      reservedCredits := 0;
      lastSend := 0;
      txQueue, txQueueNocred, txQueueRsrvd, activeTxs := [], [], [], [];
    }

    /** kiblnd_set_conn_state (the memory barrier is not modelled). */
    method SetState(s: int)
      modifies this`state
      ensures state == s
    {
      state := s;
    }

    /** kiblnd_send_keepalive: keepalives are enabled and more than
        `keepalive` seconds have passed since the last send. */
    predicate SendKeepalive(t: Tunables, now: int, hz: int)
      reads this
    {
      t.keepalive > 0 && now > lastSend + t.keepalive * hz
    }

    /** kiblnd_send_noop, branch by branch: whether a credits-only NOOP
        must be generated. */
    predicate SendNoop(t: Tunables, now: int, hz: int)
      requires state >= IBLND_CONN_ESTABLISHED
      reads this
    {
      if outstandingCredits < CreditsHighwater(t, version) && !SendKeepalive(t, now, hz) then
        false    // nothing to return yet
      else if |txQueueNocred| != 0 then
        false    // the credits ride on a queued no-credit message
      else if !OobCapable(version) then
        |txQueue| == 0
      else
        |txQueue| == 0 || credits == 0
    }

    /** Credits are due back to the peer: past the high-water mark, or a
        keepalive is due. */
    predicate CreditsDue(t: Tunables, now: int, hz: int)
      reads this
    {
      outstandingCredits >= CreditsHighwater(t, version) || SendKeepalive(t, now, hz)
    }

    /** A queued message will carry the returned credits: a no-credit
        message is waiting, or a credit-consuming one is and it can go
        (always on V1, which has no out-of-band slots; otherwise only while
        the connection holds a credit). */
    predicate CanPiggyback()
      reads this
    {
      |txQueueNocred| != 0 || (|txQueue| != 0 && (!OobCapable(version) || credits != 0))
    }
  }

  /** The NOOP rule in one line: a NOOP is sent exactly when credits are
      due and no queued message can carry them. */
  lemma SendNoopIffNoPiggyback(c: Conn, t: Tunables, now: int, hz: int)
    requires c.state >= IBLND_CONN_ESTABLISHED
    ensures c.SendNoop(t, now, hz) <==> c.CreditsDue(t, now, hz) && !c.CanPiggyback()
  {
  }

  /** The individual outcomes of kiblnd_send_noop. */
  lemma SendNoopCases(c: Conn, t: Tunables, now: int, hz: int)
    requires c.state >= IBLND_CONN_ESTABLISHED
    ensures c.outstandingCredits < CreditsHighwater(t, c.version) && !c.SendKeepalive(t, now, hz) ==>
              !c.SendNoop(t, now, hz)
    ensures |c.txQueueNocred| != 0 ==> !c.SendNoop(t, now, hz)
    ensures c.CreditsDue(t, now, hz) && |c.txQueueNocred| == 0 && c.version == IBLND_MSG_VERSION_1 ==>
              (c.SendNoop(t, now, hz) <==> |c.txQueue| == 0)
    ensures c.CreditsDue(t, now, hz) && |c.txQueueNocred| == 0 && c.version != IBLND_MSG_VERSION_1 ==>
              (c.SendNoop(t, now, hz) <==> |c.txQueue| == 0 || c.credits == 0)
  {
  }

  /** A due keepalive stays due as time passes, never fires while
      disabled, and always lies strictly after the last send. */
  lemma SendKeepaliveMonotone(c: Conn, t: Tunables, now: int, later: int, hz: int)
    requires hz > 0
    requires now <= later
    ensures c.SendKeepalive(t, now, hz) ==> c.SendKeepalive(t, later, hz)
    ensures t.keepalive <= 0 ==> !c.SendKeepalive(t, now, hz)
    ensures c.SendKeepalive(t, now, hz) ==> now > c.lastSend + hz
    ensures t.keepalive > 0 && now <= c.lastSend ==> !c.SendKeepalive(t, now, hz)
  {
    if c.SendKeepalive(t, now, hz) {
      assert t.keepalive * hz >= hz by {
        assert (t.keepalive - 1) * hz >= 0;
      }
    }
    if t.keepalive > 0 {
      assert t.keepalive * hz >= 0;
    }
  }

  /** kiblnd_nid2peerlist: the hash chain of a NID, taken from its low 32
      bits ((unsigned int)nid). */
  function Nid2PeerList(nid: int, hashSize: int): (bucket: int)
    requires hashSize > 0
    ensures 0 <= bucket < hashSize
  {
    (nid % U32_LIMIT) % hashSize
  }

  /** NIDs differing only in their upper 32 bits (the network number) share
      a chain, and a small address is its own chain number. */
  lemma Nid2PeerListLowBits(nid1: int, nid2: int, hashSize: int)
    requires hashSize > 0
    requires IsU64(nid1) && IsU64(nid2)
    requires nid1 % U32_LIMIT == nid2 % U32_LIMIT
    ensures Nid2PeerList(nid1, hashSize) == Nid2PeerList(nid2, hashSize)
    ensures nid1 < hashSize && nid1 < U32_LIMIT ==> Nid2PeerList(nid1, hashSize) == nid1
  {
  }

  /** kiblnd_peer_active: the peer is in the hash table. */
  predicate PeerActive(p: Peer)
    reads p
  {
    p.hashed
  }

  /** kiblnd_get_conn_locked: the first connection on the peer's list is
      *the* connection; the list must not be empty. */
  function GetConnLocked(p: Peer): (c: Conn)
    requires |p.conns| > 0
    reads p
    ensures c in p.conns
    ensures c == p.conns[0]
  {
    p.conns[0]
  }

  /** kiblnd_queue2str. */
  function Queue2Str(q: TxQueueId): string
  {
    match q
    case TxQueue => "tx_queue"
    case TxQueueRsrvd => "tx_queue_rsrvd"
    case TxQueueNocred => "tx_queue_nocred"
    case ActiveTxs => "active_txs"
  }

  /** Every queue has its own name. */
  lemma Queue2StrInjective(q1: TxQueueId, q2: TxQueueId)
    ensures Queue2Str(q1) == Queue2Str(q2) <==> q1 == q2
  {
  }

  /** The global kiblnd_data: the peer hash table and the connd zombie
      list. `allPeers` is the ghost set of peers the table may refer to. */
  class KibData {
    var peers: seq<seq<Peer>>    // kib_peers[kib_peer_hash_size]
    var zombies: seq<Conn>       // kib_connd_zombies
    ghost var allPeers: set<Peer>

    /** Every chained peer sits in its NID's chain and is marked linked;
        every known peer marked linked is on its chain; every zombie has
        dropped its last reference and is listed once. */
    ghost predicate Valid()
      reads this, allPeers, zombies
    {
      |peers| > 0
      && (forall b, i :: 0 <= b < |peers| && 0 <= i < |peers[b]| ==>
            peers[b][i] in allPeers && peers[b][i].hashed
            && Nid2PeerList(peers[b][i].nid, |peers|) == b)
      && (forall p :: p in allPeers && p.hashed ==> p in peers[Nid2PeerList(p.nid, |peers|)])
      && (forall i :: 0 <= i < |zombies| ==> zombies[i].refcount == 0)
      && (forall i, j :: 0 <= i < j < |zombies| ==> zombies[i] != zombies[j])
    }

    constructor (hashSize: int)
      requires hashSize > 0
      ensures Valid()
      ensures |peers| == hashSize && zombies == [] && allPeers == {}
      ensures forall b :: 0 <= b < hashSize ==> peers[b] == []
    {
      peers := seq(hashSize, _ => []);
      zombies := [];
      allPeers := {};
    }

    /** kiblnd_conn_addref: the caller must already hold a reference. */
    method ConnAddref(conn: Conn)
      requires Valid()
      requires conn.refcount > 0
      modifies conn`refcount
      ensures Valid()
      ensures conn.refcount == old(conn.refcount) + 1
    {
      conn.refcount := conn.refcount + 1;
    }

    /** kiblnd_conn_decref: drop a reference; the connection is handed to
        connd (appended to the zombie list) exactly when the last one goes. */
    method ConnDecref(conn: Conn)
      requires Valid()
      requires conn.refcount > 0
      modifies conn`refcount, this`zombies
      ensures Valid()
      ensures conn.refcount == old(conn.refcount) - 1
      ensures conn.refcount == 0 ==> zombies == old(zombies) + [conn]
      ensures conn.refcount != 0 ==> zombies == old(zombies)
    {
      conn.refcount := conn.refcount - 1;
      if conn.refcount == 0 {
        zombies := zombies + [conn];
      }
    }

    /** A peer the table knows about is active exactly when it is on one
        of the hash chains, namely its NID's chain. */
    lemma PeerActiveIffHashed(p: Peer)
      requires Valid()
      requires p in allPeers
      ensures PeerActive(p) <==> exists b :: 0 <= b < |peers| && p in peers[b]
      ensures PeerActive(p) ==> p in peers[Nid2PeerList(p.nid, |peers|)]
    {
      if exists b :: 0 <= b < |peers| && p in peers[b] {
        var b :| 0 <= b < |peers| && p in peers[b];
        var i :| 0 <= i < |peers[b]| && peers[b][i] == p;
      }
    }
  }
}
