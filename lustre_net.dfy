/** The constants and the ring-index macro of the ptlrpc network header
    (lustre/include/linux/lustre_net.h). */
module LustreNet {
  import opened Kernel

  /** Default length of an RPC ring. */
  const RPC_RING_LENGTH: int := 2

  /** NEXT_INDEX(index, max): the slot after `index` in a ring of `max`
      slots, wrapping to 0. In the ring it is the successor modulo max. */
  function NextIndex(index: int, max: int): (r: int)
    ensures 0 <= index < max ==> 0 <= r < max && r == (index + 1) % max
  {
    if index + 1 >= max then 0 else index + 1
  }

  /** NEXT_INDEX applied n times. */
  function Advance(index: int, max: int, n: nat): int
  {
    if n == 0 then index else NextIndex(Advance(index, max, n - 1), max)
  }

  /** n steps round the ring move n slots on, modulo its length. */
  lemma {:induction false} AdvanceIsModular(index: int, max: int, n: nat)
    requires 0 <= index < max
    ensures Advance(index, max, n) == (index + n) % max
  {
    if n > 0 {
      AdvanceIsModular(index, max, n - 1);
      ModSucc(index + n - 1, max);
    }
  }

  /** Adding one after reducing is adding one before reducing. */
  lemma ModSucc(x: int, m: int)
    requires m > 0
    ensures (x % m + 1) % m == (x + 1) % m
  {
    var q := x / m;
    var r := x % m;
    assert x + 1 == q * m + (r + 1);
    if r + 1 < m {
      DivModUnique(x + 1, m, q, r + 1);
      DivModUnique(r + 1, m, 0, r + 1);
    } else {
      DivModUnique(x + 1, m, q + 1, 0);
      DivModUnique(r + 1, m, 1, 0);
    }
  }

  /** Going once round the ring returns to the starting slot. */
  lemma FullCircle(index: int, max: int)
    requires 0 <= index < max
    ensures Advance(index, max, max) == index
  {
    AdvanceIsModular(index, max, max);
    DivModUnique(index + max, max, 1, index);
  }

  /** In the default two-slot ring NEXT_INDEX alternates between 0 and 1. */
  lemma DefaultRingAlternates()
    ensures NextIndex(0, RPC_RING_LENGTH) == 1 && NextIndex(1, RPC_RING_LENGTH) == 0
    ensures forall n: nat :: Advance(0, RPC_RING_LENGTH, n) == n % 2
  {
    forall n: nat
      ensures Advance(0, RPC_RING_LENGTH, n) == n % 2
    {
      AdvanceIsModular(0, RPC_RING_LENGTH, n);
    }
  }

  /** Service state flags, SVC_STOPPING through SVC_SIGNAL. */
  const SVC_STOPPING: bv32 := 1
  const SVC_RUNNING: bv32 := 2
  const SVC_STOPPED: bv32 := 4
  const SVC_KILLED: bv32 := 8
  const SVC_EVENT: bv32 := 16
  const SVC_LIST: bv32 := 32
  const SVC_SIGNAL: bv32 := 64

  const SvcFlags: seq<bv32> := [SVC_STOPPING, SVC_RUNNING, SVC_STOPPED, SVC_KILLED,
                                SVC_EVENT, SVC_LIST, SVC_SIGNAL]

  /** A non-zero value with no bit in common with itself minus one has
      exactly one bit set. */
  predicate SingleBit(f: bv32)
  {
    f != 0 && f & (f - 1) == 0
  }

  /** Each SVC_* flag is a single bit, and no two share a bit, so any set
      of them can be combined in one word and tested apart. */
  lemma SvcFlagsAreDisjointBits()
    ensures forall i :: 0 <= i < |SvcFlags| ==> SingleBit(SvcFlags[i])
    ensures forall i, j :: 0 <= i < j < |SvcFlags| ==> SvcFlags[i] & SvcFlags[j] == 0
  {
  }

  /** Request kinds, which double as request flags. */
  const PTL_RPC_INTR: int := 1
  const PTL_RPC_REQUEST: int := 2
  const PTL_RPC_REPLY: int := 3
  const PTL_RPC_BULK: int := 4
  const PTL_RPC_SENT: int := 5
  const PTL_BULK_SENT: int := 6
  const PTL_BULK_RCVD: int := 6

  /** PTL_BULK_SENT and PTL_BULK_RCVD are the same number, so a value
      cannot tell a sent bulk from a received one; the other kinds are
      all different. */
  lemma BulkKindsCoincide()
    ensures PTL_BULK_SENT == PTL_BULK_RCVD
    ensures forall k :: k in [PTL_RPC_INTR, PTL_RPC_REQUEST, PTL_RPC_REPLY, PTL_RPC_BULK, PTL_RPC_SENT] ==>
              k != PTL_BULK_SENT
  {
  }
}
