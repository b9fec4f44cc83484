/** Work-request ids: o2iblnd stores the kind of a posted work item in
    the two low bits of the (4-byte aligned) descriptor address it uses
    as the completion id (lnet/klnds/o2iblnd/o2iblnd.h). */
module IblndWreqId {

  const IBLND_WID_TX: int := 0
  const IBLND_WID_RDMA: int := 1
  const IBLND_WID_RX: int := 2
  const IBLND_WID_MASK: bv64 := 3

  /** A descriptor address usable as a work-request id: low two bits clear. */
  predicate Aligned(ptr: bv64)
  {
    ptr & IBLND_WID_MASK == 0
  }

  /** kiblnd_ptr2wreqid: the source asserts alignment and a two-bit type. */
  function Ptr2WreqId(ptr: bv64, wtype: int): (wreqid: bv64)
    requires Aligned(ptr)
    requires 0 <= wtype <= 3
    ensures WreqId2Ptr(wreqid) == ptr
    ensures WreqId2Type(wreqid) == wtype
  {
    ptr | (wtype as bv64)
  }

  /** kiblnd_wreqid2ptr: clear the type bits. */
  function WreqId2Ptr(wreqid: bv64): (ptr: bv64)
    ensures Aligned(ptr)
    ensures ptr <= wreqid
  {
    wreqid & !IBLND_WID_MASK
  }

  /** kiblnd_wreqid2type: the two type bits. */
  function WreqId2Type(wreqid: bv64): (wtype: int)
    ensures 0 <= wtype <= 3
  {
    (wreqid & IBLND_WID_MASK) as int
  }

  /** Every id splits back into the address and the type it was built from,
      so tagging loses nothing in either direction. */
  lemma WreqIdSplit(wreqid: bv64)
    ensures Ptr2WreqId(WreqId2Ptr(wreqid), WreqId2Type(wreqid)) == wreqid
  {
  }

  /** Two tagged ids are equal only if both address and type agree. */
  lemma Ptr2WreqIdInjective(p1: bv64, t1: int, p2: bv64, t2: int)
    requires Aligned(p1) && Aligned(p2)
    requires 0 <= t1 <= 3 && 0 <= t2 <= 3
    requires Ptr2WreqId(p1, t1) == Ptr2WreqId(p2, t2)
    ensures p1 == p2 && t1 == t2
  {
    assert WreqId2Ptr(Ptr2WreqId(p1, t1)) == p1;
    assert WreqId2Type(Ptr2WreqId(p1, t1)) == t1;
  }
}
