/** The o2iblnd wire message: message types, the packed layout of the
    fixed header and of the RDMA-carrying bodies, and header
    initialisation (lnet/klnds/o2iblnd/o2iblnd.h). */
module IblndMsg {
  import opened Kernel
  import opened IblndSizing

  const IBLND_MSG_CONNREQ: int := 0xc0
  const IBLND_MSG_CONNACK: int := 0xc1
  const IBLND_MSG_NOOP: int := 0xd0
  const IBLND_MSG_IMMEDIATE: int := 0xd1
  const IBLND_MSG_PUT_REQ: int := 0xd2
  const IBLND_MSG_PUT_NAK: int := 0xd3
  const IBLND_MSG_PUT_ACK: int := 0xd4
  const IBLND_MSG_PUT_DONE: int := 0xd5
  const IBLND_MSG_GET_REQ: int := 0xd6
  const IBLND_MSG_GET_DONE: int := 0xd7

  const MsgTypes: seq<int> := [IBLND_MSG_CONNREQ, IBLND_MSG_CONNACK, IBLND_MSG_NOOP,
                               IBLND_MSG_IMMEDIATE, IBLND_MSG_PUT_REQ, IBLND_MSG_PUT_NAK,
                               IBLND_MSG_PUT_ACK, IBLND_MSG_PUT_DONE, IBLND_MSG_GET_REQ,
                               IBLND_MSG_GET_DONE]

  /** Size of the LNet portals header (lnet_hdr_t) embedded in several bodies;
      lnet_hdr_t is declared outside o2iblnd.h. */
  const LNET_HDR_SIZE: int := 72

  /** Widths, in order, of the packed fields of kib_msg_t before the ibm_u
      union: magic, version, type, credits, nob, cksum, srcnid, srcstamp,
      dstnid, dststamp. */
  const MsgHeaderFields: seq<int> := [4, 2, 1, 1, 4, 4, 8, 8, 8, 8]

  /** Widths of the packed kib_rdma_frag_t (rf_nob, rf_addr) and of the
      kib_rdma_desc_t header (rd_key, rd_nfrags). */
  const RDMA_FRAG_SIZE: int := 4 + 8
  const RDMA_DESC_HDR_SIZE: int := 4 + 4

  function SumWidths(ws: seq<int>): int
  {
    if |ws| == 0 then 0 else ws[0] + SumWidths(ws[1..])
  }

  /** offsetof(kib_msg_t, ibm_u): the packed header is 48 bytes. */
  function IbmUOffset(): (off: int)
    ensures off == 48
  {
    var ws := MsgHeaderFields;
    assert SumWidths(ws[6..]) == 32 by {
      assert ws[6..][1..] == ws[7..] && ws[7..][1..] == ws[8..] && ws[8..][1..] == ws[9..];
      assert ws[9..][1..] == [];
    }
    assert SumWidths(ws) == 16 + SumWidths(ws[6..]) by {
      assert ws[1..][1..] == ws[2..] && ws[2..][1..] == ws[3..] && ws[3..][1..] == ws[4..];
      assert ws[4..][1..] == ws[5..] && ws[5..][1..] == ws[6..];
    }
    SumWidths(ws)
  }

  /** Every message type is a distinct one-byte value, so storing it in
      the 8-bit ibm_type loses nothing. */
  lemma MsgTypesFitInByte()
    ensures forall i :: 0 <= i < |MsgTypes| ==> 0 <= MsgTypes[i] < 256
    ensures forall i, j :: 0 <= i < j < |MsgTypes| ==> MsgTypes[i] != MsgTypes[j]
  {
  }

  /** The header fields of kib_msg_t that kiblnd_init_msg may touch, and
      the ones it must leave alone. */
  class Msg {
    var magic: int      // ibm_magic   (u32)
    var version: int    // ibm_version (u16)
    var msgType: int    // ibm_type    (u8)
    var credits: int    // ibm_credits (u8)
    var nob: int        // ibm_nob     (u32)
    var cksum: int      // ibm_cksum   (u32)
    var srcNid: int     // ibm_srcnid
    var srcStamp: int   // ibm_srcstamp
    var dstNid: int     // ibm_dstnid
    var dstStamp: int   // ibm_dststamp

    constructor ()
      ensures magic == 0 && version == 0 && msgType == 0 && credits == 0 && nob == 0
      ensures cksum == 0 && srcNid == 0 && srcStamp == 0 && dstNid == 0 && dstStamp == 0
    {
      magic, version, msgType, credits, nob := 0, 0, 0, 0, 0;
      cksum, srcNid, srcStamp, dstNid, dstStamp := 0, 0, 0, 0, 0;
    }

    /** kiblnd_init_msg: set the type (truncated to the u8 field) and the
        total length, header included (truncated to the u32 field). */
    method Init(msgtype: int, bodyNob: int)
      modifies this
      ensures msgType == msgtype % 256
      ensures nob == (IbmUOffset() + bodyNob) % U32_LIMIT
      ensures magic == old(magic) && version == old(version) && credits == old(credits)
      ensures cksum == old(cksum) && srcNid == old(srcNid) && srcStamp == old(srcStamp)
      ensures dstNid == old(dstNid) && dstStamp == old(dstStamp)
    {
      msgType := msgtype % 256;
      nob := (IbmUOffset() + bodyNob) % U32_LIMIT;
    }
  }

  /** The nob kiblnd_init_msg records for a body that fits in a queued
      message: exactly header plus body, never beyond IBLND_MSG_SIZE. */
  lemma InitMsgNob(bodyNob: int)
    requires 0 <= bodyNob <= IBLND_MSG_SIZE - 48
    ensures (IbmUOffset() + bodyNob) % U32_LIMIT == 48 + bodyNob
    ensures 48 + bodyNob <= IBLND_MSG_SIZE
  {
  }

  /** kiblnd_rd_msg_size: the body length of a GET_REQ or PUT_ACK whose
      RDMA descriptor carries n fragments, i.e.
      offsetof(kib_get_msg_t, ibgm_rd.rd_frags[n]) or
      offsetof(kib_putack_msg_t, ibpam_rd.rd_frags[n]). */
  function RdMsgSize(msgtype: int, n: int): int
    requires msgtype == IBLND_MSG_GET_REQ || msgtype == IBLND_MSG_PUT_ACK
  {
    var descOffset := if msgtype == IBLND_MSG_GET_REQ
                      then LNET_HDR_SIZE + 8      // ibgm_hdr, ibgm_cookie
                      else 8 + 8;                 // ibpam_src_cookie, ibpam_dst_cookie
    descOffset + RDMA_DESC_HDR_SIZE + n * RDMA_FRAG_SIZE
  }

  /** Each extra fragment costs one packed kib_rdma_frag_t; a PUT_ACK is
      smaller than a GET_REQ with as many fragments, because it carries two
      cookies in place of the portals header and one cookie; a descriptor
      with the full IBLND_MAX_RDMA_FRAGS fragments still fits, with the
      header, in one IBLND_MSG_SIZE message, while 331 fragments would not
      fit a GET_REQ. */
  lemma RdMsgSizeFits(msgtype: int, n: int)
    requires msgtype == IBLND_MSG_GET_REQ || msgtype == IBLND_MSG_PUT_ACK
    requires 0 <= n <= IBLND_MAX_RDMA_FRAGS
    ensures RdMsgSize(msgtype, n + 1) == RdMsgSize(msgtype, n) + RDMA_FRAG_SIZE
    ensures RdMsgSize(IBLND_MSG_GET_REQ, n) - RdMsgSize(IBLND_MSG_PUT_ACK, n) == LNET_HDR_SIZE - 8
    ensures RdMsgSize(msgtype, 0) > 0
    ensures IbmUOffset() + RdMsgSize(msgtype, n) <= IBLND_MSG_SIZE
    ensures IbmUOffset() + RdMsgSize(IBLND_MSG_GET_REQ, 331) > IBLND_MSG_SIZE
  {
  }
}
