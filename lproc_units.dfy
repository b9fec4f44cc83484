/** Shared by the llite and osd-ldiskfs procfs readers: the statfs result
    they print, the outcome of a read, and the conversion of a block count
    to KiB by the shift loop both files repeat
    (lustre/llite/lproc_llite.c, lustre/osd-ldiskfs/osd_lproc.c). */
module LprocStatfs {
  import opened Kernel

  /** The obd_statfs fields the readers print. */
  datatype ObdStatfs = ObdStatfs(
    bsize: nat,     // os_bsize (u32)
    blocks: nat,    // os_blocks (u64)
    bfree: nat,     // os_bfree (u64)
    bavail: nat,    // os_bavail (u64)
    files: nat,     // os_files (u64)
    ffree: nat)     // os_ffree (u64)

  predicate StatfsOk(s: ObdStatfs)
  {
    IsU32(s.bsize) && IsU64(s.blocks) && IsU64(s.bfree) && IsU64(s.bavail)
    && IsU64(s.files) && IsU64(s.ffree)
  }

  /** Which statfs count a kbytes* reader converts. */
  datatype KbytesField = Total | Free | Avail

  /** os_blocks for kbytestotal, os_bfree for kbytesfree, os_bavail for
      kbytesavail. */
  function FieldBlocks(s: ObdStatfs, f: KbytesField): nat
  {
    match f
    case Total => s.blocks
    case Free => s.bfree
    case Avail => s.bavail
  }

  /** What a procfs read handler produces: the number it formats into the
      page, or the negative error code it returns instead. */
  datatype ProcRead = Printed(value: int) | Failed(rc: int)

  /** Number of significant bits of x: how many times `x >>= 1` leaves a
      non-zero value, plus one, for x > 0. */
  function BitLength(x: nat): (n: nat)
    ensures x == 0 <==> n == 0
  {
    if x == 0 then 0 else 1 + BitLength(x / 2)
  }

  lemma {:induction false} BitLengthBounds(x: nat)
    requires x > 0
    ensures Pow2(BitLength(x) - 1) <= x < Pow2(BitLength(x))
  {
    if x / 2 > 0 {
      BitLengthBounds(x / 2);
    }
  }

  /** How many times the loop `while (blk_size >>= 1) result <<= 1` runs
      for blk_size = bsize >> 10: floor(log2(bsize / 1024)), or 0 when
      bsize < 2048. */
  function ShiftCount(bsize: nat): nat
  {
    BitLength(bsize / 1024 / 2)
  }

  /** The KiB figure the loop prints: the block count doubled ShiftCount
      times in a u64. */
  function KbytesOf(blocks: nat, bsize: nat): nat
  {
    (blocks * Pow2(ShiftCount(bsize))) % U64_LIMIT
  }

  /** Doubling a value already reduced modulo m is doubling before reducing. */
  lemma ModDouble(a: nat, m: nat)
    requires m > 0
    ensures ((a % m) * 2) % m == (a * 2) % m
  {
    var q := a / m;
    var r := a % m;
    assert a == q * m + r;
    assert a * 2 == (2 * q) * m + r * 2;
    ModAddMultiple(2 * q, r * 2, m);
  }

  lemma ModAddMultiple(k: nat, x: nat, m: nat)
    requires m > 0
    ensures (k * m + x) % m == x % m
  {
    var q := x / m;
    var r := x % m;
    assert k * m + x == (k + q) * m + r;
    DivModUnique(k * m + x, m, k + q, r);
  }

  /** One pass of the shift loop, in terms of the loop's count. */
  lemma ShiftStep(blocks: nat, d: nat)
    ensures (((blocks * Pow2(d)) % U64_LIMIT) * 2) % U64_LIMIT == (blocks * Pow2(d + 1)) % U64_LIMIT
  {
    ModDouble(blocks * Pow2(d), U64_LIMIT);
    assert blocks * Pow2(d + 1) == blocks * Pow2(d) * 2;
  }

  /** The shift loop of ll_rd_kbytes* and lprocfs_osd_rd_kbytes*. */
  method BlocksToKbytes(blocks: nat, bsize: nat) returns (result: nat)
    requires IsU64(blocks)
    ensures result == KbytesOf(blocks, bsize)
    ensures IsU64(result)
  {
    var blkSize: nat := bsize / 1024;
    result := blocks;
    ghost var done: nat := 0;
    blkSize := blkSize / 2;
    while blkSize != 0
      invariant result == (blocks * Pow2(done)) % U64_LIMIT
      invariant done + BitLength(blkSize) == ShiftCount(bsize)
      decreases blkSize
    {
      ShiftStep(blocks, done);
      result := (result * 2) % U64_LIMIT;
      blkSize := blkSize / 2;
      done := done + 1;
    }
  }

  lemma {:induction false} BitLengthPow2(j: nat)
    ensures BitLength(Pow2(j)) == j + 1
  {
    if j > 0 {
      assert Pow2(j) / 2 == Pow2(j - 1);
      BitLengthPow2(j - 1);
    }
  }

  /** For a power-of-two block size of at least 1 KiB, and no u64
      overflow, the loop computes exactly blocks * bsize / 1024. */
  lemma KbytesPowerOfTwo(blocks: nat, k: nat)
    requires blocks * Pow2(k) < U64_LIMIT
    ensures KbytesOf(blocks, 1024 * Pow2(k)) == blocks * (1024 * Pow2(k)) / 1024
  {
    ShiftCountPow2(k);
    KbytesNoWrap(blocks, 1024 * Pow2(k), k);
    MulDiv1024(blocks, Pow2(k));
  }

  /** When the doubled count fits in a u64 nothing is lost to the wrap. */
  lemma KbytesNoWrap(blocks: nat, bsize: nat, k: nat)
    requires ShiftCount(bsize) == k
    requires blocks * Pow2(k) < U64_LIMIT
    ensures KbytesOf(blocks, bsize) == blocks * Pow2(k)
  {
    var x := blocks * Pow2(k);
    DivModUnique(x, U64_LIMIT, 0, x);
  }

  lemma MulDiv1024(b: nat, p: nat)
    ensures b * (1024 * p) / 1024 == b * p
  {
    assert b * (1024 * p) == (b * p) * 1024;
    DivModUnique(b * (1024 * p), 1024, b * p, 0);
  }

  lemma ShiftCountPow2(k: nat)
    ensures ShiftCount(1024 * Pow2(k)) == k
  {
    var p := Pow2(k);
    DivModUnique(1024 * p, 1024, p, 0);
    assert ShiftCount(1024 * p) == BitLength(p / 2);
    if k > 0 {
      assert p == 2 * Pow2(k - 1);
      DivModUnique(p, 2, Pow2(k - 1), 0);
      BitLengthPow2(k - 1);
    } else {
      assert p / 2 == 0;
    }
  }

  /** Block sizes below 2 KiB leave the count unchanged. */
  lemma KbytesSmallBlocks(blocks: nat, bsize: nat)
    requires IsU64(blocks)
    requires bsize < 2048
    ensures KbytesOf(blocks, bsize) == blocks
  {
    assert bsize / 1024 / 2 == 0;
  }

  /** In general the block size is rounded down to a power of two: the
      factor applied lies in (bsize / 2048, bsize / 1024]. */
  lemma KbytesFactorBounds(bsize: nat)
    requires bsize >= 1024
    ensures Pow2(ShiftCount(bsize)) <= bsize / 1024 < 2 * Pow2(ShiftCount(bsize))
  {
    var b := bsize / 1024;
    if b / 2 != 0 {
      var n := BitLength(b / 2);
      BitLengthBounds(b / 2);
      assert Pow2(n) == 2 * Pow2(n - 1);
    }
  }
}
