/** Supplementary group lists stored as page-sized blocks of gid_t
    (lustre/include/lustre_idmap.h). */
module LustreIdmap {
  import opened Kernel

  const GID_SIZE: int := 4      // sizeof(gid_t)

  /** CFS_NGROUPS_PER_BLOCK for a page of `pageSize` bytes. */
  function NgroupsPerBlock(pageSize: int): (n: int)
    requires pageSize >= GID_SIZE
    ensures n >= 1 && n * GID_SIZE <= pageSize < (n + 1) * GID_SIZE
  {
    pageSize / GID_SIZE
  }

  /** The block and the offset within it that CFS_GROUP_AT uses for the
      i-th group. */
  function GroupSlot(i: nat, n: int): (slot: (nat, nat))
    requires n >= 1
    ensures slot.1 < n
    ensures slot.0 * n + slot.1 == i
  {
    (i / n, i % n)
  }

  /** Distinct groups never share a slot. */
  lemma GroupSlotInjective(i: nat, j: nat, n: int)
    requires n >= 1 && i != j
    ensures GroupSlot(i, n) != GroupSlot(j, n)
  {
  }

  /** The first block holds the first n groups, at their own index. */
  lemma GroupSlotFirstBlock(i: nat, n: int)
    requires n >= 1 && i < n
    ensures GroupSlot(i, n) == (0, i)
  {
  }

  /** The groups in list order: the blocks one after the other. */
  function Flatten(blocks: seq<seq<int>>): seq<int>
  {
    if |blocks| == 0 then [] else blocks[0] + Flatten(blocks[1..])
  }

  predicate WellFormed(blocks: seq<seq<int>>, n: int)
  {
    forall b :: 0 <= b < |blocks| ==> |blocks[b]| == n
  }

  /** CFS_GROUP_AT(gi, i). */
  function GroupAt(blocks: seq<seq<int>>, i: nat, n: int): int
    requires n >= 1 && WellFormed(blocks, n) && i < |blocks| * n
  {
    SlotBound(i, n, |blocks|);
    var (b, o) := GroupSlot(i, n);
    blocks[b][o]
  }

  lemma SlotBound(i: nat, n: int, nblocks: nat)
    requires n >= 1 && i < nblocks * n
    ensures i / n < nblocks
  {
    var q := i / n;
    assert q * n <= i;
    assert (nblocks - q) * n == nblocks * n - q * n;
    assert (nblocks - q) * n > 0;
  }

  /** The blocks hold |blocks| * n groups in all. */
  lemma {:induction false} FlattenLength(blocks: seq<seq<int>>, n: int)
    requires n >= 1 && WellFormed(blocks, n)
    ensures |Flatten(blocks)| == |blocks| * n
  {
    if |blocks| > 0 {
      FlattenLength(blocks[1..], n);
    }
  }

  /** CFS_GROUP_AT(gi, i) is the i-th group of the list the blocks spell
      out. */
  lemma {:induction false} GroupAtIsFlatIndex(blocks: seq<seq<int>>, i: nat, n: int)
    requires n >= 1 && WellFormed(blocks, n) && i < |blocks| * n
    ensures |Flatten(blocks)| == |blocks| * n
    ensures GroupAt(blocks, i, n) == Flatten(blocks)[i]
  {
    FlattenLength(blocks, n);
    if i >= n {
      GroupAtStep(blocks, i, n);
      GroupAtIsFlatIndex(blocks[1..], i - n, n);
      FlattenStep(blocks, i, n);
    } else {
      GroupAtHead(blocks, i, n);
    }
  }

  /** Within the first block, CFS_GROUP_AT(i) is that block's i-th entry,
      which is also the list's i-th. */
  lemma GroupAtHead(blocks: seq<seq<int>>, i: nat, n: int)
    requires n >= 1 && WellFormed(blocks, n) && i < n && i < |blocks| * n
    ensures |blocks| > 0
    ensures GroupAt(blocks, i, n) == blocks[0][i]
    ensures i < |Flatten(blocks)| && Flatten(blocks)[i] == blocks[0][i]
  {
    GroupSlotFirstBlock(i, n);
    var tail := Flatten(blocks[1..]);
    assert Flatten(blocks) == blocks[0] + tail;
  }

  /** Past the first block, CFS_GROUP_AT(i) is CFS_GROUP_AT(i - n) of the
      remaining blocks. */
  lemma GroupAtStep(blocks: seq<seq<int>>, i: nat, n: int)
    requires n >= 1 && WellFormed(blocks, n) && n <= i < |blocks| * n
    ensures |blocks| > 0 && i - n < |blocks[1..]| * n
    ensures GroupAt(blocks, i, n) == GroupAt(blocks[1..], i - n, n)
  {
    DivStep(i, n);
  }

  /** Past the first block, the i-th group of the list is the (i - n)-th
      of the rest. */
  lemma FlattenStep(blocks: seq<seq<int>>, i: nat, n: int)
    requires |blocks| > 0 && |blocks[0]| == n && n <= i < |Flatten(blocks)|
    ensures i - n < |Flatten(blocks[1..])|
    ensures Flatten(blocks)[i] == Flatten(blocks[1..])[i - n]
  {
    var tail := Flatten(blocks[1..]);
    assert Flatten(blocks) == blocks[0] + tail;
  }

  lemma DivStep(i: int, n: int)
    requires n >= 1 && i >= n
    ensures (i - n) / n == i / n - 1 && (i - n) % n == i % n
  {
    var q := i / n;
    var r := i % n;
    assert i - n == (q - 1) * n + r;
    DivModUnique(i - n, n, q - 1, r);
  }
}
