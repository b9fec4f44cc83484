/** RDMA descriptors: a key and an array of (length, address) fragments,
    of which the first `nfrags` are in use; their total size and the
    in-place consumption of a fragment as an RDMA progresses
    (lnet/klnds/o2iblnd/o2iblnd.h). */
module IblndRdma {
  import opened Kernel

  /** kib_rdma_frag_t: rf_nob is a u32, rf_addr a u64. */
  datatype RdmaFrag = RdmaFrag(nob: nat, addr: nat)

  predicate FragOk(f: RdmaFrag)
  {
    IsU32(f.nob) && IsU64(f.addr)
  }

  /** Total bytes described by a run of fragments. */
  function SumNob(fs: seq<RdmaFrag>): (total: nat)
    ensures forall i :: 0 <= i < |fs| ==> fs[i].nob <= total
  {
    if |fs| == 0 then 0 else SumNob(fs[..|fs| - 1]) + fs[|fs| - 1].nob
  }

  lemma {:induction false} SumNobConcat(a: seq<RdmaFrag>, b: seq<RdmaFrag>)
    ensures SumNob(a + b) == SumNob(a) + SumNob(b)
  {
    if |b| > 0 {
      SumNobConcat(a, b[..|b| - 1]);
      assert (a + b)[..|a + b| - 1] == a + b[..|b| - 1];
    } else {
      assert a + b == a;
    }
  }

  /** Replacing one fragment changes the total by the difference of the two lengths. */
  lemma SumNobUpdate(fs: seq<RdmaFrag>, i: int, f: RdmaFrag)
    requires 0 <= i < |fs|
    ensures SumNob(fs[i := f]) == SumNob(fs) - fs[i].nob + f.nob
  {
    assert fs == fs[..i] + [fs[i]] + fs[i + 1..];
    assert fs[i := f] == fs[..i] + [f] + fs[i + 1..];
    SumNobConcat(fs[..i] + [fs[i]], fs[i + 1..]);
    SumNobConcat(fs[..i] + [f], fs[i + 1..]);
    SumNobConcat(fs[..i], [fs[i]]);
    SumNobConcat(fs[..i], [f]);
  }

  /** Bytes still to transfer when the RDMA has reached fragment `index`. */
  function Remaining(fs: seq<RdmaFrag>, index: int): nat
    requires 0 <= index <= |fs|
  {
    SumNob(fs[index..])
  }

  /** The fragments after kiblnd_rd_consume_frag(rd, index, nob), and the
      index it returns: a partial consume advances the fragment's address
      (u64 arithmetic) and shortens it, otherwise the cursor moves on. */
  function ConsumeFrags(fs: seq<RdmaFrag>, index: int, nob: nat): (seq<RdmaFrag>, int)
    requires 0 <= index < |fs|
  {
    if nob < fs[index].nob then
      (fs[index := RdmaFrag(fs[index].nob - nob, (fs[index].addr + nob) % U64_LIMIT)], index)
    else
      (fs, index + 1)
  }

  /** What one consume step does to the descriptor: only fragment `index`
      can change, it keeps its place, the cursor never goes back, and the
      bytes left to transfer shrink by exactly min(nob, rf_nob). */
  lemma {:induction false} ConsumeFragsProgress(fs: seq<RdmaFrag>, index: int, nob: nat)
    requires 0 <= index < |fs|
    ensures var (fs', index') := ConsumeFrags(fs, index, nob);
      && |fs'| == |fs|
      && (forall j :: 0 <= j < |fs| && j != index ==> fs'[j] == fs[j])
      && (index' == index || index' == index + 1)
      && (nob < fs[index].nob <==> index' == index)
      && (index' == index ==> fs'[index].nob == fs[index].nob - nob > 0)
      && (index' == index + 1 ==> fs' == fs && nob >= fs[index].nob)
      && Remaining(fs', index') == Remaining(fs, index) - (if nob < fs[index].nob then nob else fs[index].nob)
      && SumNob(fs') == SumNob(fs) - (if nob < fs[index].nob then nob else 0)
  {
    var (fs', index') := ConsumeFrags(fs, index, nob);
    if nob < fs[index].nob {
      var f := RdmaFrag(fs[index].nob - nob, (fs[index].addr + nob) % U64_LIMIT);
      SumNobUpdate(fs, index, f);
      SumNobUpdate(fs[index..], 0, f);
      assert fs'[index..] == fs[index..][0 := f];
    } else {
      assert fs[index..] == [fs[index]] + fs[index + 1..];
      SumNobConcat([fs[index]], fs[index + 1..]);
      assert [fs[index]][..0] == [];
    }
  }

  /** kib_rdma_desc_t: the key and the fragment array; rd_nfrags of them
      are in use. */
  class RdmaDesc {
    var key: int                     // rd_key (u32)
    var nfrags: int                  // rd_nfrags (u32)
    const frags: array<RdmaFrag>     // rd_frags[]

    predicate Valid()
      reads this, frags
    {
      0 <= nfrags <= frags.Length
      && IsU32(key)
      && forall i :: 0 <= i < frags.Length ==> FragOk(frags[i])
    }

    constructor (key: int, fs: seq<RdmaFrag>)
      requires IsU32(key)
      requires forall i :: 0 <= i < |fs| ==> FragOk(fs[i])
      ensures Valid()
      ensures this.key == key && nfrags == |fs| && frags[..] == fs && fresh(frags)
    {
      this.key := key;
      nfrags := |fs|;
      frags := new RdmaFrag[|fs|](i requires 0 <= i < |fs| => fs[i]);
    }

    /** kiblnd_rd_size: the bytes described by the fragments in use. */
    method Size() returns (size: int)
      requires Valid()
      ensures size == SumNob(frags[..nfrags])
      ensures forall i :: 0 <= i < nfrags ==> frags[i].nob <= size
    {
      var i := 0;
      size := 0;
      while i < nfrags
        invariant 0 <= i <= nfrags
        invariant size == SumNob(frags[..i])
      {
        assert frags[..i + 1][..i] == frags[..i];
        size := size + frags[i].nob;
        i := i + 1;
      }
      assert frags[..nfrags][..nfrags] == frags[..nfrags];
    }

    /** kiblnd_rd_frag_addr / kiblnd_rd_frag_size / kiblnd_rd_frag_key. */
    function FragAddr(index: int): (addr: int)
      requires Valid() && 0 <= index < frags.Length
      reads this, frags
      ensures IsU64(addr)
    {
      frags[index].addr
    }

    function FragSize(index: int): (nob: int)
      requires Valid() && 0 <= index < frags.Length
      reads this, frags
      ensures IsU32(nob)
    {
      frags[index].nob
    }

    function FragKey(index: int): (k: int)
      requires Valid()
      reads this, frags
      ensures IsU32(k) && k == key
    {
      key
    }

    /** kiblnd_rd_consume_frag: account for `nob` bytes transferred from
        fragment `index` and return the fragment to continue from. */
    method ConsumeFrag(index: int, nob: int) returns (next: int)
      requires Valid()
      requires 0 <= index < nfrags
      requires IsU32(nob)
      modifies frags
      ensures Valid()
      ensures (frags[..], next) == ConsumeFrags(old(frags[..]), index, nob)
    {
      var f := frags[index];
      if nob < f.nob {
        frags[index] := RdmaFrag(f.nob - nob, (f.addr + nob) % U64_LIMIT);
        next := index;
      } else {
        next := index + 1;
      }
    }
  }

  /** A descriptor of two fragments, 100 bytes at 0 and 50 at 200: taking
      40 bytes then 60 bytes finishes the first fragment and leaves the
      whole second one. */
  method ConsumeScenario()
  {
    var rd := new RdmaDesc(7, [RdmaFrag(100, 0), RdmaFrag(50, 200)]);
    var size := rd.Size();
    assert size == 150 by {
      var fs := [RdmaFrag(100, 0), RdmaFrag(50, 200)];
      assert rd.frags[..rd.nfrags] == fs;
      assert fs[..1] == [RdmaFrag(100, 0)] && fs[..1][..0] == [];
    }
    var i := rd.ConsumeFrag(0, 40);
    assert i == 0 && rd.frags[0] == RdmaFrag(60, 40);
    i := rd.ConsumeFrag(i, 60);
    assert i == 1 && rd.frags[..] == [RdmaFrag(60, 40), RdmaFrag(50, 200)];
  }
}
