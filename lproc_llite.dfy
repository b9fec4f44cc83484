/** The llite procfs handlers of one client mount: the statfs-based KiB
    readers, the read-ahead switch, the read-ahead window in MiB, the unit
    chosen for each file-operation counter, and the cursor with which
    dump_page_cache walks the superblock's page list
    (lustre/llite/lproc_llite.c). */
module LprocLlite {
  import opened Kernel
  import opened LprocStatfs

  /** ll_rd_kbytestotal / ll_rd_kbytesfree / ll_rd_kbytesavail:
      ll_statfs_internal's error is returned as is; on success the chosen
      count is converted to KiB by the shift loop. */
  method RdKbytes(field: KbytesField, statfsRc: int, osfs: ObdStatfs) returns (r: ProcRead)
    requires StatfsOk(osfs)
    ensures statfsRc != 0 ==> r == Failed(statfsRc)
    ensures statfsRc == 0 ==> r == Printed(KbytesOf(FieldBlocks(osfs, field), osfs.bsize))
  {
    if statfsRc != 0 {
      return Failed(statfsRc);
    }
    var kb := BlocksToKbytes(FieldBlocks(osfs, field), osfs.bsize);
    r := Printed(kb);
  }

  // ---------------------------------------------------------------------
  // read_ahead: one bit of ll_flags

  /** The flags after writing `v` to read_ahead: a non-zero value sets the
      LL_SBI_READAHEAD bit(s), zero clears them. */
  function SetReadAhead(flags: bv32, raBit: bv32, v: int): bv32
  {
    if v != 0 then flags | raBit else flags & !raBit
  }

  /** ll_rd_read_ahead: the value printed. */
  function RdReadAhead(flags: bv32, raBit: bv32): (val: int)
    ensures val == 0 || val == 1
    ensures val == 1 <==> flags & raBit != 0
  {
    if flags & raBit != 0 then 1 else 0
  }

  /** Reading back after a write reports whether the written value was
      non-zero. */
  lemma ReadAheadRoundTrip(flags: bv32, raBit: bv32, v: int)
    requires raBit != 0
    ensures RdReadAhead(SetReadAhead(flags, raBit, v), raBit) == (if v != 0 then 1 else 0)
  {
    if v != 0 {
      SetBit(flags, raBit);
    } else {
      ClearBit(flags, raBit);
    }
  }

  /** A write to read_ahead leaves every other flag bit as it was. */
  lemma ReadAheadKeepsOtherBits(flags: bv32, raBit: bv32, v: int)
    ensures SetReadAhead(flags, raBit, v) & !raBit == flags & !raBit
  {
    if v != 0 {
      SetBit(flags, raBit);
    } else {
      ClearBit(flags, raBit);
    }
  }

  lemma SetBit(a: bv32, b: bv32)
    ensures (a | b) & b == b && (a | b) & !b == a & !b
  {
  }

  lemma ClearBit(a: bv32, b: bv32)
    ensures (a & !b) & b == 0 && (a & !b) & !b == a & !b
  {
  }

  // ---------------------------------------------------------------------
  // max_read_ahead_mb: ll_max_read_ahead_pages shown and set in MiB

  /** ll_rd_max_read_ahead_mb: (pages << PAGE_CACHE_SHIFT) >> 20 computed
      in the 64-bit unsigned long and printed through a 32-bit unsigned. */
  function RdMaxReadAheadMb(pages: nat, pcs: nat): (mb: nat)
    ensures IsU32(mb)
  {
    ((pages * Pow2(pcs)) % U64_LIMIT / MIB) % U32_LIMIT
  }

  /** The page count ll_wr_max_read_ahead_mb stores, as written: `val` is a
      32-bit int, so `val << 20` wraps for val >= 2048; the arithmetic
      shift right then floors, and the result is sign-extended into the
      unsigned long. */
  function MbToPagesAsWritten(val: int, pcs: nat): (pages: nat)
    ensures IsU64(pages)
  {
    (Int32Wrap(val * MIB) / Pow2(pcs)) % U64_LIMIT
  }

  /** The page count evidently intended: val MiB in pages. */
  function MbToPages(val: nat, pcs: nat): nat
  {
    DivBounds(val * MIB, Pow2(pcs));
    val * MIB / Pow2(pcs)
  }

  /** 1 << 20. */
  const MIB: nat := 0x10_0000

  /** For page sizes up to 1 MiB every accepted value reads back unchanged. */
  lemma MaxReadAheadRoundTrip(val: nat, pcs: nat)
    requires val <= INT32_MAX && pcs <= 20
    ensures IsU64(MbToPages(val, pcs))
    ensures RdMaxReadAheadMb(MbToPages(val, pcs), pcs) == val
  {
    var pages := MbToPages(val, pcs);
    MbToPagesExact(val, pcs);
    PagesFit(pages, Pow2(pcs), val);
    ReadBack(pages, pcs, val);
  }

  /** A page count worth at most INT32_MAX MiB fits in a u64. */
  lemma PagesFit(pages: nat, p: nat, val: nat)
    requires p >= 1 && pages * p == val * MIB && val <= INT32_MAX
    ensures IsU64(pages)
  {
    MulBound(val, INT32_MAX, MIB);
    MulBound(1, p, pages);
  }

  /** A page count worth exactly val MiB reads back as val. */
  lemma ReadBack(pages: nat, pcs: nat, val: nat)
    requires pages * Pow2(pcs) == val * MIB && val <= INT32_MAX
    ensures RdMaxReadAheadMb(pages, pcs) == val
  {
    var x := pages * Pow2(pcs);
    MulBound(val, INT32_MAX, MIB);
    DivModUnique(x, U64_LIMIT, 0, x);
    DivModUnique(x, MIB, val, 0);
    DivModUnique(val, U32_LIMIT, 0, val);
  }

  /** For page sizes up to 1 MiB the division is exact: val MiB are
      val * 2^(20 - pcs) pages. */
  lemma MbToPagesExact(val: nat, pcs: nat)
    requires pcs <= 20
    ensures MbToPages(val, pcs) == val * Pow2(20 - pcs)
    ensures MbToPages(val, pcs) * Pow2(pcs) == val * MIB
  {
    var p := Pow2(pcs);
    var q := Pow2(20 - pcs);
    Pow2Add(pcs, 20 - pcs);
    Pow2Twenty();
    assert MIB == p * q;
    var pages := val * q;
    MulAssoc(val, q, p);
    DivModUnique(val * MIB, p, pages, 0);
  }

  lemma MulAssoc(a: int, b: int, c: int)
    ensures a * (b * c) == (a * b) * c
  {
  }

  lemma MulBound(a: nat, b: nat, c: nat)
    requires a <= b
    ensures a * c <= b * c
  {
  }

  lemma Pow2Twenty()
    ensures Pow2(20) == MIB
  {
    Pow2Add(10, 10);
    assert Pow2(10) == 1024;
  }

  /** Below 2048 MiB nothing wraps, and the code as written stores the
      intended page count. */
  lemma AsWrittenAgreesBelow2048(val: nat, pcs: nat)
    requires val < 2048
    ensures MbToPagesAsWritten(val, pcs) == MbToPages(val, pcs)
  {
    Pow2Twenty();
    assert val * MIB <= INT32_MAX;
    var pages := val * MIB / Pow2(pcs);
    assert pages <= val * MIB;
    DivModUnique(pages, U64_LIMIT, 0, pages);
  }

  /** Writing 2048 with 4 KiB pages (a machine with at least 2 GiB of RAM
      accepts it) stores 2^64 - 2^19 pages, and max_read_ahead_mb then
      reads back 4294965248. */
  lemma AsWrittenOverflow()
    ensures MbToPagesAsWritten(2048, 12) == U64_LIMIT - 0x8_0000
    ensures RdMaxReadAheadMb(MbToPagesAsWritten(2048, 12), 12) == 4294965248
  {
    Pow2Twenty();
    assert Pow2(12) == 4096 by {
      Pow2Add(2, 10);
      assert Pow2(10) == 1024;
    }
    assert Int32Wrap(2048 * MIB) == INT32_MIN;
    DivModUnique(INT32_MIN, 4096, -0x8_0000, 0);
    DivModUnique(-0x8_0000, U64_LIMIT, -1, U64_LIMIT - 0x8_0000);
    var pages := U64_LIMIT - 0x8_0000;
    DivModUnique(pages * 4096, U64_LIMIT, 4095, U64_LIMIT - 0x8000_0000);
    DivModUnique(U64_LIMIT - 0x8000_0000, 0x10_0000, 0xfff_ffff_f800, 0);
    DivModUnique(0xfff_ffff_f800, U32_LIMIT, 0xfff, 4294965248);
  }

  // ---------------------------------------------------------------------
  // file-operation counters

  /** The LPROCFS_* bits a counter's type is built from. */
  datatype CntrFlag = AvgMinMax | Stddev | TypeRegs | TypeBytes | TypePages

  /** The unit string handed to lprocfs_counter_init: "regs", "bytes",
      "pages" or NULL. */
  datatype CounterUnit = Regs | Bytes | Pages | NoUnit

  /** REGS wins over BYTES, which wins over PAGES; none of them gives no unit. */
  function UnitOf(t: set<CntrFlag>): (u: CounterUnit)
    ensures u == Regs <==> TypeRegs in t
    ensures u == Bytes <==> TypeRegs !in t && TypeBytes in t
    ensures u == Pages <==> TypeRegs !in t && TypeBytes !in t && TypePages in t
    ensures u == NoUnit <==> TypeRegs !in t && TypeBytes !in t && TypePages !in t
  {
    if TypeRegs in t then Regs
    else if TypeBytes in t then Bytes
    else if TypePages in t then Pages
    else NoUnit
  }

  /** The configuration bits never influence the unit. */
  lemma UnitIgnoresConfig(t: set<CntrFlag>)
    ensures UnitOf(t + {AvgMinMax, Stddev}) == UnitOf(t - {AvgMinMax, Stddev})
  {
    assert TypeRegs in t + {AvgMinMax, Stddev} <==> TypeRegs in t - {AvgMinMax, Stddev};
    assert TypeBytes in t + {AvgMinMax, Stddev} <==> TypeBytes in t - {AvgMinMax, Stddev};
    assert TypePages in t + {AvgMinMax, Stddev} <==> TypePages in t - {AvgMinMax, Stddev};
  }

  /** One row of llite_opcode_table; the LPROC_LL_* counter index is the
      row's position. */
  datatype OpcodeEntry = OpcodeEntry(flags: set<CntrFlag>, name: string)

  const LliteOpcodeTable: seq<OpcodeEntry> := [
    OpcodeEntry({TypeRegs}, "dirty_pages_hits"),
    OpcodeEntry({TypeRegs}, "dirty_pages_misses"),
    OpcodeEntry({AvgMinMax, TypePages}, "writeback_from_writepage"),
    OpcodeEntry({AvgMinMax, TypePages}, "writeback_from_pressure"),
    OpcodeEntry({AvgMinMax, TypePages}, "writeback_ok_pages"),
    OpcodeEntry({AvgMinMax, TypePages}, "writeback_failed_pages"),
    OpcodeEntry({AvgMinMax, TypeBytes}, "read_bytes"),
    OpcodeEntry({AvgMinMax, TypeBytes}, "write_bytes"),
    OpcodeEntry({AvgMinMax, TypePages}, "brw_read"),
    OpcodeEntry({AvgMinMax, TypePages}, "brw_write"),
    OpcodeEntry({TypeRegs}, "ioctl"),
    OpcodeEntry({TypeRegs}, "open"),
    OpcodeEntry({TypeRegs}, "close"),
    OpcodeEntry({TypeRegs}, "mmap"),
    OpcodeEntry({TypeRegs}, "seek"),
    OpcodeEntry({TypeRegs}, "fsync"),
    OpcodeEntry({TypeRegs}, "setattr"),
    OpcodeEntry({TypeRegs}, "punch"),
    OpcodeEntry({TypeRegs}, "getattr"),
    OpcodeEntry({TypeRegs}, "statfs"),
    OpcodeEntry({TypeRegs}, "alloc_inode"),
    OpcodeEntry({AvgMinMax, TypePages}, "direct_read"),
    OpcodeEntry({AvgMinMax, TypePages}, "direct_write")
  ]

  /** The arguments of one lprocfs_counter_init call. */
  datatype CounterConfig = CounterConfig(index: nat, avgMinMax: bool, name: string, unit: CounterUnit)

  /** The counter-init loop of lprocfs_register_mountpoint. */
  method InitCounters(table: seq<OpcodeEntry>) returns (cfg: seq<CounterConfig>)
    ensures |cfg| == |table|
    ensures forall i :: 0 <= i < |table| ==>
              cfg[i] == CounterConfig(i, AvgMinMax in table[i].flags, table[i].name, UnitOf(table[i].flags))
  {
    cfg := [];
    var id := 0;
    while id < |table|
      invariant 0 <= id <= |table| && |cfg| == id
      invariant forall i :: 0 <= i < id ==>
                  cfg[i] == CounterConfig(i, AvgMinMax in table[i].flags, table[i].name, UnitOf(table[i].flags))
    {
      var t := table[id].flags;
      var unit := NoUnit;
      if TypeRegs in t {
        unit := Regs;
      } else {
        if TypeBytes in t {
          unit := Bytes;
        } else {
          if TypePages in t {
            unit := Pages;
          }
        }
      }
      cfg := cfg + [CounterConfig(id, AvgMinMax in t, table[id].name, unit)];
      id := id + 1;
    }
  }

  /** Every llite counter gets a unit, the two byte counters are exactly
      read_bytes and write_bytes, and only the averaged counters carry
      AVGMINMAX, none of which counts in "regs". */
  lemma LliteTableUnits()
    ensures |LliteOpcodeTable| == 23
    ensures forall i :: 0 <= i < |LliteOpcodeTable| ==> UnitOf(LliteOpcodeTable[i].flags) != NoUnit
    ensures forall i :: 0 <= i < |LliteOpcodeTable| ==>
              (UnitOf(LliteOpcodeTable[i].flags) == Bytes <==> i == 6 || i == 7)
    ensures forall i :: 0 <= i < |LliteOpcodeTable| && AvgMinMax in LliteOpcodeTable[i].flags ==>
              UnitOf(LliteOpcodeTable[i].flags) != Regs
  {
  }

  // ---------------------------------------------------------------------
  // dump_page_cache: a dummy ll_async_page walks ll_pglist

  /** An ll_async_page as the page-list walk sees it: whether it has a
      page, and llap_magic, which the cursor uses as its state (0 before
      the banner, 1 while walking, 2 at the end). */
  class Llap {
    const hasPage: bool
    var magic: int

    constructor (hasPage: bool, magic: int)
      ensures this.hasPage == hasPage && this.magic == magic
    {
      this.hasPage := hasPage;
      this.magic := magic;
    }
  }

  /** Index of the first entry at or after `from` that has a page. */
  function FirstPaged(s: seq<Llap>, from: nat): (r: Option<nat>)
    requires from <= |s|
    ensures r.Some? ==> from <= r.value < |s| && s[r.value].hasPage
                        && forall k :: from <= k < r.value ==> !s[k].hasPage
    ensures r.None? ==> forall k :: from <= k < |s| ==> !s[k].hasPage
    decreases |s| - from
  {
    if from == |s| then None
    else if s[from].hasPage then Some(from)
    else FirstPaged(s, from + 1)
  }

  function RemoveAt<T>(s: seq<T>, i: nat): seq<T>
    requires i < |s|
  {
    s[..i] + s[i + 1..]
  }

  function InsertAt<T>(s: seq<T>, i: nat, x: T): seq<T>
    requires i <= |s|
  {
    s[..i] + [x] + s[i..]
  }

  ghost function IndexOf<T>(s: seq<T>, x: T): (i: nat)
    requires x in s
    ensures i < |s| && s[i] == x
    ensures forall k :: 0 <= k < i ==> s[k] != x
  {
    if s[0] == x then 0 else 1 + IndexOf(s[1..], x)
  }

  predicate Distinct<T(==)>(s: seq<T>)
  {
    forall i, j :: 0 <= i < j < |s| ==> s[i] != s[j]
  }

  /** In a list without duplicates an element's position is its index. */
  lemma IndexOfDistinct<T>(s: seq<T>, pos: nat)
    requires pos < |s| && Distinct(s)
    ensures IndexOf(s, s[pos]) == pos
  {
    var i := IndexOf(s, s[pos]);
    assert s[i] == s[pos];
  }

  /** Unlinking one entry of a list without repeats leaves a list without
      repeats that holds every other entry. */
  lemma RemoveAtDistinct<T>(s: seq<T>, i: nat)
    requires i < |s| && Distinct(s)
    ensures Distinct(RemoveAt(s, i))
    ensures forall x :: x in RemoveAt(s, i) <==> x in s && x != s[i]
  {
    var r := RemoveAt(s, i);
    forall a, b | 0 <= a < b < |r|
      ensures r[a] != r[b]
    {
      var a' := if a < i then a else a + 1;
      var b' := if b < i then b else b + 1;
      assert r[a] == s[a'] && r[b] == s[b'];
    }
    forall x | x in s && x != s[i]
      ensures x in r
    {
      var k :| 0 <= k < |s| && s[k] == x;
      if k < i {
        assert r[k] == x;
      } else {
        assert r[k - 1] == x;
      }
    }
    forall k | 0 <= k < |r|
      ensures r[k] in s && r[k] != s[i]
    {
      var k' := if k < i then k else k + 1;
      assert r[k] == s[k'];
    }
  }

  /** Linking a new entry into a list without repeats keeps it without repeats. */
  lemma InsertAtDistinct<T>(s: seq<T>, i: nat, x: T)
    requires i <= |s| && Distinct(s) && x !in s
    ensures Distinct(InsertAt(s, i, x))
  {
    var t := InsertAt(s, i, x);
    forall a, b | 0 <= a < b < |t|
      ensures t[a] != t[b]
    {
      if b == i {
        assert t[a] == s[a];
      } else if a == i {
        assert t[b] == s[b - 1];
      } else {
        var a' := if a < i then a else a - 1;
        var b' := if b < i then b else b - 1;
        assert t[a] == s[a'] && t[b] == s[b'];
      }
    }
  }

  /** Number of entries that carry a page. */
  function CountPaged(s: seq<Llap>): nat
  {
    if |s| == 0 then 0 else CountPaged(s[..|s| - 1]) + (if s[|s| - 1].hasPage then 1 else 0)
  }

  lemma {:induction false} CountPagedConcat(a: seq<Llap>, b: seq<Llap>)
    ensures CountPaged(a + b) == CountPaged(a) + CountPaged(b)
  {
    if |b| > 0 {
      CountPagedConcat(a, b[..|b| - 1]);
      assert (a + b)[..|a + b| - 1] == a + b[..|b| - 1];
    } else {
      assert a + b == a;
    }
  }

  lemma {:induction false} CountPagedNone(s: seq<Llap>)
    requires forall k :: 0 <= k < |s| ==> !s[k].hasPage
    ensures CountPaged(s) == 0
  {
    if |s| > 0 {
      CountPagedNone(s[..|s| - 1]);
    }
  }

  /** Moving the cursor from position d to just after entry j, the next
      entry with a page: the list keeps every other entry in its order,
      the displayed entry now sits just before the cursor, the part behind
      the cursor is unchanged, and exactly one more paged entry lies before
      the cursor than before the move. */
  lemma {:induction false} CursorMove(s: seq<Llap>, d: nat, j: nat)
    requires d < |s| && !s[d].hasPage
    requires FirstPaged(s, d + 1) == Some(j)
    ensures var t := InsertAt(RemoveAt(s, d), j, s[d]);
      && |t| == |s| && t[j] == s[d] && t[j - 1] == s[j]
      && t[..j] == s[..d] + s[d + 1..j + 1]
      && t[j + 1..] == s[j + 1..]
      && RemoveAt(t, j) == RemoveAt(s, d)
      && CountPaged(t[..j]) == CountPaged(s[..d]) + 1
  {
    CursorShape(s, d, j);
    PassedOnePage(s, d, j);
  }

  /** Moving the element at d to just behind position j > d. */
  lemma CursorShape<T>(s: seq<T>, d: nat, j: nat)
    requires d < j < |s|
    ensures var t := InsertAt(RemoveAt(s, d), j, s[d]);
      && |t| == |s| && t[j] == s[d] && t[j - 1] == s[j]
      && t[..j] == s[..d] + s[d + 1..j + 1]
      && t[j + 1..] == s[j + 1..]
      && RemoveAt(t, j) == RemoveAt(s, d)
  {
    var r := RemoveAt(s, d);
    var t := InsertAt(r, j, s[d]);
    assert r[..j] == s[..d] + s[d + 1..j + 1];
    assert t[..j] == r[..j];
    assert t[j + 1..] == r[j..] == s[j + 1..];
    assert RemoveAt(t, j) == r;
  }

  /** Between the cursor and the next paged entry there are no pages, so
      the entries the cursor passes hold exactly one. */
  lemma PassedOnePage(s: seq<Llap>, d: nat, j: nat)
    requires d < |s|
    requires FirstPaged(s, d + 1) == Some(j)
    ensures CountPaged(s[..d] + s[d + 1..j + 1]) == CountPaged(s[..d]) + 1
  {
    assert s[d + 1..j + 1] == s[d + 1..j] + [s[j]];
    CountPagedConcat(s[..d], s[d + 1..j + 1]);
    CountPagedConcat(s[d + 1..j], [s[j]]);
    CountPagedNone(s[d + 1..j]);
    assert [s[j]][..0] == [];
  }

  /** The fields of ll_sb_info the handlers above touch. */
  class SbInfo {
    var flags: bv32                // ll_flags
    var maxReadAheadPages: int     // ll_max_read_ahead_pages
    var pglist: seq<Llap>          // ll_pglist, head excluded, in list order

    ghost predicate Valid()
      reads this
    {
      Distinct(pglist) && maxReadAheadPages >= 0
    }

    constructor (flags: bv32, pglist: seq<Llap>)
      requires Distinct(pglist)
      ensures Valid()
      ensures this.flags == flags && this.pglist == pglist && maxReadAheadPages == 0
    {
      this.flags := flags;
      this.pglist := pglist;
      maxReadAheadPages := 0;
    }

    /** ll_wr_read_ahead: `parsed` is sscanf's result, None when the
        buffer does not start with an integer. */
    method WrReadAhead(parsed: Option<int>, count: int, raBit: bv32) returns (rc: int)
      modifies this
      ensures parsed.None? ==> rc == -EINVAL && flags == old(flags)
      ensures parsed.Some? ==> rc == count && flags == SetReadAhead(old(flags), raBit, parsed.value)
      ensures maxReadAheadPages == old(maxReadAheadPages) && pglist == old(pglist)
    {
      if parsed.None? {
        return -EINVAL;
      }
      if parsed.value != 0 {
        flags := flags | raBit;
      } else {
        flags := flags & !raBit;
      }
      rc := count;
    }

    /** ll_wr_max_read_ahead_mb: `helperRc` and `val` come from
        lprocfs_write_helper, `physMb` is (num_physpages << PAGE_SHIFT) >> 20
        and `pcs` is PAGE_CACHE_SHIFT. */
    method WrMaxReadAheadMb(helperRc: int, val: int, count: int, physMb: nat, pcs: nat)
      returns (rc: int)
      requires INT32_MIN <= val <= INT32_MAX
      requires Valid()
      modifies this
      ensures Valid()
      ensures helperRc != 0 ==> rc == helperRc && maxReadAheadPages == old(maxReadAheadPages)
      ensures helperRc == 0 && (val < 0 || val > physMb) ==>
                rc == -ERANGE && maxReadAheadPages == old(maxReadAheadPages)
      ensures helperRc == 0 && 0 <= val <= physMb ==>
                rc == count && maxReadAheadPages == MbToPages(val, pcs)
      ensures flags == old(flags) && pglist == old(pglist)
    {
      if helperRc != 0 {
        return helperRc;
      }
      if val < 0 || val > physMb {
        return -ERANGE;
      }
      maxReadAheadPages := MbToPages(val, pcs);
      rc := count;
    }

    /** llite_pglist_next_llap, walking on from position `from`: entries
        without a page are skipped and the end of the list (the list head)
        gives None. */
    method NextLlap(from: nat) returns (r: Option<nat>)
      requires from <= |pglist|
      ensures r == FirstPaged(pglist, from)
    {
      var i := from;
      while i < |pglist|
        invariant from <= i <= |pglist|
        invariant FirstPaged(pglist, i) == FirstPaged(pglist, from)
      {
        if pglist[i].hasPage {
          return Some(i);
        }
        i := i + 1;
      }
      return None;
    }

    /** llite_dump_pgcache_seq_open: `allocOk` says whether the dummy could
        be allocated, `seqOpenRc` is seq_open's result. On success a dummy
        without a page, in the banner state, heads the list. */
    method SeqOpen(allocOk: bool, seqOpenRc: int) returns (rc: int, dummy: Llap?)
      requires Valid()
      modifies this
      ensures Valid()
      ensures !allocOk ==> rc == -ENOMEM && dummy == null && pglist == old(pglist)
      ensures allocOk && seqOpenRc != 0 ==> rc == seqOpenRc && dummy == null && pglist == old(pglist)
      ensures allocOk && seqOpenRc == 0 ==>
                rc == 0 && dummy != null && fresh(dummy) && !dummy.hasPage && dummy.magic == 0
                && pglist == [dummy] + old(pglist)
      ensures flags == old(flags) && maxReadAheadPages == old(maxReadAheadPages)
    {
      if !allocOk {
        return -ENOMEM, null;
      }
      var llap := new Llap(false, 0);
      if seqOpenRc != 0 {
        return seqOpenRc, null;
      }
      pglist := [llap] + pglist;
      rc, dummy := 0, llap;
    }

    /** llite_dump_pgcache_seq_start: nothing more to show once the cursor
        reached the end. */
    predicate SeqStart(dummy: Llap)
      reads dummy
    {
      dummy.magic != 2
    }

    /** llite_dump_pgcache_seq_next. After the banner only the state
        changes. Otherwise the cursor is unlinked and, if a paged entry
        follows it, relinked just after that entry; the walk goes on iff
        another paged entry follows that one, and when it stops the cursor
        enters the end state. */
    method SeqNext(dummy: Llap) returns (more: bool)
      requires Valid() && dummy in pglist && !dummy.hasPage
      modifies this, dummy
      ensures Valid()
      ensures !more ==> !SeqStart(dummy)
      ensures old(SeqStart(dummy)) ==> (more <==> SeqStart(dummy))
      ensures old(dummy.magic) == 0 ==> pglist == old(pglist) && dummy.magic == 1
      ensures old(dummy.magic) != 0 ==>
                var d := IndexOf(old(pglist), dummy);
                match FirstPaged(old(pglist), d + 1)
                case None =>
                  pglist == RemoveAt(old(pglist), d) && !more
                case Some(j) =>
                  pglist == InsertAt(RemoveAt(old(pglist), d), j, dummy)
                  && (more <==> FirstPaged(pglist, j + 1).Some?)
                  && (more ==> dummy.magic == old(dummy.magic))
      ensures flags == old(flags) && maxReadAheadPages == old(maxReadAheadPages)
    {
      if dummy.magic == 0 {
        dummy.magic := 1;
        return true;
      }
      var pos :| 0 <= pos < |pglist| && pglist[pos] == dummy;
      IndexOfDistinct(pglist, pos);
      more := MoveCursor(dummy, pos);
    }

    /** The list surgery of llite_dump_pgcache_seq_next for the cursor at
        `pos`: unlink it, relink it after the next paged entry if there is
        one, and enter the end state when no paged entry follows. */
    method MoveCursor(dummy: Llap, pos: nat) returns (more: bool)
      requires Valid() && pos < |pglist| && pglist[pos] == dummy && !dummy.hasPage
      modifies this, dummy
      ensures Valid()
      ensures match FirstPaged(old(pglist), pos + 1)
        case None =>
          pglist == RemoveAt(old(pglist), pos) && !more && dummy.magic == 2
        case Some(j) =>
          pglist == InsertAt(RemoveAt(old(pglist), pos), j, dummy)
          && (more <==> FirstPaged(pglist, j + 1).Some?)
          && dummy.magic == (if more then old(dummy.magic) else 2)
      ensures flags == old(flags) && maxReadAheadPages == old(maxReadAheadPages)
    {
      var next := NextLlap(pos + 1);
      RemoveAtDistinct(pglist, pos);
      var rest := RemoveAt(pglist, pos);
      pglist := rest;
      match next
      case None =>
        dummy.magic := 2;
        more := false;
      case Some(j) =>
        InsertAtDistinct(rest, j, dummy);
        pglist := InsertAt(rest, j, dummy);
        var after := NextLlap(j + 1);
        if after.None? {
          dummy.magic := 2;
          more := false;
        } else {
          more := true;
        }
    }

    /** llite_dump_pgcache_seq_release: the cursor leaves the list if it is
        still on it. */
    method SeqRelease(dummy: Llap)
      requires Valid()
      modifies this
      ensures Valid()
      ensures dummy !in pglist
      ensures dummy in old(pglist) ==> pglist == RemoveAt(old(pglist), IndexOf(old(pglist), dummy))
      ensures dummy !in old(pglist) ==> pglist == old(pglist)
      ensures flags == old(flags) && maxReadAheadPages == old(maxReadAheadPages)
    {
      if dummy in pglist {
        var pos :| 0 <= pos < |pglist| && pglist[pos] == dummy;
        IndexOfDistinct(pglist, pos);
        RemoveAtDistinct(pglist, pos);
        pglist := RemoveAt(pglist, pos);
      }
    }
  }
}
