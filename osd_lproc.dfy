/** The procfs side of the ldiskfs object storage device: the statfs
    readers, which refuse to run before the device is mounted, the cache
    switches, the pdo switch, force_sync, and registering and tearing down
    the device's proc directory (lustre/osd-ldiskfs/osd_lproc.c). */
module OsdLproc {
  import opened Kernel
  import opened LprocStatfs

  /** Which osd_statfs field a reader prints. */
  datatype OsdStat = Blksize | KbytesTotal | KbytesFree | KbytesAvail | FilesTotal | FilesFree

  /** The value a reader prints from a successful statfs: the block size
      and the file counts as they are, block counts through the shift loop. */
  function StatValue(stat: OsdStat, osfs: ObdStatfs): nat
  {
    match stat
    case Blksize => osfs.bsize
    case KbytesTotal => KbytesOf(osfs.blocks, osfs.bsize)
    case KbytesFree => KbytesOf(osfs.bfree, osfs.bsize)
    case KbytesAvail => KbytesOf(osfs.bavail, osfs.bsize)
    case FilesTotal => osfs.files
    case FilesFree => osfs.ffree
  }

  /** ldiskfs_pdo, the module-wide parallel directory operations switch. */
  class PdoSwitch {
    var pdo: int

    constructor (pdo: int)
      ensures this.pdo == pdo
    {
      this.pdo := pdo;
    }

    /** lprocfs_osd_wr_pdo: a parse error is returned and changes nothing;
        otherwise the switch becomes 0 or 1. */
    method WrPdo(helperRc: int, val: int, count: int) returns (rc: int)
      modifies this
      ensures helperRc != 0 ==> rc == helperRc && pdo == old(pdo)
      ensures helperRc == 0 ==> rc == count && pdo == (if val != 0 then 1 else 0)
    {
      if helperRc != 0 {
        return helperRc;
      }
      pdo := if val != 0 then 1 else 0;
      rc := count;
    }
  }

  /** The fields of osd_device the handlers use: whether od_mnt is set,
      the two cache switches, and whether od_proc_entry and od_stats are
      set. */
  class OsdDevice {
    var mounted: bool
    var readCache: int              // od_read_cache
    var writethroughCache: int      // od_writethrough_cache
    var procEntry: bool
    var stats: bool

    /** Without a proc directory there are no stats either. */
    predicate Valid()
      reads this
    {
      stats ==> procEntry
    }

    constructor (mounted: bool)
      ensures Valid()
      ensures this.mounted == mounted && !procEntry && !stats
      ensures readCache == 1 && writethroughCache == 1
    {
      this.mounted := mounted;
      readCache, writethroughCache := 1, 1;
      procEntry, stats := false, false;
    }

    /** lprocfs_osd_rd_blksize, _kbytestotal, _kbytesfree, _kbytesavail,
        _filestotal and _filesfree: -EINPROGRESS before the device is
        mounted, whatever osd_statfs would say; then osd_statfs's error,
        or the value. */
    method ReadStat(stat: OsdStat, statfsRc: int, osfs: ObdStatfs) returns (r: ProcRead)
      requires StatfsOk(osfs)
      ensures !mounted ==> r == Failed(-EINPROGRESS)
      ensures mounted && statfsRc != 0 ==> r == Failed(statfsRc)
      ensures mounted && statfsRc == 0 ==> r == Printed(StatValue(stat, osfs))
    {
      if !mounted {
        return Failed(-EINPROGRESS);
      }
      if statfsRc != 0 {
        return Failed(statfsRc);
      }
      match stat
      case Blksize => r := Printed(osfs.bsize);
      case KbytesTotal =>
        var kb := BlocksToKbytes(osfs.blocks, osfs.bsize);
        r := Printed(kb);
      case KbytesFree =>
        var kb := BlocksToKbytes(osfs.bfree, osfs.bsize);
        r := Printed(kb);
      case KbytesAvail =>
        var kb := BlocksToKbytes(osfs.bavail, osfs.bsize);
        r := Printed(kb);
      case FilesTotal => r := Printed(osfs.files);
      case FilesFree => r := Printed(osfs.ffree);
    }

    /** lprocfs_osd_rd_mntdev: -EINPROGRESS before the device is mounted,
        otherwise the device name. */
    method RdMntdev(mntdev: string) returns (r: Option<string>, rc: int)
      ensures !mounted ==> r == None && rc == -EINPROGRESS
      ensures mounted ==> r == Some(mntdev) && rc == 0
    {
      if !mounted {
        return None, -EINPROGRESS;
      }
      r, rc := Some(mntdev), 0;
    }

    /** lprocfs_osd_wr_cache: a parse error is returned and changes nothing;
        otherwise the read cache switch becomes 0 or 1. */
    method WrCache(helperRc: int, val: int, count: int) returns (rc: int)
      modifies this
      ensures helperRc != 0 ==> rc == helperRc && readCache == old(readCache)
      ensures helperRc == 0 ==> rc == count && readCache == (if val != 0 then 1 else 0)
      ensures writethroughCache == old(writethroughCache)
      ensures mounted == old(mounted) && procEntry == old(procEntry) && stats == old(stats)
    {
      if helperRc != 0 {
        return helperRc;
      }
      readCache := if val != 0 then 1 else 0;
      rc := count;
    }

    /** lprocfs_osd_wr_wcache: the same for the writethrough cache switch. */
    method WrWcache(helperRc: int, val: int, count: int) returns (rc: int)
      modifies this
      ensures helperRc != 0 ==> rc == helperRc && writethroughCache == old(writethroughCache)
      ensures helperRc == 0 ==> rc == count && writethroughCache == (if val != 0 then 1 else 0)
      ensures readCache == old(readCache)
      ensures mounted == old(mounted) && procEntry == old(procEntry) && stats == old(stats)
    {
      if helperRc != 0 {
        return helperRc;
      }
      writethroughCache := if val != 0 then 1 else 0;
      rc := count;
    }

    /** osd_procfs_fini: the stats and the proc directory are released if
        present; it always succeeds. */
    method ProcfsFini() returns (rc: int)
      modifies this
      ensures Valid()
      ensures rc == 0 && !procEntry && !stats
      ensures mounted == old(mounted) && readCache == old(readCache)
      ensures writethroughCache == old(writethroughCache)
    {
      if stats {
        stats := false;
      }
      if procEntry {
        procEntry := false;
      }
      rc := 0;
    }

    /** osd_procfs_init together with osd_stats_init. `registerRc` is the
        error lprocfs_register reports (0 when it returns a directory),
        `statsAllocOk` whether lprocfs_alloc_stats succeeds, and
        `statsRegisterRc` lprocfs_register_stats's result. A device that
        already has a directory is left alone; any failure is undone by
        osd_procfs_fini. */
    method ProcfsInit(registerRc: int, statsAllocOk: bool, statsRegisterRc: int) returns (rc: int)
      requires Valid()
      modifies this
      ensures Valid()
      ensures old(procEntry) ==> rc == 0 && procEntry && stats == old(stats)
      ensures !old(procEntry) ==> rc == (if registerRc != 0 then registerRc
                                         else if !statsAllocOk then -ENOMEM
                                         else statsRegisterRc)
      ensures !old(procEntry) ==> (rc == 0 <==> procEntry && stats)
      ensures !old(procEntry) && rc != 0 ==> !procEntry && !stats
      ensures mounted == old(mounted) && readCache == old(readCache)
      ensures writethroughCache == old(writethroughCache)
    {
      if procEntry {
        return 0;
      }
      if registerRc != 0 {
        procEntry := false;
        rc := registerRc;
      } else {
        procEntry := true;
        rc := StatsInit(statsAllocOk, statsRegisterRc);
      }
      if rc != 0 {
        var _ := ProcfsFini();
      }
    }

    /** osd_stats_init: allocate the stats and register them under the
        device's directory. */
    method StatsInit(allocOk: bool, registerRc: int) returns (rc: int)
      requires procEntry
      modifies this
      ensures Valid()
      ensures rc == (if !allocOk then -ENOMEM else registerRc)
      ensures stats == allocOk && procEntry
      ensures mounted == old(mounted) && readCache == old(readCache)
      ensures writethroughCache == old(writethroughCache)
    {
      if allocOk {
        stats := true;
        rc := registerRc;
      } else {
        stats := false;
        rc := -ENOMEM;
      }
    }
  }

  /** lprocfs_osd_wr_force_sync's result: lu_env_init's error if it fails,
      otherwise `count` when dt_sync succeeds and dt_sync's error when it
      does not. */
  function ForceSyncResult(envRc: int, syncRc: int, count: int): (rc: int)
    ensures envRc != 0 ==> rc == envRc
    ensures envRc == 0 && syncRc == 0 ==> rc == count
    ensures envRc == 0 && syncRc != 0 ==> rc == syncRc
  {
    if envRc != 0 then envRc
    else if syncRc == 0 then count
    else syncRc
  }

  /** A successful sync is reported as the full write, and a failed one
      never is, since error codes are negative and counts are not. */
  lemma ForceSyncReportsFailure(envRc: int, syncRc: int, count: nat)
    requires envRc <= 0 && syncRc <= 0
    ensures ForceSyncResult(envRc, syncRc, count) >= 0 <==> envRc == 0 && syncRc == 0
    ensures envRc == 0 && syncRc == 0 ==> ForceSyncResult(envRc, syncRc, count) == count
  {
  }

  /** The osd KiB readers print what the llite ones do: for a power-of-two
      block size, exactly blocks * bsize / 1024. */
  lemma OsdKbytesExact(osfs: ObdStatfs, k: nat)
    requires osfs.bsize == 1024 * Pow2(k)
    requires osfs.blocks * Pow2(k) < U64_LIMIT
    ensures StatValue(KbytesTotal, osfs) == osfs.blocks * osfs.bsize / 1024
  {
    KbytesPowerOfTwo(osfs.blocks, k);
  }
}
