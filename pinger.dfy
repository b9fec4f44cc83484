/** The ptlrpc pinger (lustre/ptlrpc/pinger.c): the sorted registry of
    timeout events with their client lists, the list of pinged imports,
    the per-import ping/reconnect decision with its interval arithmetic,
    and the ping evictor's scan and start/stop reference count.

    Time is counted in jiffies as an unbounded integer (no wrap-around);
    the tunables the file takes from headers outside it (PING_INTERVAL,
    PING_INTERVAL_SHORT, CONNECTION_SWITCH_MIN, AT_OFF, obd_timeout, HZ)
    are the fields of PingConfig. */
module Pinger {
  import opened Kernel

  datatype PingConfig = PingConfig(
    pingInterval: int,          // PING_INTERVAL (seconds)
    pingIntervalShort: int,     // PING_INTERVAL_SHORT (seconds)
    connectionSwitchMin: int,   // CONNECTION_SWITCH_MIN (seconds)
    atOff: bool,                // AT_OFF: adaptive timeouts disabled
    obdTimeout: nat,            // obd_timeout (seconds, unsigned)
    hz: nat)                    // HZ: jiffies per second

  /** cfs_time_shift(s): the jiffy `s` seconds after `now`. */
  function TimeShift(cfg: PingConfig, now: int, s: int): int
  {
    now + s * cfg.hz
  }

  /** The import states the pinger distinguishes (enum lustre_imp_state). */
  datatype ImpState = Closed | New | Discon | Connecting | Replay | ReplayLocks
                    | ReplayWait | Recover | Full | Evicted

  /** The obd_device fields the pinger reads and writes. */
  class Obd {
    var noRecov: bool                 // obd_no_recov
    var exportsTimed: seq<Export>     // obd_exports_timed, oldest request first

    constructor ()
      ensures !noRecov && exportsTimed == []
    {
      noRecov := false;
      exportsTimed := [];
    }
  }

  /** An export on the timed list, with the time (seconds) of its last request. */
  datatype Export = Export(id: nat, lastRequestTime: int)

  /** The obd_import fields the pinger reads and writes. */
  class Import {
    const obd: Obd                    // imp_obd
    var state: ImpState               // imp_state
    var nextPing: int                 // imp_next_ping (jiffies)
    var forceVerify: bool             // imp_force_verify
    var forceNextVerify: bool         // imp_force_next_verify
    var deactive: bool                // imp_deactive
    var pingable: bool                // imp_pingable
    var noPingerRecover: bool         // imp_no_pinger_recover
    var serverTimeout: bool           // imp_server_timeout
    var pingless: bool                // OBD_CONNECT_PINGLESS in imp_connect_data
    var netLatency: int               // at_get(&imp_at.iat_net_latency), seconds
    var chained: bool                 // !list_empty(&imp_pinger_chain)
    var refcount: int                 // imp_refcount

    constructor (obd: Obd)
      ensures this.obd == obd && !chained && state == New && refcount == 1
      ensures !forceVerify && !forceNextVerify && !deactive
    {
      this.obd := obd;
      state := New;
      nextPing := 0;
      forceVerify, forceNextVerify, deactive := false, false, false;
      pingable, noPingerRecover, serverTimeout, pingless := true, false, false, false;
      netLatency := 0;
      chained := false;
      refcount := 1;
    }

    /** ptlrpc_update_next_ping. */
    method UpdateNextPing(cfg: PingConfig, now: int, soon: bool)
      modifies this`nextPing
      ensures nextPing == TimeShift(cfg, now, NextPingInterval(cfg, state, netLatency, soon))
    {
      nextPing := TimeShift(cfg, now, NextPingInterval(cfg, state, netLatency, soon));
    }
  }

  /** The interval (seconds) ptlrpc_update_next_ping schedules: the short or
      the normal ping interval, cut down for a disconnected import to the
      larger of CONNECTION_SWITCH_MIN and the network latency (0 when
      adaptive timeouts are off), so reconnection is retried promptly. */
  function NextPingInterval(cfg: PingConfig, state: ImpState, latency: int, soon: bool): (t: int)
    ensures var base := if soon then cfg.pingIntervalShort else cfg.pingInterval;
      && t <= base
      && (state != Discon ==> t == base)
      && (state == Discon ==> t >= Min(base, cfg.connectionSwitchMin))
      && (state == Discon && cfg.atOff && cfg.connectionSwitchMin >= 0 ==>
            t == Min(base, cfg.connectionSwitchMin))
      && (state == Discon && !cfg.atOff ==>
            t == base || t == cfg.connectionSwitchMin || t == latency)
      && (state == Discon && !cfg.atOff ==> t <= cfg.connectionSwitchMin || t <= latency)
  {
    var time := if soon then cfg.pingIntervalShort else cfg.pingInterval;
    if state == Discon then
      var dtime := Max(cfg.connectionSwitchMin, if cfg.atOff then 0 else latency);
      Min(time, dtime)
    else
      time
  }

  function Max(a: int, b: int): int { if a > b then a else b }
  function Min(a: int, b: int): int { if a < b then a else b }

  /** With every configured interval positive, the next ping is always
      strictly in the future. */
  lemma NextPingInFuture(cfg: PingConfig, state: ImpState, latency: int, soon: bool, now: int)
    requires cfg.pingInterval > 0 && cfg.pingIntervalShort > 0 && cfg.connectionSwitchMin > 0
    requires cfg.hz > 0
    ensures TimeShift(cfg, now, NextPingInterval(cfg, state, latency, soon)) > now
  {
    var t := NextPingInterval(cfg, state, latency, soon);
    assert t > 0;
    assert t * cfg.hz > 0;
  }

  /** Converting seconds to jiffies keeps the order. */
  lemma ScaleLe(a: int, b: int, hz: nat)
    requires a <= b
    ensures a * hz <= b * hz
  {
    assert b * hz - a * hz == (b - a) * hz;
  }

  /** ptlrpc_next_reconnect: the jiffy of the next reconnection attempt. */
  function NextReconnect(cfg: PingConfig, serverTimeout: bool, now: int): (at: int)
    ensures serverTimeout ==> at - now == (cfg.obdTimeout / 2) * cfg.hz
    ensures !serverTimeout ==> at - now == cfg.obdTimeout * cfg.hz
  {
    TimeShift(cfg, now, if serverTimeout then cfg.obdTimeout / 2 else cfg.obdTimeout)
  }

  /** A server-side timeout halves the reconnection delay (rounding down). */
  lemma NextReconnectBounds(cfg: PingConfig, now: int)
    ensures now <= NextReconnect(cfg, true, now) <= NextReconnect(cfg, false, now)
    ensures 2 * (NextReconnect(cfg, true, now) - now) <= NextReconnect(cfg, false, now) - now
  {
    var half := cfg.obdTimeout / 2;
    assert 2 * half <= cfg.obdTimeout;
    assert half * cfg.hz <= cfg.obdTimeout * cfg.hz by {
      assert (cfg.obdTimeout - half) * cfg.hz >= 0;
    }
    assert 2 * (half * cfg.hz) <= cfg.obdTimeout * cfg.hz by {
      assert (cfg.obdTimeout - 2 * half) * cfg.hz >= 0;
    }
  }

  /** What ptlrpc_pinger_process_import does with one import. */
  datatype PingAction =
    | Skipped                 // not due yet and not forced
    | Reconnect(recover: bool) // disconnected: reschedule, maybe start recovery
    | NotPinging              // in recovery, recovery disabled or deactivated
    | Ping                    // send an OBD_PING
    | Idle                    // due, but pings are not wanted

  /** The decision of ptlrpc_pinger_process_import, from the values it
      samples under imp_lock; `suppress` is ir_up && PINGLESS. The jiffy
      comparison is cfs_time_aftereq(next_ping - 5 * CFS_TICK, this_ping),
      with CFS_TICK taken as one jiffy. */
  function PingDecision(level: ImpState, force: bool, forceNext: bool, nextPing: int,
                        thisPing: int, deactive: bool, noRecov: bool, pingable: bool,
                        suppress: bool, noPingerRecover: bool): (a: PingAction)
    ensures a == Skipped <==> nextPing - 5 >= thisPing && !force
    ensures a.Reconnect? <==> a != Skipped && level == Discon && !deactive
    ensures a.Reconnect? ==> a.recover == !noPingerRecover
    ensures a == Ping ==> level == Full && !noRecov && !deactive
    ensures a == Ping <==> a != Skipped && level == Full && !noRecov && !deactive
                           && ((pingable && !suppress) || forceNext || force)
    ensures force && level == Full && !noRecov && !deactive ==> a == Ping
  {
    if nextPing - 5 >= thisPing && !force then Skipped
    else if level == Discon && !deactive then Reconnect(!noPingerRecover)
    else if level != Full || noRecov || deactive then NotPinging
    else if (pingable && !suppress) || forceNext || force then Ping
    else Idle
  }

  /** A forced check (imp_force_verify) is never skipped, and a FULL,
      recoverable, active import that is due gets pinged whenever it is
      pingable and pings are not suppressed. */
  lemma ForcedImportIsProcessed(level: ImpState, forceNext: bool, nextPing: int, thisPing: int,
                                deactive: bool, noRecov: bool, pingable: bool, suppress: bool,
                                npr: bool)
    ensures PingDecision(level, true, forceNext, nextPing, thisPing, deactive, noRecov,
                         pingable, suppress, npr) != Skipped
    ensures nextPing - 5 < thisPing && level == Full && !noRecov && !deactive && pingable && !suppress ==>
              PingDecision(level, false, forceNext, nextPing, thisPing, deactive, noRecov,
                           pingable, suppress, npr) == Ping
  {
  }

  /** A registered timeout event and the clients waiting on it. */
  class TimeoutItem {
    const timeout: int                  // ti_timeout (seconds)
    const event: int                    // ti_event
    const cb: int                       // ti_cb, opaque
    const cbData: int                   // ti_cb_data, opaque
    var obdList: seq<TimeoutClient>     // ti_obd_list, most recent first

    constructor (time: int, event: int, cb: int, data: int)
      ensures timeout == time && this.event == event && this.cb == cb && cbData == data
      ensures obdList == []
    {
      timeout := time;
      this.event := event;
      this.cb := cb;
      cbData := data;
      obdList := [];
    }
  }

  /** A client's obd_list link: the item it is on, or none (an empty list head). */
  class TimeoutClient {
    var linkedTo: TimeoutItem?

    constructor ()
      ensures linkedTo == null
    {
      linkedTo := null;
    }
  }

  /** The timeout list is in ascending order of ti_timeout. */
  predicate SortedTimeouts(s: seq<TimeoutItem>)
  {
    forall i, j :: 0 <= i < j < |s| ==> s[i].timeout <= s[j].timeout
  }

  /** No two items carry the same event. */
  predicate DistinctEvents(s: seq<TimeoutItem>)
  {
    forall i, j :: 0 <= i < j < |s| ==> s[i].event != s[j].event
  }

  /** Where ptlrpc_pinger_register_timeout links a new item for `time`:
      right after the last item with a smaller timeout, or at the head. */
  function InsertPos(s: seq<TimeoutItem>, time: int): (k: int)
    ensures 0 <= k <= |s|
    ensures k > 0 ==> s[k - 1].timeout < time
    ensures forall i :: k <= i < |s| ==> s[i].timeout >= time
  {
    if |s| == 0 then 0
    else if s[|s| - 1].timeout < time then |s|
    else InsertPos(s[..|s| - 1], time)
  }

  /** In a sorted list the insertion point splits the items into those
      strictly earlier than `time` and the rest, so inserting there keeps
      the list sorted. */
  lemma {:induction false} InsertKeepsSorted(s: seq<TimeoutItem>, item: TimeoutItem)
    requires SortedTimeouts(s)
    ensures var k := InsertPos(s, item.timeout);
      && (forall i :: 0 <= i < k ==> s[i].timeout < item.timeout)
      && SortedTimeouts(s[..k] + [item] + s[k..])
  {
    var k := InsertPos(s, item.timeout);
    var r := s[..k] + [item] + s[k..];
    forall i | 0 <= i < k
      ensures s[i].timeout < item.timeout
    {
      assert s[i].timeout <= s[k - 1].timeout;
    }
    forall i, j | 0 <= i < j < |r|
      ensures r[i].timeout <= r[j].timeout
    {
      InsertedAt(s, k, item, i);
      InsertedAt(s, k, item, j);
    }
  }

  /** Where each element of `s` lands once `item` is inserted at k. */
  lemma InsertedAt(s: seq<TimeoutItem>, k: int, item: TimeoutItem, i: int)
    requires 0 <= k <= |s| && 0 <= i <= |s|
    ensures (s[..k] + [item] + s[k..])[i] ==
              if i < k then s[i] else if i == k then item else s[i - 1]
  {
  }

  /** Inserting an item whose event is not yet registered keeps the
      events distinct. */
  lemma InsertKeepsDistinct(s: seq<TimeoutItem>, item: TimeoutItem, k: int)
    requires DistinctEvents(s)
    requires 0 <= k <= |s|
    requires forall i :: 0 <= i < |s| ==> s[i].event != item.event
    ensures DistinctEvents(s[..k] + [item] + s[k..])
  {
    var r := s[..k] + [item] + s[k..];
    forall a, b | 0 <= a < b < |r|
      ensures r[a].event != r[b].event
    {
      if a != k && b != k {
        var a' := if a < k then a else a - 1;
        var b' := if b < k then b else b - 1;
        assert r[a] == s[a'] && r[b] == s[b'];
      } else if a == k {
        assert r[b] == s[b - 1];
      } else {
        assert r[a] == s[a];
      }
    }
  }

  /** The split InsertPos finds is the only one: an item below `time`
      just before it and none below `time` from it on. */
  lemma InsertPosUnique(s: seq<TimeoutItem>, time: int, k: int)
    requires 0 <= k <= |s|
    requires k > 0 ==> s[k - 1].timeout < time
    requires forall i :: k <= i < |s| ==> s[i].timeout >= time
    ensures InsertPos(s, time) == k
  {
  }

  /** Unlinking one item keeps the list sorted and its events distinct. */
  lemma RemoveKeepsOrder(s: seq<TimeoutItem>, i: int)
    requires SortedTimeouts(s) && DistinctEvents(s)
    requires 0 <= i < |s|
    ensures SortedTimeouts(s[..i] + s[i + 1..]) && DistinctEvents(s[..i] + s[i + 1..])
  {
    var r := s[..i] + s[i + 1..];
    forall a, b | 0 <= a < b < |r|
      ensures r[a].timeout <= r[b].timeout && r[a].event != r[b].event
    {
      var a' := if a < i then a else a + 1;
      var b' := if b < i then b else b + 1;
      assert r[a] == s[a'] && r[b] == s[b'];
    }
  }

  /** The index of the item registered for `event`, if any. */
  function FindEvent(s: seq<TimeoutItem>, event: int): (r: Option<nat>)
    ensures r.Some? ==> r.value < |s| && s[r.value].event == event
    ensures r.None? <==> forall i :: 0 <= i < |s| ==> s[i].event != event
  {
    if |s| == 0 then None
    else if s[0].event == event then Some(0)
    else match FindEvent(s[1..], event)
      case None => None
      case Some(i) => Some(i + 1)
  }

  /** With distinct events, any index carrying `event` is the one FindEvent reports. */
  lemma FindEventFirst(s: seq<TimeoutItem>, event: int, i: int)
    requires 0 <= i < |s| && s[i].event == event
    requires forall j :: 0 <= j < i ==> s[j].event != event
    ensures FindEvent(s, event) == Some(i)
  {
    if i > 0 {
      FindEventFirst(s[1..], event, i - 1);
    }
  }

  /** s with every occurrence of c removed. */
  function Without(s: seq<TimeoutClient>, c: TimeoutClient): (r: seq<TimeoutClient>)
    ensures c !in r
    ensures forall x :: x in s && x != c ==> x in r
    ensures forall x :: x in r ==> x in s
  {
    if |s| == 0 then []
    else if s[0] == c then Without(s[1..], c)
    else [s[0]] + Without(s[1..], c)
  }

  /** The pinger's global state: pinger_imports, timeout_list and ir_up. */
  class PingerState {
    var imports: seq<Import>          // pinger_imports, in insertion order
    var timeoutList: seq<TimeoutItem> // timeout_list
    var irUp: bool                    // ir_up
    ghost var allImports: set<Import>

    ghost predicate Valid()
      reads this, allImports
    {
      SortedTimeouts(timeoutList)
      && DistinctEvents(timeoutList)
      && (forall i :: 0 <= i < |imports| ==> imports[i] in allImports && imports[i].chained)
      && (forall i, j :: 0 <= i < j < |imports| ==> imports[i] != imports[j])
      && (forall imp :: imp in allImports && imp.chained ==> imp in imports)
    }

    constructor ()
      ensures Valid() && imports == [] && timeoutList == [] && !irUp && allImports == {}
    {
      imports := [];
      timeoutList := [];
      irUp := false;
      allImports := {};
    }

    /** ptlrpc_pinger_ir_up / ptlrpc_pinger_ir_down. */
    method IrUp()
      modifies this`irUp
      ensures irUp
    {
      irUp := true;
    }

    method IrDown()
      modifies this`irUp
      ensures !irUp
    {
      irUp := false;
    }

    /** The number of seconds pinger_check_timeout waits for: PING_INTERVAL
        or the head item's timeout if smaller. The head's int timeout is
        compared as an unsigned long, so a negative one never wins. */
    function WaitSeconds(pingInterval: int): (w: int)
      reads this
      ensures w <= pingInterval
      ensures w == pingInterval || (|timeoutList| > 0 && w == timeoutList[0].timeout)
    {
      if |timeoutList| > 0 && 0 <= timeoutList[0].timeout < pingInterval
      then timeoutList[0].timeout else pingInterval
    }

    /** pinger_check_timeout: jiffies from `now` to the next wakeup, given
        the start `time` of the current pass. */
    function CheckTimeout(cfg: PingConfig, time: int, now: int): (r: int)
      reads this
      ensures now + r <= time + cfg.pingInterval * cfg.hz
      ensures SortedTimeouts(timeoutList)
              && (forall i :: 0 <= i < |timeoutList| ==> timeoutList[i].timeout >= 0) ==>
                forall i :: 0 <= i < |timeoutList| ==> now + r <= time + timeoutList[i].timeout * cfg.hz
    {
      WaitSecondsScaled(cfg);
      time + WaitSeconds(cfg.pingInterval) * cfg.hz - now
    }

    /** WaitSecondsIsGlobalMin in jiffies. */
    lemma WaitSecondsScaled(cfg: PingConfig)
      ensures WaitSeconds(cfg.pingInterval) * cfg.hz <= cfg.pingInterval * cfg.hz
      ensures SortedTimeouts(timeoutList)
              && (forall i :: 0 <= i < |timeoutList| ==> timeoutList[i].timeout >= 0) ==>
                forall i :: 0 <= i < |timeoutList| ==>
                  WaitSeconds(cfg.pingInterval) * cfg.hz <= timeoutList[i].timeout * cfg.hz
    {
      var w := WaitSeconds(cfg.pingInterval);
      ScaleLe(w, cfg.pingInterval, cfg.hz);
      if SortedTimeouts(timeoutList) && (forall i :: 0 <= i < |timeoutList| ==> timeoutList[i].timeout >= 0) {
        WaitSecondsIsGlobalMin(cfg.pingInterval);
        forall i | 0 <= i < |timeoutList|
          ensures w * cfg.hz <= timeoutList[i].timeout * cfg.hz
        {
          ScaleLe(w, timeoutList[i].timeout, cfg.hz);
        }
      }
    }

    /** Because the list is sorted, looking at its head alone gives the
        earliest (non-negative) timeout of all registered events. */
    lemma WaitSecondsIsGlobalMin(pingInterval: int)
      requires SortedTimeouts(timeoutList)
      requires forall i :: 0 <= i < |timeoutList| ==> timeoutList[i].timeout >= 0
      ensures forall i :: 0 <= i < |timeoutList| ==> WaitSeconds(pingInterval) <= timeoutList[i].timeout
      ensures WaitSeconds(pingInterval) <= pingInterval
    {
      forall i | 0 <= i < |timeoutList|
        ensures WaitSeconds(pingInterval) <= timeoutList[i].timeout
      {
        assert timeoutList[0].timeout <= timeoutList[i].timeout;
      }
    }

    /** The first loop of ptlrpc_pinger_register_timeout: the item already
        registered for `event`, if any. */
    method LookupEvent(event: int) returns (r: Option<nat>)
      ensures r == FindEvent(timeoutList, event)
    {
      var i := 0;
      while i < |timeoutList|
        invariant 0 <= i <= |timeoutList|
        invariant forall j :: 0 <= j < i ==> timeoutList[j].event != event
      {
        if timeoutList[i].event == event {
          FindEventFirst(timeoutList, event, i);
          return Some(i);
        }
        i := i + 1;
      }
      return None;
    }

    /** The reverse loop of ptlrpc_pinger_register_timeout: walk back from
        the tail to the last item whose timeout is smaller than `time`. */
    method LocateInsert(time: int) returns (k: int)
      ensures k == InsertPos(timeoutList, time)
    {
      k := |timeoutList|;
      while k > 0 && timeoutList[k - 1].timeout >= time
        invariant 0 <= k <= |timeoutList|
        invariant forall i :: k <= i < |timeoutList| ==> timeoutList[i].timeout >= time
      {
        k := k - 1;
      }
      InsertPosUnique(timeoutList, time, k);
    }

    /** ptlrpc_pinger_register_timeout (with ptlrpc_new_timeout, whose
        allocation succeeds iff `allocOk`): reuse the item already
        registered for `event`, or link a new one into sorted position. */
    method RegisterTimeout(time: int, event: int, cb: int, data: int, allocOk: bool)
      returns (item: TimeoutItem?)
      requires Valid()
      modifies this`timeoutList
      ensures Valid()
      ensures match FindEvent(old(timeoutList), event)
        case Some(i) => item == old(timeoutList)[i] && timeoutList == old(timeoutList)
        case None =>
          if !allocOk then item == null && timeoutList == old(timeoutList)
          else
            && item != null && fresh(item)
            && item.timeout == time && item.event == event && item.obdList == []
            && var k := InsertPos(old(timeoutList), time);
               timeoutList == old(timeoutList)[..k] + [item] + old(timeoutList)[k..]
    {
      var found := LookupEvent(event);
      if found.Some? {
        return timeoutList[found.value];
      }
      if !allocOk {
        return null;
      }
      item := new TimeoutItem(time, event, cb, data);
      var k := LocateInsert(time);
      InsertKeepsSorted(timeoutList, item);
      InsertKeepsDistinct(timeoutList, item, k);
      timeoutList := timeoutList[..k] + [item] + timeoutList[k..];
    }

    /** ptlrpc_add_timeout_client: register the event (-EINVAL when the
        item cannot be allocated) and put the client at the head of its list. */
    method AddTimeoutClient(time: int, event: int, cb: int, data: int,
                            client: TimeoutClient, allocOk: bool) returns (rc: int)
      requires Valid()
      requires client.linkedTo == null
      modifies this`timeoutList, client, set it | it in timeoutList
      ensures Valid()
      ensures rc == 0 || rc == -EINVAL
      ensures rc == -EINVAL <==> FindEvent(old(timeoutList), event).None? && !allocOk
      ensures rc == -EINVAL ==> timeoutList == old(timeoutList) && client.linkedTo == null
      ensures rc == 0 ==> client.linkedTo != null && client.linkedTo in timeoutList
                          && client.linkedTo.event == event
      ensures match FindEvent(old(timeoutList), event)
        case Some(i) => && client.linkedTo == old(timeoutList)[i]
                        && client.linkedTo.obdList == [client] + old(timeoutList[i].obdList)
                        && timeoutList == old(timeoutList)
        case None => rc == 0 ==>
                       && fresh(client.linkedTo) && client.linkedTo.obdList == [client]
                       && client.linkedTo.timeout == time
                       && var k := InsertPos(old(timeoutList), time);
                          timeoutList == old(timeoutList)[..k] + [client.linkedTo] + old(timeoutList)[k..]
      ensures forall it :: it in old(timeoutList) && it != client.linkedTo ==> it.obdList == old(it.obdList)
    {
      var ti := RegisterTimeout(time, event, cb, data, allocOk);
      if ti == null {
        return -EINVAL;
      }
      ti.obdList := [client] + ti.obdList;
      client.linkedTo := ti;
      rc := 0;
    }

    /** ptlrpc_del_timeout_client: unlink the client, then drop the event's
        item once no client is left on it. An unlinked client is a no-op. */
    method DelTimeoutClient(client: TimeoutClient, event: int) returns (rc: int)
      requires Valid()
      requires client.linkedTo != null ==> FindEvent(timeoutList, event).Some?
      modifies this`timeoutList, client, client.linkedTo
      ensures Valid()
      ensures rc == 0
      ensures old(client.linkedTo) == null ==> timeoutList == old(timeoutList) && client.linkedTo == null
      ensures old(client.linkedTo) != null ==>
        && client.linkedTo == null
        && old(client.linkedTo).obdList == Without(old(client.linkedTo.obdList), client)
        && var i := FindEvent(old(timeoutList), event).value;
           var ti := old(timeoutList)[i];
           if ti.obdList == [] then timeoutList == old(timeoutList)[..i] + old(timeoutList)[i + 1..]
           else timeoutList == old(timeoutList)
    {
      if client.linkedTo == null {
        return 0;
      }
      var owner := client.linkedTo;
      owner.obdList := Without(owner.obdList, client);
      client.linkedTo := null;
      var i := 0;
      while timeoutList[i].event != event
        invariant 0 <= i < |timeoutList|
        invariant forall j :: 0 <= j < i ==> timeoutList[j].event != event
        invariant FindEvent(timeoutList, event).Some?
        invariant i <= FindEvent(timeoutList, event).value
        decreases |timeoutList| - i
      {
        i := i + 1;
      }
      assert FindEvent(timeoutList, event) == Some(i);
      var ti := timeoutList[i];
      if ti.obdList == [] {
        RemoveKeepsOrder(timeoutList, i);
        timeoutList := timeoutList[..i] + timeoutList[i + 1..];
      }
      rc := 0;
    }

    /** ptlrpc_pinger_remove_timeouts: every item (none with a client left)
        is unlinked, one at a time from the head. */
    method RemoveTimeouts() returns (rc: int)
      requires Valid()
      requires forall i :: 0 <= i < |timeoutList| ==> timeoutList[i].obdList == []
      modifies this`timeoutList
      ensures Valid()
      ensures rc == 0 && timeoutList == []
    {
      while |timeoutList| > 0
        invariant Valid()
        decreases |timeoutList|
      {
        timeoutList := timeoutList[1..];
      }
      rc := 0;
    }

    /** ptlrpc_pinger_add_import: -EALREADY for an import already chained;
        otherwise enable recovery, schedule the first ping, append the
        import and take a reference on it. */
    method AddImport(imp: Import, cfg: PingConfig, now: int) returns (rc: int)
      requires Valid()
      modifies this`imports, this`allImports, imp`chained, imp`refcount, imp`nextPing, imp.obd`noRecov
      ensures Valid()
      ensures old(imp.chained) ==> rc == -EALREADY && imports == old(imports) && imp.chained
                                   && imp.refcount == old(imp.refcount)
                                   && imp.nextPing == old(imp.nextPing)
                                   && imp.obd.noRecov == old(imp.obd.noRecov)
      ensures !old(imp.chained) ==>
        && rc == 0 && imports == old(imports) + [imp] && imp.chained
        && !imp.obd.noRecov
        && imp.refcount == old(imp.refcount) + 1
        && imp.nextPing == TimeShift(cfg, now, NextPingInterval(cfg, old(imp.state), old(imp.netLatency), false))
    {
      if imp.chained {
        return -EALREADY;
      }
      imp.obd.noRecov := false;
      imp.UpdateNextPing(cfg, now, false);
      imports := imports + [imp];
      allImports := allImports + {imp};
      imp.chained := true;
      imp.refcount := imp.refcount + 1;
      rc := 0;
    }

    /** ptlrpc_pinger_del_import: -ENOENT for an import not chained;
        otherwise unlink it, disable recovery and drop the reference. */
    method DelImport(imp: Import) returns (rc: int)
      requires Valid()
      requires imp.chained ==> imp in allImports
      modifies this`imports, imp`chained, imp`refcount, imp.obd`noRecov
      ensures Valid()
      ensures !old(imp.chained) ==> rc == -ENOENT && imports == old(imports) && !imp.chained
                                    && imp.refcount == old(imp.refcount)
                                    && imp.obd.noRecov == old(imp.obd.noRecov)
      ensures old(imp.chained) ==>
        && rc == 0 && !imp.chained && imp.obd.noRecov
        && imp.refcount == old(imp.refcount) - 1
        && imp !in imports
        && exists k :: 0 <= k < |old(imports)| && old(imports)[k] == imp
                       && imports == old(imports)[..k] + old(imports)[k + 1..]
    {
      if !imp.chained {
        return -ENOENT;
      }
      var k :| 0 <= k < |imports| && imports[k] == imp;
      ghost var old_list := imports;
      imports := imports[..k] + imports[k + 1..];
      forall a, b | 0 <= a < b < |imports|
        ensures imports[a] != imports[b]
      {
        var a' := if a < k then a else a + 1;
        var b' := if b < k then b else b + 1;
        assert imports[a] == old_list[a'] && imports[b] == old_list[b'];
      }
      forall m | 0 <= m < |imports|
        ensures imports[m] != imp
      {
        var m' := if m < k then m else m + 1;
        assert imports[m] == old_list[m'];
      }
      imp.chained := false;
      imp.obd.noRecov := true;
      imp.refcount := imp.refcount - 1;
      rc := 0;
    }

    /** ptlrpc_pinger_process_import: always clears imp_force_verify; when
        the import is not skipped it also clears imp_force_next_verify and,
        for a disconnected one, schedules the next reconnection. The ping
        RPC and ptlrpc_initiate_recovery are reported through the action. */
    method ProcessImport(imp: Import, cfg: PingConfig, thisPing: int) returns (action: PingAction)
      modifies imp`forceVerify, imp`forceNextVerify, imp`nextPing
      ensures action == PingDecision(old(imp.state), old(imp.forceVerify), old(imp.forceNextVerify),
                                     old(imp.nextPing), thisPing, old(imp.deactive), old(imp.obd.noRecov),
                                     old(imp.pingable), irUp && old(imp.pingless),
                                     old(imp.noPingerRecover))
      ensures !imp.forceVerify
      ensures action == Skipped ==> imp.forceNextVerify == old(imp.forceNextVerify)
                                    && imp.nextPing == old(imp.nextPing)
      ensures action != Skipped ==> !imp.forceNextVerify
      ensures action.Reconnect? ==> imp.nextPing == NextReconnect(cfg, imp.serverTimeout, thisPing)
      ensures !action.Reconnect? && action != Skipped ==> imp.nextPing == old(imp.nextPing)
    {
      var force := imp.forceVerify;
      var forceNext := imp.forceNextVerify;
      var suppress := irUp && imp.pingless;
      action := PingDecision(imp.state, force, forceNext, imp.nextPing, thisPing, imp.deactive,
                             imp.obd.noRecov, imp.pingable, suppress, imp.noPingerRecover);
      imp.forceVerify := false;
      if action == Skipped {
        return;
      }
      imp.forceNextVerify := false;
      if action.Reconnect? {
        imp.nextPing := NextReconnect(cfg, imp.serverTimeout, thisPing);
      }
    }
  }

  /** ptlrpc_pinger_commit_expected: schedule a ping soon, and force the
      next one unless the import is FULL and pings are expected by it. */
  method CommitExpected(imp: Import, cfg: PingConfig, now: int)
    modifies imp`nextPing, imp`forceNextVerify
    ensures imp.nextPing == TimeShift(cfg, now, NextPingInterval(cfg, imp.state, imp.netLatency, true))
    ensures imp.state != Full || imp.pingless ==> imp.forceNextVerify
    ensures imp.state == Full && !imp.pingless ==> imp.forceNextVerify == old(imp.forceNextVerify)
  {
    imp.UpdateNextPing(cfg, now, true);
    if imp.state != Full || imp.pingless {
      imp.forceNextVerify := true;
    }
  }

  /** The exports the evictor fails: the longest prefix of the timed list
      whose last request is older than `expireTime`. */
  function ExpiredPrefix(s: seq<Export>, expireTime: int): (r: seq<Export>)
    ensures |r| <= |s| && r == s[..|r|]
    ensures forall i :: 0 <= i < |r| ==> expireTime > r[i].lastRequestTime
    ensures |r| < |s| ==> expireTime <= s[|r|].lastRequestTime
  {
    if |s| > 0 && expireTime > s[0].lastRequestTime then
      [s[0]] + ExpiredPrefix(s[1..], expireTime)
    else
      []
  }

  /** The timed list is kept in order of last request. */
  predicate SortedByLastRequest(s: seq<Export>)
  {
    forall i, j :: 0 <= i < j < |s| ==> s[i].lastRequestTime <= s[j].lastRequestTime
  }

  /** Stopping at the first unexpired export misses nothing: on a sorted
      list every export left behind is unexpired, and each failed one was
      expired. */
  lemma EvictionComplete(s: seq<Export>, expireTime: int)
    requires SortedByLastRequest(s)
    ensures var r := ExpiredPrefix(s, expireTime);
      forall i :: |r| <= i < |s| ==> expireTime <= s[i].lastRequestTime
  {
    var r := ExpiredPrefix(s, expireTime);
    forall i | |r| <= i < |s|
      ensures expireTime <= s[i].lastRequestTime
    {
      assert s[|r|].lastRequestTime <= s[i].lastRequestTime;
    }
  }

  /** One pass of ping_evictor_main over an obd: fail (and so unlink) the
      exports at the head of the timed list whose last request is older
      than `now - evictTimeout` seconds; stop at the first one that is not. */
  method EvictExports(obd: Obd, nowSec: int, evictTimeout: int) returns (evicted: seq<Export>)
    modifies obd`exportsTimed
    ensures evicted == ExpiredPrefix(old(obd.exportsTimed), nowSec - evictTimeout)
    ensures old(obd.exportsTimed) == evicted + obd.exportsTimed
  {
    var expireTime := nowSec - evictTimeout;
    var all := obd.exportsTimed;
    var n := 0;
    while n < |all| && expireTime > all[n].lastRequestTime
      invariant 0 <= n <= |all|
      invariant forall k :: 0 <= k < n ==> expireTime > all[k].lastRequestTime
    {
      n := n + 1;
    }
    ExpiredPrefixUpTo(all, expireTime, n);
    evicted := all[..n];
    obd.exportsTimed := all[n..];
    assert all == evicted + obd.exportsTimed;
  }

  /** The expired prefix ends exactly at the first export that is not
      expired (or at the end of the list). */
  lemma ExpiredPrefixUpTo(s: seq<Export>, expireTime: int, n: int)
    requires 0 <= n <= |s|
    requires forall k :: 0 <= k < n ==> expireTime > s[k].lastRequestTime
    requires n < |s| ==> expireTime <= s[n].lastRequestTime
    ensures ExpiredPrefix(s, expireTime) == s[..n]
  {
  }

  const PET_READY: int := 1
  const PET_TERMINATE: int := 2

  /** The ping evictor's pet_refcount and pet_state. */
  class PingEvictor {
    var refcount: int
    var state: int

    constructor ()
      ensures refcount == 0 && state == 0
    {
      refcount := 0;
      state := 0;
    }

    /** ping_evictor_start: only the user that takes the count from 0 to 1
        launches the thread (which sets PET_READY); a failed launch gives
        the reference back. */
    method Start(launchOk: bool) returns (launched: bool)
      modifies this
      ensures launched <==> old(refcount) + 1 <= 1 && launchOk
      ensures old(refcount) + 1 > 1 ==> refcount == old(refcount) + 1 && state == old(state)
      ensures old(refcount) + 1 <= 1 && !launchOk ==> refcount == old(refcount) && state == old(state)
      ensures launched ==> refcount == old(refcount) + 1 && state == PET_READY
    {
      refcount := refcount + 1;
      if refcount > 1 {
        return false;
      }
      if !launchOk {
        refcount := refcount - 1;
        return false;
      }
      state := PET_READY;
      launched := true;
    }

    /** ping_evictor_stop: the user that drops the last reference tells
        the thread to terminate. */
    method Stop() returns (terminated: bool)
      modifies this
      ensures refcount == old(refcount) - 1
      ensures terminated <==> refcount <= 0
      ensures terminated ==> state == PET_TERMINATE
      ensures !terminated ==> state == old(state)
    {
      refcount := refcount - 1;
      if refcount > 0 {
        return false;
      }
      state := PET_TERMINATE;
      terminated := true;
    }
  }

  /** Two users: the first start launches the evictor, the second shares
      it; the first stop keeps it, the last stop terminates it. */
  method EvictorScenario()
  {
    var pet := new PingEvictor();
    var l1 := pet.Start(true);
    var l2 := pet.Start(true);
    assert l1 && !l2 && pet.refcount == 2;
    var t1 := pet.Stop();
    var t2 := pet.Stop();
    assert !t1 && t2 && pet.state == PET_TERMINATE;
  }
}
