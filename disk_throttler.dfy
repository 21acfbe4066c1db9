/** Disk limiting: there is no job-level disk limit, so every member of a
    group is registered with a monitor that samples its I/O counters and
    suspends it for a share of a second when its read+write throughput is
    over the configured rate. */
module DiskThrottling {
  import opened Models
  import opened Kernel
  import opened Registries

  /** IO_COUNTERS, reduced to the two totals the monitor reads. */
  datatype IoCounters = IoCounters(readTransfer: U64, writeTransfer: U64)

  /** One monitored process. `limitMB` is the configured rate in MB/s;
      `currentRate` the throughput of the last measurement in bytes/s (the
      source keeps it in MB/s); `lastCounters` and `lastCheckMs` the counters
      and the clock reading of the last sample. */
  datatype DiskEntry = DiskEntry(
    process: Process,
    limitMB: int,
    currentRate: nat,
    lastCounters: IoCounters,
    lastCheckMs: int)

  /** GetIOCounters: the counters the kernel reports, all zeros when the read fails. */
  function GetIOCounters(reading: Option<IoCounters>): IoCounters
  {
    if reading.Some? then reading.value else IoCounters(0, 0)
  }

  /** The entry map after RegisterProcess(p, limitMB) at clock reading now. */
  function Registered(m: map<int, DiskEntry>, p: Option<Process>, limitMB: int, now: int): map<int, DiskEntry>
  {
    if p.None? then m
    else if p.value.pid in m then m[p.value.pid := m[p.value.pid].(limitMB := limitMB)]
    else m[p.value.pid := DiskEntry(p.value, limitMB, 0, IoCounters(0, 0), now)]
  }

  /** Registration ignores a null process and accepts any limit. Otherwise
      the pid is present afterwards with the new limit; a known pid keeps its
      counters, clock reading and rate, and the map its size; a new pid starts
      from zero counters, zero rate and the current time; nothing else changes. */
  lemma RegisteredMeaning(m: map<int, DiskEntry>, p: Option<Process>, limitMB: int, now: int)
    ensures p.None? ==> Registered(m, p, limitMB, now) == m
    ensures p.Some? ==>
      var r := Registered(m, p, limitMB, now);
      var pid := p.value.pid;
      && r.Keys == m.Keys + {pid}
      && r[pid].limitMB == limitMB
      && (pid in m ==> r[pid] == m[pid].(limitMB := limitMB) && |r| == |m|)
      && (pid !in m ==> r[pid] == DiskEntry(p.value, limitMB, 0, IoCounters(0, 0), now) && |r| == |m| + 1)
      && (forall q :: q in m && q != pid ==> r[q] == m[q])
  {
    if p.Some? && p.value.pid !in m {
      assert (m[p.value.pid := DiskEntry(p.value, limitMB, 0, IoCounters(0, 0), now)]).Keys == m.Keys + {p.value.pid};
    }
  }

  /** The entry map after ApplyLimit(ProcessGroup) has registered its readable members in order. */
  function RegisteredAll(m: map<int, DiskEntry>, os: Os, ps: seq<Process>, limitMB: int, now: int): map<int, DiskEntry>
  {
    if ps == [] then m
    else
      var p := ps[|ps| - 1];
      var prev := RegisteredAll(m, os, ps[..|ps| - 1], limitMB, now);
      if os.readable(p.pid) then Registered(prev, Some(p), limitMB, now) else prev
  }

  /** Registering a group adds exactly its readable members. */
  lemma {:induction false} RegisteredAllKeys(m: map<int, DiskEntry>, os: Os, ps: seq<Process>, limitMB: int, now: int)
    ensures RegisteredAll(m, os, ps, limitMB, now).Keys == m.Keys + ReadablePids(os, ps)
  {
    if ps != [] {
      var p := ps[|ps| - 1];
      var init := ps[..|ps| - 1];
      RegisteredAllKeys(m, os, init, limitMB, now);
      if os.readable(p.pid) {
        assert ReadablePids(os, ps) == ReadablePids(os, init) + {p.pid};
        assert RegisteredAll(m, os, ps, limitMB, now).Keys == RegisteredAll(m, os, init, limitMB, now).Keys + {p.pid};
      } else {
        assert ReadablePids(os, ps) == ReadablePids(os, init);
      }
    }
  }

  /** Every readable member ends up with the group's rate limit. */
  lemma {:induction false} RegisteredAllLimit(m: map<int, DiskEntry>, os: Os, ps: seq<Process>, limitMB: int, now: int, q: int)
    requires q in ReadablePids(os, ps)
    ensures q in RegisteredAll(m, os, ps, limitMB, now) && RegisteredAll(m, os, ps, limitMB, now)[q].limitMB == limitMB
  {
    var p := ps[|ps| - 1];
    var init := ps[..|ps| - 1];
    RegisteredMeaning(RegisteredAll(m, os, init, limitMB, now), Some(p), limitMB, now);
    if q != p.pid || !os.readable(p.pid) {
      RegisteredAllLimit(m, os, init, limitMB, now, q);
    }
  }

  /** Entries of pids that are not readable members are left as they were. */
  lemma {:induction false} RegisteredAllUntouched(m: map<int, DiskEntry>, os: Os, ps: seq<Process>, limitMB: int, now: int, q: int)
    requires q in m && q !in ReadablePids(os, ps)
    ensures q in RegisteredAll(m, os, ps, limitMB, now) && RegisteredAll(m, os, ps, limitMB, now)[q] == m[q]
  {
    if ps != [] {
      var p := ps[|ps| - 1];
      var init := ps[..|ps| - 1];
      RegisteredAllUntouched(m, os, init, limitMB, now, q);
      RegisteredMeaning(RegisteredAll(m, os, init, limitMB, now), Some(p), limitMB, now);
    }
  }

  // --- One monitor pass -------------------------------------------------------

  /** A counter delta over `seconds` whole seconds, in bytes/s: the
      quotient of integer division, which never exceeds the delta. */
  function PerSecond(delta: U64, seconds: nat): (q: U64)
    requires seconds > 0
    ensures q * seconds <= delta < q * seconds + seconds
  {
    DivBelow(delta, seconds);
    delta / seconds
  }

  /** Throughput in bytes/s between two readings `seconds` whole seconds apart:
      each counter's (wrapping) delta divided by the seconds, the two summed
      with 64-bit wrap-around. */
  function Throughput(last: IoCounters, cur: IoCounters, seconds: nat): (r: U64)
    requires seconds > 0
    ensures last.readTransfer <= cur.readTransfer && last.writeTransfer <= cur.writeTransfer &&
            PerSecond(cur.readTransfer - last.readTransfer, seconds) + PerSecond(cur.writeTransfer - last.writeTransfer, seconds) < TWO_POW_64
        ==> r == PerSecond(cur.readTransfer - last.readTransfer, seconds) + PerSecond(cur.writeTransfer - last.writeTransfer, seconds)
  {
    AddU64(PerSecond(SubU64(cur.readTransfer, last.readTransfer), seconds),
           PerSecond(SubU64(cur.writeTransfer, last.writeTransfer), seconds))
  }

  lemma {:induction false} MulMono(a: nat, b: nat, c: nat)
    requires b <= c
    ensures a * b <= a * c
  {
    if a > 0 {
      MulMono(a - 1, b, c);
      assert a * b == (a - 1) * b + b && a * c == (a - 1) * c + c;
    }
  }

  lemma DivBelow(x: nat, d: nat)
    requires d > 0
    ensures x / d <= x
  {
    var q := x / d;
    assert x == q * d + x % d;
    MulMono(q, 1, d);
  }

  /** Whether a rate in bytes/s is over a limit in MB/s: rate / 2^20 > limit. */
  predicate OverRate(rate: nat, limitMB: int)
  {
    rate > limitMB * MB
  }

  /** How long an over-limit process is suspended, in milliseconds: the
      excess as a share of the rate, capped at 0.9, times 1000 and truncated.
      A zero rate over a negative limit is an infinite share, hence 900. */
  function SuspendMs(rate: nat, limitMB: int): nat
    requires OverRate(rate, limitMB)
  {
    if rate == 0 then 900 else Min(1000 * (rate - limitMB * MB) / rate, 900)
  }

  /** The suspension is at most 900 ms; it is 900 exactly when the excess is
      at least 90% of the rate; below that it is the truncated thousandths
      of the excess share; and for a non-negative limit it is positive exactly
      when the excess is at least a thousandth of the rate. */
  lemma {:induction false} SuspendMsMeaning(rate: nat, limitMB: int)
    requires OverRate(rate, limitMB)
    ensures SuspendMs(rate, limitMB) <= 900
    ensures SuspendMs(rate, limitMB) == 900 <==> 10 * (rate - limitMB * MB) >= 9 * rate
    ensures var r := SuspendMs(rate, limitMB);
      r < 900 ==> r * rate <= 1000 * (rate - limitMB * MB) < (r + 1) * rate
    ensures SuspendMs(rate, limitMB) > 0 <==> 1000 * (rate - limitMB * MB) >= rate
  {
    if rate > 0 {
      var n := 1000 * (rate - limitMB * MB);
      var q := n / rate;
      assert n == q * rate + n % rate && 0 <= n % rate < rate;
      assert q * rate <= n < (q + 1) * rate;
      if q >= 900 {
        MulMono(rate, 900, q);
      } else {
        MulMono(rate, q + 1, 900);
      }
      if q >= 1 {
        MulMono(rate, 1, q);
      } else {
        assert q == 0;
      }
    }
  }

  /** Two worked cases: 20 MB/s against 10 MB/s suspends for half a second;
      100 MB/s against 1 MB/s hits the 900 ms cap. */
  lemma SuspendMsExamples()
    ensures SuspendMs(20 * MB, 10) == 500
    ensures SuspendMs(100 * MB, 1) == 900
  {
  }

  /** What the monitor observes when it visits an entry at clock reading `now`
      with counter reading `reading`. */
  datatype Observation =
    | TooSoon                                 // less than 100 ms since the last sample
    | Unreadable                              // the process handle cannot be read: throws
    | FirstSample(cur: IoCounters)            // no previous counters: just store them
    | NoWholeSecond                           // under one whole second: division by zero throws
    | Measured(cur: IoCounters, rate: U64)    // a throughput in bytes/s

  function Observe(pid: int, e: DiskEntry, now: int, reading: Option<IoCounters>, os: Os): Observation
  {
    var elapsed := now - e.lastCheckMs;
    if elapsed < 100 then TooSoon
    else if !os.readable(pid) then Unreadable
    else
      var cur := GetIOCounters(reading);
      if e.lastCounters.readTransfer == 0 && e.lastCounters.writeTransfer == 0 then FirstSample(cur)
      else if elapsed / 1000 == 0 then NoWholeSecond
      else Measured(cur, Throughput(e.lastCounters, cur, elapsed / 1000))
  }

  /** One visit of the pass: the entry after it, or None when it is unregistered. */
  function DiskNext(clock: int -> int, counters: int -> Option<IoCounters>, os: Os): (int, DiskEntry) -> Option<DiskEntry>
  {
    (pid: int, e: DiskEntry) =>
      match Observe(pid, e, clock(pid), counters(pid), os)
      case TooSoon => Some(e)
      case Unreadable => None
      case NoWholeSecond => None
      case FirstSample(cur) => Some(e.(lastCounters := cur, lastCheckMs := clock(pid)))
      case Measured(cur, rate) => Some(e.(lastCounters := cur, lastCheckMs := clock(pid), currentRate := rate))
  }

  /** The suspension a measured rate calls for: suspend, sleep, resume, or nothing. */
  function SuspendCalls(pid: int, rate: nat, limitMB: int): seq<KernelCall>
  {
    if OverRate(rate, limitMB) && SuspendMs(rate, limitMB) > 0
    then [Suspend(pid), Sleep(SuspendMs(rate, limitMB)), Resume(pid)]
    else []
  }

  /** The calls one visit makes. */
  function DiskCalls(clock: int -> int, counters: int -> Option<IoCounters>, os: Os): (int, DiskEntry) -> seq<KernelCall>
  {
    (pid: int, e: DiskEntry) =>
      match Observe(pid, e, clock(pid), counters(pid), os)
      case Measured(_, rate) => SuspendCalls(pid, rate, e.limitMB)
      case _ => []
  }

  /** One visit, by what it observes: an entry sampled under 100 ms ago is
      left exactly as it was; an unreadable process, or a second sample under
      one whole second after a nonzero one, is unregistered; a first sample
      (both previous counters zero) stores the reading, a failed read counting
      as zeros; a measured entry records its throughput; every kept entry
      keeps its process and limit. */
  lemma VisitMeaning(pid: int, e: DiskEntry, clock: int -> int, counters: int -> Option<IoCounters>, os: Os)
    ensures var n := DiskNext(clock, counters, os)(pid, e);
      var elapsed := clock(pid) - e.lastCheckMs;
      var zero := e.lastCounters.readTransfer == 0 && e.lastCounters.writeTransfer == 0;
      var cur := GetIOCounters(counters(pid));
      && (elapsed < 100 ==> n == Some(e))
      && (elapsed >= 100 && !os.readable(pid) ==> n.None?)
      && (elapsed >= 100 && os.readable(pid) && zero ==> n == Some(e.(lastCounters := cur, lastCheckMs := clock(pid))))
      && (100 <= elapsed < 1000 && !zero ==> n.None?)
      && (elapsed >= 1000 && os.readable(pid) && !zero ==>
            n == Some(e.(lastCounters := cur, lastCheckMs := clock(pid),
                         currentRate := Throughput(e.lastCounters, cur, elapsed / 1000))))
      && (n.Some? ==> n.value.process == e.process && n.value.limitMB == e.limitMB)
      && (n.Some? && elapsed >= 100 && counters(pid).None? ==> n.value.lastCounters == IoCounters(0, 0))
  {
  }

  /** The calls of one visit: none unless a rate was measured and is over the
      limit; then suspend, sleep and resume, with a sleep of 1..900 ms. */
  lemma VisitCallsMeaning(pid: int, e: DiskEntry, clock: int -> int, counters: int -> Option<IoCounters>, os: Os)
    ensures var c := DiskCalls(clock, counters, os)(pid, e);
      var elapsed := clock(pid) - e.lastCheckMs;
      var zero := e.lastCounters.readTransfer == 0 && e.lastCounters.writeTransfer == 0;
      var rate := if elapsed >= 1000 then Throughput(e.lastCounters, GetIOCounters(counters(pid)), elapsed / 1000) else 0;
      && (c != [] <==> elapsed >= 1000 && os.readable(pid) && !zero && OverRate(rate, e.limitMB) && SuspendMs(rate, e.limitMB) > 0)
      && (c != [] ==> c == [Suspend(pid), Sleep(SuspendMs(rate, e.limitMB)), Resume(pid)] && SuspendMs(rate, e.limitMB) <= 900)
  {
    var elapsed := clock(pid) - e.lastCheckMs;
    if elapsed >= 1000 {
      var rate := Throughput(e.lastCounters, GetIOCounters(counters(pid)), elapsed / 1000);
      if OverRate(rate, e.limitMB) {
        SuspendMsMeaning(rate, e.limitMB);
      }
    }
  }

  /** The guard of ApplyLimit(ProcessGroup): a group, disk limiting on, members. */
  predicate DiskApplies(group: Option<GroupView>)
  {
    group.Some? && group.value.config.diskLimit.isEnabled && group.value.processes != []
  }

  /** Whether one member's registration succeeds: the reads of its try block succeed. */
  function DiskMemberOk(os: Os): Process -> bool
  {
    (p: Process) => os.readable(p.pid)
  }

  /** The result of ApplyLimit(ProcessGroup). */
  predicate DiskGroupResult(os: Os, group: Option<GroupView>)
  {
    DiskApplies(group) && AllOver(group.value.processes, DiskMemberOk(os))
  }

  /** The registry after ApplyLimit(ProcessGroup) at clock reading now. */
  function DiskGroupEntries(m: map<int, DiskEntry>, os: Os, group: Option<GroupView>, now: int): map<int, DiskEntry>
  {
    if DiskApplies(group) then RegisteredAll(m, os, group.value.processes, group.value.config.diskLimit.readWriteRateLimit, now)
    else m
  }

  /** Without the guard the result is false and nothing is registered. With
      it, the result is true iff every member is readable, and the readable
      members are exactly the pids added, each with the configured rate. */
  lemma DiskApplyMeaning(m: map<int, DiskEntry>, os: Os, group: Option<GroupView>, now: int)
    ensures !DiskApplies(group) ==> !DiskGroupResult(os, group) && DiskGroupEntries(m, os, group, now) == m
    ensures DiskApplies(group) ==>
      var g := group.value;
      var r := DiskGroupEntries(m, os, group, now);
      && (DiskGroupResult(os, group) <==> forall p :: p in g.processes ==> os.readable(p.pid))
      && r.Keys == m.Keys + ReadablePids(os, g.processes)
      && (forall p :: p in g.processes && os.readable(p.pid) ==>
            p.pid in r && r[p.pid].limitMB == g.config.diskLimit.readWriteRateLimit)
  {
    if DiskApplies(group) {
      var g := group.value;
      var limit := g.config.diskLimit.readWriteRateLimit;
      AllOverIsEvery(g.processes, DiskMemberOk(os));
      RegisteredAllKeys(m, os, g.processes, limit, now);
      ReadablePidsMeaning(os, g.processes);
      forall p | p in g.processes && os.readable(p.pid)
        ensures p.pid in DiskGroupEntries(m, os, group, now)
        ensures DiskGroupEntries(m, os, group, now)[p.pid].limitMB == limit
      {
        RegisteredAllLimit(m, os, g.processes, limit, now, p.pid);
      }
    }
  }

  /** The monitor registry. `started` is the monitoring thread's flag; it is
      on exactly while some process is registered. */
  class DiskThrottler {
    var entries: map<int, DiskEntry>
    var started: bool

    ghost predicate Valid()
      reads this
    {
      && (started <==> |entries| > 0)
      && forall pid :: pid in entries ==> entries[pid].process.pid == pid
    }

    constructor ()
      ensures Valid() && entries == map[] && !started
    {
      entries := map[];
      started := false;
    }

    /** GetCurrentIORate: the last measured throughput (bytes/s), 0 for an unknown pid. */
    function CurrentIORate(pid: int): (r: nat)
      reads this
      ensures pid in entries ==> r == entries[pid].currentRate
      ensures pid !in entries ==> r == 0
    {
      if pid in entries then entries[pid].currentRate else 0
    }

    /** RegisterProcess: adds or updates an entry and starts monitoring with the first entry. */
    method RegisterProcess(p: Option<Process>, limitMB: int, now: int)
      requires Valid()
      modifies this
      ensures Valid()
      ensures entries == Registered(old(entries), p, limitMB, now)
      ensures p.None? ==> started == old(started)
    {
      if p.None? {
        return;
      }
      var pid := p.value.pid;
      if pid in entries {
        entries := entries[pid := entries[pid].(limitMB := limitMB)];
      } else {
        entries := entries[pid := DiskEntry(p.value, limitMB, 0, IoCounters(0, 0), now)];
      }
      RegisteredMeaning(old(entries), p, limitMB, now);
      if |entries| == 1 && !started {
        started := true;
      }
    }

    /** UnregisterProcess: removes the entry, if any, and stops monitoring with the last one. */
    method UnregisterProcess(pid: int)
      requires Valid()
      modifies this
      ensures Valid()
      ensures entries == old(entries) - {pid}
      ensures pid !in old(entries) ==> started == old(started)
    {
      if pid in entries {
        entries := entries - {pid};
        if |entries| == 0 && started {
          started := false;
        }
      }
    }

    /** Cleanup: stops monitoring and empties the registry. */
    method Cleanup()
      modifies this
      ensures Valid() && entries == map[] && !started
    {
      started := false;
      entries := map[];
    }

    /** ApplyLimit(handle, process, name, pid, limit): registers the process
        with the configured rate; false, with nothing registered, for a null
        process or a disabled limit. */
    method ApplyToProcess(p: Option<Process>, limit: DiskLimit, now: int) returns (ok: bool)
      requires Valid()
      modifies this
      ensures Valid()
      ensures ok <==> p.Some? && limit.isEnabled
      ensures entries == if ok then Registered(old(entries), p, limit.readWriteRateLimit, now) else old(entries)
    {
      if p.None? || !limit.isEnabled {
        return false;
      }
      RegisterProcess(p, limit.readWriteRateLimit, now);
      return true;
    }

    /** ApplyLimit(ProcessGroup): the guard (no job handle is needed), then
        every member in order; a member whose try block throws on reading
        the process fails and is not registered. */
    method ApplyLimit(group: Option<GroupView>, os: Os, now: int) returns (success: bool)
      requires Valid()
      modifies this
      ensures Valid()
      ensures success == DiskGroupResult(os, group)
      ensures entries == DiskGroupEntries(old(entries), os, group, now)
    {
      if group.None? || !group.value.config.diskLimit.isEnabled || group.value.processes == [] {
        return false;
      }
      var g := group.value;
      var limit := g.config.diskLimit;
      var ps := g.processes;
      ghost var ok := DiskMemberOk(os);
      ghost var step := (p: Process) => [];
      success := true;
      var i := 0;
      while i < |ps|
        invariant 0 <= i <= |ps|
        invariant Valid()
        invariant success == AllOver(ps[..i], ok)
        invariant entries == RegisteredAll(old(entries), os, ps[..i], limit.readWriteRateLimit, now)
      {
        var memberOk := RegisterNext(ps, i, limit, os, now, old(entries));
        OverSnoc(ps, i, step, ok);
        success := success && memberOk;
        i := i + 1;
      }
      assert ps[..i] == ps;
    }

    /** One iteration of ApplyLimit's member loop: the i-th member is
        registered when the reads of its try block succeed. */
    method RegisterNext(ps: seq<Process>, i: nat, limit: DiskLimit, os: Os, now: int,
                        ghost m0: map<int, DiskEntry>) returns (memberOk: bool)
      requires Valid() && i < |ps| && limit.isEnabled
      requires entries == RegisteredAll(m0, os, ps[..i], limit.readWriteRateLimit, now)
      modifies this
      ensures Valid()
      ensures memberOk == os.readable(ps[i].pid)
      ensures entries == RegisteredAll(m0, os, ps[..i + 1], limit.readWriteRateLimit, now)
    {
      assert ps[..i + 1][..i] == ps[..i];
      memberOk := false;
      if os.readable(ps[i].pid) {
        memberOk := ApplyToProcess(Some(ps[i]), limit, now);
      }
    }

    /** The over-limit branch of MonitorLoop's body: suspend for the computed
        duration, then resume (failures of either are swallowed). */
    static method Throttle(pid: int, rate: nat, limitMB: int, kernel: Kernel)
      modifies kernel`log
      ensures kernel.log == old(kernel.log) + SuspendCalls(pid, rate, limitMB)
    {
      if OverRate(rate, limitMB) {
        var ms := SuspendMs(rate, limitMB);
        if ms > 0 {
          var _ := kernel.Invoke(Suspend(pid));
          var _ := kernel.Invoke(Sleep(ms));
          var _ := kernel.Invoke(Resume(pid));
        }
      }
    }

    /** One entry of a monitor pass, as MonitorLoop's body does it. */
    method MonitorEntry(pid: int, clock: int -> int, counters: int -> Option<IoCounters>, kernel: Kernel)
      requires Valid() && pid in entries
      modifies this, kernel`log
      ensures Valid()
      ensures kernel.log == old(kernel.log) + DiskCalls(clock, counters, kernel.os)(pid, old(entries)[pid])
      ensures entries == Visit(old(entries), pid, DiskNext(clock, counters, kernel.os))
    {
      var e := entries[pid];
      var now := clock(pid);
      if now - e.lastCheckMs < 100 {
        return;
      }
      // The fields are set in the order MonitorLoop sets them; the entry is
      // written back once, or removed when the visit throws.
      var next := e.(lastCheckMs := now);
      if !kernel.os.readable(pid) {
        UnregisterProcess(pid);
        return;
      }
      var cur := GetIOCounters(counters(pid));
      if e.lastCounters.readTransfer > 0 || e.lastCounters.writeTransfer > 0 {
        var seconds := (now - e.lastCheckMs) / 1000;
        if seconds == 0 {
          UnregisterProcess(pid);
          return;
        }
        var rate := Throughput(e.lastCounters, cur, seconds);
        next := next.(currentRate := rate);
        Throttle(pid, rate, e.limitMB, kernel);
      }
      entries := entries[pid := next.(lastCounters := cur)];
    }

    /** One iteration of MonitorLoop over a snapshot of the registry (in the
        dictionary's enumeration order): the registry and the calls are those
        of visiting every entry once, judged on its state at the start of the pass. */
    method MonitorPass(order: seq<int>, clock: int -> int, counters: int -> Option<IoCounters>, kernel: Kernel)
      requires Valid()
      requires forall i, j :: 0 <= i < j < |order| ==> order[i] != order[j]
      requires forall pid :: pid in entries <==> pid in order
      modifies this, kernel`log
      ensures Valid()
      ensures entries == Swept(old(entries), old(entries).Keys, DiskNext(clock, counters, kernel.os))
      ensures kernel.log == old(kernel.log) + CallsOver(order, CallsOf(old(entries), DiskCalls(clock, counters, kernel.os)))
    {
      ghost var m := entries;
      ghost var next, calls := DiskNext(clock, counters, kernel.os), DiskCalls(clock, counters, kernel.os);
      assert forall k :: 0 <= k < |order| ==> order[k] in entries by {
        forall k | 0 <= k < |order| ensures order[k] in entries {
          assert order[k] in order;
        }
      }
      var i := 0;
      while i < |order|
        invariant 0 <= i <= |order|
        invariant Valid()
        invariant entries == Sweep(m, order[..i], next)
        invariant kernel.log == old(kernel.log) + SweepLog(m, order[..i], next, calls)
        invariant forall k :: i <= k < |order| ==> order[k] in entries
      {
        SweepSnoc(m, order, i, next, calls);
        ghost var before, logBefore := entries, kernel.log;
        MonitorEntry(order[i], clock, counters, kernel);
        AppendAssoc(old(kernel.log), SweepLog(m, order[..i], next, calls), calls(order[i], before[order[i]]));
        forall k | i < k < |order| ensures order[k] in entries {
          VisitOthers(before, order[i], next, order[k]);
        }
        i := i + 1;
      }
      assert order[..i] == order;
      SweepOrderFree(m, order, next, calls);
      SnapshotCovers(m, order);
    }
  }
}
