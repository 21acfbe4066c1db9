/** Memory limiting: a job-wide cap, a working-set cap per member, and a
    pid-keyed monitor registry whose periodic pass trims or terminates
    members over their limit. */
module MemoryThrottling {
  import opened Models
  import opened Kernel
  import opened Registries

  /** One monitored process. `limitMB` is the configured cap in megabytes;
      `currentBytes` the working set seen by the last pass (0 until then). */
  datatype MemoryEntry = MemoryEntry(
    process: Process,
    limitMB: int,
    currentBytes: nat,
    enableAutoTrim: bool,
    terminateOnExceed: bool)

  /** `(ulong)MemoryUsageLimit * 1024 * 1024`, unchecked 64-bit arithmetic. */
  function CapBytes(memoryUsageLimit: Int32): (r: U64)
    ensures 0 <= memoryUsageLimit ==> r == memoryUsageLimit * MB
    ensures memoryUsageLimit < 0 ==> r == TWO_POW_64 + memoryUsageLimit * MB
  {
    var v := ToU64(memoryUsageLimit) * MB;
    ModWindow(v, if memoryUsageLimit < 0 then MB - 1 else 0);
    v % TWO_POW_64
  }

  /** Whether a working set exceeds a megabyte limit: usage / 2^20 > limit. */
  predicate OverLimit(workingSet: nat, limitMB: int)
  {
    workingSet > limitMB * MB
  }

  /** The entry map after RegisterProcess(p, limitMB, trim, terminate). */
  function Registered(m: map<int, MemoryEntry>, p: Option<Process>, limitMB: int, trim: bool, terminate: bool): map<int, MemoryEntry>
  {
    if p.None? || limitMB <= 0 then m
    else if p.value.pid in m then
      m[p.value.pid := m[p.value.pid].(limitMB := limitMB, enableAutoTrim := trim, terminateOnExceed := terminate)]
    else m[p.value.pid := MemoryEntry(p.value, limitMB, 0, trim, terminate)]
  }

  /** Registration ignores a null process and a non-positive limit. Otherwise
      the pid is present afterwards with the new limit and flags; a known pid
      keeps its process and last usage and the map keeps its size; a new pid
      starts with zero usage; no other entry changes. */
  lemma RegisteredMeaning(m: map<int, MemoryEntry>, p: Option<Process>, limitMB: int, trim: bool, terminate: bool)
    ensures p.None? || limitMB <= 0 ==> Registered(m, p, limitMB, trim, terminate) == m
    ensures p.Some? && limitMB > 0 ==>
      var r := Registered(m, p, limitMB, trim, terminate);
      var pid := p.value.pid;
      && r.Keys == m.Keys + {pid}
      && r[pid].limitMB == limitMB && r[pid].enableAutoTrim == trim && r[pid].terminateOnExceed == terminate
      && (pid in m ==> r[pid].process == m[pid].process && r[pid].currentBytes == m[pid].currentBytes && |r| == |m|)
      && (pid !in m ==> r[pid].process == p.value && r[pid].currentBytes == 0 && |r| == |m| + 1)
      && (forall q :: q in m && q != pid ==> r[q] == m[q])
  {
    if p.Some? && limitMB > 0 && p.value.pid !in m {
      assert (m[p.value.pid := MemoryEntry(p.value, limitMB, 0, trim, terminate)]).Keys == m.Keys + {p.value.pid};
    }
  }

  lemma RegisteredKeys(m: map<int, MemoryEntry>, p: Process, limitMB: int, trim: bool, terminate: bool)
    requires limitMB > 0
    ensures Registered(m, Some(p), limitMB, trim, terminate).Keys == m.Keys + {p.pid}
  {
  }

  /** The entry map after registering every readable member of a group in order. */
  function RegisteredAll(m: map<int, MemoryEntry>, os: Os, ps: seq<Process>, limit: MemoryLimit): map<int, MemoryEntry>
  {
    if ps == [] then m
    else
      var p := ps[|ps| - 1];
      var prev := RegisteredAll(m, os, ps[..|ps| - 1], limit);
      if os.readable(p.pid) then
        Registered(prev, Some(p), limit.memoryUsageLimit, EffectiveAutoTrim(limit), EffectiveTerminate(limit))
      else prev
  }

  /** Registering one more member of ps registers it on top of the ones before. */
  lemma RegisteredAllSnoc(m: map<int, MemoryEntry>, os: Os, ps: seq<Process>, i: nat, limit: MemoryLimit)
    requires i < |ps|
    ensures RegisteredAll(m, os, ps[..i + 1], limit) ==
      if os.readable(ps[i].pid)
      then Registered(RegisteredAll(m, os, ps[..i], limit), Some(ps[i]), limit.memoryUsageLimit,
                      EffectiveAutoTrim(limit), EffectiveTerminate(limit))
      else RegisteredAll(m, os, ps[..i], limit)
  {
    assert ps[..i + 1][..i] == ps[..i];
  }

  /** Registering a group adds exactly its readable members (when the limit is
      positive) and changes nothing when the limit is not positive. */
  lemma {:induction false} RegisteredAllIgnored(m: map<int, MemoryEntry>, os: Os, ps: seq<Process>, limit: MemoryLimit)
    requires limit.memoryUsageLimit <= 0
    ensures RegisteredAll(m, os, ps, limit) == m
  {
    if ps != [] {
      RegisteredAllIgnored(m, os, ps[..|ps| - 1], limit);
    }
  }

  lemma {:induction false} RegisteredAllKeys(m: map<int, MemoryEntry>, os: Os, ps: seq<Process>, limit: MemoryLimit)
    requires limit.memoryUsageLimit > 0
    ensures RegisteredAll(m, os, ps, limit).Keys == m.Keys + ReadablePids(os, ps)
  {
    if ps != [] {
      var p := ps[|ps| - 1];
      var init := ps[..|ps| - 1];
      var prev := RegisteredAll(m, os, init, limit);
      RegisteredAllKeys(m, os, init, limit);
      if os.readable(p.pid) {
        assert ReadablePids(os, ps) == ReadablePids(os, init) + {p.pid};
        RegisteredKeys(prev, p, limit.memoryUsageLimit, EffectiveAutoTrim(limit), EffectiveTerminate(limit));
      } else {
        assert ReadablePids(os, ps) == ReadablePids(os, init);
        assert RegisteredAll(m, os, ps, limit) == prev;
      }
    }
  }

  /** Every registered member carries the group's limit and effective actions. */
  lemma {:induction false} RegisteredAllFields(m: map<int, MemoryEntry>, os: Os, ps: seq<Process>, limit: MemoryLimit, q: int)
    requires q in ReadablePids(os, ps) && limit.memoryUsageLimit > 0
    ensures var r := RegisteredAll(m, os, ps, limit);
      && q in r
      && r[q].limitMB == limit.memoryUsageLimit
      && r[q].enableAutoTrim == EffectiveAutoTrim(limit)
      && r[q].terminateOnExceed == EffectiveTerminate(limit)
  {
    var p := ps[|ps| - 1];
    var init := ps[..|ps| - 1];
    var prev := RegisteredAll(m, os, init, limit);
    RegisteredMeaning(prev, Some(p), limit.memoryUsageLimit, EffectiveAutoTrim(limit), EffectiveTerminate(limit));
    if q != p.pid || !os.readable(p.pid) {
      RegisteredAllFields(m, os, init, limit, q);
    }
  }

  /** Entries of pids that are not readable members are left as they were. */
  lemma {:induction false} RegisteredAllUntouched(m: map<int, MemoryEntry>, os: Os, ps: seq<Process>, limit: MemoryLimit, q: int)
    requires q in m && q !in ReadablePids(os, ps)
    ensures q in RegisteredAll(m, os, ps, limit) && RegisteredAll(m, os, ps, limit)[q] == m[q]
  {
    if ps != [] {
      var p := ps[|ps| - 1];
      var init := ps[..|ps| - 1];
      RegisteredAllUntouched(m, os, init, limit, q);
      RegisteredMeaning(RegisteredAll(m, os, init, limit), Some(p), limit.memoryUsageLimit,
                        EffectiveAutoTrim(limit), EffectiveTerminate(limit));
    }
  }

  /** What one pass does to an entry whose working set is read as `ws`:
      whether it leaves the registry (a trim attempt whose handle cannot be
      read throws; a termination unregisters). */
  predicate DropsOut(e: MemoryEntry, ws: nat, os: Os)
  {
    OverLimit(ws, e.limitMB) &&
    ((e.enableAutoTrim && !os.readable(e.process.pid)) || e.terminateOnExceed)
  }

  /** The calls one pass makes for the entry e of pid. */
  function EntryCalls(pid: int, e: MemoryEntry, sample: int -> Option<nat>, os: Os): seq<KernelCall>
  {
    if sample(pid).None? || !OverLimit(sample(pid).value, e.limitMB) then []
    else if e.enableAutoTrim && !os.readable(pid) then []
    else
      (if e.enableAutoTrim then [EmptyWorkingSet(pid)] else []) +
      (if e.terminateOnExceed then [Kill(pid)] else [])
  }

  /** Whether the pass leaves the entry e of pid in the registry. */
  predicate Survives(pid: int, e: MemoryEntry, sample: int -> Option<nat>, os: Os)
  {
    sample(pid).Some? && !DropsOut(e, sample(pid).value, os)
  }

  /** One visit of the pass: the entry is refreshed with its sample, or leaves. */
  function MemoryNext(sample: int -> Option<nat>, os: Os): (int, MemoryEntry) -> Option<MemoryEntry>
  {
    (pid: int, e: MemoryEntry) =>
      if Survives(pid, e, sample, os) then Some(e.(currentBytes := sample(pid).value)) else None
  }

  function MemoryCalls(sample: int -> Option<nat>, os: Os): (int, MemoryEntry) -> seq<KernelCall>
  {
    (pid: int, e: MemoryEntry) => EntryCalls(pid, e, sample, os)
  }

  /** A full pass: only entries strictly over their limit are acted on, every
      kill is followed by the entry's removal, a sampling failure removes the
      entry, and every surviving entry holds its fresh working-set sample and
      is otherwise unchanged. */
  lemma PassMeaning(m: map<int, MemoryEntry>, sample: int -> Option<nat>, os: Os, pid: int)
    requires pid in m
    ensures var r := Swept(m, m.Keys, MemoryNext(sample, os));
      && (sample(pid).None? ==> pid !in r && CallsOf(m, MemoryCalls(sample, os))(pid) == [])
      && (sample(pid).Some? && !OverLimit(sample(pid).value, m[pid].limitMB) ==>
           pid in r && r[pid] == m[pid].(currentBytes := sample(pid).value) && CallsOf(m, MemoryCalls(sample, os))(pid) == [])
      && (Kill(pid) in CallsOf(m, MemoryCalls(sample, os))(pid) ==> pid !in r && m[pid].terminateOnExceed)
      && (EmptyWorkingSet(pid) in CallsOf(m, MemoryCalls(sample, os))(pid) ==>
           m[pid].enableAutoTrim && OverLimit(sample(pid).value, m[pid].limitMB))
      && (pid in r ==>
           r[pid].currentBytes == sample(pid).value && r[pid].limitMB == m[pid].limitMB &&
           r[pid].process == m[pid].process)
      && r.Keys <= m.Keys
    ensures var r := Swept(m, m.Keys, MemoryNext(sample, os));
      var over := sample(pid).Some? && OverLimit(sample(pid).value, m[pid].limitMB);
      && (pid !in r <==>
           sample(pid).None? ||
           (over && (m[pid].terminateOnExceed || (m[pid].enableAutoTrim && !os.readable(m[pid].process.pid)))))
      && (over && m[pid].enableAutoTrim && os.readable(pid) ==>
           EmptyWorkingSet(pid) in CallsOf(m, MemoryCalls(sample, os))(pid))
      && (over && m[pid].terminateOnExceed && !(m[pid].enableAutoTrim && !os.readable(pid)) ==>
           Kill(pid) in CallsOf(m, MemoryCalls(sample, os))(pid))
  {
    SweptAll(m, MemoryNext(sample, os), pid);
  }

  /** Removing the pids of one more member removes one more pid. */
  lemma MinusPidsSnoc(m: map<int, MemoryEntry>, ps: seq<Process>, i: nat)
    requires i < |ps|
    ensures (m - Pids(ps[..i])) - {ps[i].pid} == m - Pids(ps[..i + 1])
  {
    PidsSnoc(ps, i);
    assert (m - Pids(ps[..i])) - {ps[i].pid} == m - (Pids(ps[..i]) + {ps[i].pid});
  }

  /** The calls ApplyLimit makes for one member after the job call. */
  function MemberCalls(os: Os, cap: U64): Process -> seq<KernelCall>
  {
    (p: Process) => if os.readable(p.pid) then [SetWorkingSet(p.pid, 1, cap)] else []
  }

  /** Whether one member's working-set step succeeds. */
  function MemberOk(os: Os, cap: U64): Process -> bool
  {
    (p: Process) => os.readable(p.pid) && os.accepts(SetWorkingSet(p.pid, 1, cap))
  }

  /** The job-wide cap call. */
  function JobCall(g: GroupView): KernelCall
  {
    SetJobInfo(g.jobHandle, ExtendedLimit(LIMIT_PROCESS_MEMORY, CapBytes(g.config.memoryLimit.memoryUsageLimit)))
  }

  predicate MemoryApplies(group: Option<GroupView>)
  {
    group.Some? && group.value.config.memoryLimit.isEnabled &&
    group.value.processes != [] && group.value.jobHandle != 0
  }

  /** The kernel calls of ApplyLimit(ProcessGroup). */
  function MemoryGroupCalls(os: Os, group: Option<GroupView>): seq<KernelCall>
  {
    if !MemoryApplies(group) then []
    else [JobCall(group.value)] + CallsOver(group.value.processes, MemberCalls(os, CapBytes(group.value.config.memoryLimit.memoryUsageLimit)))
  }

  /** The result of ApplyLimit(ProcessGroup): the job-wide cap and every member's cap. */
  predicate MemoryGroupResult(os: Os, group: Option<GroupView>)
  {
    MemoryApplies(group) &&
    os.accepts(JobCall(group.value)) &&
    AllOver(group.value.processes, MemberOk(os, CapBytes(group.value.config.memoryLimit.memoryUsageLimit)))
  }

  /** The registry after ApplyLimit(ProcessGroup). */
  function MemoryGroupEntries(m: map<int, MemoryEntry>, os: Os, group: Option<GroupView>): map<int, MemoryEntry>
  {
    if MemoryApplies(group) && group.value.config.memoryLimit.enableMonitoring
    then RegisteredAll(m, os, group.value.processes, group.value.config.memoryLimit)
    else m
  }

  /** Without the guard nothing is touched and the result is false. With it,
      the first call sets the job-wide cap of MemoryUsageLimit MB; every other
      call caps one readable member's working set at the same number of bytes,
      with minimum 1; every readable member gets that call; and the result is
      true iff the job call and every member's call succeeded. */
  lemma MemoryApplyMeaning(os: Os, group: Option<GroupView>)
    ensures !MemoryApplies(group) ==> !MemoryGroupResult(os, group) && MemoryGroupCalls(os, group) == []
    ensures MemoryApplies(group) ==>
      var g := group.value;
      var cap := CapBytes(g.config.memoryLimit.memoryUsageLimit);
      var calls := MemoryGroupCalls(os, group);
      && calls[0] == SetJobInfo(g.jobHandle, ExtendedLimit(LIMIT_PROCESS_MEMORY, cap))
      && (forall c :: c in calls[1..] ==>
            c.SetWorkingSet? && c.minimum == 1 && c.maximum == cap &&
            exists p :: p in g.processes && os.readable(p.pid) && c.pid == p.pid)
      && (forall p :: p in g.processes && os.readable(p.pid) ==> SetWorkingSet(p.pid, 1, cap) in calls)
      && (MemoryGroupResult(os, group) <==>
            os.accepts(calls[0]) &&
            forall p :: p in g.processes ==> os.readable(p.pid) && os.accepts(SetWorkingSet(p.pid, 1, cap)))
  {
    if MemoryApplies(group) {
      var g := group.value;
      var cap := CapBytes(g.config.memoryLimit.memoryUsageLimit);
      AllOverIsEvery(g.processes, MemberOk(os, cap));
      CallsOverMembers(g.processes, MemberCalls(os, cap));
      assert MemoryGroupCalls(os, group)[1..] == CallsOver(g.processes, MemberCalls(os, cap));
    }
  }

  /** The entry of pid, if there is one, is that process's own and carries a positive limit. */
  predicate WellKeyed(m: map<int, MemoryEntry>, pid: int)
  {
    pid in m ==> m[pid].process.pid == pid && m[pid].limitMB > 0
  }

  /** Replacing one entry by a well-keyed one keeps the registry well keyed. */
  lemma WellKeyedUpdate(m: map<int, MemoryEntry>, pid: int, e: MemoryEntry)
    requires forall q {:trigger WellKeyed(m, q)} :: WellKeyed(m, q)
    requires e.process.pid == pid && e.limitMB > 0
    ensures forall q {:trigger WellKeyed(m[pid := e], q)} :: WellKeyed(m[pid := e], q)
  {
    var updated := m[pid := e];
    forall q ensures WellKeyed(updated, q) {
      assert WellKeyed(m, q);
    }
  }

  /** Removing entries keeps the registry well keyed. */
  lemma WellKeyedRemove(m: map<int, MemoryEntry>, s: set<int>)
    requires forall q {:trigger WellKeyed(m, q)} :: WellKeyed(m, q)
    ensures forall q {:trigger WellKeyed(m - s, q)} :: WellKeyed(m - s, q)
  {
    var removed := m - s;
    forall q ensures WellKeyed(removed, q) {
      assert WellKeyed(m, q);
    }
  }

  /** The monitor registry. `started` is the monitoring thread's flag; it is
      on exactly while some process is registered. */
  class MemoryThrottler {
    var entries: map<int, MemoryEntry>
    var started: bool

    ghost predicate Valid()
      reads this
    {
      && (started <==> |entries| > 0)
      && forall pid {:trigger WellKeyed(entries, pid)} :: WellKeyed(entries, pid)
    }

    constructor ()
      ensures Valid() && entries == map[] && !started
    {
      entries := map[];
      started := false;
    }

    /** GetCurrentMemoryUsage: the last sampled usage in bytes, 0 for an unknown pid. */
    function CurrentUsage(pid: int): (r: nat)
      reads this
      ensures pid in entries ==> r == entries[pid].currentBytes
      ensures pid !in entries ==> r == 0
    {
      if pid in entries then entries[pid].currentBytes else 0
    }

    /** RegisterProcess: adds or updates an entry and starts monitoring with the first entry. */
    method RegisterProcess(p: Option<Process>, limitMB: int, trim: bool, terminate: bool)
      requires Valid()
      modifies this
      ensures Valid()
      ensures entries == Registered(old(entries), p, limitMB, trim, terminate)
      ensures p.None? || limitMB <= 0 ==> started == old(started)
    {
      if p.None? || limitMB <= 0 {
        return;
      }
      var pid := p.value.pid;
      if pid in entries {
        entries := entries[pid := entries[pid].(limitMB := limitMB, enableAutoTrim := trim, terminateOnExceed := terminate)];
      } else {
        entries := entries[pid := MemoryEntry(p.value, limitMB, 0, trim, terminate)];
      }
      RegisteredMeaning(old(entries), p, limitMB, trim, terminate);
      assert WellKeyed(old(entries), pid);
      WellKeyedUpdate(old(entries), pid, entries[pid]);
      if |entries| == 1 && !started {
        started := true;
      }
    }

    /** UnregisterProcess: removes the entry, if any, and stops monitoring with the last one. */
    method UnregisterProcess(pid: int)
      requires Valid()
      modifies this
      ensures Valid()
      ensures entries == old(entries) - {pid}
      ensures pid !in old(entries) ==> started == old(started)
    {
      if pid in entries {
        WellKeyedRemove(entries, {pid});
        entries := entries - {pid};
        if |entries| == 0 && started {
          started := false;
        }
      }
    }

    /** Cleanup: stops monitoring and empties the registry. */
    method Cleanup()
      modifies this
      ensures Valid() && entries == map[] && !started
    {
      started := false;
      entries := map[];
    }

    /** Unregisters every member of a list, one at a time. */
    method UnregisterAll(ps: seq<Process>)
      requires Valid()
      modifies this
      ensures Valid()
      ensures entries == old(entries) - Pids(ps)
    {
      ghost var m0 := entries;
      for i := 0 to |ps|
        invariant Valid()
        invariant entries == m0 - Pids(ps[..i])
      {
        MinusPidsSnoc(m0, ps, i);
        UnregisterProcess(ps[i].pid);
      }
      assert ps[..|ps|] == ps;
    }

    /** One member of ApplyLimit's loop: the working-set cap, then registration
        when monitoring is on. A process whose handle cannot be read throws
        before either. */
    method ApplyToMember(p: Process, limit: MemoryLimit, kernel: Kernel) returns (ok: bool)
      requires Valid()
      modifies this, kernel`log
      ensures Valid()
      ensures ok == MemberOk(kernel.os, CapBytes(limit.memoryUsageLimit))(p)
      ensures kernel.log == old(kernel.log) + MemberCalls(kernel.os, CapBytes(limit.memoryUsageLimit))(p)
      ensures entries == if kernel.os.readable(p.pid) && limit.isEnabled && limit.enableMonitoring
        then Registered(old(entries), Some(p), limit.memoryUsageLimit, EffectiveAutoTrim(limit), EffectiveTerminate(limit))
        else old(entries)
    {
      if !kernel.os.readable(p.pid) {
        return false;
      }
      ok := kernel.Invoke(SetWorkingSet(p.pid, 1, CapBytes(limit.memoryUsageLimit)));
      if limit.isEnabled && limit.enableMonitoring {
        RegisterProcess(Some(p), limit.memoryUsageLimit, EffectiveAutoTrim(limit), EffectiveTerminate(limit));
      }
    }

    /** ApplyLimit(ProcessGroup): the guard; the job-wide cap, whose result
        starts the accumulation; then every member. */
    method ApplyLimit(group: Option<GroupView>, kernel: Kernel) returns (success: bool)
      requires Valid()
      modifies this, kernel`log
      ensures Valid()
      ensures success == MemoryGroupResult(kernel.os, group)
      ensures kernel.log == old(kernel.log) + MemoryGroupCalls(kernel.os, group)
      ensures entries == MemoryGroupEntries(old(entries), kernel.os, group)
    {
      if group.None? || !group.value.config.memoryLimit.isEnabled || group.value.processes == [] {
        return false;
      }
      var g := group.value;
      if g.jobHandle == 0 {
        return false;
      }
      var limit := g.config.memoryLimit;
      var cap := CapBytes(limit.memoryUsageLimit);
      success := kernel.Invoke(JobCall(g));
      ghost var afterJob := kernel.log;
      ghost var jobOk := success;
      ghost var step, ok := MemberCalls(kernel.os, cap), MemberOk(kernel.os, cap);
      var ps := g.processes;
      var i := 0;
      while i < |ps|
        invariant 0 <= i <= |ps|
        invariant Valid()
        invariant kernel.log == afterJob + CallsOver(ps[..i], step)
        invariant success == (jobOk && AllOver(ps[..i], ok))
        invariant entries == if limit.enableMonitoring then RegisteredAll(old(entries), kernel.os, ps[..i], limit) else old(entries)
      {
        var memberOk := ApplyToMember(ps[i], limit, kernel);
        OverSnoc(ps, i, step, ok);
        RegisteredAllSnoc(old(entries), kernel.os, ps, i, limit);
        AppendAssoc(afterJob, CallsOver(ps[..i], step), step(ps[i]));
        success := success && memberOk;
        i := i + 1;
      }
      assert ps[..i] == ps;
      AppendAssoc(old(kernel.log), [JobCall(g)], CallsOver(ps, step));
    }

    /** One entry of a monitor pass: sample, compare, trim and/or kill. */
    method MonitorEntry(pid: int, sample: int -> Option<nat>, kernel: Kernel)
      requires Valid() && pid in entries
      modifies this, kernel`log
      ensures Valid()
      ensures kernel.log == old(kernel.log) + EntryCalls(pid, old(entries)[pid], sample, kernel.os)
      ensures entries == Visit(old(entries), pid, MemoryNext(sample, kernel.os))
    {
      var ws := sample(pid);
      if ws.None? {
        UnregisterProcess(pid);
        return;
      }
      var e := entries[pid];
      assert WellKeyed(entries, pid);
      WellKeyedUpdate(entries, pid, e.(currentBytes := ws.value));
      entries := entries[pid := e.(currentBytes := ws.value)];
      if OverLimit(ws.value, e.limitMB) {
        if e.enableAutoTrim {
          if !kernel.os.readable(pid) {
            UnregisterProcess(pid);
            return;
          }
          var _ := kernel.Invoke(EmptyWorkingSet(pid));
        }
        if e.terminateOnExceed {
          var _ := kernel.Invoke(Kill(pid));
          UnregisterProcess(pid);
        }
      }
    }

    /** One iteration of MonitorLoop over a snapshot of the registry's pids
        (in the dictionary's enumeration order): the registry and the calls
        are those of visiting every entry once, judged on its state at the
        start of the pass. */
    method MonitorPass(order: seq<int>, sample: int -> Option<nat>, kernel: Kernel)
      requires Valid()
      requires forall i, j :: 0 <= i < j < |order| ==> order[i] != order[j]
      requires forall pid :: pid in entries <==> pid in order
      modifies this, kernel`log
      ensures Valid()
      ensures entries == Swept(old(entries), old(entries).Keys, MemoryNext(sample, kernel.os))
      ensures kernel.log == old(kernel.log) + CallsOver(order, CallsOf(old(entries), MemoryCalls(sample, kernel.os)))
    {
      ghost var m := entries;
      ghost var next, calls := MemoryNext(sample, kernel.os), MemoryCalls(sample, kernel.os);
      assert forall k :: 0 <= k < |order| ==> order[k] in entries by {
        forall k | 0 <= k < |order| ensures order[k] in entries {
          assert order[k] in order;
        }
      }
      var i := 0;
      while i < |order|
        invariant 0 <= i <= |order|
        invariant Valid()
        invariant entries == Sweep(m, order[..i], next)
        invariant kernel.log == old(kernel.log) + SweepLog(m, order[..i], next, calls)
        invariant forall k :: i <= k < |order| ==> order[k] in entries
      {
        SweepSnoc(m, order, i, next, calls);
        ghost var before, logBefore := entries, kernel.log;
        MonitorEntry(order[i], sample, kernel);
        AppendAssoc(old(kernel.log), SweepLog(m, order[..i], next, calls), calls(order[i], before[order[i]]));
        forall k | i < k < |order| ensures order[k] in entries {
          VisitOthers(before, order[i], next, order[k]);
        }
        i := i + 1;
      }
      assert order[..i] == order;
      SweepOrderFree(m, order, next, calls);
      SnapshotCovers(m, order);
    }
  }
}
