/** A process group: one configuration, the processes currently matched to
    it (unique by pid), the job object they are assigned to, and the dispatch
    of the configured limits to the five throttlers. */
module ProcessGroups {
  import opened Models
  import opened Kernel
  import CpuThrottling
  import PriorityThrottling
  import NetworkThrottling
  import opened MemoryThrottling
  import opened DiskThrottling

  // --- The job object --------------------------------------------------------

  /** The handle InitializeJob obtains on creation attempt `attempt`: 0 when
      CreateJobObject fails. */
  function NewJobHandle(os: Os, attempt: nat): nat
  {
    if os.accepts(CreateJob(attempt)) then attempt + 1 else 0
  }

  /** The calls of InitializeJob on an uninitialised group: the creation and,
      when it yields a handle, the kill-on-close limit (whose result is ignored). */
  function InitCalls(os: Os, attempt: nat): seq<KernelCall>
  {
    [CreateJob(attempt)] +
    (if NewJobHandle(os, attempt) != 0
     then [SetJobInfo(NewJobHandle(os, attempt), ExtendedLimit(LIMIT_KILL_ON_JOB_CLOSE, 0))]
     else [])
  }

  /** A failed creation leaves the group without a handle and makes no
      further call; a successful one yields a nonzero handle and marks it
      kill-on-close. */
  lemma InitMeaning(os: Os, attempt: nat)
    ensures NewJobHandle(os, attempt) == 0 <==> !os.accepts(CreateJob(attempt))
    ensures NewJobHandle(os, attempt) == 0 ==> InitCalls(os, attempt) == [CreateJob(attempt)]
    ensures NewJobHandle(os, attempt) != 0 ==>
      && |InitCalls(os, attempt)| == 2
      && InitCalls(os, attempt)[1].job == NewJobHandle(os, attempt)
      && InitCalls(os, attempt)[1].info.limitFlags & LIMIT_KILL_ON_JOB_CLOSE != 0
  {
  }

  // --- The dispatch ------------------------------------------------------------

  /** The kernel calls ApplyLimits makes once the group has a handle: CPU,
      memory, priority and network in that order, each only when enabled
      (disk limiting makes no kernel call). */
  function DispatchCalls(os: Os, g: GroupView): seq<KernelCall>
  {
    HeadCalls(os, g) + TailCalls(os, g)
  }

  /** The calls of the CPU and memory steps. */
  function HeadCalls(os: Os, g: GroupView): seq<KernelCall>
  {
    (if g.config.cpuLimit.isEnabled then CpuThrottling.CpuCalls(os, Some(g)) else []) +
    (if g.config.memoryLimit.isEnabled then MemoryGroupCalls(os, Some(g)) else [])
  }

  /** The calls of the priority and network steps. */
  function TailCalls(os: Os, g: GroupView): seq<KernelCall>
  {
    (if g.config.processPriority.isEnabled then PriorityThrottling.PriorityGroupCalls(os, Some(g)) else []) +
    (if g.config.networkLimit.isEnabled && NetworkThrottling.NetApplies(Some(g)) then [NetworkThrottling.NetCall(g)] else [])
  }

  /** The `success &= ...` of the dispatch: every enabled throttler succeeded. */
  predicate DispatchResult(os: Os, g: GroupView)
  {
    var c := g.config;
    && (c.cpuLimit.isEnabled ==> CpuThrottling.CpuResult(os, Some(g)))
    && (c.memoryLimit.isEnabled ==> MemoryGroupResult(os, Some(g)))
    && (c.processPriority.isEnabled ==> PriorityThrottling.PriorityResult(os, Some(g)))
    && (c.diskLimit.isEnabled ==> DiskGroupResult(os, Some(g)))
    && (c.networkLimit.isEnabled ==> NetworkThrottling.NetResult(os, Some(g)) == NetworkThrottling.Applied)
  }

  /** The memory registry after the dispatch: the group's limit when memory
      limiting is on, otherwise every member unregistered. */
  function MemoryAfter(m: map<int, MemoryEntry>, os: Os, g: GroupView): map<int, MemoryEntry>
  {
    if g.config.memoryLimit.isEnabled then MemoryGroupEntries(m, os, Some(g)) else m - Pids(g.processes)
  }

  /** The disk registry after the dispatch. */
  function DiskAfter(m: map<int, DiskEntry>, os: Os, g: GroupView, now: int): map<int, DiskEntry>
  {
    if g.config.diskLimit.isEnabled then DiskGroupEntries(m, os, Some(g), now) else m
  }

  /** A group with members and a handle passes the guard of every enabled
      throttler, so each enabled throttler really runs; a disabled throttler
      makes no call and does not affect the result; and the result is false
      as soon as one enabled throttler fails, whatever the others do. */
  lemma DispatchMeaning(os: Os, g: GroupView)
    requires g.processes != [] && g.jobHandle != 0
    ensures g.config.cpuLimit.isEnabled ==> CpuThrottling.CpuApplies(Some(g))
    ensures g.config.memoryLimit.isEnabled ==> MemoryApplies(Some(g))
    ensures g.config.processPriority.isEnabled ==> PriorityThrottling.PriorityApplies(Some(g))
    ensures g.config.diskLimit.isEnabled ==> DiskApplies(Some(g))
    ensures g.config.networkLimit.isEnabled ==> NetworkThrottling.NetApplies(Some(g))
    ensures (!g.config.cpuLimit.isEnabled && !g.config.memoryLimit.isEnabled &&
             !g.config.processPriority.isEnabled && !g.config.networkLimit.isEnabled) ==> DispatchCalls(os, g) == []
    ensures !DispatchResult(os, g) <==>
      || (g.config.cpuLimit.isEnabled && !CpuThrottling.CpuResult(os, Some(g)))
      || (g.config.memoryLimit.isEnabled && !MemoryGroupResult(os, Some(g)))
      || (g.config.processPriority.isEnabled && !PriorityThrottling.PriorityResult(os, Some(g)))
      || (g.config.diskLimit.isEnabled && !(forall p :: p in g.processes ==> os.readable(p.pid)))
      || (g.config.networkLimit.isEnabled && !os.accepts(NetworkThrottling.NetCall(g)))
  {
    if g.config.diskLimit.isEnabled {
      AllOverIsEvery(g.processes, DiskMemberOk(os));
    }
    NetworkThrottling.NetResultMeaning(os, Some(g));
  }

  /** How ApplyLimits ends: nothing to do (disabled or empty), no job handle
      even after re-initialisation, or the limits dispatched with a result. */
  datatype ApplyOutcome = Skipped | NoJob | Dispatched(success: bool)

  /** What the reconciler sees of a group: its view and its IsNew flag. */
  datatype GroupState = GroupState(view: GroupView, isNew: bool)

  class ProcessGroup {
    var config: ProcessConfig
    var processes: seq<Process>
    var jobHandle: nat
    var jobInitialized: bool
    var isNew: bool

    /** The job is initialised exactly when there is a handle, and members are unique by pid. */
    ghost predicate Valid()
      reads this
    {
      (jobInitialized <==> jobHandle != 0) && UniquePids(processes)
    }

    /** The group as the throttlers see it. */
    function View(): GroupView
      reads this
    {
      GroupView(config, processes, jobHandle)
    }

    function State(): GroupState
      reads this
    {
      GroupState(View(), isNew)
    }

    /** ProcessGroup(config): no members, not new, and a job object if one can be created. */
    constructor (config: ProcessConfig, kernel: Kernel)
      modifies kernel`log, kernel`jobAttempts
      ensures Valid()
      ensures this.config == config && processes == [] && !isNew
      ensures jobHandle == NewJobHandle(kernel.os, old(kernel.jobAttempts))
      ensures kernel.jobAttempts == old(kernel.jobAttempts) + 1
      ensures kernel.log == old(kernel.log) + InitCalls(kernel.os, old(kernel.jobAttempts))
    {
      this.config := config;
      processes := [];
      jobHandle := 0;
      jobInitialized := false;
      isNew := false;
      new;
      InitializeJob(kernel);
    }

    /** InitializeJob: nothing when already initialised; otherwise create the
        job and, when that yields a handle, set kill-on-close and mark the job
        initialised. */
    method InitializeJob(kernel: Kernel)
      requires Valid()
      modifies this`jobHandle, this`jobInitialized, kernel`log, kernel`jobAttempts
      ensures Valid()
      ensures old(jobInitialized) ==> jobHandle == old(jobHandle) && kernel.log == old(kernel.log) &&
                                      kernel.jobAttempts == old(kernel.jobAttempts)
      ensures !old(jobInitialized) ==>
        && jobHandle == NewJobHandle(kernel.os, old(kernel.jobAttempts))
        && kernel.jobAttempts == old(kernel.jobAttempts) + 1
        && kernel.log == old(kernel.log) + InitCalls(kernel.os, old(kernel.jobAttempts))
    {
      if jobInitialized {
        return;
      }
      ghost var attempt := kernel.jobAttempts;
      jobHandle := kernel.CreateJobObject();
      if jobHandle == 0 {
        return;
      }
      var _ := kernel.Invoke(SetJobInfo(jobHandle, ExtendedLimit(LIMIT_KILL_ON_JOB_CLOSE, 0)));
      jobInitialized := true;
    }

    /** AddProcess: a null process or a known pid changes nothing; otherwise
        the process is appended and, when the job is initialised and the
        process handle can be read, assigned to the job (a refusal keeps it
        in the list). */
    method AddProcess(p: Option<Process>, kernel: Kernel)
      requires Valid()
      modifies this`processes, kernel`log
      ensures Valid()
      ensures p.None? || p.value.pid in Pids(old(processes)) ==>
        processes == old(processes) && kernel.log == old(kernel.log)
      ensures p.Some? && p.value.pid !in Pids(old(processes)) ==>
        && processes == old(processes) + [p.value]
        && kernel.log == old(kernel.log) +
             (if jobHandle != 0 && kernel.os.readable(p.value.pid) then [AssignProcess(jobHandle, p.value.pid)] else [])
    {
      if p.None? || p.value.pid in Pids(processes) {
        return;
      }
      ghost var before := processes;
      processes := processes + [p.value];
      assert UniquePids(processes) by {
        forall i, j | 0 <= i < j < |processes| ensures processes[i].pid != processes[j].pid {
          if j == |before| {
            assert processes[i] == before[i];
          } else {
            assert processes[i] == before[i] && processes[j] == before[j];
          }
        }
      }
      if jobInitialized && jobHandle != 0 && kernel.os.readable(p.value.pid) {
        var _ := kernel.Invoke(AssignProcess(jobHandle, p.value.pid));
      }
    }

    /** ClearProcesses. */
    method ClearProcesses()
      requires Valid()
      modifies this`processes
      ensures Valid() && processes == []
    {
      processes := [];
    }

    /** One step of the dispatch: CPUThrottler.ApplyLimit when CPU limiting is on. */
    static method RunCpu(g: GroupView, kernel: Kernel) returns (ok: bool)
      modifies kernel`log
      ensures ok == (g.config.cpuLimit.isEnabled ==> CpuThrottling.CpuResult(kernel.os, Some(g)))
      ensures kernel.log == old(kernel.log) + (if g.config.cpuLimit.isEnabled then CpuThrottling.CpuCalls(kernel.os, Some(g)) else [])
    {
      ok := true;
      if g.config.cpuLimit.isEnabled {
        ok := CpuThrottling.ApplyLimit(Some(g), kernel);
      }
    }

    /** MemoryThrottler.ApplyLimit when memory limiting is on, otherwise
        every member unregistered from the memory monitor. */
    static method RunMemory(g: GroupView, memory: MemoryThrottler, kernel: Kernel) returns (ok: bool)
      requires memory.Valid()
      modifies memory, kernel`log
      ensures memory.Valid()
      ensures ok == (g.config.memoryLimit.isEnabled ==> MemoryGroupResult(kernel.os, Some(g)))
      ensures kernel.log == old(kernel.log) + (if g.config.memoryLimit.isEnabled then MemoryGroupCalls(kernel.os, Some(g)) else [])
      ensures memory.entries == MemoryAfter(old(memory.entries), kernel.os, g)
    {
      ok := true;
      if g.config.memoryLimit.isEnabled {
        ok := memory.ApplyLimit(Some(g), kernel);
      } else {
        memory.UnregisterAll(g.processes);
      }
    }

    static method RunPriority(g: GroupView, kernel: Kernel) returns (ok: bool)
      modifies kernel`log
      ensures ok == (g.config.processPriority.isEnabled ==> PriorityThrottling.PriorityResult(kernel.os, Some(g)))
      ensures kernel.log == old(kernel.log) +
        (if g.config.processPriority.isEnabled then PriorityThrottling.PriorityGroupCalls(kernel.os, Some(g)) else [])
    {
      ok := true;
      if g.config.processPriority.isEnabled {
        ok := PriorityThrottling.ApplyLimit(Some(g), kernel);
      }
    }

    static method RunDisk(g: GroupView, disk: DiskThrottler, os: Os, now: int) returns (ok: bool)
      requires disk.Valid()
      modifies disk
      ensures disk.Valid()
      ensures ok == (g.config.diskLimit.isEnabled ==> DiskGroupResult(os, Some(g)))
      ensures disk.entries == DiskAfter(old(disk.entries), os, g, now)
    {
      ok := true;
      if g.config.diskLimit.isEnabled {
        ok := disk.ApplyLimit(Some(g), os, now);
      }
    }

    static method RunNetwork(g: GroupView, kernel: Kernel) returns (ok: bool)
      modifies kernel`log
      ensures ok == (g.config.networkLimit.isEnabled ==> NetworkThrottling.NetResult(kernel.os, Some(g)) == NetworkThrottling.Applied)
      ensures kernel.log == old(kernel.log) +
        (if g.config.networkLimit.isEnabled && NetworkThrottling.NetApplies(Some(g)) then [NetworkThrottling.NetCall(g)] else [])
    {
      ok := true;
      if g.config.networkLimit.isEnabled {
        var outcome;
        ok, outcome := NetworkThrottling.ApplyLimit(Some(g), kernel);
      }
    }

    /** The first two throttlers of the dispatch: CPU, then memory. */
    static method DispatchHead(g: GroupView, memory: MemoryThrottler, kernel: Kernel) returns (success: bool)
      requires memory.Valid()
      modifies memory, kernel`log
      ensures memory.Valid()
      ensures success == (&& (g.config.cpuLimit.isEnabled ==> CpuThrottling.CpuResult(kernel.os, Some(g)))
                          && (g.config.memoryLimit.isEnabled ==> MemoryGroupResult(kernel.os, Some(g))))
      ensures kernel.log == old(kernel.log) + HeadCalls(kernel.os, g)
      ensures memory.entries == MemoryAfter(old(memory.entries), kernel.os, g)
    {
      ghost var log0 := kernel.log;
      success := true;
      var ok := RunCpu(g, kernel);
      success := success && ok;
      ghost var log1 := kernel.log;
      ok := RunMemory(g, memory, kernel);
      success := success && ok;
      AppendAssoc(log0, log1[|log0|..], kernel.log[|log1|..]);
    }

    /** The last three throttlers of the dispatch: priority, disk, network. */
    static method DispatchTail(g: GroupView, disk: DiskThrottler, kernel: Kernel, now: int) returns (success: bool)
      requires disk.Valid()
      modifies disk, kernel`log
      ensures disk.Valid()
      ensures success == (&& (g.config.processPriority.isEnabled ==> PriorityThrottling.PriorityResult(kernel.os, Some(g)))
                          && (g.config.diskLimit.isEnabled ==> DiskGroupResult(kernel.os, Some(g)))
                          && (g.config.networkLimit.isEnabled ==>
                                NetworkThrottling.NetResult(kernel.os, Some(g)) == NetworkThrottling.Applied))
      ensures kernel.log == old(kernel.log) + TailCalls(kernel.os, g)
      ensures disk.entries == DiskAfter(old(disk.entries), kernel.os, g, now)
    {
      ghost var log0 := kernel.log;
      success := true;
      var ok := RunPriority(g, kernel);
      success := success && ok;
      ghost var log1 := kernel.log;
      ok := RunDisk(g, disk, kernel.os, now);
      success := success && ok;
      ok := RunNetwork(g, kernel);
      success := success && ok;
      AppendAssoc(log0, log1[|log0|..], kernel.log[|log1|..]);
    }

    /** The five throttlers in order, each when enabled, the result ANDed
        without short-circuit. */
    static method Dispatch(g: GroupView, memory: MemoryThrottler, disk: DiskThrottler, kernel: Kernel, now: int)
      returns (success: bool)
      requires memory.Valid() && disk.Valid()
      modifies memory, disk, kernel`log
      ensures memory.Valid() && disk.Valid()
      ensures success == DispatchResult(kernel.os, g)
      ensures kernel.log == old(kernel.log) + DispatchCalls(kernel.os, g)
      ensures memory.entries == MemoryAfter(old(memory.entries), kernel.os, g)
      ensures disk.entries == DiskAfter(old(disk.entries), kernel.os, g, now)
    {
      var head := DispatchHead(g, memory, kernel);
      var tail := DispatchTail(g, disk, kernel, now);
      success := head && tail;
      AppendAssoc(old(kernel.log), HeadCalls(kernel.os, g), TailCalls(kernel.os, g));
    }

    /** ApplyLimits: nothing for a disabled or empty group; re-initialise a
        missing job and give up if there is still no handle (IsNew is kept);
        otherwise dispatch and clear IsNew. */
    method ApplyLimits(memory: MemoryThrottler, disk: DiskThrottler, kernel: Kernel, now: int) returns (outcome: ApplyOutcome)
      requires Valid() && memory.Valid() && disk.Valid()
      modifies this`jobHandle, this`jobInitialized, this`isNew, memory, disk, kernel`log, kernel`jobAttempts
      ensures Valid() && memory.Valid() && disk.Valid()
      ensures outcome.Skipped? <==> !config.isEnabled || processes == []
      ensures outcome.Skipped? ==>
        && jobHandle == old(jobHandle) && isNew == old(isNew) && kernel.log == old(kernel.log)
        && kernel.jobAttempts == old(kernel.jobAttempts)
        && memory.entries == old(memory.entries) && disk.entries == old(disk.entries)
      ensures !outcome.Skipped? ==>
        var init := if old(jobHandle) == 0 then InitCalls(kernel.os, old(kernel.jobAttempts)) else [];
        && jobHandle == (if old(jobHandle) == 0 then NewJobHandle(kernel.os, old(kernel.jobAttempts)) else old(jobHandle))
        && kernel.jobAttempts == old(kernel.jobAttempts) + (if old(jobHandle) == 0 then 1 else 0)
        && (outcome.NoJob? <==> jobHandle == 0)
        && (outcome.NoJob? ==>
              && isNew == old(isNew) && kernel.log == old(kernel.log) + init
              && memory.entries == old(memory.entries) && disk.entries == old(disk.entries))
        && (outcome.Dispatched? ==>
              && !isNew
              && outcome.success == DispatchResult(kernel.os, View())
              && kernel.log == old(kernel.log) + init + DispatchCalls(kernel.os, View())
              && memory.entries == MemoryAfter(old(memory.entries), kernel.os, View())
              && disk.entries == DiskAfter(old(disk.entries), kernel.os, View(), now))
    {
      if !config.isEnabled || processes == [] {
        return Skipped;
      }
      if !jobInitialized || jobHandle == 0 {
        InitializeJob(kernel);
        if jobHandle == 0 {
          return NoJob;
        }
      }
      var success := Dispatch(View(), memory, disk, kernel, now);
      isNew := false;
      return Dispatched(success);
    }

    /** Dispose: unregister every member from the memory monitor (and only
        from it), close the job handle if there is one, and clear the members.
        A disposed group disposes again without any effect. */
    method Dispose(memory: MemoryThrottler, kernel: Kernel)
      requires Valid() && memory.Valid()
      modifies this`processes, this`jobHandle, this`jobInitialized, memory, kernel`log
      ensures Valid() && memory.Valid()
      ensures processes == [] && jobHandle == 0 && !jobInitialized
      ensures memory.entries == old(memory.entries) - Pids(old(processes))
      ensures kernel.log == old(kernel.log) + (if old(jobHandle) != 0 then [CloseJob(old(jobHandle))] else [])
      ensures old(processes) == [] && old(jobHandle) == 0 ==>
        memory.entries == old(memory.entries) && kernel.log == old(kernel.log)
    {
      memory.UnregisterAll(processes);
      ReleaseJob(kernel);
      processes := [];
      NoPidsRemoved(old(memory.entries));
    }

    /** Close the job handle, if there is one, and forget it. */
    method ReleaseJob(kernel: Kernel)
      modifies this`jobHandle, this`jobInitialized, kernel`log
      ensures jobHandle == 0 && !jobInitialized
      ensures kernel.log == old(kernel.log) + (if old(jobHandle) != 0 then [CloseJob(old(jobHandle))] else [])
    {
      if jobHandle != 0 {
        var _ := kernel.Invoke(CloseJob(jobHandle));
      }
      jobHandle := 0;
      jobInitialized := false;
    }
  }

  /** Unregistering no processes leaves a registry as it is. */
  lemma NoPidsRemoved<E>(m: map<int, E>)
    ensures m - Pids([]) == m
  {
    assert Pids([]) == {};
  }
}
