# ProcessThrottler engine, modelled in Dafny

ProcessThrottler is a Windows tool that governs how much of a machine a
configured set of programs may use. Each configuration can set limits on:

- CPU: a rate control on a job object, plus an affinity mask per process;
- memory: a job-wide cap, a working-set cap per process, and a monitor that
  trims or kills processes over their cap;
- scheduling priority;
- disk throughput: a monitor that suspends a process for part of a second
  when it reads and writes too fast;
- network bandwidth, with a DSCP tag.

A configuration lists executable paths. A timer, every 300 ms, takes a
process snapshot and compares it with the last one. When a pid has appeared
or disappeared, the engine:

- rebuilds one *process group* per configuration, holding the running
  processes whose image path matches (ignoring case);
- puts each group's members into a newly created job object;
- applies the limits of the groups that gained members (`IsNew`).

This project models that engine and proves what it does:

- **`models.dfy`** (`Models`): the configuration records and enums, with
  their default values.
- **`kernel.dfy`** (`Kernel`): the operating system as the engine sees it.
  - Processes are pid plus image path.
  - Every foreign call is a `KernelCall` value appended to a log by a
    `Kernel` object.
  - Oracles (`Os`) answer whether a call succeeds, which Win32 error it
    leaves, whether the process reads inside a per-member try block
    succeed, and the processor count.
  - Also here: the unchecked 64-bit arithmetic the code relies on, and
    ASCII lower-casing.
- **`masks.dfy`** (`Masks`): 64-bit affinity masks.
- **`cpu_throttler.dfy`, `priority_throttler.dfy`, `network_throttler.dfy`**:
  - the descriptors and values these throttlers compute, as functions;
  - their `ApplyLimit(ProcessGroup)`, as methods proved against a
    specification of their calls and result.
- **`memory_throttler.dfy`, `disk_throttler.dfy`**: each monitor registry is a
  class with a pid-keyed map and the "monitoring started" flag, with:
  - register, unregister and cleanup;
  - the group `ApplyLimit`;
  - one pass of the monitor loop, proved equal to an order-free
    description.
- **`registry.dfy`** (`Registries`): the pass over a snapshot of the
  registry, shared by both monitors. It proves that visiting the pids one
  after another equals judging each entry on its state at the start of the
  pass.
- **`process_group.dfy`** (`ProcessGroups`): the `ProcessGroup` class, which
  holds:
  - its member list, unique by pid;
  - the job-handle lifecycle;
  - the `IsNew` flag;
  - the fixed-order, non-short-circuit dispatch to the five throttlers.
- **`core.dfy`** (`Reconciler`): the `Core` class, with:
  - the snapshot diff;
  - the group rebuild;
  - the choice of groups whose limits are applied;
  - the timer tick `CheckProcesses`.

  Its effects on the world outside the groups (kernel log, the two
  registries, job creation attempts) are stated through the `Effects`
  functions `AfterDispose`, `AfterBuild`, `ApplyOne` and `ApplyAll`.

The source paths below are relative to the repository root (`ProcessThrottler/...`).

## Model

| member | source | states |
|---|---|---|
| Models.NewProcessConfig | ProcessThrottler/ProcessModels.cs:6-16 | A new configuration has no name, is disabled, has an empty path list, and holds the default record of every limit kind. |
| Models.NewPathConfig | ProcessThrottler/ProcessModels.cs:18-22 | A new path entry has no file path and an empty parameter list. |
| Models.NewCpuLimit | ProcessThrottler/ProcessModels.cs:24-35 | A new CPU limit is disabled, both modes are the ordinal-0 case None, and every number is 0. |
| Models.NewMemoryLimit | ProcessThrottler/ProcessModels.cs:51-59 | A new memory limit is disabled with limit 0. Monitoring is on, auto-trim and terminate are off, and the overuse action is ordinal 0. |
| Models.NewDiskLimit | ProcessThrottler/ProcessModels.cs:67-71 | A new disk limit is disabled with rate 0. |
| Models.NewNetworkLimit | ProcessThrottler/ProcessModels.cs:73-79 | A new network limit is disabled, has no transfer priority, and has rate and priority 0. |
| Models.NewProcessPriority | ProcessThrottler/ProcessModels.cs:81-85 | A new priority setting is disabled with value 0. |
| Models.CpuLimitTypeOrdinal | ProcessThrottler/ProcessModels.cs:37-42 | CpuLimitType has values below 3, with None as value 0 and only None there. |
| Models.CoreLimitTypeOrdinal | ProcessThrottler/ProcessModels.cs:44-49 | CoreLimitType has values below 3, with None as value 0 and only None there. |
| Models.OveruseActionOrdinal | ProcessThrottler/ProcessModels.cs:61-65 | MemoryOveruseAction has values below 2, with TransferToPageFile as value 0. |
| Models.CpuLimitTypeCases | ProcessThrottler/ProcessModels.cs:37-42 | The three rate modes exhaust the type, and distinct modes have distinct values. |
| Models.CoreLimitTypeCases | ProcessThrottler/ProcessModels.cs:44-49 | The three core modes exhaust the type, and distinct modes have distinct values. |
| Models.OveruseActionCases | ProcessThrottler/ProcessModels.cs:61-65 | There are exactly two distinct overuse actions. |
| Models.Clamp | ProcessThrottler/CPUThrottler.cs:145 | `Max(lo, Min(hi, x))` lies in [lo, hi]: it is x inside the range, lo below it and hi above it. |
| Models.EffectiveActions | ProcessThrottler/MemoryThrottler.cs:135-139 | Effective trim is the flag or TransferToPageFile; effective terminate is the flag or TerminateProcess. So every limit trims or terminates, without the flags exactly one of the two, and a default limit trims. |
| Kernel.ToU64 | ProcessThrottler/MemoryThrottler.cs:81 | `(ulong)x` is x for a non-negative x and x + 2^64 for a negative one. |
| Kernel.SubU64 | ProcessThrottler/DiskThrottler.cs:202 | Unsigned subtraction is the difference, or wraps around by 2^64 when it would go below zero. |
| Kernel.AddU64 | ProcessThrottler/DiskThrottler.cs:206 | Unsigned addition is the sum, or the sum minus 2^64 when it overflows. |
| Kernel.Lower | ProcessThrottler/Core.cs:380 | Lower-casing keeps the length and leaves no capital A-Z. Every result character is its original up to ASCII case. |
| Kernel.LowerIdempotent | ProcessThrottler/Core.cs:380 | Lower-casing an already lower-cased string changes nothing. |
| Kernel.LowerEqualIff | ProcessThrottler/Core.cs:380 | Two strings lower-case to the same string exactly when they have equal length and, at each position, the same character or the same letter in the other case. |
| Kernel.AllOverIsEvery | ProcessThrottler/CPUThrottler.cs:42-55 | The `success &=` accumulation over members is true exactly when every member succeeded; a failure neither stops nor is skipped by the loop. |
| Kernel.CallsOverMembers | ProcessThrottler/CPUThrottler.cs:42-55 | A per-member loop makes a call exactly when some member's step makes it. |
| Kernel.Kernel.Invoke | ProcessThrottler/NativeMethods.cs:1-189 | A foreign call is appended to the log, and its result is the oracle's answer. |
| Kernel.Kernel.CreateJobObject | ProcessThrottler/ProcessGroup.cs:66 | Every creation attempt is logged. It yields a nonzero handle when the kernel accepts, and 0 when it refuses. |
| Masks.LowMaskBits | ProcessThrottler/CPUThrottler.cs:225-234 | The low mask of n has exactly the bits 0..n-1 set. |
| Masks.SingleBit | ProcessThrottler/CPUThrottler.cs:203 | For a shift count j below 64, `1UL << j` has exactly bit j set. |
| Masks.ShiftedBit | ProcessThrottler/CPUThrottler.cs:203 | `1UL << n` has exactly bit n mod 64 set, because C# masks the shift count to its low six bits. |
| CpuThrottling.RelativeWeightValue | ProcessThrottler/CPUThrottler.cs:135 | The job weight is the configured weight clamped to 1..9. |
| CpuThrottling.CpuRateValue | ProcessThrottler/CPUThrottler.cs:145-147 | The hard cap is the percentage clamped to 1..100, times 100: a multiple of 100 in [100, 10000]. |
| CpuThrottling.CpuRateDescriptorMeaning | ProcessThrottler/CPUThrottler.cs:117-148 | None mode sends no descriptor. Otherwise ENABLE is set, WEIGHT_BASED exactly in RelativeWeight mode, HARD_CAP exactly in AbsoluteRate mode, and the value is in that mode's range. |
| CpuThrottling.GetAffinityMaskForCoreCount | ProcessThrottler/CPUThrottler.cs:225-234 | The OR loop returns the mask whose set bits are exactly those below the count. |
| CpuThrottling.CoresUsed | ProcessThrottler/CPUThrottler.cs:195 | A CoreCount limit uses between 1 and the processor count cores. |
| CpuThrottling.CoreUsed | ProcessThrottler/CPUThrottler.cs:202 | A CoreNumber limit pins to a core below the processor count. |
| CpuThrottling.AffinityMaskMeaning | ProcessThrottler/CPUThrottler.cs:183-209 | No core limit means no mask. A CoreCount mask is nonzero and holds exactly the clamp(CoreCount, 1, cores) lowest cores. A CoreNumber mask is nonzero and holds exactly the single core clamp(CoreNumber, 0, cores-1). |
| CpuThrottling.CpuApplyMeaning | ProcessThrottler/CPUThrottler.cs:19-63 | A failed guard means false and no call at all. Otherwise the result is the rate result AND every member's affinity result. The calls are the rate call plus one SetAffinity per readable member; with no core limit, only the rate call. |
| CpuThrottling.ApplyCpuRateLimit | ProcessThrottler/CPUThrottler.cs:109-171 | No handle means false without a call. No rate mode means true without a call. Otherwise one descriptor call decides. |
| CpuThrottling.ApplyCpuCoreLimit | ProcessThrottler/CPUThrottler.cs:181-218 | One member's affinity step: an unreadable process fails without a call, no core limit succeeds without a call, otherwise its mask is set. |
| CpuThrottling.ApplyCoreLimits | ProcessThrottler/CPUThrottler.cs:42-55 | The member loop makes every member's affinity call in order and ANDs the results. |
| CpuThrottling.ApplyLimit | ProcessThrottler/CPUThrottler.cs:19-63 | The method's result and log are those of the CpuApplyMeaning specification. |
| PriorityThrottling.PriorityClassMapping | ProcessThrottler/PriorityThrottler.cs:96-108 | 0..5 map one-to-one onto Idle, BelowNormal, Normal, AboveNormal, High and RealTime; every other value maps to Normal. |
| PriorityThrottling.PriorityValueOf | ProcessThrottler/PriorityThrottler.cs:98-105 | Every class has a configuration value in 0..5. |
| PriorityThrottling.PriorityApplyMeaning | ProcessThrottler/PriorityThrottler.cs:19-56 | A failed guard means false and no call. Otherwise every call sets the one configured class on a readable member, every readable member gets it, and the result is true iff no member failed. |
| PriorityThrottling.SetMemberPriority | ProcessThrottler/PriorityThrottler.cs:30-47 | One member: an unreadable process fails without a call; otherwise the class is set and the kernel's answer is the result. |
| PriorityThrottling.ApplyLimit | ProcessThrottler/PriorityThrottler.cs:19-56 | The method's result and log are those of the PriorityApplyMeaning specification. |
| NetworkThrottling.MaxBandwidth | ProcessThrottler/NetworkThrottler.cs:42 | The bandwidth is the KB/s limit times 1024, wrapping modulo 2^64 for a negative limit. |
| NetworkThrottling.NetRateDescriptorMeaning | ProcessThrottler/NetworkThrottler.cs:37-52 | ENABLE is always set, DSCP_TAG exactly when a transfer priority is specified, and MAX_BANDWIDTH and every other flag never. The tag is clamp(priority, 0, 63), or 0 without a priority. |
| NetworkThrottling.NetResultMeaning | ProcessThrottler/NetworkThrottler.cs:20-95 | Applied exactly when the guard holds and the kernel accepts. Unsupported exactly when it refuses with error 1150. Not attempted exactly when the guard fails. |
| NetworkThrottling.ApplyLimit | ProcessThrottler/NetworkThrottler.cs:20-95 | True iff the descriptor was set. The outcome is NetResult, and the one call is made only when the guard holds. |
| MemoryThrottling.CapBytes | ProcessThrottler/MemoryThrottler.cs:81 | The byte cap is the MB limit times 2^20, wrapping modulo 2^64 for a negative limit. |
| MemoryThrottling.RegisteredMeaning | ProcessThrottler/MemoryThrottler.cs:225-261 | A null process or a limit <= 0 changes nothing. A known pid gets the new limit and flags but keeps its process, its last usage and the map size. A new pid starts with usage 0. No other entry changes. |
| MemoryThrottling.RegisteredAllKeys | ProcessThrottler/MemoryThrottler.cs:108-156 | Registering a group adds exactly the pids of its readable members. |
| MemoryThrottling.RegisteredAllFields | ProcessThrottler/MemoryThrottler.cs:133-142 | Every registered member carries the group's limit and its effective trim and terminate actions. |
| MemoryThrottling.RegisteredAllUntouched | ProcessThrottler/MemoryThrottler.cs:108-156 | Entries of pids outside the group's readable members are left as they were. |
| MemoryThrottling.RegisteredAllIgnored | ProcessThrottler/MemoryThrottler.cs:233-237 | With a limit <= 0, registering a group changes nothing. |
| MemoryThrottling.PassMeaning | ProcessThrottler/MemoryThrottler.cs:301-351 | A failed sample unregisters the entry with no call. Usage at or under the cap only refreshes it. Over the cap, an entry with auto-trim and a readable handle is trimmed, and one with terminate set is unregistered and killed (unless its trim attempt threw first). Conversely, a kill implies terminate was set and the entry is gone, and a trim implies auto-trim and usage over the cap. An entry leaves exactly when its sample fails, or it is over the cap with terminate set or with auto-trim on an unreadable handle. Survivors hold the fresh sample, their limit and their process. No pid is added. |
| MemoryThrottling.MemoryApplyMeaning | ProcessThrottler/MemoryThrottler.cs:57-165 | A failed guard means false and no call. Otherwise the first call sets the job cap of limit MB, and every other call caps one readable member's working set at the same bytes with minimum 1. The result is true iff all of those succeeded. |
| MemoryThrottling.MemoryThrottler.constructor | ProcessThrottler/MemoryThrottler.cs:17-25 | The registry starts empty, with monitoring stopped. |
| MemoryThrottling.MemoryThrottler.CurrentUsage | ProcessThrottler/MemoryThrottler.cs:473-483 | The entry's last sampled usage, or 0 for an unknown pid. |
| MemoryThrottling.MemoryThrottler.RegisterProcess | ProcessThrottler/MemoryThrottler.cs:225-261 | The map becomes Registered(old map, …). The started flag stays on exactly while the map is nonempty, and an ignored registration leaves it unchanged. |
| MemoryThrottling.MemoryThrottler.UnregisterProcess | ProcessThrottler/MemoryThrottler.cs:266-282 | The pid is removed. An absent pid changes nothing. Removing the last entry stops monitoring. |
| MemoryThrottling.MemoryThrottler.Cleanup | ProcessThrottler/MemoryThrottler.cs:538-547 | The registry is empty and monitoring is stopped. |
| MemoryThrottling.MemoryThrottler.UnregisterAll | ProcessThrottler/ProcessGroup.cs:298-312 | Unregistering a list removes exactly its pids and keeps the flag invariant. |
| MemoryThrottling.MemoryThrottler.ApplyToMember | ProcessThrottler/MemoryThrottler.cs:110-155 | One member: the working-set cap call when readable, then registration when limiting and monitoring are on. The result is the cap call's answer, and false for an unreadable process. |
| MemoryThrottling.MemoryThrottler.ApplyLimit | ProcessThrottler/MemoryThrottler.cs:57-165 | The method's result, log and registry are those of the MemoryApplyMeaning specification; members are registered only when monitoring is enabled. |
| MemoryThrottling.MemoryThrottler.MonitorEntry | ProcessThrottler/MemoryThrottler.cs:303-350 | One visit: a failed sample unregisters. Otherwise usage is recorded. Over the cap: trim (an unreadable handle unregisters), then kill and unregister. |
| MemoryThrottling.MemoryThrottler.MonitorPass | ProcessThrottler/MemoryThrottler.cs:289-361 | A pass over a snapshot of all registered pids leaves the registry and calls of visiting every entry once, judged on its state at the start of the pass. |
| DiskThrottling.RegisteredMeaning | ProcessThrottler/DiskThrottler.cs:110-137 | A null process is ignored and any limit is accepted. A known pid gets only the new limit and keeps its counters, clock reading, rate and the map size. A new pid starts with zero counters, zero rate and the current time. No other entry changes. |
| DiskThrottling.RegisteredAllKeys | ProcessThrottler/DiskThrottler.cs:274-294 | Registering a group adds exactly the pids of its readable members. |
| DiskThrottling.RegisteredAllLimit | ProcessThrottler/DiskThrottler.cs:282 | Every readable member ends up with the group's rate limit. |
| DiskThrottling.RegisteredAllUntouched | ProcessThrottler/DiskThrottler.cs:274-294 | Entries of pids outside the group's readable members are left as they were. |
| DiskThrottling.PerSecond | ProcessThrottler/DiskThrottler.cs:202-204 | Integer division by whole seconds: q·s <= delta < q·s + s. |
| DiskThrottling.Throughput | ProcessThrottler/DiskThrottler.cs:202-206 | Without wrap-around, the rate is the read delta per second plus the write delta per second. |
| DiskThrottling.SuspendMsMeaning | ProcessThrottler/DiskThrottler.cs:215-219 | The suspension is at most 900 ms, and exactly 900 when the excess is at least 90% of the rate. Below that it is the truncated thousandths of the excess share. It is positive iff the excess is at least a thousandth of the rate. |
| DiskThrottling.SuspendMsExamples | ProcessThrottler/DiskThrottler.cs:215-217 | 20 MB/s against 10 suspends for 500 ms; 100 MB/s against 1 hits the 900 ms cap. |
| DiskThrottling.VisitMeaning | ProcessThrottler/DiskThrottler.cs:182-246 | Under 100 ms the entry is left exactly as it was. An unreadable process is unregistered, and so is a nonzero previous sample under one whole second (division by zero). Zero previous counters just store the reading. A measured entry records its throughput. After the 100 ms check, a failed counter read counts as all-zero counters, which is the fallback of GetIOCounters at DiskThrottler.cs:357-375. The process and limit are always kept. |
| DiskThrottling.VisitCallsMeaning | ProcessThrottler/DiskThrottler.cs:199-235 | A visit calls the kernel only for a measured rate strictly over the limit with a positive duration. It then calls suspend, sleep of 1..900 ms, and resume, in that order. |
| DiskThrottling.DiskApplyMeaning | ProcessThrottler/DiskThrottler.cs:265-333 | A failed guard means false and nothing registered. Otherwise the result is true iff every member is readable, the readable members are exactly the pids added, and each has the configured rate. No job handle is needed. |
| DiskThrottling.DiskThrottler.constructor | ProcessThrottler/DiskThrottler.cs:19-27 | The registry starts empty, with monitoring stopped. |
| DiskThrottling.DiskThrottler.CurrentIORate | ProcessThrottler/DiskThrottler.cs:340-350 | The entry's last measured rate, or 0 for an unknown pid. |
| DiskThrottling.DiskThrottler.RegisterProcess | ProcessThrottler/DiskThrottler.cs:110-137 | The map becomes Registered(old map, …). The started flag stays on exactly while the map is nonempty. |
| DiskThrottling.DiskThrottler.UnregisterProcess | ProcessThrottler/DiskThrottler.cs:142-158 | The pid is removed. An absent pid changes nothing. Removing the last entry stops monitoring. |
| DiskThrottling.DiskThrottler.Cleanup | ProcessThrottler/DiskThrottler.cs:412-421 | The registry is empty and monitoring is stopped. |
| DiskThrottling.DiskThrottler.ApplyToProcess | ProcessThrottler/DiskThrottler.cs:313-333 | True iff the process exists and disk limiting is on, and then it is registered with the configured rate. Otherwise nothing changes. |
| DiskThrottling.DiskThrottler.ApplyLimit | ProcessThrottler/DiskThrottler.cs:265-302 | The method's result and registry are those of the DiskApplyMeaning specification. |
| DiskThrottling.DiskThrottler.Throttle | ProcessThrottler/DiskThrottler.cs:212-233 | Over the limit with a positive duration: suspend, sleep and resume. Otherwise no call. |
| DiskThrottling.DiskThrottler.MonitorEntry | ProcessThrottler/DiskThrottler.cs:179-246 | One visit leaves the registry and calls of the specification function DiskNext and the DiskCalls log. |
| DiskThrottling.DiskThrottler.MonitorPass | ProcessThrottler/DiskThrottler.cs:163-258 | A pass over a snapshot of all registered pids leaves the registry and calls of visiting every entry once, judged on its state at the start of the pass. |
| Registries.SweepOrderFree | ProcessThrottler/MemoryThrottler.cs:297-301 | Visiting distinct registered pids in snapshot order equals the order-free result: no visit sees another's effect. |
| Registries.SweptAll | ProcessThrottler/DiskThrottler.cs:173-177 | After a full pass an entry is present exactly when its own visit keeps it, and it holds what that visit made of it. No pid is added. |
| Registries.SweptStep | ProcessThrottler/MemoryThrottler.cs:301-351 | Visiting one more pid replaces or removes just that pid's entry. |
| Registries.VisitOthers | ProcessThrottler/DiskThrottler.cs:177-247 | A visit leaves every other pid's entry alone. |
| Registries.SnapshotCovers | ProcessThrottler/MemoryThrottler.cs:297 | A snapshot listing each registered pid once covers the whole registry. |
| ProcessGroups.InitMeaning | ProcessThrottler/ProcessGroup.cs:58-140 | A failed creation leaves no handle and makes no further call. A successful one yields a nonzero handle, then one kill-on-close call on it (its result is ignored). |
| ProcessGroups.DispatchMeaning | ProcessThrottler/ProcessGroup.cs:285-330 | With members and a handle, every enabled throttler passes its own guard, so it really runs, and a disabled one makes no call. The result is false as soon as any enabled throttler fails. |
| ProcessGroups.ProcessGroup.constructor | ProcessThrottler/ProcessGroup.cs:49-53 | A new group has the config, no members and IsNew false, and holds the handle of one creation attempt. |
| ProcessGroups.ProcessGroup.InitializeJob | ProcessThrottler/ProcessGroup.cs:58-140 | An initialised job is left alone. Otherwise the group gets NewJobHandle and the InitCalls calls, and is initialised exactly when it has a handle. |
| ProcessGroups.ProcessGroup.AddProcess | ProcessThrottler/ProcessGroup.cs:201-255 | Null or a known pid changes nothing. Otherwise the process is appended, pids stay unique, and it is assigned to the job when there is a handle and the process is readable. A refused assignment keeps it. |
| ProcessGroups.ProcessGroup.ClearProcesses | ProcessThrottler/ProcessGroup.cs:260-263 | The member list becomes empty. |
| ProcessGroups.ProcessGroup.RunMemory | ProcessThrottler/ProcessGroup.cs:294-312 | Memory limiting on: ApplyLimit. Off: every member is unregistered from the memory monitor instead. |
| ProcessGroups.ProcessGroup.Dispatch | ProcessThrottler/ProcessGroup.cs:285-330 | CPU, memory, priority, disk and network run in that order, each when enabled. The result is their AND without short-circuit, and the calls are the concatenation of theirs. |
| ProcessGroups.ProcessGroup.ApplyLimits | ProcessThrottler/ProcessGroup.cs:268-339 | A disabled or empty group is skipped with nothing changed. A missing handle is re-created; if there is still none, it returns with IsNew kept. Otherwise it dispatches and IsNew becomes false. |
| ProcessGroups.ProcessGroup.Dispose | ProcessThrottler/ProcessGroup.cs:631-659 | Members are unregistered from the memory monitor only. A nonzero handle is closed and forgotten, and the members are cleared. A disposed group disposes again without effect. |
| Reconciler.PathMatchesMeaning | ProcessThrottler/Core.cs:380 | A process matches a path exactly when both its image path and the configured path can be read and they are equal ignoring ASCII case. |
| Reconciler.MatchesMeaning | ProcessThrottler/Core.cs:373-389 | FindProcessesByPath returns exactly the snapshot processes that satisfy PathMatches for the path, that is (by PathMatchesMeaning) whose readable image path equals it ignoring ASCII case. |
| Reconciler.CandidatesMeaning | ProcessThrottler/Core.cs:164-173 | The matches of all paths are the snapshot processes matching some configured path. |
| Reconciler.JoinMeaning | ProcessThrottler/ProcessGroup.cs:203-206 | Adding a process keeps pids unique and adds its pid, and only when the pid was absent. |
| Reconciler.GatherUnique | ProcessThrottler/Core.cs:164-173 | Adding matches one at a time keeps pids unique and adds only matched processes. |
| Reconciler.GatherPids | ProcessThrottler/Core.cs:164-173 | Adding matches covers their pids, and something is added whenever there is a match. |
| Reconciler.MembersMeaning | ProcessThrottler/Core.cs:154-184 | A group's members are exactly the snapshot processes satisfying PathMatches for some configured path (equality ignoring ASCII case, by PathMatchesMeaning), one per pid. A disabled config gets none. IsNew holds exactly when there are members. |
| Reconciler.UnseenMeaning | ProcessThrottler/Core.cs:272-281 | The new (or ended) processes are exactly those whose pid is absent from the other snapshot. |
| Reconciler.ChangedMeaning | ProcessThrottler/Core.cs:284 | A tick sees a change exactly when the two snapshots' pid sets differ. |
| Reconciler.BuiltIndex | ProcessThrottler/Core.cs:154-184 | The i-th group is built for the i-th configuration, on the i-th creation attempt. |
| Reconciler.Rebuilt | ProcessThrottler/Core.cs:150-151 | No configurations or an empty snapshot give no groups at all. |
| Reconciler.RebuiltMeaning | ProcessThrottler/Core.cs:154-184 | One group per configuration, in order, holding its config and Members. A disabled one has no members and is not new; an enabled one is new exactly when it has members. |
| Reconciler.DisposedMeaning | ProcessThrottler/Core.cs:141-144 | Disposing the groups forgets exactly their members' pids in the memory monitor and closes exactly their nonzero handles. |
| Reconciler.UnregisteredMeaning | ProcessThrottler/Core.cs:141-144 | Disposing groups one at a time removes the members of all of them. |
| Reconciler.NothingEligible | ProcessThrottler/Core.cs:349-355 | When no group is eligible, applying changes nothing at all. |
| Reconciler.AppliedMeaning | ProcessThrottler/Core.cs:360-369 | Applying keeps every group's config and members, and leaves an ineligible group as it was. An eligible group stays new exactly when it still has no handle, and keeps a handle it had. |
| Reconciler.ApplyStateMeaning | ProcessThrottler/ProcessGroup.cs:274-333 | An applied group is no longer new and has a handle. It stays new only when it had no handle and the creation was refused. |
| Reconciler.Core.constructor | ProcessThrottler/Core.cs:14-19 | A new reconciler has an empty snapshot, the first-run flag set, and no configurations and no groups. |
| Reconciler.Core.FindProcessesByPath | ProcessThrottler/Core.cs:373-389 | The loop returns Matches: the matching processes, in snapshot order. |
| Reconciler.Core.AddMatches | ProcessThrottler/Core.cs:167-172 | Each match is added in order; the result says whether there was any match. |
| Reconciler.Core.AddPaths | ProcessThrottler/Core.cs:161-173 | The matches of every path join the group in order; the flag says whether any did. |
| Reconciler.Core.BuildGroup | ProcessThrottler/Core.cs:156-183 | The new group is BuiltGroup: the config's Members, the new handle, and IsNew = Matched. Its calls are the job creation plus one assignment per member. |
| Reconciler.Core.DisposeAll | ProcessThrottler/Core.cs:141-144 | Every group is disposed in order: its members are unregistered from memory and its handle is closed. |
| Reconciler.Core.UpdateProcessGroups | ProcessThrottler/Core.cs:138-191 | Old groups are disposed, then one group per configuration is built. There are no groups without configurations or processes. |
| Reconciler.Core.UpdateProcessConfigs | ProcessThrottler/Core.cs:110-133 | An empty list changes nothing. Otherwise the configs are replaced; an empty snapshot is first filled and clears the first-run flag; then the groups are rebuilt. |
| Reconciler.Core.ApplyProcessLimits | ProcessThrottler/Core.cs:346-370 | Nothing happens when no group is new. Otherwise only enabled, nonempty, new groups are applied, in order. |
| Reconciler.Core.CheckProcesses | ProcessThrottler/Core.cs:251-340 | A failed snapshot, or a later tick with the same pid set, changes nothing. The first tick stores the snapshot and rebuilds without applying. A change stores the snapshot, rebuilds, and applies the new groups. |
| Reconciler.Core.Dispose | ProcessThrottler/Core.cs:434-456 | Every group is disposed, and the list and the snapshot are cleared. |

## Left out

- Threads, the 300 ms timer and locks: the monitor threads' start, join and abort, `Thread.Sleep` and `Core.Start`/`Stop` are not modelled. The monitors keep only their started flag, and a monitor loop is one pass (`MonitorPass`) that the caller repeats. The sleep of a disk suspension is a logged `Sleep` call.
- The clock, `DateTime.Now` and the per-entry sampling times are parameters (`now`, `clock`). Elapsed time is in whole milliseconds, and `(ulong)elapsedSeconds` is the elapsed milliseconds divided by 1000.
- Floating point:
  - memory usage is kept in bytes, not doubles in MB, and is over the limit when bytes > limit · 2^20;
  - disk rates are integer bytes per second, compared with limit · 2^20;
  - the suspend share is computed in exact integer arithmetic with truncation.
- Exceptions from logging, from the notification strings and from `Marshal` are not modelled. An exception from the reads of a process inside a per-member try block (its name, then its handle) is the `readable` oracle: that member fails and the loop goes on. In `CheckProcesses` a failed snapshot is `None`, and the tick then does nothing, as the catch at Core.cs:335-339 does.
- Enum values outside their declared cases (an out-of-range integer cast to an enum) are not modelled; the enums are closed datatypes.
- `String.ToLower` is modelled on ASCII letters only.
- Configurations are an input list; a null list is the empty one. Persistence, `ConfigManager`, and the reconciler constructor's read of configurations, event subscriptions and `Start` (Core.cs:44-73) are not modelled. The event handlers `OnConfigChanged` and `OnConfigApplyRequested` are not modelled either; each just calls `UpdateProcessConfigs` (and `CheckProcesses`).
- `Reconciler.Core.UpdateProcessConfigs`: takes the process snapshot as an input list, so it does not model `GetProcesses` throwing at Core.cs:124. In the source that exception reaches the caller after the configurations have been replaced (Core.cs:119), and the groups are then not rebuilt.
- Job handle values are abstract: creation attempt n yields n + 1, so the model's handles are pairwise distinct. Windows may hand back the value of a handle closed earlier, for instance by the `Dispose` that precedes a rebuild. No contract depends on handles being distinct; the model only distinguishes a zero handle from a nonzero one.
- Configurations are never null inside: a `ProcessConfig` always holds a path list and every limit record. So the NullReferenceException that a null `Paths` list or a null `CpuLimit`, `MemoryLimit`, … would raise in `UpdateProcessGroups` (Core.cs:164) or `ApplyLimits` (ProcessGroup.cs:288) is not modelled.
- The catch blocks of the per-member loops read `process.ProcessName` again for their log line (CPUThrottler.cs:51, PriorityThrottler.cs:45, MemoryThrottler.cs:153, DiskThrottler.cs:291). The model takes that read to succeed, as it does once the name has been read and cached. A process whose name cannot be read at all is not modelled. For such a process, the second read would throw out of the catch block:
  - in CPU, priority and disk, out of `ApplyLimit(group)`, through `ProcessGroup.ApplyLimits` (ProcessGroup.cs:268-339), to the catch of `CheckProcesses` (Core.cs:335-339), skipping the later throttlers and groups and leaving `IsNew` set;
  - in memory, to the outer catch at MemoryThrottler.cs:158, ending the member loop.
- `IsConfigInitialized` and `GetProcessGroups` are trivial accessors and are not modelled.
- Notifications and diagnostics are not modelled: `ShowProcessGroupsNotification`, `LogProcessGroups`, the `ProcessGroupsChanged` and `ProcessNotification` events, `GetDetailInfo`, `GetErrorExplanation`, `IsCurrentProcessElevated` and `GetAvailableMemoryMB`.
- The deprecated per-process helpers of ProcessGroup.cs (344-491) are not modelled, nor the per-process `ApplyLimit` overloads only they call. These are in CPUThrottler.cs, MemoryThrottler.cs, NetworkThrottler.cs and PriorityThrottler.cs. `SetThreadsAffinityMask` and the QoS structs of NetworkThrottler.cs are not modelled either.
- The reconciler's `Dispose` does not model disposing the timer or the snapshot's process handles.
- The kernel's own effects are not modelled: what a job object, an affinity mask or a suspension does to a process. The model logs each call and takes its result from an oracle.
- `ProcessGroups.ProcessGroup.ApplyLimits`: returns its outcome (skipped, no job, or dispatched with the aggregate success), which the source only logs.
- `DiskThrottling.DiskThrottler.MonitorEntry`: the source writes `LastCheckTime` before reading the counters and the other fields after, all on the same entry object. The model writes the updated entry back once, at the end of the visit, or removes it. Either way the result is the same.
- `DiskThrottling.Throughput`: its contract states the sum of the per-second deltas only when neither counter went backwards and there is no 64-bit overflow. The wrapping cases are what `SubU64` and `AddU64` state.
