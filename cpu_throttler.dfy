/** CPU limiting: a group-level rate control set on the job object and a
    per-process affinity mask. */
module CpuThrottling {
  import opened Models
  import opened Kernel
  import opened Masks

  // --- Rate control ------------------------------------------------------------

  /** The job weight for RelativeWeight mode, the configured weight clamped to 1..9. */
  function RelativeWeightValue(w: Int32): (r: nat)
    ensures 1 <= r <= 9
    ensures 1 <= w <= 9 ==> r == w
    ensures w < 1 ==> r == 1
    ensures 9 < w ==> r == 9
  {
    Clamp(w, 1, 9)
  }

  /** The job CPU rate for AbsoluteRate mode: the percentage clamped to
      1..100, in hundredths of a percent. */
  function CpuRateValue(p: Int32): (r: nat)
    ensures 100 <= r <= 10000 && r % 100 == 0
    ensures 1 <= p <= 100 ==> r == p * 100
    ensures p < 1 ==> r == 100
    ensures 100 < p ==> r == 10000
  {
    Clamp(p, 1, 100) * 100
  }

  /** The descriptor passed to the kernel, or None when no rate control is configured. */
  function CpuRateDescriptor(limit: CpuLimit): (r: Option<CpuRateInfo>)
  {
    match limit.limitType
    case NoRateLimit => None
    case RelativeWeight =>
      Some(CpuRateInfo(CPU_RATE_CONTROL_WEIGHT_BASED | CPU_RATE_CONTROL_ENABLE,
                       RelativeWeightValue(limit.relativeWeight)))
    case AbsoluteRate =>
      Some(CpuRateInfo(CPU_RATE_CONTROL_HARD_CAP | CPU_RATE_CONTROL_ENABLE,
                       CpuRateValue(limit.ratePercentage)))
  }

  /** What the descriptor means: nothing for None; otherwise control is
      enabled, exactly one of weight-based and hard-cap is chosen by the mode,
      and the value lies in the kernel's range for that mode. */
  lemma CpuRateDescriptorMeaning(limit: CpuLimit)
    ensures CpuRateDescriptor(limit) == None <==> limit.limitType == NoRateLimit
    ensures CpuRateDescriptor(limit).Some? ==>
      var info := CpuRateDescriptor(limit).value;
      && info.controlFlags & CPU_RATE_CONTROL_ENABLE != 0
      && (info.controlFlags & CPU_RATE_CONTROL_WEIGHT_BASED != 0 <==> limit.limitType == RelativeWeight)
      && (info.controlFlags & CPU_RATE_CONTROL_HARD_CAP != 0 <==> limit.limitType == AbsoluteRate)
      && (limit.limitType == RelativeWeight ==> 1 <= info.value <= 9)
      && (limit.limitType == AbsoluteRate ==> 100 <= info.value <= 10000)
  {
  }

  // --- Affinity masks ----------------------------------------------------------

  /** GetAffinityMaskForCoreCount: ORs in bit i for every i below the count. */
  method GetAffinityMaskForCoreCount(coreCount: int) returns (mask: bv64)
    ensures mask == LowMask(coreCount)
    ensures forall k :: 0 <= k < 64 ==> (Bit(mask, k) <==> k < coreCount)
  {
    mask := 0;
    var i := 0;
    while i < coreCount
      invariant 0 <= i <= Max(coreCount, 0)
      invariant mask == LowMask(i)
    {
      LowMaskStep(i);
      mask := mask | ShiftedBit(i);
      i := i + 1;
    }
    LowMaskBits(coreCount);
  }

  /** The number of cores a CoreCount limit uses. */
  function CoresUsed(limit: CpuLimit, processorCount: Positive): (n: int)
    ensures 1 <= n <= processorCount
  {
    Clamp(limit.coreCount, 1, processorCount)
  }

  /** The core a CoreNumber limit pins to. */
  function CoreUsed(limit: CpuLimit, processorCount: Positive): (n: nat)
    ensures n < processorCount
  {
    Clamp(limit.coreNumber, 0, processorCount - 1)
  }

  /** The affinity mask a limit sets on each member, None when no core limit is configured. */
  function AffinityMask(limit: CpuLimit, processorCount: Positive): Option<bv64>
  {
    match limit.coreLimitType
    case NoCoreLimit => None
    case CoreCount => Some(LowMask(CoresUsed(limit, processorCount)))
    case CoreNumber => Some(ShiftedBit(CoreUsed(limit, processorCount)))
  }

  /** A CoreCount mask holds exactly the lowest clamp(CoreCount, 1, cores)
      cores and is never empty; a CoreNumber mask holds exactly the one core
      clamp(CoreNumber, 0, cores - 1) (modulo 64, as the 64-bit shift does). */
  lemma AffinityMaskMeaning(limit: CpuLimit, processorCount: Positive)
    ensures AffinityMask(limit, processorCount) == None <==> limit.coreLimitType == NoCoreLimit
    ensures limit.coreLimitType == CoreCount ==>
      var m := AffinityMask(limit, processorCount).value;
      && m != 0
      && forall k :: 0 <= k < 64 ==> (Bit(m, k) <==> k < CoresUsed(limit, processorCount))
    ensures limit.coreLimitType == CoreNumber ==>
      var m := AffinityMask(limit, processorCount).value;
      && m != 0
      && forall k :: 0 <= k < 64 ==> (Bit(m, k) <==> k == CoreUsed(limit, processorCount) % 64)
  {
    if limit.coreLimitType == CoreCount {
      var n := CoresUsed(limit, processorCount);
      LowMaskBits(n);
      assert Bit(LowMask(n), 0);
    } else if limit.coreLimitType == CoreNumber {
      var c := CoreUsed(limit, processorCount);
      assert Bit(ShiftedBit(c), c % 64);
    }
  }

  // --- Specification of ApplyLimit(ProcessGroup) -------------------------------

  /** The guard of ApplyLimit: a group, CPU limiting on, members, a job handle. */
  predicate CpuApplies(group: Option<GroupView>)
  {
    group.Some? && group.value.config.cpuLimit.isEnabled &&
    group.value.processes != [] && group.value.jobHandle != 0
  }

  /** The calls of the rate step. */
  function RateCalls(job: nat, limit: CpuLimit): seq<KernelCall>
  {
    match CpuRateDescriptor(limit)
    case None => []
    case Some(info) => [SetJobInfo(job, CpuRateControl(info))]
  }

  /** The result of the rate step. */
  predicate RateOk(os: Os, job: nat, limit: CpuLimit)
  {
    match CpuRateDescriptor(limit)
    case None => true
    case Some(info) => os.accepts(SetJobInfo(job, CpuRateControl(info)))
  }

  /** The call the affinity step makes for one member: none if the process
      cannot be read (the attempt throws) or no core limit is configured. */
  function AffinityCalls(os: Os, limit: CpuLimit): Process -> seq<KernelCall>
  {
    (p: Process) =>
      if !os.readable(p.pid) then []
      else match AffinityMask(limit, os.processorCount)
        case None => []
        case Some(m) => [SetAffinity(p.pid, m)]
  }

  /** The result of the affinity step for one member. */
  function AffinityOk(os: Os, limit: CpuLimit): Process -> bool
  {
    (p: Process) =>
      os.readable(p.pid) &&
      match AffinityMask(limit, os.processorCount)
      case None => true
      case Some(m) => os.accepts(SetAffinity(p.pid, m))
  }

  /** Every kernel call ApplyLimit makes, in order. */
  function CpuCalls(os: Os, group: Option<GroupView>): seq<KernelCall>
  {
    if !CpuApplies(group) then []
    else
      var g := group.value;
      RateCalls(g.jobHandle, g.config.cpuLimit) + CallsOver(g.processes, AffinityCalls(os, g.config.cpuLimit))
  }

  /** The result of ApplyLimit. */
  predicate CpuResult(os: Os, group: Option<GroupView>)
  {
    CpuApplies(group) &&
    var g := group.value;
    RateOk(os, g.jobHandle, g.config.cpuLimit) && AllOver(g.processes, AffinityOk(os, g.config.cpuLimit))
  }

  /** ApplyLimit fails and makes no kernel call (not even the affinity step)
      when the guard fails. When it applies, it succeeds exactly if the rate
      step and every member's affinity step succeed, and its calls are the
      rate call followed by exactly one SetAffinity with the configured mask
      for each readable member of a core-limited group. */
  lemma CpuApplyMeaning(os: Os, group: Option<GroupView>)
    ensures !CpuApplies(group) ==> !CpuResult(os, group) && CpuCalls(os, group) == []
    ensures CpuApplies(group) ==>
      var g := group.value;
      var limit := g.config.cpuLimit;
      && (CpuResult(os, group) <==>
           RateOk(os, g.jobHandle, limit) && forall p :: p in g.processes ==> AffinityOk(os, limit)(p))
      && (forall c :: c in CpuCalls(os, group) ==>
           c in RateCalls(g.jobHandle, limit) ||
           exists p :: p in g.processes && os.readable(p.pid) && AffinityMask(limit, os.processorCount).Some? &&
             c == SetAffinity(p.pid, AffinityMask(limit, os.processorCount).value))
      && (AffinityMask(limit, os.processorCount).Some? ==>
           forall p :: p in g.processes && os.readable(p.pid) ==>
             SetAffinity(p.pid, AffinityMask(limit, os.processorCount).value) in CpuCalls(os, group))
      && (limit.coreLimitType == NoCoreLimit ==> CpuCalls(os, group) == RateCalls(g.jobHandle, limit))
  {
    if CpuApplies(group) {
      var g := group.value;
      var limit := g.config.cpuLimit;
      var step := AffinityCalls(os, limit);
      AllOverIsEvery(g.processes, AffinityOk(os, limit));
      CallsOverMembers(g.processes, step);
      if limit.coreLimitType == NoCoreLimit {
        CallsOverSilent(g.processes, step);
      }
    }
  }

  // --- The operations ----------------------------------------------------------

  /** ApplyCpuRateLimit: no handle fails, no rate mode succeeds without a call,
      otherwise one SetInformationJobObject call decides. */
  method ApplyCpuRateLimit(job: nat, limit: CpuLimit, kernel: Kernel) returns (ok: bool)
    modifies kernel`log
    ensures job == 0 ==> !ok && kernel.log == old(kernel.log)
    ensures job != 0 ==> ok == RateOk(kernel.os, job, limit) && kernel.log == old(kernel.log) + RateCalls(job, limit)
  {
    if job == 0 {
      return false;
    }
    var info := CpuRateDescriptor(limit);
    if info.None? {
      return true;
    }
    ok := kernel.Invoke(SetJobInfo(job, CpuRateControl(info.value)));
  }

  /** ApplyCpuCoreLimit for one member, with the caller's try/catch: a process
      whose handle cannot be read fails without a call. */
  method ApplyCpuCoreLimit(p: Process, limit: CpuLimit, kernel: Kernel) returns (ok: bool)
    modifies kernel`log
    ensures ok == AffinityOk(kernel.os, limit)(p)
    ensures kernel.log == old(kernel.log) + AffinityCalls(kernel.os, limit)(p)
  {
    if !kernel.os.readable(p.pid) {
      return false;
    }
    if limit.coreLimitType == NoCoreLimit {
      return true;
    }
    var mask: bv64;
    if limit.coreLimitType == CoreCount {
      mask := GetAffinityMaskForCoreCount(CoresUsed(limit, kernel.os.processorCount));
    } else {
      mask := ShiftedBit(CoreUsed(limit, kernel.os.processorCount));
    }
    ok := kernel.Invoke(SetAffinity(p.pid, mask));
  }

  /** The member loop of ApplyLimit: every member's affinity step, ANDing
      the results without stopping at a failure. */
  method ApplyCoreLimits(ps: seq<Process>, limit: CpuLimit, kernel: Kernel) returns (success: bool)
    modifies kernel`log
    ensures success == AllOver(ps, AffinityOk(kernel.os, limit))
    ensures kernel.log == old(kernel.log) + CallsOver(ps, AffinityCalls(kernel.os, limit))
  {
    ghost var step, ok := AffinityCalls(kernel.os, limit), AffinityOk(kernel.os, limit);
    success := true;
    var i := 0;
    while i < |ps|
      invariant 0 <= i <= |ps|
      invariant kernel.log == old(kernel.log) + CallsOver(ps[..i], step)
      invariant success == AllOver(ps[..i], ok)
    {
      var memberOk := ApplyCpuCoreLimit(ps[i], limit, kernel);
      OverSnoc(ps, i, step, ok);
      success := success && memberOk;
      i := i + 1;
    }
    assert ps[..i] == ps;
  }

  /** ApplyLimit(ProcessGroup): the guard, the rate step, then the affinity
      step for every member. */
  method ApplyLimit(group: Option<GroupView>, kernel: Kernel) returns (success: bool)
    modifies kernel`log
    ensures success == CpuResult(kernel.os, group)
    ensures kernel.log == old(kernel.log) + CpuCalls(kernel.os, group)
  {
    if group.None? || !group.value.config.cpuLimit.isEnabled || group.value.processes == [] {
      return false;
    }
    var g := group.value;
    if g.jobHandle == 0 {
      return false;
    }
    var limit := g.config.cpuLimit;
    var rateOk := ApplyCpuRateLimit(g.jobHandle, limit, kernel);
    var coresOk := ApplyCoreLimits(g.processes, limit, kernel);
    success := rateOk && coresOk;
    CpuApplied(kernel.os, g);
  }

  lemma CpuApplied(os: Os, g: GroupView)
    requires CpuApplies(Some(g))
    ensures CpuCalls(os, Some(g)) == RateCalls(g.jobHandle, g.config.cpuLimit) + CallsOver(g.processes, AffinityCalls(os, g.config.cpuLimit))
    ensures CpuResult(os, Some(g)) == (RateOk(os, g.jobHandle, g.config.cpuLimit) && AllOver(g.processes, AffinityOk(os, g.config.cpuLimit)))
  {
  }
}
