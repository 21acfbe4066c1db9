/** Network limiting: one rate-control descriptor built from the configuration
    and set on the group's job object. */
module NetworkThrottling {
  import opened Models
  import opened Kernel

  /** `(ulong)MaxRateLimit * 1024`: KB/s to bytes/s, unchecked 64-bit arithmetic. */
  function MaxBandwidth(maxRateLimit: Int32): (r: U64)
    ensures 0 <= maxRateLimit ==> r == maxRateLimit * 1024
    ensures maxRateLimit < 0 ==> r == TWO_POW_64 + maxRateLimit * 1024
  {
    var v := ToU64(maxRateLimit) * 1024;
    ModWindow(v, if maxRateLimit < 0 then 1023 else 0);
    v % TWO_POW_64
  }

  /** The descriptor ApplyLimit passes to the kernel. */
  function NetRateDescriptor(limit: NetworkLimit): NetRateInfo
  {
    var base := NetRateInfo(NET_RATE_CONTROL_ENABLE, MaxBandwidth(limit.maxRateLimit), 0);
    if limit.specifyTransferPriority then
      base.(controlFlags := base.controlFlags | NET_RATE_CONTROL_DSCP_TAG,
            dscpTag := Clamp(limit.priorityValue, 0, 63))
    else base
  }

  /** What the descriptor says: control is always enabled, the DSCP flag is
      set exactly when a transfer priority is specified, the bandwidth flag is
      never set, no other flag is set, and the tag is the clamped priority or 0. */
  lemma NetRateDescriptorMeaning(limit: NetworkLimit)
    ensures var d := NetRateDescriptor(limit);
      && d.controlFlags & NET_RATE_CONTROL_ENABLE != 0
      && (d.controlFlags & NET_RATE_CONTROL_DSCP_TAG != 0 <==> limit.specifyTransferPriority)
      && d.controlFlags & NET_RATE_CONTROL_MAX_BANDWIDTH == 0
      && d.controlFlags & !(NET_RATE_CONTROL_ENABLE | NET_RATE_CONTROL_DSCP_TAG) == 0
      && d.maxBandwidth == MaxBandwidth(limit.maxRateLimit)
      && 0 <= d.dscpTag <= 63
      && (limit.specifyTransferPriority ==> d.dscpTag == Clamp(limit.priorityValue, 0, 63))
      && (!limit.specifyTransferPriority ==> d.dscpTag == 0)
  {
  }

  /** The guard of ApplyLimit: a group, network limiting on, members, a job handle. */
  predicate NetApplies(group: Option<GroupView>)
  {
    group.Some? && group.value.config.networkLimit.isEnabled &&
    group.value.processes != [] && group.value.jobHandle != 0
  }

  /** The one call ApplyLimit makes when its guard holds. */
  function NetCall(group: GroupView): KernelCall
  {
    SetJobInfo(group.jobHandle, NetRateControl(NetRateDescriptor(group.config.networkLimit)))
  }

  /** How ApplyLimit ends: not attempted, applied, refused with error 1150
      (an OS without job network rate control), or refused otherwise. */
  datatype NetOutcome = NotAttempted | Applied | Unsupported | Rejected

  function NetResult(os: Os, group: Option<GroupView>): NetOutcome
  {
    if !NetApplies(group) then NotAttempted
    else if os.accepts(NetCall(group.value)) then Applied
    else if os.errorOf(NetCall(group.value)) == 1150 then Unsupported
    else Rejected
  }

  /** The outcome is Applied exactly when the guard holds and the kernel
      accepts the descriptor; Unsupported exactly when it refuses it with 1150. */
  lemma NetResultMeaning(os: Os, group: Option<GroupView>)
    ensures NetResult(os, group) == Applied <==> NetApplies(group) && os.accepts(NetCall(group.value))
    ensures NetResult(os, group) == Unsupported <==>
      NetApplies(group) && !os.accepts(NetCall(group.value)) && os.errorOf(NetCall(group.value)) == 1150
    ensures NetResult(os, group) == NotAttempted <==> !NetApplies(group)
  {
  }

  /** ApplyLimit(ProcessGroup): true iff the descriptor was set; nothing is
      called when the guard fails. */
  method ApplyLimit(group: Option<GroupView>, kernel: Kernel) returns (success: bool, outcome: NetOutcome)
    modifies kernel`log
    ensures outcome == NetResult(kernel.os, group)
    ensures success <==> outcome == Applied
    ensures kernel.log == old(kernel.log) + (if NetApplies(group) then [NetCall(group.value)] else [])
  {
    if group.None? || !group.value.config.networkLimit.isEnabled || group.value.processes == [] {
      return false, NotAttempted;
    }
    var g := group.value;
    if g.jobHandle == 0 {
      return false, NotAttempted;
    }
    var info := NetRateDescriptor(g.config.networkLimit);
    var call := SetJobInfo(g.jobHandle, NetRateControl(info));
    success := kernel.Invoke(call);
    if !success {
      outcome := if kernel.os.errorOf(call) == 1150 then Unsupported else Rejected;
    } else {
      outcome := Applied;
    }
  }
}
