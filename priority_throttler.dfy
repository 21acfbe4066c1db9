/** Scheduling priority: every member of a group is given the configured
    priority class, one process at a time. */
module PriorityThrottling {
  import opened Models
  import opened Kernel

  /** GetPriorityClass: the configured value 0..5 names a class, anything else means Normal. */
  function GetPriorityClass(priorityValue: Int32): PriorityClass
  {
    match priorityValue
    case 0 => Idle
    case 1 => BelowNormal
    case 2 => Normal
    case 3 => AboveNormal
    case 4 => High
    case 5 => RealTime
    case _ => Normal
  }

  /** The configuration value that names each class, in the documented order 0..5. */
  function PriorityValueOf(c: PriorityClass): (v: Int32)
    ensures 0 <= v <= 5
  {
    match c
    case Idle => 0
    case BelowNormal => 1
    case Normal => 2
    case AboveNormal => 3
    case High => 4
    case RealTime => 5
  }

  /** The mapping is a bijection between 0..5 and the six classes, values
      outside 0..5 fall back to Normal, and so Normal is the only class two
      different values can yield. */
  lemma PriorityClassMapping(v: Int32)
    ensures 0 <= v <= 5 ==> PriorityValueOf(GetPriorityClass(v)) == v
    ensures !(0 <= v <= 5) ==> GetPriorityClass(v) == Normal
    ensures forall c :: GetPriorityClass(PriorityValueOf(c)) == c
    ensures forall w: Int32 :: GetPriorityClass(w) == GetPriorityClass(v) && w != v ==> GetPriorityClass(v) == Normal
  {
  }

  /** The guard of ApplyLimit: a group, priority enabled, members (no handle needed). */
  predicate PriorityApplies(group: Option<GroupView>)
  {
    group.Some? && group.value.config.processPriority.isEnabled && group.value.processes != []
  }

  /** The call ApplyLimit makes for one member: none if the process cannot be read. */
  function PriorityCalls(os: Os, cls: PriorityClass): Process -> seq<KernelCall>
  {
    (p: Process) => if os.readable(p.pid) then [SetPriority(p.pid, cls)] else []
  }

  /** Whether one member's assignment succeeds (no exception). */
  function PriorityOk(os: Os, cls: PriorityClass): Process -> bool
  {
    (p: Process) => os.readable(p.pid) && os.accepts(SetPriority(p.pid, cls))
  }

  /** The class ApplyLimit assigns. */
  function ConfiguredClass(group: GroupView): PriorityClass
  {
    GetPriorityClass(group.config.processPriority.priorityValue)
  }

  /** Every kernel call ApplyLimit makes, in order. */
  function PriorityGroupCalls(os: Os, group: Option<GroupView>): seq<KernelCall>
  {
    if !PriorityApplies(group) then [] else CallsOver(group.value.processes, PriorityCalls(os, ConfiguredClass(group.value)))
  }

  /** The result of ApplyLimit. */
  predicate PriorityResult(os: Os, group: Option<GroupView>)
  {
    PriorityApplies(group) && AllOver(group.value.processes, PriorityOk(os, ConfiguredClass(group.value)))
  }

  /** Without the guard nothing is touched and the result is false. With it,
      every call sets the one configured class on a readable member, every
      readable member gets that call, and the result is true iff no member failed. */
  lemma PriorityApplyMeaning(os: Os, group: Option<GroupView>)
    ensures !PriorityApplies(group) ==> !PriorityResult(os, group) && PriorityGroupCalls(os, group) == []
    ensures PriorityApplies(group) ==>
      var g := group.value;
      var cls := ConfiguredClass(g);
      && (PriorityResult(os, group) <==>
           forall p :: p in g.processes ==> os.readable(p.pid) && os.accepts(SetPriority(p.pid, cls)))
      && (forall c :: c in PriorityGroupCalls(os, group) ==>
           c.SetPriority? && c.priority == cls && exists p :: p in g.processes && os.readable(p.pid) && c.pid == p.pid)
      && (forall p :: p in g.processes && os.readable(p.pid) ==> SetPriority(p.pid, cls) in PriorityGroupCalls(os, group))
  {
    if PriorityApplies(group) {
      var g := group.value;
      var cls := ConfiguredClass(g);
      AllOverIsEvery(g.processes, PriorityOk(os, cls));
      CallsOverMembers(g.processes, PriorityCalls(os, cls));
    }
  }

  /** One member's assignment inside the loop's try/catch. */
  method SetMemberPriority(p: Process, cls: PriorityClass, kernel: Kernel) returns (ok: bool)
    modifies kernel`log
    ensures ok == PriorityOk(kernel.os, cls)(p)
    ensures kernel.log == old(kernel.log) + PriorityCalls(kernel.os, cls)(p)
  {
    if !kernel.os.readable(p.pid) {
      return false;
    }
    ok := kernel.Invoke(SetPriority(p.pid, cls));
  }

  /** ApplyLimit(ProcessGroup): the guard, then every member in order, keeping
      on after a failure. */
  method ApplyLimit(group: Option<GroupView>, kernel: Kernel) returns (success: bool)
    modifies kernel`log
    ensures success == PriorityResult(kernel.os, group)
    ensures kernel.log == old(kernel.log) + PriorityGroupCalls(kernel.os, group)
  {
    if group.None? || !group.value.config.processPriority.isEnabled || group.value.processes == [] {
      return false;
    }
    var ps := group.value.processes;
    var cls := GetPriorityClass(group.value.config.processPriority.priorityValue);
    ghost var step, ok := PriorityCalls(kernel.os, cls), PriorityOk(kernel.os, cls);
    success := true;
    var i := 0;
    while i < |ps|
      invariant 0 <= i <= |ps|
      invariant kernel.log == old(kernel.log) + CallsOver(ps[..i], step)
      invariant success == AllOver(ps[..i], ok)
    {
      var memberOk := SetMemberPriority(ps[i], cls, kernel);
      OverSnoc(ps, i, step, ok);
      success := success && memberOk;
      i := i + 1;
    }
    assert ps[..i] == ps;
  }
}
