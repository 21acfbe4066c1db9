/** The reconciler: it keeps the last process snapshot and the configured
    limits, rebuilds one process group per configuration whenever the set of
    running processes changes, and applies the limits of the groups that
    gained processes. */
module Reconciler {
  import opened Models
  import opened Kernel
  import opened MemoryThrottling
  import opened DiskThrottling
  import opened ProcessGroups

  // --- Matching processes to configured paths ----------------------------------

  /** A process matches a configured path when both its image path and the
      path can be read and they are equal once lower-cased. A missing path
      (the getter throws, or the module is null) never matches. */
  predicate PathMatches(p: Process, filePath: Option<string>)
  {
    p.imagePath.Some? && filePath.Some? && Lower(p.imagePath.value) == Lower(filePath.value)
  }

  /** FindProcessesByPath: the snapshot's processes that match, in snapshot order. */
  function Matches(ps: seq<Process>, filePath: Option<string>): seq<Process>
  {
    if ps == [] then []
    else Matches(ps[..|ps| - 1], filePath) + (if PathMatches(ps[|ps| - 1], filePath) then [ps[|ps| - 1]] else [])
  }

  /** The matches of every configured path, path after path. */
  function Candidates(paths: seq<PathConfig>, ps: seq<Process>): seq<Process>
  {
    if paths == [] then []
    else Candidates(paths[..|paths| - 1], ps) + Matches(ps, paths[|paths| - 1].filePath)
  }

  /** AddProcess on a member list: a pid already present is not added again. */
  function Join(acc: seq<Process>, p: Process): seq<Process>
  {
    if p.pid in Pids(acc) then acc else acc + [p]
  }

  /** The members after adding the processes of s, in order, to acc. */
  function GatherFrom(acc: seq<Process>, s: seq<Process>): seq<Process>
  {
    if s == [] then acc else Join(GatherFrom(acc, s[..|s| - 1]), s[|s| - 1])
  }

  lemma GatherSnoc(acc: seq<Process>, s: seq<Process>, k: nat)
    requires k < |s|
    ensures GatherFrom(acc, s[..k + 1]) == Join(GatherFrom(acc, s[..k]), s[k])
  {
    assert s[..k + 1][..k] == s[..k];
  }

  /** The members of a freshly built group of configuration c; a disabled
      configuration gets none. */
  function Members(c: ProcessConfig, ps: seq<Process>): seq<Process>
  {
    if c.isEnabled then GatherFrom([], Candidates(c.paths, ps)) else []
  }

  /** IsNew of a freshly built group: enabled and some process matched. */
  predicate Matched(c: ProcessConfig, ps: seq<Process>)
  {
    c.isEnabled && Candidates(c.paths, ps) != []
  }

  /** Matching compares the two paths ignoring ASCII case. */
  lemma PathMatchesMeaning(p: Process, filePath: Option<string>)
    ensures PathMatches(p, filePath) <==>
      p.imagePath.Some? && filePath.Some? && EqualIgnoringCase(p.imagePath.value, filePath.value)
  {
    if p.imagePath.Some? && filePath.Some? {
      LowerEqualIff(p.imagePath.value, filePath.value);
    }
  }

  lemma {:induction false} MatchesMeaning(ps: seq<Process>, filePath: Option<string>)
    ensures forall p :: p in Matches(ps, filePath) <==> p in ps && PathMatches(p, filePath)
  {
    if ps != [] {
      var init := ps[..|ps| - 1];
      MatchesMeaning(init, filePath);
      assert forall p :: p in ps <==> p in init || p == ps[|ps| - 1];
    }
  }

  lemma {:induction false} CandidatesMeaning(paths: seq<PathConfig>, ps: seq<Process>)
    ensures forall p :: p in Candidates(paths, ps) <==>
      p in ps && exists path :: path in paths && PathMatches(p, path.filePath)
  {
    if paths != [] {
      var init, last := paths[..|paths| - 1], paths[|paths| - 1];
      CandidatesMeaning(init, ps);
      MatchesMeaning(ps, last.filePath);
      assert forall path :: path in paths <==> path in init || path == last;
    }
  }

  lemma JoinMeaning(acc: seq<Process>, p: Process)
    requires UniquePids(acc)
    ensures UniquePids(Join(acc, p))
    ensures Pids(Join(acc, p)) == Pids(acc) + {p.pid}
    ensures forall q :: q in Join(acc, p) <==> q in acc || (q == p && p.pid !in Pids(acc))
  {
    if p.pid !in Pids(acc) {
      var r := acc + [p];
      forall i, j | 0 <= i < j < |r| ensures r[i].pid != r[j].pid {
        if j == |acc| {
          assert r[i] in acc;
        }
      }
      assert Pids(r) == Pids(acc) + {p.pid} by {
        assert forall q :: q in r <==> q in acc || q == p;
      }
    }
  }

  /** Adding processes one at a time keeps pids unique and adds only processes of s. */
  lemma {:induction false} GatherUnique(acc: seq<Process>, s: seq<Process>)
    requires UniquePids(acc)
    ensures UniquePids(GatherFrom(acc, s))
    ensures forall q :: q in GatherFrom(acc, s) ==> q in acc || q in s
  {
    if s != [] {
      var init, last := s[..|s| - 1], s[|s| - 1];
      GatherUnique(acc, init);
      JoinMeaning(GatherFrom(acc, init), last);
      forall q | q in GatherFrom(acc, s) ensures q in acc || q in s {
        if q != last {
          assert q in acc || q in init;
          assert q in init ==> q in s;
        }
      }
    }
  }

  /** ... covers the pids of s, and adds something whenever s is nonempty. */
  lemma {:induction false} GatherPids(acc: seq<Process>, s: seq<Process>)
    requires UniquePids(acc)
    ensures Pids(GatherFrom(acc, s)) == Pids(acc) + Pids(s)
    ensures acc == [] && s != [] ==> GatherFrom(acc, s) != []
  {
    if s != [] {
      var init, last := s[..|s| - 1], s[|s| - 1];
      var before := GatherFrom(acc, init);
      GatherPids(acc, init);
      GatherUnique(acc, init);
      JoinMeaning(before, last);
      PidsSnoc(s, |s| - 1);
      assert s[..|s| - 1 + 1] == s;
      assert GatherFrom(acc, s) == Join(before, last);
      assert last.pid in Pids(GatherFrom(acc, s));
    }
  }

  lemma GatherAppend(acc: seq<Process>, s: seq<Process>, t: seq<Process>)
    ensures GatherFrom(acc, s + t) == GatherFrom(GatherFrom(acc, s), t)
    decreases |t|
  {
    if t == [] {
      assert s + t == s;
    } else {
      assert (s + t)[..|s + t| - 1] == s + t[..|t| - 1];
      assert (s + t)[|s + t| - 1] == t[|t| - 1];
      GatherAppend(acc, s, t[..|t| - 1]);
    }
  }

  /** The members of an enabled configuration's group are exactly the
      snapshot processes whose readable image path equals a configured path
      ignoring case, one per pid; its IsNew holds exactly when it has members. */
  lemma MembersMeaning(c: ProcessConfig, ps: seq<Process>)
    ensures UniquePids(Members(c, ps))
    ensures !c.isEnabled ==> Members(c, ps) == [] && !Matched(c, ps)
    ensures forall p :: p in Members(c, ps) ==>
      p in ps && p.imagePath.Some? && exists path :: path in c.paths && PathMatches(p, path.filePath)
    ensures c.isEnabled ==> forall p :: p in ps && (exists path :: path in c.paths && PathMatches(p, path.filePath)) ==>
      p.pid in Pids(Members(c, ps))
    ensures Matched(c, ps) <==> Members(c, ps) != []
  {
    CandidatesMeaning(c.paths, ps);
    GatherUnique([], Candidates(c.paths, ps));
    GatherPids([], Candidates(c.paths, ps));
    if c.isEnabled {
      var cand := Candidates(c.paths, ps);
      forall p | p in ps && (exists path :: path in c.paths && PathMatches(p, path.filePath))
        ensures p.pid in Pids(Members(c, ps))
      {
        assert p in cand;
      }
      assert cand == [] ==> GatherFrom([], cand) == [];
    }
  }

  // --- Diffing two snapshots ---------------------------------------------------

  /** The processes of xs whose pid does not occur in ys, in order: the new
      processes (xs the current snapshot) or the ended ones (xs the last). */
  function Unseen(xs: seq<Process>, ys: seq<Process>): seq<Process>
  {
    if xs == [] then []
    else Unseen(xs[..|xs| - 1], ys) + (if xs[|xs| - 1].pid in Pids(ys) then [] else [xs[|xs| - 1]])
  }

  lemma {:induction false} UnseenMeaning(xs: seq<Process>, ys: seq<Process>)
    ensures forall p :: p in Unseen(xs, ys) <==> p in xs && p.pid !in Pids(ys)
    ensures Unseen(xs, ys) == [] <==> Pids(xs) <= Pids(ys)
  {
    if xs != [] {
      var init := xs[..|xs| - 1];
      UnseenMeaning(init, ys);
      assert forall p :: p in xs <==> p in init || p == xs[|xs| - 1];
      assert Pids(xs) == Pids(init) + {xs[|xs| - 1].pid} by {
        PidsSnoc(xs, |xs| - 1);
        assert xs[..|xs| - 1 + 1] == xs;
      }
    }
  }

  /** A tick sees a change exactly when the two snapshots differ in their set of pids. */
  lemma ChangedMeaning(current: seq<Process>, last: seq<Process>)
    ensures (Unseen(current, last) != [] || Unseen(last, current) != []) <==> Pids(current) != Pids(last)
  {
    UnseenMeaning(current, last);
    UnseenMeaning(last, current);
  }

  // --- Rebuilding the groups -----------------------------------------------------

  /** The AssignProcessToJobObject call AddProcess makes for a new member of a
      group holding handle h (none without a handle or a readable process). */
  function AssignStep(os: Os, h: nat): Process -> seq<KernelCall>
  {
    (p: Process) => if h != 0 && os.readable(p.pid) then [AssignProcess(h, p.pid)] else []
  }

  /** The calls of building group s on creation attempt a: the job
      creation, then one assignment per member. */
  function GroupCalls(os: Os, s: GroupState, a: nat): seq<KernelCall>
  {
    InitCalls(os, a) + CallsOver(s.view.processes, AssignStep(os, s.view.jobHandle))
  }

  /** The calls of building the first n groups of ss, in order, from creation attempt a. */
  function BuildCalls(os: Os, ss: seq<GroupState>, a: nat, n: nat): seq<KernelCall>
    requires n <= |ss|
  {
    if n == 0 then [] else BuildCalls(os, ss, a, n - 1) + GroupCalls(os, ss[n - 1], a + n - 1)
  }

  lemma BuildCallsSnoc(os: Os, ss: seq<GroupState>, a: nat, i: nat, log0: seq<KernelCall>, log: seq<KernelCall>)
    requires i < |ss|
    requires log == log0 + BuildCalls(os, ss, a, i) + GroupCalls(os, ss[i], a + i)
    ensures log == log0 + BuildCalls(os, ss, a, i + 1)
  {
    AppendAssoc(log0, BuildCalls(os, ss, a, i), GroupCalls(os, ss[i], a + i));
  }

  /** The group built for c on creation attempt a. */
  function BuiltGroup(os: Os, c: ProcessConfig, ps: seq<Process>, a: nat): GroupState
  {
    GroupState(GroupView(c, Members(c, ps), NewJobHandle(os, a)), Matched(c, ps))
  }

  /** One group per configuration, built in order from creation attempt a. */
  function Built(os: Os, cs: seq<ProcessConfig>, ps: seq<Process>, a: nat): (r: seq<GroupState>)
    ensures |r| == |cs|
  {
    if cs == [] then [] else Built(os, cs[..|cs| - 1], ps, a) + [BuiltGroup(os, cs[|cs| - 1], ps, a + |cs| - 1)]
  }

  /** The i-th group built is built for the i-th configuration on the i-th attempt after a. */
  lemma {:induction false} BuiltIndex(os: Os, cs: seq<ProcessConfig>, ps: seq<Process>, a: nat, i: nat)
    requires i < |cs|
    ensures Built(os, cs, ps, a)[i] == BuiltGroup(os, cs[i], ps, a + i)
  {
    if i < |cs| - 1 {
      BuiltIndex(os, cs[..|cs| - 1], ps, a, i);
    }
  }

  /** The groups after a rebuild from creation attempt a: none without
      configurations or without processes, otherwise one per configuration. */
  function Rebuilt(os: Os, cs: seq<ProcessConfig>, ps: seq<Process>, a: nat): (r: seq<GroupState>)
    ensures cs == [] || ps == [] ==> r == []
    ensures cs != [] && ps != [] ==> r == Built(os, cs, ps, a)
  {
    if cs == [] || ps == [] then [] else Built(os, cs, ps, a)
  }

  /** One group per configuration, in configuration order, each holding its
      own configuration; a disabled configuration's group has no members and
      is not new; an enabled one is new exactly when it has members. */
  lemma RebuiltMeaning(os: Os, cs: seq<ProcessConfig>, ps: seq<Process>, a: nat, i: nat)
    requires cs != [] && ps != [] && i < |cs|
    ensures Rebuilt(os, cs, ps, a)[i].view.config == cs[i]
    ensures Rebuilt(os, cs, ps, a)[i].view.processes == Members(cs[i], ps)
    ensures !cs[i].isEnabled ==> Rebuilt(os, cs, ps, a)[i].view.processes == [] && !Rebuilt(os, cs, ps, a)[i].isNew
    ensures cs[i].isEnabled ==> (Rebuilt(os, cs, ps, a)[i].isNew <==> Rebuilt(os, cs, ps, a)[i].view.processes != [])
    ensures UniquePids(Rebuilt(os, cs, ps, a)[i].view.processes)
  {
    BuiltIndex(os, cs, ps, a, i);
    MembersMeaning(cs[i], ps);
  }

  /** The pids the memory monitor forgets when the groups ss are disposed. */
  function MembersOf(ss: seq<GroupState>): set<int>
  {
    if ss == [] then {} else MembersOf(ss[..|ss| - 1]) + Pids(ss[|ss| - 1].view.processes)
  }

  /** The CloseHandle call of disposing one group. */
  function CloseStep(s: GroupState): seq<KernelCall>
  {
    if s.view.jobHandle != 0 then [CloseJob(s.view.jobHandle)] else []
  }

  /** Disposing groups forgets exactly the pids of their members and closes
      exactly their nonzero handles. */
  lemma {:induction false} DisposedMeaning(ss: seq<GroupState>)
    ensures forall pid :: pid in MembersOf(ss) <==> exists s :: s in ss && pid in Pids(s.view.processes)
    ensures forall h :: CloseJob(h) in CallsOver(ss, CloseStep) <==> h != 0 && exists s :: s in ss && s.view.jobHandle == h
  {
    if ss != [] {
      var init := ss[..|ss| - 1];
      DisposedMeaning(init);
      assert forall s :: s in ss <==> s in init || s == ss[|ss| - 1];
    }
    CallsOverMembers(ss, CloseStep);
  }

  lemma DisposedSnoc(ss: seq<GroupState>, i: nat, log0: seq<KernelCall>, log: seq<KernelCall>)
    requires i < |ss|
    requires log == log0 + CallsOver(ss[..i], CloseStep) + CloseStep(ss[i])
    ensures log == log0 + CallsOver(ss[..i + 1], CloseStep)
  {
    CallsOverSnoc(ss, i, CloseStep);
    AppendAssoc(log0, CallsOver(ss[..i], CloseStep), CloseStep(ss[i]));
  }

  /** The memory registry m0 after the first i groups of ss have been
      disposed, one group at a time. */
  function Unregistered(m0: map<int, MemoryEntry>, ss: seq<GroupState>, i: nat): map<int, MemoryEntry>
    requires i <= |ss|
  {
    if i == 0 then m0 else Unregistered(m0, ss, i - 1) - Pids(ss[i - 1].view.processes)
  }

  /** Disposing the groups one at a time forgets the members of all of them. */
  lemma {:induction false} UnregisteredMeaning(m0: map<int, MemoryEntry>, ss: seq<GroupState>, i: nat)
    requires i <= |ss|
    ensures Unregistered(m0, ss, i) == m0 - MembersOf(ss[..i])
  {
    if i > 0 {
      UnregisteredMeaning(m0, ss, i - 1);
      assert ss[..i][..i - 1] == ss[..i - 1];
    }
  }

  /** What a reconciliation does to the world outside the groups: the calls
      made (from its start), the two monitors' registries and the number of
      job creation attempts. */
  datatype Effects = Effects(calls: seq<KernelCall>, memory: map<int, MemoryEntry>,
                             disk: map<int, DiskEntry>, attempts: nat)

  /** The first half of UpdateProcessGroups: disposing the groups ss
      unregisters their members from the memory monitor and closes their handles. */
  function AfterDispose(e: Effects, ss: seq<GroupState>): Effects
  {
    e.(calls := e.calls + CallsOver(ss, CloseStep), memory := e.memory - MembersOf(ss))
  }

  /** The second half: nothing without configurations or without processes,
      otherwise the calls and attempts of building one group per configuration. */
  function AfterBuild(os: Os, e: Effects, cs: seq<ProcessConfig>, ps: seq<Process>): Effects
  {
    if cs == [] || ps == [] then e
    else e.(calls := e.calls + BuildCalls(os, Built(os, cs, ps, e.attempts), e.attempts, |cs|),
            attempts := e.attempts + |cs|)
  }

  /** UpdateProcessGroups: dispose the old groups ss, then build the new ones. */
  function AfterRebuild(os: Os, e: Effects, ss: seq<GroupState>, cs: seq<ProcessConfig>, ps: seq<Process>): Effects
  {
    AfterBuild(os, AfterDispose(e, ss), cs, ps)
  }

  // --- Applying limits -------------------------------------------------------------

  /** ApplyProcessLimits only applies to enabled, nonempty, new groups. */
  predicate Eligible(s: GroupState)
  {
    s.view.config.isEnabled && s.view.processes != [] && s.isNew
  }

  /** A group after ApplyProcessLimits, when the next creation attempt is a:
      an eligible group without a handle gets one if it can; it stays new
      only when it still has none. */
  function ApplyState(os: Os, a: nat, s: GroupState): GroupState
  {
    if !Eligible(s) then s
    else
      var h := if s.view.jobHandle == 0 then NewJobHandle(os, a) else s.view.jobHandle;
      if h == 0 then s else GroupState(s.view.(jobHandle := h), false)
  }

  /** The effects of applying the limits of one group. */
  function ApplyOne(os: Os, now: int, e: Effects, s: GroupState): Effects
  {
    if !Eligible(s) then e
    else
      var init := if s.view.jobHandle == 0 then InitCalls(os, e.attempts) else [];
      var attempts := if s.view.jobHandle == 0 then e.attempts + 1 else e.attempts;
      var v := ApplyState(os, e.attempts, s).view;
      if v.jobHandle == 0 then e.(calls := e.calls + init, attempts := attempts)
      else Effects(e.calls + init + DispatchCalls(os, v), MemoryAfter(e.memory, os, v),
                   DiskAfter(e.disk, os, v, now), attempts)
  }

  /** The effects of applying the limits of the groups ss, in order. */
  function ApplyAll(os: Os, now: int, e: Effects, ss: seq<GroupState>): Effects
  {
    if ss == [] then e else ApplyOne(os, now, ApplyAll(os, now, e, ss[..|ss| - 1]), ss[|ss| - 1])
  }

  /** The groups ss after ApplyProcessLimits from effects e: each group is
      applied on the creation attempt reached after the groups before it. */
  function Applied(os: Os, now: int, e: Effects, ss: seq<GroupState>): (r: seq<GroupState>)
    ensures |r| == |ss|
  {
    if ss == [] then []
    else
      var init := ss[..|ss| - 1];
      Applied(os, now, e, init) + [ApplyState(os, ApplyAll(os, now, e, init).attempts, ss[|ss| - 1])]
  }

  lemma AppliedSnoc(os: Os, now: int, e: Effects, ss: seq<GroupState>, i: nat)
    requires i < |ss|
    ensures Applied(os, now, e, ss[..i + 1]) ==
      Applied(os, now, e, ss[..i]) + [ApplyState(os, ApplyAll(os, now, e, ss[..i]).attempts, ss[i])]
    ensures ApplyAll(os, now, e, ss[..i + 1]) == ApplyOne(os, now, ApplyAll(os, now, e, ss[..i]), ss[i])
  {
    assert ss[..i + 1][..i] == ss[..i];
  }

  /** Groups that are not eligible are left alone: when none is, applying
      changes nothing at all. */
  lemma {:induction false} NothingEligible(os: Os, now: int, e: Effects, ss: seq<GroupState>)
    requires forall k :: 0 <= k < |ss| ==> !Eligible(ss[k])
    ensures ApplyAll(os, now, e, ss) == e
    ensures Applied(os, now, e, ss) == ss
  {
    if ss != [] {
      NothingEligible(os, now, e, ss[..|ss| - 1]);
      assert ss == ss[..|ss| - 1] + [ss[|ss| - 1]];
    }
  }

  /** Applying keeps every group's configuration and members; a group that
      is not eligible is left as it was; an eligible one stays new exactly
      when it still has no handle, and keeps the handle it had. */
  lemma {:induction false} AppliedMeaning(os: Os, now: int, e: Effects, ss: seq<GroupState>, k: nat)
    requires k < |ss|
    ensures Applied(os, now, e, ss)[k].view.config == ss[k].view.config
    ensures Applied(os, now, e, ss)[k].view.processes == ss[k].view.processes
    ensures !Eligible(ss[k]) ==> Applied(os, now, e, ss)[k] == ss[k]
    ensures Eligible(ss[k]) ==> (Applied(os, now, e, ss)[k].isNew <==> Applied(os, now, e, ss)[k].view.jobHandle == 0)
    ensures Eligible(ss[k]) && ss[k].view.jobHandle != 0 ==> Applied(os, now, e, ss)[k].view.jobHandle == ss[k].view.jobHandle
  {
    var init := ss[..|ss| - 1];
    if k < |ss| - 1 {
      AppliedMeaning(os, now, e, init, k);
      assert Applied(os, now, e, ss)[k] == Applied(os, now, e, init)[k];
    } else {
      ApplyStateMeaning(os, ApplyAll(os, now, e, init).attempts, ss[k]);
    }
  }

  /** An applied group is no longer new and has a handle; a group is left new
      only when it had no handle and none could be created. */
  lemma ApplyStateMeaning(os: Os, a: nat, s: GroupState)
    ensures ApplyState(os, a, s).view.config == s.view.config
    ensures ApplyState(os, a, s).view.processes == s.view.processes
    ensures Eligible(s) && ApplyState(os, a, s).isNew ==>
      s.view.jobHandle == 0 && ApplyState(os, a, s).view.jobHandle == 0 && !os.accepts(CreateJob(a))
    ensures Eligible(s) && !ApplyState(os, a, s).isNew ==> ApplyState(os, a, s).view.jobHandle != 0
  {
  }

  // --- The reconciler ----------------------------------------------------------------

  class Core {
    var lastProcesses: seq<Process>
    var isFirstRun: bool
    /** The configurations; a null list is modelled as the empty one, which
        every use treats alike. */
    var configs: seq<ProcessConfig>
    var groups: seq<ProcessGroup>
    /** The groups as the reconciler sees them. */
    ghost var states: seq<GroupState>

    /** The groups are distinct objects, each valid, and states describes them. */
    ghost predicate Valid()
      reads this, groups
    {
      && |states| == |groups|
      && (forall i, j :: 0 <= i < j < |groups| ==> groups[i] != groups[j])
      && (forall i :: 0 <= i < |groups| ==> groups[i].Valid() && groups[i].State() == states[i])
    }

    /** A reconciler before its first configuration and its first tick. */
    constructor ()
      ensures Valid()
      ensures lastProcesses == [] && isFirstRun && configs == [] && groups == [] && states == []
    {
      lastProcesses := [];
      isFirstRun := true;
      configs := [];
      groups := [];
      states := [];
    }

    /** FindProcessesByPath: the processes of the snapshot whose image path
        matches, in snapshot order; unreadable ones are skipped. */
    static method FindProcessesByPath(ps: seq<Process>, filePath: Option<string>) returns (result: seq<Process>)
      ensures result == Matches(ps, filePath)
    {
      result := [];
      for i := 0 to |ps|
        invariant result == Matches(ps[..i], filePath)
      {
        assert ps[..i + 1][..i] == ps[..i];
        if PathMatches(ps[i], filePath) {
          result := result + [ps[i]];
        }
      }
      assert ps[..|ps|] == ps;
    }

    /** One iteration of the inner loop of UpdateProcessGroups: AddProcess for the k-th match. */
    static method AddNext(g: ProcessGroup, found: seq<Process>, k: nat, kernel: Kernel,
                          ghost acc: seq<Process>, ghost base: seq<KernelCall>, ghost step: Process -> seq<KernelCall>)
      requires g.Valid() && k < |found| && step == AssignStep(kernel.os, g.jobHandle)
      requires g.processes == GatherFrom(acc, found[..k])
      requires kernel.log == base + CallsOver(g.processes, step)
      modifies g`processes, kernel`log
      ensures g.Valid()
      ensures g.processes == GatherFrom(acc, found[..k + 1])
      ensures kernel.log == base + CallsOver(g.processes, step)
    {
      ghost var before := g.processes;
      GatherSnoc(acc, found, k);
      g.AddProcess(Some(found[k]), kernel);
      if found[k].pid !in Pids(before) {
        CallsOverAppend(base, before, found[k], step);
      }
    }

    /** The inner loop of UpdateProcessGroups: AddProcess for each match, and
        whether there was any. */
    static method AddMatches(g: ProcessGroup, found: seq<Process>, kernel: Kernel, ghost base: seq<KernelCall>)
      returns (added: bool)
      requires g.Valid()
      requires kernel.log == base + CallsOver(g.processes, AssignStep(kernel.os, g.jobHandle))
      modifies g`processes, kernel`log
      ensures g.Valid()
      ensures g.processes == GatherFrom(old(g.processes), found)
      ensures kernel.log == base + CallsOver(g.processes, AssignStep(kernel.os, g.jobHandle))
      ensures added <==> found != []
    {
      ghost var step := AssignStep(kernel.os, g.jobHandle);
      added := false;
      for k := 0 to |found|
        invariant g.Valid()
        invariant g.processes == GatherFrom(old(g.processes), found[..k])
        invariant kernel.log == base + CallsOver(g.processes, step)
        invariant added <==> k > 0
      {
        AddNext(g, found, k, kernel, old(g.processes), base, step);
        added := true;
      }
      assert found[..|found|] == found;
    }

    /** One iteration of the path loop of UpdateProcessGroups: the matches of
        the j-th path of c join the group, and whether there were any. */
    static method AddPath(g: ProcessGroup, c: ProcessConfig, ps: seq<Process>, j: nat, kernel: Kernel,
                          ghost base: seq<KernelCall>) returns (added: bool)
      requires j < |c.paths| && g.Valid()
      requires g.processes == GatherFrom([], Candidates(c.paths[..j], ps))
      requires kernel.log == base + CallsOver(g.processes, AssignStep(kernel.os, g.jobHandle))
      modifies g`processes, kernel`log
      ensures g.Valid()
      ensures g.processes == GatherFrom([], Candidates(c.paths[..j + 1], ps))
      ensures kernel.log == base + CallsOver(g.processes, AssignStep(kernel.os, g.jobHandle))
      ensures added <==> Matches(ps, c.paths[j].filePath) != []
    {
      var matching := FindProcessesByPath(ps, c.paths[j].filePath);
      added := AddMatches(g, matching, kernel, base);
      assert c.paths[..j + 1][..j] == c.paths[..j];
      GatherAppend([], Candidates(c.paths[..j], ps), matching);
    }

    /** The path loop of UpdateProcessGroups for an enabled configuration:
        the matches of every path join the new group, and whether any did. */
    static method AddPaths(g: ProcessGroup, c: ProcessConfig, ps: seq<Process>, kernel: Kernel,
                           ghost base: seq<KernelCall>) returns (hasAddedProcess: bool)
      requires g.Valid() && g.processes == [] && kernel.log == base
      modifies g`processes, kernel`log
      ensures g.Valid()
      ensures g.processes == GatherFrom([], Candidates(c.paths, ps))
      ensures hasAddedProcess <==> Candidates(c.paths, ps) != []
      ensures kernel.log == base + CallsOver(g.processes, AssignStep(kernel.os, g.jobHandle))
    {
      hasAddedProcess := false;
      for j := 0 to |c.paths|
        invariant g.Valid()
        invariant g.processes == GatherFrom([], Candidates(c.paths[..j], ps))
        invariant hasAddedProcess <==> Candidates(c.paths[..j], ps) != []
        invariant kernel.log == base + CallsOver(g.processes, AssignStep(kernel.os, g.jobHandle))
      {
        var added := AddPath(g, c, ps, j, kernel, base);
        assert c.paths[..j + 1][..j] == c.paths[..j];
        hasAddedProcess := hasAddedProcess || added;
      }
      assert c.paths[..|c.paths|] == c.paths;
    }

    /** The body of UpdateProcessGroups for one configuration: a new group,
        whose members (when enabled) are the matches of every path, and which
        is new when some process matched. */
    static method BuildGroup(c: ProcessConfig, ps: seq<Process>, kernel: Kernel, ghost expected: GroupState)
      returns (g: ProcessGroup)
      requires expected == BuiltGroup(kernel.os, c, ps, kernel.jobAttempts)
      modifies kernel`log, kernel`jobAttempts
      ensures fresh(g) && g.Valid()
      ensures g.State() == expected
      ensures kernel.jobAttempts == old(kernel.jobAttempts) + 1
      ensures kernel.log == old(kernel.log) + GroupCalls(kernel.os, expected, old(kernel.jobAttempts))
    {
      g := new ProcessGroup(c, kernel);
      if c.isEnabled {
        var hasAddedProcess := AddPaths(g, c, ps, kernel, kernel.log);
        if hasAddedProcess {
          g.isNew := true;
        }
      }
      AppendAssoc(old(kernel.log), InitCalls(kernel.os, old(kernel.jobAttempts)),
                  CallsOver(g.processes, AssignStep(kernel.os, g.jobHandle)));
    }

    /** The groups gs from i on are intact and described by ss. */
    static ghost predicate Pending(gs: seq<ProcessGroup>, ss: seq<GroupState>, i: nat)
      requires |gs| == |ss|
      reads set k | i <= k < |gs| :: gs[k]
      decreases |gs| - i
    {
      i < |gs| ==> gs[i].Valid() && gs[i].State() == ss[i] && Pending(gs, ss, i + 1)
    }

    /** One iteration of the first half of UpdateProcessGroups: dispose the i-th group. */
    static method DisposeNext(gs: seq<ProcessGroup>, ghost ss: seq<GroupState>, i: nat, memory: MemoryThrottler, kernel: Kernel,
                              ghost log0: seq<KernelCall>, ghost m0: map<int, MemoryEntry>)
      requires i < |gs| == |ss| && memory.Valid()
      requires forall j, k :: 0 <= j < k < |gs| ==> gs[j] != gs[k]
      requires Pending(gs, ss, i)
      requires memory.entries == Unregistered(m0, ss, i)
      requires kernel.log == log0 + CallsOver(ss[..i], CloseStep)
      modifies gs[i], memory, kernel`log
      ensures memory.Valid()
      ensures Pending(gs, ss, i + 1)
      ensures memory.entries == Unregistered(m0, ss, i + 1)
      ensures kernel.log == log0 + CallsOver(ss[..i + 1], CloseStep)
    {
      assert gs[i].processes == ss[i].view.processes && gs[i].jobHandle == ss[i].view.jobHandle;
      gs[i].Dispose(memory, kernel);
      DisposedSnoc(ss, i, log0, kernel.log);
    }

    /** The loop of the first half of UpdateProcessGroups: dispose the groups gs, described by ss, in order. */
    static method DisposeAll(gs: seq<ProcessGroup>, ghost ss: seq<GroupState>, memory: MemoryThrottler, kernel: Kernel)
      requires |gs| == |ss| && memory.Valid()
      requires forall j, k :: 0 <= j < k < |gs| ==> gs[j] != gs[k]
      requires forall k :: 0 <= k < |gs| ==> gs[k].Valid() && gs[k].State() == ss[k]
      modifies gs, memory, kernel`log
      ensures memory.Valid()
      ensures memory.entries == old(memory.entries) - MembersOf(ss)
      ensures kernel.log == old(kernel.log) + CallsOver(ss, CloseStep)
    {
      PendingAll(gs, ss, 0);
      for i := 0 to |gs|
        invariant memory.Valid()
        invariant Pending(gs, ss, i)
        invariant memory.entries == Unregistered(old(memory.entries), ss, i)
        invariant kernel.log == old(kernel.log) + CallsOver(ss[..i], CloseStep)
      {
        DisposeNext(gs, ss, i, memory, kernel, old(kernel.log), old(memory.entries));
      }
      UnregisteredMeaning(old(memory.entries), ss, |ss|);
      assert ss[..|gs|] == ss;
    }

    static lemma {:induction false} PendingAll(gs: seq<ProcessGroup>, ss: seq<GroupState>, i: nat)
      requires |gs| == |ss|
      requires forall k :: i <= k < |gs| ==> gs[k].Valid() && gs[k].State() == ss[k]
      ensures Pending(gs, ss, i)
      decreases |gs| - i
    {
      if i < |gs| {
        PendingAll(gs, ss, i + 1);
      }
    }

    /** The first half of UpdateProcessGroups: dispose every group (which
        unregisters its members from the memory monitor and closes its
        handle) and clear the list. */
    method DisposeGroups(memory: MemoryThrottler, disk: DiskThrottler, kernel: Kernel)
      requires Valid() && memory.Valid()
      modifies this`groups, this`states, groups, memory, kernel`log
      ensures Valid() && memory.Valid() && groups == [] && states == []
      ensures Outside(memory, disk, kernel) == AfterDispose(old(Outside(memory, disk, kernel)), old(states))
    {
      DisposeAll(groups, states, memory, kernel);
      groups := [];
      states := [];
    }

    /** The groups gs are distinct objects built for the first |gs|
        configurations of cs, in order, from creation attempt a0. */
    static ghost predicate GroupsBuilt(gs: seq<ProcessGroup>, os: Os, cs: seq<ProcessConfig>, ps: seq<Process>, a0: nat)
      reads gs
    {
      && |gs| <= |cs|
      && (forall k :: 0 <= k < |gs| ==> gs[k].Valid() && gs[k].State() == Built(os, cs, ps, a0)[k])
      && (forall j, k :: 0 <= j < k < |gs| ==> gs[j] != gs[k])
    }

    static lemma GroupsBuiltSnoc(gs: seq<ProcessGroup>, g: ProcessGroup, os: Os, cs: seq<ProcessConfig>, ps: seq<Process>, a0: nat)
      requires |gs| < |cs| && GroupsBuilt(gs, os, cs, ps, a0) && g !in gs
      requires g.Valid() && g.State() == Built(os, cs, ps, a0)[|gs|]
      ensures GroupsBuilt(gs + [g], os, cs, ps, a0)
    {
    }

    /** The groups built so far, and the calls and attempts their building made since log0 and a0. */
    static ghost predicate BuiltPrefix(gs: seq<ProcessGroup>, cs: seq<ProcessConfig>, ps: seq<Process>,
                                       kernel: Kernel, a0: nat, log0: seq<KernelCall>)
      reads gs, kernel
    {
      && GroupsBuilt(gs, kernel.os, cs, ps, a0)
      && kernel.jobAttempts == a0 + |gs|
      && kernel.log == log0 + BuildCalls(kernel.os, Built(kernel.os, cs, ps, a0), a0, |gs|)
    }

    /** One iteration of the second half of UpdateProcessGroups: the group of the next configuration. */
    static method BuildNext(gs: seq<ProcessGroup>, cs: seq<ProcessConfig>, ps: seq<Process>, kernel: Kernel,
                            ghost a0: nat, ghost log0: seq<KernelCall>) returns (gs': seq<ProcessGroup>)
      requires |gs| < |cs| && BuiltPrefix(gs, cs, ps, kernel, a0, log0)
      modifies kernel`log, kernel`jobAttempts
      ensures |gs'| == |gs| + 1 && BuiltPrefix(gs', cs, ps, kernel, a0, log0)
      ensures gs'[..|gs|] == gs && fresh(gs'[|gs|])
    {
      ghost var target := Built(kernel.os, cs, ps, a0);
      var i := |gs|;
      BuiltIndex(kernel.os, cs, ps, a0, i);
      var group := BuildGroup(cs[i], ps, kernel, target[i]);
      GroupsBuiltSnoc(gs, group, kernel.os, cs, ps, a0);
      gs' := gs + [group];
      BuildCallsSnoc(kernel.os, target, a0, i, log0, kernel.log);
    }

    /** The second half of UpdateProcessGroups: one new group per
        configuration, in order. */
    static method BuildGroups(cs: seq<ProcessConfig>, ps: seq<Process>, kernel: Kernel) returns (gs: seq<ProcessGroup>)
      modifies kernel`log, kernel`jobAttempts
      ensures |gs| == |cs| && BuiltPrefix(gs, cs, ps, kernel, old(kernel.jobAttempts), old(kernel.log))
      ensures forall k :: 0 <= k < |gs| ==> fresh(gs[k])
    {
      gs := [];
      for i := 0 to |cs|
        invariant |gs| == i && BuiltPrefix(gs, cs, ps, kernel, old(kernel.jobAttempts), old(kernel.log))
        invariant forall k :: 0 <= k < i ==> fresh(gs[k])
      {
        gs := BuildNext(gs, cs, ps, kernel, old(kernel.jobAttempts), old(kernel.log));
      }
    }

    /** UpdateProcessGroups: dispose the old groups; then, when there are
        configurations and a snapshot, build one group per configuration in
        order. */
    method UpdateProcessGroups(memory: MemoryThrottler, disk: DiskThrottler, kernel: Kernel)
      requires Valid() && memory.Valid()
      modifies this`groups, this`states, groups, memory, kernel`log, kernel`jobAttempts
      ensures Valid() && memory.Valid() && forall k :: 0 <= k < |groups| ==> fresh(groups[k])
      ensures states == Rebuilt(kernel.os, configs, lastProcesses, old(kernel.jobAttempts))
      ensures Outside(memory, disk, kernel) ==
        AfterRebuild(kernel.os, old(Outside(memory, disk, kernel)), old(states), configs, lastProcesses)
    {
      DisposeGroups(memory, disk, kernel);
      if configs == [] || lastProcesses == [] {
        return;
      }
      RebuildGroups(disk, memory, kernel);
    }

    /** The second half of UpdateProcessGroups, once there are configurations and a snapshot. */
    method RebuildGroups(disk: DiskThrottler, memory: MemoryThrottler, kernel: Kernel)
      requires groups == [] && states == [] && configs != [] && lastProcesses != []
      modifies this`groups, this`states, kernel`log, kernel`jobAttempts
      ensures Valid() && forall k :: 0 <= k < |groups| ==> fresh(groups[k])
      ensures states == Built(kernel.os, configs, lastProcesses, old(kernel.jobAttempts))
      ensures Outside(memory, disk, kernel) == AfterBuild(kernel.os, old(Outside(memory, disk, kernel)), configs, lastProcesses)
    {
      var gs := BuildGroups(configs, lastProcesses, kernel);
      groups := gs;
      states := Built(kernel.os, configs, lastProcesses, old(kernel.jobAttempts));
    }

    /** UpdateProcessConfigs: an empty (or null) list is ignored; otherwise
        the configurations are replaced, the first snapshot is taken if there
        is none yet, and the groups are rebuilt. `snapshot` is what
        Process.GetProcesses would return. */
    method UpdateProcessConfigs(cs: seq<ProcessConfig>, snapshot: seq<Process>,
                                memory: MemoryThrottler, disk: DiskThrottler, kernel: Kernel)
      requires Valid() && memory.Valid()
      modifies this`configs, this`lastProcesses, this`isFirstRun, this`groups, this`states, groups, memory,
               kernel`log, kernel`jobAttempts
      ensures Valid() && memory.Valid()
      ensures cs == [] ==>
        && configs == old(configs) && lastProcesses == old(lastProcesses) && isFirstRun == old(isFirstRun)
        && groups == old(groups) && states == old(states)
        && Outside(memory, disk, kernel) == old(Outside(memory, disk, kernel))
      ensures cs != [] ==>
        && configs == cs
        && lastProcesses == (if old(lastProcesses) == [] then snapshot else old(lastProcesses))
        && isFirstRun == (old(lastProcesses) != [] && old(isFirstRun))
        && states == Rebuilt(kernel.os, cs, lastProcesses, old(kernel.jobAttempts))
        && Outside(memory, disk, kernel) ==
             AfterRebuild(kernel.os, old(Outside(memory, disk, kernel)), old(states), cs, lastProcesses)
    {
      if cs == [] {
        return;
      }
      configs := cs;
      if |lastProcesses| == 0 {
        lastProcesses := snapshot;
        isFirstRun := false;
      }
      UpdateProcessGroups(memory, disk, kernel);
    }

    /** The world outside the groups: the kernel log, the two monitors'
        registries and the count of job creation attempts. */
    static ghost function Outside(memory: MemoryThrottler, disk: DiskThrottler, kernel: Kernel): Effects
      reads memory, disk, kernel
    {
      Effects(kernel.log, memory.entries, disk.entries, kernel.jobAttempts)
    }

    /** The loop body of ApplyProcessLimits for one group, in state s, with
        the world outside the groups at e. */
    static method ApplyGroup(g: ProcessGroup, memory: MemoryThrottler, disk: DiskThrottler, kernel: Kernel, now: int,
                             ghost s: GroupState, ghost e: Effects)
      requires g.Valid() && memory.Valid() && disk.Valid()
      requires g.State() == s && Outside(memory, disk, kernel) == e
      modifies g`jobHandle, g`jobInitialized, g`isNew, memory, disk, kernel`log, kernel`jobAttempts
      ensures g.Valid() && memory.Valid() && disk.Valid()
      ensures g.State() == ApplyState(kernel.os, e.attempts, s)
      ensures Outside(memory, disk, kernel) == ApplyOne(kernel.os, now, e, s)
    {
      if g.config.isEnabled && |g.processes| > 0 && g.isNew {
        var _ := g.ApplyLimits(memory, disk, kernel, now);
      }
    }

    /** One iteration of ApplyProcessLimits: the groups before i are applied,
        the others are as they were. */
    static method ApplyNext(gs: seq<ProcessGroup>, ghost ss: seq<GroupState>, i: nat,
                            memory: MemoryThrottler, disk: DiskThrottler, kernel: Kernel, now: int, ghost e0: Effects)
      requires i < |gs| == |ss| && memory.Valid() && disk.Valid()
      requires forall j, k :: 0 <= j < k < |gs| ==> gs[j] != gs[k]
      requires forall k :: 0 <= k < |gs| ==> gs[k].Valid()
      requires forall k :: 0 <= k < i ==> gs[k].State() == Applied(kernel.os, now, e0, ss[..i])[k]
      requires forall k :: i <= k < |gs| ==> gs[k].State() == ss[k]
      requires Outside(memory, disk, kernel) == ApplyAll(kernel.os, now, e0, ss[..i])
      modifies gs[i], memory, disk, kernel`log, kernel`jobAttempts
      ensures memory.Valid() && disk.Valid()
      ensures forall k :: 0 <= k < |gs| ==> gs[k].Valid()
      ensures forall k :: 0 <= k < i + 1 ==> gs[k].State() == Applied(kernel.os, now, e0, ss[..i + 1])[k]
      ensures forall k :: i + 1 <= k < |gs| ==> gs[k].State() == ss[k]
      ensures Outside(memory, disk, kernel) == ApplyAll(kernel.os, now, e0, ss[..i + 1])
    {
      ApplyGroup(gs[i], memory, disk, kernel, now, ss[i], ApplyAll(kernel.os, now, e0, ss[..i]));
      AppliedSnoc(kernel.os, now, e0, ss, i);
    }

    /** The loop of ApplyProcessLimits over the groups gs, described by ss. */
    static method ApplyAllGroups(gs: seq<ProcessGroup>, ghost ss: seq<GroupState>,
                                 memory: MemoryThrottler, disk: DiskThrottler, kernel: Kernel, now: int)
      requires |gs| == |ss| && memory.Valid() && disk.Valid()
      requires forall j, k :: 0 <= j < k < |gs| ==> gs[j] != gs[k]
      requires forall k :: 0 <= k < |gs| ==> gs[k].Valid() && gs[k].State() == ss[k]
      modifies gs, memory, disk, kernel`log, kernel`jobAttempts
      ensures memory.Valid() && disk.Valid()
      ensures forall k :: 0 <= k < |gs| ==> gs[k].Valid()
      ensures forall k :: 0 <= k < |gs| ==> gs[k].State() == Applied(kernel.os, now, old(Outside(memory, disk, kernel)), ss)[k]
      ensures Outside(memory, disk, kernel) == ApplyAll(kernel.os, now, old(Outside(memory, disk, kernel)), ss)
    {
      ghost var e0 := Outside(memory, disk, kernel);
      for i := 0 to |gs|
        invariant memory.Valid() && disk.Valid()
        invariant forall k :: 0 <= k < |gs| ==> gs[k].Valid()
        invariant forall k :: 0 <= k < i ==> gs[k].State() == Applied(kernel.os, now, e0, ss[..i])[k]
        invariant forall k :: i <= k < |gs| ==> gs[k].State() == ss[k]
        invariant Outside(memory, disk, kernel) == ApplyAll(kernel.os, now, e0, ss[..i])
      {
        ApplyNext(gs, ss, i, memory, disk, kernel, now, e0);
      }
      assert ss[..|gs|] == ss;
    }

    /** ApplyProcessLimits: nothing when no group is new; otherwise the
        eligible groups, in order, get a job if they lack one and their
        limits dispatched. */
    method ApplyProcessLimits(memory: MemoryThrottler, disk: DiskThrottler, kernel: Kernel, now: int,
                              ghost e: Effects, ghost ss: seq<GroupState>)
      requires Valid() && memory.Valid() && disk.Valid()
      requires Outside(memory, disk, kernel) == e && states == ss
      modifies this`states, groups, memory, disk, kernel`log, kernel`jobAttempts
      ensures Valid() && memory.Valid() && disk.Valid()
      ensures states == Applied(kernel.os, now, e, ss)
      ensures Outside(memory, disk, kernel) == ApplyAll(kernel.os, now, e, ss)
    {
      var hasAnyNewGroup := exists k :: 0 <= k < |groups| && groups[k].isNew;
      if !hasAnyNewGroup {
        NothingEligible(kernel.os, now, e, ss);
        return;
      }
      ApplyAllGroups(groups, states, memory, disk, kernel, now);
      states := Applied(kernel.os, now, e, ss);
    }

    /** The first tick of CheckProcesses: store the snapshot, clear the
        first-run flag and build the groups. */
    method FirstTick(currentProcesses: seq<Process>, memory: MemoryThrottler, disk: DiskThrottler, kernel: Kernel,
                     ghost e0: Effects, ghost ss0: seq<GroupState>)
      requires Valid() && memory.Valid()
      requires Outside(memory, disk, kernel) == e0 && states == ss0
      modifies this`lastProcesses, this`isFirstRun, this`groups, this`states, groups, memory,
               kernel`log, kernel`jobAttempts
      ensures Valid() && memory.Valid()
      ensures lastProcesses == currentProcesses && !isFirstRun
      ensures states == Rebuilt(kernel.os, configs, currentProcesses, e0.attempts)
      ensures Outside(memory, disk, kernel) == AfterRebuild(kernel.os, e0, ss0, configs, currentProcesses)
    {
      lastProcesses := currentProcesses;
      isFirstRun := false;
      UpdateProcessGroups(memory, disk, kernel);
    }

    /** The reaction of CheckProcesses to a changed snapshot: store it,
        rebuild the groups, then apply the limits of the new ones. */
    method Reconcile(currentProcesses: seq<Process>, memory: MemoryThrottler, disk: DiskThrottler, kernel: Kernel,
                     now: int, ghost e0: Effects, ghost ss0: seq<GroupState>)
      requires Valid() && memory.Valid() && disk.Valid()
      requires Outside(memory, disk, kernel) == e0 && states == ss0
      modifies this`lastProcesses, this`groups, this`states, groups, memory, disk, kernel`log, kernel`jobAttempts
      ensures Valid() && memory.Valid() && disk.Valid()
      ensures lastProcesses == currentProcesses
      ensures var e := AfterRebuild(kernel.os, e0, ss0, configs, currentProcesses);
        var rebuilt := Rebuilt(kernel.os, configs, currentProcesses, e0.attempts);
        && states == Applied(kernel.os, now, e, rebuilt)
        && Outside(memory, disk, kernel) == ApplyAll(kernel.os, now, e, rebuilt)
    {
      lastProcesses := currentProcesses;
      ghost var e := AfterRebuild(kernel.os, e0, ss0, configs, currentProcesses);
      ghost var rebuilt := Rebuilt(kernel.os, configs, currentProcesses, e0.attempts);
      UpdateProcessGroups(memory, disk, kernel);
      ApplyProcessLimits(memory, disk, kernel, now, e, rebuilt);
    }

    /** CheckProcesses, one tick of the monitor. `current` is the snapshot
        Process.GetProcesses returns, or None when it throws (the exception
        is caught and nothing changes). The first tick stores the snapshot
        and builds the groups; a later one does nothing unless a pid appeared
        or disappeared, and then stores the snapshot, rebuilds the groups and
        applies the limits of the new ones. */
    method CheckProcesses(current: Option<seq<Process>>, memory: MemoryThrottler, disk: DiskThrottler,
                          kernel: Kernel, now: int)
      requires Valid() && memory.Valid() && disk.Valid()
      modifies this`lastProcesses, this`isFirstRun, this`groups, this`states, groups, memory, disk,
               kernel`log, kernel`jobAttempts
      ensures Valid() && memory.Valid() && disk.Valid()
      ensures current.None? || (!old(isFirstRun) && Pids(current.value) == Pids(old(lastProcesses))) ==>
        && lastProcesses == old(lastProcesses) && isFirstRun == old(isFirstRun)
        && groups == old(groups) && states == old(states)
        && Outside(memory, disk, kernel) == old(Outside(memory, disk, kernel))
      ensures current.Some? && old(isFirstRun) ==>
        && lastProcesses == current.value && !isFirstRun
        && states == Rebuilt(kernel.os, configs, current.value, old(kernel.jobAttempts))
        && Outside(memory, disk, kernel) ==
             AfterRebuild(kernel.os, old(Outside(memory, disk, kernel)), old(states), configs, current.value)
      ensures current.Some? && !old(isFirstRun) && Pids(current.value) != Pids(old(lastProcesses)) ==>
        var e := AfterRebuild(kernel.os, old(Outside(memory, disk, kernel)), old(states), configs, current.value);
        var rebuilt := Rebuilt(kernel.os, configs, current.value, old(kernel.jobAttempts));
        && lastProcesses == current.value && !isFirstRun
        && states == Applied(kernel.os, now, e, rebuilt)
        && Outside(memory, disk, kernel) == ApplyAll(kernel.os, now, e, rebuilt)
    {
      if current.None? {
        return;
      }
      var currentProcesses := current.value;
      if isFirstRun {
        FirstTick(currentProcesses, memory, disk, kernel, Outside(memory, disk, kernel), states);
        return;
      }
      var newProcesses := Unseen(currentProcesses, lastProcesses);
      var endedProcesses := Unseen(lastProcesses, currentProcesses);
      ChangedMeaning(currentProcesses, lastProcesses);
      if |newProcesses| > 0 || |endedProcesses| > 0 {
        Reconcile(currentProcesses, memory, disk, kernel, now, Outside(memory, disk, kernel), states);
      }
    }

    /** Dispose: dispose every group and forget the snapshot; the
        configurations and the first-run flag stay. */
    method Dispose(memory: MemoryThrottler, disk: DiskThrottler, kernel: Kernel)
      requires Valid() && memory.Valid()
      modifies this`groups, this`states, this`lastProcesses, groups, memory, kernel`log
      ensures Valid() && memory.Valid()
      ensures groups == [] && states == [] && lastProcesses == []
      ensures Outside(memory, disk, kernel) == AfterDispose(old(Outside(memory, disk, kernel)), old(states))
    {
      DisposeGroups(memory, disk, kernel);
      lastProcesses := [];
    }
  }
}
