/** The operating system as the engine sees it: process snapshots, the kernel
    calls the throttlers make (recorded in a log) and the oracles that decide
    whether a call succeeds. */
module Kernel {
  import opened Models

  const TWO_POW_64: int := 0x1_0000_0000_0000_0000
  /** Bytes in a megabyte, 1024 * 1024. */
  const MB: nat := 1048576

  type Positive = n: int | n >= 1 witness 1

  /** A C# `ulong`. */
  type U64 = x: int | 0 <= x < TWO_POW_64

  /** Reduction modulo 2^64 of a value in the k-th window of width 2^64. */
  lemma ModWindow(v: int, k: int)
    ensures k * TWO_POW_64 <= v < k * TWO_POW_64 + TWO_POW_64 ==> v % TWO_POW_64 == v - k * TWO_POW_64
  {
  }

  /** `(ulong)x`: a signed value reinterpreted as unsigned, as an unchecked cast does. */
  function ToU64(x: int): (r: U64)
    ensures 0 <= x < TWO_POW_64 ==> r == x
    ensures -TWO_POW_64 <= x < 0 ==> r == x + TWO_POW_64
  {
    ModWindow(x, 0);
    ModWindow(x, -1);
    x % TWO_POW_64
  }

  /** Unchecked `ulong` subtraction, which wraps around below zero. */
  function SubU64(a: U64, b: U64): (r: U64)
    ensures b <= a ==> r == a - b
    ensures a < b ==> r == TWO_POW_64 + a - b
  {
    ModWindow(a - b, 0);
    ModWindow(a - b, -1);
    (a - b) % TWO_POW_64
  }

  /** Unchecked `ulong` addition. */
  function AddU64(a: U64, b: U64): (r: U64)
    ensures a + b < TWO_POW_64 ==> r == a + b
    ensures TWO_POW_64 <= a + b ==> r == a + b - TWO_POW_64
  {
    ModWindow(a + b, 0);
    ModWindow(a + b, 1);
    (a + b) % TWO_POW_64
  }

  /** `String.ToLower` restricted to ASCII letters. */
  function LowerChar(c: char): char
  {
    if 'A' <= c <= 'Z' then (c as int + 32) as char else c
  }

  predicate IsAsciiUpper(c: char)
  {
    'A' <= c <= 'Z'
  }

  /** The same character, or the same ASCII letter in the other case. */
  predicate SameIgnoringCase(a: char, b: char)
  {
    || a == b
    || (IsAsciiUpper(a) && b as int == a as int + 32)
    || (IsAsciiUpper(b) && a as int == b as int + 32)
  }

  /** Equal length and, position by position, the same up to ASCII case. */
  predicate EqualIgnoringCase(s: string, t: string)
  {
    |s| == |t| && forall i :: 0 <= i < |s| ==> SameIgnoringCase(s[i], t[i])
  }

  /** The string lower-cased: no capital letter is left, and every character
      is its original up to case. */
  function Lower(s: string): (r: string)
    ensures |r| == |s|
    ensures forall i :: 0 <= i < |r| ==> !IsAsciiUpper(r[i])
    ensures EqualIgnoringCase(s, r)
  {
    seq(|s|, i requires 0 <= i < |s| => LowerChar(s[i]))
  }

  lemma LowerCharSame(a: char, b: char)
    ensures LowerChar(a) == LowerChar(b) <==> SameIgnoringCase(a, b)
  {
  }

  /** Lower-casing twice is lower-casing once. */
  lemma LowerIdempotent(s: string)
    ensures Lower(Lower(s)) == Lower(s)
  {
    forall i | 0 <= i < |s|
      ensures Lower(Lower(s))[i] == Lower(s)[i]
    {
      assert !IsAsciiUpper(Lower(s)[i]);
    }
  }

  /** Two strings lower-case to the same string exactly when they are equal
      ignoring ASCII case. */
  lemma LowerEqualIff(s: string, t: string)
    ensures Lower(s) == Lower(t) <==> EqualIgnoringCase(s, t)
  {
    if Lower(s) == Lower(t) {
      forall i | 0 <= i < |s|
        ensures SameIgnoringCase(s[i], t[i])
      {
        assert Lower(s)[i] == Lower(t)[i];
        LowerCharSame(s[i], t[i]);
      }
    }
    if EqualIgnoringCase(s, t) {
      forall i | 0 <= i < |s|
        ensures Lower(s)[i] == Lower(t)[i]
      {
        LowerCharSame(s[i], t[i]);
      }
    }
  }

  /** One entry of an OS process snapshot. `imagePath` is None when the main
      module's file name cannot be read (protected or exited process). */
  datatype Process = Process(pid: int, imagePath: Option<string>)

  function Pids(ps: seq<Process>): (r: set<int>)
    ensures forall p :: p in ps ==> p.pid in r
  {
    set p | p in ps :: p.pid
  }

  /** The calls a per-member step makes over a member list, in list order. */
  function CallsOver<T>(ps: seq<T>, step: T -> seq<KernelCall>): (r: seq<KernelCall>)
    ensures ps == [] ==> r == []
  {
    if ps == [] then [] else CallsOver(ps[..|ps| - 1], step) + step(ps[|ps| - 1])
  }

  /** The `success &= ...` accumulation of a per-member result over a member list. */
  predicate AllOver<T>(ps: seq<T>, ok: T -> bool)
  {
    ps == [] || (AllOver(ps[..|ps| - 1], ok) && ok(ps[|ps| - 1]))
  }

  /** The accumulated AND is the AND over all members: a failure is never skipped
      and never stops the accumulation. */
  lemma {:induction false} AllOverIsEvery<T>(ps: seq<T>, ok: T -> bool)
    ensures AllOver(ps, ok) <==> forall p :: p in ps ==> ok(p)
  {
    if ps != [] {
      var init := ps[..|ps| - 1];
      AllOverIsEvery(init, ok);
      assert forall p :: p in ps <==> p in init || p == ps[|ps| - 1];
    }
  }

  /** A call is made over a list exactly when some member's step makes it. */
  lemma {:induction false} CallsOverMembers<T>(ps: seq<T>, step: T -> seq<KernelCall>)
    ensures forall c :: c in CallsOver(ps, step) <==> exists p :: p in ps && c in step(p)
  {
    if ps != [] {
      var init := ps[..|ps| - 1];
      CallsOverMembers(init, step);
      assert forall p :: p in ps <==> p in init || p == ps[|ps| - 1];
    }
  }

  /** A step that makes no call for any member makes no call over the list. */
  lemma {:induction false} CallsOverSilent<T>(ps: seq<T>, step: T -> seq<KernelCall>)
    requires forall p :: p in ps ==> step(p) == []
    ensures CallsOver(ps, step) == []
  {
    if ps != [] {
      CallsOverSilent(ps[..|ps| - 1], step);
      assert ps[|ps| - 1] in ps;
    }
  }

  lemma CallsOverSnoc<T>(ps: seq<T>, i: nat, step: T -> seq<KernelCall>)
    requires i < |ps|
    ensures CallsOver(ps[..i + 1], step) == CallsOver(ps[..i], step) + step(ps[i])
  {
    assert ps[..i + 1][..i] == ps[..i];
  }

  /** Extending the list by one member extends the calls by that member's step. */
  lemma OverSnoc<T>(ps: seq<T>, i: nat, step: T -> seq<KernelCall>, ok: T -> bool)
    requires i < |ps|
    ensures CallsOver(ps[..i + 1], step) == CallsOver(ps[..i], step) + step(ps[i])
    ensures AllOver(ps[..i + 1], ok) == (AllOver(ps[..i], ok) && ok(ps[i]))
  {
    assert ps[..i + 1][..i] == ps[..i];
  }

  lemma AppendAssoc<T>(a: seq<T>, b: seq<T>, c: seq<T>)
    ensures a + (b + c) == (a + b) + c
  {
  }

  /** Appending one member to a list appends that member's step to the calls made after base. */
  lemma CallsOverAppend<T>(base: seq<KernelCall>, ps: seq<T>, x: T, step: T -> seq<KernelCall>)
    ensures base + CallsOver(ps + [x], step) == base + CallsOver(ps, step) + step(x)
  {
    assert (ps + [x])[..|ps|] == ps;
    AppendAssoc(base, CallsOver(ps, step), step(x));
  }

  /** The pids of the first i + 1 entries are those of the first i and one more. */
  lemma PidsSnoc(ps: seq<Process>, i: nat)
    requires i < |ps|
    ensures Pids(ps[..i + 1]) == Pids(ps[..i]) + {ps[i].pid}
  {
    assert ps[..i + 1] == ps[..i] + [ps[i]];
  }

  /** The elements of a sequence, as a set. */
  function Elements(s: seq<int>): (r: set<int>)
    ensures forall x :: x in r <==> x in s
  {
    set x | x in s
  }

  lemma ElementsSnoc(s: seq<int>, i: nat)
    requires i < |s|
    ensures Elements(s[..i + 1]) == Elements(s[..i]) + {s[i]}
  {
    assert s[..i + 1] == s[..i] + [s[i]];
  }

  /** The pids of a list's readable members. */
  function ReadablePids(os: Os, ps: seq<Process>): set<int>
  {
    if ps == [] then {}
    else ReadablePids(os, ps[..|ps| - 1]) + (if os.readable(ps[|ps| - 1].pid) then {ps[|ps| - 1].pid} else {})
  }

  lemma {:induction false} ReadablePidsMeaning(os: Os, ps: seq<Process>)
    ensures forall q :: q in ReadablePids(os, ps) <==> exists p :: p in ps && os.readable(p.pid) && p.pid == q
  {
    if ps != [] {
      var init := ps[..|ps| - 1];
      ReadablePidsMeaning(os, init);
      assert forall x :: x in ps <==> x in init || x == ps[|ps| - 1];
    }
  }

  /** No two entries share a pid. */
  predicate UniquePids(ps: seq<Process>)
  {
    forall i, j :: 0 <= i < j < |ps| ==> ps[i].pid != ps[j].pid
  }

  // --- Descriptors passed to SetInformationJobObject --------------------------

  const CPU_RATE_CONTROL_ENABLE: bv32 := 0x1
  const CPU_RATE_CONTROL_WEIGHT_BASED: bv32 := 0x2
  const CPU_RATE_CONTROL_HARD_CAP: bv32 := 0x4

  const NET_RATE_CONTROL_ENABLE: bv32 := 0x1
  const NET_RATE_CONTROL_MAX_BANDWIDTH: bv32 := 0x2
  const NET_RATE_CONTROL_DSCP_TAG: bv32 := 0x4

  const LIMIT_PROCESS_MEMORY: bv32 := 0x100
  const LIMIT_KILL_ON_JOB_CLOSE: bv32 := 0x2000

  /** JOBOBJECT_CPU_RATE_CONTROL_INFORMATION: the flags and the union field
      (a weight or a rate in hundredths of a percent). */
  datatype CpuRateInfo = CpuRateInfo(controlFlags: bv32, value: nat)

  /** JOBOBJECT_NET_RATE_CONTROL_INFORMATION. */
  datatype NetRateInfo = NetRateInfo(controlFlags: bv32, maxBandwidth: U64, dscpTag: nat)

  datatype JobInfo =
    | ExtendedLimit(limitFlags: bv32, processMemoryLimit: U64)
    | CpuRateControl(cpu: CpuRateInfo)
    | NetRateControl(net: NetRateInfo)

  /** Scheduling classes of System.Diagnostics.ProcessPriorityClass. */
  datatype PriorityClass = Idle | BelowNormal | Normal | AboveNormal | High | RealTime

  /** Every effect the engine has on the OS, in the order it happens. */
  datatype KernelCall =
    | CreateJob(attempt: nat)
    | SetJobInfo(job: nat, info: JobInfo)
    | AssignProcess(job: nat, pid: int)
    | CloseJob(job: nat)
    | SetAffinity(pid: int, mask: bv64)
    | SetWorkingSet(pid: int, minimum: U64, maximum: U64)
    | SetPriority(pid: int, priority: PriorityClass)
    | EmptyWorkingSet(pid: int)
    | Kill(pid: int)
    | Suspend(pid: int)
    | Sleep(milliseconds: nat)
    | Resume(pid: int)

  /** The job-handle-related part of a process group that the throttlers read. */
  datatype GroupView = GroupView(config: ProcessConfig, processes: seq<Process>, jobHandle: nat)

  /** The answers the kernel gives: `accepts(c)` is the boolean a call returns,
      `errorOf(c)` the last Win32 error after it fails, `readable(pid)` whether
      the reads a throttler makes inside its per-member try block (the name,
      then the handle) succeed (false: one of them throws and is caught;
      the catch block's own read of the name is taken to succeed),
      `processorCount` is Environment.ProcessorCount. */
  datatype Os = Os(
    accepts: KernelCall -> bool,
    errorOf: KernelCall -> int,
    readable: int -> bool,
    processorCount: Positive)

  /** The kernel: the oracles and a log of the calls made so far. */
  class Kernel {
    const os: Os
    var log: seq<KernelCall>
    var jobAttempts: nat

    constructor (os: Os)
      ensures this.os == os && log == [] && jobAttempts == 0
    {
      this.os := os;
      log := [];
      jobAttempts := 0;
    }

    /** Makes one call and returns what the kernel answers. */
    method Invoke(c: KernelCall) returns (ok: bool)
      modifies this`log
      ensures log == old(log) + [c]
      ensures ok == os.accepts(c)
    {
      log := log + [c];
      ok := os.accepts(c);
    }

    /** CreateJobObject: the handle of the new job, or 0 if creation failed.
        Handle values are abstract: attempt n yields the nonzero value n + 1. */
    method CreateJobObject() returns (handle: nat)
      modifies this`log, this`jobAttempts
      ensures jobAttempts == old(jobAttempts) + 1
      ensures log == old(log) + [CreateJob(old(jobAttempts))]
      ensures handle == if os.accepts(CreateJob(old(jobAttempts))) then old(jobAttempts) + 1 else 0
    {
      var c := CreateJob(jobAttempts);
      log := log + [c];
      handle := if os.accepts(c) then jobAttempts + 1 else 0;
      jobAttempts := jobAttempts + 1;
    }
  }
}
