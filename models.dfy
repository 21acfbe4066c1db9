/** The configuration data model that every throttler reads: one record type
    per limit, the enums they use, and the default values a fresh object has. */
module Models {

  /** A C# `int`: configured values are 32-bit signed integers. */
  type Int32 = x: int | -0x8000_0000 <= x < 0x8000_0000

  datatype Option<+T> = None | Some(value: T)

  /** Math.Max and Math.Min on ints. */
  function Max(a: int, b: int): int { if a >= b then a else b }
  function Min(a: int, b: int): int { if a <= b then a else b }

  /** `Math.Max(lo, Math.Min(hi, x))`, the clamp the throttlers apply to every
      configured value. */
  function Clamp(x: int, lo: int, hi: int): (r: int)
    requires lo <= hi
    ensures lo <= r <= hi
    ensures lo <= x <= hi ==> r == x
    ensures x < lo ==> r == lo
    ensures hi < x ==> r == hi
  {
    Max(lo, Min(hi, x))
  }

  /** Rate-control mode of a CPU limit; `None` is the default (ordinal 0). */
  datatype CpuLimitType = NoRateLimit | RelativeWeight | AbsoluteRate

  /** Affinity mode of a CPU limit; `None` is the default (ordinal 0). */
  datatype CoreLimitType = NoCoreLimit | CoreCount | CoreNumber

  /** What to do with a process that exceeds its memory cap; the default
      (ordinal 0) is TransferToPageFile. */
  datatype MemoryOveruseAction = TransferToPageFile | TerminateProcess

  datatype PathConfig = PathConfig(filePath: Option<string>, parameters: seq<string>)

  datatype CpuLimit = CpuLimit(
    isEnabled: bool,
    limitType: CpuLimitType,
    relativeWeight: Int32,
    ratePercentage: Int32,
    coreLimitType: CoreLimitType,
    coreCount: Int32,
    coreNumber: Int32)

  datatype MemoryLimit = MemoryLimit(
    isEnabled: bool,
    overuseAction: MemoryOveruseAction,
    memoryUsageLimit: Int32,
    enableMonitoring: bool,
    enableAutoTrim: bool,
    terminateOnExceed: bool)

  datatype DiskLimit = DiskLimit(isEnabled: bool, readWriteRateLimit: Int32)

  datatype NetworkLimit = NetworkLimit(
    isEnabled: bool,
    maxRateLimit: Int32,
    specifyTransferPriority: bool,
    priorityValue: Int32)

  datatype ProcessPriority = ProcessPriority(isEnabled: bool, priorityValue: Int32)

  datatype ProcessConfig = ProcessConfig(
    name: Option<string>,
    isEnabled: bool,
    paths: seq<PathConfig>,
    cpuLimit: CpuLimit,
    memoryLimit: MemoryLimit,
    diskLimit: DiskLimit,
    networkLimit: NetworkLimit,
    processPriority: ProcessPriority)

  /** The underlying C# enum value of each case, in declaration order. */
  function CpuLimitTypeOrdinal(t: CpuLimitType): (n: nat)
    ensures n < 3
    ensures t == NoRateLimit <==> n == 0
  {
    match t
    case NoRateLimit => 0
    case RelativeWeight => 1
    case AbsoluteRate => 2
  }

  function CoreLimitTypeOrdinal(t: CoreLimitType): (n: nat)
    ensures n < 3
    ensures t == NoCoreLimit <==> n == 0
  {
    match t
    case NoCoreLimit => 0
    case CoreCount => 1
    case CoreNumber => 2
  }

  function OveruseActionOrdinal(a: MemoryOveruseAction): (n: nat)
    ensures n < 2
    ensures a == TransferToPageFile <==> n == 0
  {
    match a
    case TransferToPageFile => 0
    case TerminateProcess => 1
  }

  /** The three CPU rate modes are distinct and exhaust the type. */
  lemma CpuLimitTypeCases(t: CpuLimitType)
    ensures t in {NoRateLimit, RelativeWeight, AbsoluteRate}
    ensures forall u: CpuLimitType :: CpuLimitTypeOrdinal(u) == CpuLimitTypeOrdinal(t) ==> u == t
  {
  }

  lemma CoreLimitTypeCases(t: CoreLimitType)
    ensures t in {NoCoreLimit, CoreCount, CoreNumber}
    ensures forall u: CoreLimitType :: CoreLimitTypeOrdinal(u) == CoreLimitTypeOrdinal(t) ==> u == t
  {
  }

  lemma OveruseActionCases(a: MemoryOveruseAction)
    ensures a == TransferToPageFile || a == TerminateProcess
    ensures TransferToPageFile != TerminateProcess
  {
  }

  // Default objects: what `new X()` yields in the source. Fields without an
  // initialiser take the C# default (false, 0, the enum case of ordinal 0, null).

  function NewPathConfig(): (p: PathConfig)
    ensures p.parameters == [] && p.filePath == None
  {
    PathConfig(None, [])
  }

  function NewCpuLimit(): (c: CpuLimit)
    ensures !c.isEnabled
    ensures CpuLimitTypeOrdinal(c.limitType) == 0 && CoreLimitTypeOrdinal(c.coreLimitType) == 0
    ensures c.relativeWeight == 0 && c.ratePercentage == 0 && c.coreCount == 0 && c.coreNumber == 0
  {
    CpuLimit(false, NoRateLimit, 0, 0, NoCoreLimit, 0, 0)
  }

  function NewMemoryLimit(): (m: MemoryLimit)
    ensures !m.isEnabled && m.memoryUsageLimit == 0
    ensures m.enableMonitoring && !m.enableAutoTrim && !m.terminateOnExceed
    ensures OveruseActionOrdinal(m.overuseAction) == 0
  {
    MemoryLimit(false, TransferToPageFile, 0, true, false, false)
  }

  function NewDiskLimit(): (d: DiskLimit)
    ensures !d.isEnabled && d.readWriteRateLimit == 0
  {
    DiskLimit(false, 0)
  }

  function NewNetworkLimit(): (n: NetworkLimit)
    ensures !n.isEnabled && !n.specifyTransferPriority
    ensures n.maxRateLimit == 0 && n.priorityValue == 0
  {
    NetworkLimit(false, 0, false, 0)
  }

  function NewProcessPriority(): (p: ProcessPriority)
    ensures !p.isEnabled && p.priorityValue == 0
  {
    ProcessPriority(false, 0)
  }

  function NewProcessConfig(): (c: ProcessConfig)
    ensures c.paths == [] && !c.isEnabled && c.name == None
    ensures c.cpuLimit == NewCpuLimit() && c.memoryLimit == NewMemoryLimit()
    ensures c.diskLimit == NewDiskLimit() && c.networkLimit == NewNetworkLimit()
    ensures c.processPriority == NewProcessPriority()
  {
    ProcessConfig(None, false, [], NewCpuLimit(), NewMemoryLimit(), NewDiskLimit(),
                  NewNetworkLimit(), NewProcessPriority())
  }

  /** Effective working-set trimming of a memory limit: the explicit flag or
      the overuse action that implies it. */
  predicate EffectiveAutoTrim(m: MemoryLimit)
  {
    m.enableAutoTrim || m.overuseAction == TransferToPageFile
  }

  /** Effective termination of a memory limit: the explicit flag or the
      overuse action that implies it. */
  predicate EffectiveTerminate(m: MemoryLimit)
  {
    m.terminateOnExceed || m.overuseAction == TerminateProcess
  }

  /** Exactly one of the two overuse actions is implied, so every memory
      limit trims or terminates (or both, through the explicit flags), and a
      fresh memory limit trims because its action defaults to the page file. */
  lemma EffectiveActions(m: MemoryLimit)
    ensures EffectiveAutoTrim(m) || EffectiveTerminate(m)
    ensures !m.enableAutoTrim && !m.terminateOnExceed ==> (EffectiveAutoTrim(m) != EffectiveTerminate(m))
    ensures EffectiveAutoTrim(NewMemoryLimit()) && !EffectiveTerminate(NewMemoryLimit())
  {
  }
}
