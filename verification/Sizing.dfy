/** Sizing a resource change from a diagnosis and the live workload
    (internal/remediation/proposer.go, proposer_grounding.go). */
module Sizing {
  import opened Json
  import opened Prune

  /** Kubernetes quantities: the parser and the three renderings the operator
      uses. Values are exact; the unit is one byte or one core. */
  datatype Quantities = Quantities(
    parse: string -> Option<real>,
    canonical: string -> string,
    bytes: int -> string,
    millis: int -> string)

  ghost predicate LawfulQuantities(q: Quantities)
  {
    && q.parse("").None?
    && (forall s | q.parse(s).Some? :: q.parse(q.canonical(s)) == q.parse(s))
    && (forall n :: q.parse(q.bytes(n)) == Some(n as real))
    && (forall n :: q.parse(q.millis(n)) == Some(n as real / 1000.0))
  }

  // ---------------------------------------------------------------------------
  // Live and recorded values
  // ---------------------------------------------------------------------------

  datatype Dimension = Memory | Cpu

  function Key(d: Dimension): string
  {
    if d.Memory? then "memory" else "cpu"
  }

  /** Resource values of one section; "" is an unset key. */
  datatype ResourceValues = ResourceValues(cpu: string, memory: string)

  datatype Workload = Unresolved | Resolved(limits: ResourceValues, requests: ResourceValues)

  const LIMITS: Path := ["spec", "resources", "limits"]
  const REQUESTS: Path := ["spec", "resources", "requests"]

  function LimitPath(d: Dimension): Path
  {
    LIMITS + [Key(d)]
  }

  /** observedValue: the live value at a persona-spec resource path. */
  function Observed(w: Workload, p: Path): (live: Option<string>)
    ensures live.Some? ==> |p| == 4 && live.value != ""
  {
    if w.Unresolved? || |p| != 4 || (p[..3] != LIMITS && p[..3] != REQUESTS) then None
    else
      var section := if p[..3] == LIMITS then w.limits else w.requests;
      var value := if p[3] == "cpu" then section.cpu else if p[3] == "memory" then section.memory else "";
      if value == "" then None else Some(value)
  }

  /** isResourcePath: a leaf named cpu or memory somewhere below limits or
      requests. */
  predicate IsResourcePath(p: Path)
  {
    |p| >= 4 && (p[..3] == LIMITS || p[..3] == REQUESTS) && p[|p| - 1] in {"cpu", "memory"}
  }

  /** The limit the persona records, or "". */
  function PersonaLimit(persona: Option<Fields>, d: Dimension): string
  {
    if persona.None? then ""
    else match StringAt(persona.value, ["resources", "limits", Key(d)])
      case Some(s) => s
      case None => ""
  }

  // ---------------------------------------------------------------------------
  // What a diagnosis asks for
  // ---------------------------------------------------------------------------

  datatype Signal =
    | OOMKilled | MemorySaturationCrit | MemorySaturationHigh
    | CPUSaturationHigh | CPUSaturationCritical
    | CrashLoopBackOff
    | OtherSignal(name: string)

  datatype Diagnosis = Diagnosis(contributing: seq<Signal>, critical: bool)

  function PrimarySignal(d: Diagnosis): Signal
  {
    if d.contributing == [] then OtherSignal("Unknown") else d.contributing[0]
  }

  predicate IsMemorySignal(s: Signal)
  {
    s.OOMKilled? || s.MemorySaturationCrit? || s.MemorySaturationHigh?
  }

  predicate HasOOMCorrelation(d: Diagnosis)
  {
    exists s | s in d.contributing :: IsMemorySignal(s)
  }

  /** diagnosisTargetPath: the field the fix is predicted to patch. */
  function TargetPath(d: Diagnosis): Option<Path>
  {
    match PrimarySignal(d)
    case OOMKilled => Some(LimitPath(Memory))
    case MemorySaturationCrit => Some(LimitPath(Memory))
    case MemorySaturationHigh => Some(LimitPath(Memory))
    case CPUSaturationHigh => Some(LimitPath(Cpu))
    case CPUSaturationCritical => Some(LimitPath(Cpu))
    case CrashLoopBackOff => if HasOOMCorrelation(d) then Some(LimitPath(Memory)) else None
    case OtherSignal(_) => None
  }

  const MEMORY_WARNING := 1.5
  const MEMORY_CRITICAL := 2.0
  const CPU_WARNING := 1.25
  const CPU_CRITICAL := 1.5
  const MAX_MULTIPLIER := 2.0

  function IncreaseMultiplier(d: Dimension, critical: bool): real
  {
    var warning := if d.Cpu? then CPU_WARNING else MEMORY_WARNING;
    var crit := if d.Cpu? then CPU_CRITICAL else MEMORY_CRITICAL;
    var multiplier := if critical then crit else warning;
    if multiplier < MAX_MULTIPLIER then multiplier else MAX_MULTIPLIER
  }

  /** Quantity.Value and MilliValue round up to a whole unit. */
  function Ceiling(x: real): int
  {
    -((-x).Floor)
  }

  /** A Go conversion to int64 drops the fraction. */
  function Truncated(x: real): int
  {
    if x >= 0.0 then x.Floor else -((-x).Floor)
  }

  /** Bytes, or thousandths of a core. */
  function InUnits(b: real, d: Dimension): real
  {
    if d.Cpu? then b * 1000.0 else b
  }

  function ScaledUnits(baseline: real, multiplier: real, d: Dimension): int
  {
    Truncated(Ceiling(InUnits(baseline, d)) as real * multiplier)
  }

  function ScaleQuantity(q: Quantities, baseline: real, multiplier: real, d: Dimension): string
  {
    if d.Cpu? then q.millis(ScaledUnits(baseline, multiplier, d)) else q.bytes(ScaledUnits(baseline, multiplier, d))
  }

  /** What calculateResourceChange decides. */
  datatype Change =
    | Sized(patch: Fields, prePatch: Fields, baseline: string, value: string)
    | Declined
    | NoChange
    | Unparsable

  function LimitIncrease(q: Quantities, d: Diagnosis, persona: Option<Fields>, w: Workload, dim: Dimension): Change
  {
    var path, recorded := LimitPath(dim), PersonaLimit(persona, dim);
    var live := Observed(w, path);
    if live.None? && w.Resolved? then Declined
    else if live.None? && recorded == "" then NoChange
    else
      var baseline := if live.Some? then live.value else recorded;
      match q.parse(baseline)
      case None => Unparsable
      case Some(b) =>
        var value := ScaleQuantity(q, b, IncreaseMultiplier(dim, d.critical), dim);
        Sized(Nested(path, value), Nested(path, if recorded == "" then baseline else recorded), baseline, value)
  }

  /** calculateResourceChange. */
  function ResourceChange(q: Quantities, d: Diagnosis, persona: Option<Fields>, w: Workload): Change
  {
    var primary := PrimarySignal(d);
    if IsMemorySignal(primary) then LimitIncrease(q, d, persona, w, Memory)
    else if primary.CPUSaturationHigh? || primary.CPUSaturationCritical? then LimitIncrease(q, d, persona, w, Cpu)
    else if primary.CrashLoopBackOff? && HasOOMCorrelation(d) then LimitIncrease(q, d, persona, w, Memory)
    else NoChange
  }

  const MEMORY_LIMIT: Path := ["spec", "resources", "limits", "memory"]
  const CPU_LIMIT: Path := ["spec", "resources", "limits", "cpu"]

  ghost predicate ShowsMemoryPressure(d: Diagnosis)
  {
    exists s | s in d.contributing :: s == OOMKilled || s == MemorySaturationCrit || s == MemorySaturationHigh
  }

  /** What a diagnosis is predicted to patch, from its signals: the memory limit for
      memory pressure first, or for a crash loop that comes with it; the CPU limit
      for CPU saturation; nothing else. */
  lemma TargetPathIs(d: Diagnosis)
    ensures d.contributing == [] ==> TargetPath(d) == None
    ensures d.contributing != [] ==>
      TargetPath(d) ==
      match d.contributing[0]
      case OOMKilled => Some(MEMORY_LIMIT)
      case MemorySaturationCrit => Some(MEMORY_LIMIT)
      case MemorySaturationHigh => Some(MEMORY_LIMIT)
      case CPUSaturationHigh => Some(CPU_LIMIT)
      case CPUSaturationCritical => Some(CPU_LIMIT)
      case CrashLoopBackOff => if ShowsMemoryPressure(d) then Some(MEMORY_LIMIT) else None
      case OtherSignal(_) => None
  {
    assert LIMITS + ["memory"] == MEMORY_LIMIT && LIMITS + ["cpu"] == CPU_LIMIT;
    if s :| s in d.contributing && IsMemorySignal(s) { assert ShowsMemoryPressure(d); }
    if s :| s in d.contributing && (s == OOMKilled || s == MemorySaturationCrit || s == MemorySaturationHigh) {
      assert IsMemorySignal(s);
    }
  }

  /** The live values of the four resource keys. */
  lemma ObservedIs(limits: ResourceValues, requests: ResourceValues)
    ensures var w := Resolved(limits, requests);
      && Observed(w, MEMORY_LIMIT) == (if limits.memory == "" then None else Some(limits.memory))
      && Observed(w, CPU_LIMIT) == (if limits.cpu == "" then None else Some(limits.cpu))
      && Observed(w, ["spec", "resources", "requests", "memory"]) ==
         (if requests.memory == "" then None else Some(requests.memory))
      && Observed(w, ["spec", "resources", "requests", "cpu"]) ==
         (if requests.cpu == "" then None else Some(requests.cpu))
  {
    assert MEMORY_LIMIT[..3] == LIMITS && CPU_LIMIT[..3] == LIMITS;
    assert ["spec", "resources", "requests", "memory"][..3] == REQUESTS;
    assert ["spec", "resources", "requests", "cpu"][..3] == REQUESTS;
    assert LIMITS[2] != REQUESTS[2];
  }

  /** What a change is sized from: the live limit of a resolved workload, the recorded
      one otherwise. */
  function BaselineText(persona: Option<Fields>, w: Workload, target: Path): string
    requires |target| == 4
  {
    match (if w.Resolved? then Observed(w, target)
           else if persona.Some? then StringAt(persona.value, target[1..]) else None)
    case Some(s) => s
    case None => ""
  }

  /** Main result: a change is sized exactly when the diagnosis has a target and its
      baseline parses, and it is sized from that baseline. */
  lemma SizedIff(q: Quantities, d: Diagnosis, persona: Option<Fields>, w: Workload, target: Path)
    requires LawfulQuantities(q) && TargetPath(d) == Some(target)
    ensures |target| == 4
    ensures var change, baseline := ResourceChange(q, d, persona, w), BaselineText(persona, w, target);
      && (change.Sized? <==> q.parse(baseline).Some?) && (change.Sized? ==> change.baseline == baseline)
      && (change.Unparsable? <==> baseline != "" && q.parse(baseline).None?)
  {
    ChangeAtTarget(q, d, persona, w);
    LimitIncreaseIff(q, d, persona, w, TargetOf(d));
  }

  lemma ChangeAtTarget(q: Quantities, d: Diagnosis, persona: Option<Fields>, w: Workload)
    ensures TargetPath(d).Some? ==>
      && TargetPath(d).value == LimitPath(TargetOf(d))
      && ResourceChange(q, d, persona, w) == LimitIncrease(q, d, persona, w, TargetOf(d))
    ensures TargetPath(d).None? ==> ResourceChange(q, d, persona, w) == NoChange
  {
  }

  lemma LimitIncreaseIff(q: Quantities, d: Diagnosis, persona: Option<Fields>, w: Workload, dim: Dimension)
    requires LawfulQuantities(q)
    ensures var change, baseline := LimitIncrease(q, d, persona, w, dim), BaselineText(persona, w, LimitPath(dim));
      && (change.Sized? <==> q.parse(baseline).Some?) && (change.Sized? ==> change.baseline == baseline)
      && (change.Unparsable? <==> baseline != "" && q.parse(baseline).None?)
  {
    BaselineTextIs(persona, w, dim);
  }

  lemma BaselineTextIs(persona: Option<Fields>, w: Workload, dim: Dimension)
    ensures BaselineText(persona, w, LimitPath(dim)) ==
            match Observed(w, LimitPath(dim))
            case Some(live) => live
            case None => if w.Resolved? then "" else PersonaLimit(persona, dim)
  {
    assert LimitPath(dim)[1..] == ["resources", "limits", Key(dim)];
  }

  /** Main result: from a baseline that is not negative, the value is the baseline in
      whole bytes or thousandths of a core, rounded up, times 1.5 or, if critical, 2
      for memory, and times 1.25 or 1.5 for CPU, rounded down. */
  lemma DerivedValue(q: Quantities, b: real, critical: bool, d: Dimension, multiplier: real)
    returns (units: int, scaled: int)
    requires LawfulQuantities(q) && b >= 0.0
    requires multiplier == if d.Cpu? then (if critical then 1.5 else 1.25) else (if critical then 2.0 else 1.5)
    ensures var baseline := if d.Cpu? then b * 1000.0 else b; baseline <= units as real < baseline + 1.0
    ensures scaled as real <= units as real * multiplier < scaled as real + 1.0
    ensures q.parse(ScaleQuantity(q, b, IncreaseMultiplier(d, critical), d)) ==
            Some(if d.Cpu? then scaled as real / 1000.0 else scaled as real)
  {
    MultiplierIs(d, critical);
    ParsedScale(q, b, multiplier, d);
    units := ScaledBothWays(b, multiplier, d);
    scaled := ScaledUnits(b, multiplier, d);
  }

  lemma ScaledBothWays(b: real, m: real, d: Dimension) returns (units: int)
    requires b >= 0.0 && m > 0.0
    ensures var baseline := if d.Cpu? then b * 1000.0 else b; baseline <= units as real < baseline + 1.0
    ensures ScaledUnits(b, m, d) as real <= units as real * m < ScaledUnits(b, m, d) as real + 1.0
  {
    units := Ceiling(InUnits(b, d));
    RoundedBothWays(InUnits(b, d), m);
  }

  lemma MultiplierIs(d: Dimension, critical: bool)
    ensures IncreaseMultiplier(d, critical) ==
            if d.Cpu? then (if critical then 1.5 else 1.25) else (if critical then 2.0 else 1.5)
  {
  }

  lemma RoundedBothWays(x: real, m: real)
    requires x >= 0.0 && m > 0.0
    ensures var up := Ceiling(x);
      var n := Truncated(up as real * m);
      x <= up as real < x + 1.0 && n as real <= up as real * m < n as real + 1.0
  {
    CeilingIsAbove(x);
    TruncatedIsBelow(Ceiling(x), m);
  }

  lemma CeilingIsAbove(x: real)
    ensures x <= Ceiling(x) as real < x + 1.0
  {
  }

  lemma TruncatedIsBelow(units: int, m: real)
    requires units >= 0 && m > 0.0
    ensures var n := Truncated(units as real * m); n as real <= units as real * m < n as real + 1.0
  {
    assert units as real * m >= 0.0;
  }

  /** The sized patch sets exactly the field the diagnosis was predicted to
      patch, and its rollback value sits at the same path. */
  lemma SizedPatchHitsTarget(q: Quantities, d: Diagnosis, persona: Option<Fields>, w: Workload, p: Path)
    requires ResourceChange(q, d, persona, w).Sized?
    ensures TargetPath(d).Some?
    ensures var change := ResourceChange(q, d, persona, w);
      && (LeafAt(change.patch, p).Some? <==> p == TargetPath(d).value)
      && (LeafAt(change.prePatch, p).Some? <==> p == TargetPath(d).value)
      && StringAt(change.patch, TargetPath(d).value) == Some(change.value)
  {
    var dim := TargetDimension(q, d, persona, w);
    SizedLeaves(q, d, persona, w, dim, p);
  }

  /** The dimension a resource diagnosis is about. */
  function TargetOf(d: Diagnosis): Dimension
  {
    if PrimarySignal(d).CPUSaturationHigh? || PrimarySignal(d).CPUSaturationCritical? then Cpu else Memory
  }

  lemma TargetDimension(q: Quantities, d: Diagnosis, persona: Option<Fields>, w: Workload) returns (dim: Dimension)
    requires ResourceChange(q, d, persona, w) != NoChange
    ensures dim == TargetOf(d) && TargetPath(d) == Some(LimitPath(dim))
    ensures ResourceChange(q, d, persona, w) == LimitIncrease(q, d, persona, w, dim)
  {
    dim := TargetOf(d);
  }

  lemma SizedLeaves(q: Quantities, d: Diagnosis, persona: Option<Fields>, w: Workload, dim: Dimension, p: Path)
    requires LimitIncrease(q, d, persona, w, dim).Sized?
    ensures var change := LimitIncrease(q, d, persona, w, dim);
      && (LeafAt(change.patch, p).Some? <==> p == LimitPath(dim))
      && (LeafAt(change.prePatch, p).Some? <==> p == LimitPath(dim))
      && StringAt(change.patch, LimitPath(dim)) == Some(change.value)
  {
    var change, recorded := LimitIncrease(q, d, persona, w, dim), PersonaLimit(persona, dim);
    NestedLeaves(LimitPath(dim), change.value, p);
    NestedLeaves(LimitPath(dim), change.value, LimitPath(dim));
    NestedLeaves(LimitPath(dim), if recorded == "" then change.baseline else recorded, p);
  }

  lemma NestedLeaves(path: Path, value: string, p: Path)
    requires path != []
    ensures LeafAt(Nested(path, value), p) == if p == path then Some(Str(value)) else None
  {
    WithPathLeaves(map[], path, value, p);
  }

  /** The baselines whose derived value stays within twice of them, in bytes or
      thousandths of a core: at the doubling multiplier the whole ones; at one
      and a half all but the smallest fractions and those between one and one and
      a half; at one and a quarter all but the smallest fractions. */
  predicate FitsCap(b: real, multiplier: real, d: Dimension)
  {
    UnitsFitCap(InUnits(b, d), multiplier)
  }

  predicate UnitsFitCap(units: real, multiplier: real)
  {
    if multiplier == 2.0 then Ceiling(units) as real == units
    else if multiplier == 1.5 then units >= 0.5 && !(1.0 < units < 1.5)
    else units >= 0.5
  }

  /** The value derived from a positive baseline is never below it, and within
      twice of it exactly when the baseline fits. */
  lemma DerivedFitsIff(q: Quantities, b: real, critical: bool, d: Dimension)
    requires LawfulQuantities(q) && b > 0.0
    ensures var m := IncreaseMultiplier(d, critical);
      var x := q.parse(ScaleQuantity(q, b, m, d));
      x.Some? && x.value >= b && (x.value <= 2.0 * b <==> FitsCap(b, m, d))
  {
    var m := IncreaseMultiplier(d, critical);
    ParsedScale(q, b, m, d);
    ScaledFits(b, m, d);
  }

  lemma ScaledFits(b: real, m: real, d: Dimension)
    requires b > 0.0 && (m == 1.25 || m == 1.5 || m == 2.0)
    ensures var n := ScaledUnits(b, m, d) as real;
      var x := if d.Cpu? then n / 1000.0 else n;
      x >= b && (x <= 2.0 * b <==> FitsCap(b, m, d))
  {
    UnitsFit(InUnits(b, d), m);
    Thousandths(b, ScaledUnits(b, m, d));
  }

  lemma ParsedScale(q: Quantities, b: real, m: real, d: Dimension)
    requires LawfulQuantities(q)
    ensures q.parse(ScaleQuantity(q, b, m, d)) ==
            Some(if d.Cpu? then ScaledUnits(b, m, d) as real / 1000.0 else ScaledUnits(b, m, d) as real)
  {
  }

  lemma Thousandths(b: real, n: int)
    ensures n as real / 1000.0 >= b <==> n as real >= b * 1000.0
    ensures n as real / 1000.0 <= 2.0 * b <==> n as real <= 2.0 * (b * 1000.0)
  {
  }

  /** The rounding, unit by unit. */
  lemma UnitsFit(units: real, m: real)
    requires units > 0.0 && (m == 1.25 || m == 1.5 || m == 2.0)
    ensures var n := Truncated(Ceiling(units) as real * m);
      n as real >= units && (n as real <= 2.0 * units <==> UnitsFitCap(units, m))
  {
    var c := Ceiling(units);
    assert c >= 1 && c as real - 1.0 < units <= c as real;
    if m == 2.0 {
      assert c as real * m == (2 * c) as real;
    } else if m == 1.5 {
      HalfMore(c);
    } else {
      QuarterMore(c);
    }
  }

  lemma HalfMore(c: int)
    requires c >= 1
    ensures var n := Truncated(c as real * 1.5);
      n >= c && (c == 1 ==> n == 1) && (c == 2 ==> n == 3) && (c >= 3 ==> n <= 2 * (c - 1))
  {
  }

  lemma QuarterMore(c: int)
    requires c >= 1
    ensures var n := Truncated(c as real * 1.25);
      n >= c && (c == 1 ==> n == 1) && (c == 2 ==> n == 2) && (c >= 3 ==> n <= 2 * (c - 1))
  {
  }
}
