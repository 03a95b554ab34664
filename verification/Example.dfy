/** Requests the theorems speak of: plans that are created with a derived patch,
    with refusals, without any verdict and on an owned workload, and the ones that
    show where the code does less than it sets out to do. */
module Example {
  import opened Json
  import opened Merge
  import opened Prune
  import opened Sizing
  import opened Plan
  import opened PlanTheorems
  import opened PlanScrubs
  import opened PlanCreation
  import PlanCoherence
  import PlanRollback
  import Text
  import Redaction

  function Ones(n: int): (s: string)
    ensures |s| == if n > 0 then n else 0
  {
    if n <= 0 then "" else seq(n, _ => '1')
  }

  /** A unary notation: a letter for unit and sign, then ones. */
  function Parse(s: string): Option<real>
  {
    if s == "" then None
    else if s[0] == 'b' then Some((|s| - 1) as real)
    else if s[0] == 'n' then Some(-((|s| - 1) as real))
    else if s[0] == 'm' then Some((|s| - 1) as real / 1000.0)
    else if s[0] == 'k' then Some(-((|s| - 1) as real / 1000.0))
    else if s[0] == 'h' then Some((|s| - 1) as real / 2.0)
    else None
  }

  function Bytes(n: int): string
  {
    if n >= 0 then "b" + Ones(n) else "n" + Ones(-n)
  }

  function Millis(n: int): string
  {
    if n >= 0 then "m" + Ones(n) else "k" + Ones(-n)
  }

  ghost function Listed(s: set<Path>): (l: seq<Path>)
    ensures forall p :: p in l <==> p in s
    decreases s
  {
    if s == {} then []
    else
      var p :| p in s;
      [p] + Listed(s - {p})
  }

  ghost function Unary(): Quantities
  {
    Quantities(Parse, (s: string) => s, Bytes, Millis)
  }

  ghost function Plain(): Text.Unicode
  {
    Text.Unicode(c => c == ' ', c => c)
  }

  ghost function Letters(): Redaction.Scanner
  {
    Redaction.Scanner(c => c != ' ', c => c != ' ', c => c != ' ', c => c == '1', Parse)
  }

  ghost function World(): Env
  {
    Env(Unary(), Plain(), Letters(),
        (s: Saying) => "", (text: string, note: string) => text, (s: set<Path>) => Listed(s))
  }

  lemma WorldIsLawful()
    ensures LawfulEnv(World())
  {
    UnaryIsLawful();
    assert Text.Lawful(Plain());
    assert Redaction.LawfulScanner(Plain(), Letters());
  }

  lemma UnaryIsLawful()
    ensures LawfulQuantities(Unary())
  {
    forall n ensures Parse(Bytes(n)) == Some(n as real) && Parse(Millis(n)) == Some(n as real / 1000.0) {}
  }

  // ---------------------------------------------------------------------------
  // Requests
  // ---------------------------------------------------------------------------

  const EMPTY_UPDATE := PlannedStep(1, PersonaUpdate, "", "", "", None)
  const ADVICE := PlannedStep(1, Advisory("manual"), "Check the logs.", "", "", None)
  const MEMORY: Path := ["spec", "resources", "limits", "memory"]
  const SIZE: Path := ["spec", "size"]
  const NINE := "b111111111"
  const TWO := "b11"

  function Live(memory: string): Workload
  {
    Resolved(ResourceValues("", memory), ResourceValues("", ""))
  }

  function OutOfMemory(planned: seq<PlannedStep>, live: string): Request
  {
    Request(planned, "", 1.0, Diagnosis([OOMKilled], true), None, Live(live), false, true, true)
  }

  function Update(patch: Fields): PlannedStep
  {
    PlannedStep(1, PersonaUpdate, "", "", "", Some(patch))
  }

  lemma LiveLimit(live: string, p: Path)
    requires live != ""
    ensures Observed(Live(live), p) == if p == MEMORY then Some(live) else None
  {
    assert MEMORY == LimitPath(Memory) && MEMORY[..3] == LIMITS;
    if |p| == 4 && p[..3] == LIMITS { assert p == p[..3] + [p[3]]; }
  }

  lemma OutOfMemoryIsSized(e: Env, r: Request, live: string)
    requires LawfulEnv(e) && live != "" && r.workload == Live(live) && r.diagnosis == Diagnosis([OOMKilled], true)
    requires e.q.parse(live).Some?
    ensures TargetPath(r.diagnosis) == Some(MEMORY) && TargetOf(r.diagnosis) == Memory && LimitPath(Memory) == MEMORY
    ensures Base(e, r, MEMORY) == e.q.parse(live)
    ensures ChangeOf(e, r).Sized?
    ensures ChangeOf(e, r).value == ScaleQuantity(e.q, e.q.parse(live).value, 2.0, Memory)
  {
    LiveLimit(live, MEMORY);
    assert PrimarySignal(r.diagnosis) == OOMKilled;
    assert LimitPath(Memory) == LIMITS + ["memory"] == MEMORY;
  }

  // ---------------------------------------------------------------------------
  // A derived patch
  // ---------------------------------------------------------------------------

  lemma EmptyUpdateStays(e: Env, r: Request)
    requires LawfulEnv(e) && r.planned == [EMPTY_UPDATE]
    ensures var steps := AfterSafety(e, r);
      |steps| == 1 && steps[0].stype.PersonaUpdate? && steps[0].patch.None? && !steps[0].auto && steps[0].safety == []
  {
    SafeStep(e, r, 0);
  }

  /** An empty persona update is given the sized change, and no guardrail refused
      anything. */
  lemma EmptyUpdateIsFilled(e: Env, r: Request) returns (step: Step)
    requires LawfulEnv(e) && r.planned == [EMPTY_UPDATE] && ChangeOf(e, r).Sized?
    ensures Installs(e, r) && EnsuredSteps(e, r) == Some([step]) && !IsNoise(step) && step.patch.Some?
    ensures forall s | s in step.safety :: !IsRefusal(s)
  {
    EmptyUpdateStays(e, r);
    SizedPatchHitsTarget(e.q, r.diagnosis, r.persona, r.workload, []);
    OneEmptyStep(AfterSafety(e, r), BackCompat(MapSteps(e, r.planned, r.persona, r.workload)),
                 TargetPath(r.diagnosis).value);
    step := Installed(e, r);
    EnsuredShape(e, r);
    assert AfterSafety(e, r)[0 := step] == [step];
    OnlyDerivedEntries(e, LeafValues(ChangeOf(e, r).patch));
  }

  lemma OneEmptyStep(steps: seq<Step>, detail: Detail, target: Path)
    requires |steps| == 1 && steps[0].stype.PersonaUpdate? && steps[0].patch.None?
    ensures !Applies(steps, detail, target) && DerivedStepIndex(steps) == Some(0)
  {
  }

  lemma OnlyDerivedEntries(e: Env, derived: map<Path, string>)
    requires LawfulEnv(e)
    ensures forall s | s in RecordDerived(e, [], derived) :: !IsRefusal(s)
  {
    assert forall p | p in e.order(derived.Keys) :: p in derived.Keys;
    assert RecordDerived(e, [], derived) == NewEntries(e, [], derived, e.order(derived.Keys));
  }

  /** Whatever its baseline, the filled plan is created. */
  lemma FilledPlanIsCreated(e: Env, r: Request)
    requires LawfulEnv(e) && r.planned == [EMPTY_UPDATE] && ChangeOf(e, r).Sized? && r.clear && r.createLands
    ensures Installs(e, r) && Built(e, r).Created?
  {
    var step := EmptyUpdateIsFilled(e, r);
    var i := UsefulStepIsKept([step], step);
    CreatedIff(e, r);
  }

  lemma Fractional() returns (e: Env, r: Request)
    ensures LawfulEnv(e) && r.planned == [EMPTY_UPDATE] && ChangeOf(e, r).Sized? && r.clear && r.createLands
    ensures Base(e, r, LimitPath(TargetOf(r.diagnosis))) == Some(0.5)
    ensures TargetOf(r.diagnosis) == Memory && r.diagnosis.critical
  {
    e, r := World(), OutOfMemory([EMPTY_UPDATE], "h1");
    WorldIsLawful();
    assert e.q.parse("h1") == Some(0.5);
    OutOfMemoryIsSized(e, r, "h1");
  }

  lemma OneStepEnters(e: Env, r: Request, step: Step)
    requires LawfulEnv(e) && EnsuredSteps(e, r) == Some([step]) && !IsNoise(step)
    ensures |BeforeScrubs(e, r).steps| == 1 && BeforeScrubs(e, r).steps[0].patch == step.patch
  {
    PlanCoherence.KeptEntersScrubs(e, r);
    NothingDropped(step);
  }

  lemma NothingDropped(step: Step)
    requires !IsNoise(step)
    ensures DropPatchless([step]) == [step]
  {
  }

  lemma OneStepStays(e: Env, r: Request)
    requires LawfulEnv(e) && PlanCoherence.PlansOnlyResources(r) && Built(e, r).Created? && EnsuredSteps(e, r).Some?
    requires |BeforeScrubs(e, r).steps| == 1 && BeforeScrubs(e, r).steps[0].patch.Some?
    ensures Built(e, r).contents.detail.patch.Some?
  {
    PlanCoherence.ResourcePlanAgrees(e, r);
    CreatedIsCoherent(e, r);
    OnlyStepPatches(Built(e, r).contents);
  }

  lemma FilledStepEnters(e: Env, r: Request)
    requires LawfulEnv(e) && r.planned == [EMPTY_UPDATE] && ChangeOf(e, r).Sized?
    ensures EnsuredSteps(e, r).Some?
    ensures |BeforeScrubs(e, r).steps| == 1 && BeforeScrubs(e, r).steps[0].patch.Some?
  {
    var step := EmptyUpdateIsFilled(e, r);
    OneStepEnters(e, r, step);
  }

  lemma NothingPlanned(r: Request)
    requires r.planned == [EMPTY_UPDATE]
    ensures PlanCoherence.PlansOnlyResources(r)
  {
  }

  /** The filled plan's Action carries the derived patch. */
  lemma FilledActionPatches(e: Env, r: Request)
    requires LawfulEnv(e) && r.planned == [EMPTY_UPDATE] && ChangeOf(e, r).Sized? && r.clear && r.createLands
    ensures Built(e, r).Created? && Built(e, r).contents.detail.patch.Some?
  {
    FilledPlanIsCreated(e, r);
    FilledStepEnters(e, r);
    NothingPlanned(r);
    OneStepStays(e, r);
  }

  lemma OnlyStepPatches(c: Contents)
    requires |c.steps| == 1 && c.steps[0].patch.Some? && Coherent(c.steps[0]) && PlanCoherence.Agrees(c)
    ensures c.detail.patch.Some?
  {
    PlanCoherence.BackCompatIsFirst(c.steps);
    assert PlanCoherence.FirstApplied(c.steps) == Some(0);
  }

  /** A created plan for a persona that records no limit: its rollback value is the
      live one. */
  lemma UnrecordedLimit() returns (e: Env, r: Request)
    ensures LawfulEnv(e) && Built(e, r).Created? && Built(e, r).contents.detail.patch.Some?
    ensures PlanRollback.ForPersona(r) && r.persona == Some(map[])
  {
    e, r := World(), OutOfMemory([EMPTY_UPDATE], "b1").(persona := Some(map[]));
    WorldIsLawful();
    assert e.q.parse("b1") == Some(1.0);
    OutOfMemoryIsSized(e, r, "b1");
    FilledActionPatches(e, r);
  }

  /** A created plan that breaks the cap: a live limit of half a byte, doubled to
      two. */
  lemma FractionalPlanBreaksTheCap() returns (e: Env, r: Request)
    ensures LawfulEnv(e) && Built(e, r).Created?
    ensures exists s | s in Built(e, r).contents.steps :: !StepWithin(e, r, s)
  {
    e, r := Fractional();
    FilledPlanIsCreated(e, r);
    HalfDoesNotFit();
    UnfitBreaksTheCap(e, r);
  }

  lemma HalfDoesNotFit()
    ensures !FitsCap(0.5, IncreaseMultiplier(Memory, true), Memory)
  {
    assert (-0.5).Floor == -1;
  }

  // ---------------------------------------------------------------------------
  // Refusals
  // ---------------------------------------------------------------------------

  lemma {:induction false} WritingAddsNoEmpties(f: Fields, path: Path, value: string, z: Path)
    requires path != []
    ensures EmptyAt(WithPath(f, path, value), z) ==> EmptyAt(f, z)
    decreases |path|
  {
    if |path| > 1 && z != [] && z[0] == path[0] {
      var child := if path[0] in f && f[path[0]].Obj? then f[path[0]].fields else map[];
      assert path[1..][0] in WithPath(child, path[1..], value);
      WritingAddsNoEmpties(child, path[1..], value, z[1..]);
    }
  }

  /** The patch sets one value and holds no empty object. */
  ghost predicate OnlySets(f: Fields, p: Path, value: string)
  {
    NoEmptyObjects(f) && forall q :: LeafAt(f, q) == if q == p then Some(Str(value)) else None
  }

  lemma NestedOnlySets(p: Path, value: string)
    requires p != []
    ensures OnlySets(Nested(p, value), p, value)
  {
    forall q ensures LeafAt(Nested(p, value), q) == if q == p then Some(Str(value)) else None {
      NestedLeaves(p, value, q);
    }
    forall z ensures !EmptyAt(Nested(p, value), z) { WritingAddsNoEmpties(map[], p, value, z); }
  }

  /** The live workload sets one resource key. */
  ghost predicate Knows(w: Workload, p: Path, live: string)
  {
    w.Resolved? && |p| == 4 && IsResourcePath(p) && forall q :: Observed(w, q) == if q == p then Some(live) else None
  }

  /** A guardrail's record that a value was refused at a field. */
  predicate Refuses(e: Env, s: Safety, field: Path, value: string)
  {
    && s.rule.BlastRadius? && s.verdict.Rejected? && s.field == field
    && s.requested == e.q.canonical(value) && s.permitted == ""
  }

  ghost predicate RefusedWholly(e: Env, step: Step, field: Path, value: string)
  {
    step.patch.None? && step.stype.PersonaUpdate? && exists s | s in step.safety :: Refuses(e, s, field, value)
  }

  lemma OrderOfNone(e: Env)
    requires LawfulEnv(e)
    ensures e.order({}) == []
  {
    FirstIsMember(e.order({}));
  }

  /** A step that is refused whole: it keeps no patch and records the refusal. */
  lemma RefusedWhole(e: Env, step: Step, w: Workload, base: Fields, p: Path, value: string)
    requires LawfulEnv(e) && step.auto && step.stype.PersonaUpdate? && step.patch.Some?
    requires OnlySets(step.patch.value, p, value) && Baseline(e, step, w) == Some(base)
    requires Breach(e, step.patch.value, base, p)
    ensures RefusedWholly(e, RefuseStep(e, step, w), p, value)
  {
    var patch := step.patch.value;
    var fields := e.order(Breaches(e, patch, base));
    OnlyBreach(e, patch, base, p, value);
    AllPruned(patch, fields, p, value);
    RefusedShape(e, step, w, base, fields);
    RefusalIsListed(e, patch, base, fields, p);
    assert Refuses(e, RefusalEntry(e, patch, base, p), p, value);
  }

  lemma OnlyBreach(e: Env, patch: Fields, base: Fields, p: Path, value: string)
    requires LawfulEnv(e) && Breach(e, patch, base, p) && OnlySets(patch, p, value)
    ensures var fields := e.order(Breaches(e, patch, base)); p in fields && forall q | q in fields :: q == p
  {
    LeafPathsAreTheLeaves(patch, p);
    forall q | q in e.order(Breaches(e, patch, base)) ensures q == p { LeafPathsAreTheLeaves(patch, q); }
  }

  /** Pruning the only leaf leaves nothing. */
  lemma AllPruned(patch: Fields, fields: seq<Path>, p: Path, value: string)
    requires OnlySets(patch, p, value) && p in fields && forall q | q in fields :: q == p
    ensures [] !in fields && Pruned(Some(patch), fields).None?
  {
    assert LeafAt(patch, p).Some?;
    DeletedAllIsEmptyIff(patch, fields);
  }

  /** mapPlannedSteps leaves a patch without absent keys alone. */
  lemma MappedWhole(e: Env, r: Request, patch: Fields)
    requires LawfulEnv(e)
    requires forall p | LeafAt(patch, p).Some? && IsResourcePath(p) :: Observed(r.workload, p).Some?
    ensures var s := MapStep(e, Update(patch), r.persona, r.workload);
      && s.patch == Some(patch) && s.auto && s.stype.PersonaUpdate? && s.safety == []
      && s.prePatch == Snapshot(r.persona, patch)
  {
    forall p ensures p !in AbsentPaths(patch, r.workload) { LeafPathsAreTheLeaves(patch, p); }
    assert AbsentPaths(patch, r.workload) == {};
  }

  /** What the live workload says of a patch that sets the key it knows. */
  lemma LiveBaseline(e: Env, step: Step, w: Workload, p: Path, live: string)
    requires LawfulEnv(e) && Knows(w, p, live) && step.patch.Some? && LeafAt(step.patch.value, p).Some?
    ensures Grounded(e, step.patch.value, w).Some? && Baseline(e, step, w) == Grounded(e, step.patch.value, w)
    ensures forall q :: LeafAt(Grounded(e, step.patch.value, w).value, q) == if q == p then Some(Str(live)) else None
  {
    LeafPathsAreTheLeaves(step.patch.value, p);
    GroundedLeaf(e, step.patch.value, w, p);
    forall q ensures LeafAt(Grounded(e, step.patch.value, w).value, q) == if q == p then Some(Str(live)) else None {
      GroundedIs(e, step.patch.value, w, p, live, q);
    }
  }

  lemma GroundedIs(e: Env, patch: Fields, w: Workload, p: Path, live: string, q: Path)
    requires LawfulEnv(e) && Knows(w, p, live) && p in LeafPaths(patch)
    ensures Grounded(e, patch, w).Some?
    ensures LeafAt(Grounded(e, patch, w).value, q) == if q == p then Some(Str(live)) else None
  {
    var values := LiveValues(patch, w);
    var paths := e.order(values.Keys);
    assert p in values;
    assert forall s | s in paths :: s in values.Keys && s != [];
    OneValue(paths, values, p, live, q);
  }

  lemma OneValue(paths: seq<Path>, values: map<Path, string>, p: Path, live: string, q: Path)
    requires |p| == 4 && p in paths && p in values && values[p] == live && forall s | s in paths :: s == p
    ensures LeafAt(WithPaths(map[], paths, values), q) == if q == p then Some(Str(live)) else None
  {
    WithPathsLeaves(map[], paths, values, q);
  }

  /** A step measured against the live workload and refused whole. */
  lemma RefusedLive(e: Env, r: Request, patch: Fields, p: Path, live: string, value: string)
    requires LawfulEnv(e) && Knows(r.workload, p, live) && OnlySets(patch, p, value)
    requires e.q.parse(value).Some? && e.q.parse(live).Some?
    requires 0.0 < 2.0 * e.q.parse(live).value < e.q.parse(value).value
    ensures RefusedWholly(e, RefuseStep(e, MapStep(e, Update(patch), r.persona, r.workload), r.workload), p, value)
  {
    MappedWhole(e, r, patch);
    RefusedLiveStep(e, MapStep(e, Update(patch), r.persona, r.workload), r.workload, p, live, value);
  }

  lemma RefusedLiveStep(e: Env, step: Step, w: Workload, p: Path, live: string, value: string)
    requires LawfulEnv(e) && Knows(w, p, live) && step.auto && step.stype.PersonaUpdate? && step.patch.Some?
    requires OnlySets(step.patch.value, p, value) && e.q.parse(value).Some? && e.q.parse(live).Some?
    requires 0.0 < 2.0 * e.q.parse(live).value < e.q.parse(value).value
    ensures RefusedWholly(e, RefuseStep(e, step, w), p, value)
  {
    assert LeafAt(step.patch.value, p).Some?;
    LiveBaseline(e, step, w, p, live);
    var base := Grounded(e, step.patch.value, w).value;
    BreachOfTexts(e, step.patch.value, base, p, value, live);
    RefusedWhole(e, step, w, base, p, value);
  }

  lemma BreachOfTexts(e: Env, patch: Fields, base: Fields, p: Path, value: string, live: string)
    requires LeafAt(patch, p) == Some(Str(value)) && LeafAt(base, p) == Some(Str(live))
    requires e.q.parse(value).Some? && e.q.parse(live).Some?
    ensures Breach(e, patch, base, p) <==>
            e.q.parse(live).value > 0.0 && OutsideCap(e.q.parse(live).value, e.q.parse(value).value)
  {
  }

  lemma NoBreachWithoutBase(e: Env, patch: Fields, base: Fields, p: Path)
    requires LeafAt(base, p).None?
    ensures !Breach(e, patch, base, p)
  {
  }

  // ---------------------------------------------------------------------------
  // The assertion before the Create
  // ---------------------------------------------------------------------------

  /** Two steps ask for the very value Dorgu derives, and are refused. */
  ghost predicate AsksTwice(e: Env, r: Request, patch: Fields, p: Path, live: string, value: string)
  {
    && r.planned == [Update(patch), Update(patch)] && Knows(r.workload, p, live) && OnlySets(patch, p, value)
    && e.q.parse(value).Some? && e.q.parse(live).Some? && e.q.canonical(value) == value && value != ""
    && 0.0 < 2.0 * e.q.parse(live).value < e.q.parse(value).value
    && ChangeOf(e, r).Sized? && ChangeOf(e, r).value == value && TargetPath(r.diagnosis) == Some(p)
  }

  lemma BothAreRefused(e: Env, r: Request, patch: Fields, p: Path, live: string, value: string)
    requires LawfulEnv(e) && AsksTwice(e, r, patch, p, live, value)
    ensures |AfterSafety(e, r)| == 2
    ensures RefusedWholly(e, AfterSafety(e, r)[0], p, value) && RefusedWholly(e, AfterSafety(e, r)[1], p, value)
  {
    SafeStep(e, r, 0);
    SafeStep(e, r, 1);
    RefusedLive(e, r, patch, p, live, value);
  }

  lemma RefusedStepsInstall(e: Env, steps: seq<Step>, detail: Detail, p: Path, value: string)
    requires |steps| == 2 && RefusedWholly(e, steps[0], p, value) && RefusedWholly(e, steps[1], p, value)
    ensures !Applies(steps, detail, p) && DerivedStepIndex(steps) == Some(0)
  {
    var s :| s in steps[0].safety && Refuses(e, s, p, value);
    assert HasBlastRadiusRefusal(steps[0].safety);
  }

  lemma AskedTwiceInstalls(e: Env, r: Request, patch: Fields, p: Path, live: string, value: string)
    requires LawfulEnv(e) && AsksTwice(e, r, patch, p, live, value)
    ensures Installs(e, r) && |AfterSafety(e, r)| == 2 && DerivedStepIndex(AfterSafety(e, r)) == Some(0)
  {
    BothAreRefused(e, r, patch, p, live, value);
    RefusedStepsInstall(e, AfterSafety(e, r), BackCompat(MapSteps(e, r.planned, r.persona, r.workload)), p, value);
  }

  lemma OthersStay(e: Env, r: Request)
    requires LawfulEnv(e) && Installs(e, r) && |AfterSafety(e, r)| == 2
    requires DerivedStepIndex(AfterSafety(e, r)) == Some(0)
    ensures EnsuredSteps(e, r).Some? && AfterSafety(e, r)[1] in EnsuredSteps(e, r).value
  {
    EnsuredShape(e, r);
    assert EnsuredSteps(e, r).value[1] == AfterSafety(e, r)[1];
  }

  lemma SecondRefusalStays(e: Env, r: Request, patch: Fields, p: Path, live: string, value: string)
    requires LawfulEnv(e) && AsksTwice(e, r, patch, p, live, value)
    ensures Installs(e, r) && EnsuredSteps(e, r).Some?
    ensures |AfterSafety(e, r)| == 2 && AfterSafety(e, r)[1] in EnsuredSteps(e, r).value
  {
    AskedTwiceInstalls(e, r, patch, p, live, value);
    OthersStay(e, r);
  }

  lemma RefusalOfDerived(e: Env, r: Request, patch: Fields, p: Path, live: string, value: string)
    requires LawfulEnv(e) && AsksTwice(e, r, patch, p, live, value)
    ensures EnsuredSteps(e, r).Some? && DerivedIsRefused(e, r)
  {
    SecondRefusalStays(e, r, patch, p, live, value);
    BothAreRefused(e, r, patch, p, live, value);
    var t := AfterSafety(e, r)[1];
    var s :| s in t.safety && Refuses(e, s, p, value);
    assert RefusesDerived(e, r, s);
  }

  lemma RefusalIsKept(e: Env, r: Request, patch: Fields, p: Path, live: string, value: string)
    requires LawfulEnv(e) && AsksTwice(e, r, patch, p, live, value)
    ensures EnsuredSteps(e, r).Some? && DropPatchless(EnsuredSteps(e, r).value) != []
  {
    SecondRefusalStays(e, r, patch, p, live, value);
    BothAreRefused(e, r, patch, p, live, value);
    var i := UsefulStepIsKept(EnsuredSteps(e, r).value, AfterSafety(e, r)[1]);
  }

  lemma HalfAByteTwice() returns (e: Env, r: Request, patch: Fields)
    ensures LawfulEnv(e) && AsksTwice(e, r, patch, MEMORY, "h1", TWO) && r.clear && r.createLands
  {
    patch := MemoryPatch();
    e, r := World(), OutOfMemory([Update(patch), Update(patch)], "h1");
    WorldIsLawful();
    OutOfMemoryIsSized(e, r, "h1");
    TwoIsDerived();
    LiveKnows("h1");
  }

  lemma MemoryPatch() returns (patch: Fields)
    ensures OnlySets(patch, MEMORY, TWO)
  {
    patch := Nested(MEMORY, TWO);
    NestedOnlySets(MEMORY, TWO);
  }

  lemma LiveKnows(live: string)
    requires live != ""
    ensures Knows(Live(live), MEMORY, live)
  {
    forall q ensures Observed(Live(live), q) == if q == MEMORY then Some(live) else None { LiveLimit(live, q); }
  }

  lemma TwoIsDerived()
    ensures Parse("h1") == Some(0.5) && Parse(TWO) == Some(2.0)
    ensures ScaleQuantity(World().q, 0.5, 2.0, Memory) == TWO
  {
    assert (-0.5).Floor == -1;
    assert Ones(2) == "11";
  }

  /** A request on which the assertion before the Create fires: a live limit of
      half a byte, and two steps that ask for two. */
  lemma AssertionFires() returns (e: Env, r: Request)
    ensures LawfulEnv(e) && r.planned != [] && r.clear && r.createLands
    ensures EnsuredSteps(e, r).Some? && DropPatchless(EnsuredSteps(e, r).value) != [] && !Built(e, r).Created?
  {
    var patch;
    e, r, patch := HalfAByteTwice();
    RefusalIsKept(e, r, patch, MEMORY, "h1", TWO);
    RefusalOfDerived(e, r, patch, MEMORY, "h1", TWO);
    RefusedDerivedIsNotCreated(e, r);
  }

  // ---------------------------------------------------------------------------
  // A plan that parts from its Action
  // ---------------------------------------------------------------------------

  /** What the three steps of such a plan set: a field the live workload does not
      know, that and a limit it knows, and the limit within bounds. */
  datatype Parting = Parting(
    size: Path, memory: Path, much: string, some: string, live: string, one: Fields, two: Fields, three: Fields)

  ghost predicate Parts(e: Env, r: Request, x: Parting)
  {
    && r.planned == [Update(x.one), Update(x.two), Update(x.three)] && TargetPath(r.diagnosis).None?
    && x.size != x.memory && !IsResourcePath(x.size) && Knows(r.workload, x.memory, x.live)
    && r.persona.Some? && LeafAt(Document(r.persona.value), x.size) == Some(Str(x.live))
    && OnlySets(x.one, x.size, x.much) && OnlySets(x.three, x.memory, x.some)
    && NoEmptyObjects(x.two)
    && (forall q :: LeafAt(x.two, q) == if q == x.size || q == x.memory then Some(Str(x.much)) else None)
    && e.q.parse(x.live) == Some(1.0) && e.q.parse(x.some) == Some(2.0) && e.q.parse(x.much) == Some(9.0)
    && e.q.canonical(x.much) == x.much && x.much != ""
  }

  /** Step one is measured against the persona and refused whole. */
  lemma FirstIsRefused(e: Env, r: Request, x: Parting)
    requires LawfulEnv(e) && Parts(e, r, x)
    ensures var out := RefuseStep(e, MapStep(e, Update(x.one), r.persona, r.workload), r.workload);
      RefusedWholly(e, out, x.size, x.much)
  {
    MappedWhole(e, r, x.one);
    NothingGrounded(e, r, x);
    assert LeafAt(x.one, x.size).Some?;
    SnapshotLeaf(r.persona, x.one, x.size);
    RefusedRecorded(e, MapStep(e, Update(x.one), r.persona, r.workload), r.workload, x);
  }

  lemma RefusedRecorded(e: Env, step: Step, w: Workload, x: Parting)
    requires LawfulEnv(e) && step.auto && step.stype.PersonaUpdate? && step.patch == Some(x.one)
    requires OnlySets(x.one, x.size, x.much) && Grounded(e, x.one, w).None?
    requires step.prePatch.Some? && LeafAt(step.prePatch.value, x.size) == Some(Str(x.live))
    requires e.q.parse(x.live) == Some(1.0) && e.q.parse(x.much) == Some(9.0)
    ensures RefusedWholly(e, RefuseStep(e, step, w), x.size, x.much)
  {
    BreachOfTexts(e, x.one, step.prePatch.value, x.size, x.much, x.live);
    RefusedWhole(e, step, w, step.prePatch.value, x.size, x.much);
  }

  lemma NothingGrounded(e: Env, r: Request, x: Parting)
    requires LawfulEnv(e) && Parts(e, r, x)
    ensures Grounded(e, x.one, r.workload).None?
  {
    NothingLive(x.one, r.workload, x.size, x.much);
  }

  lemma NothingLive(patch: Fields, w: Workload, p: Path, value: string)
    requires OnlySets(patch, p, value) && Observed(w, p).None?
    ensures LiveValues(patch, w) == map[]
  {
    forall q ensures q !in LiveValues(patch, w) { LeafPathsAreTheLeaves(patch, q); }
  }

  ghost predicate KeptTheSize(s: Step, x: Parting)
  {
    s.patch.Some? && IsApplied(s) && OnlySets(s.patch.value, x.size, x.much) && s.safety != []
  }

  /** Step two is measured against the live workload, which knows no size: only
      the memory is refused. */
  lemma SecondKeepsTheSize(e: Env, r: Request, x: Parting)
    requires LawfulEnv(e) && Parts(e, r, x)
    ensures KeptTheSize(RefuseStep(e, MapStep(e, Update(x.two), r.persona, r.workload), r.workload), x)
  {
    SecondIsObserved(e, r, x);
    MappedWhole(e, r, x.two);
    KeepsTheSize(e, r, MapStep(e, Update(x.two), r.persona, r.workload), x);
  }

  lemma SecondIsObserved(e: Env, r: Request, x: Parting)
    requires Parts(e, r, x)
    ensures forall p | LeafAt(x.two, p).Some? && IsResourcePath(p) :: Observed(r.workload, p).Some?
  {
    assert LeafAt(x.two, x.memory).Some?;
  }

  lemma KeepsTheSize(e: Env, r: Request, step: Step, x: Parting)
    requires LawfulEnv(e) && Parts(e, r, x)
    requires step.auto && step.stype.PersonaUpdate? && step.patch == Some(x.two)
    ensures KeptTheSize(RefuseStep(e, step, r.workload), x)
  {
    assert LeafAt(x.two, x.memory).Some?;
    LiveBaseline(e, step, r.workload, x.memory, x.live);
    var base := Baseline(e, step, r.workload).value;
    var fields := e.order(Breaches(e, x.two, base));
    OnlyMemoryBreaches(e, r, x, base);
    MemoryPruned(x, fields);
    RefusedShape(e, step, r.workload, base, fields);
  }

  lemma OnlyMemoryBreaches(e: Env, r: Request, x: Parting, base: Fields)
    requires LawfulEnv(e) && Parts(e, r, x)
    requires forall q :: LeafAt(base, q) == if q == x.memory then Some(Str(x.live)) else None
    ensures var fields := e.order(Breaches(e, x.two, base)); x.memory in fields && forall p | p in fields ::
      p == x.memory
  {
    forall p ensures p in Breaches(e, x.two, base) <==> p == x.memory {
      MemoryBreaches(e, x, base, p);
    }
  }

  lemma MemoryBreaches(e: Env, x: Parting, base: Fields, p: Path)
    requires LeafAt(x.two, x.memory) == Some(Str(x.much))
    requires LeafAt(base, p) == if p == x.memory then Some(Str(x.live)) else None
    requires e.q.parse(x.live) == Some(1.0) && e.q.parse(x.much) == Some(9.0)
    ensures p in Breaches(e, x.two, base) <==> p == x.memory
  {
    LeafPathsAreTheLeaves(x.two, p);
    if p == x.memory {
      BreachOfTexts(e, x.two, base, p, x.much, x.live);
    } else {
      NoBreachWithoutBase(e, x.two, base, p);
    }
  }

  lemma MemoryPruned(x: Parting, fields: seq<Path>)
    requires NoEmptyObjects(x.two) && x.size != x.memory
    requires forall q :: LeafAt(x.two, q) == if q == x.size || q == x.memory then Some(Str(x.much)) else None
    requires x.memory in fields && forall p | p in fields :: p == x.memory
    ensures [] !in fields
    ensures Pruned(Some(x.two), fields).Some? && OnlySets(Pruned(Some(x.two), fields).value, x.size, x.much)
  {
    assert LeafAt(x.two, x.memory).Some?;
    var left := DeletedAll(x.two, fields);
    forall q ensures LeafAt(left, q) == if q == x.size then Some(Str(x.much)) else None {
      PrunedLeaves(x.two, fields, q);
    }
    forall q ensures !EmptyAt(left, q) { DeletedAllEmpties(x.two, fields, q); }
    assert LeafAt(left, x.size).Some?;
  }

  /** Step three is within bounds. */
  lemma ThirdStays(e: Env, r: Request, x: Parting)
    requires LawfulEnv(e) && Parts(e, r, x)
    ensures var out := RefuseStep(e, MapStep(e, Update(x.three), r.persona, r.workload), r.workload);
      out.patch == Some(x.three) && IsApplied(out)
  {
    assert LeafAt(x.three, x.memory).Some?;
    MappedWhole(e, r, x.three);
    WithinStays(e, MapStep(e, Update(x.three), r.persona, r.workload), r.workload, x.memory, x.live, x.three, x.some);
  }

  lemma WithinStays(e: Env, step: Step, w: Workload, p: Path, live: string, patch: Fields, value: string)
    requires LawfulEnv(e) && Knows(w, p, live) && step.patch == Some(patch) && OnlySets(patch, p, value)
    requires e.q.parse(live) == Some(1.0) && e.q.parse(value) == Some(2.0)
    ensures RefuseStep(e, step, w) == step
  {
    assert LeafAt(patch, p).Some?;
    LiveBaseline(e, step, w, p, live);
    var base := Grounded(e, patch, w).value;
    forall q ensures q !in Breaches(e, patch, base) {
      LeafPathsAreTheLeaves(patch, q);
      if q == p { BreachOfTexts(e, patch, base, q, value, live); }
    }
    assert Breaches(e, patch, base) == {};
    OrderOfNone(e);
  }

  lemma PartingSteps(e: Env, r: Request, x: Parting)
    requires LawfulEnv(e) && Parts(e, r, x)
    ensures |AfterSafety(e, r)| == 3
    ensures RefusedWholly(e, AfterSafety(e, r)[0], x.size, x.much)
    ensures KeptTheSize(AfterSafety(e, r)[1], x)
    ensures AfterSafety(e, r)[2].patch == Some(x.three) && IsApplied(AfterSafety(e, r)[2])
  {
    SafeStep(e, r, 0);
    SafeStep(e, r, 1);
    SafeStep(e, r, 2);
    FirstIsRefused(e, r, x);
    SecondKeepsTheSize(e, r, x);
    ThirdStays(e, r, x);
  }

  lemma PartingIsKept(e: Env, r: Request, x: Parting)
    requires LawfulEnv(e) && Parts(e, r, x)
    ensures EnsuredSteps(e, r) == Some(AfterSafety(e, r))
    ensures DropPatchless(AfterSafety(e, r)) == AfterSafety(e, r) && AfterSafety(e, r) != []
  {
    UndiagnosedIsEnsured(e, r);
    PartingSteps(e, r, x);
    ThreeAreKept(e, AfterSafety(e, r), x);
  }

  lemma UndiagnosedIsEnsured(e: Env, r: Request)
    requires LawfulEnv(e) && TargetPath(r.diagnosis).None?
    ensures EnsuredSteps(e, r) == Some(AfterSafety(e, r)) && !Installs(e, r)
  {
  }

  lemma ThreeAreKept(e: Env, steps: seq<Step>, x: Parting)
    requires |steps| == 3 && RefusedWholly(e, steps[0], x.size, x.much) && steps[1].patch.Some? && steps[2].patch.Some?
    ensures DropPatchless(steps) == steps
  {
    NoneIsNoise(steps);
  }

  lemma {:induction false} NoneIsNoise(steps: seq<Step>)
    requires forall s | s in steps :: !IsNoise(s)
    ensures WithoutNoise(steps) == steps && DropPatchless(steps) == steps
    decreases |steps|
  {
    if steps != [] {
      assert steps[0] in steps && forall s | s in steps[1..] :: s in steps;
      NoneIsNoise(steps[1..]);
      assert steps == [steps[0]] + steps[1..];
    }
  }

  /** The size is refused on the first step, so the second has nothing left that
      is not, and the third has. */
  lemma StepsLose(e: Env, r: Request, steps: seq<Step>, x: Parting)
    requires |steps| == 3 && forall s | s in steps :: Coherent(s)
    requires RefusedWholly(e, steps[0], x.size, x.much) && e.q.canonical(x.much) == x.much && x.much != ""
    requires steps[1].patch.Some? && IsApplied(steps[1]) && OnlySets(steps[1].patch.value, x.size, x.much)
    requires steps[2].patch == Some(x.three) && IsApplied(steps[2])
    requires !PlanCoherence.AllRefused(e, x.three, RefusedValues(e, steps))
    ensures PlanCoherence.LosesItsStep(e, steps, RefusedValues(e, steps))
  {
    assert steps[0] in steps && steps[2] in steps;
    assert PlanCoherence.FirstApplied(steps) == Some(1);
    var s :| s in steps[0].safety && Refuses(e, s, x.size, x.much);
    SafetyOfSteps(steps, s);
    RefusalIsCollected(e, AllSafety(steps), {}, s);
    SizeIsAllRefused(e, steps[1].patch.value, x, RefusedValues(e, steps), RefusedValueOf(e, s));
  }

  lemma SizeIsAllRefused(
    e: Env, patch: Fields, x: Parting, refused: seq<Redaction.RefusedValue>, bad: Redaction.RefusedValue)
    requires bad in refused && bad.field == x.size && bad.value == x.much && OnlySets(patch, x.size, x.much)
    ensures PlanCoherence.AllRefused(e, patch, refused)
  {
    assert LeafAt(patch, x.size).Some?;
    assert HoldsRefused(e, patch, bad);
  }

  lemma ThirdIsSpared(e: Env, r: Request, x: Parting)
    requires LawfulEnv(e) && Parts(e, r, x)
    ensures !PlanCoherence.AllRefused(e, x.three, RefusedValues(e, AfterSafety(e, r)))
  {
    assert LeafAt(x.three, x.memory).Some?;
    forall bad | bad in RefusedValues(e, AfterSafety(e, r)) && bad.field == x.memory
      ensures !HoldsRefused(e, x.three, bad)
    {
      SomeIsFine(e, r, x, bad);
    }
  }

  lemma SomeIsFine(e: Env, r: Request, x: Parting, bad: Redaction.RefusedValue)
    requires LawfulEnv(e) && Parts(e, r, x) && bad in RefusedValues(e, AfterSafety(e, r)) && bad.field == x.memory
    ensures !HoldsRefused(e, x.three, bad)
  {
    var steps := AfterSafety(e, r);
    var s := CollectedIsRefusal(e, AllSafety(steps), {}, bad);
    SafetyOfSteps(steps, s);
    SafeStepsAreSound(e, r);
    ThirdIsChecked(e, r, x);
    HeldIsDerived(e, r, x.three, s);
  }

  lemma ThirdIsChecked(e: Env, r: Request, x: Parting)
    requires LawfulEnv(e) && Parts(e, r, x)
    ensures Checked(e, r, x.three) && LiveLeaves(r, x.three) && !Installs(e, r)
  {
    PartingSteps(e, r, x);
    SafeStepsAreSound(e, r);
    SafeStepsAreChecked(e, r);
    assert AfterSafety(e, r)[2] in AfterSafety(e, r);
  }

  lemma SafeStepsAreCoherent(e: Env, r: Request)
    requires LawfulEnv(e)
    ensures forall s | s in AfterSafety(e, r) :: Coherent(s)
  {
    SafeStepsAreChecked(e, r);
  }

  lemma PartingLosesItsStep(e: Env, r: Request, x: Parting)
    requires LawfulEnv(e) && Parts(e, r, x)
    ensures PlanCoherence.LosesItsStep(e, AfterSafety(e, r), RefusedValues(e, AfterSafety(e, r)))
  {
    PartingSteps(e, r, x);
    ThirdIsSpared(e, r, x);
    SafeStepsAreCoherent(e, r);
    StepsLose(e, r, AfterSafety(e, r), x);
  }

  lemma ParticularParting() returns (e: Env, r: Request, x: Parting)
    ensures LawfulEnv(e) && Parts(e, r, x) && r.clear && r.createLands
  {
    x := TheParting();
    e := World();
    r := Request([Update(x.one), Update(x.two), Update(x.three)], "", 1.0,
                 Diagnosis([], false), Some(map["size" := Str("b1")]), Live("b1"), false, true, true);
    WorldIsLawful();
    LiveKnows("b1");
    UnaryCounts();
    assert SIZE[1..] == ["size"];
  }

  lemma TheParting() returns (x: Parting)
    ensures x.size == SIZE && x.memory == MEMORY && x.much == NINE && x.some == TWO && x.live == "b1"
    ensures OnlySets(x.one, SIZE, NINE) && OnlySets(x.three, MEMORY, TWO) && NoEmptyObjects(x.two)
    ensures forall q :: LeafAt(x.two, q) == if q == SIZE || q == MEMORY then Some(Str(NINE)) else None
  {
    var one, three := Nested(SIZE, NINE), Nested(MEMORY, TWO);
    NestedOnlySets(SIZE, NINE);
    NestedOnlySets(MEMORY, TWO);
    SizeAndMemory(one);
    x := Parting(SIZE, MEMORY, NINE, TWO, "b1", one, WithPath(one, MEMORY, NINE), three);
  }

  lemma UnaryCounts()
    ensures Parse("b1") == Some(1.0) && Parse(TWO) == Some(2.0) && Parse(NINE) == Some(9.0)
  {
  }

  lemma SizeAndMemory(one: Fields)
    requires OnlySets(one, SIZE, NINE)
    ensures NoEmptyObjects(WithPath(one, MEMORY, NINE))
    ensures forall q ::
      LeafAt(WithPath(one, MEMORY, NINE), q) == if q == SIZE || q == MEMORY then Some(Str(NINE)) else None
  {
    forall q
      ensures LeafAt(WithPath(one, MEMORY, NINE), q) == if q == SIZE || q == MEMORY then Some(Str(NINE)) else None
    {
      WithPathLeaves(one, MEMORY, NINE, q);
    }
    forall q ensures !EmptyAt(WithPath(one, MEMORY, NINE), q) { WritingAddsNoEmpties(one, MEMORY, NINE, q); }
  }

  lemma PartingIsCreated(e: Env, r: Request, x: Parting)
    requires LawfulEnv(e) && Parts(e, r, x) && r.clear && r.createLands
    ensures Built(e, r).Created?
  {
    PartingIsKept(e, r, x);
    ThirdIsChecked(e, r, x);
    CreatedIff(e, r);
  }

  /** A created plan that parts from its Action: the Action is advisory although
      the third step still applies. */
  lemma PlanPartsFromItsAction() returns (e: Env, r: Request)
    ensures LawfulEnv(e) && Built(e, r).Created? && EnsuredSteps(e, r).Some?
    ensures var kept := DropPatchless(EnsuredSteps(e, r).value);
      PlanCoherence.LosesItsStep(e, kept, RefusedValues(e, kept))
    ensures Built(e, r).contents.detail == ADVISORY
    ensures HasAutoApplicableChange(Built(e, r).contents.steps, Built(e, r).contents.detail)
  {
    var x;
    e, r, x := ParticularParting();
    PartingIsKept(e, r, x);
    PartingLosesItsStep(e, r, x);
    PartingIsCreated(e, r, x);
    PlanCoherence.PartedPlan(e, r);
  }

  // ---------------------------------------------------------------------------
  // A permitted value the persona has no record of
  // ---------------------------------------------------------------------------

  /** One step asks for twice the live limit, and the persona is empty. */
  ghost predicate Permits(e: Env, r: Request, patch: Fields, p: Path, live: string, value: string)
  {
    && r.planned == [Update(patch)] && Knows(r.workload, p, live) && OnlySets(patch, p, value)
    && e.q.parse(live) == Some(1.0) && e.q.parse(value) == Some(2.0) && TargetPath(r.diagnosis) == Some(p)
    && r.persona == Some(map[]) && "spec" in patch && patch["spec"].Obj?
  }

  lemma NothingRecorded(patch: Fields)
    requires "spec" in patch && patch["spec"].Obj?
    ensures Snapshot(Some(map[]), patch) == None
  {
    assert Mirrored(patch["spec"].fields, map[]) == map[];
    assert Mirrored(patch, Document(map[])) == map[];
  }

  lemma PermittedStays(e: Env, r: Request, patch: Fields, p: Path, live: string, value: string) returns (step: Step)
    requires LawfulEnv(e) && Permits(e, r, patch, p, live, value)
    ensures AfterSafety(e, r) == [step] && step.patch == Some(patch) && IsApplied(step) && step.prePatch.None?
  {
    SafeStep(e, r, 0);
    PermittedStep(e, r, patch, p, live, value);
    step := AfterSafety(e, r)[0];
  }

  lemma PermittedStep(e: Env, r: Request, patch: Fields, p: Path, live: string, value: string)
    requires LawfulEnv(e) && Permits(e, r, patch, p, live, value)
    ensures var step := RefuseStep(e, MapStep(e, Update(patch), r.persona, r.workload), r.workload);
      step.patch == Some(patch) && IsApplied(step) && step.prePatch.None?
  {
    assert LeafAt(patch, p).Some?;
    MappedWhole(e, r, patch);
    NothingRecorded(patch);
    WithinStays(e, MapStep(e, Update(patch), r.persona, r.workload), r.workload, p, live, patch, value);
  }

  lemma AppliedIsEnsured(e: Env, r: Request, step: Step)
    requires LawfulEnv(e) && AfterSafety(e, r) == [step] && TargetPath(r.diagnosis).Some?
    requires IsApplied(step) && step.patch.Some? && LeafAt(step.patch.value, TargetPath(r.diagnosis).value).Some?
    ensures EnsuredSteps(e, r) == Some([step]) && !Installs(e, r)
  {
    AppliesOnly(step, BackCompat(MapSteps(e, r.planned, r.persona, r.workload)), TargetPath(r.diagnosis).value);
  }

  lemma AppliesOnly(step: Step, detail: Detail, target: Path)
    requires IsApplied(step) && step.patch.Some? && LeafAt(step.patch.value, target).Some?
    ensures Applies([step], detail, target)
  {
    assert AppliesAt([step][0], target);
  }

  lemma OnlyStepKeeps(e: Env, step: Step, refused: seq<Redaction.RefusedValue>)
    requires IsApplied(step)
    ensures !PlanCoherence.LosesItsStep(e, [step], refused) && PlanCoherence.FirstApplied([step]) == Some(0)
  {
  }

  lemma PermittedIsEnsured(e: Env, r: Request, patch: Fields, p: Path, live: string, value: string)
    returns (step: Step)
    requires LawfulEnv(e) && Permits(e, r, patch, p, live, value)
    ensures EnsuredSteps(e, r) == Some([step]) && !Installs(e, r) && !IsNoise(step)
    ensures step.patch == Some(patch) && IsApplied(step) && step.prePatch.None?
  {
    step := PermittedStays(e, r, patch, p, live, value);
    AppliedIsEnsured(e, r, step);
  }

  lemma PermittedPlansResources(e: Env, r: Request, patch: Fields, p: Path, live: string, value: string)
    requires LawfulEnv(e) && Permits(e, r, patch, p, live, value)
    ensures PlanCoherence.PlansOnlyResources(r)
  {
  }

  lemma PermittedIsCreated(e: Env, r: Request, patch: Fields, p: Path, live: string, value: string)
    requires LawfulEnv(e) && Permits(e, r, patch, p, live, value) && r.clear && r.createLands
    ensures Built(e, r).Created? && EnsuredSteps(e, r).Some? && Built(e, r).contents.detail.patch.Some?
    ensures var kept := DropPatchless(EnsuredSteps(e, r).value);
      !PlanCoherence.LosesItsStep(e, kept, RefusedValues(e, kept)) && !PlanCoherence.RollsBack(kept)
  {
    var step := PermittedIsEnsured(e, r, patch, p, live, value);
    NothingDropped(step);
    OnlyStepKeeps(e, step, RefusedValues(e, [step]));
    CreatedIff(e, r);
    OneStepEnters(e, r, step);
    PermittedPlansResources(e, r, patch, p, live, value);
    OneStepStays(e, r);
  }

  lemma OnceMemory() returns (e: Env, r: Request, patch: Fields)
    ensures LawfulEnv(e) && Permits(e, r, patch, MEMORY, "b1", TWO) && r.clear && r.createLands
  {
    patch := MemoryPatch();
    e, r := World(), OutOfMemory([Update(patch)], "b1").(persona := Some(map[]));
    WorldIsLawful();
    UnaryCounts();
    LiveKnows("b1");
    OutOfMemoryIsSized(e, r, "b1");
    assert LeafAt(patch, MEMORY).Some?;
  }

  /** A created plan within the cap that sets only resources, counts as applicable
      and did not part, and yet has no rollback state: exactly twice the live limit,
      for a persona that records none. */
  lemma PermittedWithoutRollback() returns (e: Env, r: Request)
    ensures LawfulEnv(e) && Built(e, r).Created? && EnsuredSteps(e, r).Some? && PlanCoherence.PlansOnlyResources(r)
    ensures HasAutoApplicableChange(Built(e, r).contents.steps, Built(e, r).contents.detail)
    ensures var kept := DropPatchless(EnsuredSteps(e, r).value);
      !PlanCoherence.LosesItsStep(e, kept, RefusedValues(e, kept)) && !PlanCoherence.RollsBack(kept)
  {
    var patch;
    e, r, patch := OnceMemory();
    PermittedIsCreated(e, r, patch, MEMORY, "b1", TWO);
    PermittedPlansResources(e, r, patch, MEMORY, "b1", TWO);
    PatchedResourcePlanApplies(e, r);
  }

  lemma PatchedResourcePlanApplies(e: Env, r: Request)
    requires LawfulEnv(e) && PlanCoherence.PlansOnlyResources(r) && Built(e, r).Created?
    requires Built(e, r).contents.detail.patch.Some?
    ensures HasAutoApplicableChange(Built(e, r).contents.steps, Built(e, r).contents.detail)
  {
    PlanCoherence.ResourcePlanAgrees(e, r);
    PlanCoherence.BackCompatIsFirst(Built(e, r).contents.steps);
  }

  // ---------------------------------------------------------------------------
  // No verdict, and an owner
  // ---------------------------------------------------------------------------

  lemma AdviceStays(e: Env, r: Request)
    requires LawfulEnv(e) && r.planned == [ADVICE] && TargetPath(r.diagnosis).None?
    ensures EnsuredSteps(e, r).Some?
    ensures forall s | s in EnsuredSteps(e, r).value :: !IsNoise(s) && s.safety == []
    ensures |EnsuredSteps(e, r).value| == 1
  {
    SafeStep(e, r, 0);
    EnsuredShape(e, r);
  }

  lemma AdviceIsCreated(e: Env, r: Request)
    requires LawfulEnv(e) && r.planned == [ADVICE] && TargetPath(r.diagnosis).None? && r.clear && r.createLands
    ensures Built(e, r).Created?
  {
    AdviceStays(e, r);
    var step := EnsuredSteps(e, r).value[0];
    assert step in EnsuredSteps(e, r).value;
    var i := UsefulStepIsKept(EnsuredSteps(e, r).value, step);
    CreatedIff(e, r);
  }

  lemma AdviceIsUnruled(e: Env, r: Request)
    requires LawfulEnv(e) && r.planned == [ADVICE] && TargetPath(r.diagnosis).None? && Built(e, r).Created?
    ensures !Spoke(Built(e, r).contents.steps)
  {
    AdviceStays(e, r);
    forall i | 0 <= i < |Built(e, r).contents.steps| ensures Built(e, r).contents.steps[i].safety == [] {
      CreatedStep(e, r, i);
      var origin := BeforeScrubsOrigin(e, r, i);
    }
  }

  lemma OwnedAdvice() returns (e: Env, r: Request)
    ensures LawfulEnv(e) && r.planned == [ADVICE] && TargetPath(r.diagnosis).None?
    ensures r.owned && r.clear && r.createLands
  {
    e, r := World(), Request([ADVICE], "", 1.0, Diagnosis([], false), None, Unresolved, true, true, true);
    WorldIsLawful();
  }

  /** A created plan no guardrail spoke on, for an owned workload. */
  lemma UnruledOwnedPlan() returns (e: Env, r: Request)
    ensures LawfulEnv(e) && r.owned && Built(e, r).Created? && !Spoke(Built(e, r).contents.steps)
  {
    e, r := OwnedAdvice();
    AdviceIsCreated(e, r);
    AdviceIsUnruled(e, r);
  }
}
