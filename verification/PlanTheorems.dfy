/** What every created plan satisfies, proved over all planner answers: the
    stages up to the scrubs, and the blast-radius cap. */
module PlanTheorems {
  import opened Json
  import opened Merge
  import opened Prune
  import opened Sizing
  import opened Plan
  import Redaction

  // ---------------------------------------------------------------------------
  // The blast-radius cap
  // ---------------------------------------------------------------------------

  /** The value a field is capped against: the live one, or the persona's record
      when no workload was resolved. */
  function Base(e: Env, r: Request, p: Path): Option<real>
  {
    if r.workload.Resolved? then
      match Observed(r.workload, p) case Some(live) => e.q.parse(live) case None => None
    else if r.persona.Some? then AmountAt(e, Document(r.persona.value), p)
    else None
  }

  /** Every parsable leaf with a positive base is within half and twice of it. */
  ghost predicate Within(e: Env, r: Request, f: Fields)
  {
    forall p | AmountAt(e, f, p).Some? && Base(e, r, p).Some? && Base(e, r, p).value > 0.0 ::
      Base(e, r, p).value <= 2.0 * AmountAt(e, f, p).value && AmountAt(e, f, p).value <= 2.0 * Base(e, r, p).value
  }

  /** A persona update applies automatically exactly when it carries a patch, and
      no other step does either. */
  ghost predicate Coherent(s: Step)
  {
    s.auto == s.patch.Some? && (s.patch.Some? ==> s.stype.PersonaUpdate?)
  }

  ghost predicate StepWithin(e: Env, r: Request, s: Step)
  {
    s.patch.Some? ==> Within(e, r, s.patch.value)
  }

  /** The leaf ensureAppliableResourcePlan derived. */
  predicate IsDerived(e: Env, r: Request, f: Fields, p: Path)
    requires LawfulEnv(e)
  {
    && Installs(e, r) && TargetPath(r.diagnosis) == Some(p)
    && LeafAt(f, p) == Some(Str(ChangeOf(e, r).value))
  }

  /** Every parsable leaf with a positive base is within the cap or derived. */
  ghost predicate Checked(e: Env, r: Request, f: Fields)
    requires LawfulEnv(e)
  {
    forall p | AmountAt(e, f, p).Some? && Base(e, r, p).Some? && Base(e, r, p).value > 0.0 ::
      || IsDerived(e, r, f, p)
      || (Base(e, r, p).value <= 2.0 * AmountAt(e, f, p).value && AmountAt(e, f, p).value <= 2.0 * Base(e, r, p).value)
  }

  ghost predicate CheckedStep(e: Env, r: Request, s: Step)
    requires LawfulEnv(e)
  {
    Coherent(s) && (s.patch.Some? ==> Checked(e, r, s.patch.value))
  }

  lemma StringOfLeaf(f: Fields, g: Fields, p: Path)
    requires LeafAt(f, p) == LeafAt(g, p)
    ensures StringAt(f, p) == StringAt(g, p)
  {
  }

  lemma GroundedLeaf(e: Env, patch: Fields, w: Workload, p: Path)
    requires LawfulEnv(e) && p in LiveValues(patch, w)
    ensures Grounded(e, patch, w).Some?
    ensures StringAt(Grounded(e, patch, w).value, p) == Observed(w, p)
  {
    var values := LiveValues(patch, w);
    var paths := e.order(values.Keys);
    assert forall s | s in paths :: s in values.Keys && s != [];
    LiveLeaf(paths, values, w, p);
  }

  lemma LiveLeaf(paths: seq<Path>, values: map<Path, string>, w: Workload, p: Path)
    requires forall s | s in paths :: s in values && s != []
    requires p in paths && forall s | s in values :: Observed(w, s) == Some(values[s])
    ensures StringAt(WithPaths(map[], paths, values), p) == Observed(w, p)
  {
    WithPathsLeaves(map[], paths, values, p);
  }

  lemma NoLiveValues(e: Env, patch: Fields, w: Workload)
    requires LawfulEnv(e) && w.Unresolved?
    ensures Grounded(e, patch, w).None?
  {
  }

  /** A snapshot reads like the persona at every leaf the patch sets. */
  lemma SnapshotLeaf(persona: Option<Fields>, patch: Fields, p: Path)
    requires persona.Some? && LeafAt(patch, p).Some? && LeafAt(Document(persona.value), p).Some?
    ensures Snapshot(persona, patch).Some?
    ensures LeafAt(Snapshot(persona, patch).value, p) == LeafAt(Document(persona.value), p)
  {
    MirroredLeaf(patch, Document(persona.value), p);
  }

  /** The guardrail's own baseline is the field's base, wherever there is one. */
  lemma BaselineIsBase(e: Env, r: Request, step: Step, p: Path)
    requires LawfulEnv(e) && step.patch.Some? && step.prePatch == Snapshot(r.persona, step.patch.value)
    requires LeafAt(step.patch.value, p).Some? && Base(e, r, p).Some?
    ensures Baseline(e, step, r.workload).Some?
    ensures AmountAt(e, Baseline(e, step, r.workload).value, p) == Base(e, r, p)
  {
    var patch := step.patch.value;
    LeafPathsAreTheLeaves(patch, p);
    if r.workload.Resolved? {
      GroundedLeaf(e, patch, r.workload, p);
    } else {
      NoLiveValues(e, patch, r.workload);
      SnapshotLeaf(r.persona, patch, p);
      StringOfLeaf(Snapshot(r.persona, patch).value, Document(r.persona.value), p);
    }
  }

  lemma PrunedAmount(e: Env, f: Fields, paths: seq<Path>, p: Path)
    requires forall s | s in paths :: LeafAt(f, s).Some?
    ensures [] !in paths
    ensures Pruned(Some(f), paths).Some? && LeafAt(Pruned(Some(f), paths).value, p).Some? ==>
              p !in paths && LeafAt(Pruned(Some(f), paths).value, p) == LeafAt(f, p)
  {
    PrunedLeaves(f, paths, p);
  }

  lemma MappedStep(e: Env, r: Request, ps: PlannedStep)
    requires LawfulEnv(e)
    ensures var s := MapStep(e, ps, r.persona, r.workload);
      && Coherent(s) && (s.patch.Some? ==> s.prePatch == Snapshot(r.persona, s.patch.value))
  {
  }

  /** After the safety stage every remaining leaf is within the cap, and within that
      of the baseline the step was measured against, live or the persona's. */
  lemma RefusedStepIsWithin(e: Env, r: Request, step: Step)
    requires LawfulEnv(e) && Coherent(step)
    requires step.patch.Some? ==> step.prePatch == Snapshot(r.persona, step.patch.value)
    ensures Coherent(RefuseStep(e, step, r.workload)) && StepWithin(e, r, RefuseStep(e, step, r.workload))
    ensures NoBreachLeft(e, step, r.workload)
  {
    var out := RefuseStep(e, step, r.workload);
    RefusedIsCoherent(e, step, r.workload);
    RefusedHasNoBreach(e, step, r.workload);
    if out.patch.Some? {
      forall p | AmountAt(e, out.patch.value, p).Some? && Base(e, r, p).Some? && Base(e, r, p).value > 0.0
        ensures !OutsideCap(Base(e, r, p).value, AmountAt(e, out.patch.value, p).value)
      {
        LeafOfRefused(e, r.workload, step, p);
        StringOfLeaf(out.patch.value, step.patch.value, p);
        UnrefusedLeaf(e, r, step, p);
      }
    }
  }

  /** Nothing a step keeps is outside the cap of what it was measured against. */
  ghost predicate NoBreachLeft(e: Env, step: Step, w: Workload)
    requires LawfulEnv(e)
  {
    var out := RefuseStep(e, step, w).patch;
    step.patch.Some? && out.Some? && Baseline(e, step, w).Some? ==>
      forall p | AmountAt(e, out.value, p).Some? && AmountAt(e, Baseline(e, step, w).value, p).Some? &&
                 AmountAt(e, Baseline(e, step, w).value, p).value > 0.0 ::
        && AmountAt(e, Baseline(e, step, w).value, p).value <= 2.0 * AmountAt(e, out.value, p).value
        && AmountAt(e, out.value, p).value <= 2.0 * AmountAt(e, Baseline(e, step, w).value, p).value
  }

  lemma RefusedHasNoBreach(e: Env, step: Step, w: Workload)
    requires LawfulEnv(e) && Coherent(step)
    ensures NoBreachLeft(e, step, w)
  {
    var out := RefuseStep(e, step, w).patch;
    if step.patch.Some? && out.Some? && Baseline(e, step, w).Some? {
      var base := Baseline(e, step, w).value;
      forall p | AmountAt(e, out.value, p).Some? ensures !Breach(e, out.value, base, p) {
        RefusedLeafIsNoBreach(e, step, w, p);
      }
      UnbreachedIsBetween(e, out.value, base);
    }
  }

  lemma RefusedLeafIsNoBreach(e: Env, step: Step, w: Workload, p: Path)
    requires LawfulEnv(e) && Coherent(step) && step.patch.Some? && Baseline(e, step, w).Some?
    requires RefuseStep(e, step, w).patch.Some? && AmountAt(e, RefuseStep(e, step, w).patch.value, p).Some?
    ensures !Breach(e, RefuseStep(e, step, w).patch.value, Baseline(e, step, w).value, p)
  {
    LeafOfRefused(e, w, step, p);
    LeafPathsAreTheLeaves(step.patch.value, p);
    StringOfLeaf(RefuseStep(e, step, w).patch.value, step.patch.value, p);
  }

  lemma UnbreachedIsBetween(e: Env, f: Fields, base: Fields)
    requires forall p | AmountAt(e, f, p).Some? :: !Breach(e, f, base, p)
    ensures forall p | AmountAt(e, f, p).Some? && AmountAt(e, base, p).Some? && AmountAt(e, base, p).value > 0.0 ::
      && AmountAt(e, base, p).value <= 2.0 * AmountAt(e, f, p).value
      && AmountAt(e, f, p).value <= 2.0 * AmountAt(e, base, p).value
  {
  }

  /** What the guardrail makes of a step it finds breaches on. */
  lemma RefusedShape(e: Env, step: Step, w: Workload, base: Fields, fields: seq<Path>)
    requires LawfulEnv(e) && step.auto && step.stype.PersonaUpdate? && step.patch.Some?
    requires Baseline(e, step, w) == Some(base)
    requires fields == e.order(Breaches(e, step.patch.value, base)) && fields != []
    ensures [] !in fields
    ensures var out := RefuseStep(e, step, w);
      && out.patch == Pruned(step.patch, fields) && out.prePatch == Pruned(step.prePatch, fields)
      && out.stype == step.stype && out.auto == out.patch.Some?
      && out.safety == step.safety + RefusalEntries(e, step.patch.value, base, fields)
  {
  }

  lemma RefusalIsListed(e: Env, patch: Fields, base: Fields, fields: seq<Path>, p: Path)
    requires p in fields
    ensures RefusalEntry(e, patch, base, p) in RefusalEntries(e, patch, base, fields)
  {
    var i :| 0 <= i < |fields| && fields[i] == p;
    assert RefusalEntries(e, patch, base, fields)[i] in RefusalEntries(e, patch, base, fields);
  }

  lemma RefusedIsCoherent(e: Env, step: Step, w: Workload)
    requires LawfulEnv(e) && Coherent(step)
    ensures Coherent(RefuseStep(e, step, w))
    ensures RefuseStep(e, step, w).patch.Some? ==> step.patch.Some?
  {
  }

  lemma UnrefusedLeaf(e: Env, r: Request, step: Step, p: Path)
    requires LawfulEnv(e) && step.patch.Some? && step.prePatch == Snapshot(r.persona, step.patch.value)
    requires AmountAt(e, step.patch.value, p).Some? && Base(e, r, p).Some? && Base(e, r, p).value > 0.0
    requires Baseline(e, step, r.workload).Some? ==>
               p !in Breaches(e, step.patch.value, Baseline(e, step, r.workload).value)
    ensures !OutsideCap(Base(e, r, p).value, AmountAt(e, step.patch.value, p).value)
  {
    BaselineIsBase(e, r, step, p);
    LeafPathsAreTheLeaves(step.patch.value, p);
  }

  lemma LeafOfRefused(e: Env, w: Workload, step: Step, p: Path)
    requires LawfulEnv(e) && step.patch.Some? && Coherent(step)
    requires RefuseStep(e, step, w).patch.Some? && LeafAt(RefuseStep(e, step, w).patch.value, p).Some?
    ensures LeafAt(step.patch.value, p) == LeafAt(RefuseStep(e, step, w).patch.value, p)
    ensures Baseline(e, step, w).Some? ==> p !in Breaches(e, step.patch.value, Baseline(e, step, w).value)
  {
    if Baseline(e, step, w).Some? {
      var patch, base := step.patch.value, Baseline(e, step, w).value;
      var fields := e.order(Breaches(e, patch, base));
      forall s | s in fields ensures LeafAt(patch, s).Some? {
        LeafPathsAreTheLeaves(patch, s);
      }
      PrunedAmount(e, patch, fields, p);
      assert fields == [] ==> p !in Breaches(e, patch, base);
    }
  }

  lemma DocumentLeaf(persona: Fields, q: Path)
    requires q != []
    ensures LeafAt(Document(persona), ["spec"] + q) == LeafAt(persona, q)
  {
  }

  lemma BaseOfSized(e: Env, r: Request, dim: Dimension)
    requires LimitIncrease(e.q, r.diagnosis, r.persona, r.workload, dim).Sized?
    requires Base(e, r, LimitPath(dim)).Some?
    ensures var change := LimitIncrease(e.q, r.diagnosis, r.persona, r.workload, dim);
      && e.q.parse(change.baseline) == Base(e, r, LimitPath(dim))
      && change.value == ScaleQuantity(e.q, Base(e, r, LimitPath(dim)).value,
                                       IncreaseMultiplier(dim, r.diagnosis.critical), dim)
  {
    if r.workload.Unresolved? {
      DocumentLeaf(r.persona.value, ["resources", "limits", Key(dim)]);
      assert ["spec"] + ["resources", "limits", Key(dim)] == LimitPath(dim);
    }
  }

  /** The merged patch at a field: the derived value at the target, elsewhere
      what was there. */
  lemma InstalledLeaf(e: Env, r: Request, p: Path)
    requires LawfulEnv(e) && Installs(e, r) && LeafAt(Installed(e, r).patch.value, p).Some?
    ensures var before := AfterSafety(e, r)[DerivedStepIndex(AfterSafety(e, r)).value].patch;
      || IsDerived(e, r, Installed(e, r).patch.value, p)
      || (before.Some? && LeafAt(Installed(e, r).patch.value, p) == LeafAt(before.value, p))
  {
    var before, change := AfterSafety(e, r)[DerivedStepIndex(AfterSafety(e, r)).value].patch, ChangeOf(e, r);
    SizedPatchHitsTarget(e.q, r.diagnosis, r.persona, r.workload, p);
    if before.Some? { MergedLeafHasASource(before.value, change.patch, p); }
  }

  lemma InstalledIsChecked(e: Env, r: Request)
    requires LawfulEnv(e) && Installs(e, r)
    requires CheckedStep(e, r, AfterSafety(e, r)[DerivedStepIndex(AfterSafety(e, r)).value])
    ensures CheckedStep(e, r, Installed(e, r))
  {
    var patch := Installed(e, r).patch.value;
    forall p | AmountAt(e, patch, p).Some? && Base(e, r, p).Some? && Base(e, r, p).value > 0.0
      ensures !OutsideCap(Base(e, r, p).value, AmountAt(e, patch, p).value) || IsDerived(e, r, patch, p)
    {
      InstalledLeaf(e, r, p);
    }
  }

  /** Same patch, type and flag: what the stages between the derivation and the
      scrub never touch. */
  ghost predicate SameWrite(a: Step, b: Step)
  {
    a.patch == b.patch && a.prePatch == b.prePatch && a.stype == b.stype && a.auto == b.auto && a.safety == b.safety
  }

  lemma DisclosureKeepsWrites(e: Env, c: Contents, w: Workload, i: nat)
    requires LawfulEnv(e) && i < |c.steps|
    ensures |GroundedDisclosure(e, c, w).steps| == |c.steps| && GroundedDisclosure(e, c, w).detail == c.detail
    ensures SameWrite(GroundedDisclosure(e, c, w).steps[i], c.steps[i])
    ensures GroundedDisclosure(e, c, w).steps[i].command == c.steps[i].command
  {
    var swapped := Swapped(e, c, w);
    var disclosed := Disclosed(e, swapped);
    assert disclosed.steps[i] == DisclosedStep(e, swapped.steps[i]);
  }

  lemma OwnershipKeepsWrites(e: Env, changes: map<Path, string>, step: Step)
    requires Coherent(step)
    ensures SameWrite(Stripped(e, Shaped(e, changes, Enforced(step))), step) && SameWrite(Enforced(step), step)
  {
  }

  lemma SettledSteps(e: Env, steps: seq<Step>, summary: string, confidence: real, w: Workload, owned: bool, i: nat)
    requires LawfulEnv(e) && i < |steps| && Coherent(steps[i])
    ensures |Settled(e, steps, summary, confidence, w, owned).steps| == |steps|
    ensures SameWrite(Settled(e, steps, summary, confidence, w, owned).steps[i], steps[i])
  {
    OwnershipKeepsWrites(e, ProposedChanges(EnforceAll(steps), BackCompat(steps)), steps[i]);
    DisclosureKeepsWrites(e, Undisclosed(e, steps, summary, confidence, owned), w, i);
  }

  lemma DroppedSteps(steps: seq<Step>, s: Step) returns (origin: Step)
    requires s in DropPatchless(steps)
    ensures origin in steps && SameWrite(s, origin) && !IsNoise(origin)
    ensures s.command == origin.command
  {
    var kept := WithoutNoise(steps);
    if |kept| == |steps| {
      origin := s;
      NothingDropped(steps);
    } else {
      var i :| 0 <= i < |kept| && Renumbered(kept)[i] == s;
      origin := kept[i];
      assert origin in kept;
    }
  }

  lemma {:induction false} NothingDropped(steps: seq<Step>)
    ensures |WithoutNoise(steps)| == |steps| ==> WithoutNoise(steps) == steps && forall s | s in steps :: !IsNoise(s)
    decreases |steps|
  {
    if steps != [] { NothingDropped(steps[1..]); }
  }

  // ---------------------------------------------------------------------------
  // Whole-pipeline invariants
  // ---------------------------------------------------------------------------

  lemma SafeStep(e: Env, r: Request, i: nat)
    requires LawfulEnv(e) && i < |AfterSafety(e, r)|
    ensures i < |r.planned|
    ensures AfterSafety(e, r)[i] == RefuseStep(e, MapStep(e, r.planned[i], r.persona, r.workload), r.workload)
  {
  }

  lemma SafeStepIsChecked(e: Env, r: Request, i: nat)
    requires LawfulEnv(e) && i < |AfterSafety(e, r)|
    ensures CheckedStep(e, r, AfterSafety(e, r)[i])
  {
    SafeStep(e, r, i);
    MappedStep(e, r, r.planned[i]);
    RefusedStepIsWithin(e, r, MapStep(e, r.planned[i], r.persona, r.workload));
  }

  /** The steps that leave ensureAppliableResourcePlan: those that entered it, one
      of them with the derived patch if it installs one. */
  lemma EnsuredShape(e: Env, r: Request)
    requires LawfulEnv(e)
    ensures EnsuredSteps(e, r).Some? ==>
      EnsuredSteps(e, r).value ==
      if Installs(e, r) then AfterSafety(e, r)[DerivedStepIndex(AfterSafety(e, r)).value := Installed(e, r)]
      else AfterSafety(e, r)
    ensures Installs(e, r) ==> Ensuring(e, r).Kept?
  {
  }

  lemma EnsuredAreCoherent(e: Env, r: Request)
    requires LawfulEnv(e) && EnsuredSteps(e, r).Some?
    ensures forall s | s in EnsuredSteps(e, r).value :: Coherent(s)
  {
    EnsuredShape(e, r);
    forall i | 0 <= i < |AfterSafety(e, r)| ensures Coherent(AfterSafety(e, r)[i]) {
      SafeStepIsChecked(e, r, i);
    }
  }

  /** The plan as it enters the two scrubs. */
  function BeforeScrubs(e: Env, r: Request): Contents
    requires LawfulEnv(e) && EnsuredSteps(e, r).Some?
  {
    Settled(e, DropPatchless(EnsuredSteps(e, r).value), r.rootCause, r.confidence, r.workload, r.owned)
  }

  lemma SettledLength(e: Env, steps: seq<Step>, summary: string, confidence: real, w: Workload, owned: bool)
    requires LawfulEnv(e)
    ensures |Settled(e, steps, summary, confidence, w, owned).steps| == |steps|
    ensures Settled(e, steps, summary, confidence, w, owned).detail == BackCompat(steps)
  {
  }

  /** Step i before the scrubs writes what step i of the kept plan writes. */
  lemma BeforeScrubsStep(e: Env, r: Request, i: nat)
    requires LawfulEnv(e) && EnsuredSteps(e, r).Some? && i < |DropPatchless(EnsuredSteps(e, r).value)|
    ensures |BeforeScrubs(e, r).steps| == |DropPatchless(EnsuredSteps(e, r).value)|
    ensures SameWrite(BeforeScrubs(e, r).steps[i], DropPatchless(EnsuredSteps(e, r).value)[i])
  {
    var kept := DropPatchless(EnsuredSteps(e, r).value);
    EnsuredAreCoherent(e, r);
    assert kept[i] in kept;
    var origin := DroppedSteps(EnsuredSteps(e, r).value, kept[i]);
    SettledSteps(e, kept, r.rootCause, r.confidence, r.workload, r.owned, i);
  }

  lemma BeforeScrubsLength(e: Env, r: Request)
    requires LawfulEnv(e) && EnsuredSteps(e, r).Some?
    ensures |BeforeScrubs(e, r).steps| == |DropPatchless(EnsuredSteps(e, r).value)|
    ensures BeforeScrubs(e, r).detail == BackCompat(DropPatchless(EnsuredSteps(e, r).value))
  {
  }

  /** Every step before the scrubs writes what some ensured step writes. */
  lemma BeforeScrubsOrigin(e: Env, r: Request, i: nat) returns (origin: Step)
    requires LawfulEnv(e) && EnsuredSteps(e, r).Some? && i < |BeforeScrubs(e, r).steps|
    ensures origin in EnsuredSteps(e, r).value && SameWrite(BeforeScrubs(e, r).steps[i], origin)
  {
    BeforeScrubsLength(e, r);
    BeforeScrubsStep(e, r, i);
    var kept := DropPatchless(EnsuredSteps(e, r).value);
    assert kept[i] in kept;
    origin := DroppedSteps(EnsuredSteps(e, r).value, kept[i]);
  }

  /** What holds of every checked step and of the installed one, and depends on a
      step's writes only, holds of every step that enters the scrubs. */
  lemma ReachesScrubs(e: Env, r: Request, inv: Step -> bool)
    requires LawfulEnv(e) && EnsuredSteps(e, r).Some?
    requires forall s | s in AfterSafety(e, r) :: inv(s)
    requires Installs(e, r) ==> inv(Installed(e, r))
    requires forall a, b | SameWrite(a, b) && inv(b) :: inv(a)
    ensures forall s | s in EnsuredSteps(e, r).value :: inv(s)
    ensures forall s | s in BeforeScrubs(e, r).steps :: inv(s)
  {
    ReachesEnsured(e, r, inv);
    forall i | 0 <= i < |BeforeScrubs(e, r).steps| ensures inv(BeforeScrubs(e, r).steps[i]) {
      var origin := BeforeScrubsOrigin(e, r, i);
    }
  }

  lemma ReachesEnsured(e: Env, r: Request, inv: Step -> bool)
    requires LawfulEnv(e) && EnsuredSteps(e, r).Some?
    requires forall s | s in AfterSafety(e, r) :: inv(s)
    requires Installs(e, r) ==> inv(Installed(e, r))
    ensures forall s | s in EnsuredSteps(e, r).value :: inv(s)
  {
    EnsuredShape(e, r);
  }

  ghost function Checking(e: Env, r: Request): Step -> bool
    requires LawfulEnv(e)
  {
    (s: Step) => CheckedStep(e, r, s)
  }

  lemma SafeStepsAreChecked(e: Env, r: Request)
    requires LawfulEnv(e)
    ensures forall s | s in AfterSafety(e, r) :: CheckedStep(e, r, s)
  {
    forall i | 0 <= i < |AfterSafety(e, r)| ensures CheckedStep(e, r, AfterSafety(e, r)[i]) {
      SafeStepIsChecked(e, r, i);
    }
  }

  lemma BeforeScrubsIsChecked(e: Env, r: Request)
    requires LawfulEnv(e) && EnsuredSteps(e, r).Some?
    ensures forall s | s in BeforeScrubs(e, r).steps :: CheckedStep(e, r, s)
  {
    SafeStepsAreChecked(e, r);
    if Installs(e, r) { InstalledIsChecked(e, r); }
    SameWriteIsChecked(e, r);
    ReachesScrubs(e, r, Checking(e, r));
    assert forall s :: Checking(e, r)(s) == CheckedStep(e, r, s);
  }

  lemma SameWriteIsChecked(e: Env, r: Request)
    requires LawfulEnv(e)
    ensures forall a, b | SameWrite(a, b) && Checking(e, r)(b) :: Checking(e, r)(a)
  {
  }

  lemma ScrubbedIsChecked(e: Env, r: Request, step: Step, refused: seq<Redaction.RefusedValue>)
    requires LawfulEnv(e) && CheckedStep(e, r, step)
    ensures CheckedStep(e, r, Scrubbed(e, step, refused))
  {
    var out := Scrubbed(e, step, refused);
    if out.patch.Some? { WithoutRefusedIsChecked(e, r, step.patch.value, refused); }
  }

  /** Pruning leaves no value that was not there. */
  lemma WithoutRefusedLeaf(e: Env, patch: Fields, refused: seq<Redaction.RefusedValue>, p: Path)
    requires WithoutRefused(e, Some(patch), refused).Some?
    requires LeafAt(WithoutRefused(e, Some(patch), refused).value, p).Some?
    ensures LeafAt(patch, p) == LeafAt(WithoutRefused(e, Some(patch), refused).value, p)
  {
    RefusedPathsAreHeld(e, patch, refused);
    PrunedAmount(e, patch, RefusedPaths(e, patch, refused), p);
  }

  lemma WithoutRefusedIsChecked(e: Env, r: Request, patch: Fields, refused: seq<Redaction.RefusedValue>)
    requires LawfulEnv(e) && Checked(e, r, patch) && WithoutRefused(e, Some(patch), refused).Some?
    ensures Checked(e, r, WithoutRefused(e, Some(patch), refused).value)
  {
    var out := WithoutRefused(e, Some(patch), refused).value;
    forall p | AmountAt(e, out, p).Some? && Base(e, r, p).Some? && Base(e, r, p).value > 0.0
      ensures !OutsideCap(Base(e, r, p).value, AmountAt(e, out, p).value) || IsDerived(e, r, out, p)
    {
      WithoutRefusedLeaf(e, patch, refused, p);
      StringOfLeaf(out, patch, p);
    }
  }

  // ---------------------------------------------------------------------------
  // The created plan
  // ---------------------------------------------------------------------------

  /** Step i of the created plan is step i before the scrubs, scrubbed. */
  lemma CreatedStep(e: Env, r: Request, i: nat)
    requires LawfulEnv(e) && Built(e, r).Created? && i < |Built(e, r).contents.steps|
    ensures EnsuredSteps(e, r).Some? && |BeforeScrubs(e, r).steps| == |Built(e, r).contents.steps|
    ensures var before, after := BeforeScrubs(e, r).steps[i], Built(e, r).contents.steps[i];
      var refused := RefusedValues(e, BeforeScrubs(e, r).steps);
      var scrubbed := if refused == [] then before else Scrubbed(e, before, refused);
      SameWrite(after, scrubbed) && after.command == scrubbed.command
  {
    CreatedIsScrubbed(e, r);
    ScrubsStep(e, BeforeScrubs(e, r), i);
  }

  lemma FinishedIs(e: Env, r: Request, steps: seq<Step>, declined: bool)
    requires LawfulEnv(e)
    ensures var c := Scrubs(e, Settled(e, DropPatchless(steps), r.rootCause, r.confidence, r.workload, r.owned));
      Finished(e, r, steps, declined) ==
      if DropPatchless(steps) != [] && AssertsAppliable(c, r.diagnosis, declined) && r.createLands then Created(c)
      else Fallback
  {
  }

  lemma CreatedIsScrubbed(e: Env, r: Request)
    requires LawfulEnv(e) && Built(e, r).Created?
    ensures EnsuredSteps(e, r).Some? && Built(e, r).contents == Scrubs(e, BeforeScrubs(e, r))
  {
    FinishedIs(e, r, EnsuredSteps(e, r).value, Ensuring(e, r).RuleEngineDeclined?);
  }

  lemma ScrubsStep(e: Env, c: Contents, i: nat)
    requires i < |Scrubs(e, c).steps|
    ensures |Scrubs(e, c).steps| == |c.steps|
    ensures var after := Scrubs(e, c).steps[i];
      var refused := RefusedValues(e, c.steps);
      var scrubbed := if refused == [] then c.steps[i] else Scrubbed(e, c.steps[i], refused);
      SameWrite(after, scrubbed) && after.command == scrubbed.command
  {
    var scrubbed := ScrubRefused(e, c);
    assert ScrubClaims(e, scrubbed).steps[i] == scrubbed.steps[i] ||
           ScrubClaims(e, scrubbed).steps[i] == Unclaimed(e, scrubbed.steps[i]);
  }

  /** In every created plan each step applies automatically exactly when it
      carries a patch, only persona updates do, and every parsable value is
      within the cap or the derived one. */
  lemma CreatedPlanIsChecked(e: Env, r: Request)
    requires LawfulEnv(e) && Built(e, r).Created?
    ensures forall s | s in Built(e, r).contents.steps :: CheckedStep(e, r, s)
  {
    forall i | 0 <= i < |Built(e, r).contents.steps| ensures CheckedStep(e, r, Built(e, r).contents.steps[i]) {
      CreatedStepIsChecked(e, r, i);
    }
  }

  lemma CreatedStepIsChecked(e: Env, r: Request, i: nat)
    requires LawfulEnv(e) && Built(e, r).Created? && i < |Built(e, r).contents.steps|
    ensures CheckedStep(e, r, Built(e, r).contents.steps[i])
  {
    CreatedStep(e, r, i);
    BeforeScrubsIsChecked(e, r);
    ScrubbedIsChecked(e, r, BeforeScrubs(e, r).steps[i], RefusedValues(e, BeforeScrubs(e, r).steps));
  }
}
