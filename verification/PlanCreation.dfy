/** Which plans are created: the assertion before the Create, and the cap on the
    plans that get past it. */
module PlanCreation {
  import opened Json
  import opened Merge
  import opened Prune
  import opened Sizing
  import opened Plan
  import opened PlanTheorems
  import opened PlanScrubs
  import Redaction

  // ---------------------------------------------------------------------------
  // The diagnosed change
  // ---------------------------------------------------------------------------

  lemma TargetIsResource(d: Diagnosis)
    requires TargetPath(d).Some?
    ensures IsResourcePath(TargetPath(d).value)
  {
  }

  /** A step other than the installed one sets nothing at the target, and the
      installed one sets the derived value. */
  lemma InstalledTarget(e: Env, r: Request)
    requires LawfulEnv(e) && Installs(e, r)
    ensures IsDerived(e, r, Installed(e, r).patch.value, TargetPath(r.diagnosis).value)
    ensures AppliesAt(Installed(e, r), TargetPath(r.diagnosis).value)
  {
    var target := TargetPath(r.diagnosis).value;
    var before, change := AfterSafety(e, r)[DerivedStepIndex(AfterSafety(e, r)).value].patch, ChangeOf(e, r);
    SizedPatchHitsTarget(e.q, r.diagnosis, r.persona, r.workload, target);
    if before.Some? { OverlayLeavesWin(before.value, change.patch, target); }
  }

  /** A patch leaf at the target is the derived value. */
  ghost predicate DerivedAtTarget(e: Env, r: Request, step: Step)
    requires LawfulEnv(e) && Installs(e, r)
  {
    var target := TargetPath(r.diagnosis).value;
    step.patch.Some? && LeafAt(step.patch.value, target).Some? ==> IsDerived(e, r, step.patch.value, target)
  }

  ghost function TargetDerived(e: Env, r: Request): Step -> bool
    requires LawfulEnv(e) && Installs(e, r)
  {
    (s: Step) => DerivedAtTarget(e, r, s)
  }

  lemma SafeStepsMissTarget(e: Env, r: Request)
    requires LawfulEnv(e) && Installs(e, r)
    ensures forall s | s in AfterSafety(e, r) :: DerivedAtTarget(e, r, s)
  {
    SafeStepsAreChecked(e, r);
    forall s | s in AfterSafety(e, r) ensures DerivedAtTarget(e, r, s) {
      assert !AppliesAt(s, TargetPath(r.diagnosis).value);
    }
  }

  lemma SameWriteDerives(e: Env, r: Request)
    requires LawfulEnv(e) && Installs(e, r)
    ensures forall a, b | SameWrite(a, b) && TargetDerived(e, r)(b) :: TargetDerived(e, r)(a)
  {
  }

  lemma OnlyDerivedAtTarget(e: Env, r: Request)
    requires LawfulEnv(e) && EnsuredSteps(e, r).Some? && Installs(e, r)
    ensures forall s | s in BeforeScrubs(e, r).steps :: DerivedAtTarget(e, r, s)
  {
    SafeStepsMissTarget(e, r);
    InstalledTarget(e, r);
    SameWriteDerives(e, r);
    ReachesScrubs(e, r, TargetDerived(e, r));
    assert forall s :: TargetDerived(e, r)(s) == DerivedAtTarget(e, r, s);
  }

  /** The step ensureAppliableResourcePlan leaves the diagnosed change on. */
  lemma ApplyingStep(e: Env, r: Request) returns (step: Step)
    requires LawfulEnv(e) && r.planned != [] && TargetPath(r.diagnosis).Some? && Ensuring(e, r).Kept?
    ensures EnsuredSteps(e, r).Some? && step in EnsuredSteps(e, r).value
    ensures AppliesAt(step, TargetPath(r.diagnosis).value)
  {
    EnsuredShape(e, r);
    if Installs(e, r) {
      InstalledTarget(e, r);
      step := Installed(e, r);
      assert EnsuredSteps(e, r).value[DerivedStepIndex(AfterSafety(e, r)).value] == step;
    } else {
      step := AlreadyApplying(e, r);
    }
  }

  lemma AlreadyApplying(e: Env, r: Request) returns (step: Step)
    requires LawfulEnv(e) && r.planned != [] && TargetPath(r.diagnosis).Some? && Ensuring(e, r).Kept? && !Installs(e, r)
    ensures step in AfterSafety(e, r) && AppliesAt(step, TargetPath(r.diagnosis).value)
  {
    var target := TargetPath(r.diagnosis).value;
    assert |AfterSafety(e, r)| == |r.planned|;
    assert Applies(AfterSafety(e, r), BackCompat(MapSteps(e, r.planned, r.persona, r.workload)), target);
    step :| step in AfterSafety(e, r) && AppliesAt(step, target);
  }

  lemma {:induction false} UsefulStepIsKept(steps: seq<Step>, step: Step) returns (i: nat)
    requires step in steps && !IsNoise(step)
    ensures i < |DropPatchless(steps)| && SameWrite(DropPatchless(steps)[i], step)
  {
    var kept := WithoutNoise(steps);
    if |kept| == |steps| {
      i :| 0 <= i < |steps| && steps[i] == step;
    } else {
      i :| 0 <= i < |kept| && kept[i] == step;
      assert Renumbered(kept)[i] == kept[i].(order := i + 1);
    }
  }

  // ---------------------------------------------------------------------------
  // The assertion before the Create
  // ---------------------------------------------------------------------------

  /** A leaf at a resource path survives the scrub. */
  lemma ResourceLeafStays(e: Env, step: Step, refused: seq<Redaction.RefusedValue>, p: Path)
    requires step.patch.Some? && Spares(e, step.patch.value, refused)
    requires IsResourcePath(p) && LeafAt(step.patch.value, p).Some?
    ensures var out := Scrubbed(e, step, refused);
      out.patch.Some? && LeafAt(out.patch.value, p).Some? && out.auto == step.auto && out.stype == step.stype
  {
    var paths := RefusedPaths(e, step.patch.value, refused);
    RefusedPathsAreHeld(e, step.patch.value, refused);
    PrunedLeaves(step.patch.value, paths, p);
  }

  lemma CreatedUnlessAssertionFires(e: Env, r: Request)
    requires LawfulEnv(e) && r.planned != [] && EnsuredSteps(e, r).Some?
    ensures Built(e, r).Created? <==>
            (r.clear && r.createLands && DropPatchless(EnsuredSteps(e, r).value) != [] &&
             AssertsAppliable(Scrubs(e, BeforeScrubs(e, r)), r.diagnosis, Ensuring(e, r).RuleEngineDeclined?))
  {
    BuiltIsFinished(e, r);
    FinishedIs(e, r, EnsuredSteps(e, r).value, Ensuring(e, r).RuleEngineDeclined?);
  }

  lemma BuiltIsFinished(e: Env, r: Request)
    requires LawfulEnv(e) && r.planned != [] && EnsuredSteps(e, r).Some?
    ensures Built(e, r) ==
            if r.clear then Finished(e, r, EnsuredSteps(e, r).value, Ensuring(e, r).RuleEngineDeclined?) else Skipped
  {
  }

  lemma AssertionHolds(e: Env, r: Request)
    requires LawfulEnv(e) && r.planned != [] && EnsuredSteps(e, r).Some? && !DerivedIsRefused(e, r)
    ensures AssertsAppliable(Scrubs(e, BeforeScrubs(e, r)), r.diagnosis, Ensuring(e, r).RuleEngineDeclined?)
  {
    if Ensuring(e, r).Kept? && TargetPath(r.diagnosis).Some? {
      var step := ApplyingStep(e, r);
      StillApplies(e, r, step);
    }
  }

  lemma StillApplies(e: Env, r: Request, step: Step)
    requires LawfulEnv(e) && EnsuredSteps(e, r).Some? && TargetPath(r.diagnosis).Some? && !DerivedIsRefused(e, r)
    requires step in EnsuredSteps(e, r).value && AppliesAt(step, TargetPath(r.diagnosis).value)
    ensures Applies(Scrubs(e, BeforeScrubs(e, r)).steps, Scrubs(e, BeforeScrubs(e, r)).detail,
                    TargetPath(r.diagnosis).value)
  {
    var target, before := TargetPath(r.diagnosis).value, BeforeScrubs(e, r);
    TargetIsResource(r.diagnosis);
    var i := ApplyingStepSettles(e, r, step);
    ScrubSparesResources(e, r, before.steps[i]);
    StillAppliesAt(e, before, i, target);
  }

  lemma ApplyingStepSettles(e: Env, r: Request, step: Step) returns (i: nat)
    requires LawfulEnv(e) && EnsuredSteps(e, r).Some? && TargetPath(r.diagnosis).Some?
    requires step in EnsuredSteps(e, r).value && AppliesAt(step, TargetPath(r.diagnosis).value)
    ensures i < |BeforeScrubs(e, r).steps| && BeforeScrubs(e, r).steps[i] in BeforeScrubs(e, r).steps
    ensures AppliesAt(BeforeScrubs(e, r).steps[i], TargetPath(r.diagnosis).value)
  {
    i := UsefulStepIsKept(EnsuredSteps(e, r).value, step);
    BeforeScrubsLength(e, r);
    BeforeScrubsStep(e, r, i);
  }

  lemma StillAppliesAt(e: Env, before: Contents, i: nat, target: Path)
    requires i < |before.steps| && AppliesAt(before.steps[i], target) && IsResourcePath(target)
    requires Spares(e, before.steps[i].patch.value, RefusedValues(e, before.steps))
    ensures Applies(Scrubs(e, before).steps, Scrubs(e, before).detail, target)
  {
    ScrubsStep(e, before, i);
    ResourceLeafStays(e, before.steps[i], RefusedValues(e, before.steps), target);
    var after := Scrubs(e, before).steps[i];
    assert AppliesAt(after, target);
    assert after in Scrubs(e, before).steps;
  }

  /** What a created plan with a derived patch still applies is that patch. */
  lemma CreatedTarget(e: Env, r: Request) returns (i: nat)
    requires LawfulEnv(e) && Built(e, r).Created? && Installs(e, r)
    ensures i < |Built(e, r).contents.steps| && Built(e, r).contents.steps[i].patch.Some?
    ensures IsDerived(e, r, Built(e, r).contents.steps[i].patch.value, TargetPath(r.diagnosis).value)
  {
    var target := TargetPath(r.diagnosis).value;
    CreatedApplies(e, r);
    var c := Built(e, r).contents;
    i :| 0 <= i < |c.steps| && AppliesAt(c.steps[i], target);
    CreatedStep(e, r, i);
    OnlyDerivedAtTarget(e, r);
    ScrubbedTarget(e, r, BeforeScrubs(e, r).steps[i], RefusedValues(e, BeforeScrubs(e, r).steps));
  }

  lemma CreatedApplies(e: Env, r: Request)
    requires LawfulEnv(e) && Built(e, r).Created? && Installs(e, r)
    ensures exists i :: 0 <= i < |Built(e, r).contents.steps| &&
                        AppliesAt(Built(e, r).contents.steps[i], TargetPath(r.diagnosis).value)
  {
    EnsuredShape(e, r);
    CreatedAsserts(e, r);
    SomeStepApplies(Built(e, r).contents, r.diagnosis);
  }

  lemma CreatedAsserts(e: Env, r: Request)
    requires LawfulEnv(e) && Built(e, r).Created?
    ensures AssertsAppliable(Built(e, r).contents, r.diagnosis, Ensuring(e, r).RuleEngineDeclined?)
    ensures Built(e, r).contents.steps != []
  {
    CreatedUnlessAssertionFires(e, r);
    CreatedIsScrubbed(e, r);
    BeforeScrubsLength(e, r);
    ScrubsLength(e, BeforeScrubs(e, r));
  }

  lemma SomeStepApplies(c: Contents, d: Diagnosis)
    requires AssertsAppliable(c, d, false) && TargetPath(d).Some? && c.steps != []
    ensures exists i :: 0 <= i < |c.steps| && AppliesAt(c.steps[i], TargetPath(d).value)
  {
  }

  lemma ScrubbedTarget(e: Env, r: Request, step: Step, refused: seq<Redaction.RefusedValue>)
    requires LawfulEnv(e) && Installs(e, r) && DerivedAtTarget(e, r, step)
    ensures DerivedAtTarget(e, r, Scrubbed(e, step, refused))
  {
    var target, out := TargetPath(r.diagnosis).value, Scrubbed(e, step, refused);
    if out.patch.Some? && LeafAt(out.patch.value, target).Some? {
      WithoutRefusedLeaf(e, step.patch.value, refused, target);
    }
  }

  /** A refusal recorded on any ensured step reaches the scrub. */
  lemma RefusalReachesScrubs(e: Env, r: Request, t: Step, s: Safety)
    requires LawfulEnv(e) && EnsuredSteps(e, r).Some?
    requires t in EnsuredSteps(e, r).value && s in t.safety && IsRefusal(s)
    ensures RefusedValueOf(e, s) in RefusedValues(e, BeforeScrubs(e, r).steps)
  {
    var i := UsefulStepIsKept(EnsuredSteps(e, r).value, t);
    BeforeScrubsLength(e, r);
    BeforeScrubsStep(e, r, i);
    var before := BeforeScrubs(e, r).steps;
    assert before[i] in before;
    SafetyOfSteps(before, s);
    RefusalIsCollected(e, AllSafety(before), {}, s);
  }

  lemma RefusedDerivedIsNotCreated(e: Env, r: Request)
    requires LawfulEnv(e) && EnsuredSteps(e, r).Some? && DerivedIsRefused(e, r)
    ensures !Built(e, r).Created?
  {
    var t, s :| t in EnsuredSteps(e, r).value && s in t.safety && RefusesDerived(e, r, s);
    RefusalReachesScrubs(e, r, t, s);
    if Built(e, r).Created? {
      var i := CreatedHoldsDerived(e, r, s);
      CreatedHoldsNone(e, r, i, RefusedValueOf(e, s));
      assert false;
    }
  }

  lemma CreatedHoldsDerived(e: Env, r: Request, s: Safety) returns (i: nat)
    requires LawfulEnv(e) && Built(e, r).Created? && Installs(e, r) && RefusesDerived(e, r, s)
    ensures i < |Built(e, r).contents.steps| && Built(e, r).contents.steps[i].patch.Some?
    ensures HoldsRefused(e, Built(e, r).contents.steps[i].patch.value, RefusedValueOf(e, s))
  {
    i := CreatedTarget(e, r);
    ValueIsHeld(e, Built(e, r).contents.steps[i].patch.value, ChangeOf(e, r).value, s);
  }

  lemma ValueIsHeld(e: Env, f: Fields, value: string, s: Safety)
    requires LeafAt(f, s.field) == Some(Str(value)) && SameValue(e, value, RefusedValueOf(e, s))
    ensures HoldsRefused(e, f, RefusedValueOf(e, s))
  {
  }

  lemma CreatedHoldsNone(e: Env, r: Request, i: nat, bad: Redaction.RefusedValue)
    requires LawfulEnv(e) && Built(e, r).Created? && i < |Built(e, r).contents.steps| && EnsuredSteps(e, r).Some?
    requires bad in RefusedValues(e, BeforeScrubs(e, r).steps) && Built(e, r).contents.steps[i].patch.Some?
    ensures !HoldsRefused(e, Built(e, r).contents.steps[i].patch.value, bad)
  {
    CreatedStep(e, r, i);
    ScrubbedIsClean(e, BeforeScrubs(e, r).steps[i], RefusedValues(e, BeforeScrubs(e, r).steps), bad);
  }

  /** Main result: a plan is created exactly when it had steps, the persona-wide
      guardrails were clear, ensureAppliableResourcePlan let it through, a step was
      kept, no guardrail had refused the value that was derived, and the Create
      went through. */
  lemma CreatedIff(e: Env, r: Request)
    requires LawfulEnv(e)
    ensures Built(e, r).Created? <==>
            (r.planned != [] && r.clear && EnsuredSteps(e, r).Some? && DropPatchless(EnsuredSteps(e, r).value) != [] &&
             !DerivedIsRefused(e, r) && r.createLands)
  {
    if r.planned != [] && EnsuredSteps(e, r).Some? {
      if DerivedIsRefused(e, r) {
        RefusedDerivedIsNotCreated(e, r);
      } else {
        AssertionHolds(e, r);
        CreatedUnlessAssertionFires(e, r);
      }
    }
  }

  lemma CreatedIsNotRefused(e: Env, r: Request)
    requires LawfulEnv(e) && Built(e, r).Created?
    ensures EnsuredSteps(e, r).Some? && !DerivedIsRefused(e, r)
  {
    CreatedIff(e, r);
  }

  // ---------------------------------------------------------------------------
  // The cap
  // ---------------------------------------------------------------------------

  /** The baseline the derivation scales fits its multiplier, where there is one
      to be capped against. */
  predicate CapKept(e: Env, r: Request)
    requires LawfulEnv(e)
  {
    Installs(e, r) ==>
      var dim := TargetOf(r.diagnosis);
      var b := Base(e, r, LimitPath(dim));
      b.Some? && b.value > 0.0 ==> FitsCap(b.value, IncreaseMultiplier(dim, r.diagnosis.critical), dim)
  }

  lemma DerivedIsOutsideIff(e: Env, r: Request)
    requires LawfulEnv(e) && Installs(e, r)
    requires Base(e, r, TargetPath(r.diagnosis).value).Some? && Base(e, r, TargetPath(r.diagnosis).value).value > 0.0
    ensures TargetPath(r.diagnosis).value == LimitPath(TargetOf(r.diagnosis))
    ensures e.q.parse(ChangeOf(e, r).value).Some?
    ensures OutsideCap(Base(e, r, TargetPath(r.diagnosis).value).value, e.q.parse(ChangeOf(e, r).value).value)
            <==> !CapKept(e, r)
  {
    var dim := TargetDimension(e.q, r.diagnosis, r.persona, r.workload);
    BaseOfSized(e, r, dim);
    DerivedFitsIff(e.q, Base(e, r, LimitPath(dim)).value, r.diagnosis.critical, dim);
  }

  lemma CheckedIsWithin(e: Env, r: Request, f: Fields)
    requires LawfulEnv(e) && CapKept(e, r) && Checked(e, r, f)
    ensures Within(e, r, f)
  {
    forall p | AmountAt(e, f, p).Some? && Base(e, r, p).Some? && Base(e, r, p).value > 0.0
      ensures !OutsideCap(Base(e, r, p).value, AmountAt(e, f, p).value)
    {
      if IsDerived(e, r, f, p) { DerivedIsOutsideIff(e, r); }
    }
  }

  /** Main result: in every created plan a step applies automatically exactly when
      it carries a patch, only persona updates carry one, and every parsable value
      of every step and of the Action the executor writes is within half and twice
      of its base; the steps' values exactly when the derivation, if there was
      one, scaled a baseline that fits its multiplier. */
  lemma CreatedPlanIsCapped(e: Env, r: Request)
    requires LawfulEnv(e) && Built(e, r).Created?
    ensures forall s | s in Built(e, r).contents.steps :: Coherent(s)
    ensures CapKept(e, r) <==> forall s | s in Built(e, r).contents.steps :: StepWithin(e, r, s)
    ensures CapKept(e, r) && Built(e, r).contents.detail.patch.Some? ==>
      Within(e, r, Built(e, r).contents.detail.patch.value)
  {
    CreatedIsCoherent(e, r);
    if CapKept(e, r) {
      CappedSteps(e, r);
      CappedAction(e, r);
    } else {
      UnfitBreaksTheCap(e, r);
    }
  }

  lemma CreatedIsCoherent(e: Env, r: Request)
    requires LawfulEnv(e) && Built(e, r).Created?
    ensures forall s | s in Built(e, r).contents.steps :: Coherent(s)
  {
    CreatedPlanIsChecked(e, r);
  }

  lemma CappedAction(e: Env, r: Request)
    requires LawfulEnv(e) && Built(e, r).Created? && CapKept(e, r)
    ensures Built(e, r).contents.detail.patch.Some? ==> Within(e, r, Built(e, r).contents.detail.patch.value)
  {
    if Built(e, r).contents.detail.patch.Some? {
      CreatedActionIsChecked(e, r);
      CheckedIsWithin(e, r, Built(e, r).contents.detail.patch.value);
    }
  }

  lemma CappedSteps(e: Env, r: Request)
    requires LawfulEnv(e) && Built(e, r).Created? && CapKept(e, r)
    ensures forall s | s in Built(e, r).contents.steps :: StepWithin(e, r, s)
  {
    CreatedPlanIsChecked(e, r);
    forall s | CheckedStep(e, r, s) ensures StepWithin(e, r, s) {
      CappedStep(e, r, s);
    }
  }

  lemma CappedStep(e: Env, r: Request, s: Step)
    requires LawfulEnv(e) && CapKept(e, r) && CheckedStep(e, r, s)
    ensures StepWithin(e, r, s)
  {
    if s.patch.Some? { CheckedIsWithin(e, r, s.patch.value); }
  }

  lemma UnfitBreaksTheCap(e: Env, r: Request)
    requires LawfulEnv(e) && Built(e, r).Created? && !CapKept(e, r)
    ensures exists s | s in Built(e, r).contents.steps :: !StepWithin(e, r, s)
  {
    var i := CreatedTarget(e, r);
    UnfitLeaf(e, r, Built(e, r).contents.steps[i].patch.value);
    assert Built(e, r).contents.steps[i] in Built(e, r).contents.steps;
  }

  lemma UnfitLeaf(e: Env, r: Request, f: Fields)
    requires LawfulEnv(e) && !CapKept(e, r) && IsDerived(e, r, f, TargetPath(r.diagnosis).value)
    ensures !Within(e, r, f)
  {
    var dim := TargetDimension(e.q, r.diagnosis, r.persona, r.workload);
    DerivedIsOutsideIff(e, r);
    AmountOfText(e, f, TargetPath(r.diagnosis).value, ChangeOf(e, r).value);
  }

  lemma AmountOfText(e: Env, f: Fields, p: Path, value: string)
    requires LeafAt(f, p) == Some(Str(value))
    ensures AmountAt(e, f, p) == e.q.parse(value)
  {
  }

  /** The Action before the scrubs is some step's write. */
  lemma {:induction false} ActionIsAStep(steps: seq<Step>)
    ensures BackCompat(steps).patch.Some? ==>
      exists s | s in steps ::
        IsApplied(s) && s.patch == BackCompat(steps).patch && s.prePatch == BackCompat(steps).prePatch
    decreases |steps|
  {
    if steps != [] {
      ActionIsAStep(steps[1..]);
      assert steps[0] in steps && forall s | s in steps[1..] :: s in steps;
    }
  }

  lemma BeforeScrubsAction(e: Env, r: Request) returns (step: Step)
    requires LawfulEnv(e) && EnsuredSteps(e, r).Some? && BeforeScrubs(e, r).detail.patch.Some?
    ensures step in BeforeScrubs(e, r).steps
    ensures step.patch == BeforeScrubs(e, r).detail.patch && step.prePatch == BeforeScrubs(e, r).detail.prePatch
  {
    var kept := DropPatchless(EnsuredSteps(e, r).value);
    BeforeScrubsLength(e, r);
    forall i | 0 <= i < |kept| ensures SameWrite(BeforeScrubs(e, r).steps[i], kept[i]) {
      BeforeScrubsStep(e, r, i);
    }
    step := ActionOf(kept, BeforeScrubs(e, r).steps);
  }

  lemma ActionOf(kept: seq<Step>, before: seq<Step>) returns (step: Step)
    requires |before| == |kept| && forall i | 0 <= i < |kept| :: SameWrite(before[i], kept[i])
    requires BackCompat(kept).patch.Some?
    ensures step in before && step.patch == BackCompat(kept).patch && step.prePatch == BackCompat(kept).prePatch
  {
    ActionIsAStep(kept);
    var s :| s in kept && s.patch == BackCompat(kept).patch && s.prePatch == BackCompat(kept).prePatch;
    var i :| 0 <= i < |kept| && kept[i] == s;
    step := before[i];
  }

  lemma CreatedActionIsChecked(e: Env, r: Request)
    requires LawfulEnv(e) && Built(e, r).Created? && Built(e, r).contents.detail.patch.Some?
    ensures Checked(e, r, Built(e, r).contents.detail.patch.value)
  {
    CreatedDetail(e, r);
    BeforeScrubsIsChecked(e, r);
    var step := BeforeScrubsAction(e, r);
    WithoutRefusedIsChecked(e, r, step.patch.value, RefusedValues(e, BeforeScrubs(e, r).steps));
  }

  // ---------------------------------------------------------------------------
  // Baselines that fit
  // ---------------------------------------------------------------------------

  /** A value within the cap is never among the refused ones. */
  lemma FittingIsNotRefused(e: Env, r: Request)
    requires LawfulEnv(e) && EnsuredSteps(e, r).Some? && CapKept(e, r)
    ensures !DerivedIsRefused(e, r)
  {
    BeforeScrubsIsSound(e, r);
    forall t, s | Installs(e, r) && t in EnsuredSteps(e, r).value && s in t.safety ensures !RefusesDerived(e, r, s) {
      FittingIsNotHeld(e, r, s);
    }
  }

  lemma FittingIsNotHeld(e: Env, r: Request, s: Safety)
    requires LawfulEnv(e) && Installs(e, r) && CapKept(e, r) && Sound(e, r, s)
    ensures !RefusesDerived(e, r, s)
  {
    TargetIsLive(e, r);
    var target := TargetPath(r.diagnosis).value;
    if s.field == target && IsRefusal(s) {
      LiveRefusalIsOutside(e, r, s);
      DerivedIsOutsideIff(e, r);
      OutsideIsAnother(e, Base(e, r, target).value, ChangeOf(e, r).value, s);
    }
  }

  lemma LiveRefusalIsOutside(e: Env, r: Request, s: Safety)
    requires Sound(e, r, s) && IsRefusal(s) && IsResourcePath(s.field) && IsLive(r, s.field)
    ensures Base(e, r, s.field).Some? && Base(e, r, s.field).value > 0.0 && e.q.parse(s.requested).Some?
    ensures OutsideCap(Base(e, r, s.field).value, e.q.parse(s.requested).value)
  {
  }

  lemma OutsideIsAnother(e: Env, b: real, value: string, s: Safety)
    requires e.q.parse(s.requested).Some? && OutsideCap(b, e.q.parse(s.requested).value)
    requires e.q.parse(value).Some? && !OutsideCap(b, e.q.parse(value).value)
    ensures !SameValue(e, value, RefusedValueOf(e, s))
  {
  }

  /** So when the baseline fits its multiplier the assertion never fires: a plan
      is created exactly when it had steps, was clear, was not refused and kept
      one, and the Create went through. */
  lemma FinalAssertionNeverFires(e: Env, r: Request)
    requires LawfulEnv(e) && CapKept(e, r)
    ensures Built(e, r).Created? <==>
            (r.planned != [] && r.clear && EnsuredSteps(e, r).Some? && DropPatchless(EnsuredSteps(e, r).value) != [] &&
             r.createLands)
  {
    CreatedIff(e, r);
    if EnsuredSteps(e, r).Some? { FittingIsNotRefused(e, r); }
  }
}
