/** The plan of record and the legacy single Action derived from it: when they
    agree at Create. */
module PlanCoherence {
  import opened Json
  import opened Prune
  import opened Sizing
  import opened Plan
  import opened PlanTheorems
  import opened PlanScrubs
  import opened PlanCreation
  import Redaction

  // ---------------------------------------------------------------------------
  // Plan and Action
  // ---------------------------------------------------------------------------

  /** The Action is the one the steps call for. */
  ghost predicate Agrees(c: Contents)
  {
    c.detail == BackCompat(c.steps)
  }

  lemma {:induction false} BackCompatOf(a: seq<Step>, b: seq<Step>)
    requires |a| == |b| && forall i | 0 <= i < |a| :: SameWrite(a[i], b[i])
    ensures BackCompat(a) == BackCompat(b)
    decreases |a|
  {
    if a != [] { BackCompatOf(a[1..], b[1..]); }
  }

  /** The first step that applies, if any. */
  function FirstApplied(steps: seq<Step>): (r: Option<nat>)
    ensures r.Some? ==> r.value < |steps| && IsApplied(steps[r.value]) &&
                        forall j | 0 <= j < r.value :: !IsApplied(steps[j])
    ensures r.None? <==> forall s | s in steps :: !IsApplied(s)
    decreases |steps|
  {
    if steps == [] then None
    else if IsApplied(steps[0]) then Some(0)
    else
      assert steps == [steps[0]] + steps[1..];
      var rest := FirstApplied(steps[1..]);
      if rest.None? then None else Some(rest.value + 1)
  }

  lemma {:induction false} BackCompatIsFirst(steps: seq<Step>)
    ensures BackCompat(steps) ==
            match FirstApplied(steps)
            case Some(i) => Detail(UpdatePersona, steps[i].patch, steps[i].prePatch)
            case None => ADVISORY
    decreases |steps|
  {
    if steps != [] && !IsApplied(steps[0]) { BackCompatIsFirst(steps[1..]); }
  }

  /** Every value the patch sets is refused, and it sets one. */
  ghost predicate AllRefused(e: Env, patch: Fields, refused: seq<Redaction.RefusedValue>)
  {
    && patch != map[] && NoEmptyObjects(patch)
    && forall p | LeafAt(patch, p).Some? :: exists bad | bad in refused :: bad.field == p && HoldsRefused(e, patch, bad)
  }

  /** The scrub leaves nothing of a patch exactly when all of it is refused. */
  lemma EmptiedIff(e: Env, patch: Fields, refused: seq<Redaction.RefusedValue>)
    ensures WithoutRefused(e, Some(patch), refused).None? <==> AllRefused(e, patch, refused)
  {
    var paths := RefusedPaths(e, patch, refused);
    RefusedPathsAreHeld(e, patch, refused);
    DeletedAllIsEmptyIff(patch, paths);
    forall p ensures p in paths <==> exists bad | bad in refused :: bad.field == p && HoldsRefused(e, patch, bad) {
    }
    if paths != [] {
      assert paths[0] in paths;
    }
    if AllRefused(e, patch, refused) {
      var p := LeafOrEmpty(patch);
      assert p in paths;
    }
  }

  /** Of the steps that apply, the first has all its values refused and another
      has not. */
  ghost predicate LosesItsStep(e: Env, steps: seq<Step>, refused: seq<Redaction.RefusedValue>)
  {
    && FirstApplied(steps).Some?
    && steps[FirstApplied(steps).value].patch.Some?
    && AllRefused(e, steps[FirstApplied(steps).value].patch.value, refused)
    && exists s | s in steps :: IsApplied(s) && s.patch.Some? && !AllRefused(e, s.patch.value, refused)
  }

  /** The scrub keeps plan and Action together exactly when the Action's step is
      not the one that is refused whole, or no other is left. */
  lemma ScrubKeepsAgreement(e: Env, before: seq<Step>, after: seq<Step>, refused: seq<Redaction.RefusedValue>)
    requires forall s | s in before :: Coherent(s)
    requires |after| == |before|
    requires forall i | 0 <= i < |before| :: SameWrite(after[i], Scrubbed(e, before[i], refused))
    ensures ScrubbedDetail(e, BackCompat(before), refused) == BackCompat(after) <==> !LosesItsStep(e, before, refused)
  {
    forall i | 0 <= i < |before| ensures Thinned(e, before[i], after[i], refused) {
      assert before[i] in before;
      ScrubbedIsThinned(e, before[i], after[i], refused);
    }
    AppliedIndices(e, before, after, refused);
    ThinnedAction(e, before, after, refused);
    ScrubbedAction(e, before, refused);
    LosesIffEmptied(e, before, refused);
  }

  lemma LosesIffEmptied(e: Env, steps: seq<Step>, refused: seq<Redaction.RefusedValue>)
    requires forall s | s in steps :: Coherent(s)
    ensures LosesItsStep(e, steps, refused) <==>
      (FirstApplied(steps).Some? && WithoutRefused(e, steps[FirstApplied(steps).value].patch, refused).None? &&
       exists s | s in steps :: IsApplied(Scrubbed(e, s, refused)))
  {
    forall s | s in steps
      ensures IsApplied(Scrubbed(e, s, refused)) <==>
              IsApplied(s) && s.patch.Some? && !AllRefused(e, s.patch.value, refused)
    {
      if s.patch.Some? { EmptiedIff(e, s.patch.value, refused); }
    }
    var first := FirstApplied(steps);
    if first.Some? {
      assert steps[first.value] in steps;
      EmptiedIff(e, steps[first.value].patch.value, refused);
    }
  }

  lemma ScrubbedIsThinned(e: Env, a: Step, b: Step, refused: seq<Redaction.RefusedValue>)
    requires Coherent(a) && SameWrite(b, Scrubbed(e, a, refused))
    ensures Thinned(e, a, b, refused)
  {
  }

  lemma ScrubbedAction(e: Env, steps: seq<Step>, refused: seq<Redaction.RefusedValue>)
    ensures var first := FirstApplied(steps);
      ScrubbedDetail(e, BackCompat(steps), refused) ==
      if first.None? then ADVISORY
      else
        var patch := WithoutRefused(e, steps[first.value].patch, refused);
        if patch.None? && steps[first.value].patch.Some? then ADVISORY
        else Detail(UpdatePersona, patch, steps[first.value].prePatch)
  {
    BackCompatIsFirst(steps);
  }

  /** A step and what the scrub leaves of it. */
  ghost predicate Thinned(e: Env, a: Step, b: Step, refused: seq<Redaction.RefusedValue>)
  {
    && (IsApplied(a) <==> a.patch.Some?) && (IsApplied(b) <==> b.patch.Some?)
    && (IsApplied(b) <==> IsApplied(Scrubbed(e, a, refused)))
    && b.patch == WithoutRefused(e, a.patch, refused) && b.prePatch == a.prePatch
  }

  lemma ThinnedAction(e: Env, before: seq<Step>, after: seq<Step>, refused: seq<Redaction.RefusedValue>)
    requires |after| == |before| && forall i | 0 <= i < |before| :: Thinned(e, before[i], after[i], refused)
    ensures FirstApplied(before).None? ==> FirstApplied(after).None?
    ensures var first := FirstApplied(before);
      first.Some? && after[first.value].patch.Some? ==> FirstApplied(after) == first
    ensures BackCompat(after) == ADVISORY <==> FirstApplied(after).None?
    ensures FirstApplied(after).Some? ==>
              var k := FirstApplied(after).value;
              BackCompat(after) == Detail(UpdatePersona, after[k].patch, before[k].prePatch)
  {
    BackCompatIsFirst(after);
    forall i | 0 <= i < |after|
      ensures IsApplied(after[i]) ==> IsApplied(before[i]) && before[i] in before && after[i] in after
    {
    }
  }

  lemma ScrubbedApplies(e: Env, step: Step, refused: seq<Redaction.RefusedValue>)
    requires Coherent(step)
    ensures var out := Scrubbed(e, step, refused);
      && (IsApplied(step) <==> step.patch.Some?) && (IsApplied(out) <==> out.patch.Some?)
      && (out.patch.Some? ==> step.patch.Some?)
  {
  }

  lemma AppliedIndices(e: Env, before: seq<Step>, after: seq<Step>, refused: seq<Redaction.RefusedValue>)
    requires |after| == |before|
    requires forall i | 0 <= i < |before| :: Thinned(e, before[i], after[i], refused)
    ensures FirstApplied(after).Some? <==> exists s | s in before :: IsApplied(Scrubbed(e, s, refused))
  {
    if FirstApplied(after).Some? {
      assert before[FirstApplied(after).value] in before;
    }
    if s :| s in before && IsApplied(Scrubbed(e, s, refused)) {
      var i :| 0 <= i < |before| && before[i] == s;
      assert after[i] in after;
    }
  }

  /** Main result: the created Action is the one its steps call for, exactly when
      the guardrails did not refuse, on other steps, all the first applied step
      sets, while leaving another step something. */
  lemma CreatedPlanAgrees(e: Env, r: Request)
    requires LawfulEnv(e) && Built(e, r).Created?
    ensures EnsuredSteps(e, r).Some?
    ensures var kept := DropPatchless(EnsuredSteps(e, r).value);
      Agrees(Built(e, r).contents) <==> !LosesItsStep(e, kept, RefusedValues(e, kept))
  {
    CreatedIsScrubbed(e, r);
    KeptEntersScrubs(e, r);
    KeptIsCoherent(e, r);
    AgreementOfKept(e, DropPatchless(EnsuredSteps(e, r).value), BeforeScrubs(e, r));
  }

  lemma KeptEntersScrubs(e: Env, r: Request)
    requires LawfulEnv(e) && EnsuredSteps(e, r).Some?
    ensures var kept := DropPatchless(EnsuredSteps(e, r).value);
      && |BeforeScrubs(e, r).steps| == |kept| && BeforeScrubs(e, r).detail == BackCompat(kept)
      && forall i | 0 <= i < |kept| :: SameWrite(BeforeScrubs(e, r).steps[i], kept[i])
  {
    BeforeScrubsLength(e, r);
    forall i | 0 <= i < |DropPatchless(EnsuredSteps(e, r).value)|
      ensures SameWrite(BeforeScrubs(e, r).steps[i], DropPatchless(EnsuredSteps(e, r).value)[i])
    {
      BeforeScrubsStep(e, r, i);
    }
  }

  lemma KeptIsCoherent(e: Env, r: Request)
    requires LawfulEnv(e) && EnsuredSteps(e, r).Some?
    ensures forall s | s in DropPatchless(EnsuredSteps(e, r).value) :: Coherent(s)
  {
    EnsuredAreCoherent(e, r);
    forall s | s in DropPatchless(EnsuredSteps(e, r).value) ensures Coherent(s) {
      var origin := DroppedSteps(EnsuredSteps(e, r).value, s);
    }
  }

  /** The same of any contents whose steps write what the kept steps write. */
  lemma AgreementOfKept(e: Env, kept: seq<Step>, before: Contents)
    requires forall s | s in kept :: Coherent(s)
    requires |before.steps| == |kept| && forall i | 0 <= i < |kept| :: SameWrite(before.steps[i], kept[i])
    requires before.detail == BackCompat(kept)
    ensures Agrees(Scrubs(e, before)) <==> !LosesItsStep(e, kept, RefusedValues(e, kept))
  {
    SameSafety(before.steps, kept);
    AllScrubbedAsKept(e, kept, before);
    ScrubsDetail(e, before);
    AgreementOfScrubbed(e, kept, Scrubs(e, before), RefusedValues(e, kept));
  }

  lemma AgreementOfScrubbed(e: Env, kept: seq<Step>, after: Contents, refused: seq<Redaction.RefusedValue>)
    requires forall s | s in kept :: Coherent(s)
    requires |after.steps| == |kept|
    requires forall i | 0 <= i < |kept| :: SameWrite(after.steps[i], Scrubbed(e, kept[i], refused))
    requires after.detail == ScrubbedDetail(e, BackCompat(kept), refused)
    ensures Agrees(after) <==> !LosesItsStep(e, kept, refused)
  {
    ScrubKeepsAgreement(e, kept, after.steps, refused);
  }

  lemma AllScrubbedAsKept(e: Env, kept: seq<Step>, before: Contents)
    requires |before.steps| == |kept| && forall i | 0 <= i < |kept| :: SameWrite(before.steps[i], kept[i])
    requires RefusedValues(e, before.steps) == RefusedValues(e, kept)
    ensures |Scrubs(e, before).steps| == |kept|
    ensures forall i | 0 <= i < |kept| ::
      SameWrite(Scrubs(e, before).steps[i], Scrubbed(e, kept[i], RefusedValues(e, kept)))
  {
    ScrubsLength(e, before);
    forall i | 0 <= i < |kept|
      ensures SameWrite(Scrubs(e, before).steps[i], Scrubbed(e, kept[i], RefusedValues(e, kept)))
    {
      ScrubbedAsKept(e, kept, before, i);
    }
  }

  lemma ScrubbedAsKept(e: Env, kept: seq<Step>, before: Contents, i: nat)
    requires |before.steps| == |kept| && i < |kept| && SameWrite(before.steps[i], kept[i])
    requires RefusedValues(e, before.steps) == RefusedValues(e, kept)
    ensures |Scrubs(e, before).steps| == |kept|
    ensures SameWrite(Scrubs(e, before).steps[i], Scrubbed(e, kept[i], RefusedValues(e, kept)))
  {
    ScrubsLength(e, before);
    ScrubsStep(e, before, i);
    SameWriteScrubs(e, before.steps[i], kept[i], RefusedValues(e, kept));
    if RefusedValues(e, kept) == [] { NothingRefused(e, kept[i]); }
  }

  lemma SameWriteScrubs(e: Env, a: Step, b: Step, refused: seq<Redaction.RefusedValue>)
    requires SameWrite(a, b)
    ensures SameWrite(Scrubbed(e, a, refused), Scrubbed(e, b, refused))
  {
  }

  lemma NothingRefused(e: Env, step: Step)
    ensures SameWrite(Scrubbed(e, step, []), step)
  {
  }

  /** A plan that parts from its Action: the Action is advisory although a step of
      the plan still applies. */
  lemma PartedPlan(e: Env, r: Request)
    requires LawfulEnv(e) && Built(e, r).Created? && EnsuredSteps(e, r).Some?
    requires var kept := DropPatchless(EnsuredSteps(e, r).value); LosesItsStep(e, kept, RefusedValues(e, kept))
    ensures Built(e, r).contents.detail == ADVISORY
    ensures HasAutoApplicableChange(Built(e, r).contents.steps, Built(e, r).contents.detail)
  {
    CreatedIsScrubbed(e, r);
    KeptEntersScrubs(e, r);
    KeptIsCoherent(e, r);
    PartedContents(e, DropPatchless(EnsuredSteps(e, r).value), BeforeScrubs(e, r));
  }

  lemma PartedContents(e: Env, kept: seq<Step>, before: Contents)
    requires forall s | s in kept :: Coherent(s)
    requires |before.steps| == |kept| && forall i | 0 <= i < |kept| :: SameWrite(before.steps[i], kept[i])
    requires before.detail == BackCompat(kept) && LosesItsStep(e, kept, RefusedValues(e, kept))
    ensures Scrubs(e, before).detail == ADVISORY
    ensures HasAutoApplicableChange(Scrubs(e, before).steps, Scrubs(e, before).detail)
  {
    SameSafety(before.steps, kept);
    AllScrubbedAsKept(e, kept, before);
    ScrubsDetail(e, before);
    PartedScrubbed(e, kept, Scrubs(e, before), RefusedValues(e, kept));
  }

  lemma PartedScrubbed(e: Env, kept: seq<Step>, after: Contents, refused: seq<Redaction.RefusedValue>)
    requires forall s | s in kept :: Coherent(s)
    requires |after.steps| == |kept|
    requires forall i | 0 <= i < |kept| :: SameWrite(after.steps[i], Scrubbed(e, kept[i], refused))
    requires after.detail == ScrubbedDetail(e, BackCompat(kept), refused) && LosesItsStep(e, kept, refused)
    ensures after.detail == ADVISORY && HasAutoApplicableChange(after.steps, after.detail)
  {
    LosesIffEmptied(e, kept, refused);
    ScrubbedAction(e, kept, refused);
    var s :| s in kept && IsApplied(Scrubbed(e, s, refused));
    var i :| 0 <= i < |kept| && kept[i] == s;
    ScrubbedApplies(e, kept[i], refused);
    assert after.steps[i] in after.steps;
  }

  // ---------------------------------------------------------------------------
  // What the executor finds
  // ---------------------------------------------------------------------------

  /** An Action the executor accepts: a persona update with patch and rollback
      state. */
  predicate Fit(d: Detail)
  {
    d.atype.UpdatePersona? && d.patch.Some? && d.prePatch.Some?
  }

  /** The first applied step, which the Action is taken from, has a rollback state. */
  predicate RollsBack(steps: seq<Step>)
  {
    FirstApplied(steps).Some? && steps[FirstApplied(steps).value].prePatch.Some?
  }

  /** Main result: the Action of a created plan that counts as applicable is one the
      executor accepts if and only if the plan did not part from it and the first
      applied step has a rollback state. */
  lemma CreatedFitIff(e: Env, r: Request)
    requires LawfulEnv(e) && Built(e, r).Created? && EnsuredSteps(e, r).Some?
    requires HasAutoApplicableChange(Built(e, r).contents.steps, Built(e, r).contents.detail)
    ensures var kept := DropPatchless(EnsuredSteps(e, r).value);
      Fit(Built(e, r).contents.detail) <==> !LosesItsStep(e, kept, RefusedValues(e, kept)) && RollsBack(kept)
  {
    CreatedIsScrubbed(e, r);
    KeptEntersScrubs(e, r);
    KeptIsCoherent(e, r);
    CreatedIsCoherent(e, r);
    FitOfKept(e, DropPatchless(EnsuredSteps(e, r).value), BeforeScrubs(e, r));
  }

  lemma FitOfKept(e: Env, kept: seq<Step>, before: Contents)
    requires forall s | s in kept :: Coherent(s)
    requires |before.steps| == |kept| && forall i | 0 <= i < |kept| :: SameWrite(before.steps[i], kept[i])
    requires before.detail == BackCompat(kept) && forall s | s in Scrubs(e, before).steps :: Coherent(s)
    requires HasAutoApplicableChange(Scrubs(e, before).steps, Scrubs(e, before).detail)
    ensures Fit(Scrubs(e, before).detail) <==> !LosesItsStep(e, kept, RefusedValues(e, kept)) && RollsBack(kept)
  {
    AgreementOfKept(e, kept, before);
    if LosesItsStep(e, kept, RefusedValues(e, kept)) {
      PartedContents(e, kept, before);
    } else {
      ScrubsDetailOnlyPrunes(e, before);
      AgreedFit(Scrubs(e, before), kept, before.detail);
    }
  }

  /** An Action with a patch belongs to a plan that counts as applicable. */
  lemma PatchedActionApplies(e: Env, r: Request)
    requires LawfulEnv(e) && Built(e, r).Created? && Built(e, r).contents.detail.patch.Some?
    ensures HasAutoApplicableChange(Built(e, r).contents.steps, Built(e, r).contents.detail)
  {
    CreatedIsScrubbed(e, r);
    KeptEntersScrubs(e, r);
    KeptIsCoherent(e, r);
    PatchedOfKept(e, DropPatchless(EnsuredSteps(e, r).value), BeforeScrubs(e, r));
  }

  lemma PatchedOfKept(e: Env, kept: seq<Step>, before: Contents)
    requires forall s | s in kept :: Coherent(s)
    requires |before.steps| == |kept| && forall i | 0 <= i < |kept| :: SameWrite(before.steps[i], kept[i])
    requires before.detail == BackCompat(kept) && Scrubs(e, before).detail.patch.Some?
    ensures HasAutoApplicableChange(Scrubs(e, before).steps, Scrubs(e, before).detail)
  {
    SameSafety(before.steps, kept);
    AllScrubbedAsKept(e, kept, before);
    ScrubsDetail(e, before);
    PatchedScrubbed(e, kept, Scrubs(e, before), RefusedValues(e, kept));
  }

  lemma PatchedScrubbed(e: Env, kept: seq<Step>, after: Contents, refused: seq<Redaction.RefusedValue>)
    requires forall s | s in kept :: Coherent(s)
    requires |after.steps| == |kept|
    requires forall i | 0 <= i < |kept| :: SameWrite(after.steps[i], Scrubbed(e, kept[i], refused))
    requires after.detail == ScrubbedDetail(e, BackCompat(kept), refused) && after.detail.patch.Some?
    ensures HasAutoApplicableChange(after.steps, after.detail)
  {
    ScrubbedAction(e, kept, refused);
    var i := FirstApplied(kept).value;
    ScrubbedApplies(e, kept[i], refused);
    assert after.steps[i] in after.steps;
  }

  /** The scrub prunes the Action's patch or makes the Action advisory. */
  ghost predicate OnlyPruned(after: Detail, before: Detail)
  {
    after == ADVISORY || after == before.(patch := after.patch)
  }

  lemma ScrubsDetailOnlyPrunes(e: Env, c: Contents)
    ensures OnlyPruned(Scrubs(e, c).detail, c.detail)
  {
    ScrubsDetail(e, c);
  }

  lemma AgreedFit(c: Contents, kept: seq<Step>, before: Detail)
    requires Agrees(c) && (forall s | s in c.steps :: Coherent(s)) && HasAutoApplicableChange(c.steps, c.detail)
    requires before == BackCompat(kept) && OnlyPruned(c.detail, before)
    ensures Fit(c.detail) <==> RollsBack(kept)
  {
    AgreementIsHonest(c);
    BackCompatIsFirst(kept);
  }

  /** Every leaf of every planned patch is a resource path. */
  ghost predicate OnlyResources(f: Fields)
  {
    forall p | LeafAt(f, p).Some? :: IsResourcePath(p)
  }

  ghost predicate PlansOnlyResources(r: Request)
  {
    forall ps | ps in r.planned && ps.patch.Some? :: OnlyResources(ps.patch.value)
  }

  ghost predicate ResourceStep(s: Step)
  {
    s.patch.Some? ==> OnlyResources(s.patch.value)
  }

  lemma SafeStepsAreResources(e: Env, r: Request)
    requires LawfulEnv(e) && PlansOnlyResources(r)
    ensures forall s | s in AfterSafety(e, r) :: ResourceStep(s)
  {
    forall i | 0 <= i < |AfterSafety(e, r)| ensures ResourceStep(AfterSafety(e, r)[i]) {
      SafeStep(e, r, i);
      SafeStepIsResources(e, r, r.planned[i]);
    }
  }

  lemma BeforeScrubsAreResources(e: Env, r: Request)
    requires LawfulEnv(e) && PlansOnlyResources(r) && EnsuredSteps(e, r).Some?
    ensures forall s | s in BeforeScrubs(e, r).steps :: ResourceStep(s)
  {
    SafeStepsAreResources(e, r);
    if Installs(e, r) { InstalledIsResources(e, r); }
    ReachesScrubs(e, r, (s: Step) => ResourceStep(s));
  }

  lemma SafeStepIsResources(e: Env, r: Request, ps: PlannedStep)
    requires LawfulEnv(e) && (ps.patch.Some? ==> OnlyResources(ps.patch.value))
    ensures var out := RefuseStep(e, MapStep(e, ps, r.persona, r.workload), r.workload);
      out.patch.Some? ==> OnlyResources(out.patch.value)
  {
    var step := MapStep(e, ps, r.persona, r.workload);
    var out := RefuseStep(e, step, r.workload);
    MappedStep(e, r, ps);
    if out.patch.Some? {
      forall p | LeafAt(out.patch.value, p).Some? ensures IsResourcePath(p) {
        LeafOfRefused(e, r.workload, step, p);
        LeafOfMapped(e, r, ps, p);
      }
    }
  }

  lemma LeafOfMapped(e: Env, r: Request, ps: PlannedStep, p: Path)
    requires LawfulEnv(e) && MapStep(e, ps, r.persona, r.workload).patch.Some?
    requires LeafAt(MapStep(e, ps, r.persona, r.workload).patch.value, p).Some?
    ensures ps.patch.Some? && LeafAt(ps.patch.value, p).Some?
  {
    var absent := AbsentPaths(ps.patch.value, r.workload);
    if absent != {} {
      forall s | s in e.order(absent) ensures LeafAt(ps.patch.value, s).Some? {
        LeafPathsAreTheLeaves(ps.patch.value, s);
      }
      PrunedAmount(e, ps.patch.value, e.order(absent), p);
    }
  }

  lemma InstalledIsResources(e: Env, r: Request)
    requires LawfulEnv(e) && Installs(e, r)
    requires ResourceStep(AfterSafety(e, r)[DerivedStepIndex(AfterSafety(e, r)).value])
    ensures ResourceStep(Installed(e, r))
  {
    TargetIsResource(r.diagnosis);
    forall p | LeafAt(Installed(e, r).patch.value, p).Some? ensures IsResourcePath(p) {
      InstalledLeaf(e, r, p);
    }
  }

  /** Main result: a plan whose patches set only resources reaches Create with
      every patch as the guardrails left it, so the Action carries the first
      applied step's patch and rollback state, and HasAutoApplicableChange reports
      whether the Action is a persona update with a patch. */
  lemma ResourcePlanAgrees(e: Env, r: Request)
    requires LawfulEnv(e) && PlansOnlyResources(r) && Built(e, r).Created?
    ensures EnsuredSteps(e, r).Some? && |Built(e, r).contents.steps| == |BeforeScrubs(e, r).steps|
    ensures forall i | 0 <= i < |Built(e, r).contents.steps| ::
      Built(e, r).contents.steps[i].patch == BeforeScrubs(e, r).steps[i].patch
    ensures Agrees(Built(e, r).contents)
    ensures HasAutoApplicableChange(Built(e, r).contents.steps, Built(e, r).contents.detail) <==>
            Built(e, r).contents.detail.atype.UpdatePersona? && Built(e, r).contents.detail.patch.Some?
  {
    CreatedIsScrubbed(e, r);
    ResourcesAreUntouched(e, r);
    UntouchedStepsStay(e, BeforeScrubs(e, r));
    CreatedResourcesAgree(e, r);
    CreatedIsCoherent(e, r);
    AgreementIsHonest(Built(e, r).contents);
  }

  lemma CreatedResourcesAgree(e: Env, r: Request)
    requires LawfulEnv(e) && Built(e, r).Created? && EnsuredSteps(e, r).Some?
    requires Untouched(e, BeforeScrubs(e, r).steps, RefusedValues(e, BeforeScrubs(e, r).steps))
    ensures Agrees(Built(e, r).contents)
  {
    CreatedPlanAgrees(e, r);
    KeptEntersScrubs(e, r);
    KeptIsCoherent(e, r);
    KeptKeepsItsStep(e, DropPatchless(EnsuredSteps(e, r).value), BeforeScrubs(e, r).steps);
  }

  lemma KeptKeepsItsStep(e: Env, kept: seq<Step>, before: seq<Step>)
    requires |before| == |kept| && forall i | 0 <= i < |kept| :: SameWrite(before[i], kept[i])
    requires Untouched(e, before, RefusedValues(e, before)) && forall s | s in kept :: Coherent(s)
    ensures !LosesItsStep(e, kept, RefusedValues(e, kept))
  {
    SameSafety(before, kept);
    forall s | s in kept ensures WithoutRefused(e, s.patch, RefusedValues(e, kept)) == s.patch {
      var i :| 0 <= i < |kept| && kept[i] == s;
      assert before[i] in before;
    }
    KeepsItsStep(e, kept, RefusedValues(e, kept));
  }

  lemma UntouchedStepsStay(e: Env, c: Contents)
    requires Untouched(e, c.steps, RefusedValues(e, c.steps))
    ensures |Scrubs(e, c).steps| == |c.steps|
    ensures forall i | 0 <= i < |c.steps| :: Scrubs(e, c).steps[i].patch == c.steps[i].patch
  {
    ScrubsLength(e, c);
    forall i | 0 <= i < |c.steps| ensures Scrubs(e, c).steps[i].patch == c.steps[i].patch {
      UntouchedStepStays(e, c, i);
    }
  }

  lemma UntouchedStepStays(e: Env, c: Contents, i: nat)
    requires Untouched(e, c.steps, RefusedValues(e, c.steps)) && i < |Scrubs(e, c).steps|
    ensures |Scrubs(e, c).steps| == |c.steps| && Scrubs(e, c).steps[i].patch == c.steps[i].patch
  {
  }

  lemma AgreementIsHonest(c: Contents)
    requires Agrees(c) && forall s | s in c.steps :: Coherent(s)
    ensures HasAutoApplicableChange(c.steps, c.detail) <==> c.detail.atype.UpdatePersona? && c.detail.patch.Some?
  {
    BackCompatIsFirst(c.steps);
    var first := FirstApplied(c.steps);
    if first.Some? { assert c.steps[first.value] in c.steps; }
  }

  ghost predicate Untouched(e: Env, steps: seq<Step>, refused: seq<Redaction.RefusedValue>)
  {
    forall s | s in steps :: WithoutRefused(e, s.patch, refused) == s.patch
  }

  lemma KeepsItsStep(e: Env, steps: seq<Step>, refused: seq<Redaction.RefusedValue>)
    requires Untouched(e, steps, refused) && forall s | s in steps :: Coherent(s)
    ensures !LosesItsStep(e, steps, refused)
  {
    var first := FirstApplied(steps);
    if first.Some? {
      assert steps[first.value] in steps;
      EmptiedIff(e, steps[first.value].patch.value, refused);
    }
  }

  lemma ResourcesAreUntouched(e: Env, r: Request)
    requires LawfulEnv(e) && PlansOnlyResources(r) && Built(e, r).Created?
    ensures EnsuredSteps(e, r).Some?
    ensures Untouched(e, BeforeScrubs(e, r).steps, RefusedValues(e, BeforeScrubs(e, r).steps))
  {
    CreatedIsNotRefused(e, r);
    BeforeScrubsAreResources(e, r);
    forall s | s in BeforeScrubs(e, r).steps
      ensures WithoutRefused(e, s.patch, RefusedValues(e, BeforeScrubs(e, r).steps)) == s.patch
    {
      ResourceStepStays(e, r, s);
    }
  }

  lemma ResourceStepStays(e: Env, r: Request, s: Step)
    requires LawfulEnv(e) && EnsuredSteps(e, r).Some? && !DerivedIsRefused(e, r)
    requires s in BeforeScrubs(e, r).steps && ResourceStep(s)
    ensures WithoutRefused(e, s.patch, RefusedValues(e, BeforeScrubs(e, r).steps)) == s.patch
  {
    if s.patch.Some? {
      ScrubSparesResources(e, r, s);
      ResourcePatchStays(e, s.patch.value, RefusedValues(e, BeforeScrubs(e, r).steps));
    }
  }

  lemma ResourcePatchStays(e: Env, patch: Fields, refused: seq<Redaction.RefusedValue>)
    requires Spares(e, patch, refused) && OnlyResources(patch)
    ensures WithoutRefused(e, Some(patch), refused) == Some(patch)
  {
    var paths := RefusedPaths(e, patch, refused);
    RefusedPathsAreHeld(e, patch, refused);
    FirstIsMember(paths);
  }
}
