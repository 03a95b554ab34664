/** What a created plan keeps of the planner's answer, what the stages write into it,
    and in which numbers. */
module PlanShape {
  import opened Json
  import opened Prune
  import opened Sizing
  import opened Plan
  import opened PlanTheorems
  import opened PlanScrubs
  import opened PlanCreation
  import opened PlanRefusals
  import PlanCoherence
  import Kubectl

  // ---------------------------------------------------------------------------
  // The planner's steps
  // ---------------------------------------------------------------------------

  /** A step no guardrail spoke on is the planner's: order, type, prose, and the patch
      or the sanitized command, whichever its type has. */
  lemma UnruledStepIsPlanned(e: Env, r: Request, i: nat)
    requires LawfulEnv(e) && i < |AfterSafety(e, r)| && AfterSafety(e, r)[i].safety == []
    ensures i < |r.planned|
    ensures var s, ps := AfterSafety(e, r)[i], r.planned[i];
      && s.order == ps.order && s.stype == ps.stype && s.description == ps.description && s.rationale == ps.rationale
      && s.command == (if ps.stype.PersonaUpdate? then "" else Kubectl.Sanitized(e.u, ps.command))
      && s.patch == (if ps.stype.PersonaUpdate? then ps.patch else None) && s.auto == s.patch.Some?
  {
    SafeStep(e, r, i);
    var step := MapStep(e, r.planned[i], r.persona, r.workload);
    UnrefusedIsUnchanged(e, step, r.workload);
    UnmappedIsPlanned(e, r, r.planned[i]);
  }

  lemma UnrefusedIsUnchanged(e: Env, step: Step, w: Workload)
    requires LawfulEnv(e) && RefuseStep(e, step, w).safety == []
    ensures RefuseStep(e, step, w) == step
  {
  }

  lemma UnmappedIsPlanned(e: Env, r: Request, ps: PlannedStep)
    requires LawfulEnv(e) && MapStep(e, ps, r.persona, r.workload).safety == []
    ensures var s := MapStep(e, ps, r.persona, r.workload);
      && s.order == ps.order && s.stype == ps.stype && s.description == ps.description && s.rationale == ps.rationale
      && s.command == (if ps.stype.PersonaUpdate? then "" else Kubectl.Sanitized(e.u, ps.command))
      && s.patch == (if ps.stype.PersonaUpdate? then ps.patch else None) && s.auto == s.patch.Some?
  {
    MappedShape(e, ps, r.persona, r.workload);
    if ps.stype.PersonaUpdate? && ps.patch.Some? {
      var dropped := DroppedFrom(e, ps.patch.value, r.workload);
      assert |AbsentEntries(e, ps.patch.value, dropped)| == |dropped|;
      assert dropped == [];
    }
  }

  /** A step with a refused field carries Dorgu's prose, not the planner's. */
  lemma RefusedStepIsDorgus(e: Env, step: Step, w: Workload)
    requires LawfulEnv(e) && RefuseStep(e, step, w).safety != step.safety
    ensures var s := RefuseStep(e, step, w);
      && s.description == e.say(RuledDescription(s.patch, s.safety)) && s.rationale == e.say(GuardedRationale)
      && s.order == step.order && s.stype == step.stype && s.command == step.command
  {
  }

  /** A step that asked for keys the live container lacks says so, and which. */
  lemma IntrudingStepSaysSo(e: Env, r: Request, ps: PlannedStep, p: Path) returns (dropped: seq<Path>)
    requires LawfulEnv(e) && Intrudes(r, ps, p)
    ensures forall q :: q in dropped <==> Intrudes(r, ps, q)
    ensures MapStep(e, ps, r.persona, r.workload).rationale == e.note(ps.rationale, e.say(AbsentNote(dropped)))
    ensures MapStep(e, ps, r.persona, r.workload).description == ps.description
  {
    dropped := DroppedFrom(e, ps.patch.value, r.workload);
    forall q ensures q in dropped <==> Intrudes(r, ps, q) {
      LeafPathsAreTheLeaves(ps.patch.value, q);
      LeafPathsAreTheLeaves(ps.patch.value, p);
      AbsentIffDropped(e, ps.patch.value, r.workload, q);
      AbsentIffDropped(e, ps.patch.value, r.workload, p);
    }
    MappedRationale(e, ps, r.persona, r.workload);
  }

  lemma AbsentIffDropped(e: Env, requested: Fields, w: Workload, q: Path)
    requires LawfulEnv(e)
    ensures q in DroppedFrom(e, requested, w) <==> q in AbsentPaths(requested, w)
  {
  }

  lemma MappedRationale(e: Env, ps: PlannedStep, persona: Option<Fields>, w: Workload)
    requires LawfulEnv(e) && ps.stype.PersonaUpdate? && ps.patch.Some?
    ensures var s, dropped := MapStep(e, ps, persona, w), DroppedFrom(e, ps.patch.value, w);
      && s.description == ps.description
      && (dropped != [] ==> s.rationale == e.note(ps.rationale, e.say(AbsentNote(dropped))))
  {
  }

  // ---------------------------------------------------------------------------
  // Where the derived value goes, and its record
  // ---------------------------------------------------------------------------

  ghost predicate TellsOfACap(s: Step)
  {
    s.stype.PersonaUpdate? && exists x | x in s.safety :: x.rule == BlastRadius && x.verdict == Rejected
  }

  /** The derived patch goes to the first persona update the blast radius refused a
      field of, and if there is none to the first persona update. */
  lemma DerivedStepIs(steps: seq<Step>)
    ensures DerivedStepIndex(steps).None? <==> forall s | s in steps :: !s.stype.PersonaUpdate?
    ensures DerivedStepIndex(steps).Some? ==>
      var i := DerivedStepIndex(steps).value;
      && steps[i].stype.PersonaUpdate?
      && if exists s | s in steps :: TellsOfACap(s)
         then TellsOfACap(steps[i]) && forall j | 0 <= j < i :: !TellsOfACap(steps[j])
         else forall j | 0 <= j < i :: !steps[j].stype.PersonaUpdate?
  {
    FirstPersonaStepIs(steps, 0, true);
    FirstPersonaStepIs(steps, 0, false);
  }

  lemma {:induction false} FirstPersonaStepIs(steps: seq<Step>, i: nat, refused: bool)
    requires i <= |steps|
    ensures var found := FirstPersonaStep(steps, i, refused);
      && (found.None? <==> forall j | i <= j < |steps| :: !Suits(steps[j], refused))
      && (found.Some? ==> Suits(steps[found.value], refused) &&
                          forall j | i <= j < found.value :: !Suits(steps[j], refused))
    decreases |steps| - i
  {
    if i < |steps| {
      SuitsIff(steps[i], refused);
      FirstPersonaStepIs(steps, i + 1, refused);
    }
  }

  ghost predicate Suits(s: Step, refused: bool)
  {
    if refused then TellsOfACap(s) else s.stype.PersonaUpdate?
  }

  lemma SuitsIff(s: Step, refused: bool)
    ensures Suits(s, refused) <==> s.stype.PersonaUpdate? && (refused ==> HasBlastRadiusRefusal(s.safety))
  {
    if x :| x in s.safety && x.rule == BlastRadius && x.verdict == Rejected { assert x.rule.BlastRadius?; }
    if x :| x in s.safety && x.rule.BlastRadius? && x.verdict.Rejected? { assert x.rule == BlastRadius; }
  }

  /** The step that gets it is Dorgu's: no command, and prose that says what was
      derived and whether a refusal was settled. */
  lemma DerivedStepIsDorgus(e: Env, step: Step, change: Change)
    requires LawfulEnv(e) && change.Sized?
    ensures var s := InstallDerived(e, step, change);
      && s.stype.PersonaUpdate? && s.auto && s.command == "" && s.order == step.order
      && s.description == e.say(DerivedDescription(change, s.safety))
      && s.rationale == e.say(DerivedRationale(exists x | x in s.safety :: x.verdict == Clamped))
  {
    var s := InstallDerived(e, step, change);
    if x :| x in s.safety && x.verdict == Clamped { assert x.verdict.Clamped?; }
    if x :| x in s.safety && x.verdict.Clamped? { assert x.verdict == Clamped; }
  }

  lemma EnsuredEntryIsCreated(e: Env, r: Request, step: Step, s: Safety)
    requires LawfulEnv(e) && Built(e, r).Created? && EnsuredSteps(e, r).Some?
    requires step in EnsuredSteps(e, r).value && s in step.safety
    ensures s in AllSafety(Built(e, r).contents.steps)
  {
    CreatedIsScrubbed(e, r);
    var k := UsefulStepIsKept(EnsuredSteps(e, r).value, step);
    BeforeScrubsStep(e, r, k);
    assert BeforeScrubs(e, r).steps[k] in BeforeScrubs(e, r).steps;
    SafetyOfSteps(BeforeScrubs(e, r).steps, s);
    ScrubsKeepSafety(e, BeforeScrubs(e, r));
  }

  lemma {:induction false} NewEntryIsThere(
    e: Env, safety: seq<Safety>, derived: map<Path, string>, fields: seq<Path>, p: Path)
    requires p in fields && forall q | q in fields :: q in derived
    requires forall s | s in safety :: !(Settles(s, derived) && s.field == p)
    ensures DerivedEntry(e, derived, p) in NewEntries(e, safety, derived, fields)
    decreases |fields|
  {
    assert fields[0] in fields && forall q | q in fields[1..] :: q in fields;
    if fields[0] != p { NewEntryIsThere(e, safety, derived, fields[1..], p); }
  }

  /** A derived entry's message gives field and value; a clamp's, the entry it is of. */
  ghost predicate SaysWhatItSettles(e: Env, s: Safety)
  {
    || (s.verdict.Derived? && s.message == e.say(DerivedMessage(s.field, s.permitted)))
    || (s.verdict.Clamped? && exists told :: s.message == e.say(ClampedMessage(s.(message := told))))
  }

  lemma RecordedEntryOf(e: Env, safety: seq<Safety>, derived: map<Path, string>, p: Path) returns (s: Safety)
    requires LawfulEnv(e) && p in derived
    ensures s in RecordDerived(e, safety, derived) && s.field == p && s.permitted == derived[p]
    ensures SaysWhatItSettles(e, s)
  {
    if x :| x in safety && Settles(x, derived) && x.field == p {
      var i :| 0 <= i < |safety| && safety[i] == x;
      s := SettledEntry(e, x, derived);
      assert s.(message := x.message) == x.(verdict := Clamped, permitted := derived[x.field]);
      RecordHoldsSettled(e, safety, derived, i);
    } else {
      s := DerivedEntry(e, derived, p);
      assert p in e.order(derived.Keys);
      NewEntryIsThere(e, safety, derived, e.order(derived.Keys), p);
      assert s in NewEntries(e, safety, derived, e.order(derived.Keys));
    }
  }

  /** Main result: a value that is derived for a created plan is on record in it, as
      derived or as what a refused request was clamped to. */
  lemma DerivedIsRecorded(e: Env, r: Request) returns (s: Safety)
    requires LawfulEnv(e) && Built(e, r).Created? && Installs(e, r)
    ensures s in AllSafety(Built(e, r).contents.steps) && TargetPath(r.diagnosis) == Some(s.field)
    ensures s.permitted == ChangeOf(e, r).value && SaysWhatItSettles(e, s)
  {
    CreatedIsScrubbed(e, r);
    EnsuredShape(e, r);
    var target, i := TargetPath(r.diagnosis).value, DerivedStepIndex(AfterSafety(e, r)).value;
    TargetIsDerived(e, r);
    s := RecordedEntryOf(e, AfterSafety(e, r)[i].safety, LeafValues(ChangeOf(e, r).patch), target);
    assert EnsuredSteps(e, r).value[i] == Installed(e, r);
    EnsuredEntryIsCreated(e, r, Installed(e, r), s);
  }

  lemma TargetIsDerived(e: Env, r: Request)
    requires LawfulEnv(e) && Installs(e, r)
    ensures TargetPath(r.diagnosis).value in LeafValues(ChangeOf(e, r).patch)
    ensures LeafValues(ChangeOf(e, r).patch)[TargetPath(r.diagnosis).value] == ChangeOf(e, r).value
  {
    SizedPatchHitsTarget(e.q, r.diagnosis, r.persona, r.workload, TargetPath(r.diagnosis).value);
    LeafPathsAreTheLeaves(ChangeOf(e, r).patch, TargetPath(r.diagnosis).value);
  }

  // ---------------------------------------------------------------------------
  // When a plan is refused
  // ---------------------------------------------------------------------------

  /** Some step already applies a patch to the diagnosed field. */
  ghost predicate AlreadySets(steps: seq<Step>, target: Path)
  {
    exists s | s in steps :: s.auto && s.stype.PersonaUpdate? && s.patch.Some? && LeafAt(s.patch.value, target).Some?
  }

  lemma AlreadySetsIff(steps: seq<Step>, detail: Detail, target: Path)
    requires steps != []
    ensures Applies(steps, detail, target) <==> AlreadySets(steps, target)
  {
    if s :| s in steps && AppliesAt(s, target) {
      assert s.auto && s.stype.PersonaUpdate? && s.patch.Some? && LeafAt(s.patch.value, target).Some?;
    }
    if s :| s in steps && s.auto && s.stype.PersonaUpdate? && s.patch.Some? && LeafAt(s.patch.value, target).Some? {
      assert AppliesAt(s, target);
    }
  }

  /** Main result: a plan is refused for want of an appliable change exactly when the
      diagnosis has a target, no step sets it, and either the baseline the change would
      be scaled from does not parse, or it does and there is no persona update to put
      the change on. Without a baseline the plan is let through as it is. */
  lemma PlanIsRefusedIff(e: Env, r: Request)
    requires LawfulEnv(e) && r.planned != []
    ensures EnsuredSteps(e, r).None? <==>
      && TargetPath(r.diagnosis).Some? && |TargetPath(r.diagnosis).value| == 4
      && !AlreadySets(AfterSafety(e, r), TargetPath(r.diagnosis).value)
      && var baseline := BaselineText(r.persona, r.workload, TargetPath(r.diagnosis).value);
         && baseline != ""
         && (e.q.parse(baseline).Some? ==> forall s | s in AfterSafety(e, r) :: !s.stype.PersonaUpdate?)
  {
    RefusingIs(e, r);
    DerivedStepIs(AfterSafety(e, r));
    if TargetPath(r.diagnosis).Some? {
      var target := TargetPath(r.diagnosis).value;
      SizedIff(e.q, r.diagnosis, r.persona, r.workload, target);
      AlreadySetsIff(AfterSafety(e, r), BackCompat(MapSteps(e, r.planned, r.persona, r.workload)), target);
    }
  }

  lemma RefusingIs(e: Env, r: Request)
    requires LawfulEnv(e)
    ensures EnsuredSteps(e, r).None? <==>
      && TargetPath(r.diagnosis).Some?
      && !Applies(AfterSafety(e, r), BackCompat(MapSteps(e, r.planned, r.persona, r.workload)),
                  TargetPath(r.diagnosis).value)
      && (ChangeOf(e, r).Unparsable? || (ChangeOf(e, r).Sized? && DerivedStepIndex(AfterSafety(e, r)).None?))
  {
  }

  // ---------------------------------------------------------------------------
  // Which steps stay, and their numbers
  // ---------------------------------------------------------------------------

  /** No step of the plan is a persona update with neither a patch nor a verdict, and
      the steps are numbered from one if any was dropped. */
  lemma KeptSteps(steps: seq<Step>)
    ensures forall s | s in DropPatchless(steps) :: !(s.stype.PersonaUpdate? && s.patch.None? && s.safety == [])
    ensures |DropPatchless(steps)| <= |steps|
    ensures |DropPatchless(steps)| == |steps| ==> DropPatchless(steps) == steps
    ensures |DropPatchless(steps)| < |steps| ==>
      forall i | 0 <= i < |DropPatchless(steps)| :: DropPatchless(steps)[i].order == i + 1
  {
    forall s | s in DropPatchless(steps) ensures !(s.stype.PersonaUpdate? && s.patch.None? && s.safety == []) {
      var origin := DroppedSteps(steps, s);
    }
  }

  // ---------------------------------------------------------------------------
  // The disclosure
  // ---------------------------------------------------------------------------

  /** An applied step sets a quantity at the cap of what it was measured against: twice
      it, up to a billionth of it. */
  ghost predicate AtTheCap(e: Env, s: Step, w: Workload, p: Path)
    requires LawfulEnv(e)
  {
    && s.auto && s.stype.PersonaUpdate? && s.patch.Some? && Baseline(e, s, w).Some?
    && AmountAt(e, s.patch.value, p).Some? && AmountAt(e, Baseline(e, s, w).value, p).Some?
    && AmountAt(e, Baseline(e, s, w).value, p).value > 0.0
    && AmountAt(e, s.patch.value, p).value >= 1.999999999 * AmountAt(e, Baseline(e, s, w).value, p).value
  }

  ghost predicate SomeAtTheCap(e: Env, steps: seq<Step>, w: Workload)
    requires LawfulEnv(e)
  {
    exists s, p | s in steps :: AtTheCap(e, s, w, p)
  }

  /** The step as the disclosure sees it. */
  function Measured(e: Env, s: Step, w: Workload): Step
    requires LawfulEnv(e)
  {
    s.(prePatch := GroundedOr(e, s.patch, s.prePatch, w))
  }

  lemma CapFieldsAre(e: Env, s: Step, w: Workload, p: Path)
    requires LawfulEnv(e)
    ensures p in StepCapFields(e, Measured(e, s, w)) <==> AtTheCap(e, s, w, p)
  {
    if s.patch.Some? { LeafPathsAreTheLeaves(s.patch.value, p); }
  }

  lemma {:induction false} AllCapFieldsAre(e: Env, steps: seq<Step>, p: Path)
    ensures p in AllCapFields(e, steps) <==> exists s :: s in steps && p in StepCapFields(e, s)
    decreases |steps|
  {
    if steps != [] {
      AllCapFieldsAre(e, steps[1..], p);
      assert forall s :: s in steps <==> s == steps[0] || s in steps[1..];
    }
  }

  ghost predicate AllMeasured(e: Env, steps: seq<Step>, measured: seq<Step>, w: Workload)
    requires LawfulEnv(e)
  {
    |measured| == |steps| && forall i | 0 <= i < |steps| :: measured[i] == Measured(e, steps[i], w)
  }

  lemma CapFieldsOfSteps(e: Env, steps: seq<Step>, measured: seq<Step>, w: Workload)
    requires LawfulEnv(e) && AllMeasured(e, steps, measured, w)
    ensures AllCapFields(e, measured) != {} <==> SomeAtTheCap(e, steps, w)
  {
    if p :| p in AllCapFields(e, measured) { MeasuredField(e, steps, measured, w, p); }
    if s, p :| s in steps && AtTheCap(e, s, w, p) {
      var i :| 0 <= i < |steps| && steps[i] == s;
      CapFieldsAre(e, s, w, p);
      assert measured[i] in measured;
      AllCapFieldsAre(e, measured, p);
    }
  }

  lemma MeasuredField(e: Env, steps: seq<Step>, measured: seq<Step>, w: Workload, p: Path)
    requires LawfulEnv(e) && AllMeasured(e, steps, measured, w) && p in AllCapFields(e, measured)
    ensures SomeAtTheCap(e, steps, w)
  {
    AllCapFieldsAre(e, measured, p);
    var m :| m in measured && p in StepCapFields(e, m);
    var i :| 0 <= i < |measured| && measured[i] == m;
    CapFieldsAre(e, steps[i], w, p);
    assert steps[i] in steps && AtTheCap(e, steps[i], w, p);
  }

  /** The Action carries nothing, or what an applied step carries. */
  ghost predicate ActionIsApplied(steps: seq<Step>, d: Detail)
  {
    d.patch.Some? ==> exists s | s in steps :: IsApplied(s) && s.patch == d.patch && s.prePatch == d.prePatch
  }

  lemma CapFieldsOfAction(e: Env, steps: seq<Step>, d: Detail, w: Workload)
    requires LawfulEnv(e) && ActionIsApplied(steps, d)
    ensures CapFields(e, d.patch, GroundedOr(e, d.patch, d.prePatch, w)) != {} ==> SomeAtTheCap(e, steps, w)
  {
    if p :| p in CapFields(e, d.patch, GroundedOr(e, d.patch, d.prePatch, w)) {
      var s :| s in steps && IsApplied(s) && s.patch == d.patch && s.prePatch == d.prePatch;
      assert p in StepCapFields(e, Measured(e, s, w));
      CapFieldsAre(e, s, w, p);
    }
  }

  lemma SwappedIs(e: Env, c: Contents, w: Workload)
    requires LawfulEnv(e)
    ensures AllMeasured(e, c.steps, Swapped(e, c, w).steps, w)
    ensures Swapped(e, c, w).detail.patch == c.detail.patch
    ensures Swapped(e, c, w).detail.prePatch == GroundedOr(e, c.detail.patch, c.detail.prePatch, w)
    ensures Swapped(e, c, w).confidence == c.confidence
  {
  }

  /** The disclosure damps the confidence once if a step is at the cap. */
  lemma DisclosedConfidence(e: Env, c: Contents, w: Workload)
    requires LawfulEnv(e) && ActionIsApplied(c.steps, c.detail)
    ensures GroundedDisclosure(e, c, w).confidence ==
            if SomeAtTheCap(e, c.steps, w) then c.confidence * 0.85 else c.confidence
  {
    var d := Swapped(e, c, w);
    SwappedIs(e, c, w);
    CapFieldsOfSteps(e, c.steps, d.steps, w);
    CapFieldsOfAction(e, c.steps, c.detail, w);
    CaveatedConfidence(e, c, w, AllCapFields(e, d.steps) + CapFields(e, d.detail.patch, d.detail.prePatch));
  }

  lemma CaveatedConfidence(e: Env, c: Contents, w: Workload, fields: set<Path>)
    requires LawfulEnv(e)
    requires var d := Swapped(e, c, w);
      fields == AllCapFields(e, d.steps) + CapFields(e, d.detail.patch, d.detail.prePatch)
    ensures GroundedDisclosure(e, c, w).confidence == if fields == {} then c.confidence else c.confidence * 0.85
  {
  }

  /** The fields any step has at the cap. */
  ghost predicate AreAllAtTheCap(e: Env, steps: seq<Step>, w: Workload, fields: set<Path>)
    requires LawfulEnv(e)
  {
    forall p :: p in fields <==> exists s :: s in steps && AtTheCap(e, s, w, p)
  }

  /** Then the plan's prose gets the caveat with all of them, and otherwise stays. */
  lemma DisclosedProse(e: Env, c: Contents, w: Workload, fields: set<Path>)
    requires LawfulEnv(e) && ActionIsApplied(c.steps, c.detail) && AreAllAtTheCap(e, c.steps, w, fields)
    ensures var after := GroundedDisclosure(e, c, w);
      if fields == {} then after.planSummary == c.planSummary && after.explanation == c.explanation
      else
        && after.explanation == e.note(c.explanation, e.say(CapCaveat(fields)))
        && after.planSummary == if c.planSummary == "" then "" else e.note(c.planSummary, e.say(CapCaveat(fields)))
  {
    var d := Swapped(e, c, w);
    var found := AllCapFields(e, d.steps) + CapFields(e, d.detail.patch, d.detail.prePatch);
    SwappedIs(e, c, w);
    forall p ensures p in found <==> p in fields {
      FoundIffAtTheCap(e, c.steps, d.steps, c.detail, w, p);
    }
    assert found == fields;
    CaveatedProse(e, c, w, fields);
  }

  lemma FoundIffAtTheCap(e: Env, steps: seq<Step>, measured: seq<Step>, d: Detail, w: Workload, p: Path)
    requires LawfulEnv(e) && AllMeasured(e, steps, measured, w) && ActionIsApplied(steps, d)
    ensures p in AllCapFields(e, measured) + CapFields(e, d.patch, GroundedOr(e, d.patch, d.prePatch, w)) <==>
            exists s :: s in steps && AtTheCap(e, s, w, p)
  {
    AllCapFieldsAre(e, measured, p);
    if p in CapFields(e, d.patch, GroundedOr(e, d.patch, d.prePatch, w)) {
      var s :| s in steps && IsApplied(s) && s.patch == d.patch && s.prePatch == d.prePatch;
      assert p in StepCapFields(e, Measured(e, s, w));
      CapFieldsAre(e, s, w, p);
    }
    if m :| m in measured && p in StepCapFields(e, m) {
      var i :| 0 <= i < |measured| && measured[i] == m;
      CapFieldsAre(e, steps[i], w, p);
      assert steps[i] in steps;
    }
    if s :| s in steps && AtTheCap(e, s, w, p) {
      var i :| 0 <= i < |steps| && steps[i] == s;
      CapFieldsAre(e, s, w, p);
      assert measured[i] in measured;
    }
  }

  lemma CaveatedProse(e: Env, c: Contents, w: Workload, fields: set<Path>)
    requires LawfulEnv(e)
    requires var d := Swapped(e, c, w);
      fields == AllCapFields(e, d.steps) + CapFields(e, d.detail.patch, d.detail.prePatch)
    ensures var after := GroundedDisclosure(e, c, w);
      if fields == {} then after.planSummary == c.planSummary && after.explanation == c.explanation
      else
        && after.explanation == e.note(c.explanation, e.say(CapCaveat(fields)))
        && after.planSummary == if c.planSummary == "" then "" else e.note(c.planSummary, e.say(CapCaveat(fields)))
  {
  }

  /** The fields of a step that are at the cap. */
  ghost predicate AreAtTheCap(e: Env, s: Step, w: Workload, fields: set<Path>)
    requires LawfulEnv(e)
  {
    forall p :: p in fields <==> AtTheCap(e, s, w, p)
  }

  /** A step at the cap gets the caveat with its fields, another keeps its rationale. */
  lemma DisclosedRationale(e: Env, c: Contents, w: Workload, i: nat, fields: set<Path>)
    requires LawfulEnv(e) && i < |c.steps| && AreAtTheCap(e, c.steps[i], w, fields)
    ensures |GroundedDisclosure(e, c, w).steps| == |c.steps|
    ensures var after, s := GroundedDisclosure(e, c, w).steps[i], c.steps[i];
      && after.description == s.description
      && after.rationale == if fields == {} then s.rationale else e.note(s.rationale, e.say(CapCaveat(fields)))
  {
    var m := Measured(e, c.steps[i], w);
    forall p ensures p in StepCapFields(e, m) <==> p in fields { CapFieldsAre(e, c.steps[i], w, p); }
    assert StepCapFields(e, m) == fields;
    DisclosedStepIs(e, c, w, i);
  }

  lemma DisclosedStepIs(e: Env, c: Contents, w: Workload, i: nat)
    requires LawfulEnv(e) && i < |c.steps|
    ensures |GroundedDisclosure(e, c, w).steps| == |c.steps|
    ensures var after, m := GroundedDisclosure(e, c, w).steps[i], Measured(e, c.steps[i], w);
      after.description == DisclosedStep(e, m).description && after.rationale == DisclosedStep(e, m).rationale
  {
  }

  lemma SameWriteSameCap(e: Env, a: Step, b: Step, w: Workload, p: Path)
    requires LawfulEnv(e) && SameWrite(a, b)
    ensures AtTheCap(e, a, w, p) <==> AtTheCap(e, b, w, p)
  {
    if a.patch.Some? { SameBaseline(e, a, b, w); }
  }

  lemma SameBaseline(e: Env, a: Step, b: Step, w: Workload)
    requires LawfulEnv(e) && a.patch.Some? && a.patch == b.patch && a.prePatch == b.prePatch
    ensures Baseline(e, a, w) == Baseline(e, b, w)
  {
  }

  lemma SameWriteAtTheCap(e: Env, a: seq<Step>, b: seq<Step>, w: Workload)
    requires LawfulEnv(e) && |a| == |b| && forall i | 0 <= i < |a| :: SameWrite(a[i], b[i])
    ensures SomeAtTheCap(e, a, w) <==> SomeAtTheCap(e, b, w)
  {
    if s, p :| s in a && AtTheCap(e, s, w, p) {
      var i :| 0 <= i < |a| && a[i] == s;
      SameWriteSameCap(e, a[i], b[i], w, p);
      assert b[i] in b;
    }
    if s, p :| s in b && AtTheCap(e, s, w, p) {
      var i :| 0 <= i < |b| && b[i] == s;
      SameWriteSameCap(e, a[i], b[i], w, p);
      assert a[i] in a;
    }
  }

  lemma AppliedAction(kept: seq<Step>, steps: seq<Step>)
    requires |steps| == |kept| && forall i | 0 <= i < |kept| :: SameWrite(steps[i], kept[i])
    ensures ActionIsApplied(steps, BackCompat(kept))
  {
    PlanCoherence.BackCompatIsFirst(kept);
    var first := PlanCoherence.FirstApplied(kept);
    if first.Some? { assert steps[first.value] in steps; }
  }

  lemma UndisclosedWrites(e: Env, kept: seq<Step>, summary: string, confidence: real, owned: bool)
    requires forall s | s in kept :: Coherent(s)
    ensures var c := Undisclosed(e, kept, summary, confidence, owned);
      && |c.steps| == |kept| && c.detail == BackCompat(kept) && c.confidence == confidence
      && forall i | 0 <= i < |kept| :: SameWrite(c.steps[i], kept[i])
  {
    forall i | 0 <= i < |kept|
      ensures SameWrite(Undisclosed(e, kept, summary, confidence, owned).steps[i], kept[i])
    {
      assert kept[i] in kept;
      UndisclosedWrite(e, kept, summary, confidence, owned, i);
    }
  }

  lemma UndisclosedWrite(e: Env, kept: seq<Step>, summary: string, confidence: real, owned: bool, i: nat)
    requires i < |kept| && Coherent(kept[i])
    ensures |Undisclosed(e, kept, summary, confidence, owned).steps| == |kept|
    ensures SameWrite(Undisclosed(e, kept, summary, confidence, owned).steps[i], kept[i])
  {
    OwnershipKeepsWrites(e, ProposedChanges(EnforceAll(kept), BackCompat(kept)), kept[i]);
  }

  lemma SettledConfidence(e: Env, kept: seq<Step>, summary: string, confidence: real, w: Workload, owned: bool)
    requires LawfulEnv(e) && forall s | s in kept :: Coherent(s)
    ensures Settled(e, kept, summary, confidence, w, owned).confidence ==
            if SomeAtTheCap(e, kept, w) then confidence * 0.85 else confidence
  {
    var c := Undisclosed(e, kept, summary, confidence, owned);
    UndisclosedWrites(e, kept, summary, confidence, owned);
    AppliedAction(kept, c.steps);
    DisclosedConfidence(e, c, w);
    SameWriteAtTheCap(e, c.steps, kept, w);
  }

  /** Main result: a created plan has the planner's confidence, damped by 0.85 exactly
      when a step it kept sets a value at the cap. */
  lemma CreatedConfidence(e: Env, r: Request)
    requires LawfulEnv(e) && Built(e, r).Created?
    ensures EnsuredSteps(e, r).Some?
    ensures Built(e, r).contents.confidence ==
            if SomeAtTheCap(e, DropPatchless(EnsuredSteps(e, r).value), r.workload)
            then r.confidence * 0.85 else r.confidence
  {
    CreatedIsScrubbed(e, r);
    ScrubsKeepConfidence(e, BeforeScrubs(e, r));
    PlanCoherence.KeptIsCoherent(e, r);
    BeforeScrubsConfidence(e, r, DropPatchless(EnsuredSteps(e, r).value));
  }

  lemma BeforeScrubsConfidence(e: Env, r: Request, kept: seq<Step>)
    requires LawfulEnv(e) && EnsuredSteps(e, r).Some? && kept == DropPatchless(EnsuredSteps(e, r).value)
    requires forall s | s in kept :: Coherent(s)
    ensures BeforeScrubs(e, r).confidence ==
            if SomeAtTheCap(e, kept, r.workload) then r.confidence * 0.85 else r.confidence
  {
    SettledConfidence(e, kept, r.rootCause, r.confidence, r.workload, r.owned);
  }

  lemma ScrubsKeepConfidence(e: Env, c: Contents)
    ensures Scrubs(e, c).confidence == c.confidence
  {
  }

  // ---------------------------------------------------------------------------
  // Ownership
  // ---------------------------------------------------------------------------

  /** A step as the ownership stages leave it: on an owned workload an advisory step
      whose command writes loses it and instructs the owner instead; any other keeps
      its command, order and prose. */
  lemma OwnedStep(e: Env, kept: seq<Step>, summary: string, confidence: real, owned: bool, i: nat)
    requires i < |kept| && Coherent(kept[i])
    ensures var c := Undisclosed(e, kept, summary, confidence, owned);
      && |c.steps| == |kept| && c.steps[i].order == kept[i].order
      && var shaped := owned && !kept[i].stype.PersonaUpdate? && Kubectl.WritesWorkload(e.u, kept[i].command);
         var changes := ProposedChanges(kept, BackCompat(kept));
         && (shaped ==>
               && c.steps[i].command == ""
               && c.steps[i].description == e.say(OwnerInstruction(changes, kept[i].description))
               && c.steps[i].rationale == e.note(kept[i].rationale, e.say(OwnerReason)))
         && (!shaped ==>
               && c.steps[i].description == kept[i].description && c.steps[i].rationale == kept[i].rationale
               && (!owned || !Kubectl.WritesWorkload(e.u, kept[i].command) ==> c.steps[i].command == kept[i].command))
  {
    EnforcedChanges(kept);
    NothingToStrip(e);
  }

  /** And the summary says why, if some step did. */
  lemma OwnedSummaryIs(e: Env, kept: seq<Step>, summary: string, confidence: real, owned: bool)
    requires forall s | s in kept :: Coherent(s)
    ensures Undisclosed(e, kept, summary, confidence, owned).planSummary ==
            if owned && exists s | s in kept :: !s.stype.PersonaUpdate? && Kubectl.WritesWorkload(e.u, s.command)
            then e.note(summary, e.say(OwnerReason)) else summary
  {
    EnforcedIsSame(kept);
    SummaryIs(e, kept, summary, owned);
  }

  lemma EnforcedIsSame(kept: seq<Step>)
    requires forall s | s in kept :: Coherent(s)
    ensures EnforceAll(kept) == kept
  {
    forall i | 0 <= i < |kept| ensures Enforced(kept[i]) == kept[i] {
      assert kept[i] in kept;
    }
  }

  lemma SummaryIs(e: Env, kept: seq<Step>, summary: string, owned: bool)
    ensures OwnedSummary(e, kept, summary, owned) ==
            if owned && exists s | s in kept :: !s.stype.PersonaUpdate? && Kubectl.WritesWorkload(e.u, s.command)
            then e.note(summary, e.say(OwnerReason)) else summary
  {
    if s :| s in kept && NeedsShaping(e, s) { assert !s.stype.PersonaUpdate?; }
    if s :| s in kept && !s.stype.PersonaUpdate? && Kubectl.WritesWorkload(e.u, s.command) {
      assert NeedsShaping(e, s);
    }
  }

  /** The explanation counts the steps and those applied. */
  lemma OwnedExplanationIs(e: Env, kept: seq<Step>, summary: string, confidence: real, owned: bool)
    ensures var c := Undisclosed(e, kept, summary, confidence, owned);
      c.explanation == e.say(PlanExplanation(|c.steps|, AutoCount(c.steps)))
  {
  }

  lemma NothingToStrip(e: Env)
    ensures !Kubectl.WritesWorkload(e.u, "")
  {
  }

  lemma {:induction false} EnforcedChanges(steps: seq<Step>)
    ensures StepChanges(EnforceAll(steps)) == StepChanges(steps)
    decreases |steps|
  {
    if steps != [] {
      EnforcedChanges(steps[..|steps| - 1]);
      assert EnforceAll(steps)[..|steps| - 1] == EnforceAll(steps[..|steps| - 1]);
    }
  }

  /** The text a patch sets at a resource key, if any. */
  function ResourceText(patch: Option<Fields>, p: Path): Option<string>
  {
    if patch.Some? && IsResourcePath(p) then StringAt(patch.value, p) else None
  }

  lemma LeafOfResource(patch: Option<Fields>, p: Path)
    ensures p in ResourceLeaves(patch) <==> ResourceText(patch, p).Some?
    ensures p in ResourceLeaves(patch) ==> ResourceLeaves(patch)[p] == ResourceText(patch, p).value
  {
    if patch.Some? { LeafPathsAreTheLeaves(patch.value, p); }
  }

  lemma {:induction false} StepChangesMiss(steps: seq<Step>, p: Path)
    ensures p !in StepChanges(steps) <==>
            forall s | s in steps && s.stype.PersonaUpdate? :: ResourceText(s.patch, p).None?
    decreases |steps|
  {
    if steps != [] {
      var init, last := steps[..|steps| - 1], steps[|steps| - 1];
      StepChangesMiss(init, p);
      LeafOfResource(last.patch, p);
      assert forall s :: s in steps <==> s in init || s == last;
    }
  }

  lemma {:induction false} StepChangesHit(steps: seq<Step>, p: Path) returns (i: nat)
    requires p in StepChanges(steps)
    ensures i < |steps| && LastSets(steps, i, p) && ResourceText(steps[i].patch, p) == Some(StepChanges(steps)[p])
    decreases |steps|
  {
    StepChangesAt(steps, p);
    if SetsKey(steps[|steps| - 1], p) {
      i := |steps| - 1;
    } else {
      i := StepChangesHit(steps[..|steps| - 1], p);
      LastSetsGrows(steps, i, p);
    }
  }

  predicate SetsKey(s: Step, p: Path)
  {
    s.stype.PersonaUpdate? && ResourceText(s.patch, p).Some?
  }

  lemma StepChangesAt(steps: seq<Step>, p: Path)
    requires p in StepChanges(steps)
    ensures steps != []
    ensures var last, init := steps[|steps| - 1], StepChanges(steps[..|steps| - 1]);
      if SetsKey(last, p) then StepChanges(steps)[p] == ResourceText(last.patch, p).value
      else p in init && StepChanges(steps)[p] == init[p]
  {
    LeafOfResource(steps[|steps| - 1].patch, p);
  }

  lemma LastSetsGrows(steps: seq<Step>, i: nat, p: Path)
    requires i < |steps| - 1 && LastSets(steps[..|steps| - 1], i, p) && !SetsKey(steps[|steps| - 1], p)
    ensures LastSets(steps, i, p)
  {
    var init := steps[..|steps| - 1];
    forall j | i < j < |steps| && steps[j].stype.PersonaUpdate? ensures ResourceText(steps[j].patch, p).None? {
      if j < |init| { assert init[j] == steps[j]; }
    }
  }

  /** The last persona update that sets the key. */
  ghost predicate LastSets(steps: seq<Step>, i: nat, p: Path)
    requires i < |steps|
  {
    && steps[i].stype.PersonaUpdate? && ResourceText(steps[i].patch, p).Some?
    && forall j | i < j < |steps| && steps[j].stype.PersonaUpdate? :: ResourceText(steps[j].patch, p).None?
  }

  /** The changes an owner is told: what the Action sets, and elsewhere what the last
      persona update that sets it does. */
  lemma ProposedChangesAre(steps: seq<Step>, d: Detail, p: Path)
    ensures ResourceText(d.patch, p).Some? ==>
      p in ProposedChanges(steps, d) && ProposedChanges(steps, d)[p] == ResourceText(d.patch, p).value
    ensures ResourceText(d.patch, p).None? && p in ProposedChanges(steps, d) ==> exists i | 0 <= i < |steps| ::
      LastSets(steps, i, p) && ResourceText(steps[i].patch, p) == Some(ProposedChanges(steps, d)[p])
    ensures p !in ProposedChanges(steps, d) ==>
      forall s | s in steps && s.stype.PersonaUpdate? :: ResourceText(s.patch, p).None?
  {
    LeafOfResource(d.patch, p);
    StepChangesMiss(steps, p);
    if p in StepChanges(steps) { var i := StepChangesHit(steps, p); }
  }

  /** The explanation counts the steps, and those applied: all of them, none, or
      some. */
  lemma {:induction false} AutoCountIs(steps: seq<Step>)
    ensures AutoCount(steps) <= |steps|
    ensures AutoCount(steps) == |steps| <==> forall s | s in steps :: s.auto
    ensures AutoCount(steps) == 0 <==> forall s | s in steps :: !s.auto
    decreases |steps|
  {
    if steps != [] {
      AutoCountIs(steps[1..]);
      assert forall s :: s in steps <==> s == steps[0] || s in steps[1..];
    }
  }

  /** What guardrail messages are: those of the entries, where there is one. */
  lemma {:induction false} MessagesAre(safety: seq<Safety>, m: string)
    ensures m in Messages(safety) <==> m != "" && exists s :: s in safety && s.message == m
    decreases |safety|
  {
    if safety != [] {
      MessagesAre(safety[1..], m);
      assert forall s :: s in safety <==> s == safety[0] || s in safety[1..];
    }
  }
}
