/** From the planner's answer to the end of an action's life: created Actions in
    the lifecycle. */
module EndToEnd {
  import opened Json
  import opened Merge
  import opened Conditions
  import opened Undo
  import opened Sizing
  import opened Plan
  import opened PlanTheorems
  import opened PlanCreation
  import PlanCoherence
  import PlanRollback
  import Lifecycle
  import LifecycleTheorems
  import LifecycleContents
  import Registry

  // ---------------------------------------------------------------------------
  // Rollback
  // ---------------------------------------------------------------------------

  /** Payloads of an Action, below the key the executor merges. */
  lemma PayloadValue(f: Option<Fields>)
    ensures LifecycleContents.SpecValue(Registry.PayloadOf(f)) == SubObject(PlanRollback.Value(f), "spec")
  {
  }

  lemma DetailIsUndone(persona: Fields, steps: seq<Step>, d: Detail, kindKnown: bool)
    requires PlanRollback.TypedPersona(persona)
    requires Undoes(PlanRollback.Value(d.patch), Document(persona), PlanRollback.Value(d.prePatch))
    ensures LifecycleContents.UndoneBy(Registry.SpecOf(steps, d, kindKnown), persona)
  {
    PayloadValue(d.patch);
    PayloadValue(d.prePatch);
    UndoesBelow(PlanRollback.Value(d.patch), Document(persona), PlanRollback.Value(d.prePatch), "spec");
  }

  /** A stored Action undone on a persona: what its run leaves when it ends rolled
      back. */
  lemma UndoneActionRollsBack(
    persona: Fields, steps: seq<Step>, d: Detail, kindKnown: bool, w: Lifecycle.World, events: seq<Lifecycle.Event>)
    requires PlanRollback.TypedPersona(persona)
    requires Undoes(PlanRollback.Value(d.patch), Document(persona), PlanRollback.Value(d.prePatch))
    requires Lifecycle.Initial(w) && w.persona == persona && LifecycleContents.Alone(events)
    ensures var s := Registry.SpecOf(steps, d, kindKnown);
      var end := Lifecycle.Run(s, w, events, false);
      end.status.phase.RolledBack? ==> Restored(end.persona, LifecycleContents.SpecValue(s.patch), persona)
  {
    var s := Registry.SpecOf(steps, d, kindKnown);
    DetailIsUndone(persona, steps, d, kindKnown);
    if Lifecycle.Run(s, w, events, false).status.phase.RolledBack? {
      LifecycleContents.RolledBackIsRestored(s, w, events, false);
    }
  }

  /** Main result: whenever the Action of a plan made for a persona ends rolled
      back, with no other writer, the persona holds every value it had, and beyond
      them only what the patch introduced: over every planner answer, every run
      and every loss. */
  lemma CreatedActionRollsBack(e: Env, r: Request, kindKnown: bool, w: Lifecycle.World, events: seq<Lifecycle.Event>)
    requires LawfulEnv(e) && PlanRollback.ForPersona(r) && Built(e, r).Created?
    requires Built(e, r).contents.detail.patch.Some?
    requires Lifecycle.Initial(w) && w.persona == r.persona.value && LifecycleContents.Alone(events)
    ensures var s := Registry.SpecOf(Built(e, r).contents.steps, Built(e, r).contents.detail, kindKnown);
      var end := Lifecycle.Run(s, w, events, false);
      end.status.phase.RolledBack? ==> Restored(end.persona, LifecycleContents.SpecValue(s.patch), r.persona.value)
  {
    PlanRollback.CreatedActionUndoes(e, r);
    UndoneActionRollsBack(
      r.persona.value, Built(e, r).contents.steps, Built(e, r).contents.detail, kindKnown, w, events);
  }

  /** Main result: the same of every rule-based action, also where the persona
      records no limit and the rollback value is the live one. */
  lemma RuleBasedActionRollsBack(q: Quantities, p: Registry.Event, w: Lifecycle.World, events: seq<Lifecycle.Event>)
    requires p.Propose? && p.planned.FromRules? && p.planned.recorded.Some? && Registry.CreatedRecord(q, p).Some?
    requires PlanRollback.TypedPersona(p.planned.recorded.value)
    requires Lifecycle.Initial(w) && w.persona == p.planned.recorded.value && LifecycleContents.Alone(events)
    ensures var s := Registry.CreatedRecord(q, p).value.spec;
      var end := Lifecycle.Run(s, w, events, false);
      end.status.phase.RolledBack? ==> Restored(end.persona, LifecycleContents.SpecValue(s.patch), w.persona)
  {
    var record := Registry.CreatedRecord(q, p).value;
    PlanRollback.SizedUndoes(q, p.p.diagnosis, w.persona, p.planned.workload);
    UndoneActionRollsBack(w.persona, record.steps, record.detail, p.kindKnown, w, events);
  }

  // ---------------------------------------------------------------------------
  // From approval to the verdict
  // ---------------------------------------------------------------------------

  /** Approved, applied, waited for ten minutes, and verified, with every write
      stored. Time is in nanoseconds. */
  function UndisturbedRun(verdict: Lifecycle.Verdict): seq<Lifecycle.Event>
  {
    var works := Lifecycle.Reconcile(Lifecycle.Faults(true, Lifecycle.Stored, true, False), verdict);
    [Lifecycle.Human(Lifecycle.Approve), works, Lifecycle.Tick(600_000_000_000), works, works]
  }

  /** A patch the executor can merge: an object below spec, or nothing at all. */
  predicate Mergeable(patch: Fields)
  {
    "spec" in patch && (patch["spec"].Obj? || patch["spec"].Null?)
  }

  ghost predicate Awaits(w: Lifecycle.World, persona: Fields)
  {
    Lifecycle.Initial(w) && w.status.phase.Pending? && w.persona == persona
  }

  /** What the run leaves: completed with the patch in place, or rolled back. */
  ghost predicate Settles(verdict: Lifecycle.Verdict, end: Lifecycle.World, patch: Fields, persona: Fields)
  {
    && (verdict.Healthy? ==> end.status.phase.Completed? && end.persona == Merged(persona, patch))
    && (verdict.Degraded? ==> end.status.phase.RolledBack? && Restored(end.persona, patch, persona))
  }

  lemma FitIsRunnable(steps: seq<Step>, d: Detail)
    requires HasAutoApplicableChange(steps, d) && PlanCoherence.Fit(d)
    requires Mergeable(d.patch.value) && Mergeable(d.prePatch.value)
    ensures LifecycleContents.Runnable(Registry.SpecOf(steps, d, true))
    ensures Lifecycle.Delay(Registry.SpecOf(steps, d, true)) == 600_000_000_000
  {
  }

  lemma ApprovedRunSettles(s: Lifecycle.Spec, w: Lifecycle.World, verdict: Lifecycle.Verdict)
    requires LifecycleContents.Runnable(s) && Lifecycle.Delay(s) == 600_000_000_000
    requires Lifecycle.Initial(w) && w.status.phase.Pending? && (verdict.Healthy? || verdict.Degraded?)
    ensures var end := Lifecycle.Run(s, w, UndisturbedRun(verdict), false);
      if verdict.Healthy? then end.status.phase.Completed? && end.persona == LifecycleContents.After(s, w.persona)
      else end.status.phase.RolledBack?
  {
    var run, approved := UndisturbedRun(verdict), Lifecycle.Next(s, w, Lifecycle.Human(Lifecycle.Approve), false);
    assert run == run[..1] + run[1..] && run[..1] == [] + [Lifecycle.Human(Lifecycle.Approve)];
    LifecycleContents.RunInParts(s, w, run[..1], run[1..]);
    LifecycleTheorems.RunSplits(s, w, [], Lifecycle.Human(Lifecycle.Approve), false);
    assert Lifecycle.Run(s, w, run[..1], false) == approved;
    assert run[1..] == [run[1], Lifecycle.Tick(Lifecycle.Delay(s)), run[1], run[1]];
    LifecycleContents.FaultFreeRunSettles(s, approved, verdict);
  }

  lemma FitActionSettles(
    persona: Fields, steps: seq<Step>, d: Detail, w: Lifecycle.World, verdict: Lifecycle.Verdict)
    requires PlanRollback.TypedPersona(persona) && Awaits(w, persona) && (verdict.Healthy? || verdict.Degraded?)
    requires HasAutoApplicableChange(steps, d) && PlanCoherence.Fit(d)
    requires Mergeable(d.patch.value) && Mergeable(d.prePatch.value)
    requires Undoes(d.patch.value, Document(persona), d.prePatch.value)
    ensures Settles(verdict, Lifecycle.Run(Registry.SpecOf(steps, d, true), w, UndisturbedRun(verdict), false),
                    SubObject(d.patch.value, "spec"), persona)
  {
    FitIsRunnable(steps, d);
    ApprovedRunSettles(Registry.SpecOf(steps, d, true), w, verdict);
    UndoneActionRollsBack(persona, steps, d, true, w, UndisturbedRun(verdict));
    PayloadValue(d.patch);
  }

  /** A patch that cannot be merged fails the action and writes nothing. */
  lemma UnmergeableFails(s: Lifecycle.Spec, w: Lifecycle.World, verdict: Lifecycle.Verdict)
    requires s.hasAutoApplicableChange && Lifecycle.PreconditionsHold(s) && !Mergeable(s.patch.fields)
    requires Lifecycle.Initial(w) && w.status.phase.Pending?
    ensures var end := Lifecycle.Run(s, w, UndisturbedRun(verdict), false);
      end.status.phase.Failed? && end.persona == w.persona
  {
    var run := UndisturbedRun(verdict);
    assert run == run[..2] + run[2..] && run[..2] == ([] + [run[0]]) + [run[1]];
    LifecycleContents.RunInParts(s, w, run[..2], run[2..]);
    LifecycleTheorems.RunSplits(s, w, [] + [run[0]], run[1], false);
    LifecycleTheorems.RunSplits(s, w, [], run[0], false);
    assert forall e | e in run[2..] :: !e.Write?;
    LifecycleContents.TerminalIsFinal(s, Lifecycle.Run(s, w, run[..2], false), run[2..], false);
  }

  /** Main result: an approved plan whose Action is one the executor accepts is
      applied and, ten minutes later, completed with the patch in place or rolled back
      to what the persona recorded, as the verification says. It fails without a
      write exactly when the patch holds no object for the persona's spec. */
  lemma CreatedActionSettles(e: Env, r: Request, w: Lifecycle.World, verdict: Lifecycle.Verdict)
    requires LawfulEnv(e) && PlanRollback.ForPersona(r) && Built(e, r).Created?
    requires PlanCoherence.Fit(Built(e, r).contents.detail)
    requires Awaits(w, r.persona.value) && (verdict.Healthy? || verdict.Degraded?)
    ensures var c := Built(e, r).contents;
      var end := Lifecycle.Run(Registry.SpecOf(c.steps, c.detail, true), w, UndisturbedRun(verdict), false);
      if Mergeable(c.detail.patch.value)
      then Settles(verdict, end, SubObject(c.detail.patch.value, "spec"), r.persona.value)
      else end.status.phase.Failed? && end.persona == w.persona
  {
    PlanCoherence.PatchedActionApplies(e, r);
    PlanRollback.CreatedActionUndoes(e, r);
    PlanRollback.CreatedIsOnlySpec(e, r);
    UndoneActionSettles(r.persona.value, Built(e, r).contents.steps, Built(e, r).contents.detail, w, verdict);
  }

  lemma UndoneActionSettles(
    persona: Fields, steps: seq<Step>, d: Detail, w: Lifecycle.World, verdict: Lifecycle.Verdict)
    requires PlanRollback.TypedPersona(persona) && Awaits(w, persona) && (verdict.Healthy? || verdict.Degraded?)
    requires HasAutoApplicableChange(steps, d) && PlanCoherence.Fit(d) && PlanRollback.OnlySpec(d.prePatch)
    requires Undoes(d.patch.value, Document(persona), PlanRollback.Value(d.prePatch))
    ensures var end := Lifecycle.Run(Registry.SpecOf(steps, d, true), w, UndisturbedRun(verdict), false);
      if Mergeable(d.patch.value) then Settles(verdict, end, SubObject(d.patch.value, "spec"), persona)
      else end.status.phase.Failed? && end.persona == w.persona
  {
    FaithfulIsMergeable(d.prePatch.value, persona);
    if Mergeable(d.patch.value) {
      FitActionSettles(persona, steps, d, w, verdict);
    } else {
      UnmergeableFails(Registry.SpecOf(steps, d, true), w, verdict);
    }
  }

  lemma FaithfulIsMergeable(undo: Fields, persona: Fields)
    requires undo.Keys == {"spec"} && Faithful(undo, Document(persona))
    ensures Mergeable(undo)
  {
    assert "spec" in undo && "spec" in Document(persona);
  }

  /** Main result: every rule-based action settles so. */
  lemma RuleBasedActionSettles(q: Quantities, p: Registry.Event, w: Lifecycle.World, verdict: Lifecycle.Verdict)
    requires p.Propose? && p.planned.FromRules? && p.planned.recorded.Some? && Registry.CreatedRecord(q, p).Some?
    requires p.kindKnown && PlanRollback.TypedPersona(p.planned.recorded.value)
    requires Awaits(w, p.planned.recorded.value) && (verdict.Healthy? || verdict.Degraded?)
    ensures var record := Registry.CreatedRecord(q, p).value;
      && record.detail.patch.Some?
      && Settles(verdict, Lifecycle.Run(record.spec, w, UndisturbedRun(verdict), false),
                 SubObject(record.detail.patch.value, "spec"), w.persona)
  {
    var record := Registry.CreatedRecord(q, p).value;
    PlanRollback.SizedShape(q, p.p.diagnosis, Some(w.persona), p.planned.workload);
    PlanRollback.SizedUndoes(q, p.p.diagnosis, w.persona, p.planned.workload);
    FitActionSettles(w.persona, record.steps, record.detail, w, verdict);
  }

  // ---------------------------------------------------------------------------
  // Completion
  // ---------------------------------------------------------------------------

  /** Every quantity the patch sets over a positive base is in the persona, between
      half and twice that base. */
  ghost predicate HoldsWithin(e: Env, r: Request, patch: Fields, persona: Fields)
  {
    forall q | q != [] && AmountAt(e, patch, ["spec"] + q).Some? &&
               Base(e, r, ["spec"] + q).Some? && Base(e, r, ["spec"] + q).value > 0.0 ::
      && AmountAt(e, persona, q) == AmountAt(e, patch, ["spec"] + q)
      && Base(e, r, ["spec"] + q).value <= 2.0 * AmountAt(e, persona, q).value
      && AmountAt(e, persona, q).value <= 2.0 * Base(e, r, ["spec"] + q).value
  }

  lemma HeldIsWithin(e: Env, r: Request, steps: seq<Step>, d: Detail, kindKnown: bool, persona: Fields)
    requires d.patch.Some? && Within(e, r, d.patch.value)
    requires LifecycleContents.HoldsPatch(Registry.SpecOf(steps, d, kindKnown), persona)
    ensures HoldsWithin(e, r, d.patch.value, persona)
  {
    PayloadValue(d.patch);
    forall q | q != [] && AmountAt(e, d.patch.value, ["spec"] + q).Some?
      ensures AmountAt(e, persona, q) == AmountAt(e, d.patch.value, ["spec"] + q)
    {
      LeafBelow(d.patch.value, "spec", q);
    }
  }

  lemma LeafBelow(f: Fields, k: string, q: Path)
    requires LeafAt(f, [k] + q).Some? && q != []
    ensures LeafAt(SubObject(f, k), q) == LeafAt(f, [k] + q)
  {
    assert ([k] + q)[1..] == q;
  }

  /** Main result: when a created action completes, with no other writer and no
      rollback lost, every limit its patch sets stands in the persona between half
      and twice its base, if the derived value's baseline fits its multiplier. */
  lemma CompletedActionIsCapped(
    e: Env, r: Request, kindKnown: bool, w: Lifecycle.World, events: seq<Lifecycle.Event>)
    requires LawfulEnv(e) && Built(e, r).Created? && Built(e, r).contents.detail.patch.Some? && CapKept(e, r)
    requires Lifecycle.Initial(w) && LifecycleContents.Alone(events)
    requires var s := Registry.SpecOf(Built(e, r).contents.steps, Built(e, r).contents.detail, kindKnown);
      && !LifecycleContents.SomeRollbackLost(s, w, events, false)
      && Lifecycle.Run(s, w, events, false).status.phase.Completed?
    ensures var s := Registry.SpecOf(Built(e, r).contents.steps, Built(e, r).contents.detail, kindKnown);
      HoldsWithin(e, r, Built(e, r).contents.detail.patch.value, Lifecycle.Run(s, w, events, false).persona)
  {
    var steps, d := Built(e, r).contents.steps, Built(e, r).contents.detail;
    CappedAction(e, r);
    LifecycleContents.CompletedHoldsPatch(Registry.SpecOf(steps, d, kindKnown), w, events, false);
    HeldIsWithin(e, r, steps, d, kindKnown,
      Lifecycle.Run(Registry.SpecOf(steps, d, kindKnown), w, events, false).persona);
  }

  // ---------------------------------------------------------------------------
  // Plans the executor refuses
  // ---------------------------------------------------------------------------

  /** Main result: approving a created plan that counts as applicable, the executor
      refuses it, nothing is written and it fails with the precondition reason, if
      and only if the plan parted from its Action or the first applied step has no
      rollback state. */
  lemma ApplicablePlanIsRefusedIff(e: Env, r: Request, kindKnown: bool, w: Lifecycle.World, f: Lifecycle.Faults)
    requires LawfulEnv(e) && Built(e, r).Created? && EnsuredSteps(e, r).Some?
    requires HasAutoApplicableChange(Built(e, r).contents.steps, Built(e, r).contents.detail)
    requires w.status.phase.Approved? && f.statusStored
    ensures var s := Registry.SpecOf(Built(e, r).contents.steps, Built(e, r).contents.detail, kindKnown);
      var kept := DropPatchless(EnsuredSteps(e, r).value);
      Refused(Lifecycle.HandleApproved(s, w, f)) <==>
      PlanCoherence.LosesItsStep(e, kept, RefusedValues(e, kept)) || !PlanCoherence.RollsBack(kept)
  {
    PlanCoherence.CreatedFitIff(e, r);
    RefusedIffUnfit(Built(e, r).contents.steps, Built(e, r).contents.detail, kindKnown, w, f);
  }

  lemma RefusedIffUnfit(steps: seq<Step>, d: Detail, kindKnown: bool, w: Lifecycle.World, f: Lifecycle.Faults)
    requires HasAutoApplicableChange(steps, d) && f.statusStored
    ensures Refused(Lifecycle.HandleApproved(Registry.SpecOf(steps, d, kindKnown), w, f)) <==> !PlanCoherence.Fit(d)
  {
    var s := Registry.SpecOf(steps, d, kindKnown);
    assert Lifecycle.PreconditionsHold(s) <==> PlanCoherence.Fit(d);
    if PlanCoherence.Fit(d) { FitIsNotRefused(s, w, f); } else { UnfitIsRefused(s, w, f); }
  }

  /** A plan that parted counts as applicable, so it is one of these. */
  lemma PartedPlanIsRefused(e: Env, r: Request, kindKnown: bool, w: Lifecycle.World, f: Lifecycle.Faults)
    requires LawfulEnv(e) && Built(e, r).Created? && EnsuredSteps(e, r).Some?
    requires var kept := DropPatchless(EnsuredSteps(e, r).value);
      PlanCoherence.LosesItsStep(e, kept, RefusedValues(e, kept))
    requires w.status.phase.Approved? && f.statusStored
    ensures var s := Registry.SpecOf(Built(e, r).contents.steps, Built(e, r).contents.detail, kindKnown);
      Refused(Lifecycle.HandleApproved(s, w, f))
  {
    PlanCoherence.PartedPlan(e, r);
    UnfitIsRefused(Registry.SpecOf(Built(e, r).contents.steps, Built(e, r).contents.detail, kindKnown), w, f);
  }

  /** No write, and a stored failure with the precondition reason. */
  predicate Refused(x: Lifecycle.Effect)
  {
    x.wrote.None? && x.saved.Some? && x.saved.value.phase.Failed? &&
    LifecycleTheorems.AppliedReasonIs(x.saved.value.conditions, Lifecycle.PRECONDITION_REJECTED)
  }

  lemma FitIsNotRefused(s: Lifecycle.Spec, w: Lifecycle.World, f: Lifecycle.Faults)
    requires s.hasAutoApplicableChange && Lifecycle.PreconditionsHold(s) && f.statusStored
    ensures !Refused(Lifecycle.HandleApproved(s, w, f))
  {
    LifecycleTheorems.FailReads(w, w.status, "Failed", "apply failed");
    assert |Lifecycle.PRECONDITION_REJECTED| != |"Failed"|;
  }

  lemma UnfitIsRefused(s: Lifecycle.Spec, w: Lifecycle.World, f: Lifecycle.Faults)
    requires s.hasAutoApplicableChange && !Lifecycle.PreconditionsHold(s) && f.statusStored
    ensures Refused(Lifecycle.HandleApproved(s, w, f))
  {
    LifecycleTheorems.FailReads(w, w.status, Lifecycle.PRECONDITION_REJECTED, "nothing was applied");
  }
}
