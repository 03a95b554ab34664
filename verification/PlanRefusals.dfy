/** From what the planner asked to what a created plan no longer offers: every value
    the guardrails take away is on record, and gone from patches and commands. */
module PlanRefusals {
  import opened Json
  import opened Merge
  import opened Prune
  import opened Sizing
  import opened Plan
  import opened PlanTheorems
  import opened PlanScrubs
  import opened PlanCreation
  import Redaction

  // ---------------------------------------------------------------------------
  // Recorded values are gone
  // ---------------------------------------------------------------------------

  /** No patch holds the text or its quantity at the field, and no command names
      either. */
  ghost predicate Gone(e: Env, c: Contents, field: Path, text: string)
  {
    && (forall t | t in c.steps && t.patch.Some? :: Missing(e, t.patch.value, field, text))
    && (c.detail.patch.Some? ==> Missing(e, c.detail.patch.value, field, text))
    && (forall t | t in c.steps :: !Names(e, t.command, text))
  }

  ghost predicate Missing(e: Env, f: Fields, field: Path, text: string)
  {
    forall held | LeafAt(f, field) == Some(Str(held)) ::
      held != text && (e.q.parse(text).Some? ==> e.q.parse(held) != e.q.parse(text))
  }

  ghost predicate Names(e: Env, command: string, text: string)
  {
    || Redaction.ContainsToken(e.t, command, text)
    || exists x :: e.q.parse(text) == Some(x) && Redaction.HoldsQuantity(e.t, command, x)
  }

  /** Main result: what a created plan records as rejected, or as clamped to another
      value, is gone from it. */
  lemma RecordedIsGone(e: Env, r: Request, s: Safety)
    requires LawfulEnv(e) && Built(e, r).Created? && s in AllSafety(Built(e, r).contents.steps)
    requires (s.verdict.Rejected? || s.verdict.Clamped?) && s.requested != "" && s.requested != s.permitted
    ensures Gone(e, Built(e, r).contents, s.field, s.requested)
  {
    NoRefusedValueSurvives(e, r, s);
    CleanIsGone(e, Built(e, r).contents, s);
  }

  lemma CleanIsGone(e: Env, c: Contents, s: Safety)
    requires CleanPlan(e, c, RefusedValueOf(e, s)) && s.requested != ""
    ensures Gone(e, c, s.field, s.requested)
  {
    forall t | t in c.steps ensures !Names(e, t.command, s.requested) {
      UnmentionedIsUnnamed(e, t.command, s);
    }
  }

  lemma UnmentionedIsUnnamed(e: Env, command: string, s: Safety)
    requires !Redaction.Mentions(e.t, command, RefusedValueOf(e, s)) && s.requested != ""
    ensures !Names(e, command, s.requested)
  {
  }

  // ---------------------------------------------------------------------------
  // What is taken away is recorded
  // ---------------------------------------------------------------------------

  /** A planned persona update sets a quantity over twice the field's base, under
      half of it, or not positive. */
  predicate Overreaches(e: Env, r: Request, ps: PlannedStep, p: Path)
  {
    && ps.stype.PersonaUpdate? && ps.patch.Some? && AmountAt(e, ps.patch.value, p).Some?
    && Base(e, r, p).Some? && Base(e, r, p).value > 0.0
    && (|| AmountAt(e, ps.patch.value, p).value > 2.0 * Base(e, r, p).value
        || 2.0 * AmountAt(e, ps.patch.value, p).value < Base(e, r, p).value
        || AmountAt(e, ps.patch.value, p).value <= 0.0)
  }

  /** It sets a resource key the live container does not have. */
  predicate Intrudes(r: Request, ps: PlannedStep, p: Path)
  {
    && ps.stype.PersonaUpdate? && ps.patch.Some? && LeafAt(ps.patch.value, p).Some?
    && r.workload.Resolved? && IsResourcePath(p) && Observed(r.workload, p).None?
  }

  /** A field of the planner's patch that is live, or of an unresolved workload,
      survives the mapping. */
  lemma MappedLeaf(e: Env, r: Request, ps: PlannedStep, p: Path)
    requires LawfulEnv(e) && ps.stype.PersonaUpdate? && ps.patch.Some? && LeafAt(ps.patch.value, p).Some?
    requires r.workload.Resolved? && IsResourcePath(p) ==> Observed(r.workload, p).Some?
    ensures var step := MapStep(e, ps, r.persona, r.workload);
      step.patch.Some? && LeafAt(step.patch.value, p) == LeafAt(ps.patch.value, p)
  {
    var requested, dropped := ps.patch.value, DroppedFrom(e, ps.patch.value, r.workload);
    MappedShape(e, ps, r.persona, r.workload);
    forall q | q in dropped ensures LeafAt(requested, q).Some? {
      LeafPathsAreTheLeaves(requested, q);
    }
    PrunedLeaves(requested, dropped, p);
  }

  lemma MappedOverreach(e: Env, r: Request, ps: PlannedStep, p: Path)
    requires LawfulEnv(e) && Overreaches(e, r, ps, p)
    ensures var step := MapStep(e, ps, r.persona, r.workload);
      && step.patch.Some? && Coherent(step) && step.prePatch == Snapshot(r.persona, step.patch.value)
      && StringAt(step.patch.value, p) == StringAt(ps.patch.value, p)
  {
    MappedLeaf(e, r, ps, p);
    MappedStep(e, r, ps);
    StringOfLeaf(MapStep(e, ps, r.persona, r.workload).patch.value, ps.patch.value, p);
  }

  lemma OverreachIsBreach(e: Env, r: Request, step: Step, p: Path)
    requires LawfulEnv(e) && step.patch.Some? && step.prePatch == Snapshot(r.persona, step.patch.value)
    requires AmountAt(e, step.patch.value, p).Some? && Base(e, r, p).Some? && Base(e, r, p).value > 0.0
    requires OutsideCap(Base(e, r, p).value, AmountAt(e, step.patch.value, p).value)
    ensures Baseline(e, step, r.workload).Some?
    ensures p in Breaches(e, step.patch.value, Baseline(e, step, r.workload).value)
  {
    BaselineIsBase(e, r, step, p);
    LeafPathsAreTheLeaves(step.patch.value, p);
  }

  /** A breach leaves a refusal with the text the planner wrote, in canonical
      notation. */
  lemma BreachIsRecorded(e: Env, step: Step, w: Workload, p: Path) returns (s: Safety)
    requires LawfulEnv(e) && step.patch.Some? && step.auto && step.stype.PersonaUpdate?
    requires Baseline(e, step, w).Some? && p in Breaches(e, step.patch.value, Baseline(e, step, w).value)
    ensures s in RefuseStep(e, step, w).safety && s.rule.BlastRadius? && s.verdict.Rejected?
    ensures s.field == p && s.requested == e.q.canonical(TextAt(step.patch.value, p)) && s.permitted == ""
    ensures s.message == e.say(RejectedMessage(s.(message := "")))
    ensures s.baseline == e.q.canonical(TextAt(Baseline(e, step, w).value, p))
  {
    var base := Baseline(e, step, w).value;
    var fields := e.order(Breaches(e, step.patch.value, base));
    RefusedShape(e, step, w, base, fields);
    RefusalIsListed(e, step.patch.value, base, fields, p);
    s := RefusalEntry(e, step.patch.value, base, p);
  }

  lemma IntrusionIsRecorded(e: Env, r: Request, ps: PlannedStep, p: Path) returns (s: Safety)
    requires LawfulEnv(e) && Intrudes(r, ps, p)
    ensures s in MapStep(e, ps, r.persona, r.workload).safety && s.rule.AbsentField? && s.verdict.Rejected?
    ensures s.field == p && s.requested == TextAt(ps.patch.value, p) && s.permitted == ""
    ensures s.message == e.say(AbsentMessage(p))
  {
    var requested, dropped := ps.patch.value, DroppedFrom(e, ps.patch.value, r.workload);
    LeafPathsAreTheLeaves(requested, p);
    assert p in AbsentPaths(requested, r.workload);
    MappedShape(e, ps, r.persona, r.workload);
    var i :| 0 <= i < |dropped| && dropped[i] == p;
    s := AbsentEntries(e, requested, dropped)[i];
    assert s in AbsentEntries(e, requested, dropped);
  }

  lemma RefusingKeepsRecords(e: Env, step: Step, w: Workload, s: Safety)
    requires LawfulEnv(e) && s in step.safety
    ensures s in RefuseStep(e, step, w).safety
  {
  }

  /** An entry as the later stages leave it: the same field and request, rejected, or
      clamped to the derived value at the diagnosed field. */
  ghost predicate Carries(e: Env, r: Request, s: Safety, origin: Safety)
    requires LawfulEnv(e)
  {
    && s.field == origin.field && s.requested == origin.requested && s.baseline == origin.baseline
    && (s == origin || (s.verdict.Clamped? && Installs(e, r) && TargetPath(r.diagnosis) == Some(s.field) &&
                        s.permitted == ChangeOf(e, r).value))
  }

  lemma InstalledCarries(e: Env, r: Request, origin: Safety) returns (s: Safety)
    requires LawfulEnv(e) && Installs(e, r)
    requires origin in AfterSafety(e, r)[DerivedStepIndex(AfterSafety(e, r)).value].safety
    ensures s in Installed(e, r).safety && Carries(e, r, s, origin)
  {
    var safety := AfterSafety(e, r)[DerivedStepIndex(AfterSafety(e, r)).value].safety;
    var derived := LeafValues(ChangeOf(e, r).patch);
    var i :| 0 <= i < |safety| && safety[i] == origin;
    s := SettledEntry(e, origin, derived);
    RecordHoldsSettled(e, safety, derived, i);
    if Settles(origin, derived) { DerivedValueAt(e, r, origin.field); }
  }

  lemma RecordHoldsSettled(e: Env, safety: seq<Safety>, derived: map<Path, string>, i: nat)
    requires LawfulEnv(e) && i < |safety|
    ensures SettledEntry(e, safety[i], derived) in RecordDerived(e, safety, derived)
  {
    assert RecordDerived(e, safety, derived)[i] == SettledEntry(e, safety[i], derived);
  }

  lemma DerivedValueAt(e: Env, r: Request, p: Path)
    requires LawfulEnv(e) && Installs(e, r) && p in LeafValues(ChangeOf(e, r).patch)
    ensures TargetPath(r.diagnosis) == Some(p) && LeafValues(ChangeOf(e, r).patch)[p] == ChangeOf(e, r).value
  {
    SizedPatchHitsTarget(e.q, r.diagnosis, r.persona, r.workload, p);
    LeafPathsAreTheLeaves(ChangeOf(e, r).patch, p);
  }

  lemma EnsuredCarries(e: Env, r: Request, i: nat, origin: Safety) returns (step: Step, s: Safety)
    requires LawfulEnv(e) && EnsuredSteps(e, r).Some? && i < |AfterSafety(e, r)|
    requires origin in AfterSafety(e, r)[i].safety
    ensures step in EnsuredSteps(e, r).value && s in step.safety && Carries(e, r, s, origin)
  {
    EnsuredShape(e, r);
    if Installs(e, r) && DerivedStepIndex(AfterSafety(e, r)).value == i {
      step := Installed(e, r);
      s := InstalledCarries(e, r, origin);
      assert EnsuredSteps(e, r).value[i] == step;
    } else {
      step, s := AfterSafety(e, r)[i], origin;
      assert EnsuredSteps(e, r).value[i] == step;
    }
  }

  lemma BeforeScrubsCarries(e: Env, r: Request, i: nat, origin: Safety) returns (s: Safety)
    requires LawfulEnv(e) && EnsuredSteps(e, r).Some? && i < |AfterSafety(e, r)|
    requires origin in AfterSafety(e, r)[i].safety
    ensures s in AllSafety(BeforeScrubs(e, r).steps) && Carries(e, r, s, origin)
  {
    var step;
    step, s := EnsuredCarries(e, r, i, origin);
    var k := UsefulStepIsKept(EnsuredSteps(e, r).value, step);
    BeforeScrubsStep(e, r, k);
    assert BeforeScrubs(e, r).steps[k] in BeforeScrubs(e, r).steps;
    SafetyOfSteps(BeforeScrubs(e, r).steps, s);
  }

  lemma ScrubsKeepSafety(e: Env, c: Contents)
    ensures AllSafety(Scrubs(e, c).steps) == AllSafety(c.steps)
  {
    ScrubsLength(e, c);
    forall i | 0 <= i < |c.steps| ensures Scrubs(e, c).steps[i].safety == c.steps[i].safety { ScrubsStep(e, c, i); }
    SameSafety(Scrubs(e, c).steps, c.steps);
  }

  lemma CreatedCarries(e: Env, r: Request, i: nat, origin: Safety) returns (s: Safety)
    requires LawfulEnv(e) && Built(e, r).Created? && i < |AfterSafety(e, r)|
    requires origin in AfterSafety(e, r)[i].safety
    ensures s in AllSafety(Built(e, r).contents.steps) && Carries(e, r, s, origin)
  {
    CreatedIsScrubbed(e, r);
    s := BeforeScrubsCarries(e, r, i, origin);
    ScrubsKeepSafety(e, BeforeScrubs(e, r));
  }

  lemma BaselineIsRecorded(e: Env, r: Request, step: Step, p: Path)
    requires LawfulEnv(e) && step.patch.Some? && step.prePatch == Snapshot(r.persona, step.patch.value)
    requires LeafAt(step.patch.value, p).Some? && Base(e, r, p).Some?
    ensures Baseline(e, step, r.workload).Some?
    ensures e.q.parse(e.q.canonical(TextAt(Baseline(e, step, r.workload).value, p))) == Base(e, r, p)
  {
    BaselineIsBase(e, r, step, p);
    var text := TextAt(Baseline(e, step, r.workload).value, p);
    assert e.q.parse(text) == Base(e, r, p);
  }

  /** Main result: every quantity the planner asked for beyond the cap is on record in
      the created plan, as it was asked for: rejected, or clamped to the derived value
      at the diagnosed field. */
  lemma OverreachIsRecorded(e: Env, r: Request, i: nat, p: Path) returns (s: Safety)
    requires LawfulEnv(e) && Built(e, r).Created? && i < |r.planned| && Overreaches(e, r, r.planned[i], p)
    ensures s in AllSafety(Built(e, r).contents.steps) && s.field == p
    ensures s.requested == e.q.canonical(TextAt(r.planned[i].patch.value, p))
    ensures e.q.parse(s.baseline) == Base(e, r, p)
    ensures || (s.verdict.Rejected? && s.permitted == "" && s.message == e.say(RejectedMessage(s.(message := ""))))
            || (s.verdict.Clamped? && Installs(e, r) && TargetPath(r.diagnosis) == Some(p) &&
                s.permitted == ChangeOf(e, r).value)
  {
    var step := MapStep(e, r.planned[i], r.persona, r.workload);
    MappedOverreach(e, r, r.planned[i], p);
    OverreachIsBreach(e, r, step, p);
    BaselineIsRecorded(e, r, step, p);
    var origin := BreachIsRecorded(e, step, r.workload, p);
    SafeStep(e, r, i);
    s := CreatedCarries(e, r, i, origin);
  }

  /** And so is every resource key the live container lacks. */
  lemma IntrusionIsInThePlan(e: Env, r: Request, i: nat, p: Path) returns (s: Safety)
    requires LawfulEnv(e) && Built(e, r).Created? && i < |r.planned| && Intrudes(r, r.planned[i], p)
    ensures s in AllSafety(Built(e, r).contents.steps) && s.field == p
    ensures s.requested == TextAt(r.planned[i].patch.value, p) && s.verdict.Rejected? && s.permitted == ""
    ensures s.message == e.say(AbsentMessage(p))
  {
    var step := MapStep(e, r.planned[i], r.persona, r.workload);
    var origin := IntrusionIsRecorded(e, r, r.planned[i], p);
    RefusingKeepsRecords(e, step, r.workload, origin);
    SafeStep(e, r, i);
    s := CreatedCarries(e, r, i, origin);
    if s != origin { TargetIsLive(e, r); }
  }

  // ---------------------------------------------------------------------------
  // From the request
  // ---------------------------------------------------------------------------

  lemma OverreachIsNotPermitted(e: Env, r: Request, ps: PlannedStep, p: Path)
    requires LawfulEnv(e) && CapKept(e, r) && Overreaches(e, r, ps, p)
    ensures e.q.canonical(TextAt(ps.patch.value, p)) != ""
    ensures Installs(e, r) && TargetPath(r.diagnosis) == Some(p) ==>
              e.q.canonical(TextAt(ps.patch.value, p)) != ChangeOf(e, r).value
  {
    var text := TextAt(ps.patch.value, p);
    assert e.q.parse(text) == AmountAt(e, ps.patch.value, p);
    assert e.q.parse(e.q.canonical(text)) == e.q.parse(text);
    if Installs(e, r) && TargetPath(r.diagnosis) == Some(p) { DerivedIsOutsideIff(e, r); }
  }

  /** Main result: whatever quantity the planner asked for beyond the cap, no patch of
      the created plan holds it at that field, in any notation, and no command names
      it, as long as the derived value keeps the cap itself. */
  lemma OverreachIsGone(e: Env, r: Request, i: nat, p: Path)
    requires LawfulEnv(e) && Built(e, r).Created? && CapKept(e, r)
    requires i < |r.planned| && Overreaches(e, r, r.planned[i], p)
    ensures Gone(e, Built(e, r).contents, p, e.q.canonical(TextAt(r.planned[i].patch.value, p)))
  {
    var s := OverreachIsRecorded(e, r, i, p);
    OverreachIsNotPermitted(e, r, r.planned[i], p);
    RecordedIsGone(e, r, s);
  }

  /** And whatever text it asked for at a resource key the live container lacks. */
  lemma IntrusionIsGone(e: Env, r: Request, i: nat, p: Path)
    requires LawfulEnv(e) && Built(e, r).Created? && i < |r.planned| && Intrudes(r, r.planned[i], p)
    requires TextAt(r.planned[i].patch.value, p) != ""
    ensures Gone(e, Built(e, r).contents, p, TextAt(r.planned[i].patch.value, p))
  {
    var s := IntrusionIsInThePlan(e, r, i, p);
    RecordedIsGone(e, r, s);
  }
}
