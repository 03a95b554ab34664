/** The guardrail verdicts recorded on a created step, against the patch that
    stands beside them. */
module PlanRecords {
  import opened Json
  import opened Merge
  import opened Prune
  import opened Sizing
  import opened Plan
  import opened PlanTheorems
  import opened PlanScrubs
  import opened PlanCreation
  import Redaction

  function ValueAt(patch: Option<Fields>, p: Path): Option<Json>
  {
    if patch.None? then None else LeafAt(patch.value, p)
  }

  /** A refused field is not in the patch; a permitted value is. */
  predicate Truthful(s: Safety, patch: Option<Fields>)
  {
    match s.verdict
    case Rejected => ValueAt(patch, s.field).None?
    case Clamped => ValueAt(patch, s.field) == Some(Str(s.permitted)) && IsResourcePath(s.field)
    case Derived => ValueAt(patch, s.field) == Some(Str(s.permitted)) && IsResourcePath(s.field)
  }

  ghost predicate TruthfulStep(step: Step)
  {
    forall s | s in step.safety :: Truthful(s, step.patch)
  }

  /** Before the derivation a step records refusals only, and of the live
      workload only fields it does not set are refused as absent. */
  ghost predicate RefusalsOnly(r: Request, step: Step)
  {
    forall s | s in step.safety ::
      s.verdict.Rejected? && (s.rule.BlastRadius? || (s.rule.AbsentField? && !IsLive(r, s.field)))
  }

  lemma MappedIsTruthful(e: Env, r: Request, ps: PlannedStep)
    requires LawfulEnv(e)
    ensures TruthfulStep(MapStep(e, ps, r.persona, r.workload))
    ensures RefusalsOnly(r, MapStep(e, ps, r.persona, r.workload))
  {
    MappedShape(e, ps, r.persona, r.workload);
    if ps.stype.PersonaUpdate? && ps.patch.Some? {
      DroppedAreGone(e, r, ps.patch.value);
    }
  }

  lemma DroppedAreGone(e: Env, r: Request, requested: Fields)
    requires LawfulEnv(e)
    ensures var dropped := DroppedFrom(e, requested, r.workload);
      forall s | s in AbsentEntries(e, requested, dropped) ::
        s.rule.AbsentField? && !IsLive(r, s.field) && Truthful(s, Pruned(Some(requested), dropped))
  {
    var dropped := DroppedFrom(e, requested, r.workload);
    DroppedAreLeaves(e, r, requested);
    var entries := AbsentEntries(e, requested, dropped);
    forall i | 0 <= i < |entries|
      ensures entries[i].rule.AbsentField? && !IsLive(r, entries[i].field)
      ensures Truthful(entries[i], Pruned(Some(requested), dropped))
    {
      assert dropped[i] in dropped && entries[i] == AbsentEntry(e, requested, dropped[i]);
      PrunedValue(requested, dropped, dropped[i]);
    }
  }

  lemma DroppedAreLeaves(e: Env, r: Request, requested: Fields)
    requires LawfulEnv(e)
    ensures forall p | p in DroppedFrom(e, requested, r.workload) :: LeafAt(requested, p).Some? && !IsLive(r, p)
  {
    forall p | p in DroppedFrom(e, requested, r.workload) ensures LeafAt(requested, p).Some? && !IsLive(r, p) {
      assert p in AbsentPaths(requested, r.workload);
      LeafPathsAreTheLeaves(requested, p);
    }
  }

  /** Pruning leaves no refused field behind and brings none back. */
  lemma PrunedValue(patch: Fields, paths: seq<Path>, p: Path)
    requires forall s | s in paths :: LeafAt(patch, s).Some?
    ensures [] !in paths
    ensures ValueAt(Pruned(Some(patch), paths), p) == if p in paths then None else LeafAt(patch, p)
  {
    PrunedLeaves(patch, paths, p);
  }

  lemma RefusedIsTruthful(e: Env, r: Request, step: Step)
    requires LawfulEnv(e) && TruthfulStep(step) && RefusalsOnly(r, step)
    ensures TruthfulStep(RefuseStep(e, step, r.workload)) && RefusalsOnly(r, RefuseStep(e, step, r.workload))
  {
    var out := RefuseStep(e, step, r.workload);
    if out != step {
      var patch, base := step.patch.value, Baseline(e, step, r.workload).value;
      var fields := e.order(Breaches(e, patch, base));
      forall s | s in fields ensures LeafAt(patch, s).Some? {
        LeafPathsAreTheLeaves(patch, s);
      }
      forall s | s in out.safety
        ensures Truthful(s, out.patch)
        ensures s.verdict.Rejected? && (s.rule.BlastRadius? || (s.rule.AbsentField? && !IsLive(r, s.field)))
      {
        PrunedValue(patch, fields, s.field);
        if s !in step.safety {
          assert s in RefusalEntries(e, patch, base, fields);
          var i :| 0 <= i < |fields| && s == RefusalEntry(e, patch, base, fields[i]);
        }
      }
    }
  }

  lemma {:induction false} NewEntriesNameDerived(
    e: Env, safety: seq<Safety>, derived: map<Path, string>, fields: seq<Path>, s: Safety)
    requires forall p | p in fields :: p in derived
    requires s in NewEntries(e, safety, derived, fields)
    ensures s.verdict.Derived? && s.field in derived && s.permitted == derived[s.field]
    decreases |fields|
  {
    assert fields[0] in fields && forall p | p in fields[1..] :: p in fields;
    if s in NewEntries(e, safety, derived, fields[1..]) {
      NewEntriesNameDerived(e, safety, derived, fields[1..], s);
    }
  }

  /** What the derivation records: entries it settled or added name a derived
      field and its value, the others are the old ones on other fields. */
  lemma RecordedEntry(e: Env, r: Request, safety: seq<Safety>, derived: map<Path, string>, s: Safety)
    requires LawfulEnv(e) && s in RecordDerived(e, safety, derived)
    requires forall t | t in safety ::
      t.verdict.Rejected? && (t.rule.BlastRadius? || (t.rule.AbsentField? && !IsLive(r, t.field)))
    requires forall p | p in derived :: IsLive(r, p)
    ensures if s.verdict.Rejected? then s in safety && s.field !in derived
            else s.field in derived && s.permitted == derived[s.field]
  {
    assert forall p | p in e.order(derived.Keys) :: p in derived.Keys;
    var settled := seq(|safety|, i requires 0 <= i < |safety| => SettledEntry(e, safety[i], derived));
    if s in settled {
      var i :| 0 <= i < |safety| && s == SettledEntry(e, safety[i], derived);
      assert safety[i] in safety;
    } else {
      NewEntriesNameDerived(e, safety, derived, e.order(derived.Keys), s);
    }
  }

  lemma InstalledIsTruthful(e: Env, r: Request)
    requires LawfulEnv(e) && Installs(e, r)
    requires var step := AfterSafety(e, r)[DerivedStepIndex(AfterSafety(e, r)).value];
      TruthfulStep(step) && RefusalsOnly(r, step)
    ensures TruthfulStep(Installed(e, r))
  {
    var step := AfterSafety(e, r)[DerivedStepIndex(AfterSafety(e, r)).value];
    var derived := LeafValues(ChangeOf(e, r).patch);
    forall p | p in derived ensures IsLive(r, p) && IsResourcePath(p) {
      DerivedLeafIsLive(e, r, p);
    }
    forall s | s in Installed(e, r).safety ensures Truthful(s, Installed(e, r).patch) {
      RecordedEntry(e, r, step.safety, derived, s);
      InstalledValue(e, r, step, s.field);
    }
  }

  lemma DerivedLeafIsLive(e: Env, r: Request, p: Path)
    requires ResourceChange(e.q, r.diagnosis, r.persona, r.workload).Sized?
    requires p in LeafValues(ResourceChange(e.q, r.diagnosis, r.persona, r.workload).patch)
    ensures IsLive(r, p) && IsResourcePath(p)
  {
    var change := ResourceChange(e.q, r.diagnosis, r.persona, r.workload);
    LeafPathsAreTheLeaves(change.patch, p);
    SizedPatchHitsTarget(e.q, r.diagnosis, r.persona, r.workload, p);
    var dim := TargetDimension(e.q, r.diagnosis, r.persona, r.workload);
  }

  /** The merged patch at a field: the derived value where there is one, else
      nothing that was not there. */
  lemma InstalledValue(e: Env, r: Request, step: Step, p: Path)
    requires LawfulEnv(e) && ResourceChange(e.q, r.diagnosis, r.persona, r.workload).Sized?
    ensures var change := ResourceChange(e.q, r.diagnosis, r.persona, r.workload);
      var derived, out := LeafValues(change.patch), InstallDerived(e, step, change);
      && (p in derived ==> ValueAt(out.patch, p) == Some(Str(derived[p])))
      && (p !in derived && ValueAt(step.patch, p).None? ==> ValueAt(out.patch, p).None?)
  {
    var change := ResourceChange(e.q, r.diagnosis, r.persona, r.workload);
    LeafPathsAreTheLeaves(change.patch, p);
    SizedPatchHitsTarget(e.q, r.diagnosis, r.persona, r.workload, p);
    if step.patch.Some? {
      if LeafAt(change.patch, p).Some? { OverlayLeavesWin(step.patch.value, change.patch, p); }
      if LeafAt(Merged(step.patch.value, change.patch), p).Some? {
        MergedLeafHasASource(step.patch.value, change.patch, p);
      }
    }
  }

  // ---------------------------------------------------------------------------
  // Over the pipeline
  // ---------------------------------------------------------------------------

  lemma SafeStepsAreTruthful(e: Env, r: Request)
    requires LawfulEnv(e)
    ensures forall s | s in AfterSafety(e, r) :: TruthfulStep(s) && RefusalsOnly(r, s)
  {
    forall i | 0 <= i < |AfterSafety(e, r)|
      ensures TruthfulStep(AfterSafety(e, r)[i]) && RefusalsOnly(r, AfterSafety(e, r)[i])
    {
      SafeStep(e, r, i);
      MappedIsTruthful(e, r, r.planned[i]);
      RefusedIsTruthful(e, r, MapStep(e, r.planned[i], r.persona, r.workload));
    }
  }

  lemma SameWriteIsTruthful()
    ensures forall a, b | SameWrite(a, b) && TruthfulStep(b) :: TruthfulStep(a)
  {
  }

  lemma BeforeScrubsAreTruthful(e: Env, r: Request)
    requires LawfulEnv(e) && EnsuredSteps(e, r).Some?
    ensures forall s | s in BeforeScrubs(e, r).steps :: TruthfulStep(s)
  {
    SafeStepsAreTruthful(e, r);
    if Installs(e, r) { InstalledIsTruthful(e, r); }
    SameWriteIsTruthful();
    ReachesScrubs(e, r, (s: Step) => TruthfulStep(s));
  }

  /** The scrub removes leaves that are no resources, so no permitted value. */
  lemma ScrubKeepsTruth(e: Env, step: Step, refused: seq<Redaction.RefusedValue>)
    requires TruthfulStep(step) && (step.patch.Some? ==> Spares(e, step.patch.value, refused))
    ensures TruthfulStep(Scrubbed(e, step, refused))
  {
    if step.patch.Some? {
      var paths := RefusedPaths(e, step.patch.value, refused);
      RefusedPathsAreHeld(e, step.patch.value, refused);
      forall s | s in step.safety ensures Truthful(s, WithoutRefused(e, step.patch, refused)) {
        PrunedValue(step.patch.value, paths, s.field);
      }
    }
  }

  /** Main result: in every created plan the record tells the truth. A field a
      step records as refused has no value in that step's patch, and a value it
      records as permitted or derived is the one the patch sets. */
  lemma RecordsMatchPatches(e: Env, r: Request)
    requires LawfulEnv(e) && Built(e, r).Created?
    ensures forall s | s in Built(e, r).contents.steps :: TruthfulStep(s)
  {
    forall i | 0 <= i < |Built(e, r).contents.steps| ensures TruthfulStep(Built(e, r).contents.steps[i]) {
      CreatedStepIsTruthful(e, r, i);
    }
  }

  lemma CreatedStepIsTruthful(e: Env, r: Request, i: nat)
    requires LawfulEnv(e) && Built(e, r).Created? && i < |Built(e, r).contents.steps|
    ensures TruthfulStep(Built(e, r).contents.steps[i])
  {
    CreatedStep(e, r, i);
    BeforeScrubsAreTruthful(e, r);
    BeforeIsSpared(e, r, i);
    ScrubKeepsTruth(e, BeforeScrubs(e, r).steps[i], RefusedValues(e, BeforeScrubs(e, r).steps));
  }

  /** A created plan lost no resource to the scrub. */
  lemma BeforeIsSpared(e: Env, r: Request, i: nat)
    requires LawfulEnv(e) && Built(e, r).Created? && EnsuredSteps(e, r).Some? && i < |BeforeScrubs(e, r).steps|
    ensures BeforeScrubs(e, r).steps[i] in BeforeScrubs(e, r).steps
    ensures var step := BeforeScrubs(e, r).steps[i];
      step.patch.Some? ==> Spares(e, step.patch.value, RefusedValues(e, BeforeScrubs(e, r).steps))
  {
    CreatedIsNotRefused(e, r);
    if BeforeScrubs(e, r).steps[i].patch.Some? { ScrubSparesResources(e, r, BeforeScrubs(e, r).steps[i]); }
  }
}
