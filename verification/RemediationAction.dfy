/** The action under construction, rewritten in place stage by stage
    (proposeWithPlanner and the functions it calls). */
module Pipeline {
  import opened Json
  import opened Merge
  import opened Prune
  import opened Sizing
  import opened Plan
  import Kubectl
  import GuardrailClaims
  import Redaction

  // ---------------------------------------------------------------------------
  // Reading patches
  // ---------------------------------------------------------------------------

  /** extractResources. */
  method ExtractResources(e: Env, f: Fields) returns (result: map<Path, real>)
    ensures forall p :: p in result <==> AmountAt(e, f, p).Some?
    ensures forall p | p in result :: Some(result[p]) == AmountAt(e, f, p)
    decreases Obj(f)
  {
    result := map[];
    var todo := f.Keys;
    while todo != {}
      invariant todo <= f.Keys
      invariant forall p :: p in result <==> AmountAt(e, f, p).Some? && p[0] !in todo
      invariant forall p | p in result :: Some(result[p]) == AmountAt(e, f, p)
      decreases todo
    {
      var k :| k in todo;
      ghost var before := result;
      if f[k].Obj? {
        var inner := ExtractResources(e, f[k].fields);
        result := result + Lifted(k, inner);
        forall p ensures p in result <==> AmountAt(e, f, p).Some? && p[0] !in todo - {k} {
          BelowKey(e, f, k, p);
          LiftedKeys(k, inner, p);
        }
        forall p | p in result ensures Some(result[p]) == AmountAt(e, f, p) {
          BelowKey(e, f, k, p);
          LiftedKeys(k, inner, p);
        }
      } else {
        var amount := AmountAt(e, f, [k]);
        if amount.Some? { result := result[[k] := amount.value]; }
        forall p ensures p in result <==> AmountAt(e, f, p).Some? && p[0] !in todo - {k} {
          AtKey(e, f, k, p);
          assert p in before ==> p[0] != k;
        }
      }
      todo := todo - {k};
    }
  }

  lemma BelowKey(e: Env, f: Fields, k: string, p: Path)
    requires k in f && f[k].Obj?
    ensures p != [] && p[0] == k ==> AmountAt(e, f, p) == AmountAt(e, f[k].fields, p[1..])
    ensures p == [] ==> AmountAt(e, f, p).None?
  {
  }

  lemma AtKey(e: Env, f: Fields, k: string, p: Path)
    requires k in f && !f[k].Obj?
    ensures AmountAt(e, f, p).Some? && p[0] == k ==> p == [k]
    ensures AmountAt(e, f, p).Some? ==> p != []
  {
  }

  /** The entries of an object's field, under its key. */
  function Lifted(k: string, inner: map<Path, real>): map<Path, real>
  {
    var keys := set q | q in inner :: [k] + q;
    map p | p in keys :: assert p[1..] in inner by { LiftedTail(k, inner, p); } inner[p[1..]]
  }

  lemma LiftedTail(k: string, inner: map<Path, real>, p: Path)
    requires exists q | q in inner :: p == [k] + q
    ensures p != [] && p[1..] in inner
  {
  }

  lemma LiftedKeys(k: string, inner: map<Path, real>, p: Path)
    ensures p in Lifted(k, inner) <==> p != [] && p[0] == k && p[1..] in inner
    ensures p in Lifted(k, inner) ==> Lifted(k, inner)[p] == inner[p[1..]]
  {
    if p != [] && p[0] == k { assert p == [k] + p[1..]; }
    if p in Lifted(k, inner) { LiftedTail(k, inner, p); }
  }

  /** checkBlastRadius: every field that breaches the cap, in field order. */
  method CheckBlastRadius(e: Env, patch: Fields, base: Fields) returns (fields: seq<Path>)
    ensures fields == e.order(Breaches(e, patch, base))
    ensures LawfulEnv(e) ==> forall p :: p in fields <==>
      && AmountAt(e, patch, p).Some? && AmountAt(e, base, p).Some? && AmountAt(e, base, p).value > 0.0
      && (|| AmountAt(e, patch, p).value > 2.0 * AmountAt(e, base, p).value
          || 2.0 * AmountAt(e, patch, p).value < AmountAt(e, base, p).value
          || AmountAt(e, patch, p).value <= 0.0)
  {
    var requested := ExtractResources(e, patch);
    var baseline := ExtractResources(e, base);
    var found, todo := {}, requested.Keys;
    while todo != {}
      invariant todo <= requested.Keys
      invariant forall p :: p in found <==> p in requested && p !in todo && Breach(e, patch, base, p)
      decreases todo
    {
      var p :| p in todo;
      todo := todo - {p};
      if p in baseline && baseline[p] > 0.0 && OutsideCap(baseline[p], requested[p]) {
        found := found + {p};
      }
    }
    forall p ensures p in found <==> p in Breaches(e, patch, base) {
      LeafPathsAreTheLeaves(patch, p);
    }
    assert found == Breaches(e, patch, base);
    fields := e.order(found);
  }

  /** groundedPrePatch. */
  method GroundedPrePatch(e: Env, patch: Fields, w: Workload) returns (grounded: Option<Fields>)
    requires LawfulEnv(e)
    ensures grounded == Grounded(e, patch, w)
  {
    var values := CollectLiveValues(patch, w);
    if |values| == 0 {
      return None;
    }
    var order := e.order(values.Keys);
    assert forall p | p in order :: p in values.Keys;
    var snapshot := BuildSnapshot(order, values);
    return Some(snapshot);
  }

  method CollectLiveValues(patch: Fields, w: Workload) returns (values: map<Path, string>)
    ensures values == LiveValues(patch, w)
  {
    var paths := CollectLeafPaths(patch);
    values := map[];
    for i := 0 to |paths|
      invariant forall p :: p in values <==> p in paths[..i] && Observed(w, p).Some?
      invariant forall p | p in values :: values[p] == Observed(w, p).value
    {
      var live := Observed(w, paths[i]);
      if live.Some? {
        values := values[paths[i] := live.value];
      }
    }
    forall p ensures p in paths <==> p in LeafPaths(patch) { LeafPathsAreTheLeaves(patch, p); }
    assert paths[..|paths|] == paths;
    assert values.Keys == LiveValues(patch, w).Keys;
  }

  method BuildSnapshot(order: seq<Path>, values: map<Path, string>) returns (snapshot: Fields)
    requires forall p | p in order :: p != [] && p in values
    ensures snapshot == WithPaths(map[], order, values)
  {
    snapshot := map[];
    for i := 0 to |order|
      invariant forall p | p in order[i..] :: p in order
      invariant WithPaths(snapshot, order[i..], values) == WithPaths(map[], order, values)
    {
      assert order[i] in order && order[i..][0] == order[i] && order[i..][1..] == order[i + 1..];
      snapshot := WithPath(snapshot, order[i], values[order[i]]);
    }
    assert order[|order|..] == [];
  }

  /** dropAbsentResourceKeys, up to the pruning. */
  method AbsentResourceKeys(e: Env, patch: Fields, w: Workload) returns (dropped: seq<Path>)
    requires LawfulEnv(e)
    ensures dropped == if AbsentPaths(patch, w) == {} then [] else e.order(AbsentPaths(patch, w))
  {
    if w.Unresolved? {
      return [];
    }
    var absent := CollectAbsent(patch, w);
    if |absent| == 0 {
      return [];
    }
    return e.order(absent);
  }

  method CollectAbsent(patch: Fields, w: Workload) returns (absent: set<Path>)
    requires w.Resolved?
    ensures absent == AbsentPaths(patch, w)
  {
    var paths := CollectLeafPaths(patch);
    absent := {};
    for i := 0 to |paths|
      invariant forall p :: p in absent <==> p in paths[..i] && IsResourcePath(p) && Observed(w, p).None?
    {
      var drop := IsResourcePath(paths[i]) && Observed(w, paths[i]).None?;
      if drop {
        absent := absent + {paths[i]};
      }
    }
    assert paths[..|paths|] == paths;
    forall p ensures p in absent <==> p in AbsentPaths(patch, w) { LeafPathsAreTheLeaves(patch, p); }
  }

  /** mapPlannedSteps. */
  method MapPlannedSteps(e: Env, planned: seq<PlannedStep>, persona: Option<Fields>, w: Workload)
    returns (steps: seq<Step>)
    requires LawfulEnv(e)
    ensures steps == MapSteps(e, planned, persona, w)
  {
    steps := [];
    ghost var mapped := MapSteps(e, planned, persona, w);
    for i := 0 to |planned|
      invariant steps == mapped[..i]
    {
      var step := MapAt(e, planned, i, persona, w, mapped);
      steps := steps + [step];
    }
  }

  method MapAt(
    e: Env, planned: seq<PlannedStep>, i: nat, persona: Option<Fields>, w: Workload, ghost mapped: seq<Step>)
    returns (step: Step)
    requires LawfulEnv(e) && i < |planned| && mapped == MapSteps(e, planned, persona, w)
    ensures step == mapped[i]
  {
    step := MapPlannedStep(e, planned[i], persona, w);
  }

  method MapPlannedStep(e: Env, ps: PlannedStep, persona: Option<Fields>, w: Workload) returns (step: Step)
    requires LawfulEnv(e)
    ensures step == MapStep(e, ps, persona, w)
  {
    var updates := ps.stype.PersonaUpdate?;
    var command := if updates then "" else Kubectl.Sanitized(e.u, ps.command);
    step := Step(ps.order, ps.stype, ps.description, ps.rationale, updates, command, None, None, []);
    if updates && ps.patch.Some? {
      var dropped := AbsentResourceKeys(e, ps.patch.value, w);
      NoAbsentKeys(e, ps.patch.value, w);
      var patch := PrunePatchPaths(ps.patch, dropped);
      if |dropped| > 0 {
        step := step.(rationale := e.note(step.rationale, e.say(AbsentNote(dropped))),
                      safety := AbsentEntries(e, ps.patch.value, dropped));
      }
      step := step.(patch := patch);
      if patch.Some? {
        step := step.(prePatch := Snapshot(persona, patch.value));
      } else {
        step := step.(auto := false);
      }
    } else if updates {
      step := step.(auto := false);
    }
  }

  lemma SwappedStep(e: Env, c: Contents, w: Workload, i: nat)
    requires LawfulEnv(e) && i < |c.steps|
    ensures |Swapped(e, c, w).steps| == |c.steps|
    ensures Swapped(e, c, w).steps[i] ==
            c.steps[i].(prePatch := GroundedOr(e, c.steps[i].patch, c.steps[i].prePatch, w))
  {
  }

  lemma NoAbsentKeys(e: Env, patch: Fields, w: Workload)
    requires LawfulEnv(e)
    ensures [] !in e.order(AbsentPaths(patch, w))
    ensures AbsentPaths(patch, w) != {} ==> e.order(AbsentPaths(patch, w)) != []
  {
  }

  // ---------------------------------------------------------------------------
  // The action
  // ---------------------------------------------------------------------------

  class RemediationAction {
    var steps: seq<Step>
    var detail: Detail
    var planSummary: string
    var explanation: string
    var confidence: real

    ghost function View(): Contents
      reads this
    {
      Contents(steps, detail, planSummary, explanation, confidence)
    }

    /** buildPlanAction. */
    constructor (e: Env, steps: seq<Step>, rootCause: string, confidence: real)
      ensures View() == Contents(steps, BackCompat(steps), rootCause, Explained(e, steps), confidence)
    {
      this.steps := steps;
      this.planSummary := rootCause;
      this.explanation := Explained(e, steps);
      this.confidence := confidence;
      this.detail := ADVISORY;
      new;
      SetBackCompatAction();
    }

    /** setBackCompatAction. */
    method SetBackCompatAction()
      modifies this`detail
      ensures View() == old(View()).(detail := BackCompat(steps))
    {
      for i := 0 to |steps|
        invariant BackCompat(steps) == BackCompat(steps[i..])
        invariant View() == old(View())
      {
        assert steps[i..][0] == steps[i] && steps[i..][1..] == steps[i + 1..];
        if steps[i].auto && steps[i].stype.PersonaUpdate? {
          detail := Detail(UpdatePersona, steps[i].patch, steps[i].prePatch);
          return;
        }
      }
      assert steps[|steps|..] == [];
      detail := ADVISORY;
    }

    /** applyStepSafety's per-step half. */
    method ApplyStepSafety(e: Env, w: Workload)
      requires LawfulEnv(e)
      modifies this`steps
      ensures View() == old(View()).(steps := RefuseSteps(e, old(steps), w))
    {
      ghost var before := steps;
      for i := 0 to |steps|
        invariant |steps| == |before|
        invariant forall j | 0 <= j < i :: steps[j] == RefuseStep(e, before[j], w)
        invariant forall j | i <= j < |steps| :: steps[j] == before[j]
      {
        var step := CheckStep(e, steps[i], w);
        steps := steps[i := step];
      }
      assert steps == RefuseSteps(e, before, w);
    }

    /** ensureAppliableResourcePlan. */
    method EnsureAppliableResourcePlan(e: Env, d: Diagnosis, persona: Option<Fields>, w: Workload)
      returns (refused: bool, declined: bool)
      requires LawfulEnv(e)
      modifies this`steps
      ensures var r := EnsureAppliable(e, old(steps), detail, d, persona, w);
        && (refused <==> r.Refused?) && (declined <==> r.RuleEngineDeclined?)
        && View() == old(View()).(steps := if r.Kept? then r.steps else old(steps))
    {
      var target := TargetPath(d);
      if target.None? || Applies(steps, detail, target.value) {
        return false, false;
      }
      var change := ResourceChange(e.q, d, persona, w);
      if !change.Sized? {
        return change.Unparsable?, !change.Unparsable?;
      }
      var i := DerivedStepIndex(steps);
      if i.None? {
        return true, false;
      }
      var step := InstallDerivedPatch(e, steps[i.value], change);
      steps := steps[i.value := step];
      return false, false;
    }

    /** dropPatchlessPersonaUpdates. */
    method DropPatchlessPersonaUpdates() returns (dropped: nat)
      modifies this`steps
      ensures View() == old(View()).(steps := DropPatchless(old(steps)))
      ensures dropped == |old(steps)| - |steps|
    {
      var kept := KeepUseful(steps);
      dropped := |steps| - |kept|;
      if dropped == 0 {
        return;
      }
      steps := Renumber(kept);
    }

    /** enforceAutoExecutableInvariant. */
    method EnforceAutoExecutableInvariant()
      modifies this`steps
      ensures View() == old(View()).(steps := EnforceAll(old(steps)))
      ensures |steps| == |old(steps)| && forall i | 0 <= i < |steps| ::
        steps[i] == old(steps)[i].(auto := old(steps)[i].auto && old(steps)[i].stype.PersonaUpdate?)
    {
      ghost var before := steps;
      for i := 0 to |steps|
        invariant |steps| == |before|
        invariant forall j | 0 <= j < i :: steps[j] == Enforced(before[j])
        invariant forall j | i <= j < |steps| :: steps[j] == before[j]
      {
        if steps[i].auto && !steps[i].stype.PersonaUpdate? {
          steps := steps[i := steps[i].(auto := false)];
        }
      }
      assert steps == EnforceAll(before);
    }

    /** proposedResourceChanges. */
    method ProposedResourceChanges() returns (changes: map<Path, string>)
      ensures changes == ProposedChanges(steps, detail)
    {
      changes := map[];
      for i := 0 to |steps|
        invariant changes == StepChanges(steps[..i])
      {
        assert steps[..i + 1][..i] == steps[..i] && steps[..i + 1][i] == steps[i];
        if steps[i].stype.PersonaUpdate? {
          changes := changes + ResourceLeaves(steps[i].patch);
        }
      }
      assert steps[..|steps|] == steps;
      changes := changes + ResourceLeaves(detail.patch);
    }

    /** applyOwnershipShaping, then stripWorkloadWriteCommands. */
    method ShapeForOwner(e: Env, owned: bool)
      modifies this`steps, this`planSummary
      ensures View() == old(View()).(
        steps := OwnAll(e, ProposedChanges(old(steps), detail), old(steps), owned),
        planSummary := OwnedSummary(e, old(steps), old(planSummary), owned))
    {
      ApplyOwnershipShaping(e, owned);
      StripWorkloadWriteCommands(e, owned);
    }

    method ApplyOwnershipShaping(e: Env, owned: bool)
      modifies this`steps, this`planSummary
      ensures |steps| == |old(steps)|
      ensures forall j | 0 <= j < |steps| ::
        steps[j] == if owned then Shaped(e, ProposedChanges(old(steps), detail), old(steps)[j]) else old(steps)[j]
      ensures View() == old(View()).(
        steps := steps, planSummary := OwnedSummary(e, old(steps), old(planSummary), owned))
    {
      if !owned { return; }
      var changes := ProposedResourceChanges();
      var shaped := ShapeSteps(e, changes);
      if shaped {
        planSummary := e.note(planSummary, e.say(OwnerReason));
      }
    }

    method ShapeSteps(e: Env, changes: map<Path, string>) returns (shaped: bool)
      modifies this`steps
      ensures |steps| == |old(steps)| && forall j | 0 <= j < |steps| :: steps[j] == Shaped(e, changes, old(steps)[j])
      ensures shaped <==> exists s | s in old(steps) :: NeedsShaping(e, s)
    {
      ghost var before := steps;
      shaped := false;
      for i := 0 to |steps|
        invariant |steps| == |before|
        invariant forall j | 0 <= j < i :: steps[j] == Shaped(e, changes, before[j])
        invariant forall j | i <= j < |steps| :: steps[j] == before[j]
        invariant shaped <==> exists j | 0 <= j < i :: NeedsShaping(e, before[j])
      {
        if steps[i].stype.PersonaUpdate? { continue; }
        if !Kubectl.WritesWorkload(e.u, steps[i].command) { continue; }
        var instruction := e.say(OwnerInstruction(changes, steps[i].description));
        steps := steps[i := steps[i].(command := "", description := instruction,
                                      rationale := e.note(steps[i].rationale, e.say(OwnerReason)))];
        shaped := true;
      }
    }

    method StripWorkloadWriteCommands(e: Env, owned: bool)
      modifies this`steps
      ensures |steps| == |old(steps)|
      ensures forall j | 0 <= j < |steps| :: steps[j] == if owned then Stripped(e, old(steps)[j]) else old(steps)[j]
      ensures View() == old(View()).(steps := steps)
    {
      if !owned { return; }
      ghost var before := steps;
      for i := 0 to |steps|
        invariant |steps| == |before|
        invariant forall j | 0 <= j < i :: steps[j] == Stripped(e, before[j])
        invariant forall j | i <= j < |steps| :: steps[j] == before[j]
      {
        if Kubectl.WritesWorkload(e.u, steps[i].command) {
          steps := steps[i := steps[i].(command := "")];
        }
      }
    }

    /** discloseBlastRadiusClamp. */
    method DiscloseBlastRadiusClamp(e: Env) returns (disclosed: bool)
      modifies this`steps, this`planSummary, this`explanation, this`confidence
      ensures View() == Disclosed(e, old(View()))
    {
      var clamped := DiscloseSteps(e);
      DisclosedIs(e, old(View()), steps);
      clamped := clamped + CapFields(e, detail.patch, detail.prePatch);
      disclosed := Caveat(e, clamped);
    }

    method Caveat(e: Env, clamped: set<Path>) returns (disclosed: bool)
      modifies this`planSummary, this`explanation, this`confidence
      ensures View() == Caveated(e, old(View()), clamped) && (disclosed <==> clamped != {})
    {
      if |clamped| == 0 {
        return false;
      }
      var caveat := e.say(CapCaveat(clamped));
      explanation := e.note(explanation, caveat);
      if planSummary != "" {
        planSummary := e.note(planSummary, caveat);
      }
      confidence := confidence * CONFIDENCE_DAMPING;
      return true;
    }

    method DiscloseSteps(e: Env) returns (clamped: set<Path>)
      modifies this`steps
      ensures |steps| == |old(steps)| && forall j | 0 <= j < |steps| :: steps[j] == DisclosedStep(e, old(steps)[j])
      ensures clamped == AllCapFields(e, old(steps))
    {
      ghost var before := steps;
      clamped := {};
      for i := 0 to |steps|
        invariant |steps| == |before|
        invariant forall j | 0 <= j < i :: steps[j] == DisclosedStep(e, before[j])
        invariant forall j | i <= j < |steps| :: steps[j] == before[j]
        invariant clamped + AllCapFields(e, before[i..]) == AllCapFields(e, before)
      {
        assert before[i..][0] == before[i] && before[i..][1..] == before[i + 1..];
        var step, fields := DiscloseStep(e, steps[i]);
        clamped := clamped + fields;
        steps := steps[i := step];
      }
      assert before[|before|..] == [];
    }

    /** discloseGroundedBlastRadiusClamp: swap the live snapshots in, disclose,
        put the recorded ones back. */
    method DiscloseGroundedBlastRadiusClamp(e: Env, w: Workload)
      requires LawfulEnv(e)
      modifies this
      ensures View() == GroundedDisclosure(e, old(View()), w)
    {
      ghost var before := View();
      var savedDetail, saved := SwapIn(e, w);
      var disclosed := DiscloseBlastRadiusClamp(e);
      Restore(saved, savedDetail);
      DisclosureKeepsDetail(e, before, w);
      assert steps == GroundedDisclosure(e, before, w).steps;
    }

    method SwapIn(e: Env, w: Workload) returns (savedDetail: Option<Fields>, saved: seq<Option<Fields>>)
      requires LawfulEnv(e)
      modifies this`steps, this`detail
      ensures View() == Swapped(e, old(View()), w)
      ensures savedDetail == old(detail).prePatch && |saved| == |old(steps)|
      ensures forall j | 0 <= j < |saved| :: saved[j] == old(steps)[j].prePatch
    {
      ghost var swapped := Swapped(e, View(), w);
      savedDetail := detail.prePatch;
      saved := [];
      var grounded := GroundedOrRecorded(e, detail.patch, detail.prePatch, w);
      detail := detail.(prePatch := grounded);
      for i := 0 to |steps|
        invariant |steps| == |old(steps)| && |saved| == i
        invariant detail == swapped.detail && |swapped.steps| == |steps|
        invariant forall j | 0 <= j < i :: saved[j] == old(steps)[j].prePatch
        invariant forall j | 0 <= j < i :: steps[j] == swapped.steps[j]
        invariant forall j | i <= j < |steps| :: steps[j] == old(steps)[j]
      {
        saved := saved + [steps[i].prePatch];
        grounded := GroundedOrRecorded(e, steps[i].patch, steps[i].prePatch, w);
        SwappedStep(e, old(View()), w, i);
        steps := steps[i := steps[i].(prePatch := grounded)];
      }
      assert steps == swapped.steps;
    }

    method Restore(saved: seq<Option<Fields>>, savedDetail: Option<Fields>)
      requires |saved| == |steps|
      modifies this`steps, this`detail
      ensures |steps| == |old(steps)| && detail == old(detail).(prePatch := savedDetail)
      ensures forall j | 0 <= j < |steps| :: steps[j] == old(steps)[j].(prePatch := saved[j])
    {
      for i := 0 to |steps|
        invariant |steps| == |old(steps)| && detail == old(detail)
        invariant forall j | 0 <= j < i :: steps[j] == old(steps)[j].(prePatch := saved[j])
        invariant forall j | i <= j < |steps| :: steps[j] == old(steps)[j]
      {
        steps := steps[i := steps[i].(prePatch := saved[i])];
      }
      detail := detail.(prePatch := savedDetail);
    }

    /** The stages between the last dropped step and the scrubs. */
    method Settle(e: Env, w: Workload, owned: bool)
      requires LawfulEnv(e)
      modifies this
      ensures View() == Settled(e, old(steps), old(planSummary), old(confidence), w, owned)
    {
      Prepare(e, owned);
      DiscloseGroundedBlastRadiusClamp(e, w);
    }

    method Prepare(e: Env, owned: bool)
      modifies this
      ensures View() == Undisclosed(e, old(steps), old(planSummary), old(confidence), owned)
    {
      SetBackCompatAction();
      EnforceAutoExecutableInvariant();
      ShapeForOwner(e, owned);
      explanation := Explained(e, steps);
    }

    /** The stages after ensureAppliableResourcePlan. */
    method Finish(e: Env, r: Request, declined: bool) returns (created: bool)
      requires LawfulEnv(e) && planSummary == r.rootCause && confidence == r.confidence && steps != []
      modifies this
      ensures created <==> Finished(e, r, old(steps), declined).Created?
      ensures created ==> Finished(e, r, old(steps), declined) == Created(View())
    {
      var dropped := DropPatchlessPersonaUpdates();
      if dropped > 0 && |steps| == 0 {
        return false;
      }
      Settle(e, r.workload, r.owned);
      ScrubRefusedValues(e);
      ScrubFabricatedGuardrailClaims(e);
      var c := Contents(steps, detail, planSummary, explanation, confidence);
      created := AssertsAppliable(c, r.diagnosis, declined) && r.createLands;
    }

    /** refusedValues. */
    method RefusedValuesOnPlan(e: Env) returns (out: seq<Redaction.RefusedValue>)
      ensures out == RefusedValues(e, steps)
    {
      out := [];
      var seen: set<(Path, string)> := {};
      for i := 0 to |steps|
        invariant out + RefusedAmong(e, AllSafety(steps[i..]), seen) == RefusedValues(e, steps)
      {
        var safety := steps[i].safety;
        ghost var later := AllSafety(steps[i + 1..]);
        assert steps[i..][0] == steps[i] && steps[i..][1..] == steps[i + 1..];
        assert safety[0..] == safety;
        for k := 0 to |safety|
          invariant out + RefusedAmong(e, safety[k..] + later, seen) == RefusedValues(e, steps)
        {
          var s := safety[k];
          assert (safety[k..] + later)[0] == s && (safety[k..] + later)[1..] == safety[k + 1..] + later;
          if !IsRefusal(s) { continue; }
          if (s.field, s.requested) in seen { continue; }
          seen := seen + {(s.field, s.requested)};
          out := out + [RefusedValueOf(e, s)];
        }
        assert safety[|safety|..] + later == later;
      }
      assert steps[|steps|..] == [];
    }

    /** scrubRefusedValues. */
    method ScrubRefusedValues(e: Env)
      modifies this
      ensures View() == ScrubRefused(e, old(View()))
    {
      var refused := RefusedValuesOnPlan(e);
      if |refused| == 0 {
        return;
      }
      ScrubEverywhere(e, refused);
    }

    method ScrubEverywhere(e: Env, refused: seq<Redaction.RefusedValue>)
      modifies this
      ensures View() == ScrubbedOf(e, old(View()), refused)
    {
      var explanationBefore := Explained(e, steps);
      ScrubSteps(e, refused);
      detail := ScrubDetail(e, detail, refused);
      var messages := Messages(AllSafety(steps));
      ScrubProse(e, messages, refused);
      Reexplain(explanationBefore, Explained(e, steps));
    }

    method ScrubProse(e: Env, messages: seq<string>, refused: seq<Redaction.RefusedValue>)
      modifies this`planSummary, this`explanation
      ensures planSummary == Redact(e, old(planSummary), messages, refused)
      ensures explanation == Redact(e, old(explanation), messages, refused)
    {
      planSummary := Redaction.RedactRefusedProse(e.u, e.t, planSummary, messages, refused);
      explanation := Redaction.RedactRefusedProse(e.u, e.t, explanation, messages, refused);
    }

    method Reexplain(before: string, after: string)
      modifies this`explanation
      ensures explanation == Reexplained(old(explanation), before, after)
    {
      if after != before && before <= explanation {
        explanation := after + explanation[|before|..];
      }
    }

    method ScrubSteps(e: Env, refused: seq<Redaction.RefusedValue>)
      modifies this`steps
      ensures steps == ScrubbedSteps(e, old(steps), refused)
    {
      for i := 0 to |steps|
        invariant |steps| == |old(steps)|
        invariant forall j | 0 <= j < i :: steps[j] == Scrubbed(e, old(steps)[j], refused)
        invariant forall j | i <= j < |steps| :: steps[j] == old(steps)[j]
      {
        var step := ScrubStep(e, steps[i], refused);
        steps := steps[i := step];
      }
      assert steps == ScrubbedSteps(e, old(steps), refused);
    }

    /** scrubFabricatedGuardrailClaims. */
    method ScrubFabricatedGuardrailClaims(e: Env)
      modifies this
      ensures View() == ScrubClaims(e, old(View()))
    {
      for i := 0 to |steps|
        invariant forall j | 0 <= j < i :: steps[j].safety == []
        invariant View() == old(View())
      {
        if |steps[i].safety| > 0 {
          assert steps[i] in steps && steps[i].safety != [];
          return;
        }
      }
      ghost var before := View();
      assert !Spoke(before.steps);
      for i := 0 to |steps|
        invariant |steps| == |before.steps|
        invariant forall j | 0 <= j < i :: steps[j] == Unclaimed(e, before.steps[j])
        invariant forall j | i <= j < |steps| :: steps[j] == before.steps[j]
        invariant View() == before.(steps := steps)
      {
        var description, one := GuardrailClaims.DropGuardrailClaims(e.u, steps[i].description);
        var rationale, two := GuardrailClaims.DropGuardrailClaims(e.u, steps[i].rationale);
        steps := steps[i := steps[i].(description := description, rationale := rationale)];
      }
      assert steps == UnclaimedSteps(e, before.steps);
      var changed;
      planSummary, changed := GuardrailClaims.DropGuardrailClaims(e.u, planSummary);
      explanation, changed := GuardrailClaims.DropGuardrailClaims(e.u, explanation);
    }
  }

  // ---------------------------------------------------------------------------
  // Rewriting one step
  // ---------------------------------------------------------------------------

  lemma BreachesAreLeaves(e: Env, patch: Fields, base: Fields)
    requires LawfulEnv(e)
    ensures [] !in e.order(Breaches(e, patch, base))
  {
  }

  /** What applyStepSafety does to one step. */
  method CheckStep(e: Env, step: Step, w: Workload) returns (out: Step)
    requires LawfulEnv(e)
    ensures out == RefuseStep(e, step, w)
  {
    if !step.auto || !step.stype.PersonaUpdate? || step.patch.None? {
      return step;
    }
    var base := GroundedPrePatch(e, step.patch.value, w);
    if base.None? { base := step.prePatch; }
    if base.None? {
      return step;
    }
    var fields := CheckBlastRadius(e, step.patch.value, base.value);
    if |fields| == 0 {
      return step;
    }
    BreachesAreLeaves(e, step.patch.value, base.value);
    out := RefuseStepFields(e, step, base.value, fields);
  }

  /** refuseStepFields. */
  method RefuseStepFields(e: Env, step: Step, base: Fields, fields: seq<Path>) returns (out: Step)
    requires step.patch.Some? && fields != [] && [] !in fields
    ensures var safety := step.safety + RefusalEntries(e, step.patch.value, base, fields);
      var pruned := Pruned(step.patch, fields);
      out == step.(safety := safety, patch := pruned, prePatch := Pruned(step.prePatch, fields),
                   auto := step.auto && pruned.Some?,
                   description := e.say(RuledDescription(pruned, safety)), rationale := e.say(GuardedRationale))
  {
    out := step;
    for i := 0 to |fields|
      invariant out == step.(safety := step.safety + RefusalEntries(e, step.patch.value, base, fields[..i]))
    {
      var entry := RefusalEntry(e, step.patch.value, base, fields[i]);
      assert RefusalEntries(e, step.patch.value, base, fields[..i + 1])
          == RefusalEntries(e, step.patch.value, base, fields[..i]) + [entry];
      out := out.(safety := out.safety + [entry]);
    }
    assert fields[..|fields|] == fields;
    var patch := PrunePatchPaths(step.patch, fields);
    var prePatch := PrunePatchPaths(step.prePatch, fields);
    out := out.(patch := patch, prePatch := prePatch);
    if patch.None? {
      out := out.(auto := false);
    }
    out := out.(description := e.say(RuledDescription(patch, out.safety)), rationale := e.say(GuardedRationale));
  }

  /** installDerivedPatch. */
  method InstallDerivedPatch(e: Env, step: Step, change: Change) returns (out: Step)
    requires LawfulEnv(e) && change.Sized?
    ensures out == InstallDerived(e, step, change)
  {
    var patch, prePatch := change.patch, change.prePatch;
    if step.patch.Some? { patch := MergeMaps(step.patch.value, change.patch); }
    if step.prePatch.Some? { prePatch := MergeMaps(step.prePatch.value, change.prePatch); }
    var safety := RecordDerivedValues(e, step.safety, LeafValues(change.patch));
    out := step.(stype := PersonaUpdate, auto := true, patch := Some(patch), prePatch := Some(prePatch),
                 command := "", safety := safety,
                 description := e.say(DerivedDescription(change, safety)),
                 rationale := e.say(DerivedRationale(exists s | s in safety :: s.verdict.Clamped?)));
  }

  /** The first loop of dropPatchlessPersonaUpdates. */
  method KeepUseful(steps: seq<Step>) returns (kept: seq<Step>)
    ensures kept == WithoutNoise(steps)
  {
    kept := [];
    for i := 0 to |steps|
      invariant kept == WithoutNoise(steps[..i])
    {
      UsefulAppend(steps[..i], steps[i]);
      assert steps[..i + 1] == steps[..i] + [steps[i]];
      if IsNoise(steps[i]) { continue; }
      kept := kept + [steps[i]];
    }
    assert steps[..|steps|] == steps;
  }

  lemma {:induction false} UsefulAppend(steps: seq<Step>, s: Step)
    ensures WithoutNoise(steps + [s]) == WithoutNoise(steps) + if IsNoise(s) then [] else [s]
    decreases |steps|
  {
    if steps == [] {
      assert ([] + [s])[1..] == [];
    } else {
      assert (steps + [s])[1..] == steps[1..] + [s];
      UsefulAppend(steps[1..], s);
    }
  }

  /** Its second loop. */
  method Renumber(steps: seq<Step>) returns (kept: seq<Step>)
    ensures kept == Renumbered(steps)
  {
    kept := steps;
    for i := 0 to |kept|
      invariant |kept| == |steps|
      invariant forall j | 0 <= j < i :: kept[j] == steps[j].(order := j + 1)
      invariant forall j | i <= j < |kept| :: kept[j] == steps[j]
    {
      kept := kept[i := kept[i].(order := i + 1)];
    }
  }

  /** recordDerivedValues. */
  method RecordDerivedValues(e: Env, safety: seq<Safety>, derived: map<Path, string>) returns (out: seq<Safety>)
    requires LawfulEnv(e)
    ensures out == RecordDerived(e, safety, derived)
  {
    var settled;
    out, settled := SettleEntries(e, safety, derived);
    assert forall p | p in e.order(derived.Keys) :: p in derived.Keys;
    var entries := RecordUnsettled(e, safety, derived, e.order(derived.Keys), settled);
    assert out == seq(|safety|, i requires 0 <= i < |safety| => SettledEntry(e, safety[i], derived));
    out := out + entries;
  }

  method SettleEntries(e: Env, safety: seq<Safety>, derived: map<Path, string>)
    returns (out: seq<Safety>, settled: set<Path>)
    ensures |out| == |safety| && forall j | 0 <= j < |safety| :: out[j] == SettledEntry(e, safety[j], derived)
    ensures forall p :: p in settled <==> exists s | s in safety :: Settles(s, derived) && s.field == p
  {
    out, settled := safety, {};
    for i := 0 to |out|
      invariant |out| == |safety|
      invariant forall j | 0 <= j < i :: out[j] == SettledEntry(e, safety[j], derived)
      invariant forall j | i <= j < |out| :: out[j] == safety[j]
      invariant forall p :: p in settled <==> exists j | 0 <= j < i ::
        Settles(safety[j], derived) && safety[j].field == p
    {
      if !Settles(out[i], derived) { continue; }
      settled := settled + {out[i].field};
      out := out[i := SettledEntry(e, out[i], derived)];
    }
  }

  method RecordUnsettled(e: Env, safety: seq<Safety>, derived: map<Path, string>, fields: seq<Path>, settled: set<Path>)
    returns (entries: seq<Safety>)
    requires forall p | p in fields :: p in derived
    requires forall p :: p in settled <==> exists s | s in safety :: Settles(s, derived) && s.field == p
    ensures entries == NewEntries(e, safety, derived, fields)
  {
    entries := [];
    for i := 0 to |fields|
      invariant forall p | p in fields[..i] :: p in derived
      invariant entries == NewEntries(e, safety, derived, fields[..i])
    {
      assert fields[i] in fields && forall p | p in fields[..i + 1] :: p in fields;
      OneMoreEntry(e, safety, derived, fields, i);
      if fields[i] in settled { continue; }
      entries := entries + [DerivedEntry(e, derived, fields[i])];
    }
    assert fields[..|fields|] == fields;
  }

  lemma {:induction false} OneMoreEntry(
    e: Env, safety: seq<Safety>, derived: map<Path, string>, fields: seq<Path>, i: nat)
    requires i < |fields| && forall p | p in fields :: p in derived
    ensures (forall p | p in fields[..i] :: p in derived) && (forall p | p in fields[..i + 1] :: p in derived)
    ensures fields[i] in derived
    ensures NewEntries(e, safety, derived, fields[..i + 1]) ==
            NewEntries(e, safety, derived, fields[..i]) +
            if exists s | s in safety :: Settles(s, derived) && s.field == fields[i] then []
            else [DerivedEntry(e, derived, fields[i])]
    decreases i
  {
    Prefixes(fields, i);
    if i > 0 {
      OneMoreEntry(e, safety, derived, fields[1..], i - 1);
    }
  }

  lemma DisclosedIs(e: Env, c: Contents, steps: seq<Step>)
    requires |steps| == |c.steps| && forall j | 0 <= j < |steps| :: steps[j] == DisclosedStep(e, c.steps[j])
    ensures Disclosed(e, c) ==
            Caveated(e, c.(steps := steps), AllCapFields(e, c.steps) + CapFields(e, c.detail.patch, c.detail.prePatch))
  {
    assert steps == seq(|c.steps|, i requires 0 <= i < |c.steps| => DisclosedStep(e, c.steps[i]));
  }

  lemma Prefixes(fields: seq<Path>, i: nat)
    requires i < |fields|
    ensures fields[i] in fields && fields[..i + 1][0] == fields[0]
    ensures forall p | p in fields[..i] || p in fields[..i + 1] || p in fields[1..] :: p in fields
    ensures if i > 0 then fields[..i + 1][1..] == fields[1..][..i] && fields[..i][1..] == fields[1..][..i - 1]
            else fields[..i + 1][1..] == []
  {
  }

  /** The disclosure's share of one step. */
  method DiscloseStep(e: Env, step: Step) returns (out: Step, fields: set<Path>)
    ensures out == DisclosedStep(e, step) && fields == StepCapFields(e, step)
  {
    if !step.auto || !step.stype.PersonaUpdate? {
      return step, {};
    }
    fields := CapFields(e, step.patch, step.prePatch);
    if |fields| == 0 {
      return step, fields;
    }
    out := step.(rationale := e.note(step.rationale, e.say(CapCaveat(fields))));
  }

  method GroundedOrRecorded(e: Env, patch: Option<Fields>, recorded: Option<Fields>, w: Workload)
    returns (out: Option<Fields>)
    requires LawfulEnv(e)
    ensures out == GroundedOr(e, patch, recorded, w)
  {
    out := recorded;
    if patch.Some? {
      var grounded := GroundedPrePatch(e, patch.value, w);
      if grounded.Some? { out := grounded; }
    }
  }

  lemma DisclosureKeepsDetail(e: Env, c: Contents, w: Workload)
    requires LawfulEnv(e)
    ensures var shown := Disclosed(e, Swapped(e, c, w));
      && shown.detail == c.detail.(prePatch := GroundedOr(e, c.detail.patch, c.detail.prePatch, w))
      && |shown.steps| == |c.steps|
      && GroundedDisclosure(e, c, w).detail == c.detail && |GroundedDisclosure(e, c, w).steps| == |c.steps|
  {
  }

  /** pruneRefusedLeaves. */
  method PruneRefusedLeaves(e: Env, patch: Option<Fields>, refused: seq<Redaction.RefusedValue>)
    returns (pruned: Option<Fields>)
    ensures pruned == WithoutRefused(e, patch, refused)
  {
    if patch.None? {
      return None;
    }
    var paths := CollectRefusedPaths(e, patch.value, refused);
    pruned := PrunePatchPaths(patch, paths);
  }

  method CollectRefusedPaths(e: Env, patch: Fields, refused: seq<Redaction.RefusedValue>) returns (paths: seq<Path>)
    ensures paths == RefusedPaths(e, patch, refused)
  {
    paths := [];
    for i := 0 to |refused|
      invariant paths == RefusedPaths(e, patch, refused[..i])
    {
      OneMoreRefused(e, patch, refused, i);
      var holds := HoldsRefused(e, patch, refused[i]);
      if holds {
        paths := paths + [refused[i].field];
      }
    }
    assert refused[..|refused|] == refused;
  }

  lemma {:induction false} OneMoreRefused(e: Env, patch: Fields, refused: seq<Redaction.RefusedValue>, i: nat)
    requires i < |refused|
    ensures RefusedPaths(e, patch, refused[..i + 1]) ==
            if HoldsRefused(e, patch, refused[i]) then RefusedPaths(e, patch, refused[..i]) + [refused[i].field]
            else RefusedPaths(e, patch, refused[..i])
    decreases i
  {
    assert refused[..i + 1][0] == refused[0];
    if i > 0 {
      assert refused[..i + 1][1..] == refused[1..][..i] && refused[..i][1..] == refused[1..][..i - 1];
      OneMoreRefused(e, patch, refused[1..], i - 1);
    } else {
      assert refused[..1][1..] == [];
    }
  }

  method ScrubDetail(e: Env, detail: Detail, refused: seq<Redaction.RefusedValue>) returns (out: Detail)
    ensures out == ScrubbedDetail(e, detail, refused)
  {
    out := detail;
    var pruned := PruneRefusedLeaves(e, detail.patch, refused);
    if pruned != detail.patch {
      out := out.(patch := pruned);
      if pruned.None? {
        out := ADVISORY;
      }
    }
  }

  /** scrubStep. */
  method ScrubStep(e: Env, step: Step, refused: seq<Redaction.RefusedValue>) returns (out: Step)
    ensures out == Scrubbed(e, step, refused)
  {
    out := step;
    var pruned := PruneRefusedLeaves(e, step.patch, refused);
    if pruned != step.patch {
      out := out.(patch := pruned);
      if pruned.None? { out := out.(auto := false); }
    }
    if step.command != "" {
      var offers := Redaction.OffersRefusedValue(e.t, step.command, refused);
      if offers {
        out := out.(command := "", description := e.note(out.description, e.say(DroppedCommandNote)));
      }
    }
    var messages := Messages(step.safety);
    var description := Redaction.RedactRefusedProse(e.u, e.t, out.description, messages, refused);
    var rationale := Redaction.RedactRefusedProse(e.u, e.t, out.rationale, messages, refused);
    out := out.(description := description, rationale := rationale);
  }

  // ---------------------------------------------------------------------------
  // proposeWithPlanner
  // ---------------------------------------------------------------------------

  /** The stages up to ensureAppliableResourcePlan. */
  method Begin(e: Env, r: Request) returns (building: RemediationAction, skipped: bool, refused: bool, declined: bool)
    requires LawfulEnv(e)
    ensures fresh(building) && skipped == !r.clear
    ensures !skipped ==> (refused <==> EnsuredSteps(e, r).None?)
    ensures !skipped ==> (declined <==> Ensuring(e, r).RuleEngineDeclined?)
    ensures !skipped && !refused ==> building.steps == EnsuredSteps(e, r).value
    ensures building.planSummary == r.rootCause && building.confidence == r.confidence
  {
    var steps := MapPlannedSteps(e, r.planned, r.persona, r.workload);
    building := new RemediationAction(e, steps, r.rootCause, r.confidence);
    ghost var built := building.View();
    building.ApplyStepSafety(e, r.workload);
    ghost var checked := building.View();
    assert checked == built.(steps := AfterSafety(e, r));
    if !r.clear {
      return building, true, false, false;
    }
    skipped := false;
    refused, declined := building.EnsureAppliableResourcePlan(e, r.diagnosis, r.persona, r.workload);
    assert building.View() == checked.(steps := building.steps);
  }

  /** proposeWithPlanner from the planner's answer on: the stages in the code's
      order, on one object. Neither an action nor a skip is the fall-back to the
      rule engine. */
  method ProposeWithPlanner(e: Env, r: Request) returns (action: RemediationAction?, skipped: bool)
    requires LawfulEnv(e)
    ensures skipped ==> action == null
    ensures Built(e, r) == if skipped then Skipped else if action == null then Fallback else Created(action.View())
    ensures action != null ==> fresh(action)
  {
    if |r.planned| == 0 {
      return null, false;
    }
    var building, refused, declined;
    building, skipped, refused, declined := Begin(e, r);
    if skipped {
      return null, true;
    }
    if refused {
      return null, false;
    }
    PlannedIsEnsured(e, r);
    var created := building.Finish(e, r, declined);
    if !created {
      return null, false;
    }
    return building, false;
  }

  lemma PlannedIsEnsured(e: Env, r: Request)
    requires LawfulEnv(e) && EnsuredSteps(e, r).Some?
    ensures |EnsuredSteps(e, r).value| == |r.planned|
  {
  }
}
