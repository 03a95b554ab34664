/** The stages a remediation plan goes through between the planner's answer and
    the Create call (internal/remediation/proposer_ai.go and the files it calls),
    step by step and as values. RemediationAction.dfy runs them in place. */
module Plan {
  import opened Json
  import opened Merge
  import opened Prune
  import opened Sizing
  import Text
  import Kubectl
  import GuardrailClaims
  import Redaction

  datatype StepType = PersonaUpdate | Advisory(name: string)

  datatype Rule = BlastRadius | PlanValidation | AbsentField

  datatype Verdict = Clamped | Rejected | Derived

  /** One guardrail verdict recorded on a step; "" is an unset value. */
  datatype Safety = Safety(
    rule: Rule, verdict: Verdict, field: Path, baseline: string, requested: string, permitted: string, message: string)

  datatype Step = Step(
    order: int, stype: StepType, description: string, rationale: string, auto: bool, command: string,
    patch: Option<Fields>, prePatch: Option<Fields>, safety: seq<Safety>)

  datatype ActionType = UpdatePersona | Notification

  /** The legacy single action. */
  datatype Detail = Detail(atype: ActionType, patch: Option<Fields>, prePatch: Option<Fields>)

  const ADVISORY: Detail := Detail(Notification, None, None)

  datatype Contents = Contents(
    steps: seq<Step>, detail: Detail, planSummary: string, explanation: string, confidence: real)

  /** A step as the planner returned it. `None` stands for a patch that is
      missing or not JSON. */
  datatype PlannedStep = PlannedStep(
    order: int, stype: StepType, description: string, rationale: string, command: string, patch: Option<Fields>)

  /** The sentences Dorgu writes; their wording is a parameter. */
  datatype Saying =
    | AbsentNote(dropped: seq<Path>)
    | AbsentMessage(field: Path)
    | RejectedMessage(entry: Safety)
    | ClampedMessage(entry: Safety)
    | DerivedMessage(field: Path, permitted: string)
    | RuledDescription(patch: Option<Fields>, safety: seq<Safety>)
    | DerivedDescription(change: Change, safety: seq<Safety>)
    | GuardedRationale
    | DerivedRationale(clamped: bool)
    | PlanExplanation(steps: nat, auto: nat)
    | OwnerInstruction(changes: map<Path, string>, fallback: string)
    | OwnerReason
    | DroppedCommandNote
    | CapCaveat(fields: set<Path>)

  /** Library behaviour: quantities, character tables, wording, appendNote, and
      the order in which a set of fields is visited (the code sorts them). */
  datatype Env = Env(
    q: Quantities, u: Text.Unicode, t: Redaction.Scanner,
    say: Saying -> string, note: (string, string) -> string, order: set<Path> -> seq<Path>)

  ghost predicate LawfulEnv(e: Env)
  {
    && LawfulQuantities(e.q)
    && Text.Lawful(e.u)
    && Redaction.LawfulScanner(e.u, e.t)
    && (forall s :: e.t.parse(s) == e.q.parse(s))
    && (forall s, p :: p in e.order(s) <==> p in s)
  }

  // ---------------------------------------------------------------------------
  // mapPlannedSteps
  // ---------------------------------------------------------------------------

  /** The leaves dropAbsentResourceKeys removes. */
  function AbsentPaths(f: Fields, w: Workload): (paths: set<Path>)
    ensures [] !in paths
  {
    set p | p in LeafPaths(f) && w.Resolved? && IsResourcePath(p) && Observed(w, p).None?
  }

  function Document(persona: Fields): Fields
  {
    map["spec" := Obj(persona)]
  }

  /** snapshotPrePatch. */
  function Snapshot(persona: Option<Fields>, patch: Fields): Option<Fields>
  {
    if persona.None? then None
    else
      var snap := Mirrored(patch, Document(persona.value));
      if snap == map[] then None else Some(snap)
  }

  function TextAt(f: Fields, p: Path): string
  {
    match StringAt(f, p) case Some(s) => s case None => ""
  }

  /** recordAbsentFields. */
  function AbsentEntries(e: Env, requested: Fields, dropped: seq<Path>): (entries: seq<Safety>)
    ensures |entries| == |dropped|
    ensures forall i | 0 <= i < |dropped| :: entries[i] == AbsentEntry(e, requested, dropped[i])
  {
    seq(|dropped|, i requires 0 <= i < |dropped| => AbsentEntry(e, requested, dropped[i]))
  }

  function AbsentEntry(e: Env, requested: Fields, p: Path): Safety
  {
    Safety(AbsentField, Rejected, p, "", TextAt(requested, p), "", e.say(AbsentMessage(p)))
  }

  function MapStep(e: Env, ps: PlannedStep, persona: Option<Fields>, w: Workload): Step
    requires LawfulEnv(e)
  {
    var step := Step(ps.order, ps.stype, ps.description, ps.rationale, ps.stype.PersonaUpdate?,
                     if ps.stype.PersonaUpdate? then "" else Kubectl.Sanitized(e.u, ps.command), None, None, []);
    if ps.stype.PersonaUpdate? && ps.patch.Some? then
      var requested := ps.patch.value;
      var absent := AbsentPaths(requested, w);
      var dropped := if absent == {} then [] else e.order(absent);
      var patch := if absent == {} then ps.patch else Pruned(ps.patch, dropped);
      step.(rationale := if dropped == [] then step.rationale else e.note(step.rationale, e.say(AbsentNote(dropped))),
            safety := AbsentEntries(e, requested, dropped),
            patch := patch,
            prePatch := if patch.Some? then Snapshot(persona, patch.value) else None,
            auto := patch.Some?)
    else step.(auto := false)
  }

  // ---------------------------------------------------------------------------
  // applyStepSafety
  // ---------------------------------------------------------------------------

  function LiveValues(f: Fields, w: Workload): (values: map<Path, string>)
    ensures forall p | p in values :: p != []
  {
    map p | p in LeafPaths(f) && Observed(w, p).Some? :: Observed(w, p).value
  }

  /** groundedPrePatch. */
  function Grounded(e: Env, patch: Fields, w: Workload): Option<Fields>
    requires LawfulEnv(e)
  {
    var values := LiveValues(patch, w);
    if values == map[] then None else Some(WithPaths(map[], e.order(values.Keys), values))
  }

  /** What extractResources records at a path. */
  function AmountAt(e: Env, f: Fields, p: Path): Option<real>
  {
    match StringAt(f, p)
    case Some(s) => e.q.parse(s)
    case None => None
  }

  predicate OutsideCap(b: real, x: real)
  {
    x > 2.0 * b || x < 0.5 * b || x <= 0.0
  }

  /** checkBlastRadius, field by field. */
  predicate Breach(e: Env, patch: Fields, base: Fields, p: Path)
  {
    var x, b := AmountAt(e, patch, p), AmountAt(e, base, p);
    x.Some? && b.Some? && b.value > 0.0 && OutsideCap(b.value, x.value)
  }

  function Breaches(e: Env, patch: Fields, base: Fields): (fields: set<Path>)
    ensures [] !in fields
  {
    set p | p in LeafPaths(patch) && Breach(e, patch, base, p)
  }

  function RefusalEntry(e: Env, patch: Fields, base: Fields, p: Path): Safety
  {
    var baseline, requested := e.q.canonical(TextAt(base, p)), e.q.canonical(TextAt(patch, p));
    var entry := Safety(BlastRadius, Rejected, p, baseline, requested, "", "");
    entry.(message := e.say(RejectedMessage(entry)))
  }

  function RefusalEntries(e: Env, patch: Fields, base: Fields, fields: seq<Path>): (entries: seq<Safety>)
    ensures |entries| == |fields|
    ensures forall i | 0 <= i < |fields| :: entries[i] == RefusalEntry(e, patch, base, fields[i])
  {
    seq(|fields|, i requires 0 <= i < |fields| => RefusalEntry(e, patch, base, fields[i]))
  }

  /** The baseline the guardrail measures a step against: the live workload when
      it knows any of the patch's fields, the persona's snapshot otherwise. */
  function Baseline(e: Env, step: Step, w: Workload): Option<Fields>
    requires LawfulEnv(e)
    requires step.patch.Some?
  {
    var grounded := Grounded(e, step.patch.value, w);
    if grounded.Some? then grounded else step.prePatch
  }

  /** refuseStepFields for what checkBlastRadius finds on a step. */
  function RefuseStep(e: Env, step: Step, w: Workload): Step
    requires LawfulEnv(e)
  {
    if !step.auto || !step.stype.PersonaUpdate? || step.patch.None? || Baseline(e, step, w).None? then step
    else
      var patch, base := step.patch.value, Baseline(e, step, w).value;
      var fields := e.order(Breaches(e, patch, base));
      if fields == [] then step
      else
        var safety := step.safety + RefusalEntries(e, patch, base, fields);
        var pruned := Pruned(step.patch, fields);
        step.(safety := safety, patch := pruned, prePatch := Pruned(step.prePatch, fields), auto := pruned.Some?,
              description := e.say(RuledDescription(pruned, safety)), rationale := e.say(GuardedRationale))
  }

  // ---------------------------------------------------------------------------
  // ensureAppliableResourcePlan
  // ---------------------------------------------------------------------------

  predicate AppliesAt(step: Step, target: Path)
  {
    step.auto && step.stype.PersonaUpdate? && step.patch.Some? && LeafAt(step.patch.value, target).Some?
  }

  /** appliesDiagnosedChange. */
  predicate Applies(steps: seq<Step>, detail: Detail, target: Path)
  {
    || (exists s | s in steps :: AppliesAt(s, target))
    || (steps == [] && detail.atype.UpdatePersona? && detail.patch.Some? && LeafAt(detail.patch.value, target).Some?)
  }

  predicate HasBlastRadiusRefusal(safety: seq<Safety>)
  {
    exists s | s in safety :: s.rule.BlastRadius? && s.verdict.Rejected?
  }

  /** The first index from i on whose step is a persona update, refused or any. */
  function FirstPersonaStep(steps: seq<Step>, i: nat, refused: bool): (r: Option<nat>)
    requires i <= |steps|
    ensures r.Some? ==> i <= r.value < |steps| && steps[r.value].stype.PersonaUpdate?
    decreases |steps| - i
  {
    if i == |steps| then None
    else if steps[i].stype.PersonaUpdate? && (refused ==> HasBlastRadiusRefusal(steps[i].safety)) then Some(i)
    else FirstPersonaStep(steps, i + 1, refused)
  }

  /** personaUpdateStep. */
  function DerivedStepIndex(steps: seq<Step>): (r: Option<nat>)
    ensures r.Some? ==> r.value < |steps| && steps[r.value].stype.PersonaUpdate?
  {
    var refused := FirstPersonaStep(steps, 0, true);
    if refused.Some? then refused else FirstPersonaStep(steps, 0, false)
  }

  /** mergePatches. */
  function MergedPatches(base: Option<Fields>, overlay: Fields): Fields
  {
    if base.None? then overlay else Merged(base.value, overlay)
  }

  /** patchLeafValues. */
  function LeafValues(f: Fields): (values: map<Path, string>)
    ensures forall p | p in values :: p != []
  {
    map p | p in LeafPaths(f) && StringAt(f, p).Some? :: StringAt(f, p).value
  }

  predicate Settles(entry: Safety, derived: map<Path, string>)
  {
    entry.field in derived && entry.rule.BlastRadius? && entry.verdict.Rejected?
  }

  function SettledEntry(e: Env, entry: Safety, derived: map<Path, string>): Safety
  {
    if Settles(entry, derived) then
      var clamped := entry.(verdict := Clamped, permitted := derived[entry.field]);
      clamped.(message := e.say(ClampedMessage(clamped)))
    else entry
  }

  function DerivedEntry(e: Env, derived: map<Path, string>, field: Path): Safety
    requires field in derived
  {
    Safety(PlanValidation, Derived, field, "", "", derived[field], e.say(DerivedMessage(field, derived[field])))
  }

  function NewEntries(
    e: Env, safety: seq<Safety>, derived: map<Path, string>, fields: seq<Path>): (entries: seq<Safety>)
    requires forall p | p in fields :: p in derived
    ensures forall s | s in entries :: s.verdict.Derived?
    decreases |fields|
  {
    if fields == [] then []
    else
      assert fields[0] in fields && forall p | p in fields[1..] :: p in fields;
      var field := fields[0];
      (if exists s | s in safety :: Settles(s, derived) && s.field == field then []
       else [DerivedEntry(e, derived, field)])
      + NewEntries(e, safety, derived, fields[1..])
  }

  /** recordDerivedValues. */
  function RecordDerived(e: Env, safety: seq<Safety>, derived: map<Path, string>): seq<Safety>
    requires LawfulEnv(e)
  {
    seq(|safety|, i requires 0 <= i < |safety| => SettledEntry(e, safety[i], derived))
    + NewEntries(e, safety, derived, e.order(derived.Keys))
  }

  /** installDerivedPatch. */
  function InstallDerived(e: Env, step: Step, change: Change): Step
    requires LawfulEnv(e)
    requires change.Sized?
  {
    var safety := RecordDerived(e, step.safety, LeafValues(change.patch));
    step.(stype := PersonaUpdate, auto := true,
          patch := Some(MergedPatches(step.patch, change.patch)),
          prePatch := Some(MergedPatches(step.prePatch, change.prePatch)),
          command := "", safety := safety,
          description := e.say(DerivedDescription(change, safety)),
          rationale := e.say(DerivedRationale(exists s | s in safety :: s.verdict.Clamped?)))
  }

  /** How ensureAppliableResourcePlan ends. */
  datatype Ensured = Kept(steps: seq<Step>) | RuleEngineDeclined | Refused

  function EnsureAppliable(
    e: Env, steps: seq<Step>, detail: Detail, d: Diagnosis, persona: Option<Fields>, w: Workload): Ensured
    requires LawfulEnv(e)
  {
    var target := TargetPath(d);
    if target.None? || Applies(steps, detail, target.value) then Kept(steps)
    else
      var change, i := ResourceChange(e.q, d, persona, w), DerivedStepIndex(steps);
      if change.Unparsable? then Refused
      else if !change.Sized? then RuleEngineDeclined
      else if i.None? then Refused
      else Kept(steps[i.value := InstallDerived(e, steps[i.value], change)])
  }

  // ---------------------------------------------------------------------------
  // Dropping, back-compat, ownership
  // ---------------------------------------------------------------------------

  predicate IsNoise(step: Step)
  {
    step.stype.PersonaUpdate? && step.patch.None? && step.safety == []
  }

  function WithoutNoise(steps: seq<Step>): (kept: seq<Step>)
    ensures |kept| <= |steps|
    ensures forall s :: s in kept <==> s in steps && !IsNoise(s)
    decreases |steps|
  {
    if steps == [] then []
    else if IsNoise(steps[0]) then WithoutNoise(steps[1..])
    else [steps[0]] + WithoutNoise(steps[1..])
  }

  function Renumbered(steps: seq<Step>): (r: seq<Step>)
    ensures |r| == |steps| && forall i | 0 <= i < |steps| :: r[i] == steps[i].(order := i + 1)
  {
    seq(|steps|, i requires 0 <= i < |steps| => steps[i].(order := i + 1))
  }

  /** dropPatchlessPersonaUpdates. */
  function DropPatchless(steps: seq<Step>): seq<Step>
  {
    var kept := WithoutNoise(steps);
    if |kept| == |steps| then steps else Renumbered(kept)
  }

  predicate IsApplied(step: Step)
  {
    step.auto && step.stype.PersonaUpdate?
  }

  /** setBackCompatAction. */
  function BackCompat(steps: seq<Step>): Detail
    decreases |steps|
  {
    if steps == [] then ADVISORY
    else if IsApplied(steps[0]) then Detail(UpdatePersona, steps[0].patch, steps[0].prePatch)
    else BackCompat(steps[1..])
  }

  /** enforceAutoExecutableInvariant. */
  function Enforced(step: Step): Step
  {
    if step.auto && !step.stype.PersonaUpdate? then step.(auto := false) else step
  }

  predicate NeedsShaping(e: Env, step: Step)
  {
    !step.stype.PersonaUpdate? && Kubectl.WritesWorkload(e.u, step.command)
  }

  function ResourceLeaves(patch: Option<Fields>): map<Path, string>
  {
    if patch.None? then map[]
    else
      var values := LeafValues(patch.value);
      map p | p in values && IsResourcePath(p) :: values[p]
  }

  function StepChanges(steps: seq<Step>): map<Path, string>
  {
    if steps == [] then map[]
    else
      var last := steps[|steps| - 1];
      StepChanges(steps[..|steps| - 1]) + if last.stype.PersonaUpdate? then ResourceLeaves(last.patch) else map[]
  }

  /** proposedResourceChanges: a later patch's value wins. */
  function ProposedChanges(steps: seq<Step>, detail: Detail): map<Path, string>
  {
    StepChanges(steps) + ResourceLeaves(detail.patch)
  }

  /** applyOwnershipShaping's rewrite of one step. */
  function Shaped(e: Env, changes: map<Path, string>, step: Step): Step
  {
    if !NeedsShaping(e, step) then step
    else step.(command := "", description := e.say(OwnerInstruction(changes, step.description)),
               rationale := e.note(step.rationale, e.say(OwnerReason)))
  }

  /** stripWorkloadWriteCommands. */
  function Stripped(e: Env, step: Step): Step
  {
    if Kubectl.WritesWorkload(e.u, step.command) then step.(command := "") else step
  }

  function AutoCount(steps: seq<Step>): nat
    decreases |steps|
  {
    if steps == [] then 0 else (if steps[0].auto then 1 else 0) + AutoCount(steps[1..])
  }

  function Explained(e: Env, steps: seq<Step>): string
  {
    e.say(PlanExplanation(|steps|, AutoCount(steps)))
  }

  // ---------------------------------------------------------------------------
  // discloseGroundedBlastRadiusClamp
  // ---------------------------------------------------------------------------

  const CLAMP_EPSILON := 0.000000001
  const CONFIDENCE_DAMPING := 0.85

  /** The pre-patch state the disclosure compares with while it runs. */
  function GroundedOr(e: Env, patch: Option<Fields>, prePatch: Option<Fields>, w: Workload): Option<Fields>
    requires LawfulEnv(e)
  {
    if patch.None? || Grounded(e, patch.value, w).None? then prePatch else Grounded(e, patch.value, w)
  }

  predicate AtCap(e: Env, patch: Fields, base: Fields, p: Path)
  {
    var x, b := AmountAt(e, patch, p), AmountAt(e, base, p);
    x.Some? && b.Some? && b.value > 0.0 && x.value >= (2.0 - CLAMP_EPSILON) * b.value
  }

  /** fieldsAtBlastRadiusCap. */
  function CapFields(e: Env, patch: Option<Fields>, prePatch: Option<Fields>): set<Path>
  {
    if patch.None? || prePatch.None? then {}
    else set p | p in LeafPaths(patch.value) && AtCap(e, patch.value, prePatch.value, p)
  }

  function StepCapFields(e: Env, step: Step): set<Path>
  {
    if IsApplied(step) then CapFields(e, step.patch, step.prePatch) else {}
  }

  function DisclosedStep(e: Env, step: Step): Step
  {
    var fields := StepCapFields(e, step);
    if fields == {} then step else step.(rationale := e.note(step.rationale, e.say(CapCaveat(fields))))
  }

  function AllCapFields(e: Env, steps: seq<Step>): set<Path>
    decreases |steps|
  {
    if steps == [] then {} else StepCapFields(e, steps[0]) + AllCapFields(e, steps[1..])
  }

  function Caveated(e: Env, c: Contents, fields: set<Path>): Contents
  {
    if fields == {} then c
    else
      var caveat := e.say(CapCaveat(fields));
      Contents(c.steps, c.detail, if c.planSummary == "" then "" else e.note(c.planSummary, caveat),
               e.note(c.explanation, caveat), c.confidence * CONFIDENCE_DAMPING)
  }

  /** discloseBlastRadiusClamp on the pre-patch states it finds. */
  function Disclosed(e: Env, c: Contents): Contents
  {
    var steps := seq(|c.steps|, i requires 0 <= i < |c.steps| => DisclosedStep(e, c.steps[i]));
    Caveated(e, c.(steps := steps), AllCapFields(e, c.steps) + CapFields(e, c.detail.patch, c.detail.prePatch))
  }

  /** The contents with every pre-patch state swapped for the live one. */
  function Swapped(e: Env, c: Contents, w: Workload): Contents
    requires LawfulEnv(e)
  {
    c.(steps := seq(|c.steps|, i requires 0 <= i < |c.steps| =>
         c.steps[i].(prePatch := GroundedOr(e, c.steps[i].patch, c.steps[i].prePatch, w))),
       detail := c.detail.(prePatch := GroundedOr(e, c.detail.patch, c.detail.prePatch, w)))
  }

  /** discloseGroundedBlastRadiusClamp: disclose against the live values, then
      put the recorded pre-patch states back. */
  function GroundedDisclosure(e: Env, c: Contents, w: Workload): Contents
    requires LawfulEnv(e)
  {
    var disclosed := Disclosed(e, Swapped(e, c, w));
    disclosed.(steps := seq(|c.steps|, i requires 0 <= i < |c.steps| =>
                 disclosed.steps[i].(prePatch := c.steps[i].prePatch)),
               detail := c.detail)
  }

  // ---------------------------------------------------------------------------
  // scrubRefusedValues
  // ---------------------------------------------------------------------------

  predicate IsRefusal(s: Safety)
  {
    s.requested != "" && s.requested != s.permitted && !s.verdict.Derived?
  }

  function RefusedValueOf(e: Env, s: Safety): Redaction.RefusedValue
  {
    Redaction.RefusedValue(s.field, s.requested, e.q.parse(s.requested))
  }

  function AllSafety(steps: seq<Step>): seq<Safety>
    decreases |steps|
  {
    if steps == [] then [] else steps[0].safety + AllSafety(steps[1..])
  }

  /** refusedValues: every refusal on the plan, each field and value once. */
  function RefusedAmong(e: Env, safety: seq<Safety>, seen: set<(Path, string)>): seq<Redaction.RefusedValue>
    decreases |safety|
  {
    if safety == [] then []
    else
      var s := safety[0];
      if !IsRefusal(s) || (s.field, s.requested) in seen then RefusedAmong(e, safety[1..], seen)
      else [RefusedValueOf(e, s)] + RefusedAmong(e, safety[1..], seen + {(s.field, s.requested)})
  }

  function RefusedValues(e: Env, steps: seq<Step>): seq<Redaction.RefusedValue>
  {
    RefusedAmong(e, AllSafety(steps), {})
  }

  /** sameResourceValue. */
  predicate SameValue(e: Env, actual: string, r: Redaction.RefusedValue)
  {
    || actual == r.value
    || (r.quantity.Some? && e.q.parse(actual) == r.quantity)
  }

  predicate HoldsRefused(e: Env, patch: Fields, r: Redaction.RefusedValue)
  {
    var actual := StringAt(patch, r.field);
    actual.Some? && SameValue(e, actual.value, r)
  }

  function RefusedPaths(e: Env, patch: Fields, refused: seq<Redaction.RefusedValue>): (paths: seq<Path>)
    ensures [] !in paths
    decreases |refused|
  {
    if refused == [] then []
    else (if HoldsRefused(e, patch, refused[0]) then [refused[0].field] else []) + RefusedPaths(e, patch, refused[1..])
  }

  /** The paths are the fields of the values the patch holds. */
  lemma {:induction false} RefusedPathsAreHeld(e: Env, patch: Fields, refused: seq<Redaction.RefusedValue>)
    ensures forall p | p in RefusedPaths(e, patch, refused) ::
      LeafAt(patch, p).Some? && exists r | r in refused :: r.field == p && HoldsRefused(e, patch, r)
    ensures forall r | r in refused && HoldsRefused(e, patch, r) :: r.field in RefusedPaths(e, patch, refused)
    decreases |refused|
  {
    if refused != [] {
      RefusedPathsAreHeld(e, patch, refused[1..]);
      assert forall r :: r in refused <==> r == refused[0] || r in refused[1..];
    }
  }

  /** pruneRefusedLeaves. */
  function WithoutRefused(e: Env, patch: Option<Fields>, refused: seq<Redaction.RefusedValue>): Option<Fields>
  {
    if patch.None? then None else Pruned(patch, RefusedPaths(e, patch.value, refused))
  }

  function Messages(safety: seq<Safety>): seq<string>
    decreases |safety|
  {
    if safety == [] then []
    else (if safety[0].message == "" then [] else [safety[0].message]) + Messages(safety[1..])
  }

  ghost function Redact(e: Env, text: string, messages: seq<string>, refused: seq<Redaction.RefusedValue>): string
  {
    Redaction.Redacted(e.u, e.t, text, messages, refused)
  }

  /** scrubStep. */
  ghost function Scrubbed(e: Env, step: Step, refused: seq<Redaction.RefusedValue>): Step
  {
    var patch := WithoutRefused(e, step.patch, refused);
    var offers := step.command != "" && Redaction.MentionsAny(e.t, step.command, refused);
    var description := if offers then e.note(step.description, e.say(DroppedCommandNote)) else step.description;
    step.(patch := patch, auto := step.auto && (step.patch.Some? ==> patch.Some?),
          command := if offers then "" else step.command,
          description := Redact(e, description, Messages(step.safety), refused),
          rationale := Redact(e, step.rationale, Messages(step.safety), refused))
  }

  function ScrubbedDetail(e: Env, detail: Detail, refused: seq<Redaction.RefusedValue>): Detail
  {
    var patch := WithoutRefused(e, detail.patch, refused);
    if patch == detail.patch then detail
    else if patch.None? then ADVISORY
    else detail.(patch := patch)
  }

  ghost function ScrubbedSteps(e: Env, steps: seq<Step>, refused: seq<Redaction.RefusedValue>): (r: seq<Step>)
    ensures |r| == |steps| && forall i | 0 <= i < |steps| :: r[i] == Scrubbed(e, steps[i], refused)
  {
    seq(|steps|, i requires 0 <= i < |steps| => Scrubbed(e, steps[i], refused))
  }

  /** The explanation after the redaction: its generated head is recomputed when
      the scrub demoted a step. */
  function Reexplained(explanation: string, before: string, after: string): string
  {
    if after != before && before <= explanation then after + explanation[|before|..] else explanation
  }

  /** scrubRefusedValues. */
  ghost function ScrubRefused(e: Env, c: Contents): Contents
  {
    if RefusedValues(e, c.steps) == [] then c else ScrubbedOf(e, c, RefusedValues(e, c.steps))
  }

  /** The scrub of a plan that records these refused values. */
  ghost function ScrubbedOf(e: Env, c: Contents, refused: seq<Redaction.RefusedValue>): Contents
  {
    var steps := ScrubbedSteps(e, c.steps, refused);
    var messages := Messages(AllSafety(steps));
    Contents(steps, ScrubbedDetail(e, c.detail, refused),
             Redact(e, c.planSummary, messages, refused),
             Reexplained(Redact(e, c.explanation, messages, refused), Explained(e, c.steps), Explained(e, steps)),
             c.confidence)
  }

  // ---------------------------------------------------------------------------
  // scrubFabricatedGuardrailClaims
  // ---------------------------------------------------------------------------

  ghost function Unclaimed(e: Env, step: Step): Step
  {
    step.(description := GuardrailClaims.Cleaned(e.u, step.description),
          rationale := GuardrailClaims.Cleaned(e.u, step.rationale))
  }

  ghost function UnclaimedSteps(e: Env, steps: seq<Step>): (r: seq<Step>)
    ensures |r| == |steps| && forall i | 0 <= i < |steps| :: r[i] == Unclaimed(e, steps[i])
  {
    seq(|steps|, i requires 0 <= i < |steps| => Unclaimed(e, steps[i]))
  }

  predicate Spoke(steps: seq<Step>)
  {
    exists s | s in steps :: s.safety != []
  }

  ghost function ScrubClaims(e: Env, c: Contents): Contents
  {
    if Spoke(c.steps) then c
    else Contents(UnclaimedSteps(e, c.steps), c.detail, GuardrailClaims.Cleaned(e.u, c.planSummary),
                  GuardrailClaims.Cleaned(e.u, c.explanation), c.confidence)
  }

  // ---------------------------------------------------------------------------
  // The whole pipeline
  // ---------------------------------------------------------------------------

  function MapSteps(e: Env, planned: seq<PlannedStep>, persona: Option<Fields>, w: Workload): (r: seq<Step>)
    requires LawfulEnv(e)
    ensures |r| == |planned| && forall i | 0 <= i < |planned| :: r[i] == MapStep(e, planned[i], persona, w)
  {
    seq(|planned|, i requires 0 <= i < |planned| => MapStep(e, planned[i], persona, w))
  }

  function RefuseSteps(e: Env, steps: seq<Step>, w: Workload): (r: seq<Step>)
    requires LawfulEnv(e)
    ensures |r| == |steps| && forall i | 0 <= i < |steps| :: r[i] == RefuseStep(e, steps[i], w)
  {
    seq(|steps|, i requires 0 <= i < |steps| => RefuseStep(e, steps[i], w))
  }

  /** enforceAutoExecutableInvariant over the plan. */
  function EnforceAll(steps: seq<Step>): (r: seq<Step>)
    ensures |r| == |steps| && forall i | 0 <= i < |steps| :: r[i] == Enforced(steps[i])
  {
    seq(|steps|, i requires 0 <= i < |steps| => Enforced(steps[i]))
  }

  /** Both ownership stages over the plan. */
  function OwnAll(e: Env, changes: map<Path, string>, steps: seq<Step>, owned: bool): (r: seq<Step>)
    ensures |r| == |steps|
    ensures forall i | 0 <= i < |steps| :: r[i] == if owned then Stripped(e, Shaped(e, changes, steps[i])) else steps[i]
  {
    seq(|steps|, i requires 0 <= i < |steps| => if owned then Stripped(e, Shaped(e, changes, steps[i])) else steps[i])
  }

  function OwnedSummary(e: Env, steps: seq<Step>, summary: string, owned: bool): string
  {
    if owned && exists s | s in steps :: NeedsShaping(e, s) then e.note(summary, e.say(OwnerReason)) else summary
  }

  /** A plan's contents as they reach the disclosure. */
  function Undisclosed(e: Env, steps: seq<Step>, summary: string, confidence: real, owned: bool): Contents
  {
    var detail, enforced := BackCompat(steps), EnforceAll(steps);
    var shaped := OwnAll(e, ProposedChanges(enforced, detail), enforced, owned);
    Contents(shaped, detail, OwnedSummary(e, enforced, summary, owned), Explained(e, shaped), confidence)
  }

  /** From dropPatchlessPersonaUpdates' result to the scrubs. */
  function Settled(e: Env, steps: seq<Step>, summary: string, confidence: real, w: Workload, owned: bool): Contents
    requires LawfulEnv(e)
  {
    GroundedDisclosure(e, Undisclosed(e, steps, summary, confidence, owned), w)
  }

  /** Created, skipped with a reason, or left to the rule engine. */
  datatype Outcome = Created(contents: Contents) | Skipped | Fallback

  /** What the planner handed over, what the plan is checked against, whether the
      persona-wide guardrails are clear and whether the Create goes through. */
  datatype Request = Request(
    planned: seq<PlannedStep>, rootCause: string, confidence: real,
    diagnosis: Diagnosis, persona: Option<Fields>, workload: Workload, owned: bool,
    clear: bool, createLands: bool)

  function AfterSafety(e: Env, r: Request): seq<Step>
    requires LawfulEnv(e)
  {
    RefuseSteps(e, MapSteps(e, r.planned, r.persona, r.workload), r.workload)
  }

  /** Both scrubs, in the code's order. */
  ghost function Scrubs(e: Env, c: Contents): Contents
  {
    ScrubClaims(e, ScrubRefused(e, c))
  }

  /** From the steps ensureAppliableResourcePlan leaves to the Create. */
  ghost function Finished(e: Env, r: Request, steps: seq<Step>, declined: bool): Outcome
    requires LawfulEnv(e)
  {
    var kept := DropPatchless(steps);
    if kept == [] then Fallback
    else
      var contents := Scrubs(e, Settled(e, kept, r.rootCause, r.confidence, r.workload, r.owned));
      if AssertsAppliable(contents, r.diagnosis, declined) && r.createLands then Created(contents) else Fallback
  }

  /** How ensureAppliableResourcePlan ends for a request. */
  function Ensuring(e: Env, r: Request): Ensured
    requires LawfulEnv(e)
  {
    EnsureAppliable(e, AfterSafety(e, r), BackCompat(MapSteps(e, r.planned, r.persona, r.workload)),
                    r.diagnosis, r.persona, r.workload)
  }

  /** The steps that leave ensureAppliableResourcePlan, when it does not refuse. */
  function EnsuredSteps(e: Env, r: Request): Option<seq<Step>>
    requires LawfulEnv(e)
  {
    match Ensuring(e, r)
    case Kept(ensured) => Some(ensured)
    case RuleEngineDeclined => Some(AfterSafety(e, r))
    case Refused => None
  }

  /** proposeWithPlanner from the planner's answer on. */
  ghost function Built(e: Env, r: Request): Outcome
    requires LawfulEnv(e)
  {
    if r.planned == [] then Fallback
    else if !r.clear then Skipped
    else if EnsuredSteps(e, r).None? then Fallback
    else Finished(e, r, EnsuredSteps(e, r).value, Ensuring(e, r).RuleEngineDeclined?)
  }

  function ChangeOf(e: Env, r: Request): Change
  {
    ResourceChange(e.q, r.diagnosis, r.persona, r.workload)
  }

  /** ensureAppliableResourcePlan installs the derived patch on a step. */
  predicate Installs(e: Env, r: Request)
    requires LawfulEnv(e)
  {
    && TargetPath(r.diagnosis).Some?
    && !Applies(AfterSafety(e, r), BackCompat(MapSteps(e, r.planned, r.persona, r.workload)),
                TargetPath(r.diagnosis).value)
    && ChangeOf(e, r).Sized? && DerivedStepIndex(AfterSafety(e, r)).Some?
  }

  function Installed(e: Env, r: Request): Step
    requires LawfulEnv(e) && Installs(e, r)
  {
    InstallDerived(e, AfterSafety(e, r)[DerivedStepIndex(AfterSafety(e, r)).value], ChangeOf(e, r))
  }

  // ---------------------------------------------------------------------------
  // What the created action promises
  // ---------------------------------------------------------------------------

  /** assertAppliableWhenResourceDiagnosed. */
  predicate AssertsAppliable(c: Contents, d: Diagnosis, declined: bool)
  {
    declined || TargetPath(d).None? || Applies(c.steps, c.detail, TargetPath(d).value)
  }

  /** HasAutoApplicableChange. */
  predicate HasAutoApplicableChange(steps: seq<Step>, detail: Detail)
  {
    || (exists s | s in steps :: IsApplied(s) && s.patch.Some?)
    || (steps == [] && detail.atype.UpdatePersona? && detail.patch.Some?)
  }
}
