/** What the last stages leave: no refused value, no unsupported guardrail claim,
    no command that writes an owned workload, and a plan and legacy Action that
    agree. */
module PlanScrubs {
  import opened Json
  import opened Merge
  import opened Prune
  import opened Sizing
  import opened Plan
  import opened PlanTheorems
  import Text
  import Kubectl
  import GuardrailClaims
  import Redaction

  // ---------------------------------------------------------------------------
  // Refusals, collected over the whole plan
  // ---------------------------------------------------------------------------

  lemma {:induction false} RefusalIsCollected(e: Env, safety: seq<Safety>, seen: set<(Path, string)>, s: Safety)
    requires s in safety && IsRefusal(s)
    ensures (s.field, s.requested) in seen || RefusedValueOf(e, s) in RefusedAmong(e, safety, seen)
    decreases |safety|
  {
    var first := safety[0];
    if s in safety[1..] {
      RefusalIsCollected(e, safety[1..], if IsRefusal(first) then seen + {(first.field, first.requested)} else seen, s);
    }
    if (first.field, first.requested) == (s.field, s.requested) {
      assert RefusedValueOf(e, first) == RefusedValueOf(e, s);
    } else if s in safety[1..] && IsRefusal(first) && (first.field, first.requested) in seen {
      RefusalIsCollected(e, safety[1..], seen, s);
    }
  }

  lemma {:induction false} CollectedIsRefusal(
    e: Env, safety: seq<Safety>, seen: set<(Path, string)>, r: Redaction.RefusedValue)
    returns (s: Safety)
    requires r in RefusedAmong(e, safety, seen)
    ensures s in safety && IsRefusal(s) && r == RefusedValueOf(e, s)
    decreases |safety|
  {
    var first := safety[0];
    if !IsRefusal(first) || (first.field, first.requested) in seen {
      s := CollectedIsRefusal(e, safety[1..], seen, r);
    } else if r == RefusedValueOf(e, first) {
      s := first;
    } else {
      s := CollectedIsRefusal(e, safety[1..], seen + {(first.field, first.requested)}, r);
    }
  }

  /** What counts as refused: the request of a rejection, or of a clamp to another
      value, and nothing else. */
  lemma RefusedValuesAre(e: Env, steps: seq<Step>, v: Redaction.RefusedValue)
    ensures v in RefusedValues(e, steps) <==>
            exists s :: s in AllSafety(steps) && (s.verdict.Rejected? || s.verdict.Clamped?) &&
                        s.requested != "" && s.requested != s.permitted &&
                        v == Redaction.RefusedValue(s.field, s.requested, e.q.parse(s.requested))
  {
    if v in RefusedValues(e, steps) {
      var s := CollectedIsRefusal(e, AllSafety(steps), {}, v);
    }
    if s :| s in AllSafety(steps) && IsRefusal(s) && v == RefusedValueOf(e, s) {
      RefusalIsCollected(e, AllSafety(steps), {}, s);
    }
  }

  lemma {:induction false} SafetyOfSteps(steps: seq<Step>, s: Safety)
    ensures s in AllSafety(steps) <==> exists t | t in steps :: s in t.safety
    decreases |steps|
  {
    if steps != [] {
      SafetyOfSteps(steps[1..], s);
      assert forall t :: t in steps <==> t == steps[0] || t in steps[1..];
    }
  }

  lemma {:induction false} SameSafety(a: seq<Step>, b: seq<Step>)
    requires |a| == |b| && forall i | 0 <= i < |a| :: a[i].safety == b[i].safety
    ensures AllSafety(a) == AllSafety(b)
    decreases |a|
  {
    if a != [] { SameSafety(a[1..], b[1..]); }
  }

  lemma PrunedHoldsNone(e: Env, patch: Option<Fields>, refused: seq<Redaction.RefusedValue>, r: Redaction.RefusedValue)
    requires r in refused && WithoutRefused(e, patch, refused).Some?
    ensures !HoldsRefused(e, WithoutRefused(e, patch, refused).value, r)
  {
    var paths := RefusedPaths(e, patch.value, refused);
    RefusedPathsAreHeld(e, patch.value, refused);
    PrunedLeaves(patch.value, paths, r.field);
    if paths != [] {
      assert WithoutRefused(e, patch, refused).value == DeletedAll(patch.value, paths);
      if r.field !in paths {
        StringOfLeaf(DeletedAll(patch.value, paths), patch.value, r.field);
      }
    }
  }

  /** Main result: whatever refusal any step of a created plan records, no patch
      of the plan holds its value at its field and no command mentions it. */
  lemma NoRefusedValueSurvives(e: Env, r: Request, s: Safety)
    requires LawfulEnv(e) && Built(e, r).Created?
    requires s in AllSafety(Built(e, r).contents.steps) && IsRefusal(s)
    ensures CleanPlan(e, Built(e, r).contents, RefusedValueOf(e, s))
  {
    CreatedIsScrubbed(e, r);
    ScrubbedPlanIsClean(e, BeforeScrubs(e, r), s);
  }

  ghost predicate CleanPlan(e: Env, c: Contents, bad: Redaction.RefusedValue)
  {
    && (forall t | t in c.steps :: Clean(e, t, bad))
    && (c.detail.patch.Some? ==> !HoldsRefused(e, c.detail.patch.value, bad))
  }

  /** The same of whatever contents reach the scrubs. */
  lemma ScrubbedPlanIsClean(e: Env, c: Contents, s: Safety)
    requires s in AllSafety(Scrubs(e, c).steps) && IsRefusal(s)
    ensures CleanPlan(e, Scrubs(e, c), RefusedValueOf(e, s))
  {
    var out := Scrubs(e, c);
    RefusalIsBefore(e, c, s);
    ScrubsDetail(e, c);
    ScrubbedDetailIsClean(e, c.detail, RefusedValues(e, c.steps), RefusedValueOf(e, s));
    forall i | 0 <= i < |out.steps| ensures Clean(e, out.steps[i], RefusedValueOf(e, s)) {
      ScrubsStep(e, c, i);
      ScrubbedIsClean(e, c.steps[i], RefusedValues(e, c.steps), RefusedValueOf(e, s));
    }
  }

  /** Neither the patch at the refused field nor the command offers the value. */
  ghost predicate Clean(e: Env, step: Step, bad: Redaction.RefusedValue)
  {
    && (step.patch.Some? ==> !HoldsRefused(e, step.patch.value, bad))
    && !Redaction.Mentions(e.t, step.command, bad)
  }

  lemma ScrubbedDetailIsClean(e: Env, detail: Detail, refused: seq<Redaction.RefusedValue>, bad: Redaction.RefusedValue)
    requires bad in refused
    ensures var out := ScrubbedDetail(e, detail, refused); out.patch.Some? ==> !HoldsRefused(e, out.patch.value, bad)
  {
    if WithoutRefused(e, detail.patch, refused).Some? {
      PrunedHoldsNone(e, detail.patch, refused, bad);
    }
  }

  lemma RefusalIsBefore(e: Env, c: Contents, s: Safety)
    requires s in AllSafety(Scrubs(e, c).steps) && IsRefusal(s)
    ensures RefusedValueOf(e, s) in RefusedValues(e, c.steps)
  {
    var steps := Scrubs(e, c).steps;
    ScrubsLength(e, c);
    forall i | 0 <= i < |steps| ensures steps[i].safety == c.steps[i].safety {
      ScrubsStep(e, c, i);
    }
    SameSafety(steps, c.steps);
    RefusalIsCollected(e, AllSafety(c.steps), {}, s);
  }

  lemma ScrubsLength(e: Env, c: Contents)
    ensures |Scrubs(e, c).steps| == |c.steps|
  {
  }

  lemma ScrubbedIsClean(e: Env, step: Step, refused: seq<Redaction.RefusedValue>, bad: Redaction.RefusedValue)
    requires bad in refused
    ensures Clean(e, Scrubbed(e, step, refused), bad)
  {
    if Scrubbed(e, step, refused).patch.Some? {
      PrunedHoldsNone(e, step.patch, refused, bad);
    }
  }

  lemma CreatedDetail(e: Env, r: Request)
    requires LawfulEnv(e) && Built(e, r).Created?
    ensures EnsuredSteps(e, r).Some?
    ensures var before := BeforeScrubs(e, r);
      Built(e, r).contents.detail == ScrubbedDetail(e, before.detail, RefusedValues(e, before.steps))
  {
    CreatedIsScrubbed(e, r);
    ScrubsDetail(e, BeforeScrubs(e, r));
  }

  lemma ScrubsDetail(e: Env, c: Contents)
    ensures Scrubs(e, c).detail == ScrubbedDetail(e, c.detail, RefusedValues(e, c.steps))
  {
    if RefusedValues(e, c.steps) == [] && c.detail.patch.Some? {
      assert RefusedPaths(e, c.detail.patch.value, []) == [];
    }
  }

  // ---------------------------------------------------------------------------
  // Claims and commands
  // ---------------------------------------------------------------------------

  ghost predicate Claimless(e: Env, text: string)
  {
    !GuardrailClaims.Claims(e.u, text)
  }

  /** Main result: a created action no guardrail spoke on asserts no verdict on
      any prose surface. */
  lemma UnruledPlanClaimsNothing(e: Env, r: Request)
    requires LawfulEnv(e) && Built(e, r).Created? && !Spoke(Built(e, r).contents.steps)
    ensures var c := Built(e, r).contents;
      && Claimless(e, c.planSummary) && Claimless(e, c.explanation)
      && (forall s | s in c.steps :: Claimless(e, s.description) && Claimless(e, s.rationale))
  {
    CreatedIsScrubbed(e, r);
    UnruledContents(e, ScrubRefused(e, BeforeScrubs(e, r)));
  }

  lemma UnruledContents(e: Env, before: Contents)
    requires LawfulEnv(e) && !Spoke(ScrubClaims(e, before).steps)
    ensures var c := ScrubClaims(e, before);
      && Claimless(e, c.planSummary) && Claimless(e, c.explanation)
      && (forall s | s in c.steps :: Claimless(e, s.description) && Claimless(e, s.rationale))
  {
    var c := ScrubClaims(e, before);
    GuardrailClaims.CleanedClaimsNothing(e.u, before.planSummary);
    GuardrailClaims.CleanedClaimsNothing(e.u, before.explanation);
    forall i | 0 <= i < |c.steps|
      ensures Claimless(e, c.steps[i].description) && Claimless(e, c.steps[i].rationale)
    {
      assert c.steps[i] == Unclaimed(e, before.steps[i]);
      GuardrailClaims.CleanedClaimsNothing(e.u, before.steps[i].description);
      GuardrailClaims.CleanedClaimsNothing(e.u, before.steps[i].rationale);
    }
  }

  /** Main result: on an owned workload every kubectl command a created plan
      still shows reads: a known read-only verb or subcommand behind known
      flags, and so it does to a shell if nothing in it is quoted. */
  lemma OwnedPlanOnlyReads(e: Env, r: Request, step: Step)
    requires LawfulEnv(e) && Built(e, r).Created? && r.owned && step in Built(e, r).contents.steps
    ensures step.command == "" || ShowsListedRead(e, step.command)
    ensures step.command != "" && Kubectl.Unadorned(e.u, step.command) ==> ReadsInAShell(step.command)
  {
    var i :| 0 <= i < |Built(e, r).contents.steps| && Built(e, r).contents.steps[i] == step;
    OwnedStepWritesNothing(e, r, i);
    CreatedCommand(e, r, i);
    if step.command != "" {
      Kubectl.LetThroughIsListedRead(e.u, step.command);
      if Kubectl.Unadorned(e.u, step.command) { Kubectl.ShellReadsFields(e.u, step.command); }
    }
  }

  /** The same of the words a shell makes of the command. */
  ghost predicate ReadsInAShell(command: string)
  {
    var words := Kubectl.ShellWords(command);
    words.Some? && exists flags, verb, arguments :: Kubectl.IsListedRead(words.value, flags, verb, arguments)
  }

  /** Known flags, then a listed read-only verb or subcommand. */
  ghost predicate ShowsListedRead(e: Env, command: string)
  {
    exists flags, verb, arguments :: Kubectl.IsListedRead(Kubectl.Fields(e.u, command), flags, verb, arguments)
  }

  ghost predicate SafeCommand(e: Env, command: string)
  {
    command == "" || (Kubectl.IsKubectlInvocation(e.u, command) && Displayed(command))
  }

  /** A line the display guard lets through. */
  ghost predicate Displayed(command: string)
  {
    && "kubectl " <= command && |command| <= 1024
    && ';' !in command && '&' !in command && '|' !in command && '<' !in command && '>' !in command
    && '`' !in command && '$' !in command && '\n' !in command && '\r' !in command
  }

  /** The sentences of a surface that claim nothing, in order. */
  ghost predicate OnlyClaimsGone(e: Env, after: string, before: string)
  {
    Text.Sentences(e.u, after) == Text.Kept(Text.Sentences(e.u, before), GuardrailClaims.Claiming(e.u))
  }

  lemma UnruledContentsKeep(e: Env, before: Contents)
    requires LawfulEnv(e) && !Spoke(before.steps)
    ensures var c := ScrubClaims(e, before);
      && OnlyClaimsGone(e, c.planSummary, before.planSummary) && OnlyClaimsGone(e, c.explanation, before.explanation)
      && |c.steps| == |before.steps| && forall i | 0 <= i < |c.steps| ::
           && OnlyClaimsGone(e, c.steps[i].description, before.steps[i].description)
           && OnlyClaimsGone(e, c.steps[i].rationale, before.steps[i].rationale)
  {
    GuardrailClaims.CleanedKeepsTheRest(e.u, before.planSummary);
    GuardrailClaims.CleanedKeepsTheRest(e.u, before.explanation);
    forall i | 0 <= i < |before.steps|
      ensures OnlyClaimsGone(e, Unclaimed(e, before.steps[i]).description, before.steps[i].description)
      ensures OnlyClaimsGone(e, Unclaimed(e, before.steps[i]).rationale, before.steps[i].rationale)
    {
      GuardrailClaims.CleanedKeepsTheRest(e.u, before.steps[i].description);
      GuardrailClaims.CleanedKeepsTheRest(e.u, before.steps[i].rationale);
    }
  }

  /** Main result: and the claim scrub takes nothing else out of its prose. */
  lemma UnruledPlanKeepsTheRest(e: Env, r: Request)
    requires LawfulEnv(e) && Built(e, r).Created? && EnsuredSteps(e, r).Some? && !Spoke(BeforeScrubs(e, r).steps)
    ensures var c, before := Built(e, r).contents, BeforeScrubs(e, r);
      && OnlyClaimsGone(e, c.planSummary, before.planSummary) && OnlyClaimsGone(e, c.explanation, before.explanation)
      && |c.steps| == |before.steps| && forall i | 0 <= i < |c.steps| ::
           && OnlyClaimsGone(e, c.steps[i].description, before.steps[i].description)
           && OnlyClaimsGone(e, c.steps[i].rationale, before.steps[i].rationale)
  {
    CreatedIsScrubbed(e, r);
    NothingSaidNothingRefused(e, BeforeScrubs(e, r).steps);
    UnruledContentsKeep(e, BeforeScrubs(e, r));
  }

  lemma {:induction false} NothingSaidNothingRefused(e: Env, steps: seq<Step>)
    requires !Spoke(steps)
    ensures AllSafety(steps) == [] && RefusedValues(e, steps) == []
    decreases |steps|
  {
    if steps != [] {
      assert steps[0] in steps && forall s | s in steps[1..] :: s in steps;
      NothingSaidNothingRefused(e, steps[1..]);
    }
  }

  /** Main result: no command of a created plan holds a character that chains, pipes,
      redirects or expands, or a line end; it is one line of at most 1024 characters
      that starts with kubectl. */
  lemma CreatedCommandsAreDisplayed(e: Env, r: Request, step: Step)
    requires LawfulEnv(e) && Built(e, r).Created? && step in Built(e, r).contents.steps
    ensures step.command == "" || Displayed(step.command)
  {
    var i :| 0 <= i < |Built(e, r).contents.steps| && Built(e, r).contents.steps[i] == step;
    CreatedCommand(e, r, i);
  }

  lemma SafeStepCommand(e: Env, r: Request, i: nat)
    requires LawfulEnv(e) && i < |AfterSafety(e, r)|
    ensures SafeCommand(e, AfterSafety(e, r)[i].command)
  {
    SafeStep(e, r, i);
    var ps := r.planned[i];
    Kubectl.SanitizedIff(e.u, ps.command);
    if Kubectl.Sanitized(e.u, ps.command) != "" { Kubectl.SanitizedIsInvocation(e.u, ps.command); }
    MappedCommand(e, r, ps);
  }

  lemma MappedCommand(e: Env, r: Request, ps: PlannedStep)
    requires LawfulEnv(e)
    ensures RefuseStep(e, MapStep(e, ps, r.persona, r.workload), r.workload).command ==
            if ps.stype.PersonaUpdate? then "" else Kubectl.Sanitized(e.u, ps.command)
  {
  }

  lemma EnsuredCommands(e: Env, r: Request)
    requires LawfulEnv(e) && EnsuredSteps(e, r).Some?
    ensures forall s | s in EnsuredSteps(e, r).value :: SafeCommand(e, s.command)
  {
    EnsuredShape(e, r);
    forall i | 0 <= i < |AfterSafety(e, r)| ensures SafeCommand(e, AfterSafety(e, r)[i].command) {
      SafeStepCommand(e, r, i);
    }
  }

  lemma CreatedCommand(e: Env, r: Request, i: nat)
    requires LawfulEnv(e) && Built(e, r).Created? && i < |Built(e, r).contents.steps|
    ensures SafeCommand(e, Built(e, r).contents.steps[i].command)
  {
    CreatedStep(e, r, i);
    BeforeScrubsCommand(e, r, i);
  }

  lemma BeforeScrubsCommand(e: Env, r: Request, i: nat)
    requires LawfulEnv(e) && EnsuredSteps(e, r).Some? && i < |BeforeScrubs(e, r).steps|
    ensures SafeCommand(e, BeforeScrubs(e, r).steps[i].command)
  {
    var kept := DropPatchless(EnsuredSteps(e, r).value);
    BeforeScrubsLength(e, r);
    EnsuredCommands(e, r);
    assert kept[i] in kept;
    var origin := DroppedSteps(EnsuredSteps(e, r).value, kept[i]);
    SettledKeepsCommand(e, kept, r.rootCause, r.confidence, r.workload, r.owned, i);
  }

  lemma SettledKeepsCommand(
    e: Env, steps: seq<Step>, summary: string, confidence: real, w: Workload, owned: bool, i: nat)
    requires LawfulEnv(e) && i < |steps|
    ensures |Settled(e, steps, summary, confidence, w, owned).steps| == |steps|
    ensures var command := Settled(e, steps, summary, confidence, w, owned).steps[i].command;
      command == "" || command == steps[i].command
  {
    SettledLength(e, steps, summary, confidence, w, owned);
    UndisclosedCommandIs(e, steps, summary, confidence, owned, i);
    DisclosureKeepsWrites(e, Undisclosed(e, steps, summary, confidence, owned), w, i);
  }

  lemma UndisclosedCommandIs(e: Env, steps: seq<Step>, summary: string, confidence: real, owned: bool, i: nat)
    requires i < |steps|
    ensures |Undisclosed(e, steps, summary, confidence, owned).steps| == |steps|
    ensures var command := Undisclosed(e, steps, summary, confidence, owned).steps[i].command;
      command == "" || command == steps[i].command
  {
  }

  lemma OwnedStepWritesNothing(e: Env, r: Request, i: nat)
    requires LawfulEnv(e) && Built(e, r).Created? && r.owned && i < |Built(e, r).contents.steps|
    ensures !Kubectl.WritesWorkload(e.u, Built(e, r).contents.steps[i].command)
  {
    CreatedStep(e, r, i);
    SettledCommand(e, DropPatchless(EnsuredSteps(e, r).value), r.rootCause, r.confidence, r.workload, i);
    ScrubAddsNoCommand(e, BeforeScrubs(e, r).steps[i], RefusedValues(e, BeforeScrubs(e, r).steps));
  }

  lemma ScrubAddsNoCommand(e: Env, step: Step, refused: seq<Redaction.RefusedValue>)
    requires !Kubectl.WritesWorkload(e.u, step.command)
    ensures !Kubectl.WritesWorkload(e.u, Scrubbed(e, step, refused).command)
  {
    NothingIsNoWrite(e);
  }

  lemma SettledCommand(e: Env, steps: seq<Step>, summary: string, confidence: real, w: Workload, i: nat)
    requires LawfulEnv(e) && i < |Settled(e, steps, summary, confidence, w, true).steps|
    ensures !Kubectl.WritesWorkload(e.u, Settled(e, steps, summary, confidence, w, true).steps[i].command)
  {
    var c := Undisclosed(e, steps, summary, confidence, true);
    assert Settled(e, steps, summary, confidence, w, true) == GroundedDisclosure(e, c, w);
    DisclosureKeepsWrites(e, c, w, 0);
    DisclosureKeepsWrites(e, c, w, i);
    UndisclosedCommand(e, steps, summary, confidence, i);
  }

  lemma UndisclosedCommand(e: Env, steps: seq<Step>, summary: string, confidence: real, i: nat)
    requires i < |Undisclosed(e, steps, summary, confidence, true).steps|
    ensures !Kubectl.WritesWorkload(e.u, Undisclosed(e, steps, summary, confidence, true).steps[i].command)
  {
    NothingIsNoWrite(e);
  }

  lemma NothingIsNoWrite(e: Env)
    ensures !Kubectl.WritesWorkload(e.u, "")
  {
  }

  // ---------------------------------------------------------------------------
  // Refusals rest on the field's base
  // ---------------------------------------------------------------------------

  /** A field the live container sets, or any field of an unresolved workload. */
  predicate IsLive(r: Request, p: Path)
  {
    r.workload.Resolved? ==> Observed(r.workload, p).Some?
  }

  /** No patch leaf is a resource key the live container lacks. */
  ghost predicate LiveLeaves(r: Request, f: Fields)
  {
    forall p | LeafAt(f, p).Some? && IsResourcePath(p) :: IsLive(r, p)
  }

  /** Why a guardrail may refuse a value at a resource path. */
  ghost predicate Sound(e: Env, r: Request, s: Safety)
  {
    IsResourcePath(s.field) ==>
      match s.rule
      case BlastRadius =>
        var b, x := Base(e, r, s.field), e.q.parse(s.requested);
        b.Some? && b.value > 0.0 && x.Some? && OutsideCap(b.value, x.value)
      case AbsentField => !IsLive(r, s.field)
      case PlanValidation => !IsRefusal(s)
  }

  ghost predicate SoundStep(e: Env, r: Request, step: Step)
  {
    && (forall s | s in step.safety :: Sound(e, r, s))
    && (step.patch.Some? ==> LiveLeaves(r, step.patch.value))
  }

  /** A refused value a patch holds at a live resource path is outside the cap. */
  lemma RefusedLeafIsOutside(e: Env, r: Request, f: Fields, s: Safety)
    requires LawfulEnv(e) && Sound(e, r, s) && IsRefusal(s) && IsResourcePath(s.field)
    requires LiveLeaves(r, f) && HoldsRefused(e, f, RefusedValueOf(e, s))
    ensures AmountAt(e, f, s.field).Some? && Base(e, r, s.field).Some? && Base(e, r, s.field).value > 0.0
    ensures OutsideCap(Base(e, r, s.field).value, AmountAt(e, f, s.field).value)
  {
  }

  /** What mapPlannedSteps drops from a patch. */
  function DroppedFrom(e: Env, requested: Fields, w: Workload): (dropped: seq<Path>)
    requires LawfulEnv(e)
    ensures [] !in dropped
  {
    if AbsentPaths(requested, w) == {} then [] else e.order(AbsentPaths(requested, w))
  }

  lemma MappedShape(e: Env, ps: PlannedStep, persona: Option<Fields>, w: Workload)
    requires LawfulEnv(e)
    ensures var out := MapStep(e, ps, persona, w);
      if ps.stype.PersonaUpdate? && ps.patch.Some? then
        && out.patch == Pruned(ps.patch, DroppedFrom(e, ps.patch.value, w))
        && out.safety == AbsentEntries(e, ps.patch.value, DroppedFrom(e, ps.patch.value, w))
      else out.patch.None? && out.safety == []
  {
  }

  lemma AbsentIsSound(e: Env, r: Request, requested: Fields)
    requires LawfulEnv(e)
    ensures forall s | s in AbsentEntries(e, requested, DroppedFrom(e, requested, r.workload)) :: Sound(e, r, s)
  {
    var dropped := DroppedFrom(e, requested, r.workload);
    forall p | p in dropped ensures !IsLive(r, p) {
      assert p in AbsentPaths(requested, r.workload);
    }
    var entries := AbsentEntries(e, requested, dropped);
    forall i | 0 <= i < |entries| ensures Sound(e, r, entries[i]) {
      assert entries[i] == AbsentEntry(e, requested, dropped[i]) && dropped[i] in dropped;
    }
  }

  lemma MappedStepIsSound(e: Env, r: Request, ps: PlannedStep)
    requires LawfulEnv(e)
    ensures SoundStep(e, r, MapStep(e, ps, r.persona, r.workload))
  {
    MappedShape(e, ps, r.persona, r.workload);
    if ps.stype.PersonaUpdate? && ps.patch.Some? {
      AbsentIsSound(e, r, ps.patch.value);
      PrunedIsLive(e, r, ps.patch.value);
    }
  }

  lemma PrunedIsLive(e: Env, r: Request, requested: Fields)
    requires LawfulEnv(e)
    ensures var kept := Pruned(Some(requested), DroppedFrom(e, requested, r.workload));
      kept.Some? ==> LiveLeaves(r, kept.value)
  {
    var absent, dropped := AbsentPaths(requested, r.workload), DroppedFrom(e, requested, r.workload);
    forall p | p in dropped ensures LeafAt(requested, p).Some? {
      LeafPathsAreTheLeaves(requested, p);
    }
    if Pruned(Some(requested), dropped).Some? {
      forall p | LeafAt(Pruned(Some(requested), dropped).value, p).Some? && IsResourcePath(p) ensures IsLive(r, p) {
        PrunedAmount(e, requested, dropped, p);
        LeafPathsAreTheLeaves(requested, p);
        assert p in absent ==> absent != {};
      }
    }
  }

  lemma RefusedStepIsSound(e: Env, r: Request, step: Step)
    requires LawfulEnv(e) && Coherent(step) && SoundStep(e, r, step)
    requires step.patch.Some? ==> step.prePatch == Snapshot(r.persona, step.patch.value)
    ensures SoundStep(e, r, RefuseStep(e, step, r.workload))
  {
    var out := RefuseStep(e, step, r.workload);
    if out.patch.Some? {
      forall p | LeafAt(out.patch.value, p).Some? && IsResourcePath(p) ensures IsLive(r, p) {
        LeafOfRefused(e, r.workload, step, p);
      }
    }
    if out != step {
      var patch, base := step.patch.value, Baseline(e, step, r.workload).value;
      var fields := e.order(Breaches(e, patch, base));
      var entries := RefusalEntries(e, patch, base, fields);
      forall i | 0 <= i < |entries| ensures Sound(e, r, entries[i]) {
        assert fields[i] in Breaches(e, patch, base);
        RefusalIsSound(e, r, step, fields[i]);
      }
      assert out.safety == step.safety + entries;
    }
  }

  lemma RefusalIsSound(e: Env, r: Request, step: Step, p: Path)
    requires LawfulEnv(e) && SoundStep(e, r, step) && step.patch.Some? && Baseline(e, step, r.workload).Some?
    requires step.prePatch == Snapshot(r.persona, step.patch.value)
    requires p in Breaches(e, step.patch.value, Baseline(e, step, r.workload).value)
    ensures Sound(e, r, RefusalEntry(e, step.patch.value, Baseline(e, step, r.workload).value, p))
  {
    if IsResourcePath(p) {
      LeafPathsAreTheLeaves(step.patch.value, p);
      BaseOfBreach(e, r, step, p);
    }
  }

  /** The other direction of BaselineIsBase, at resource paths. */
  lemma BaseOfBreach(e: Env, r: Request, step: Step, p: Path)
    requires LawfulEnv(e) && SoundStep(e, r, step) && step.patch.Some? && Baseline(e, step, r.workload).Some?
    requires step.prePatch == Snapshot(r.persona, step.patch.value)
    requires LeafAt(step.patch.value, p).Some? && IsResourcePath(p)
    requires AmountAt(e, Baseline(e, step, r.workload).value, p).Some?
    ensures Base(e, r, p) == AmountAt(e, Baseline(e, step, r.workload).value, p)
  {
    var patch := step.patch.value;
    LeafPathsAreTheLeaves(patch, p);
    if r.workload.Resolved? {
      GroundedLeaf(e, patch, r.workload, p);
    } else {
      NoLiveValues(e, patch, r.workload);
      MirroredLeaf(patch, Document(r.persona.value), p);
      StringOfLeaf(Snapshot(r.persona, patch).value, Document(r.persona.value), p);
    }
  }

  lemma InstalledIsSound(e: Env, r: Request)
    requires LawfulEnv(e) && Installs(e, r)
    requires SoundStep(e, r, AfterSafety(e, r)[DerivedStepIndex(AfterSafety(e, r)).value])
    ensures SoundStep(e, r, Installed(e, r))
  {
    var step := AfterSafety(e, r)[DerivedStepIndex(AfterSafety(e, r)).value];
    forall p | LeafAt(Installed(e, r).patch.value, p).Some? && IsResourcePath(p) ensures IsLive(r, p) {
      InstalledLeaf(e, r, p);
      TargetIsLive(e, r);
    }
    RecordedIsSound(e, r, step.safety, LeafValues(ChangeOf(e, r).patch));
  }

  /** A change is only ever sized for a field the container sets. */
  lemma TargetIsLive(e: Env, r: Request)
    requires ChangeOf(e, r).Sized?
    ensures TargetPath(r.diagnosis).Some? && IsLive(r, TargetPath(r.diagnosis).value)
    ensures IsResourcePath(TargetPath(r.diagnosis).value)
  {
    var dim := TargetDimension(e.q, r.diagnosis, r.persona, r.workload);
  }

  lemma RecordedIsSound(e: Env, r: Request, safety: seq<Safety>, derived: map<Path, string>)
    requires LawfulEnv(e) && forall s | s in safety :: Sound(e, r, s)
    ensures forall s | s in RecordDerived(e, safety, derived) :: Sound(e, r, s)
  {
    NewEntriesAreSound(e, r, safety, derived, e.order(derived.Keys));
    var settled := seq(|safety|, i requires 0 <= i < |safety| => SettledEntry(e, safety[i], derived));
    forall s | s in settled ensures Sound(e, r, s) {
      var i :| 0 <= i < |safety| && s == SettledEntry(e, safety[i], derived);
      SettledEntryIsSound(e, r, safety[i], derived);
    }
    assert RecordDerived(e, safety, derived) == settled + NewEntries(e, safety, derived, e.order(derived.Keys));
  }

  lemma SettledEntryIsSound(e: Env, r: Request, s: Safety, derived: map<Path, string>)
    requires Sound(e, r, s)
    ensures Sound(e, r, SettledEntry(e, s, derived))
  {
  }

  lemma {:induction false} NewEntriesAreSound(
    e: Env, r: Request, safety: seq<Safety>, derived: map<Path, string>, fields: seq<Path>)
    requires forall p | p in fields :: p in derived
    ensures forall s | s in NewEntries(e, safety, derived, fields) :: Sound(e, r, s)
    decreases |fields|
  {
    if fields != [] {
      assert fields[0] in fields && forall p | p in fields[1..] :: p in fields;
      NewEntriesAreSound(e, r, safety, derived, fields[1..]);
    }
  }

  ghost function Sounding(e: Env, r: Request): Step -> bool
  {
    (s: Step) => SoundStep(e, r, s)
  }

  lemma SafeStepsAreSound(e: Env, r: Request)
    requires LawfulEnv(e)
    ensures forall s | s in AfterSafety(e, r) :: SoundStep(e, r, s)
  {
    forall i | 0 <= i < |AfterSafety(e, r)| ensures SoundStep(e, r, AfterSafety(e, r)[i]) {
      SafeStepIsSound(e, r, i);
    }
  }

  lemma SafeStepIsSound(e: Env, r: Request, i: nat)
    requires LawfulEnv(e) && i < |AfterSafety(e, r)|
    ensures SoundStep(e, r, AfterSafety(e, r)[i])
  {
    SafeStep(e, r, i);
    MappedStep(e, r, r.planned[i]);
    MappedStepIsSound(e, r, r.planned[i]);
    RefusedStepIsSound(e, r, MapStep(e, r.planned[i], r.persona, r.workload));
  }

  lemma SameWriteIsSound(e: Env, r: Request)
    ensures forall a, b | SameWrite(a, b) && Sounding(e, r)(b) :: Sounding(e, r)(a)
  {
  }

  lemma BeforeScrubsIsSound(e: Env, r: Request)
    requires LawfulEnv(e) && EnsuredSteps(e, r).Some?
    ensures forall s | s in EnsuredSteps(e, r).value :: SoundStep(e, r, s)
    ensures forall s | s in BeforeScrubs(e, r).steps :: SoundStep(e, r, s)
  {
    SafeStepsAreSound(e, r);
    if Installs(e, r) { InstalledIsSound(e, r); }
    SameWriteIsSound(e, r);
    ReachesScrubs(e, r, Sounding(e, r));
    assert forall s :: Sounding(e, r)(s) == SoundStep(e, r, s);
  }

  /** The scrub prunes no resource leaf of the patch. */
  ghost predicate Spares(e: Env, patch: Fields, refused: seq<Redaction.RefusedValue>)
  {
    forall p | p in RefusedPaths(e, patch, refused) :: !IsResourcePath(p)
  }

  /** A guardrail refused, on some step, the very value the derivation installs:
      the request that makes the assertion before the Create fail. */
  ghost predicate DerivedIsRefused(e: Env, r: Request)
    requires LawfulEnv(e) && EnsuredSteps(e, r).Some?
  {
    Installs(e, r) &&
    exists t, s | t in EnsuredSteps(e, r).value && s in t.safety ::
      RefusesDerived(e, r, s)
  }

  predicate RefusesDerived(e: Env, r: Request, s: Safety)
    requires LawfulEnv(e) && Installs(e, r)
  {
    IsRefusal(s) && TargetPath(r.diagnosis) == Some(s.field) && SameValue(e, ChangeOf(e, r).value, RefusedValueOf(e, s))
  }

  /** Where a refused value of the plan comes from. */
  lemma RefusedOrigin(e: Env, r: Request, bad: Redaction.RefusedValue) returns (origin: Step, s: Safety)
    requires LawfulEnv(e) && EnsuredSteps(e, r).Some? && bad in RefusedValues(e, BeforeScrubs(e, r).steps)
    ensures origin in EnsuredSteps(e, r).value && s in origin.safety
    ensures IsRefusal(s) && bad == RefusedValueOf(e, s)
    ensures Sound(e, r, s)
  {
    var before := BeforeScrubs(e, r).steps;
    s := CollectedIsRefusal(e, AllSafety(before), {}, bad);
    SafetyOfSteps(before, s);
    var i :| 0 <= i < |before| && s in before[i].safety;
    origin := BeforeScrubsOrigin(e, r, i);
    BeforeScrubsIsSound(e, r);
    assert before[i] in before;
  }

  /** The scrub spares every resource leaf, unless the derived value is refused. */
  lemma ScrubSparesResources(e: Env, r: Request, step: Step)
    requires LawfulEnv(e) && EnsuredSteps(e, r).Some? && !DerivedIsRefused(e, r)
    requires step in BeforeScrubs(e, r).steps && step.patch.Some?
    ensures Spares(e, step.patch.value, RefusedValues(e, BeforeScrubs(e, r).steps))
  {
    var refused := RefusedValues(e, BeforeScrubs(e, r).steps);
    forall bad | bad in refused && IsResourcePath(bad.field) ensures !HoldsRefused(e, step.patch.value, bad) {
      ResourceIsNotRefused(e, r, step, bad);
    }
    RefusedPathsAreHeld(e, step.patch.value, refused);
  }

  lemma ResourceIsNotRefused(e: Env, r: Request, step: Step, bad: Redaction.RefusedValue)
    requires LawfulEnv(e) && EnsuredSteps(e, r).Some? && !DerivedIsRefused(e, r)
    requires step in BeforeScrubs(e, r).steps && step.patch.Some?
    requires bad in RefusedValues(e, BeforeScrubs(e, r).steps) && IsResourcePath(bad.field)
    ensures !HoldsRefused(e, step.patch.value, bad)
  {
    var origin, s := RefusedOrigin(e, r, bad);
    BeforeScrubsIsSound(e, r);
    BeforeScrubsIsChecked(e, r);
    HeldIsDerived(e, r, step.patch.value, s);
    if Installs(e, r) { assert !RefusesDerived(e, r, s); }
  }

  /** A refused value held at a resource path is the derived one. */
  lemma HeldIsDerived(e: Env, r: Request, f: Fields, s: Safety)
    requires LawfulEnv(e) && Sound(e, r, s) && IsRefusal(s) && IsResourcePath(s.field)
    requires LiveLeaves(r, f) && Checked(e, r, f)
    ensures HoldsRefused(e, f, RefusedValueOf(e, s)) ==> Installs(e, r) && RefusesDerived(e, r, s)
  {
    if HoldsRefused(e, f, RefusedValueOf(e, s)) {
      RefusedLeafIsOutside(e, r, f, s);
    }
  }
}
