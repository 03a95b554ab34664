# dorgu-operator: verified model

A Dafny model of the remediation core of dorgu-operator and of the detection and
event components around it. `dafny verify dfyconfig.toml` checks all of it.

The operator watches applications, asks a language model for an ordered plan when
one fails, clamps that plan with guardrails, stores it as a RemediationAction,
waits for a human, patches the application's persona, verifies the effect and
rolls back if it got worse. The files follow those layers.

* `Json`, `Paths`, `Merge`, `Prune`, `Undo`: patches as JSON object trees, and the
  walks, merges, snapshots and prunings over them, and when a stored rollback
  state undoes a patch. A dot-joined path is the sequence of its keys; `Paths`
  shows that this loses nothing for dot-free keys.
* `Sizing`: the deterministic resource change.
* `Plan` states each stage between the planner's answer and the Create as a
  function of the plan; `RemediationAction` (module `Pipeline`) runs the stages in
  place on a class and is proved to compute those functions. `PlanTheorems`,
  `PlanScrubs`, `PlanCreation`, `PlanRefusals`, `PlanRecords`, `PlanCoherence`,
  `PlanRollback`, `PlanProse` and `PlanShape` prove what every created plan
  satisfies, from the request it answers.
* `Text`, `GuardrailClaims`, `Redaction`, `Kubectl`: the text guards.
* `Conditions`, `Lifecycle`: one action, the human, the persona store, time and
  the controller as a transition system in which any status write may be lost and
  any persona update may fail, or succeed unnoticed. `Controller` holds the
  handlers as methods, each proved to be a step of it; `LifecycleTheorems`,
  `LifecycleContents` and `RetryBudget` prove properties of all runs,
  `LifecycleOutcomes` says what each reconcile leaves on record, and `EndToEnd`
  follows created Actions from the planner's answer to their end.
* `Registry`, `RateLimit`: many actions at once.
* `Dedup`, `Cleaner`, `Grouping`, `Attribution`, `Sorts`: event retention and
  detection.

Library behaviour enters as parameters with stated laws: quantity parsing and
printing (`LawfulQuantities`), character classes and lower-casing (`Lawful`),
token boundaries (`LawfulScanner`), sorting (any ordered permutation, or any
enumeration of a set), and the wording of generated sentences (no law at all).
The live workload, the persona, the planner's steps, whether the workload is
owned, the persona-wide guardrail verdict and the outcome of the Create are inputs
of a `Request`, quantified over everywhere. `Example` and `Sorts` hold lawful
instances of the laws, and `Example` created plans for the hypotheses of the
theorems on plans: one with a derived value (`Example.FilledPlanIsCreated`,
`Example.FractionalPlanBreaksTheCap`), one with a derived value on a persona that
records no limit (`Example.UnrecordedLimit`), one with refusals
(`Example.PlanPartsFromItsAction`), one that only asks for what is permitted
(`Example.PermittedWithoutRollback`), and one for an owned workload without any
verdict (`Example.UnruledOwnedPlan`). No one plan can meet all hypotheses, as some
ask for a refusal and some for no verdict. Among them is no plan that keeps a
command, and none whose prose quotes a guardrail message.

The theorems on rollback speak of a persona as its typed record renders it
(`PlanRollback.TypedPersona`): no nulls, and objects and non-empty texts where it
records limits.

Where the code does less than it sets out to do, the exact condition is proved:

* The retry budget for inconclusive verifications is never spent
  (`RetryBudget.NoRunSpendsTheBudget`): the counter lives in a message that
  `setCondition` does not rewrite. With rewritten messages it ends as intended
  (`RetryBudget.RefreshedBudgetEnds`).
* Completed means the patch is the operator's last write exactly when no rollback
  in the run took effect and lost its status
  (`LifecycleContents.CompletedIsLastWritten`, `LifecycleContents.CompletedIsInPlace`);
  the loss happens (`LifecycleContents.CompletedWithoutThePatch`).
* A value derived from a fractional limit can exceed twice that limit, because
  `Value()` and `MilliValue()` round up. At the doubling multiplier it stays within
  exactly for whole units, at the other multipliers for all but the stated small
  fractions (`Sizing.DerivedFitsIff`), and a created plan keeps the cap exactly then
  (`PlanCreation.CreatedPlanIsCapped`). Half a byte breaks it
  (`Example.FractionalPlanBreaksTheCap`).
* The assertion before the Create fires exactly when a guardrail had refused the
  very value that is then derived (`PlanCreation.CreatedIff`). That cannot happen
  while the cap is kept (`PlanCreation.FinalAssertionNeverFires`), and happens on
  half a byte asked to become two twice (`Example.AssertionFires`).
* A plan that counts as applicable (`HasAutoApplicableChange`) is refused by the
  executor once approved, and fails, exactly when it parted from its legacy Action
  or the first applied step has no rollback state
  (`EndToEnd.ApplicablePlanIsRefusedIff`). It parts exactly when every value of the
  step the Action was taken from is refused and another applied step keeps one
  (`PlanCoherence.CreatedPlanAgrees`); plans that set only resources never do
  (`PlanCoherence.ResourcePlanAgrees`), but may lack a rollback state. Both happen
  (`Example.PlanPartsFromItsAction`, `Example.PermittedWithoutRollback`).
* The hourly limit holds for stamps, which are truncated to seconds
  (`RateLimit.NoStampedHourHoldsMore`). In instants of creation it holds in every
  window of a length exactly when the length is at most an hour less a second, plus
  a nanosecond (`RateLimit.WindowHoldsIff`, with the attempts that break any longer
  one), and in every hour of a run exactly when no attempt is let through although
  as many as the limit were created in the hour before it
  (`RateLimit.EveryHourHoldsIff`).
* The recount of the steps, put into the explanation after its redaction, brings a
  refused value back exactly when the new count mentions it
  (`PlanProse.CreatedExplanationOffers`).
* A suggested command is cut at white space. That is how a shell reads it where
  nothing is quoted (`Kubectl.ShellReadsFields`); a quoted value of several words is
  misread (`Kubectl.QuotedIsMisread`).
* `mergeMaps` is RFC 7396, and an apply may be retried, only when patch objects
  that land on nothing hold no nulls (`Merge.MergeIsRfc7396`,
  `Merge.ReapplyIsIdempotent`, and `Merge.UncleanLanding` for one that does).
* The check for an active remediation misses duplicates when the incident lives in
  another namespace than the action (`Registry.MisalignedRepeats`). The operator's
  own caller never creates such an incident: it puts it in the persona's namespace,
  or in "default" as the action (healthcheck_reconciler.go:253 and 571-578;
  `Registry.MisalignedRepeats` covers both).
* Two protected messages more than 25 places apart share a token, and then the
  earlier one is put back for both (`Redaction.RestoreGivesFirsts`).

## Model

| member | source | states |
|---|---|---|
| `Merge.MergeMaps` | internal/remediation/executor.go:198-230 | The in-place merge loop computes `Merged`: null deletes, objects merge key by key, everything else replaces. |
| `Merge.MergeIsRfc7396` | internal/remediation/executor.go:180-230 | `mergeMaps` equals MergePatch of section 2 of RFC 7396 on a target if and only if every patch object that lands on an absent or non-object value is free of nulls. |
| `Merge.ReapplyIsIdempotent` | internal/remediation/executor.go:198-230 | Applying a patch a second time (a retry after a lost status write) changes nothing if and only if the same clean-landing condition holds. |
| `Merge.UncleanLanding` | internal/remediation/executor.go:198-230 | A patch object holding a null that lands on nothing leaves the null behind, and a second application then removes the key: the input both conditions exclude. |
| `Merge.MergedPatchesCompose` | internal/remediation/proposer_ai_appliable.go:383-407 | Applying `mergePatches(base, overlay)` equals applying base and then overlay, for every target, if and only if the two patches agree in a stated, checkable way; null-free patches that agree on shape qualify. |
| `Merge.MergedLeafHasASource` | internal/remediation/proposer_ai_appliable.go:383-407 | Merging two patches invents no third value: every leaf of the result is one of theirs. |
| `Merge.MirrorExistingPaths` | internal/remediation/proposer_ai.go:530-550 | The snapshot loop computes `Mirrored`. |
| `Merge.RollbackRestores` | internal/remediation/proposer_ai.go:530-550 | Merging a patch and then the snapshot `mirrorExistingPaths` takes of a null-free document gives the original plus exactly the keys the patch introduced, shape changes and deletions included. |
| `Merge.RollbackKeepsEveryOriginalLeaf` | internal/remediation/rollback.go:44-73 | With that snapshot of the original itself, after apply and rollback every leaf the original had reads as before. |
| `Merge.RollbackIsExact` | internal/remediation/rollback.go:44-73 | With that snapshot, apply and rollback give back the original itself if and only if the patch introduced no key. |
| `Undo.UndoRestores` | internal/remediation/rollback.go:44-73 | For any stored rollback state that undoes a patch (it holds every original value the patch replaces, contradicts none, and strays only where the patch writes), apply and rollback give back every original leaf, and every leaf beyond them is one the patch sets. |
| `Undo.MirroredUndoes` | internal/remediation/proposer_ai.go:530-550 | The snapshot covers every value the patch replaces or deletes, and where it shares a key with the original it holds its value or a part of it. |
| `Undo.DeletedAllUndoes` | internal/remediation/proposer_ai_appliable.go:347-379 | Pruning refused leaves from patch and rollback state alike keeps the one undoing the other. |
| `Undo.DeletedAllNeedsLess` | internal/remediation/refused_values.go:221-238 | Pruning the patch alone, as the last-chance scrub does, leaves its rollback state covering it. |
| `Undo.DerivedUndoes` | internal/remediation/proposer_ai_appliable.go:288-301 | Writing a derived value into a patch and the recorded value, or any value where nothing is recorded, into its rollback state keeps them together. |
| `Json.CollectLeafPaths` | internal/remediation/proposer.go:186-211 | The walk returns exactly the paths of the non-object values. |
| `Paths.SplitUndoesJoin` | internal/remediation/proposer_ai_appliable.go:411-431 | Splitting a dot-joined path gives back its keys, for dot-free keys. |
| `Paths.HasPrefixIsKeyPrefix` | internal/remediation/proposer_grounding.go:87-125 | The text test `HasPrefix(path, section + ".")` is the proper-prefix test on keys, both ways, for dot-free keys. |
| `Paths.WalkJoins` | internal/remediation/proposer.go:186-211 | The walkers' prefix building joins the keys if and only if the top key is non-empty or the path has one key. |
| `Prune.PrunePatchPaths` | internal/remediation/proposer_ai_appliable.go:411-431 | The pruning loop computes `Pruned`: every listed path deleted, and no patch at all when nothing is left. |
| `Prune.PrunedLeaves` | internal/remediation/proposer_grounding.go:286-299 | For lists of leaves of the patch, as its callers pass, the leaves after `prunePatchPaths` are exactly the others. |
| `Prune.DeletedAllLeaves` | internal/remediation/proposer_ai_appliable.go:411-431 | For any list of paths, what is left are the leaves at or below none of them. |
| `Prune.DeletedAllIsEmptyIff` | internal/remediation/proposer_ai_appliable.go:411-431 | Deleting some of its leaves empties a patch, so that no patch is left, if and only if all leaves are listed and it held no empty object. |
| `Prune.WithPathsLeaves` | internal/remediation/proposer_grounding.go:167-178 | The snapshot `mergeNestedPath` builds from paths none of which leads through another holds exactly those leaves with their values. |
| `Prune.LeafPathsAreAnAntichain` | internal/remediation/proposer_grounding.go:139-163 | The leaf paths of a patch, which the snapshot is built from, are such paths. |
| `Sizing.SizedPatchHitsTarget` | internal/remediation/proposer.go:476-564 | A sized change patches exactly the one field `diagnosisTargetPath` predicts, and its rollback value sits at the same path and nowhere else. |
| `Sizing.TargetPathIs` | internal/remediation/proposer.go:148-160 | The predicted field, from the signals: the memory limit for memory pressure first, or for a crash loop that comes with it; the CPU limit for CPU saturation; else none. |
| `Sizing.ObservedIs` | internal/remediation/proposer_grounding.go:87-115 | The live value at each of the four resource paths. |
| `Sizing.SizedIff` | internal/remediation/proposer.go:514-540 | With a target, a change is sized if and only if its baseline parses: the live limit of a resolved workload, the recorded one otherwise; and it is unparsable if and only if there is one that does not. |
| `Sizing.DerivedValue` | internal/remediation/proposer.go:568-594 | The value is the baseline in bytes or thousandths of a core, rounded up, times 1.5 or 2 for memory and 1.25 or 1.5 for CPU, by severity, rounded down. |
| `Sizing.DerivedFitsIff` | internal/remediation/proposer.go:568-588 | For every positive baseline the derived value parses to no less than it, and to at most twice it if and only if the baseline fits its multiplier: whole units at 2, at least half a unit and not between 1 and 1.5 at 1.5, at least half a unit at 1.25. |
| `Pipeline.ExtractResources` | internal/remediation/safety.go:486-503 | The recursive walk records exactly the string leaves that parse as quantities. |
| `Pipeline.CheckBlastRadius` | internal/remediation/safety.go:240-319 | Returns exactly the fields whose value x, over a positive baseline b, has x > 2b, 2x < b or x <= 0. |
| `Pipeline.GroundedPrePatch` | internal/remediation/proposer_grounding.go:139-163 | The loops compute the live snapshot at the patch's own paths, or none. |
| `Pipeline.MapPlannedSteps` | internal/remediation/proposer_ai.go:198-239 | The loop maps every planned step as `MapStep` says, absent keys dropped and recorded. |
| `Pipeline.RemediationAction.constructor` | internal/remediation/proposer_ai.go:267-317 | A new action carries the mapped steps, the recomputed legacy Action and the generated explanation. |
| `Pipeline.RemediationAction.SetBackCompatAction` | internal/remediation/proposer_ai.go:415-428 | Points the legacy Action at the first applied step, or makes it advisory; nothing else changes. |
| `Pipeline.RemediationAction.ApplyStepSafety` | internal/remediation/proposer_ai.go:324-377 | Once the persona-wide guardrails are clear, rewrites every applied step in place as `RefuseStep` says, and nothing else. |
| `Pipeline.RefuseStepFields` | internal/remediation/proposer_ai_appliable.go:347-379 | Records one refusal per field, prunes patch and rollback state, demotes an emptied step. |
| `Pipeline.RemediationAction.EnsureAppliableResourcePlan` | internal/remediation/proposer_ai_appliable.go:128-170 | Leaves an appliable plan alone, derives the missing patch onto one step, declines with the rule engine, or refuses, exactly as `EnsureAppliable` says. |
| `Pipeline.InstallDerivedPatch` | internal/remediation/proposer_ai_appliable.go:288-301 | Merges the derived patch and rollback state over the step's and settles its verdicts. |
| `Pipeline.RecordDerivedValues` | internal/remediation/proposer_ai_appliable.go:305-332 | Turns each refusal of a derived field into a clamp and records every other derived field once. |
| `Pipeline.RemediationAction.DropPatchlessPersonaUpdates` | internal/remediation/proposer_ai_appliable.go:216-237 | Drops exactly the persona updates with neither patch nor verdict, keeps order, renumbers only when one was dropped. |
| `Pipeline.RemediationAction.EnforceAutoExecutableInvariant` | internal/remediation/proposer_ai.go:433-439 | Clears the flag on every step that is not a persona update and touches nothing else. |
| `Pipeline.RemediationAction.ShapeForOwner` | internal/remediation/proposer_ownership.go:43-86 | Both ownership stages in place: owner instructions for writing advisory steps, then every writing command removed, only on owned workloads. |
| `Pipeline.RemediationAction.ProposedResourceChanges` | internal/remediation/proposer_ownership.go:100-136 | Collects the resource values of all persona-update patches and the legacy Action, later ones winning. |
| `Pipeline.RemediationAction.DiscloseBlastRadiusClamp` | internal/remediation/blast_radius_notice.go:49-87 | Adds the caveat to each step at the cap and to the plan's prose, and damps the confidence once. |
| `Pipeline.RemediationAction.DiscloseGroundedBlastRadiusClamp` | internal/remediation/proposer_grounding.go:218-249 | Swaps the live snapshots in, discloses, and puts the recorded ones back. |
| `Pipeline.RemediationAction.RefusedValuesOnPlan` | internal/remediation/refused_values.go:84-112 | Collects each refused field and value of the whole plan once, in order. |
| `Pipeline.RemediationAction.ScrubRefusedValues` | internal/remediation/refused_values.go:120-166 | The last-chance scrub in place: steps, legacy Action, summary and explanation. |
| `Pipeline.ScrubStep` | internal/remediation/refused_values.go:170-200 | One step's scrub: patch pruned, offering command dropped with a note, prose redacted. |
| `Pipeline.PruneRefusedLeaves` | internal/remediation/refused_values.go:221-238 | Prunes exactly the leaves whose field and value match a refusal. |
| `Pipeline.RemediationAction.ScrubFabricatedGuardrailClaims` | internal/remediation/fabricated_clamp.go:87-120 | Cleans every prose surface of a plan without verdicts and leaves any other plan alone. |
| `Pipeline.ProposeWithPlanner` | internal/remediation/proposer_ai.go:42-183 | The stages in the code's order on one mutable action: skipped, handed to the rule engine or created exactly as `Built` says, with exactly those contents. |
| `PlanShape.UnruledStepIsPlanned` | internal/remediation/proposer_ai.go:198-239 | A step no guardrail spoke on is the planner's: order, type, description, rationale, and its patch or its sanitized command. |
| `PlanShape.RefusedStepIsDorgus` | internal/remediation/proposer_ai_appliable.go:347-379 | A step with a refused field carries Dorgu's own description and rationale. |
| `PlanShape.IntrudingStepSaysSo` | internal/remediation/proposer_grounding.go:262-316 | A step that asked for resource keys the live container lacks names exactly those in its rationale. |
| `PlanShape.DerivedStepIs` | internal/remediation/proposer_ai_appliable.go:245-279 | The derived patch goes to the first persona update the blast radius refused a field of, or else to the first persona update. |
| `PlanShape.DerivedStepIsDorgus` | internal/remediation/proposer_ai_appliable.go:288-301 | The step that gets it is an applied persona update without a command, in Dorgu's own prose, which says whether a refusal was settled. |
| `PlanShape.DerivedIsRecorded` | internal/remediation/proposer_ai_appliable.go:305-332 | A value derived for a created plan is on record in it, as Derived or as what a refusal was Clamped to. |
| `PlanShape.PlanIsRefusedIff` | internal/remediation/proposer_ai_appliable.go:128-170 | A plan is refused for want of an appliable change if and only if the diagnosis has a target no step sets and there is a baseline that does not parse, or does but no persona update to put the change on. |
| `PlanShape.KeptSteps` | internal/remediation/proposer_ai_appliable.go:216-237 | No kept step is a persona update with neither patch nor verdict; order is kept, and numbered from one if any was dropped. |
| `PlanShape.OwnedStep` | internal/remediation/proposer_ownership.go:43-97 | On an owned workload an advisory step whose command writes loses it for an owner instruction; every other step keeps its order and prose, and its command unless that writes. |
| `PlanShape.OwnedSummaryIs` | internal/remediation/proposer_ownership.go:43-70 | The plan summary gives the reason if and only if some step was rewritten for the owner. |
| `PlanShape.OwnedExplanationIs` | internal/remediation/proposer_ai.go:448-469 | The explanation counts the steps and those applied. |
| `PlanShape.ProposedChangesAre` | internal/remediation/proposer_ownership.go:100-136 | The owner is told what the Action sets, and elsewhere what the last persona update that sets it does. |
| `PlanShape.DisclosedRationale` | internal/remediation/blast_radius_notice.go:49-125 | A step gets the caveat exactly for the fields it sets to 1.999999999 times a positive baseline or more. |
| `PlanShape.DisclosedProse` | internal/remediation/blast_radius_notice.go:49-90 | Explanation and non-empty summary get the caveat with exactly the fields some step has at the cap, and stay if there is none. |
| `PlanShape.CreatedConfidence` | internal/remediation/blast_radius_notice.go:49-160 | A created plan has the planner's confidence, times 0.85 if and only if a kept step sets such a value. |
| `PlanCreation.CreatedPlanIsCapped` | internal/remediation/proposer_ai.go:324-399 | In every created plan a step applies automatically exactly when it carries a patch and only persona updates carry one; b <= 2x and x <= 2b for every parsable value x over a positive base b in all step patches if and only if the derived value's baseline fits its multiplier, and then in the Action's patch, which the executor writes, too. |
| `PlanTheorems.RefusedStepIsWithin` | internal/remediation/proposer_ai.go:324-399 | After the safety stage every remaining value x of a step has b <= 2x and x <= 2b for the baseline b the step was measured against, live or the persona's, and for every field's base. |
| `PlanTheorems.InstalledIsChecked` | internal/remediation/proposer_ai_appliable.go:288-301 | After installing the derived patch each merged value is within the cap as measured before or is the derived one at its path, whatever the limits. |
| `PlanScrubs.NoRefusedValueSurvives` | internal/remediation/refused_values.go:120-238 | No step patch and no Action patch of a created plan holds, at a refused field, a value equal as text or as a quantity to any recorded refusal, and no step command mentions one. |
| `PlanScrubs.RefusedValuesAre` | internal/remediation/refused_values.go:84-112 | A value counts as refused if and only if some step records it as the request, neither empty nor the permitted value, of a Rejected or Clamped verdict. |
| `PlanRefusals.RecordedIsGone` | internal/remediation/refused_values.go:84-238 | Whatever a created plan records as Rejected, or as Clamped to another value, no patch holds at its field, as text or as quantity, and no command names. |
| `PlanRefusals.OverreachIsRecorded` | internal/remediation/proposer_ai_appliable.go:305-379 | Every quantity the planner asked for over twice, under half of, or not above zero on a positive base is on record in the created plan, in its canonical text and against that base: Rejected with its message, or Clamped to the derived value at the diagnosed field. |
| `PlanRefusals.IntrusionIsInThePlan` | internal/remediation/proposer_ai_appliable.go:180-207 | Every resource key it asked for that the live container lacks is on record as Rejected with its text. |
| `PlanRefusals.OverreachIsGone` | internal/remediation/proposer_ai.go:324-377 | So no such quantity is left in a patch of the created plan, in any notation, or named in a command, while the derived value keeps the cap. |
| `PlanRefusals.IntrusionIsGone` | internal/remediation/proposer_grounding.go:262-299 | Nor any such text. |
| `PlanScrubs.ScrubbedPlanIsClean` | internal/remediation/refused_values.go:120-238 | The same of the two scrubs on any contents whatever, however they came about. |
| `PlanScrubs.UnruledPlanClaimsNothing` | internal/remediation/fabricated_clamp.go:87-185 | A created plan without a recorded verdict claims a guardrail ruling on no prose surface. |
| `PlanScrubs.UnruledPlanKeepsTheRest` | internal/remediation/fabricated_clamp.go:87-146 | And keeps every other sentence on every prose surface, in order. |
| `PlanScrubs.UnruledContents` | internal/remediation/fabricated_clamp.go:87-120 | The same of the claim scrub on any contents whatever. |
| `PlanScrubs.OwnedPlanOnlyReads` | internal/remediation/proposer_ownership.go:72-86 | Every command left in a created plan for an owned workload is empty or a listed read-only verb or subcommand behind known flags, and to a shell too where nothing is quoted. |
| `PlanScrubs.ScrubSparesResources` | internal/remediation/refused_values.go:221-238 | Unless the derived value itself was refused, the scrub never prunes a resource leaf: a value that passed the guardrail, or was derived, is never one that was refused. |
| `PlanProse.CreatedProseOffersNothing` | internal/remediation/refused_values.go:170-315 | Whatever blank-free value a step of a created plan records as refused, no step's description or rationale mentions it, as token or as quantity, outside the guardrail messages put back into it. |
| `PlanProse.CreatedProseKeepsTheRest` | internal/remediation/refused_values.go:170-200 | And in a created plan with a refusal nothing else is taken out of the descriptions and rationales: every sentence that mentions no refused value, and every message it quotes, is still there. |
| `PlanProse.CreatedSummaryKeepsTheRest` | internal/remediation/refused_values.go:147-155 | Nor out of the plan summary and, before the recount of the steps, the explanation. |
| `PlanProse.CreatedSummaryOffersNothing` | internal/remediation/refused_values.go:147-150 | The same of the plan summary. |
| `PlanProse.CreatedExplanationOffers` | internal/remediation/refused_values.go:151-163 | The same of the explanation unless the steps were recounted; then it mentions a refused value that the redacted explanation does not if and only if the new count, to the end of its last word, does. |
| `PlanProse.ScrubbedPlanOffersNothing` | internal/remediation/refused_values.go:120-200 | The same of the two scrubs on any contents whatever. |
| `PlanRecords.RecordsMatchPatches` | internal/remediation/proposer_ai_appliable.go:288-379 | In every created plan a field recorded as refused has no value in that step's patch, and a value recorded as permitted or derived is the one the patch sets. |
| `PlanRecords.InstalledIsTruthful` | internal/remediation/proposer_ai_appliable.go:288-332 | Settling the verdicts keeps record and patch together: a clamped or derived entry names the value now in the patch, a remaining refusal a field that is not. |
| `PlanCreation.CreatedIff` | internal/remediation/proposer_ai_appliable.go:69-170 | A plan is created if and only if it had steps, the persona-wide guardrails were clear, `ensureAppliableResourcePlan` did not refuse, a step was kept, no guardrail had refused the value then derived, and the Create went through. |
| `PlanCreation.FinalAssertionNeverFires` | internal/remediation/proposer_ai_appliable.go:69-81 | When the derived value's baseline fits its multiplier the assertion before the Create cannot fail: the refused-value clause of that condition holds by itself. |
| `Example.AssertionFires` | internal/remediation/proposer_ai_appliable.go:69-81 | A request on which the assertion fires: half a byte, a critical diagnosis, and two steps asking for two bytes. |
| `Example.FractionalPlanBreaksTheCap` | internal/remediation/proposer.go:583-588 | A created plan in which a step sets more than twice its base. |
| `PlanCoherence.ScrubKeepsAgreement` | internal/remediation/refused_values.go:136-145 | The scrub leaves the legacy Action equal to the one its steps call for if and only if not: every value of the Action's step is refused while another applied step has one that is not. |
| `PlanCoherence.CreatedPlanAgrees` | internal/remediation/proposer_ai.go:101-150 | The same, for every created plan, read off the steps as the resource guard left them and the refusals they record. |
| `PlanCoherence.EmptiedIff` | internal/remediation/refused_values.go:221-238 | The scrub leaves no patch of a step if and only if the patch has no empty object and every value in it is a refused one for its field. |
| `PlanCoherence.PartedPlan` | internal/remediation/refused_values.go:136-145 | A created plan that parted has an advisory Action, although `HasAutoApplicableChange` holds. |
| `Example.PlanPartsFromItsAction` | internal/remediation/refused_values.go:136-145 | Such a plan: one step refused against the persona, one cut down against the live workload, one within bounds. |
| `EndToEnd.PartedPlanIsRefused` | internal/remediation/executor.go:60-114 | Reconciling such a plan once approved, with its status stored, writes nothing and ends in Failed with PreconditionRejected. |
| `PlanCoherence.ResourcePlanAgrees` | api/v1/remediationaction_steps.go:73-91 | When the planned patches set only resources, every patch reaches Create as the guardrails left it, the Action is the first applied step's, and `HasAutoApplicableChange` says whether the Action is a persona update with a patch. |
| `PlanCoherence.CreatedFitIff` | internal/remediation/executor.go:91-114 | A created plan that counts as applicable has an Action with type, patch and rollback state as the executor demands if and only if it did not part from it and the first applied step has a rollback state. |
| `EndToEnd.ApplicablePlanIsRefusedIff` | internal/remediation/executor.go:60-114 | Reconciling such a plan once approved, with its status stored, writes nothing and ends in Failed with PreconditionRejected if and only if it parted or that step has no rollback state. |
| `Example.PermittedWithoutRollback` | internal/remediation/proposer_ai.go:530-550 | A created plan within the cap that sets only resources and has no rollback state: exactly twice the live limit, for a persona that records none. |
| `PlanRollback.CreatedActionUndoes` | internal/remediation/proposer_ai.go:530-550 | The rollback state of every created Action undoes its patch on the persona the plan was made for: mapped, refused, derived, scrubbed, and with the live value stored for a limit the persona does not record. |
| `PlanRollback.CreatedActionRestores` | internal/remediation/rollback.go:44-73 | So merging a created Action's patch and then its rollback state into the persona gives back every leaf the persona had, and every leaf beyond them is at a key the patch sets. |
| `PlanRollback.SizedUndoes` | internal/remediation/proposer.go:514-564 | The same of every rule-based change, whether or not the persona records the limit. |
| `PlanRollback.SizedRestores` | internal/remediation/rollback.go:44-73 | So a rule-based change and its rollback give back every leaf the persona had. |
| `Text.SplitSentences` | internal/remediation/refused_values.go:321-341 | The index loop computes `Sentences`. |
| `Text.SplittingGivesSentences` | internal/remediation/refused_values.go:321-341 | Every piece is trimmed, non-empty, ends only at its end, and every piece but the last is terminated. |
| `Text.SplitUndoesJoin` | internal/remediation/refused_values.go:269-282 | Splitting a blank-joined list of sentences gives back the list. |
| `GuardrailClaims.FindWord` | internal/remediation/fabricated_clamp.go:172-195 | The search finds a word if and only if it occurs between non-letters. |
| `GuardrailClaims.AssertsGuardrailVerdict` | internal/remediation/fabricated_clamp.go:155-168 | True if and only if a term occurs or a whole word does. |
| `GuardrailClaims.DropGuardrailClaims` | internal/remediation/fabricated_clamp.go:128-146 | The loop computes `Cleaned` and reports a change exactly when some sentence claims. |
| `GuardrailClaims.CleanedClaimsNothing` | internal/remediation/fabricated_clamp.go:128-185 | For every text, neither the cleaned text nor any of its sentences claims a verdict: none forms across a sentence boundary. |
| `GuardrailClaims.CleanedKeepsTheRest` | internal/remediation/fabricated_clamp.go:128-146 | The cleaned text's sentences are exactly the others, in order. |
| `GuardrailClaims.CleanedIsIdempotent` | internal/remediation/fabricated_clamp.go:128-146 | Cleaning a cleaned text changes nothing. |
| `Redaction.FindToken` | internal/remediation/refused_values.go:401-424 | Finds a value if and only if it occurs between non-alphanumerics. |
| `Redaction.QuantityTokens` | internal/remediation/refused_values.go:432-445 | Returns exactly the quantities that the maximal runs of quantity characters with a digit parse to. |
| `Redaction.MentionsRefusedValue` | internal/remediation/refused_values.go:364-380 | True if and only if the value occurs as a token or the text holds its quantity. |
| `Redaction.RestoreUndoesMask` | internal/remediation/refused_values.go:287-305 | For NUL-free text and messages with a blank and no NUL, restoring the masked text gives the text whenever no two different messages were masked under one token. |
| `Redaction.FewSpansAreApart` | internal/remediation/refused_values.go:287-305 | At most 26 messages never share a token. |
| `Redaction.RestoreGivesFirsts` | internal/remediation/refused_values.go:287-305 | For any number of messages, restoring gives the text with each masked message replaced by the first one masked under its token. |
| `Redaction.RedactRefusedProse` | internal/remediation/refused_values.go:262-283 | The redaction loop computes `Redacted`. |
| `Redaction.RedactedOffersNothing` | internal/remediation/refused_values.go:262-315 | For messages under tokens of their own: the redacted text is the restoration of a residue that mentions no blank-free refused value, as token or as quantity, and whose sentences are the other sentences of the masked text, in order. |
| `Redaction.RedactedKeeps` | internal/remediation/refused_values.go:262-315 | A sentence that mentions no refused value outside the messages is still in the redacted text, with the messages it quotes, up to white space at the ends. |
| `Kubectl.KubectlVerb` | internal/remediation/kubectl_verb.go:190-230 | The index loop computes `VerbOfFields`. |
| `Kubectl.ParseUndoesPrint` | internal/remediation/kubectl_verb.go:184-230 | For any known global flags with any non-empty blank-free values, then a verb and arguments, the parser returns exactly that verb and those arguments. |
| `Kubectl.ParsedIsPrinted` | internal/remediation/kubectl_verb.go:184-230 | Conversely, whatever the parser accepts is known flags followed by the verb and arguments it returns. |
| `Kubectl.LetThroughIsListedRead` | internal/remediation/kubectl_verb.go:97-245 | A kubectl command is not held to write a workload if and only if it is known flags followed by a listed read-only verb, or a listed verb with a listed read-only subcommand. |
| `Kubectl.SanitizedIsInvocation` | api/v1/remediationaction_steps.go:178-193 | Whatever non-empty command the sanitizer lets through is a kubectl invocation. |
| `Kubectl.SanitizedIff` | api/v1/remediationaction_steps.go:154-193 | A command comes out trimmed if it starts with "kubectl ", has at most 1024 characters and none that chains, pipes, redirects or expands (semicolon, ampersand, vertical bar, angle brackets, backquote, dollar) or ends a line, and otherwise empty. |
| `PlanScrubs.CreatedCommandsAreDisplayed` | api/v1/remediationaction_steps.go:154-193 | Every command of a created plan is empty or such a line. |
| `Kubectl.ShellReadsFields` | internal/remediation/kubectl_verb.go:190-200 | Without those characters, quotes, backslashes, comments, parentheses and exotic white space, the line is one command to a POSIX shell and the fields are its words. |
| `Kubectl.QuotedIsMisread` | internal/remediation/kubectl_verb.go:190-230 | With a quoted flag value of three words the second is read as the verb, while to a shell the verb is what follows the value. |
| `Conditions.SetCondition` | internal/controller/controller_helpers.go:22-42 | Adds a condition, rewrites it when status or reason changed, and otherwise leaves even the message alone. |
| `Conditions.SettingIsLocal` | internal/controller/controller_helpers.go:22-42 | Setting one condition changes no other. |
| `Conditions.GetRetryCount` | internal/controller/remediation_controller.go:532-543 | Reads the count from the first fitting Verified condition, 0 if none fits. |
| `Conditions.RetryMessageRoundTrip` | internal/controller/remediation_controller.go:390-392 | The count printed into the message is the count scanned back, for every count and bound. |
| `Conditions.CountAfterRetry` | internal/controller/controller_helpers.go:22-42 | After a retry is recorded the count is the printed one if the condition was new or the message is refreshed, and otherwise unchanged. |
| `Controller.RemediationController.ApplyPatchTo` | internal/remediation/executor.go:137-178 | Merges the patch's spec part into the persona and stores it, or changes nothing on a missing spec key, a non-object or a refused update. |
| `Controller.RemediationController.ReconcileAction` | internal/controller/remediation_controller.go:97-399 | One reconcile on the stored action, through the approve, apply, wait, verify, roll-back, retry and rejection handlers, is one step of the transition system, lost writes included. |
| `LifecycleTheorems.NoWriteWithoutApproval` | internal/controller/remediation_controller.go:117-239 | In every run each persona write of the operator comes after a human approval. |
| `LifecycleTheorems.UntouchedMeansUntouched` | internal/controller/remediation_controller.go:199-215 | An action that reads Acknowledged, Rejected, Expired or Failed with PreconditionRejected never wrote the persona, not even in an attempt whose status was lost. |
| `LifecycleTheorems.VerificationWaits` | internal/controller/remediation_controller.go:242-266 | Verifying is never entered before the stamp of any application of the patch plus the delay, so never more than the dropped part of a second early. |
| `LifecycleOutcomes.ApprovedOutcome` | internal/controller/remediation_controller.go:199-239 | With its status stored, an approved action is Acknowledged as advisory, Failed with PreconditionRejected, Applying with the second it was applied in, or Failed, each under its stated condition. |
| `LifecycleOutcomes.ApplyingOutcome` | internal/controller/remediation_controller.go:242-266 | An applied action stays until its wait, or ten minutes, is over, then is Verifying; without a stamp it fails. |
| `LifecycleOutcomes.VerifyingOutcome` | internal/controller/remediation_controller.go:269-399 | The verdict is stored; Completed and HealthRestored, RolledBack with both conditions, one more retry below two, or Failed, by verdict and outcome. |
| `LifecycleOutcomes.SettledOutcome` | internal/controller/remediation_controller.go:117-181 | Every other phase stays as it is, but for the stamp of a rejection. |
| `LifecycleContents.TerminalIsFinal` | internal/controller/remediation_controller.go:117-181 | From a terminal phase no run changes phase, stamp or verdict, writes the persona, or adds a condition other than the one stamp of a rejection. |
| `LifecycleContents.PhasesMoveForward` | internal/controller/remediation_controller.go:117-146 | In every run the phase only moves forward, so an action never becomes active again. |
| `LifecycleContents.RolledBackHoldsSnapshot` | internal/controller/remediation_controller.go:314-344 | RolledBack means the persona holds every value of the snapshot, unless somebody else wrote it afterwards. |
| `LifecycleContents.RolledBackIsRestored` | internal/remediation/rollback.go:44-73 | With no other writer and any lost or repeated writes, RolledBack means every value the persona had is back, and every value beyond them is at a key the patch sets, whenever the stored rollback state undoes the patch, as it does for every created Action. |
| `LifecycleContents.RolledBackToTheOrigin` | internal/remediation/rollback.go:44-73 | With a snapshot of the original itself and a patch that lands cleanly, what is left beyond the original is exactly the introduced keys, nothing if and only if there are none. |
| `EndToEnd.CreatedActionRollsBack` | internal/remediation/rollback.go:44-73 | Over every planner answer, run and loss with no other writer: whenever the Action of a created plan ends RolledBack, the persona holds every value it had and beyond them only what the patch introduced. |
| `EndToEnd.RuleBasedActionRollsBack` | internal/remediation/proposer.go:514-564 | The same of every rule-based action, also where the persona records no limit. |
| `EndToEnd.CreatedActionSettles` | internal/remediation/proposer_ai.go:267-317 | Approved, applied, and verified ten minutes later with every write stored, a created plan whose Action the executor accepts ends Completed with the patch in place if healthy and RolledBack with every recorded value restored if degraded; it ends Failed, with nothing written, exactly when its patch holds no object (or null) for the spec. |
| `EndToEnd.RuleBasedActionSettles` | internal/remediation/proposer.go:326-410 | The same run of a rule-based action always ends Completed or RolledBack so. |
| `LifecycleContents.CompletedIsLastWritten` | internal/controller/remediation_controller.go:294-344 | With no other writer, the operator's last write under a completed action is the patch if and only if no rollback in the run took effect and lost its status; otherwise it is that rollback. |
| `LifecycleContents.CompletedIsInPlace` | internal/controller/remediation_controller.go:294-311 | With no other writer and a patch and rollback state that may be repeated, Completed means the patch is in place exactly once if and only if no rollback was lost so, and otherwise the rolled-back persona. |
| `LifecycleContents.CompletedHoldsPatch` | internal/controller/remediation_controller.go:294-311 | Whatever the patch and however often it was written, Completed without a lost rollback means every value of the patch is in the persona. |
| `EndToEnd.CompletedActionIsCapped` | internal/remediation/proposer_ai.go:324-399 | When a created action completes, with no other writer and no rollback lost, each quantity x its patch sets over a positive base b stands in the persona, with b <= 2x and x <= 2b, if the derived value's baseline fits its multiplier. |
| `LifecycleContents.ToldRollbacksAreNotLost` | internal/controller/remediation_controller.go:314-344 | No rollback is lost in a run that stores the status of every degraded verdict. |
| `LifecycleContents.CompletedWithoutThePatch` | internal/controller/remediation_controller.go:314-332 | The loss happens: a run in which the status write after a rollback is lost and the next verdict is healthy completes on the rolled-back persona, which differs from the patched one wherever the snapshot holds another value than the patch. |
| `LifecycleContents.FaultFreeRunSettles` | internal/controller/remediation_controller.go:199-344 | Without faults an approved action settles: Completed with the patch in place, or RolledBack to the snapshot, by verdict. |
| `RetryBudget.RefreshedBudgetEnds` | internal/controller/remediation_controller.go:381-399 | With refreshed messages, after n stored inconclusive reconciles from count c the count is n + c while that is at most the maximum, and the action has Failed ever after. |
| `RetryBudget.WrittenBudgetNeverEnds` | internal/controller/controller_helpers.go:22-42 | As written, from an unspent budget the count becomes 1 and stays 1, and the action stays in Verifying however many inconclusive results are stored. |
| `RetryBudget.WrittenBudgetEndsIff` | internal/controller/remediation_controller.go:381-399 | As written, inconclusive results end in Failed if and only if the count on record had already reached the maximum. |
| `RetryBudget.NoRunSpendsTheBudget` | internal/controller/remediation_controller.go:381-399 | So no run of any action from its creation ever reaches that Failed: inconclusive results alone leave it in Verifying with a count of at most 1. |
| `Registry.ActiveRemediationExists` | internal/remediation/proposer.go:104-139 | True if and only if a listed action of the persona, in a phase before the terminal ones, shares the incident or patches the predicted field. |
| `Registry.ProposalGoesThroughIff` | internal/remediation/proposer.go:104-160 | A proposal that planning and safety allow is created, as the newest action, if and only if no unfinished action of its persona in the incident's namespace shares the incident or patches the predicted field. |
| `Registry.CreatedRecordIs` | internal/remediation/proposer_ai.go:267-317 | What is created: under the persona's namespace or "default", with rollback on and a check after ten minutes; from the rules a persona update with the one sized change. |
| `Registry.RemediationTargetsPath` | internal/remediation/proposer.go:165-182 | True if and only if the Action's patch or some step's patch has a leaf at the path. |
| `Registry.RuleBasedTarget` | internal/remediation/proposer.go:326-564 | A rule-based action patches the one field its diagnosis predicts and no other. |
| `Registry.AtMostOneInFlight` | internal/remediation/proposer.go:104-160 | In every run of proposer, humans and controller, for proposals whose incident namespace is empty or the action's own, no two active actions of one persona and namespace share an incident, and a rule-based one shares no field with an older active one. |
| `Registry.MisalignedRepeats` | internal/remediation/proposer.go:105-116 | Proposing the same fix twice leaves two active duplicates if and only if the incident's namespace hides the namespace the action is created in, so never for an incident in that namespace. |
| `RateLimit.CheckRateLimit` | internal/remediation/safety.go:145-161 | Violated if and only if the actions of the same kind, name and, if given, namespace with a stamp after check time minus one hour reach the limit. |
| `RateLimit.ResultIs` | internal/remediation/safety.go:451-470 | A creation counts under its own kind, name and namespace, or "default". |
| `RateLimit.NoStampedHourHoldsMore` | internal/remediation/safety.go:433-448 | In no run does any half-open hour (x, x + 1h] of creation stamps, which are truncated to seconds, hold more than the limit of created actions of one persona. |
| `RateLimit.WindowHoldsIff` | internal/remediation/safety.go:433-448 | For any positive limit, no window (x, x + d] of creation instants of any run holds more than the limit if and only if d is at most an hour less a second, plus a nanosecond. |
| `RateLimit.EveryHourHoldsIff` | internal/remediation/safety.go:145-161 | A run keeps the limit in every hour of creation instants if and only if none of its attempts is let through although as many as the limit were created in the hour before it. |
| `RateLimit.OvershootForgets` | internal/remediation/safety.go:433-448 | Such an attempt has a predecessor within the hour whose truncated stamp the check no longer counts. |
| `RateLimit.WholeSecondsKeepTheHour` | internal/remediation/safety.go:433-448 | Runs that create at whole seconds keep the limit in every hour. |
| `RateLimit.RejectedBeforeApply` | internal/remediation/safety.go:222-232 | True if and only if there is no application stamp and an Applied condition says the preconditions were rejected. |
| `RateLimit.CooldownIgnoresExactlyTheUnfit` | internal/remediation/safety.go:183-232 | Over every run, the failures the cooldown ignores are exactly those whose plan was unfit to apply, and none of them ever wrote the persona. |
| `Dedup.EventStore.CheckAndMarkSeen` | internal/events/store.go:137-160 | Answers whether the key was accepted less than the window ago, marks an accepted key, prunes only stale keys and only past 1000 entries. |
| `Dedup.PruningIsInvisible` | internal/events/store.go:137-160 | For every call sequence at non-decreasing times the answers are those of a map that never forgets. |
| `Dedup.AcceptedIffSpaced` | internal/events/store.go:137-160 | A call is accepted if and only if every earlier accepted call with its key was marked at least the window before. |
| `Cleaner.SelectForDeletion` | internal/events/cleanup.go:189-213 | Splits off the records past their own lifetime, or the retention where they have none, and the oldest survivors over the cap, for any sort by time. |
| `Cleaner.EventCleaner.Cleanup` | internal/events/cleanup.go:136-184 | One cycle removes exactly the first batch of expired and surplus records that the store agrees to delete. |
| `Cleaner.UnexpiredLossIsCovered` | internal/events/cleanup.go:136-227 | A cycle that deletes an unexpired record leaves maxRecords distinct unexpired records at least as recent. |
| `Cleaner.BacklogDrains` | internal/events/cleanup.go:136-184 | With a positive cap, no arrivals and no refused deletes, k cycles at any times bring n records within the cap once k batches cover the excess. |
| `Cleaner.StuckBatchBlocks` | internal/events/cleanup.go:152-170 | A batch filled with records the store keeps refusing blocks all further pruning. |
| `Grouping.GroupSignals` | internal/detection/grouping.go:95-119 | The loop computes one group per key, in key order. |
| `Grouping.KeysIncrease` | internal/detection/grouping.go:112-118 | Group keys are strictly increasing. |
| `Grouping.GroupsPartition` | internal/detection/grouping.go:95-119 | Together the groups hold every signal exactly as often as the input. |
| `Grouping.KeyNamesOwner` | internal/detection/grouping.go:122-156 | A key belongs to no other scope, namespace and persona or workload if and only if its owner's names hold no slash. |
| `Grouping.UnattributedTogether` | internal/detection/grouping.go:122-156 | Two signals without a persona share a group if and only if they come from the same namespace and the same Deployment, or resource where none is recorded. |
| `Grouping.OthersTogether` | internal/detection/grouping.go:122-142 | A signal with a slash-free persona shares a group exactly with those of the same persona; signals with neither persona nor namespace are the cluster's. |
| `Attribution.FindClaimLength` | internal/detection/persona_correlator.go:138-153 | The loop returns the length of the longer of the two names that claim the resource, 0 if neither does. |
| `Attribution.PersonasClaiming` | internal/detection/persona_correlator.go:114-132 | The running-best loop returns exactly the personas of the greatest positive claim, in list order. |
| `Attribution.ClaimingIgnoresOrder` | internal/detection/persona_correlator.go:114-132 | The personas returned do not depend on the list order. |
| `Attribution.ClaimingIsMostSpecific` | internal/detection/persona_correlator.go:114-153 | A persona is returned if and only if it is listed and its claim is positive and the greatest; every returned one claims through the same prefix of the resource name. |
| `Attribution.Correlate` | internal/detection/persona_correlator.go:58-104 | Rewrites every signal in place as `Attributed` says, through the per-namespace cache. |
| `Attribution.AttributedIff` | internal/detection/persona_correlator.go:50-104 | An unattributed namespaced signal gets a reference if and only if one listed persona's claim is longer than every other's, and then to that persona. |

## Left out

- Pipeline.RemediationAction.ApplyStepSafety: the persona-wide violations (rate limit, concurrency, cooldown, deny list), which skip the whole proposal, enter as one verdict of the request; `RateLimit` models the rate limit and which failures the cooldown counts.
- Pipeline.ProposeWithPlanner: that verdict and whether the Create succeeds are inputs.
- Pipeline.RemediationAction.ProposedResourceChanges: a map of full paths stands for the sorted list with trimmed keys.
- Pipeline.RemediationAction.DiscloseBlastRadiusClamp: the confidence is a number; its two-decimal text and the rounding of the damping are not modelled.
- Pipeline.RemediationAction.RefusedValuesOnPlan: fields and values are compared as pairs, the code joins them into one text `field=value`.
- PlanCreation.CreatedPlanIsCapped: ratios are exact reals, so float rounding at the cap is not modelled.
- PlanCoherence.ResourcePlanAgrees: is about plans whose patches set only resource paths; other string values that parse as quantities are measured against the persona on some steps and not on others, and `PlanCoherence.CreatedPlanAgrees` states exactly when that matters.
- PlanRollback.CreatedActionUndoes: the persona is its typed record, without nulls and with a non-empty text wherever it records a limit.
- PlanProse.CreatedProseOffersNothing: is about prose without NUL and messages that are not masked under a shared token; `Redaction.RestoreGivesFirsts` says what any number of messages gives.
- PlanProse.CreatedExplanationOffers: the generated count is not scrubbed again, so a refused value it happens to mention, such as a plain 1, stays.
- PlanScrubs.OwnedPlanOnlyReads: shell expansions other than quoting (globs, braces, tildes) are not modelled.
- Prune.PrunedLeaves: is about lists of leaves of the patch; `Prune.DeletedAllLeaves` is about all lists.
- Merge.MergeMaps: maps are values, so the sharing of nested Go maps between result and patch is not modelled.
- Merge.RollbackKeepsEveryOriginalLeaf: is about the snapshot of the original itself; `Undo.UndoRestores` is about every rollback state that undoes the patch.
- Merge.RollbackIsExact: likewise.
- Controller.RemediationController.ApplyPatchTo: the typed decode of the merged document, which can reject it or drop fields the persona type does not know, is the outcome of the write.
- LifecycleContents.RolledBackIsRestored: reads the persona as a JSON tree; fields the typed persona spec does not know are not modelled.
- Conditions.GetRetryCount: the scan takes digits only; signs and blanks before a number, which the operator never prints, are not modelled.
- Registry.AtMostOneInFlight: assumes one sequential proposer whose list sees earlier creations, and that the incident's namespace is empty or the action's own.
- RateLimit.WindowHoldsIff: assumes a constant limit and that listed actions are not deleted within the hour.
- Dedup.EventStore.CheckAndMarkSeen: the mutex is one atomic step.
- Attribution.FindClaimLength: lengths count characters, the code counts bytes; Kubernetes names are ASCII.
- Patches that are valid JSON but not objects, and JSON keys that contain dots.
- The byte length that `SanitizeStepCommand` measures (characters here), step IDs, names and labels.
- `checkConcurrent` and `checkDenyList`: one-line filters over the same lists.
- The rule-based proposal's own prose, confidence and safety probe; only its patch is modelled.
- Rejection cooldown and health-check scheduling, incident updates after a transition, the inspection of live workloads after a rollback (its verdict is an input), metrics and broadcasts.
- `EffectiveSteps`, `ValidateAutoExecutable`: read-only views that would add easy members.
- Kubernetes clients, informers, RBAC, the language-model and metrics clients, prompts, the WebSocket server and flags.
- Ownership detection, the verifier's verdict, the diagnosis engine, cluster discovery, persona validation and the event classifier.
