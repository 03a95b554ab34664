/** The remediation controller's handlers as they run: on a local copy of the
    action, writing the persona and the stored status one after the other. */
module Controller {
  import opened Json
  import opened Merge
  import opened Conditions
  import opened Lifecycle

  class RemediationController {
    const spec: Spec
    var stored: Status
    var persona: Fields
    var deleting: bool
    var clock: nat
    ghost var log: seq<Entry>

    ghost function View(): World
      reads this
    {
      World(stored, persona, deleting, clock, log)
    }

    constructor (spec: Spec, persona: Fields, statusLanded: bool, clock: nat)
      ensures this.spec == spec && this.persona == persona && Initial(View())
    {
      this.spec := spec;
      this.stored := Status(if statusLanded then Pending else Unset, None, None, []);
      this.persona := persona;
      this.deleting := false;
      this.clock := clock;
      this.log := [];
    }

    /** The status write, which may be lost. */
    method UpdateStatus(action: Status, f: Faults)
      modifies this`stored, this`log
      ensures View() == Committed(old(View()), Effect(None, Saving(action, f)))
    {
      if f.statusStored {
        if action.phase != stored.phase { log := log + [Moved(action.phase, clock)]; }
        stored := action;
      }
    }

    /** applyPatch: merge into the spec just read and update the persona. */
    method ApplyPatchTo(patch: Payload, who: Writer, f: Faults) returns (ok: bool)
      modifies this`persona, this`log
      ensures var (wrote, told) := Written(old(View()), patch, who, f);
        View() == Committed(old(View()), Effect(wrote, None)) && ok == told
    {
      if !patch.Doc? || "spec" !in patch.fields {
        return false;
      }
      var merged := persona;
      match patch.fields["spec"] {
        case Obj(q) => merged := MergeMaps(persona, q);
        case Null =>
        case _ => return false;
      }
      if f.write.Refused? {
        return false;
      }
      persona := merged;
      log := log + [Wrote(who, clock)];
      return f.write.Stored?;
    }

    /** Executor.Apply. */
    method Apply(f: Faults) returns (result: Applied)
      modifies this`persona, this`log
      ensures var (wrote, r) := ApplyPatch(spec, old(View()), f);
        View() == Committed(old(View()), Effect(wrote, None)) && result == r
    {
      if !spec.isPersonaUpdate || spec.patch.Missing? || spec.prePatch.Missing? || spec.patch.Malformed? {
        return PreconditionRefused;
      }
      if !spec.knownPersonaKind || !f.personaFound || deleting {
        return Error;
      }
      var ok := ApplyPatchTo(spec.patch, Writer.Apply, f);
      return if ok then Success else Error;
    }

    /** Rollback.Execute. */
    method Execute(f: Faults) returns (ok: bool)
      modifies this`persona, this`log
      ensures var (wrote, told) := ExecuteRollback(spec, old(View()), f);
        View() == Committed(old(View()), Effect(wrote, None)) && ok == told
    {
      if !spec.rollbackEnabled || spec.prePatch.Missing? || !spec.knownPersonaKind || !f.personaFound {
        return false;
      }
      ok := ApplyPatchTo(spec.prePatch, Writer.Rollback, f);
    }

    /** transitionToFailedWithReason. */
    method TransitionToFailed(action: Status, reason: string, message: string, f: Faults)
      modifies this`stored, this`log
      ensures View() == Committed(old(View()), Effect(None, Saving(Fail(old(View()), action, reason, message), f)))
    {
      var failed := action.(phase := Failed);
      var conditions := SetCondition(failed.conditions, Condition(APPLIED, False, reason, message, Stamp(clock)));
      UpdateStatus(failed.(conditions := conditions), f);
    }

    method HandleApprovedAction(f: Faults)
      requires stored.phase.Approved?
      modifies this`stored, this`persona, this`log
      ensures View() == Committed(old(View()), HandleApproved(spec, old(View()), f))
    {
      var action := stored;
      if !spec.hasAutoApplicableChange {
        var conditions := SetCondition(
          action.conditions, Condition(APPLIED, False, "AdvisoryOnly", "approval recorded", Stamp(clock)));
        UpdateStatus(action.(phase := Acknowledged, conditions := conditions), f);
        return;
      }
      var result := Apply(f);
      match result {
        case PreconditionRefused => TransitionToFailed(action, PRECONDITION_REJECTED, "nothing was applied", f);
        case Error => TransitionToFailed(action, "Failed", "apply failed", f);
        case Success =>
          action := action.(phase := Applying, appliedAt := Some(Stamp(clock)));
          var conditions := SetCondition(
            action.conditions, Condition(APPLIED, True, "PatchApplied", "patch applied", Stamp(clock)));
          UpdateStatus(action.(conditions := conditions), f);
      }
    }

    method HandleApplyingAction(f: Faults)
      requires stored.phase.Applying?
      modifies this`stored, this`log
      ensures View() == Committed(old(View()), HandleApplying(spec, old(View()), f))
    {
      var action := stored;
      if action.appliedAt.None? {
        TransitionToFailed(action, "Failed", "AppliedAt is nil", f);
        return;
      }
      var elapsed := clock - action.appliedAt.value;
      if elapsed < Delay(spec) {
        return;
      }
      UpdateStatus(action.(phase := Verifying), f);
    }

    method HandleDegradedAction(action: Status, f: Faults)
      requires stored.phase.Verifying?
      modifies this`stored, this`persona, this`log
      ensures View() == Committed(old(View()), HandleDegraded(spec, old(View()), action, f))
    {
      var ok := Execute(f);
      if !ok {
        TransitionToFailed(action, "Failed", "rollback failed", f);
        return;
      }
      var told := action.(phase := RolledBack);
      var conditions := SetCondition(
        told.conditions, Condition(ROLLED_BACK, True, "HealthDegraded", "rolled back", Stamp(clock)));
      conditions := SetCondition(
        conditions, Condition(DIVERGED, f.diverged, "Inspected", "scope of the rollback", Stamp(clock)));
      UpdateStatus(told.(conditions := conditions), f);
    }

    method HandleUnknownAction(action: Status, f: Faults)
      requires stored.phase.Verifying?
      modifies this`stored, this`log
      ensures View() == Committed(old(View()), HandleUnknown(old(View()), action, false, f))
    {
      var retryCount := GetRetryCount(action.conditions);
      if retryCount >= MAX_UNKNOWN_RETRIES {
        TransitionToFailed(action, "Failed", "Unknown after max retries", f);
        return;
      }
      var message := RetryMessage(retryCount + 1, MAX_UNKNOWN_RETRIES);
      var c := Condition(VERIFIED, False, VERIFICATION_UNKNOWN, message, Stamp(clock));
      var conditions := SetCondition(action.conditions, c);
      UpdateStatus(action.(conditions := conditions), f);
    }

    method HandleVerifyingAction(verdict: Verdict, f: Faults)
      requires stored.phase.Verifying?
      modifies this`stored, this`persona, this`log
      ensures View() == Committed(old(View()), HandleVerifying(spec, old(View()), verdict, false, f))
    {
      var action := stored.(verification := Some(verdict));
      match verdict {
        case Healthy =>
          var conditions := SetCondition(
            action.conditions, Condition(VERIFIED, True, "HealthRestored", "health restored", Stamp(clock)));
          UpdateStatus(action.(phase := Completed, conditions := conditions), f);
        case Degraded => HandleDegradedAction(action, f);
        case Inconclusive => HandleUnknownAction(action, f);
        case Unexpected => TransitionToFailed(action, "Failed", "unexpected verification result", f);
      }
    }

    /** recordRejection. */
    method RecordRejectionOnce(f: Faults)
      requires stored.phase.Rejected?
      modifies this`stored, this`log
      ensures View() == Committed(old(View()), RecordRejection(old(View()), f))
    {
      if HasCondition(stored.conditions, REJECTED) {
        return;
      }
      var conditions := SetCondition(
        stored.conditions, Condition(REJECTED, True, "UserRejected", "declined by a human", Stamp(clock)));
      UpdateStatus(stored.(conditions := conditions), f);
    }

    /** Reconcile: one step of the transition system. */
    method ReconcileAction(f: Faults, verdict: Verdict)
      modifies this`stored, this`persona, this`log
      ensures View() == Next(spec, old(View()), Reconcile(f, verdict), false)
    {
      match stored.phase {
        case Approved => HandleApprovedAction(f);
        case Applying => HandleApplyingAction(f);
        case Verifying => HandleVerifyingAction(verdict, f);
        case Rejected => RecordRejectionOnce(f);
        case _ =>
      }
    }
  }
}
