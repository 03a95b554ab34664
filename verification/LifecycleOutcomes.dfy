/** What each reconcile leaves on record, phase by phase, in the names and numbers an
    observer of the action sees. */
module LifecycleOutcomes {
  import opened Json
  import opened Conditions
  import opened Lifecycle
  import LifecycleContents

  /** The condition of a type, as an observer reads it. */
  predicate Reads(conditions: seq<Condition>, ctype: string, status: ConditionStatus, reason: string)
  {
    var i := IndexOf(conditions, ctype);
    i < |conditions| && conditions[i].status == status && conditions[i].reason == reason
  }

  lemma SetReads(
    conditions: seq<Condition>, ctype: string, status: ConditionStatus, reason: string, message: string, at: nat)
    ensures Reads(Set(conditions, ctype, status, reason, message, at), ctype, status, reason)
  {
    SetConditionReads(conditions, Condition(ctype, status, reason, message, Stamp(at)), false);
  }

  /** The status a reconcile stores. */
  function StatusAfter(s: Spec, w: World, f: Faults, verdict: Verdict): Status
  {
    Next(s, w, Reconcile(f, verdict), false).status
  }

  /** The merge of a payload would be stored and reported. */
  predicate Lands(p: Payload, f: Faults)
  {
    && p.Doc? && "spec" in p.fields && (p.fields["spec"].Obj? || p.fields["spec"].Null?)
    && f.personaFound && f.write.Stored?
  }

  lemma StoredStatus(s: Spec, w: World, f: Faults, verdict: Verdict, x: Effect)
    requires Dispatch(s, w, f, verdict, false) == x
    ensures StatusAfter(s, w, f, verdict) == if x.saved.Some? then x.saved.value else w.status
  {
  }

  /** An approved action: acknowledged as advisory, refused before anything is
      written, failed, or applied and stamped with the second it is. */
  lemma ApprovedOutcome(s: Spec, w: World, f: Faults, verdict: Verdict)
    requires w.status.phase.Approved? && f.statusStored
    ensures var after := StatusAfter(s, w, f, verdict);
      if !s.hasAutoApplicableChange then
        after.phase.Acknowledged? && Reads(after.conditions, "Applied", False, "AdvisoryOnly")
      else if !(s.isPersonaUpdate && s.patch.Doc? && !s.prePatch.Missing?) then
        after.phase.Failed? && Reads(after.conditions, "Applied", False, "PreconditionRejected")
      else if s.knownPersonaKind && !w.deleting && Lands(s.patch, f) then
        && after.phase.Applying? && Reads(after.conditions, "Applied", True, "PatchApplied")
        && after.appliedAt == Some(w.clock - w.clock % 1_000_000_000)
      else after.phase.Failed? && Reads(after.conditions, "Applied", False, "Failed")
  {
    StoredStatus(s, w, f, verdict, HandleApproved(s, w, f));
    if !s.hasAutoApplicableChange {
      SetReads(w.status.conditions, "Applied", False, "AdvisoryOnly", "approval recorded", w.clock);
    } else {
      ApplyingIs(s, w, f);
    }
  }

  lemma ApplyingIs(s: Spec, w: World, f: Faults)
    requires s.hasAutoApplicableChange && f.statusStored
    ensures HandleApproved(s, w, f).saved.Some?
    ensures var after := HandleApproved(s, w, f).saved.value;
      if !(s.isPersonaUpdate && s.patch.Doc? && !s.prePatch.Missing?) then
        after.phase.Failed? && Reads(after.conditions, "Applied", False, "PreconditionRejected")
      else if s.knownPersonaKind && !w.deleting && Lands(s.patch, f) then
        && after.phase.Applying? && Reads(after.conditions, "Applied", True, "PatchApplied")
        && after.appliedAt == Some(w.clock - w.clock % 1_000_000_000)
      else after.phase.Failed? && Reads(after.conditions, "Applied", False, "Failed")
  {
    SetReads(w.status.conditions, "Applied", False, "PreconditionRejected", "nothing was applied", w.clock);
    SetReads(w.status.conditions, "Applied", False, "Failed", "apply failed", w.clock);
    SetReads(w.status.conditions, "Applied", True, "PatchApplied", "patch applied", w.clock);
  }

  /** An applied action: failed if its stamp is missing, left alone until the wait is
      over, then verified. */
  lemma ApplyingOutcome(s: Spec, w: World, f: Faults, verdict: Verdict)
    requires w.status.phase.Applying? && f.statusStored
    ensures var after := StatusAfter(s, w, f, verdict);
      match w.status.appliedAt
      case None => after.phase.Failed? && Reads(after.conditions, "Applied", False, "Failed")
      case Some(at) =>
        after == if w.clock < at + (if s.healthCheckAfter.Some? then s.healthCheckAfter.value else 600_000_000_000)
                 then w.status else w.status.(phase := Verifying)
  {
    SetReads(w.status.conditions, "Applied", False, "Failed", "AppliedAt is nil", w.clock);
  }

  /** A verification: the verdict is stored; healthy completes, degraded rolls back or
      fails, inconclusive waits until two retries are on record, anything else fails. */
  lemma VerifyingOutcome(s: Spec, w: World, f: Faults, verdict: Verdict)
    requires w.status.phase.Verifying? && f.statusStored
    ensures var after := StatusAfter(s, w, f, verdict);
      && after.verification == Some(verdict) && after.appliedAt == w.status.appliedAt
      && match verdict
         case Healthy => after.phase.Completed? && Reads(after.conditions, "Verified", True, "HealthRestored")
         case Degraded =>
           if s.rollbackEnabled && s.knownPersonaKind && Lands(s.prePatch, f)
           then && after.phase.RolledBack? && Reads(after.conditions, "RolledBack", True, "HealthDegraded")
                && Reads(after.conditions, "WorkloadDiverged", f.diverged, "Inspected")
           else after.phase.Failed? && Reads(after.conditions, "Applied", False, "Failed")
         case Inconclusive =>
           if RetryCount(w.status.conditions) < 2
           then after.phase.Verifying? && Reads(after.conditions, "Verified", False, "VerificationUnknown")
           else after.phase.Failed? && Reads(after.conditions, "Applied", False, "Failed")
         case Unexpected => after.phase.Failed? && Reads(after.conditions, "Applied", False, "Failed")
  {
    match verdict
    case Healthy => SetReads(w.status.conditions, "Verified", True, "HealthRestored", "health restored", w.clock);
    case Degraded => DegradedOutcome(s, w, f);
    case Inconclusive => InconclusiveOutcome(s, w, f);
    case Unexpected =>
      SetReads(w.status.conditions, "Applied", False, "Failed", "unexpected verification result", w.clock);
  }

  lemma DegradedOutcome(s: Spec, w: World, f: Faults)
    requires w.status.phase.Verifying? && f.statusStored
    ensures var after := StatusAfter(s, w, f, Degraded);
      && after.verification == Some(Degraded) && after.appliedAt == w.status.appliedAt
      && if s.rollbackEnabled && s.knownPersonaKind && Lands(s.prePatch, f)
         then && after.phase.RolledBack? && Reads(after.conditions, "WorkloadDiverged", f.diverged, "Inspected")
              && Reads(after.conditions, "RolledBack", True, "HealthDegraded")
         else after.phase.Failed? && Reads(after.conditions, "Applied", False, "Failed")
  {
    var status := w.status.(verification := Some(Degraded));
    StoredStatus(s, w, f, Degraded, HandleDegraded(s, w, status, f));
    if s.rollbackEnabled && s.knownPersonaKind && Lands(s.prePatch, f) {
      RolledBackReads(w.status.conditions, f.diverged, w.clock);
    } else {
      SetReads(w.status.conditions, "Applied", False, "Failed", "rollback failed", w.clock);
    }
  }

  lemma RolledBackReads(conditions: seq<Condition>, diverged: ConditionStatus, at: nat)
    ensures var told := Set(conditions, "RolledBack", True, "HealthDegraded", "rolled back", at);
      var after := Set(told, "WorkloadDiverged", diverged, "Inspected", "scope of the rollback", at);
      Reads(after, "WorkloadDiverged", diverged, "Inspected") && Reads(after, "RolledBack", True, "HealthDegraded")
  {
    var told := Set(conditions, "RolledBack", True, "HealthDegraded", "rolled back", at);
    SetReads(conditions, "RolledBack", True, "HealthDegraded", "rolled back", at);
    SetReads(told, "WorkloadDiverged", diverged, "Inspected", "scope of the rollback", at);
    SettingIsLocal(told, Condition("WorkloadDiverged", diverged, "Inspected", "scope of the rollback", Stamp(at)),
                   false, "RolledBack");
  }

  lemma InconclusiveOutcome(s: Spec, w: World, f: Faults)
    requires w.status.phase.Verifying? && f.statusStored
    ensures var after := StatusAfter(s, w, f, Inconclusive);
      && after.verification == Some(Inconclusive) && after.appliedAt == w.status.appliedAt
      && if RetryCount(w.status.conditions) < 2
         then after.phase.Verifying? && Reads(after.conditions, "Verified", False, "VerificationUnknown")
         else after.phase.Failed? && Reads(after.conditions, "Applied", False, "Failed")
  {
    StoredStatus(s, w, f, Inconclusive, HandleUnknown(w, w.status.(verification := Some(Inconclusive)), false, f));
    if RetryCount(w.status.conditions) < 2 {
      var message := RetryMessage(RetryCount(w.status.conditions) + 1, MAX_UNKNOWN_RETRIES);
      SetConditionReads(w.status.conditions,
        Condition("Verified", False, "VerificationUnknown", message, Stamp(w.clock)), false);
    } else {
      SetReads(w.status.conditions, "Applied", False, "Failed", "Unknown after max retries", w.clock);
    }
  }

  /** A rejected action is stamped once; every other phase is left alone. */
  lemma SettledOutcome(s: Spec, w: World, f: Faults, verdict: Verdict)
    requires !w.status.phase.Approved? && !w.status.phase.Applying? && !w.status.phase.Verifying?
    ensures var after := StatusAfter(s, w, f, verdict);
      && after.phase == w.status.phase
      && (!w.status.phase.Rejected? || HasCondition(w.status.conditions, "Rejected") ==> after == w.status)
      && (w.status.phase.Rejected? && f.statusStored && !HasCondition(w.status.conditions, "Rejected") ==>
            Reads(after.conditions, "Rejected", True, "UserRejected"))
  {
    SetReads(w.status.conditions, "Rejected", True, "UserRejected", "declined by a human", w.clock);
  }
}
