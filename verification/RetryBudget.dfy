/** The budget for inconclusive verifications: what it should do, and what the
    message that carries it makes of it. */
module RetryBudget {
  import opened Json
  import opened Conditions
  import opened Lifecycle

  /** No verification in the run concludes. */
  predicate NeverConcludes(events: seq<Event>)
  {
    forall e | e in events && e.Reconcile? :: e.verdict.Inconclusive?
  }

  /** The reconciles whose status write arrived. */
  function Reconciled(events: seq<Event>): nat
    decreases |events|
  {
    if events == [] then 0
    else Reconciled(events[..|events| - 1]) +
         (if events[|events| - 1].Reconcile? && events[|events| - 1].faults.statusStored then 1 else 0)
  }

  ghost predicate CanRetry(w: World)
  {
    w.status.phase.Verifying? && OnePerType(w.status.conditions)
  }

  function Count(w: World): nat
  {
    RetryCount(w.status.conditions)
  }

  predicate Marked(w: World)
  {
    var i := IndexOf(w.status.conditions, VERIFIED);
    && i < |w.status.conditions|
    && w.status.conditions[i].status == False && w.status.conditions[i].reason == VERIFICATION_UNKNOWN
  }

  lemma StepNeverConcludes(s: Spec, w: World, e: Event, refresh: bool)
    requires CanRetry(w) && (e.Reconcile? ==> e.verdict.Inconclusive?)
    ensures var next := Next(s, w, e, refresh);
      if !e.Reconcile? || !e.faults.statusStored then next.status == w.status
      else if Count(w) >= MAX_UNKNOWN_RETRIES then next.status.phase.Failed?
      else CanRetry(next) && Marked(next) && Count(next) == if refresh || !Marked(w) then Count(w) + 1 else Count(w)
  {
    if e.Reconcile? && e.faults.statusStored && Count(w) < MAX_UNKNOWN_RETRIES {
      RetryRecorded(w.status.conditions, RetryCount(w.status.conditions), Stamp(w.clock), refresh);
    }
  }

  lemma RetryRecorded(conditions: seq<Condition>, count: nat, at: int, refresh: bool)
    requires OnePerType(conditions) && count == RetryCount(conditions)
    ensures var c := Condition(VERIFIED, False, VERIFICATION_UNKNOWN, RetryMessage(count + 1, MAX_UNKNOWN_RETRIES), at);
      var out, i := WithCondition(conditions, c, refresh), IndexOf(conditions, VERIFIED);
      && OnePerType(out) && IndexOf(out, VERIFIED) == i < |out|
      && out[i].status == False && out[i].reason == VERIFICATION_UNKNOWN
      && RetryCount(out) ==
         if refresh || i == |conditions| ||
            conditions[i].status != False || conditions[i].reason != VERIFICATION_UNKNOWN
         then count + 1 else count
  {
    var c := Condition(VERIFIED, False, VERIFICATION_UNKNOWN, RetryMessage(count + 1, MAX_UNKNOWN_RETRIES), at);
    SetConditionReads(conditions, c, refresh);
    SettingKeepsOnePerType(conditions, c, refresh);
    CountAfterRetry(conditions, count + 1, MAX_UNKNOWN_RETRIES, at, refresh);
  }

  lemma {:induction false} UnmarkedCountsNothing(w: World)
    requires CanRetry(w) && IndexOf(w.status.conditions, VERIFIED) == |w.status.conditions|
    ensures Count(w) == 0
  {
    CountIsInVerified(w.status.conditions);
  }

  lemma FailedStaysFailed(s: Spec, w: World, e: Event, refresh: bool)
    requires w.status.phase.Failed?
    ensures Next(s, w, e, refresh).status == w.status
  {
  }

  /** The intent, with messages refreshed: after n stored reconciles from count
      c the count is n + c while that is within the budget, and the action has
      failed ever after. */
  lemma {:induction false} RefreshedBudgetEnds(s: Spec, w: World, events: seq<Event>)
    requires CanRetry(w) && NeverConcludes(events)
    ensures var end, n := Run(s, w, events, true), Reconciled(events) + Count(w);
      if n <= MAX_UNKNOWN_RETRIES || Reconciled(events) == 0 then CanRetry(end) && Count(end) == n
      else end.status.phase.Failed?
    decreases |events|
  {
    if events != [] {
      var init, last := events[..|events| - 1], events[|events| - 1];
      assert last in events && forall e | e in init :: e in events;
      RefreshedBudgetEnds(s, w, init);
      var mid := Run(s, w, init, true);
      if mid.status.phase.Failed? { FailedStaysFailed(s, mid, last, true); }
      else { StepNeverConcludes(s, mid, last, true); }
    }
  }

  /** The code as written: from an unspent budget the count reaches one and
      stands still, and the action stays in Verifying for as long as no
      verification concludes, however many reconciles are stored. */
  lemma {:induction false} WrittenBudgetNeverEnds(s: Spec, w: World, events: seq<Event>)
    requires CanRetry(w) && NeverConcludes(events) && IndexOf(w.status.conditions, VERIFIED) == |w.status.conditions|
    ensures var end := Run(s, w, events, false);
      && CanRetry(end)
      && Count(end) == (if Reconciled(events) == 0 then 0 else 1)
      && (Marked(end) <==> Reconciled(events) > 0)
    decreases |events|
  {
    UnmarkedCountsNothing(w);
    if events != [] {
      var init, last := events[..|events| - 1], events[|events| - 1];
      assert last in events && forall e | e in init :: e in events;
      WrittenBudgetNeverEnds(s, w, init);
      StepNeverConcludes(s, Run(s, w, init, false), last, false);
    }
  }

  /** So, as written, inconclusive verifications end in Failed exactly when the
      record holds the full count before the first of them is stored. */
  lemma {:induction false} WrittenBudgetEndsIff(s: Spec, w: World, events: seq<Event>)
    requires CanRetry(w) && (Marked(w) || Count(w) == 0) && NeverConcludes(events)
    ensures var end := Run(s, w, events, false);
      if Reconciled(events) > 0 && Count(w) >= MAX_UNKNOWN_RETRIES then end.status.phase.Failed?
      else CanRetry(end) && (Marked(end) || Count(end) == 0) && (Marked(w) ==> Marked(end) && Count(end) == Count(w))
           && (!Marked(w) ==> Count(end) <= 1)
    decreases |events|
  {
    if events != [] {
      var init, last := events[..|events| - 1], events[|events| - 1];
      assert last in events && forall e | e in init :: e in events;
      WrittenBudgetEndsIff(s, w, init);
      var mid := Run(s, w, init, false);
      if mid.status.phase.Failed? { FailedStaysFailed(s, mid, last, false); }
      else { StepNeverConcludes(s, mid, last, false); }
    }
  }

  // ---------------------------------------------------------------------------
  // Every run of the code as written
  // ---------------------------------------------------------------------------

  predicate Early(p: Phase)
  {
    p.Unset? || p.Pending? || p.Approved? || p.Applying?
  }

  /** No verdict is on record before the first verification, and while the
      action is verified at most one retry is. */
  ghost predicate Unspent(w: World)
  {
    && OnePerType(w.status.conditions)
    && (Early(w.status.phase) ==> !HasCondition(w.status.conditions, VERIFIED))
    && (w.status.phase.Verifying? && HasCondition(w.status.conditions, VERIFIED) ==> Marked(w) && Count(w) == 1)
  }

  lemma SetUnspent(
    conditions: seq<Condition>, ctype: string, cs: ConditionStatus, reason: string, message: string, at: nat)
    requires OnePerType(conditions)
    ensures OnePerType(Set(conditions, ctype, cs, reason, message, at))
    ensures ctype != VERIFIED ==>
      (HasCondition(Set(conditions, ctype, cs, reason, message, at), VERIFIED) <==> HasCondition(conditions, VERIFIED))
  {
    SettingKeepsOnePerType(conditions, Condition(ctype, cs, reason, message, Stamp(at)), false);
    if ctype != VERIFIED {
      SettingIsLocal(conditions, Condition(ctype, cs, reason, message, Stamp(at)), false, VERIFIED);
    }
  }

  lemma ApprovedUnspent(s: Spec, w: World, f: Faults)
    requires Unspent(w) && w.status.phase.Approved?
    ensures Unspent(Committed(w, HandleApproved(s, w, f)))
  {
    SetUnspent(w.status.conditions, APPLIED, False, "AdvisoryOnly", "approval recorded", w.clock);
    SetUnspent(w.status.conditions, APPLIED, False, PRECONDITION_REJECTED, "nothing was applied", w.clock);
    SetUnspent(w.status.conditions, APPLIED, False, "Failed", "apply failed", w.clock);
    SetUnspent(w.status.conditions, APPLIED, True, "PatchApplied", "patch applied", w.clock);
    assert |APPLIED| != |VERIFIED|;
  }

  lemma DegradedUnspent(s: Spec, w: World, status: Status, f: Faults)
    requires OnePerType(status.conditions) && w.status.phase.Verifying?
    requires Unspent(w) && status.conditions == w.status.conditions
    ensures Unspent(Committed(w, HandleDegraded(s, w, status, f)))
  {
    SetUnspent(status.conditions, APPLIED, False, "Failed", "rollback failed", w.clock);
    SetUnspent(status.conditions, ROLLED_BACK, True, "HealthDegraded", "rolled back", w.clock);
    var told := Set(status.conditions, ROLLED_BACK, True, "HealthDegraded", "rolled back", w.clock);
    SetUnspent(told, DIVERGED, f.diverged, "Inspected", "scope of the rollback", w.clock);
  }

  lemma InconclusiveUnspent(s: Spec, w: World, f: Faults)
    requires Unspent(w) && w.status.phase.Verifying?
    ensures Unspent(Committed(w, HandleVerifying(s, w, Inconclusive, false, f)))
  {
    if Count(w) >= MAX_UNKNOWN_RETRIES {
      SetUnspent(w.status.conditions, APPLIED, False, "Failed", "Unknown after max retries", w.clock);
    } else {
      CountIsInVerified(w.status.conditions);
      StepNeverConcludes(s, w, Reconcile(f, Inconclusive), false);
    }
  }

  lemma VerifyingUnspent(s: Spec, w: World, verdict: Verdict, f: Faults)
    requires Unspent(w) && w.status.phase.Verifying?
    ensures Unspent(Committed(w, HandleVerifying(s, w, verdict, false, f)))
  {
    match verdict {
      case Healthy => SetUnspent(w.status.conditions, VERIFIED, True, "HealthRestored", "health restored", w.clock);
      case Degraded => DegradedUnspent(s, w, w.status.(verification := Some(verdict)), f);
      case Inconclusive =>
        InconclusiveUnspent(s, w, f);
      case Unexpected =>
        SetUnspent(w.status.conditions, APPLIED, False, "Failed", "unexpected verification result", w.clock);
    }
  }

  lemma NextUnspent(s: Spec, w: World, e: Event)
    requires Unspent(w)
    ensures Unspent(Next(s, w, e, false))
  {
    if e.Reconcile? {
      match w.status.phase {
        case Approved => ApprovedUnspent(s, w, e.faults);
        case Applying => SetUnspent(w.status.conditions, APPLIED, False, "Failed", "AppliedAt is nil", w.clock);
        case Verifying => VerifyingUnspent(s, w, e.verdict, e.faults);
        case Rejected =>
          SetUnspent(w.status.conditions, REJECTED, True, "UserRejected", "declined by a human", w.clock);
        case _ =>
      }
    }
  }

  lemma {:induction false} RunUnspent(s: Spec, w: World, events: seq<Event>)
    requires Initial(w)
    ensures Unspent(Run(s, w, events, false))
    decreases |events|
  {
    if events != [] {
      RunUnspent(s, w, events[..|events| - 1]);
      NextUnspent(s, Run(s, w, events[..|events| - 1], false), events[|events| - 1]);
    }
  }

  /** Main result: as written, no run of any action ever spends the budget. Once
      an action is being verified, inconclusive results alone leave it in
      Verifying with a count of at most one, however many are stored. */
  lemma NoRunSpendsTheBudget(s: Spec, w: World, before: seq<Event>, events: seq<Event>)
    requires Initial(w) && Run(s, w, before, false).status.phase.Verifying? && NeverConcludes(events)
    ensures var end := Run(s, Run(s, w, before, false), events, false);
      end.status.phase.Verifying? && Count(end) <= 1
  {
    RunUnspent(s, w, before);
    var mid := Run(s, w, before, false);
    if !HasCondition(mid.status.conditions, VERIFIED) { UnmarkedCountsNothing(mid); }
    WrittenBudgetEndsIff(s, mid, events);
  }
}
