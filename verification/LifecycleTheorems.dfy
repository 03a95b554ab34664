/** Safety of the lifecycle over every run, lost writes included. */
module LifecycleTheorems {
  import opened Json
  import opened Conditions
  import opened Lifecycle

  // ---------------------------------------------------------------------------
  // The transitions the handlers can make
  // ---------------------------------------------------------------------------

  predicate AppliedReasonIs(conditions: seq<Condition>, reason: string)
  {
    HasCondition(conditions, APPLIED) && conditions[IndexOf(conditions, APPLIED)].reason == reason
  }

  /** Every effect of a reconcile, by phase. */
  predicate Legal(s: Spec, w: World, x: Effect)
  {
    match w.status.phase
    case Approved =>
      && (x.wrote.Some? ==> s.hasAutoApplicableChange && PreconditionsHold(s) && x.wrote.value.who.Apply? &&
                            Patched(w.persona, s.patch) == Some(x.wrote.value.persona))
      && (x.saved.Some? ==>
            var to := x.saved.value;
            && (to.phase.Applying? || to.phase.Acknowledged? || to.phase.Failed?)
            && (to.phase.Applying? ==> x.wrote.Some? && to.appliedAt == Some(Stamp(w.clock)))
            && (to.phase.Acknowledged? <==> !s.hasAutoApplicableChange)
            && (to.phase.Failed? && AppliedReasonIs(to.conditions, PRECONDITION_REJECTED) ==> !PreconditionsHold(s)))
    case Applying =>
      && x.wrote.None?
      && (x.saved.Some? ==>
            var to := x.saved.value;
            && (to.phase.Verifying? || to.phase.Failed?) && to.appliedAt == w.status.appliedAt
            && (to.phase.Verifying? ==> w.status.appliedAt.Some? && w.status.appliedAt.value + Delay(s) <= w.clock)
            && (to.phase.Verifying? ==> to.conditions == w.status.conditions)
            && (to.phase.Failed? ==> !AppliedReasonIs(to.conditions, PRECONDITION_REJECTED)))
    case Verifying =>
      && (x.wrote.Some? ==> x.wrote.value.who.Rollback? && s.rollbackEnabled &&
                            Patched(w.persona, s.prePatch) == Some(x.wrote.value.persona))
      && (x.saved.Some? ==>
            var to := x.saved.value;
            && (to.phase.Verifying? || to.phase.Completed? || to.phase.RolledBack? || to.phase.Failed?)
            && to.appliedAt == w.status.appliedAt
            && (to.phase.RolledBack? ==> x.wrote.Some?)
            && (to.phase.Completed? || to.phase.Verifying? ==> x.wrote.None?)
            && (to.phase.Failed? ==> !AppliedReasonIs(to.conditions, PRECONDITION_REJECTED)))
    case Rejected =>
      && x.wrote.None?
      && (x.saved.Some? ==> x.saved.value.phase.Rejected? && !HasCondition(w.status.conditions, REJECTED) &&
                            HasCondition(x.saved.value.conditions, REJECTED))
    case _ => x == NOTHING
  }

  lemma FailReads(w: World, status: Status, reason: string, message: string)
    ensures AppliedReasonIs(Fail(w, status, reason, message).conditions, reason)
  {
    SetConditionReads(status.conditions, Condition(APPLIED, False, reason, message, Stamp(w.clock)), false);
  }

  lemma DifferentReasons(conditions: seq<Condition>, reason: string)
    requires AppliedReasonIs(conditions, reason) && reason == "Failed"
    ensures !AppliedReasonIs(conditions, PRECONDITION_REJECTED)
  {
  }

  lemma ApprovedIsLegal(s: Spec, w: World, f: Faults)
    requires w.status.phase.Approved?
    ensures Legal(s, w, HandleApproved(s, w, f))
  {
    FailReads(w, w.status, PRECONDITION_REJECTED, "nothing was applied");
    FailReads(w, w.status, "Failed", "apply failed");
    DifferentReasons(Fail(w, w.status, "Failed", "apply failed").conditions, "Failed");
  }

  lemma ApplyingIsLegal(s: Spec, w: World, f: Faults)
    requires w.status.phase.Applying?
    ensures Legal(s, w, HandleApplying(s, w, f))
  {
    FailReads(w, w.status, "Failed", "AppliedAt is nil");
    DifferentReasons(Fail(w, w.status, "Failed", "AppliedAt is nil").conditions, "Failed");
  }

  lemma FailedIsNoRefusal(w: World, status: Status, message: string)
    ensures !AppliedReasonIs(Fail(w, status, "Failed", message).conditions, PRECONDITION_REJECTED)
  {
    FailReads(w, status, "Failed", message);
    DifferentReasons(Fail(w, status, "Failed", message).conditions, "Failed");
  }

  lemma VerifyingIsLegal(s: Spec, w: World, verdict: Verdict, refresh: bool, f: Faults)
    requires w.status.phase.Verifying?
    ensures Legal(s, w, HandleVerifying(s, w, verdict, refresh, f))
  {
    var status := w.status.(verification := Some(verdict));
    match verdict {
      case Healthy =>
      case Degraded => FailedIsNoRefusal(w, status, "rollback failed");
      case Inconclusive => FailedIsNoRefusal(w, status, "Unknown after max retries");
      case Unexpected => FailedIsNoRefusal(w, status, "unexpected verification result");
    }
  }

  lemma DispatchIsLegal(s: Spec, w: World, f: Faults, verdict: Verdict, refresh: bool)
    ensures Legal(s, w, Dispatch(s, w, f, verdict, refresh))
  {
    match w.status.phase {
      case Approved => ApprovedIsLegal(s, w, f);
      case Applying => ApplyingIsLegal(s, w, f);
      case Verifying => VerifyingIsLegal(s, w, verdict, refresh, f);
      case Rejected =>
        SetConditionReads(w.status.conditions,
          Condition(REJECTED, True, "UserRejected", "declined by a human", Stamp(w.clock)), false);
      case _ =>
    }
  }

  // ---------------------------------------------------------------------------
  // The history
  // ---------------------------------------------------------------------------

  predicate OwnWrite(e: Entry)
  {
    e.Wrote? && !e.who.Outsider?
  }

  ghost predicate HasOwnWrite(log: seq<Entry>)
  {
    exists e | e in log :: OwnWrite(e)
  }

  ghost predicate ApprovedIn(log: seq<Entry>)
  {
    exists e | e in log :: e.Decided? && e.decision.Approve?
  }

  /** Each of the operator's persona writes comes after an approval. */
  ghost predicate WritesFollowApproval(log: seq<Entry>)
  {
    forall i | 0 <= i < |log| && OwnWrite(log[i]) :: ApprovedIn(log[..i])
  }

  predicate IsApply(e: Entry)
  {
    e.Wrote? && e.who.Apply?
  }

  predicate EntersVerifying(e: Entry)
  {
    e.Moved? && e.phase.Verifying?
  }

  /** Every entry into Verifying comes at least the delay after the stamp of
      every patch application. */
  ghost predicate VerifiesAfterDelay(s: Spec, log: seq<Entry>)
  {
    forall a, v | a in log && v in log && IsApply(a) && EntersVerifying(v) :: Stamp(a.at) + Delay(s) <= v.at
  }

  /** A step appends to the history and stores a status. */
  lemma CommittedLog(w: World, x: Effect, e: Entry)
    ensures w.log <= Committed(w, x).log
    ensures e in Committed(w, x).log ==>
      (e in w.log
      || (x.wrote.Some? && e == Wrote(x.wrote.value.who, w.clock))
      || (x.saved.Some? && e == Moved(x.saved.value.phase, w.clock) && x.saved.value.phase != w.status.phase))
  {
  }

  lemma AppendKeepsOrder(log: seq<Entry>, e: Entry)
    requires WritesFollowApproval(log) && (OwnWrite(e) ==> ApprovedIn(log))
    ensures WritesFollowApproval(log + [e])
  {
    var longer := log + [e];
    forall i | 0 <= i < |longer| && OwnWrite(longer[i]) ensures ApprovedIn(longer[..i]) {
      if i < |log| { assert longer[..i] == log[..i]; } else { assert longer[..i] == log; }
    }
  }

  // ---------------------------------------------------------------------------
  // The invariant
  // ---------------------------------------------------------------------------

  predicate Untried(p: Phase)
  {
    p.Unset? || p.Pending? || p.Rejected? || p.Expired?
  }

  predicate Underway(p: Phase)
  {
    p.Approved? || p.Applying? || p.Verifying?
  }

  ghost predicate ApprovalSound(w: World)
  {
    && WritesFollowApproval(w.log)
    && (Untried(w.status.phase) ==> !HasOwnWrite(w.log))
    && (Underway(w.status.phase) ==> ApprovedIn(w.log))
  }

  /** Nothing is written where the record says nothing was. */
  ghost predicate WriteSound(s: Spec, w: World)
  {
    && (HasOwnWrite(w.log) ==> s.hasAutoApplicableChange && PreconditionsHold(s))
    && (w.status.phase.Acknowledged? ==> !s.hasAutoApplicableChange)
    && (w.status.phase.Failed? && AppliedReasonIs(w.status.conditions, PRECONDITION_REJECTED) ==> !PreconditionsHold(s))
    && (w.status.phase.Applying? || w.status.phase.Verifying? ==> s.hasAutoApplicableChange && PreconditionsHold(s))
  }

  ghost predicate TimeSound(s: Spec, w: World)
  {
    && (forall e | e in w.log :: e.at <= w.clock)
    && VerifiesAfterDelay(s, w.log)
    && (w.status.phase.Applying? || w.status.phase.Verifying? ==>
          w.status.appliedAt.Some? && forall a | a in w.log && IsApply(a) :: Stamp(a.at) <= w.status.appliedAt.value)
    && (Untried(w.status.phase) || w.status.phase.Approved? ==> forall v | v in w.log :: !EntersVerifying(v))
    && (w.status.phase.Applying? ==> forall v | v in w.log :: !EntersVerifying(v))
  }

  lemma PhaseOrigins(s: Spec, w: World, x: Effect)
    requires Legal(s, w, x)
    ensures Underway(Committed(w, x).status.phase) ==> Underway(w.status.phase)
    ensures Untried(Committed(w, x).status.phase) ==> Untried(w.status.phase) && x.wrote.None?
    ensures x.wrote.Some? ==> Underway(w.status.phase)
  {
  }

  lemma ApprovalCommitted(s: Spec, w: World, x: Effect)
    requires ApprovalSound(w) && Legal(s, w, x)
    ensures ApprovalSound(Committed(w, x))
  {
    var next := Committed(w, x);
    PhaseOrigins(s, w, x);
    OrderCommitted(w, x);
    if Underway(next.status.phase) {
      var e :| e in w.log && e.Decided? && e.decision.Approve?;
      assert e in next.log;
    }
    if Untried(next.status.phase) {
      forall e | e in next.log ensures !OwnWrite(e) { CommittedLog(w, x, e); }
    }
  }

  lemma OrderCommitted(w: World, x: Effect)
    requires WritesFollowApproval(w.log) && (x.wrote.Some? ==> ApprovedIn(w.log))
    ensures WritesFollowApproval(Committed(w, x).log)
  {
    var mid := if x.wrote.Some? then w.log + [Wrote(x.wrote.value.who, w.clock)] else w.log;
    if x.wrote.Some? { AppendKeepsOrder(w.log, Wrote(x.wrote.value.who, w.clock)); }
    if Committed(w, x).log != mid { AppendKeepsOrder(mid, Moved(x.saved.value.phase, w.clock)); }
  }

  lemma WriteCommitted(s: Spec, w: World, x: Effect)
    requires WriteSound(s, w) && Legal(s, w, x)
    ensures WriteSound(s, Committed(w, x))
  {
  }

  lemma StampIsMonotone(a: nat, b: nat)
    requires a <= b
    ensures Stamp(a) <= Stamp(b) <= b
  {
  }

  lemma StampIsWhole(t: nat)
    ensures Stamp(t) == (t / SECOND) * SECOND
  {
  }

  lemma TimeCommitted(s: Spec, w: World, x: Effect)
    requires TimeSound(s, w) && Legal(s, w, x)
    ensures TimeSound(s, Committed(w, x))
  {
    var next := Committed(w, x);
    forall e | e in next.log ensures e.at <= next.clock { CommittedLog(w, x, e); }
    forall a, v | a in next.log && v in next.log && IsApply(a) && EntersVerifying(v)
      ensures Stamp(a.at) + Delay(s) <= v.at
    {
      CommittedLog(w, x, a);
      CommittedLog(w, x, v);
    }
    if next.status.phase.Applying? || next.status.phase.Verifying? {
      forall a | a in next.log && IsApply(a) ensures Stamp(a.at) <= next.status.appliedAt.value {
        CommittedLog(w, x, a);
        StampIsMonotone(a.at, w.clock);
      }
    }
    forall v | v in next.log && EntersVerifying(v)
      ensures !Untried(next.status.phase) && !next.status.phase.Approved? && !next.status.phase.Applying?
    {
      CommittedLog(w, x, v);
    }
  }

  ghost predicate Sound(s: Spec, w: World)
  {
    ApprovalSound(w) && WriteSound(s, w) && TimeSound(s, w)
  }

  lemma NextIsSound(s: Spec, w: World, e: Event, refresh: bool)
    requires Sound(s, w)
    ensures Sound(s, Next(s, w, e, refresh))
  {
    match e {
      case Reconcile(f, verdict) =>
        var x := Dispatch(s, w, f, verdict, refresh);
        DispatchIsLegal(s, w, f, verdict, refresh);
        ApprovalCommitted(s, w, x);
        WriteCommitted(s, w, x);
        TimeCommitted(s, w, x);
      case Human(d) =>
        if w.status.phase.Pending? { DecisionIsSound(s, w, d); }
      case Write(persona) => OutsiderIsSound(s, w, persona);
      case _ =>
    }
  }

  lemma DecisionIsSound(s: Spec, w: World, d: Decision)
    requires Sound(s, w) && w.status.phase.Pending?
    ensures Sound(s, Decide(w, d))
  {
    AppendKeepsOrder(w.log, Decided(d, w.clock));
    assert Decided(d, w.clock) in Decide(w, d).log;
    forall e | e in Decide(w, d).log ensures e in w.log || e == Decided(d, w.clock) {}
  }

  lemma OutsiderIsSound(s: Spec, w: World, persona: Fields)
    requires Sound(s, w)
    ensures Sound(s, w.(persona := persona, log := w.log + [Wrote(Outsider, w.clock)]))
  {
    var log := w.log + [Wrote(Outsider, w.clock)];
    AppendKeepsOrder(w.log, Wrote(Outsider, w.clock));
    forall e ensures e in log <==> e in w.log || e == Wrote(Outsider, w.clock) {}
    assert HasOwnWrite(log) <==> HasOwnWrite(w.log);
    if ApprovedIn(w.log) {
      var e :| e in w.log && e.Decided? && e.decision.Approve?;
      assert e in log;
    }
  }

  lemma {:induction false} RunIsSound(s: Spec, w: World, events: seq<Event>, refresh: bool)
    requires Initial(w)
    ensures Sound(s, Run(s, w, events, refresh))
    decreases |events|
  {
    if events != [] {
      RunIsSound(s, w, events[..|events| - 1], refresh);
      NextIsSound(s, Run(s, w, events[..|events| - 1], refresh), events[|events| - 1], refresh);
    }
  }

  // ---------------------------------------------------------------------------
  // Main results over whole runs
  // ---------------------------------------------------------------------------

  /** Every persona write of the operator comes after a human approval. */
  lemma NoWriteWithoutApproval(s: Spec, w: World, events: seq<Event>, refresh: bool)
    requires Initial(w)
    ensures WritesFollowApproval(Run(s, w, events, refresh).log)
  {
    RunIsSound(s, w, events, refresh);
  }

  /** An action that reads Acknowledged, Rejected, Expired or refused before
      apply never wrote the persona: not even in an attempt whose status was
      lost. */
  lemma UntouchedMeansUntouched(s: Spec, w: World, events: seq<Event>, refresh: bool)
    requires Initial(w)
    ensures var end := Run(s, w, events, refresh);
      (end.status.phase.Acknowledged? || end.status.phase.Rejected? || end.status.phase.Expired? ||
       (end.status.phase.Failed? && AppliedReasonIs(end.status.conditions, PRECONDITION_REJECTED)))
      ==> !HasOwnWrite(end.log)
  {
    RunIsSound(s, w, events, refresh);
  }

  /** Verification starts no earlier than the delay after the last application,
      up to the whole second the stamp drops. */
  lemma VerificationWaits(s: Spec, w: World, events: seq<Event>, refresh: bool)
    requires Initial(w)
    ensures var log := Run(s, w, events, refresh).log;
      forall a, v | a in log && v in log && IsApply(a) && EntersVerifying(v) :: v.at > a.at + Delay(s) - SECOND
    ensures VerifiesAfterDelay(s, Run(s, w, events, refresh).log)
  {
    RunIsSound(s, w, events, refresh);
    var log := Run(s, w, events, refresh).log;
    forall a, v | a in log && v in log && IsApply(a) && EntersVerifying(v) ensures v.at > a.at + Delay(s) - SECOND {
      assert Stamp(a.at) > a.at - SECOND;
    }
  }

  lemma RunSplits(s: Spec, w: World, events: seq<Event>, e: Event, refresh: bool)
    ensures Run(s, w, events + [e], refresh) == Next(s, Run(s, w, events, refresh), e, refresh)
  {
  }
}
