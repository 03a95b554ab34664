/** What the persona holds in every phase, and that the terminal phases are
    final. */
module LifecycleContents {
  import opened Json
  import opened Merge
  import opened Undo
  import opened Conditions
  import opened Lifecycle
  import opened LifecycleTheorems

  // ---------------------------------------------------------------------------
  // Terminal phases
  // ---------------------------------------------------------------------------

  function Rank(p: Phase): nat
  {
    match p
    case Unset => 0
    case Pending => 1
    case Approved => 2
    case Applying => 3
    case Verifying => 4
    case _ => 5
  }

  /** The operator's persona writes in a history. */
  function OwnWrites(log: seq<Entry>): seq<Entry>
    decreases |log|
  {
    if log == [] then []
    else OwnWrites(log[..|log| - 1]) + if OwnWrite(log[|log| - 1]) then [log[|log| - 1]] else []
  }

  lemma OwnWritesAppend(log: seq<Entry>, e: Entry)
    ensures OwnWrites(log + [e]) == OwnWrites(log) + if OwnWrite(e) then [e] else []
  {
  }

  /** A terminal action is final: phase, application stamp and verdict stay, the
      operator writes the persona no more, and the only condition ever added is
      the stamp of a rejection that has none yet. */
  lemma TerminalStep(s: Spec, w: World, e: Event, refresh: bool)
    requires Terminal(w.status.phase)
    ensures var next := Next(s, w, e, refresh);
      && next.status.(conditions := w.status.conditions) == w.status
      && (!w.status.phase.Rejected? || HasCondition(w.status.conditions, REJECTED) ==> next.status == w.status)
      && (HasCondition(w.status.conditions, REJECTED) ==> HasCondition(next.status.conditions, REJECTED))
      && OwnWrites(next.log) == OwnWrites(w.log)
      && (!e.Write? ==> next.persona == w.persona)
  {
    match e {
      case Write(_) => OwnWritesAppend(w.log, Wrote(Outsider, w.clock));
      case Reconcile(f, _) =>
        if w.status.phase.Rejected? { RejectionStep(w, f); } else { SettledStep(s, w, e, refresh); }
      case _ =>
    }
  }

  lemma SettledStep(s: Spec, w: World, e: Event, refresh: bool)
    requires e.Reconcile? && Terminal(w.status.phase) && !w.status.phase.Rejected?
    ensures Next(s, w, e, refresh) == w
  {
  }

  lemma RejectionStep(w: World, f: Faults)
    requires w.status.phase.Rejected?
    ensures var next := Committed(w, RecordRejection(w, f));
      && next == w.(status := w.status.(conditions := next.status.conditions))
      && (HasCondition(w.status.conditions, REJECTED) ==> next == w)
  {
  }

  lemma {:induction false} TerminalIsFinal(s: Spec, w: World, events: seq<Event>, refresh: bool)
    requires Terminal(w.status.phase)
    ensures var end := Run(s, w, events, refresh);
      && end.status.(conditions := w.status.conditions) == w.status
      && (!w.status.phase.Rejected? || HasCondition(w.status.conditions, REJECTED) ==> end.status == w.status)
      && OwnWrites(end.log) == OwnWrites(w.log)
      && ((forall e | e in events :: !e.Write?) ==> end.persona == w.persona)
    decreases |events|
  {
    if events != [] {
      var init := events[..|events| - 1];
      TerminalIsFinal(s, w, init, refresh);
      TerminalStep(s, Run(s, w, init, refresh), events[|events| - 1], refresh);
      assert forall e | e in init :: e in events;
      assert events[|events| - 1] in events;
    }
  }

  /** Phases only move forward, so an action never becomes active again. */
  lemma {:induction false} PhasesMoveForward(s: Spec, w: World, events: seq<Event>, refresh: bool)
    ensures Rank(w.status.phase) <= Rank(Run(s, w, events, refresh).status.phase)
    decreases |events|
  {
    if events != [] {
      var init, last := events[..|events| - 1], events[|events| - 1];
      PhasesMoveForward(s, w, init, refresh);
      var mid := Run(s, w, init, refresh);
      if last.Reconcile? {
        DispatchIsLegal(s, mid, last.faults, last.verdict, refresh);
      }
    }
  }

  // ---------------------------------------------------------------------------
  // Who wrote last
  // ---------------------------------------------------------------------------

  /** The last writer of the persona. */
  function LastWriter(log: seq<Entry>): Option<Writer>
    decreases |log|
  {
    if log == [] then None
    else if log[|log| - 1].Wrote? then Some(log[|log| - 1].who)
    else LastWriter(log[..|log| - 1])
  }

  lemma LastWriterAppend(log: seq<Entry>, e: Entry)
    ensures LastWriter(log + [e]) == if e.Wrote? then Some(e.who) else LastWriter(log)
  {
  }

  lemma CommittedWriter(w: World, x: Effect)
    ensures LastWriter(Committed(w, x).log) == if x.wrote.Some? then Some(x.wrote.value.who) else LastWriter(w.log)
  {
    if x.wrote.Some? { LastWriterAppend(w.log, Wrote(x.wrote.value.who, w.clock)); }
    if x.saved.Some? && x.saved.value.phase != w.status.phase {
      LastWriterAppend(if x.wrote.Some? then w.log + [Wrote(x.wrote.value.who, w.clock)] else w.log,
                       Moved(x.saved.value.phase, w.clock));
    }
  }

  lemma NextWriter(s: Spec, w: World, e: Event, refresh: bool)
    ensures e.Write? ==> LastWriter(Next(s, w, e, refresh).log) == Some(Outsider)
    ensures e.Tick? || e.Human? || e.Delete? ==> LastWriter(Next(s, w, e, refresh).log) == LastWriter(w.log)
    ensures e.Reconcile? ==>
      var x := Dispatch(s, w, e.faults, e.verdict, refresh);
      LastWriter(Next(s, w, e, refresh).log) == if x.wrote.Some? then Some(x.wrote.value.who) else LastWriter(w.log)
  {
    match e {
      case Write(_) => LastWriterAppend(w.log, Wrote(Outsider, w.clock));
      case Human(d) => LastWriterAppend(w.log, Decided(d, w.clock));
      case Reconcile(f, verdict) => CommittedWriter(w, Dispatch(s, w, f, verdict, refresh));
      case _ =>
    }
  }

  // ---------------------------------------------------------------------------
  // Rolled back
  // ---------------------------------------------------------------------------

  /** The part of a payload the executor merges. */
  function SpecValue(p: Payload): Fields
  {
    if p.Doc? then SubObject(p.fields, "spec") else map[]
  }

  lemma PatchedIs(persona: Fields, p: Payload)
    ensures Patched(persona, p).Some? ==> Patched(persona, p).value == Merged(persona, SpecValue(p))
  {
  }

  /** The persona holds every value of the snapshot. */
  ghost predicate HoldsSnapshot(s: Spec, persona: Fields)
  {
    var snapshot := SpecValue(s.prePatch);
    forall p | LeafAt(snapshot, p).Some? && LeafAt(snapshot, p) != Some(Null) ::
      LeafAt(persona, p) == LeafAt(snapshot, p)
  }

  lemma RollbackHolds(s: Spec, persona: Fields)
    requires Patched(persona, s.prePatch).Some?
    ensures HoldsSnapshot(s, Patched(persona, s.prePatch).value)
  {
    var snapshot := SpecValue(s.prePatch);
    PatchedIs(persona, s.prePatch);
    forall p | LeafAt(snapshot, p).Some? && LeafAt(snapshot, p) != Some(Null)
      ensures LeafAt(Merged(persona, snapshot), p) == LeafAt(snapshot, p)
    {
      OverlayLeavesWin(persona, snapshot, p);
    }
  }

  ghost predicate RollbackSound(s: Spec, w: World)
  {
    && (LastWriter(w.log) == Some(Rollback) ==> HoldsSnapshot(s, w.persona))
    && (w.status.phase.RolledBack? ==> LastWriter(w.log) == Some(Rollback) || LastWriter(w.log) == Some(Outsider))
  }

  lemma {:induction false} RunRollsBack(s: Spec, w: World, events: seq<Event>, refresh: bool)
    requires Initial(w)
    ensures RollbackSound(s, Run(s, w, events, refresh))
    decreases |events|
  {
    if events != [] {
      var init, last := events[..|events| - 1], events[|events| - 1];
      RunRollsBack(s, w, init, refresh);
      NextRollsBack(s, Run(s, w, init, refresh), last, refresh);
    }
  }

  lemma NextRollsBack(s: Spec, w: World, e: Event, refresh: bool)
    requires RollbackSound(s, w)
    ensures RollbackSound(s, Next(s, w, e, refresh))
  {
    NextWriter(s, w, e, refresh);
    if e.Reconcile? {
      var x := Dispatch(s, w, e.faults, e.verdict, refresh);
      DispatchIsLegal(s, w, e.faults, e.verdict, refresh);
      if x.wrote.Some? && x.wrote.value.who.Rollback? { RollbackHolds(s, w.persona); }
    }
  }

  /** Main result: a rolled-back action means the persona holds the snapshot,
      unless somebody else wrote it after the rollback. */
  lemma RolledBackHoldsSnapshot(s: Spec, w: World, events: seq<Event>, refresh: bool)
    requires Initial(w) && Run(s, w, events, refresh).status.phase.RolledBack?
    requires LastWriter(Run(s, w, events, refresh).log) != Some(Outsider)
    ensures HoldsSnapshot(s, Run(s, w, events, refresh).persona)
  {
    RunRollsBack(s, w, events, refresh);
  }

  // ---------------------------------------------------------------------------
  // Restored, with no other writer
  // ---------------------------------------------------------------------------

  /** The stored rollback state undoes the stored patch on a persona. */
  ghost predicate UndoneBy(s: Spec, persona: Fields)
  {
    NullFree(persona) && Undoes(SpecValue(s.patch), persona, SpecValue(s.prePatch))
  }

  ghost predicate Alone(events: seq<Event>)
  {
    forall e | e in events :: !e.Write?
  }

  /** However often the patch and the rollback were written, the original can be
      recovered; and it is recovered where the rollback came last. */
  ghost predicate RecoverySound(s: Spec, origin: Fields, w: World)
  {
    && Recoverable(w.persona, origin, SpecValue(s.prePatch))
    && FromThese(w.persona, SpecValue(s.patch), origin, SpecValue(s.prePatch))
    && (LastWriter(w.log) == Some(Rollback) ==> Restored(w.persona, SpecValue(s.patch), origin))
    && LastWriter(w.log) != Some(Outsider)
    && (w.status.phase.RolledBack? ==> LastWriter(w.log) == Some(Rollback))
  }

  lemma ApplyRecovers(s: Spec, origin: Fields, w: World)
    requires UndoneBy(s, origin) && RecoverySound(s, origin, w) && Patched(w.persona, s.patch).Some?
    ensures Recoverable(Patched(w.persona, s.patch).value, origin, SpecValue(s.prePatch))
    ensures FromThese(Patched(w.persona, s.patch).value, SpecValue(s.patch), origin, SpecValue(s.prePatch))
  {
    PatchedIs(w.persona, s.patch);
    ApplyKeepsRecoverable(w.persona, origin, SpecValue(s.patch), SpecValue(s.prePatch));
    MergeKeepsSources(w.persona, SpecValue(s.patch), SpecValue(s.patch), origin, SpecValue(s.prePatch));
  }

  lemma RollbackRecoversAll(s: Spec, origin: Fields, w: World)
    requires UndoneBy(s, origin) && RecoverySound(s, origin, w) && Patched(w.persona, s.prePatch).Some?
    ensures Recoverable(Patched(w.persona, s.prePatch).value, origin, SpecValue(s.prePatch))
    ensures FromThese(Patched(w.persona, s.prePatch).value, SpecValue(s.patch), origin, SpecValue(s.prePatch))
    ensures Restored(Patched(w.persona, s.prePatch).value, SpecValue(s.patch), origin)
  {
    PatchedIs(w.persona, s.prePatch);
    RollbackKeepsRecoverable(w.persona, origin, SpecValue(s.prePatch));
    MergeKeepsSources(w.persona, SpecValue(s.prePatch), SpecValue(s.patch), origin, SpecValue(s.prePatch));
    RollbackRestoresAll(w.persona, SpecValue(s.patch), origin, SpecValue(s.prePatch));
  }

  lemma NextRecovers(s: Spec, origin: Fields, w: World, e: Event, refresh: bool)
    requires UndoneBy(s, origin) && RecoverySound(s, origin, w) && !e.Write?
    ensures RecoverySound(s, origin, Next(s, w, e, refresh))
  {
    NextWriter(s, w, e, refresh);
    if e.Reconcile? {
      DispatchIsLegal(s, w, e.faults, e.verdict, refresh);
      CommittedRecovers(s, origin, w, Dispatch(s, w, e.faults, e.verdict, refresh));
    }
  }

  lemma CommittedRecovers(s: Spec, origin: Fields, w: World, x: Effect)
    requires UndoneBy(s, origin) && RecoverySound(s, origin, w) && Legal(s, w, x)
    ensures RecoverySound(s, origin, Committed(w, x))
  {
    CommittedWriter(w, x);
    if x.wrote.Some? {
      if x.wrote.value.who.Apply? { ApplyRecovers(s, origin, w); } else { RollbackRecoversAll(s, origin, w); }
    }
  }

  lemma {:induction false} RunRecovers(s: Spec, w: World, events: seq<Event>, refresh: bool)
    requires Initial(w) && Alone(events) && UndoneBy(s, w.persona)
    ensures RecoverySound(s, w.persona, Run(s, w, events, refresh))
    decreases |events|
  {
    if events == [] {
      OriginIsRecoverable(w.persona, SpecValue(s.prePatch));
    } else {
      var init, last := events[..|events| - 1], events[|events| - 1];
      assert last in events && forall e | e in init :: e in events;
      RunRecovers(s, w, init, refresh);
      NextRecovers(s, w.persona, Run(s, w, init, refresh), last, refresh);
    }
  }

  /** Main result: with no other writer, whatever writes of the patch, of the
      rollback and of the status were lost or repeated, a rolled-back action leaves
      every value the persona had, and beyond them only what the patch
      introduced. */
  lemma RolledBackIsRestored(s: Spec, w: World, events: seq<Event>, refresh: bool)
    requires Initial(w) && Alone(events) && UndoneBy(s, w.persona)
    requires Run(s, w, events, refresh).status.phase.RolledBack?
    ensures Restored(Run(s, w, events, refresh).persona, SpecValue(s.patch), w.persona)
  {
    RunRecovers(s, w, events, refresh);
  }

  // ---------------------------------------------------------------------------
  // Contents, with no other writer
  // ---------------------------------------------------------------------------

  function After(s: Spec, persona: Fields): Fields
  {
    Merged(persona, SpecValue(s.patch))
  }

  function Back(s: Spec, persona: Fields): Fields
  {
    Merged(After(s, persona), SpecValue(s.prePatch))
  }

  /** Applying twice is applying once, and so is rolling back. */
  ghost predicate Repeatable(s: Spec, origin: Fields)
  {
    CleanLanding(origin, SpecValue(s.patch)) && NullFree(SpecValue(s.prePatch))
  }

  /** The persona is the original, the patched or the rolled-back one, as the
      last write says. */
  ghost predicate ContentsSound(s: Spec, origin: Fields, w: World)
  {
    && (match LastWriter(w.log)
        case None => w.persona == origin
        case Some(Apply) => w.persona == After(s, origin)
        case Some(Rollback) => w.persona == Back(s, origin)
        case Some(Outsider) => false)
    && (Untried(w.status.phase) ==> LastWriter(w.log) == None)
    && (w.status.phase.Approved? ==> LastWriter(w.log) != Some(Rollback))
    && (w.status.phase.Applying? ==> LastWriter(w.log) == Some(Apply))
    && (w.status.phase.Verifying? || w.status.phase.Completed? ==> LastWriter(w.log) != None)
  }

  lemma NextContents(s: Spec, origin: Fields, w: World, e: Event, refresh: bool)
    requires Repeatable(s, origin) && ContentsSound(s, origin, w) && !e.Write?
    ensures ContentsSound(s, origin, Next(s, w, e, refresh))
  {
    NextWriter(s, w, e, refresh);
    if e.Reconcile? {
      DispatchIsLegal(s, w, e.faults, e.verdict, refresh);
      CommittedContents(s, origin, w, Dispatch(s, w, e.faults, e.verdict, refresh));
    }
  }

  lemma CommittedContents(s: Spec, origin: Fields, w: World, x: Effect)
    requires Repeatable(s, origin) && ContentsSound(s, origin, w) && Legal(s, w, x)
    ensures ContentsSound(s, origin, Committed(w, x))
  {
    CommittedWriter(w, x);
    ReapplyIsIdempotent(origin, SpecValue(s.patch));
    RollbackTwice(s, origin);
    if x.wrote.Some? { WrittenContents(s, w, x); }
  }

  lemma WrittenContents(s: Spec, w: World, x: Effect)
    requires Legal(s, w, x) && x.wrote.Some?
    ensures x.wrote.value.who.Apply? ==> x.wrote.value.persona == Merged(w.persona, SpecValue(s.patch))
    ensures x.wrote.value.who.Rollback? ==> x.wrote.value.persona == Merged(w.persona, SpecValue(s.prePatch))
  {
    PatchedIs(w.persona, s.patch);
    PatchedIs(w.persona, s.prePatch);
  }

  lemma RollbackTwice(s: Spec, origin: Fields)
    requires Repeatable(s, origin)
    ensures Merged(Back(s, origin), SpecValue(s.prePatch)) == Back(s, origin)
  {
    NullFreeLandsCleanly(After(s, origin), SpecValue(s.prePatch));
    ReapplyIsIdempotent(After(s, origin), SpecValue(s.prePatch));
  }

  lemma {:induction false} RunContents(s: Spec, w: World, events: seq<Event>, refresh: bool)
    requires Initial(w) && Alone(events) && Repeatable(s, w.persona)
    ensures ContentsSound(s, w.persona, Run(s, w, events, refresh))
    decreases |events|
  {
    if events != [] {
      var init, last := events[..|events| - 1], events[|events| - 1];
      assert last in events && forall e | e in init :: e in events;
      RunContents(s, w, init, refresh);
      NextContents(s, w.persona, Run(s, w, init, refresh), last, refresh);
    }
  }

  /** With a snapshot taken of the original itself, what is left beyond it is
      exactly what the patch introduced, and nothing if it introduced nothing. */
  lemma RolledBackToTheOrigin(s: Spec, w: World, events: seq<Event>, refresh: bool)
    requires Initial(w) && Alone(events) && UndoneBy(s, w.persona) && Repeatable(s, w.persona)
    requires SpecValue(s.prePatch) == Mirrored(SpecValue(s.patch), w.persona)
    requires Run(s, w, events, refresh).status.phase.RolledBack?
    ensures var end, introduced := Run(s, w, events, refresh).persona, Introduced(w.persona, SpecValue(s.patch));
      end == Merged(w.persona, introduced) && (end == w.persona <==> introduced == map[])
  {
    RunContents(s, w, events, refresh);
    RunRecovers(s, w, events, refresh);
    RollbackRestores(w.persona, SpecValue(s.patch));
    RollbackIsExact(w.persona, SpecValue(s.patch));
  }

  // ---------------------------------------------------------------------------
  // Lost rollbacks
  // ---------------------------------------------------------------------------

  /** A rollback would reach the store. */
  predicate RollbackReaches(s: Spec, f: Faults)
  {
    s.rollbackEnabled && s.knownPersonaKind && f.personaFound && !f.write.Refused? &&
    s.prePatch.Doc? && "spec" in s.prePatch.fields &&
    (s.prePatch.fields["spec"].Obj? || s.prePatch.fields["spec"].Null?)
  }

  /** A degraded verdict whose rollback takes effect and whose status is lost. */
  predicate LosesRollback(s: Spec, w: World, e: Event)
  {
    && w.status.phase.Verifying? && e.Reconcile? && e.verdict.Degraded?
    && RollbackReaches(s, e.faults) && !e.faults.statusStored
  }

  /** It happens somewhere in the run. */
  predicate SomeRollbackLost(s: Spec, w: World, events: seq<Event>, refresh: bool)
    decreases |events|
  {
    events != [] &&
    (SomeRollbackLost(s, w, events[..|events| - 1], refresh) ||
     LosesRollback(s, Run(s, w, events[..|events| - 1], refresh), events[|events| - 1]))
  }

  lemma VerifyingWrites(s: Spec, w: World, verdict: Verdict, refresh: bool, f: Faults)
    requires w.status.phase.Verifying?
    ensures var x := HandleVerifying(s, w, verdict, refresh, f);
      && (x.wrote.Some? <==> verdict.Degraded? && RollbackReaches(s, f))
      && (x.saved.Some? <==> f.statusStored)
      && (x.saved.Some? && x.saved.value.phase.Completed? ==> verdict.Healthy?)
      && (x.saved.Some? && x.saved.value.phase.Verifying? ==> verdict.Inconclusive?)
  {
  }

  /** While verified or completed, the rollback wrote last exactly when one was
      lost. */
  ghost predicate LossSound(w: World, lost: bool)
  {
    && (w.status.phase.Verifying? || w.status.phase.Completed? ==> (LastWriter(w.log) == Some(Rollback) <==> lost))
    && (Rank(w.status.phase) < Rank(Verifying) ==> !lost && LastWriter(w.log) != Some(Rollback))
  }

  lemma NextLoses(s: Spec, w: World, e: Event, refresh: bool, lost: bool)
    requires LossSound(w, lost) && !e.Write?
    ensures LossSound(Next(s, w, e, refresh), lost || LosesRollback(s, w, e))
  {
    NextWriter(s, w, e, refresh);
    if e.Reconcile? {
      DispatchIsLegal(s, w, e.faults, e.verdict, refresh);
      if w.status.phase.Verifying? { VerifyingWrites(s, w, e.verdict, refresh, e.faults); }
    }
  }

  lemma {:induction false} RunLoses(s: Spec, w: World, events: seq<Event>, refresh: bool)
    requires Initial(w) && Alone(events)
    ensures LossSound(Run(s, w, events, refresh), SomeRollbackLost(s, w, events, refresh))
    decreases |events|
  {
    if events != [] {
      var init, last := events[..|events| - 1], events[|events| - 1];
      assert last in events && forall e | e in init :: e in events;
      RunLoses(s, w, init, refresh);
      NextLoses(s, Run(s, w, init, refresh), last, refresh, SomeRollbackLost(s, w, init, refresh));
    }
  }

  /** Main result: with no other writer, a completed action has the patch in place
      exactly once, unless in its run a rollback took effect and its status was
      lost; then the persona is the rolled-back one. */
  lemma CompletedIsInPlace(s: Spec, w: World, events: seq<Event>, refresh: bool)
    requires Initial(w) && Alone(events) && Repeatable(s, w.persona)
    requires Run(s, w, events, refresh).status.phase.Completed?
    ensures Run(s, w, events, refresh).persona ==
            if SomeRollbackLost(s, w, events, refresh) then Back(s, w.persona) else After(s, w.persona)
  {
    RunContents(s, w, events, refresh);
    RunLoses(s, w, events, refresh);
  }

  /** A rollback whose status arrived is never lost, so neither is the patch of a
      completed action if every degraded verdict's status arrived. */
  lemma {:induction false} ToldRollbacksAreNotLost(s: Spec, w: World, events: seq<Event>, refresh: bool)
    requires forall e | e in events && e.Reconcile? && e.verdict.Degraded? :: e.faults.statusStored
    ensures !SomeRollbackLost(s, w, events, refresh)
    decreases |events|
  {
    if events != [] {
      assert events[|events| - 1] in events && forall e | e in events[..|events| - 1] :: e in events;
      ToldRollbacksAreNotLost(s, w, events[..|events| - 1], refresh);
    }
  }

  /** The persona holds every value the patch sets. */
  ghost predicate HoldsPatch(s: Spec, persona: Fields)
  {
    forall p | LeafAt(SpecValue(s.patch), p).Some? && LeafAt(SpecValue(s.patch), p) != Some(Null) ::
      LeafAt(persona, p) == LeafAt(SpecValue(s.patch), p)
  }

  ghost predicate PatchSound(s: Spec, w: World)
  {
    && (LastWriter(w.log) == Some(Apply) ==> HoldsPatch(s, w.persona))
    && LastWriter(w.log) != Some(Outsider)
    && (Untried(w.status.phase) ==> LastWriter(w.log) == None)
    && (w.status.phase.Applying? ==> LastWriter(w.log) == Some(Apply))
    && (w.status.phase.Verifying? || w.status.phase.Completed? ==> LastWriter(w.log) != None)
  }

  lemma PatchHolds(s: Spec, persona: Fields)
    requires Patched(persona, s.patch).Some?
    ensures HoldsPatch(s, Patched(persona, s.patch).value)
  {
    PatchedIs(persona, s.patch);
    forall p | LeafAt(SpecValue(s.patch), p).Some? && LeafAt(SpecValue(s.patch), p) != Some(Null)
      ensures LeafAt(Merged(persona, SpecValue(s.patch)), p) == LeafAt(SpecValue(s.patch), p)
    {
      OverlayLeavesWin(persona, SpecValue(s.patch), p);
    }
  }

  lemma NextHoldsPatch(s: Spec, w: World, e: Event, refresh: bool)
    requires PatchSound(s, w) && !e.Write?
    ensures PatchSound(s, Next(s, w, e, refresh))
  {
    NextWriter(s, w, e, refresh);
    if e.Reconcile? {
      DispatchIsLegal(s, w, e.faults, e.verdict, refresh);
      CommittedHoldsPatch(s, w, Dispatch(s, w, e.faults, e.verdict, refresh));
    }
  }

  lemma CommittedHoldsPatch(s: Spec, w: World, x: Effect)
    requires PatchSound(s, w) && Legal(s, w, x)
    ensures PatchSound(s, Committed(w, x))
  {
    CommittedWriter(w, x);
    if x.wrote.Some? && x.wrote.value.who.Apply? { PatchHolds(s, w.persona); }
  }

  lemma {:induction false} RunHoldsPatch(s: Spec, w: World, events: seq<Event>, refresh: bool)
    requires Initial(w) && Alone(events)
    ensures PatchSound(s, Run(s, w, events, refresh))
    decreases |events|
  {
    if events != [] {
      var init, last := events[..|events| - 1], events[|events| - 1];
      assert last in events && forall e | e in init :: e in events;
      RunHoldsPatch(s, w, init, refresh);
      NextHoldsPatch(s, Run(s, w, init, refresh), last, refresh);
    }
  }

  lemma CompletedWriter(s: Spec, w: World, lost: bool)
    requires PatchSound(s, w) && LossSound(w, lost) && w.status.phase.Completed?
    ensures LastWriter(w.log) == Some(if lost then Rollback else Apply)
  {
    match LastWriter(w.log)
    case Some(Apply) =>
    case Some(Rollback) =>
    case Some(Outsider) => assert false;
    case None => assert false;
  }

  /** Main result: with no other writer, the operator's last write under a completed
      action is the patch, unless a rollback took effect and its status was lost;
      then it is that rollback. */
  lemma CompletedIsLastWritten(s: Spec, w: World, events: seq<Event>, refresh: bool)
    requires Initial(w) && Alone(events) && Run(s, w, events, refresh).status.phase.Completed?
    ensures LastWriter(Run(s, w, events, refresh).log) ==
            Some(if SomeRollbackLost(s, w, events, refresh) then Rollback else Apply)
  {
    RunHoldsPatch(s, w, events, refresh);
    RunLoses(s, w, events, refresh);
    CompletedWriter(s, Run(s, w, events, refresh), SomeRollbackLost(s, w, events, refresh));
  }

  /** So, whatever the patch and however often it was written, a completed action
      whose run lost no rollback has every value of the patch in place. */
  lemma CompletedHoldsPatch(s: Spec, w: World, events: seq<Event>, refresh: bool)
    requires Initial(w) && Alone(events) && !SomeRollbackLost(s, w, events, refresh)
    requires Run(s, w, events, refresh).status.phase.Completed?
    ensures HoldsPatch(s, Run(s, w, events, refresh).persona)
  {
    CompletedIsLastWritten(s, w, events, refresh);
    RunHoldsPatch(s, w, events, refresh);
  }

  const WORKS := Faults(true, Stored, true, False)
  const STATUS_LOST := Faults(true, Stored, false, False)

  lemma ThreeSteps(s: Spec, w: World, a: Event, b: Event, c: Event)
    ensures Run(s, w, [a, b, c], false) == Next(s, Next(s, Next(s, w, a, false), b, false), c, false)
  {
    RunSplits(s, w, [], a, false);
    RunSplits(s, w, [a], b, false);
    RunSplits(s, w, [a, b], c, false);
    assert [] + [a] == [a] && [a] + [b] == [a, b] && [a, b] + [c] == [a, b, c];
  }

  lemma {:induction false} RunInParts(s: Spec, w: World, first: seq<Event>, second: seq<Event>)
    ensures Run(s, w, first + second, false) == Run(s, Run(s, w, first, false), second, false)
    decreases |second|
  {
    if second == [] {
      assert first + second == first;
    } else {
      var init, last := second[..|second| - 1], second[|second| - 1];
      RunInParts(s, w, first, init);
      RunSplits(s, w, first + init, last, false);
      assert first + second == (first + init) + [last];
    }
  }

  predicate Runnable(s: Spec)
  {
    s.hasAutoApplicableChange && PreconditionsHold(s) && s.knownPersonaKind && s.rollbackEnabled &&
    Patched(map[], s.patch).Some? && Patched(map[], s.prePatch).Some?
  }

  lemma ApplyWorks(s: Spec, w: World, verdict: Verdict)
    requires Runnable(s) && w.status.phase.Approved? && !w.deleting
    ensures var next := Next(s, w, Reconcile(WORKS, verdict), false);
      && next.status.phase.Applying? && next.status.appliedAt == Some(Stamp(w.clock))
      && next.persona == After(s, w.persona) && next.clock == w.clock
  {
    PatchedIs(w.persona, s.patch);
  }

  lemma VerifyStarts(s: Spec, w: World, verdict: Verdict)
    requires w.status.phase.Applying? && w.status.appliedAt.Some? && w.status.appliedAt.value + Delay(s) <= w.clock
    ensures var next := Next(s, w, Reconcile(WORKS, verdict), false);
      next.status.phase.Verifying? && next.persona == w.persona
  {
  }

  lemma RollbackForgotten(s: Spec, w: World)
    requires Runnable(s) && w.status.phase.Verifying?
    ensures var next := Next(s, w, Reconcile(STATUS_LOST, Degraded), false);
      next.status == w.status && next.persona == Merged(w.persona, SpecValue(s.prePatch))
  {
    PatchedIs(w.persona, s.prePatch);
  }

  /** Without faults an approved action settles: it completes with the patch in
      place, or rolls back to the snapshot, as the verification says. */
  lemma FaultFreeRunSettles(s: Spec, w: World, verdict: Verdict)
    requires Runnable(s) && w.status.phase.Approved? && !w.deleting && (verdict.Healthy? || verdict.Degraded?)
    ensures var end := Run(s, w,
        [Reconcile(WORKS, verdict), Tick(Delay(s)), Reconcile(WORKS, verdict), Reconcile(WORKS, verdict)], false);
      if verdict.Healthy? then end.status.phase.Completed? && end.persona == After(s, w.persona)
      else end.status.phase.RolledBack? && end.persona == Back(s, w.persona)
  {
    var first := [Reconcile(WORKS, verdict), Tick(Delay(s)), Reconcile(WORKS, verdict)];
    ThreeSteps(s, w, Reconcile(WORKS, verdict), Tick(Delay(s)), Reconcile(WORKS, verdict));
    RunSplits(s, w, first, Reconcile(WORKS, verdict), false);
    assert first + [Reconcile(WORKS, verdict)] ==
      [Reconcile(WORKS, verdict), Tick(Delay(s)), Reconcile(WORKS, verdict), Reconcile(WORKS, verdict)];
    ApplyWorks(s, w, verdict);
    var waited := Next(s, Next(s, w, Reconcile(WORKS, verdict), false), Tick(Delay(s)), false);
    VerifyStarts(s, waited, verdict);
    VerdictSettles(s, Next(s, waited, Reconcile(WORKS, verdict), false), verdict);
  }

  lemma VerdictSettles(s: Spec, w: World, verdict: Verdict)
    requires Runnable(s) && w.status.phase.Verifying?
    ensures var next := Next(s, w, Reconcile(WORKS, verdict), false);
      && (verdict.Healthy? ==> next.status.phase.Completed? && next.persona == w.persona)
      && (verdict.Degraded? ==>
            next.status.phase.RolledBack? && next.persona == Merged(w.persona, SpecValue(s.prePatch)))
  {
    PatchedIs(w.persona, s.prePatch);
  }

  /** The loss happens: when the status write after a rollback is lost and the next
      verification is healthy, the action completes on the rolled-back persona,
      which is not the patched one where the patch changed a recorded value. */
  lemma CompletedWithoutThePatch(s: Spec, w: World, p: Path)
    requires Initial(w) && w.status.phase.Pending? && Runnable(s)
    requires LeafAt(SpecValue(s.prePatch), p).Some? && LeafAt(SpecValue(s.prePatch), p) != Some(Null)
    requires LeafAt(After(s, w.persona), p) != LeafAt(SpecValue(s.prePatch), p)
    ensures var end := Run(s, w,
        [Human(Approve), Reconcile(WORKS, Healthy), Tick(Delay(s)), Reconcile(WORKS, Healthy),
         Reconcile(STATUS_LOST, Degraded), Reconcile(WORKS, Healthy)], false);
      end.status.phase.Completed? && end.persona == Back(s, w.persona) && end.persona != After(s, w.persona)
  {
    OverlayLeavesWin(After(s, w.persona), SpecValue(s.prePatch), p);
    LossyRun(s, w);
  }

  lemma LossyRun(s: Spec, w: World)
    requires Initial(w) && w.status.phase.Pending? && Runnable(s)
    ensures var end := Run(s, w,
        [Human(Approve), Reconcile(WORKS, Healthy), Tick(Delay(s)), Reconcile(WORKS, Healthy),
         Reconcile(STATUS_LOST, Degraded), Reconcile(WORKS, Healthy)], false);
      end.status.phase.Completed? && end.persona == Back(s, w.persona)
  {
    var first := [Human(Approve), Reconcile(WORKS, Healthy), Tick(Delay(s))];
    var second := [Reconcile(WORKS, Healthy), Reconcile(STATUS_LOST, Degraded), Reconcile(WORKS, Healthy)];
    RunInParts(s, w, first, second);
    assert first + second == [Human(Approve), Reconcile(WORKS, Healthy), Tick(Delay(s)), Reconcile(WORKS, Healthy),
                              Reconcile(STATUS_LOST, Degraded), Reconcile(WORKS, Healthy)];
    AppliedAndWaited(s, w);
    RolledBackUnnoticed(s, Run(s, w, first, false));
  }

  lemma AppliedAndWaited(s: Spec, w: World)
    requires Initial(w) && w.status.phase.Pending? && Runnable(s)
    ensures var mid := Run(s, w, [Human(Approve), Reconcile(WORKS, Healthy), Tick(Delay(s))], false);
      && mid.status.phase.Applying? && mid.status.appliedAt.Some? && mid.persona == After(s, w.persona)
      && mid.status.appliedAt.value + Delay(s) <= mid.clock
  {
    ThreeSteps(s, w, Human(Approve), Reconcile(WORKS, Healthy), Tick(Delay(s)));
    ApplyWorks(s, Next(s, w, Human(Approve), false), Healthy);
  }

  lemma RolledBackUnnoticed(s: Spec, w: World)
    requires Runnable(s) && w.status.phase.Applying? && w.status.appliedAt.Some?
    requires w.status.appliedAt.value + Delay(s) <= w.clock
    ensures var end := Run(s, w,
        [Reconcile(WORKS, Healthy), Reconcile(STATUS_LOST, Degraded), Reconcile(WORKS, Healthy)], false);
      end.status.phase.Completed? && end.persona == Merged(w.persona, SpecValue(s.prePatch))
  {
    ThreeSteps(s, w, Reconcile(WORKS, Healthy), Reconcile(STATUS_LOST, Degraded), Reconcile(WORKS, Healthy));
    VerifyStarts(s, w, Healthy);
    var verifying := Next(s, w, Reconcile(WORKS, Healthy), false);
    RollbackForgotten(s, verifying);
    VerdictSettles(s, Next(s, verifying, Reconcile(STATUS_LOST, Degraded), false), Healthy);
  }
}
