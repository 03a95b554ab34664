/** The life of one stored action: human, controller, persona store and time as
    one transition system (internal/controller/remediation_controller.go,
    internal/remediation/executor.go, internal/remediation/rollback.go). */
module Lifecycle {
  import opened Json
  import opened Merge
  import opened Conditions

  datatype Phase =
    | Unset | Pending | Approved | Applying | Verifying
    | Completed | Acknowledged | RolledBack | Failed | Rejected | Expired

  predicate Terminal(p: Phase)
  {
    p.Completed? || p.Acknowledged? || p.RolledBack? || p.Failed? || p.Rejected? || p.Expired?
  }

  /** What the verifier reports; an error reads as `Inconclusive`. */
  datatype Verdict = Healthy | Degraded | Inconclusive | Unexpected

  datatype Status = Status(
    phase: Phase, appliedAt: Option<int>, verification: Option<Verdict>, conditions: seq<Condition>)

  /** A raw JSON field of the action. */
  datatype Payload = Missing | Malformed | Doc(fields: Fields)

  /** What never changes once the action is stored. */
  datatype Spec = Spec(
    hasAutoApplicableChange: bool, isPersonaUpdate: bool, knownPersonaKind: bool,
    patch: Payload, prePatch: Payload, rollbackEnabled: bool, healthCheckAfter: Option<nat>)

  datatype Decision = Approve | Reject | Expire

  datatype Writer = Apply | Rollback | Outsider

  /** The history: human decisions, persona writes, stored phase changes. */
  datatype Entry =
    | Decided(decision: Decision, at: nat)
    | Wrote(who: Writer, at: nat)
    | Moved(phase: Phase, at: nat)

  /** Time is in nanoseconds. */
  datatype World = World(status: Status, persona: Fields, deleting: bool, clock: nat, log: seq<Entry>)

  /** An update of the persona: done, refused, or done while the caller is told
      it failed. */
  datatype WriteResult = Stored | Refused | StoredUnnoticed

  /** What one reconcile meets outside. `diverged` is what the rollback
      inspection reports. */
  datatype Faults = Faults(personaFound: bool, write: WriteResult, statusStored: bool, diverged: ConditionStatus)

  datatype Event =
    | Tick(span: nat)
    | Human(decision: Decision)
    | Write(persona: Fields)
    | Delete
    | Reconcile(faults: Faults, verdict: Verdict)

  const SECOND: nat := 1_000_000_000
  const DEFAULT_WAIT: nat := 600 * SECOND
  const MAX_UNKNOWN_RETRIES: nat := 2

  const APPLIED := "Applied"
  const ROLLED_BACK := "RolledBack"
  const REJECTED := "Rejected"
  const DIVERGED := "WorkloadDiverged"
  const PRECONDITION_REJECTED := "PreconditionRejected"

  /** A stored timestamp keeps whole seconds. */
  function Stamp(t: nat): nat
  {
    t - t % SECOND
  }

  /** getVerificationDelay. */
  function Delay(s: Spec): nat
  {
    match s.healthCheckAfter case Some(d) => d case None => DEFAULT_WAIT
  }

  // ---------------------------------------------------------------------------
  // Executor and rollback
  // ---------------------------------------------------------------------------

  /** applyPatch's merge, or `None` for its error returns. */
  function Patched(persona: Fields, patch: Payload): Option<Fields>
  {
    if !patch.Doc? || "spec" !in patch.fields then None
    else
      match patch.fields["spec"]
      case Obj(q) => Some(Merged(persona, q))
      case Null => Some(persona)
      case _ => None
  }

  /** validatePreconditions on an approved action. */
  predicate PreconditionsHold(s: Spec)
  {
    s.isPersonaUpdate && s.patch.Doc? && !s.prePatch.Missing?
  }

  datatype PersonaWrite = PersonaWrite(who: Writer, persona: Fields)

  /** What one reconcile leaves behind: a persona write that took effect and a
      status that was stored. */
  datatype Effect = Effect(wrote: Option<PersonaWrite>, saved: Option<Status>)

  const NOTHING := Effect(None, None)

  /** A merge and an update of the persona: what took effect, and whether the
      caller was told it worked. */
  function Written(w: World, patch: Payload, who: Writer, f: Faults): (Option<PersonaWrite>, bool)
  {
    var merged := Patched(w.persona, patch);
    if merged.None? || f.write.Refused? then (None, false)
    else (Some(PersonaWrite(who, merged.value)), f.write.Stored?)
  }

  datatype Applied = Success | PreconditionRefused | Error

  /** Executor.Apply. */
  function ApplyPatch(s: Spec, w: World, f: Faults): (Option<PersonaWrite>, Applied)
  {
    if !PreconditionsHold(s) then (None, PreconditionRefused)
    else if !s.knownPersonaKind || !f.personaFound || w.deleting then (None, Error)
    else
      var (wrote, ok) := Written(w, s.patch, Apply, f);
      (wrote, if ok then Success else Error)
  }

  /** Rollback.Execute. */
  function ExecuteRollback(s: Spec, w: World, f: Faults): (Option<PersonaWrite>, bool)
  {
    if !s.rollbackEnabled || s.prePatch.Missing? || !s.knownPersonaKind || !f.personaFound then (None, false)
    else Written(w, s.prePatch, Rollback, f)
  }

  // ---------------------------------------------------------------------------
  // Phase handlers
  // ---------------------------------------------------------------------------

  /** A status update, which may be lost. */
  function Saving(status: Status, f: Faults): Option<Status>
  {
    if f.statusStored then Some(status) else None
  }

  function Set(
    conditions: seq<Condition>, ctype: string, status: ConditionStatus, reason: string, message: string,
    at: nat): seq<Condition>
  {
    WithCondition(conditions, Condition(ctype, status, reason, message, Stamp(at)), false)
  }

  /** transitionToFailedWithReason. */
  function Fail(w: World, status: Status, reason: string, message: string): Status
  {
    status.(phase := Failed, conditions := Set(status.conditions, APPLIED, False, reason, message, w.clock))
  }

  function HandleApproved(s: Spec, w: World, f: Faults): Effect
  {
    if !s.hasAutoApplicableChange then
      Effect(None, Saving(w.status.(phase := Acknowledged,
        conditions := Set(w.status.conditions, APPLIED, False, "AdvisoryOnly", "approval recorded", w.clock)), f))
    else
      var (wrote, result) := ApplyPatch(s, w, f);
      match result
      case PreconditionRefused =>
        Effect(wrote, Saving(Fail(w, w.status, PRECONDITION_REJECTED, "nothing was applied"), f))
      case Error => Effect(wrote, Saving(Fail(w, w.status, "Failed", "apply failed"), f))
      case Success =>
        Effect(wrote, Saving(w.status.(phase := Applying, appliedAt := Some(Stamp(w.clock)),
          conditions := Set(w.status.conditions, APPLIED, True, "PatchApplied", "patch applied", w.clock)), f))
  }

  function HandleApplying(s: Spec, w: World, f: Faults): Effect
  {
    if w.status.appliedAt.None? then Effect(None, Saving(Fail(w, w.status, "Failed", "AppliedAt is nil"), f))
    else if w.clock - w.status.appliedAt.value < Delay(s) then NOTHING
    else Effect(None, Saving(w.status.(phase := Verifying), f))
  }

  function HandleHealthy(w: World, status: Status, f: Faults): Effect
  {
    Effect(None, Saving(status.(phase := Completed,
      conditions := Set(status.conditions, VERIFIED, True, "HealthRestored", "health restored", w.clock)), f))
  }

  function HandleDegraded(s: Spec, w: World, status: Status, f: Faults): Effect
  {
    var (wrote, ok) := ExecuteRollback(s, w, f);
    if !ok then Effect(wrote, Saving(Fail(w, status, "Failed", "rollback failed"), f))
    else
      var told := Set(status.conditions, ROLLED_BACK, True, "HealthDegraded", "rolled back", w.clock);
      Effect(wrote, Saving(status.(phase := RolledBack,
        conditions := Set(told, DIVERGED, f.diverged, "Inspected", "scope of the rollback", w.clock)), f))
  }

  function HandleUnknown(w: World, status: Status, refresh: bool, f: Faults): Effect
  {
    var count := RetryCount(status.conditions);
    if count >= MAX_UNKNOWN_RETRIES then Effect(None, Saving(Fail(w, status, "Failed", "Unknown after max retries"), f))
    else
      var message := RetryMessage(count + 1, MAX_UNKNOWN_RETRIES);
      var c := Condition(VERIFIED, False, VERIFICATION_UNKNOWN, message, Stamp(w.clock));
      Effect(None, Saving(status.(conditions := WithCondition(status.conditions, c, refresh)), f))
  }

  function HandleVerifying(s: Spec, w: World, verdict: Verdict, refresh: bool, f: Faults): Effect
  {
    var status := w.status.(verification := Some(verdict));
    match verdict
    case Healthy => HandleHealthy(w, status, f)
    case Degraded => HandleDegraded(s, w, status, f)
    case Inconclusive => HandleUnknown(w, status, refresh, f)
    case Unexpected => Effect(None, Saving(Fail(w, status, "Failed", "unexpected verification result"), f))
  }

  /** recordRejection. */
  function RecordRejection(w: World, f: Faults): Effect
  {
    if HasCondition(w.status.conditions, REJECTED) then NOTHING
    else Effect(None, Saving(w.status.(
      conditions := Set(w.status.conditions, REJECTED, True, "UserRejected", "declined by a human", w.clock)), f))
  }

  /** dispatch. `refresh` selects the setCondition that rewrites messages; the
      code is `refresh == false`. */
  function Dispatch(s: Spec, w: World, f: Faults, verdict: Verdict, refresh: bool): Effect
  {
    match w.status.phase
    case Approved => HandleApproved(s, w, f)
    case Applying => HandleApplying(s, w, f)
    case Verifying => HandleVerifying(s, w, verdict, refresh, f)
    case Rejected => RecordRejection(w, f)
    case _ => NOTHING
  }

  // ---------------------------------------------------------------------------
  // Steps and runs
  // ---------------------------------------------------------------------------

  /** The persona write, then the stored status, both at the current time. */
  function Committed(w: World, x: Effect): World
  {
    var wrote :=
      if x.wrote.None? then w
      else w.(persona := x.wrote.value.persona, log := w.log + [Wrote(x.wrote.value.who, w.clock)]);
    if x.saved.None? then wrote
    else if x.saved.value.phase == w.status.phase then wrote.(status := x.saved.value)
    else wrote.(status := x.saved.value, log := wrote.log + [Moved(x.saved.value.phase, w.clock)])
  }

  function Chosen(d: Decision): Phase
  {
    match d case Approve => Approved case Reject => Rejected case Expire => Expired
  }

  /** Humans decide pending actions only. */
  function Decide(w: World, d: Decision): World
  {
    if !w.status.phase.Pending? then w
    else w.(status := w.status.(phase := Chosen(d)), log := w.log + [Decided(d, w.clock)])
  }

  function Next(s: Spec, w: World, e: Event, refresh: bool): World
  {
    match e
    case Tick(span) => w.(clock := w.clock + span)
    case Human(d) => Decide(w, d)
    case Write(persona) => w.(persona := persona, log := w.log + [Wrote(Outsider, w.clock)])
    case Delete => w.(deleting := true)
    case Reconcile(f, verdict) => Committed(w, Dispatch(s, w, f, verdict, refresh))
  }

  /** A whole run. */
  function Run(s: Spec, w: World, events: seq<Event>, refresh: bool): World
    decreases |events|
  {
    if events == [] then w
    else Next(s, Run(s, w, events[..|events| - 1], refresh), events[|events| - 1], refresh)
  }

  /** An action as Create leaves it: pending, or with no phase yet when the
      first status write was lost. */
  predicate Initial(w: World)
  {
    && (w.status == Status(Pending, None, None, []) || w.status == Status(Unset, None, None, []))
    && w.log == [] && !w.deleting
  }
}
