/** The per-persona rate limit, and which failures the failure cooldown ignores
    (internal/remediation/safety.go). */
module RateLimit {
  import opened Conditions
  import opened Lifecycle
  import opened LifecycleTheorems
  import RetryBudget

  const HOUR: nat := 3600 * SECOND
  const DEFAULT_NAMESPACE := "default"

  datatype Persona = Persona(kind: string, name: string, namespace: string)

  /** A created action; the list shows the instant of its creation as a stamp. */
  datatype Created = Created(persona: Persona, createdAt: nat)

  /** One proposal: checked, then created if nothing objects. */
  datatype Attempt = Attempt(persona: Persona, checkedAt: nat, createdAt: nat, otherwiseAllowed: bool)

  /** listPersonaActions. */
  predicate Listed(a: Attempt, c: Created)
  {
    c.persona == (if a.persona.namespace == "" then a.persona.(namespace := c.persona.namespace) else a.persona)
  }

  /** listRecentActions. */
  function RecentTo(a: Attempt): Created -> bool
  {
    (c: Created) => Listed(a, c) && Stamp(c.createdAt) > a.checkedAt - HOUR
  }

  function Counted(created: seq<Created>, p: Created -> bool): nat
    decreases |created|
  {
    if created == [] then 0
    else Counted(created[..|created| - 1], p) + if p(created[|created| - 1]) then 1 else 0
  }

  lemma CountedAppend(created: seq<Created>, c: Created, p: Created -> bool)
    ensures Counted(created + [c], p) == Counted(created, p) + if p(c) then 1 else 0
  {
    assert (created + [c])[..|created|] == created;
  }

  lemma {:induction false} CountedWithin(created: seq<Created>, p: Created -> bool, q: Created -> bool)
    requires forall c | c in created && p(c) :: q(c)
    ensures Counted(created, p) <= Counted(created, q)
    decreases |created|
  {
    if created != [] {
      assert created[|created| - 1] in created && forall c | c in created[..|created| - 1] :: c in created;
      CountedWithin(created[..|created| - 1], p, q);
    }
  }

  /** What the check counts: actions of the same kind and name, in the same namespace
      if the persona's is given, stamped less than an hour before. */
  function SamePersonaWithin(a: Attempt): Created -> bool
  {
    (c: Created) =>
      && c.persona.kind == a.persona.kind && c.persona.name == a.persona.name
      && (a.persona.namespace == "" || c.persona.namespace == a.persona.namespace)
      && a.checkedAt < c.createdAt - c.createdAt % 1_000_000_000 + 3_600_000_000_000
  }

  /** checkRateLimit. */
  method CheckRateLimit(created: seq<Created>, a: Attempt, most: nat) returns (violated: bool)
    ensures violated <==> Counted(created, RecentTo(a)) >= most
    ensures violated <==> Counted(created, SamePersonaWithin(a)) >= most
  {
    CountedWithin(created, RecentTo(a), SamePersonaWithin(a));
    CountedWithin(created, SamePersonaWithin(a), RecentTo(a));
    var cutoff := a.checkedAt - HOUR;
    var existing := 0;
    for i := 0 to |created|
      invariant existing == Counted(created[..i], RecentTo(a))
    {
      assert created[..i + 1] == created[..i] + [created[i]];
      CountedAppend(created[..i], created[i], RecentTo(a));
      if Listed(a, created[i]) && Stamp(created[i].createdAt) > cutoff {
        existing := existing + 1;
      }
    }
    assert created[..|created|] == created;
    return existing >= most;
  }

  // ---------------------------------------------------------------------------
  // Runs
  // ---------------------------------------------------------------------------

  function Result(a: Attempt): Created
  {
    Created(a.persona.(namespace := if a.persona.namespace == "" then DEFAULT_NAMESPACE else a.persona.namespace),
            a.createdAt)
  }

  /** A creation counts under its own kind, name and namespace, or "default". */
  lemma ResultIs(a: Attempt)
    ensures Result(a) == Created(Persona(a.persona.kind, a.persona.name,
                                         if a.persona.namespace == "" then "default" else a.persona.namespace),
                                 a.createdAt)
  {
  }

  predicate LetThrough(created: seq<Created>, a: Attempt, most: nat)
  {
    a.otherwiseAllowed && Counted(created, RecentTo(a)) < most
  }

  function Run(attempts: seq<Attempt>, most: nat): seq<Created>
    decreases |attempts|
  {
    if attempts == [] then []
    else
      var before, a := Run(attempts[..|attempts| - 1], most), attempts[|attempts| - 1];
      if LetThrough(before, a, most) then before + [Result(a)] else before
  }

  /** One proposer: a check precedes its creation, and the next check. */
  ghost predicate Sequential(attempts: seq<Attempt>)
  {
    && (forall a | a in attempts :: a.checkedAt <= a.createdAt)
    && (forall i, j | 0 <= i < j < |attempts| :: attempts[i].createdAt <= attempts[j].checkedAt)
  }

  lemma RunStep(attempts: seq<Attempt>, most: nat, i: nat)
    requires i < |attempts|
    ensures Run(attempts[..i + 1], most) ==
            if LetThrough(Run(attempts[..i], most), attempts[i], most)
            then Run(attempts[..i], most) + [Result(attempts[i])] else Run(attempts[..i], most)
  {
    assert attempts[..i + 1][..i] == attempts[..i];
  }

  lemma StepCounts(attempts: seq<Attempt>, most: nat, i: nat, p: Created -> bool)
    requires i < |attempts|
    ensures Counted(Run(attempts[..i + 1], most), p) == Counted(Run(attempts[..i], most), p) +
            if LetThrough(Run(attempts[..i], most), attempts[i], most) && p(Result(attempts[i])) then 1 else 0
  {
    RunStep(attempts, most, i);
    CountedAppend(Run(attempts[..i], most), Result(attempts[i]), p);
  }

  /** What is created before a check was created no later than the check. */
  lemma {:induction false} RunIsEarlier(attempts: seq<Attempt>, most: nat, n: nat, t: nat)
    requires n <= |attempts| && forall i | 0 <= i < n :: attempts[i].createdAt <= t
    ensures forall c | c in Run(attempts[..n], most) :: c.createdAt <= t
  {
    if n > 0 {
      RunIsEarlier(attempts, most, n - 1, t);
      RunStep(attempts, most, n - 1);
    }
  }

  lemma {:induction false} RunGrows(attempts: seq<Attempt>, most: nat, i: nat, n: nat, p: Created -> bool)
    requires i <= n <= |attempts|
    ensures Counted(Run(attempts[..i], most), p) <= Counted(Run(attempts[..n], most), p)
    decreases n
  {
    if i < n {
      RunGrows(attempts, most, i, n - 1, p);
      StepCounts(attempts, most, n - 1, p);
    }
  }

  /** No more than the limit of a kind is created if each is let through below it. */
  lemma {:induction false} RunIsBounded(attempts: seq<Attempt>, most: nat, n: nat, p: Created -> bool)
    requires n <= |attempts|
    requires forall i | 0 <= i < n && p(Result(attempts[i])) ::
      LetThrough(Run(attempts[..i], most), attempts[i], most) ==> Counted(Run(attempts[..i], most), p) < most
    ensures Counted(Run(attempts[..n], most), p) <= most
  {
    if n > 0 {
      RunIsBounded(attempts, most, n - 1, p);
      StepCounts(attempts, most, n - 1, p);
    }
  }

  // ---------------------------------------------------------------------------
  // Hours of stamps
  // ---------------------------------------------------------------------------

  /** A persona's creations stamped in the half-open hour (x, x + 1h]. */
  function StampedIn(who: Persona, x: int): Created -> bool
  {
    (c: Created) => c.persona == who && x < Stamp(c.createdAt) <= x + HOUR
  }

  /** Whole seconds: every stamp of the hour is still recent when the last of the
      hour is checked. */
  lemma StampIsRecent(t: nat, a: Attempt, x: int)
    requires a.checkedAt <= a.createdAt && x < Stamp(t) && Stamp(a.createdAt) <= x + HOUR
    ensures Stamp(t) > a.checkedAt - HOUR
  {
    StampIsWhole(t);
    StampIsWhole(a.createdAt);
    assert (a.createdAt / SECOND - 3600) * SECOND <= x < (t / SECOND) * SECOND;
    assert a.createdAt / SECOND - 3600 < t / SECOND;
  }

  /** No half-open hour of stamps holds more than the limit of a persona's created
      actions, wherever it begins. */
  lemma NoStampedHourHoldsMore(attempts: seq<Attempt>, most: nat, who: Persona, x: int)
    requires Sequential(attempts)
    ensures Counted(Run(attempts, most), StampedIn(who, x)) <= most
  {
    forall i | 0 <= i < |attempts| && StampedIn(who, x)(Result(attempts[i]))
      ensures Counted(Run(attempts[..i], most), StampedIn(who, x)) <=
              Counted(Run(attempts[..i], most), RecentTo(attempts[i]))
    {
      var a := attempts[i];
      assert a in attempts;
      forall c | StampedIn(who, x)(c) ensures RecentTo(a)(c) { StampIsRecent(c.createdAt, a, x); }
      CountedWithin(Run(attempts[..i], most), StampedIn(who, x), RecentTo(a));
    }
    RunIsBounded(attempts, most, |attempts|, StampedIn(who, x));
    assert attempts[..|attempts|] == attempts;
  }

  // ---------------------------------------------------------------------------
  // Instants of creation
  // ---------------------------------------------------------------------------

  /** A persona's creations in the half-open window (x, x + span]. */
  function MadeIn(who: Persona, x: int, span: int): Created -> bool
  {
    (c: Created) => c.persona == who && x < c.createdAt <= x + span
  }

  ghost predicate Holds(attempts: seq<Attempt>, most: nat, who: Persona, x: int, span: int)
  {
    Sequential(attempts) ==> Counted(Run(attempts, most), MadeIn(who, x, span)) <= most
  }

  /** The longest window whose stamps are all still recent when its last creation is
      checked. */
  const KEPT: int := HOUR - SECOND + 1

  /** No window up to a second short of an hour holds more than the limit. */
  lemma NoWindowHoldsMore(attempts: seq<Attempt>, most: nat, who: Persona, x: int, span: int)
    requires Sequential(attempts) && span <= KEPT
    ensures Counted(Run(attempts, most), MadeIn(who, x, span)) <= most
  {
    forall i | 0 <= i < |attempts| && MadeIn(who, x, span)(Result(attempts[i]))
      ensures Counted(Run(attempts[..i], most), MadeIn(who, x, span)) <=
              Counted(Run(attempts[..i], most), RecentTo(attempts[i]))
    {
      assert attempts[i] in attempts;
      CountedWithin(Run(attempts[..i], most), MadeIn(who, x, span), RecentTo(attempts[i]));
    }
    RunIsBounded(attempts, most, |attempts|, MadeIn(who, x, span));
    assert attempts[..|attempts|] == attempts;
  }

  /** A run with one creation too many in any longer window: as many as allowed at
      the end of a second, and one more when their stamp is an hour old. */
  function Early(who: Persona, n: nat): seq<Attempt>
  {
    seq(n, _ => Attempt(who, SECOND - 1, SECOND - 1, true))
  }

  function Overrun(who: Persona, most: nat): seq<Attempt>
  {
    Early(who, most) + [Attempt(who, HOUR, HOUR, true)]
  }

  lemma {:induction false} EarlyRun(who: Persona, most: nat, n: nat)
    requires who.namespace != "" && n <= most
    ensures |Run(Early(who, n), most)| == n
    ensures forall c | c in Run(Early(who, n), most) :: c == Created(who, SECOND - 1)
  {
    if n > 0 {
      EarlyRun(who, most, n - 1);
      assert Early(who, n)[..n - 1] == Early(who, n - 1);
      CountedAtMost(Run(Early(who, n - 1), most), RecentTo(Early(who, n)[n - 1]));
    }
  }

  lemma {:induction false} CountedAtMost(created: seq<Created>, p: Created -> bool)
    ensures Counted(created, p) <= |created|
    ensures (forall c | c in created :: p(c)) ==> Counted(created, p) == |created|
    ensures (forall c | c in created :: !p(c)) ==> Counted(created, p) == 0
    decreases |created|
  {
    if created != [] {
      assert created[|created| - 1] in created && forall c | c in created[..|created| - 1] :: c in created;
      CountedAtMost(created[..|created| - 1], p);
    }
  }

  lemma OverrunBreaks(who: Persona, most: nat, span: int)
    requires who.namespace != "" && most > 0 && span > KEPT
    ensures Sequential(Overrun(who, most))
    ensures Counted(Run(Overrun(who, most), most), MadeIn(who, SECOND - 2, span)) == most + 1
  {
    var early, last := Run(Early(who, most), most), Attempt(who, HOUR, HOUR, true);
    EarlyRun(who, most, most);
    assert Overrun(who, most)[..most] == Early(who, most) && Overrun(who, most)[most] == last;
    CountedAtMost(early, RecentTo(last));
    CountedAtMost(early, MadeIn(who, SECOND - 2, span));
    CountedAppend(early, Result(last), MadeIn(who, SECOND - 2, span));
  }

  /** Main result: the limit holds in every window of a length, of every run, if and
      only if the length is at most an hour less a second, plus a nanosecond. */
  lemma WindowHoldsIff(most: nat, span: int)
    requires most > 0
    ensures (forall attempts, who, x :: Holds(attempts, most, who, x, span)) <==> span <= KEPT
  {
    if span <= KEPT {
      forall attempts, who, x ensures Holds(attempts, most, who, x, span) {
        if Sequential(attempts) { NoWindowHoldsMore(attempts, most, who, x, span); }
      }
    } else {
      var who := Persona("", "", DEFAULT_NAMESPACE);
      OverrunBreaks(who, most, span);
      assert !Holds(Overrun(who, most), most, who, SECOND - 2, span);
    }
  }

  /** An attempt that is let through although as many as the limit were created in
      the hour before it. */
  predicate Overshoots(created: seq<Created>, a: Attempt, most: nat)
  {
    LetThrough(created, a, most) && Counted(created, MadeIn(Result(a).persona, a.createdAt - HOUR, HOUR)) >= most
  }

  /** Main result: a run keeps every hour of creation instants, wherever it begins,
      if and only if none of its attempts overshoots. */
  lemma EveryHourHoldsIff(attempts: seq<Attempt>, most: nat)
    requires Sequential(attempts)
    ensures (forall who, x :: Holds(attempts, most, who, x, HOUR)) <==>
            (forall i | 0 <= i < |attempts| :: !Overshoots(Run(attempts[..i], most), attempts[i], most))
  {
    if i :| 0 <= i < |attempts| && Overshoots(Run(attempts[..i], most), attempts[i], most) {
      OvershotHour(attempts, most, i);
      assert !Holds(attempts, most, Result(attempts[i]).persona, attempts[i].createdAt - HOUR, HOUR);
    } else {
      forall who, x ensures Holds(attempts, most, who, x, HOUR) { KeptHour(attempts, most, who, x); }
    }
  }

  lemma OvershotHour(attempts: seq<Attempt>, most: nat, i: nat)
    requires i < |attempts| && Overshoots(Run(attempts[..i], most), attempts[i], most)
    ensures Counted(Run(attempts, most), MadeIn(Result(attempts[i]).persona, attempts[i].createdAt - HOUR, HOUR)) > most
  {
    var p := MadeIn(Result(attempts[i]).persona, attempts[i].createdAt - HOUR, HOUR);
    StepCounts(attempts, most, i, p);
    RunGrows(attempts, most, i + 1, |attempts|, p);
    assert attempts[..|attempts|] == attempts;
  }

  lemma KeptHour(attempts: seq<Attempt>, most: nat, who: Persona, x: int)
    requires Sequential(attempts)
    requires forall i | 0 <= i < |attempts| :: !Overshoots(Run(attempts[..i], most), attempts[i], most)
    ensures Counted(Run(attempts, most), MadeIn(who, x, HOUR)) <= most
  {
    forall i | 0 <= i < |attempts| && MadeIn(who, x, HOUR)(Result(attempts[i]))
      ensures LetThrough(Run(attempts[..i], most), attempts[i], most) ==>
                Counted(Run(attempts[..i], most), MadeIn(who, x, HOUR)) < most
    {
      HourBefore(attempts, most, who, x, i);
    }
    RunIsBounded(attempts, most, |attempts|, MadeIn(who, x, HOUR));
    assert attempts[..|attempts|] == attempts;
  }

  /** What was made in the hour so far was made in the hour before the attempt. */
  lemma HourBefore(attempts: seq<Attempt>, most: nat, who: Persona, x: int, i: nat)
    requires Sequential(attempts) && i < |attempts| && MadeIn(who, x, HOUR)(Result(attempts[i]))
    ensures Counted(Run(attempts[..i], most), MadeIn(who, x, HOUR)) <=
            Counted(Run(attempts[..i], most), MadeIn(Result(attempts[i]).persona, attempts[i].createdAt - HOUR, HOUR))
  {
    assert attempts[i] in attempts;
    RunIsEarlier(attempts, most, i, attempts[i].createdAt);
    CountedWithin(Run(attempts[..i], most), MadeIn(who, x, HOUR),
                  MadeIn(Result(attempts[i]).persona, attempts[i].createdAt - HOUR, HOUR));
  }

  /** The guard that fails: an action created within the hour before another, with a
      stamp the check no longer counts. */
  predicate Forgotten(c: Created, a: Attempt)
  {
    c.persona == Result(a).persona && a.createdAt - HOUR < c.createdAt && Stamp(c.createdAt) <= a.checkedAt - HOUR
  }

  lemma OvershootForgets(created: seq<Created>, a: Attempt, most: nat)
    requires Overshoots(created, a, most)
    ensures exists c | c in created :: Forgotten(c, a)
  {
    if forall c | c in created :: !Forgotten(c, a) {
      CountedWithin(created, MadeIn(Result(a).persona, a.createdAt - HOUR, HOUR), RecentTo(a));
    }
  }

  /** So creations at whole seconds keep every hour. */
  lemma WholeSecondsKeepTheHour(attempts: seq<Attempt>, most: nat, who: Persona, x: int)
    requires Sequential(attempts) && forall a | a in attempts :: Stamp(a.createdAt) == a.createdAt
    ensures Counted(Run(attempts, most), MadeIn(who, x, HOUR)) <= most
  {
    forall i | 0 <= i < |attempts| ensures !Overshoots(Run(attempts[..i], most), attempts[i], most) {
      assert attempts[i] in attempts;
      if Overshoots(Run(attempts[..i], most), attempts[i], most) {
        OvershootForgets(Run(attempts[..i], most), attempts[i], most);
        var c :| c in Run(attempts[..i], most) && Forgotten(c, attempts[i]);
        RunOrigin(attempts, most, i, c);
      }
    }
    KeptHour(attempts, most, who, x);
  }

  lemma {:induction false} RunOrigin(attempts: seq<Attempt>, most: nat, n: nat, c: Created)
    requires n <= |attempts| && c in Run(attempts[..n], most)
    ensures exists a | a in attempts :: c == Result(a)
  {
    if n > 0 {
      RunStep(attempts, most, n - 1);
      assert attempts[n - 1] in attempts;
      if c in Run(attempts[..n - 1], most) { RunOrigin(attempts, most, n - 1, c); }
    }
  }

  // ---------------------------------------------------------------------------
  // The failure cooldown
  // ---------------------------------------------------------------------------

  predicate SaysRefused(c: Condition)
  {
    c.ctype == APPLIED && c.reason == PRECONDITION_REJECTED
  }

  /** rejectedBeforeApply. */
  method RejectedBeforeApply(status: Status) returns (rejected: bool)
    ensures rejected <==> IsRejectedBeforeApply(status)
  {
    if status.appliedAt.Some? {
      return false;
    }
    for i := 0 to |status.conditions|
      invariant forall j | 0 <= j < i :: !SaysRefused(status.conditions[j])
    {
      if status.conditions[i].ctype == APPLIED && status.conditions[i].reason == PRECONDITION_REJECTED {
        assert SaysRefused(status.conditions[i]);
        return true;
      }
    }
    return false;
  }

  ghost predicate IsRejectedBeforeApply(status: Status)
  {
    status.appliedAt.None? && exists c | c in status.conditions :: SaysRefused(c)
  }

  /** What the record says about a failure, before and after it. */
  ghost predicate RefusalSound(s: Spec, w: World)
  {
    && OnePerType(w.status.conditions)
    && (Untried(w.status.phase) || w.status.phase.Approved? ==>
          w.status.appliedAt.None? && !HasCondition(w.status.conditions, APPLIED))
    && (w.status.phase.Applying? || w.status.phase.Verifying? ==> w.status.appliedAt.Some? && PreconditionsHold(s))
    && (w.status.phase.Failed? ==> (IsRejectedBeforeApply(w.status) <==> !PreconditionsHold(s)))
  }

  lemma RefusedRead(conditions: seq<Condition>)
    requires OnePerType(conditions)
    ensures (exists c | c in conditions :: SaysRefused(c)) <==> AppliedReasonIs(conditions, PRECONDITION_REJECTED)
  {
    var i := IndexOf(conditions, APPLIED);
    if i < |conditions| { assert conditions[i] in conditions; }
  }

  lemma ApprovedRefusal(s: Spec, w: World, f: Faults)
    requires RefusalSound(s, w) && w.status.phase.Approved?
    ensures RefusalSound(s, Committed(w, HandleApproved(s, w, f)))
  {
    RetryBudget.SetUnspent(w.status.conditions, APPLIED, False, PRECONDITION_REJECTED, "nothing was applied", w.clock);
    RetryBudget.SetUnspent(w.status.conditions, APPLIED, False, "Failed", "apply failed", w.clock);
    RetryBudget.SetUnspent(w.status.conditions, APPLIED, False, "AdvisoryOnly", "approval recorded", w.clock);
    RetryBudget.SetUnspent(w.status.conditions, APPLIED, True, "PatchApplied", "patch applied", w.clock);
    FailReads(w, w.status, PRECONDITION_REJECTED, "nothing was applied");
    FailReads(w, w.status, "Failed", "apply failed");
    RefusedRead(Fail(w, w.status, PRECONDITION_REJECTED, "nothing was applied").conditions);
    RefusedRead(Fail(w, w.status, "Failed", "apply failed").conditions);
    assert |PRECONDITION_REJECTED| != |"Failed"|;
  }

  lemma NextRefusal(s: Spec, w: World, e: Event)
    requires RefusalSound(s, w) && RetryBudget.Unspent(Next(s, w, e, false))
    ensures RefusalSound(s, Next(s, w, e, false))
  {
    if e.Reconcile? {
      DispatchIsLegal(s, w, e.faults, e.verdict, false);
      match w.status.phase {
        case Approved => ApprovedRefusal(s, w, e.faults);
        case Rejected =>
          SettingIsLocal(w.status.conditions,
            Condition(REJECTED, True, "UserRejected", "declined by a human", Stamp(w.clock)), false, APPLIED);
        case _ =>
      }
    }
  }

  lemma {:induction false} RunRefusal(s: Spec, w: World, events: seq<Event>)
    requires Initial(w)
    ensures RefusalSound(s, WholeRun(s, w, events))
    decreases |events|
  {
    if events != [] {
      RunRefusal(s, w, events[..|events| - 1]);
      RetryBudget.RunUnspent(s, w, events);
      NextRefusal(s, WholeRun(s, w, events[..|events| - 1]), events[|events| - 1]);
    }
  }

  function WholeRun(s: Spec, w: World, events: seq<Event>): World
  {
    Lifecycle.Run(s, w, events, false)
  }

  /** Main result: of the failed actions, the cooldown ignores exactly those
      whose plan was unfit to apply, and none of them ever wrote the persona. */
  lemma CooldownIgnoresExactlyTheUnfit(s: Spec, w: World, events: seq<Event>)
    requires Initial(w) && WholeRun(s, w, events).status.phase.Failed?
    ensures var end := WholeRun(s, w, events);
      && (IsRejectedBeforeApply(end.status) <==> !PreconditionsHold(s))
      && (IsRejectedBeforeApply(end.status) ==> !HasOwnWrite(end.log))
  {
    RunRefusal(s, w, events);
    RunIsSound(s, w, events, false);
  }
}
