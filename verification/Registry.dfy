/** Many actions at once: the proposer's check for an active remediation, and
    why at most one is in flight (internal/remediation/proposer.go). */
module Registry {
  import opened Json
  import opened Sizing
  import opened Plan
  import Lifecycle
  import LifecycleContents

  /** A stored action. */
  datatype Record = Record(
    namespace: string, persona: string, incident: string,
    ruleBased: bool, steps: seq<Step>, detail: Detail,
    spec: Lifecycle.Spec, world: Lifecycle.World)

  /** What Propose is called with. */
  datatype Proposal = Proposal(
    diagnosis: Diagnosis, persona: string, personaNamespace: string, incident: string, incidentNamespace: string)

  /** How the planning ends: an AI plan, or the rule engine with its inputs. */
  datatype Planned =
    | FromPlanner(steps: seq<Step>, detail: Detail)
    | FromRules(recorded: Option<Fields>, workload: Workload)

  datatype Event =
    | Propose(p: Proposal, planned: Planned, allowed: bool, world: Lifecycle.World, kindKnown: bool)
    | OnRecord(i: nat, event: Lifecycle.Event)

  const DEFAULT_NAMESPACE := "default"
  const HEALTH_CHECK: nat := Lifecycle.DEFAULT_WAIT

  /** activeRemediationPhases: everything that is not terminal. */
  predicate Active(r: Record)
  {
    !Lifecycle.Terminal(r.world.status.phase)
  }

  function ListNamespace(p: Proposal): string
  {
    if p.incidentNamespace == "" then p.personaNamespace else p.incidentNamespace
  }

  function ActionNamespace(p: Proposal): string
  {
    if p.personaNamespace == "" then DEFAULT_NAMESPACE else p.personaNamespace
  }

  /** The list the check reads covers the namespace the action is created in. */
  predicate Aligned(p: Proposal)
  {
    ListNamespace(p) == "" || ListNamespace(p) == ActionNamespace(p)
  }

  predicate Listed(p: Proposal, r: Record)
  {
    && (ListNamespace(p) == "" || r.namespace == ListNamespace(p))
    && (p.persona == "" || r.persona == p.persona)
  }

  predicate PatchTouches(patch: Option<Fields>, target: Path)
  {
    patch.Some? && LeafAt(patch.value, target).Some?
  }

  /** remediationTargetsPath. */
  predicate Targets(r: Record, target: Path)
  {
    PatchTouches(r.detail.patch, target) || exists s | s in r.steps :: PatchTouches(s.patch, target)
  }

  predicate Blocks(p: Proposal, r: Record)
  {
    && Listed(p, r) && Active(r)
    && (r.incident == p.incident || (TargetPath(p.diagnosis).Some? && Targets(r, TargetPath(p.diagnosis).value)))
  }

  /** An action that stands in a proposal's way: it is listed in the incident's
      namespace (the persona's if that is not set) under the persona's name, has not
      ended, and is about the same incident or sets the field the fix would set. */
  ghost predicate StandsInTheWay(p: Proposal, r: Record)
  {
    && (p.incidentNamespace != "" ==> r.namespace == p.incidentNamespace)
    && (p.incidentNamespace == "" && p.personaNamespace != "" ==> r.namespace == p.personaNamespace)
    && (p.persona != "" ==> r.persona == p.persona)
    && r.world.status.phase in {Lifecycle.Unset, Lifecycle.Pending, Lifecycle.Approved, Lifecycle.Applying,
                                Lifecycle.Verifying}
    && (|| r.incident == p.incident
        || (TargetPath(p.diagnosis).Some? && SetsField(r, TargetPath(p.diagnosis).value)))
  }

  ghost predicate SetsField(r: Record, target: Path)
  {
    || (r.detail.patch.Some? && LeafAt(r.detail.patch.value, target).Some?)
    || exists s | s in r.steps :: s.patch.Some? && LeafAt(s.patch.value, target).Some?
  }

  lemma BlocksIff(p: Proposal, r: Record)
    ensures Blocks(p, r) <==> StandsInTheWay(p, r)
  {
    if TargetPath(p.diagnosis).Some? { TargetsIff(r, TargetPath(p.diagnosis).value); }
  }

  lemma TargetsIff(r: Record, target: Path)
    ensures Targets(r, target) <==> SetsField(r, target)
  {
    if s :| s in r.steps && s.patch.Some? && LeafAt(s.patch.value, target).Some? {
      assert PatchTouches(s.patch, target);
    }
    if s :| s in r.steps && PatchTouches(s.patch, target) {
      assert s.patch.Some? && LeafAt(s.patch.value, target).Some?;
    }
  }

  /** What is created: under the persona's namespace, or "default" if it has none, with
      rollback on and the ten-minute check; from the rules a persona update that sets
      the one sized field. */
  lemma CreatedRecordIs(q: Quantities, e: Event)
    requires e.Propose? && CreatedRecord(q, e).Some?
    ensures var record := CreatedRecord(q, e).value;
      && record.namespace == (if e.p.personaNamespace == "" then "default" else e.p.personaNamespace)
      && record.persona == e.p.persona && record.incident == e.p.incident && record.world == e.world
      && record.spec.rollbackEnabled && record.spec.healthCheckAfter == Some(600_000_000_000)
      && record.spec.knownPersonaKind == e.kindKnown
      && match e.planned
         case FromPlanner(steps, detail) => record.steps == steps && record.detail == detail && !record.ruleBased
         case FromRules(recorded, workload) =>
           var change := ResourceChange(q, e.p.diagnosis, recorded, workload);
           && change.Sized? && record.ruleBased && record.steps == []
           && record.detail == Detail(UpdatePersona, Some(change.patch), Some(change.prePatch))
  {
  }

  /** Main result: a proposal that the planning and the safety check allow is created
      exactly when no action stands in its way, and then as the newest record; nothing
      else changes. */
  lemma ProposalGoesThroughIff(q: Quantities, records: seq<Record>, e: Event)
    requires e.Propose? && CreatedRecord(q, e).Some?
    ensures Next(q, records, e) ==
            if exists r | r in records :: StandsInTheWay(e.p, r) then records else records + [CreatedRecord(q, e).value]
  {
    forall r | r in records ensures Blocks(e.p, r) <==> StandsInTheWay(e.p, r) { BlocksIff(e.p, r); }
    if r :| r in records && Blocks(e.p, r) { assert StandsInTheWay(e.p, r); }
    if r :| r in records && StandsInTheWay(e.p, r) { assert Blocks(e.p, r); }
  }

  /** activeRemediationExists. */
  method ActiveRemediationExists(records: seq<Record>, p: Proposal) returns (exists_: bool)
    ensures exists_ <==> exists r | r in records :: StandsInTheWay(p, r)
  {
    forall r { BlocksIff(p, r); }
    assert (exists r | r in records :: Blocks(p, r)) <==> exists r | r in records :: StandsInTheWay(p, r);
    var target := TargetPath(p.diagnosis);
    for i := 0 to |records|
      invariant forall j | 0 <= j < i :: !Blocks(p, records[j])
    {
      var r := records[i];
      if !Listed(p, r) || !Active(r) { continue; }
      if r.incident == p.incident {
        assert Blocks(p, records[i]);
        return true;
      }
      if target.Some? {
        var targets := RemediationTargetsPath(r, target.value);
        if targets {
          assert Blocks(p, records[i]);
          return true;
        }
      }
    }
    return false;
  }

  /** remediationTargetsPath. */
  method RemediationTargetsPath(r: Record, target: Path) returns (targets: bool)
    ensures targets <==> Targets(r, target)
  {
    if PatchTouches(r.detail.patch, target) {
      return true;
    }
    for i := 0 to |r.steps|
      invariant forall j | 0 <= j < i :: !PatchTouches(r.steps[j].patch, target)
    {
      if PatchTouches(r.steps[i].patch, target) {
        assert r.steps[i] in r.steps;
        return true;
      }
    }
    return false;
  }

  // ---------------------------------------------------------------------------
  // Steps and runs
  // ---------------------------------------------------------------------------

  function PayloadOf(patch: Option<Fields>): Lifecycle.Payload
  {
    match patch case Some(f) => Lifecycle.Doc(f) case None => Lifecycle.Missing
  }

  /** The spec of a created action. */
  function SpecOf(steps: seq<Step>, detail: Detail, kindKnown: bool): Lifecycle.Spec
  {
    Lifecycle.Spec(HasAutoApplicableChange(steps, detail), detail.atype.UpdatePersona?, kindKnown,
                   PayloadOf(detail.patch), PayloadOf(detail.prePatch), true, Some(HEALTH_CHECK))
  }

  /** What Propose creates, if the planning and the safety check let it. */
  function CreatedRecord(q: Quantities, e: Event): Option<Record>
    requires e.Propose?
  {
    if !e.allowed then None
    else
      match e.planned
      case FromPlanner(steps, detail) =>
        Some(Record(ActionNamespace(e.p), e.p.persona, e.p.incident, false, steps, detail,
                    SpecOf(steps, detail, e.kindKnown), e.world))
      case FromRules(recorded, workload) =>
        match ResourceChange(q, e.p.diagnosis, recorded, workload)
        case Sized(patch, prePatch, _, _) =>
          var detail := Detail(UpdatePersona, Some(patch), Some(prePatch));
          Some(Record(ActionNamespace(e.p), e.p.persona, e.p.incident, true, [], detail,
                      SpecOf([], detail, e.kindKnown), e.world))
        case _ => None
  }

  ghost function Next(q: Quantities, records: seq<Record>, e: Event): seq<Record>
  {
    match e
    case Propose(p, _, _, _, _) =>
      if (exists r | r in records :: Blocks(p, r)) || CreatedRecord(q, e).None? then records
      else records + [CreatedRecord(q, e).value]
    case OnRecord(i, event) =>
      if i >= |records| then records
      else records[i := records[i].(world := Lifecycle.Next(records[i].spec, records[i].world, event, false))]
  }

  ghost function Run(q: Quantities, events: seq<Event>): seq<Record>
    decreases |events|
  {
    if events == [] then [] else Next(q, Run(q, events[..|events| - 1]), events[|events| - 1])
  }

  /** Every proposal's list covers its own namespace and names its persona, and
      a created action starts its life at the beginning. */
  ghost predicate Proper(events: seq<Event>)
  {
    forall e | e in events && e.Propose? :: Aligned(e.p) && Lifecycle.Initial(e.world)
  }

  // ---------------------------------------------------------------------------
  // At most one in flight
  // ---------------------------------------------------------------------------

  predicate SamePersona(a: Record, b: Record)
  {
    a.namespace == b.namespace && a.persona == b.persona
  }

  ghost predicate Apart(a: Record, b: Record)
  {
    Active(a) && Active(b) && SamePersona(a, b) ==>
      && a.incident != b.incident
      && (b.ruleBased ==> forall p | Targets(b, p) :: !Targets(a, p))
  }

  /** No two active actions of one persona share an incident, and a rule-based
      one patches no field an older active one patches. */
  ghost predicate OneInFlight(records: seq<Record>)
  {
    forall i, j | 0 <= i < j < |records| :: Apart(records[i], records[j])
  }

  /** A rule-based action patches the one field its diagnosis predicts. */
  lemma RuleBasedTarget(q: Quantities, e: Event, p: Path)
    requires e.Propose? && CreatedRecord(q, e).Some? && CreatedRecord(q, e).value.ruleBased
    ensures TargetPath(e.p.diagnosis).Some?
    ensures Targets(CreatedRecord(q, e).value, p) <==> p == TargetPath(e.p.diagnosis).value
  {
    SizedPatchHitsTarget(q, e.p.diagnosis, e.planned.recorded, e.planned.workload, p);
  }

  lemma NewIsApart(q: Quantities, e: Event, r: Record)
    requires e.Propose? && Aligned(e.p) && CreatedRecord(q, e).Some? && !Blocks(e.p, r)
    ensures Apart(r, CreatedRecord(q, e).value)
  {
    var created := CreatedRecord(q, e).value;
    if Active(r) && SamePersona(r, created) && created.ruleBased {
      forall p | Targets(created, p) ensures !Targets(r, p) {
        RuleBasedTarget(q, e, p);
      }
    }
  }

  /** Once an action is no longer active it never is again. */
  lemma ActiveOnlyEnds(r: Record, event: Lifecycle.Event)
    ensures Active(r.(world := Lifecycle.Next(r.spec, r.world, event, false))) ==> Active(r)
  {
  }

  lemma NextKeepsOne(q: Quantities, records: seq<Record>, e: Event)
    requires OneInFlight(records) && (e.Propose? ==> Aligned(e.p))
    ensures OneInFlight(Next(q, records, e))
  {
    var next := Next(q, records, e);
    forall i, j | 0 <= i < j < |next| ensures Apart(next[i], next[j]) {
      match e {
        case Propose(p, _, _, _, _) =>
          if j == |records| { assert records[i] in records; NewIsApart(q, e, records[i]); }
        case OnRecord(k, event) =>
          if k < |records| { ActiveOnlyEnds(records[k], event); }
          assert Apart(records[i], records[j]);
      }
    }
  }

  /** Main result: in every run of one proposer, humans and the controller, no
      two active actions of one persona and namespace share an incident, and a
      rule-based one shares no patched field with any older active one; in
      particular no two active rule-based actions patch the same limit. */
  lemma {:induction false} AtMostOneInFlight(q: Quantities, events: seq<Event>)
    requires Proper(events)
    ensures OneInFlight(Run(q, events))
    decreases |events|
  {
    if events != [] {
      var init, last := events[..|events| - 1], events[|events| - 1];
      assert last in events && forall e | e in init :: e in events;
      AtMostOneInFlight(q, init);
      NextKeepsOne(q, Run(q, init), last);
    }
  }

  /** Alignment is needed: a proposal for an incident recorded in another
      namespace than its persona repeats an action that is still active. An incident
      in the action's namespace, as the operator's own proposals have it, is
      aligned. */
  lemma MisalignedRepeats(q: Quantities, e: Event)
    requires e.Propose? && CreatedRecord(q, e).Some? && Lifecycle.Initial(e.world)
    ensures OneInFlight(Run(q, [e, e])) <==> Aligned(e.p)
    ensures e.p.incidentNamespace == ActionNamespace(e.p) ==> OneInFlight(Run(q, [e, e]))
  {
    assert [e, e][..1] == [e] && [e][..0] == [];
    var first := CreatedRecord(q, e).value;
    assert Run(q, [e]) == [first];
    if Aligned(e.p) {
      AtMostOneInFlight(q, [e, e]);
    } else {
      assert !Blocks(e.p, first);
      assert Run(q, [e, e]) == [first, first];
      assert !Apart([first, first][0], [first, first][1]);
    }
  }
}
