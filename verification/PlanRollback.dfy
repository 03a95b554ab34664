/** Every created Action can be undone: applying its patch and then its rollback
    state gives back whatever the persona recorded. */
module PlanRollback {
  import opened Json
  import opened Merge
  import opened Prune
  import opened Undo
  import opened Sizing
  import opened Plan
  import opened PlanTheorems
  import opened PlanScrubs
  import opened PlanCreation
  import Redaction

  function Value(f: Option<Fields>): Fields
  {
    if f.None? then map[] else f.value
  }

  /** A persona as its typed record renders it: objects on the way to a limit, and
      a non-empty text there. */
  predicate Typed(f: Fields, path: Path)
    requires path != []
    decreases path
  {
    path[0] in f ==>
      if |path| == 1 then f[path[0]].Str? && f[path[0]].text != ""
      else f[path[0]].Obj? && Typed(f[path[0]].fields, path[1..])
  }

  /** What the theorems ask of the persona's record. */
  ghost predicate TypedPersona(persona: Fields)
  {
    NullFree(persona) && forall d :: Typed(persona, ["resources", "limits", Key(d)])
  }

  ghost predicate ForPersona(r: Request)
  {
    r.persona.Some? && TypedPersona(r.persona.value)
  }

  // ---------------------------------------------------------------------------
  // The derived rollback value
  // ---------------------------------------------------------------------------

  lemma {:induction false} TypedRecords(f: Fields, path: Path, value: string)
    requires path != [] && Typed(f, path)
    requires StringAt(f, path).Some? ==> StringAt(f, path).value == value
    ensures RecordsAt(f, path, value)
    decreases |path|
  {
    if path[0] in f && |path| > 1 { TypedRecords(f[path[0]].fields, path[1..], value); }
  }

  /** The recorded limit, and the live one in its place when there is none. */
  function RollbackValue(change: Change, persona: Option<Fields>, d: Dimension): string
    requires change.Sized?
  {
    if PersonaLimit(persona, d) == "" then change.baseline else PersonaLimit(persona, d)
  }

  lemma SizedShape(q: Quantities, d: Diagnosis, persona: Option<Fields>, w: Workload)
    requires ResourceChange(q, d, persona, w).Sized?
    ensures var path, change := LimitPath(TargetOf(d)), ResourceChange(q, d, persona, w);
      && TargetPath(d) == Some(path)
      && change.patch == Nested(path, change.value)
      && change.prePatch == Nested(path, RollbackValue(change, persona, TargetOf(d)))
  {
    var dim := TargetDimension(q, d, persona, w);
  }

  lemma PersonaRecords(change: Change, persona: Fields, d: Dimension)
    requires TypedPersona(persona) && change.Sized?
    ensures RecordsAt(Document(persona), LimitPath(d), RollbackValue(change, Some(persona), d))
  {
    var path := ["resources", "limits", Key(d)];
    assert Typed(persona, path);
    if StringAt(persona, path).Some? { TypedText(persona, path); }
    TypedRecords(persona, path, RollbackValue(change, Some(persona), d));
    assert LimitPath(d) == ["spec"] + path && LimitPath(d)[1..] == path;
  }

  lemma {:induction false} TypedText(f: Fields, path: Path)
    requires path != [] && Typed(f, path) && StringAt(f, path).Some?
    ensures StringAt(f, path).value != ""
    decreases |path|
  {
    if |path| > 1 { TypedText(f[path[0]].fields, path[1..]); }
  }

  /** The rule engine's own change, on a persona that records a limit or none. */
  lemma SizedUndoes(q: Quantities, d: Diagnosis, persona: Fields, w: Workload)
    requires TypedPersona(persona) && ResourceChange(q, d, Some(persona), w).Sized?
    ensures var change := ResourceChange(q, d, Some(persona), w);
      Undoes(change.patch, Document(persona), change.prePatch)
  {
    var path, change := LimitPath(TargetOf(d)), ResourceChange(q, d, Some(persona), w);
    var recorded := RollbackValue(change, Some(persona), TargetOf(d));
    SizedShape(q, d, Some(persona), w);
    PersonaRecords(change, persona, TargetOf(d));
    DerivedUndoes(map[], Document(persona), map[], path, change.value, recorded);
    WithPathIsNullFree(map[], path, recorded);
    forall p | LeafAt(change.prePatch, p).Some? ensures LeafAt(change.patch, p).Some? {
      SizedPatchHitsTarget(q, d, Some(persona), w, p);
    }
  }

  lemma SizedRestores(q: Quantities, d: Diagnosis, persona: Fields, w: Workload)
    requires TypedPersona(persona) && ResourceChange(q, d, Some(persona), w).Sized?
    ensures var change, origin := ResourceChange(q, d, Some(persona), w), Document(persona);
      Restored(Merged(Merged(origin, change.patch), change.prePatch), change.patch, origin)
  {
    SizedUndoes(q, d, persona, w);
    var change := ResourceChange(q, d, Some(persona), w);
    UndoRestores(change.patch, Document(persona), change.prePatch);
  }

  // ---------------------------------------------------------------------------
  // Steps
  // ---------------------------------------------------------------------------

  /** A step's rollback state undoes its patch and holds nothing of its own but
      resources the patch sets. */
  ghost predicate UndoneStep(r: Request, s: Step)
    requires ForPersona(r)
  {
    var origin := Document(r.persona.value);
    && Covers(Value(s.patch), origin, Value(s.prePatch)) && Faithful(Value(s.prePatch), origin)
    && NullFree(Value(s.prePatch))
    && forall q | LeafAt(Value(s.prePatch), q).Some? && LeafAt(Value(s.prePatch), q) != LeafAt(origin, q) ::
         IsResourcePath(q) && LeafAt(Value(s.patch), q).Some?
  }

  /** Before the derivation, with nothing of its own. */
  ghost predicate MirroringStep(r: Request, s: Step)
    requires ForPersona(r)
  {
    var origin := Document(r.persona.value);
    && Covers(Value(s.patch), origin, Value(s.prePatch)) && Faithful(Value(s.prePatch), origin)
    && NullFree(Value(s.prePatch))
    && forall q | LeafAt(Value(s.prePatch), q).Some? :: LeafAt(Value(s.prePatch), q) == LeafAt(origin, q)
  }

  lemma MappedMirrors(e: Env, r: Request, ps: PlannedStep)
    requires LawfulEnv(e) && ForPersona(r)
    ensures MirroringStep(r, MapStep(e, ps, r.persona, r.workload))
  {
    var s, origin := MapStep(e, ps, r.persona, r.workload), Document(r.persona.value);
    MappedPrePatch(e, r, ps);
    MirroredUndoes(Value(s.patch), origin);
    MirroredIsNullFree(Value(s.patch), origin);
    forall q | LeafAt(Value(s.prePatch), q).Some? ensures LeafAt(Value(s.prePatch), q) == LeafAt(origin, q) {
      MirroredIsFromOrigin(Value(s.patch), origin, q);
    }
  }

  lemma MappedPrePatch(e: Env, r: Request, ps: PlannedStep)
    requires LawfulEnv(e) && ForPersona(r)
    ensures var s := MapStep(e, ps, r.persona, r.workload);
      Value(s.prePatch) == Mirrored(Value(s.patch), Document(r.persona.value))
  {
  }

  lemma PrunedValueIs(f: Option<Fields>, paths: seq<Path>)
    requires [] !in paths
    ensures Value(Pruned(f, paths)) == DeletedAll(Value(f), paths)
  {
  }

  lemma {:induction false} NothingDeletedAll(paths: seq<Path>)
    requires [] !in paths
    ensures DeletedAll(map[], paths) == map[]
    decreases |paths|
  {
    if paths != [] {
      assert paths[0] in paths && forall p | p in paths[1..] :: p in paths;
      NothingDeleted(paths[0]);
      NothingDeletedAll(paths[1..]);
    }
  }

  /** Pruning both documents of a step keeps it undone. */
  lemma PrunedMirrors(r: Request, s: Step, t: Step, fields: seq<Path>)
    requires ForPersona(r) && MirroringStep(r, s)
    requires forall p | p in fields :: LeafAt(Value(s.patch), p).Some?
    ensures [] !in fields
    ensures t.patch == Pruned(s.patch, fields) && t.prePatch == Pruned(s.prePatch, fields) ==> MirroringStep(r, t)
  {
    var origin := Document(r.persona.value);
    PrunedValueIs(s.patch, fields);
    PrunedValueIs(s.prePatch, fields);
    forall p | p in fields ensures Walkable(Value(s.patch), p) { LeafIsWalkable(Value(s.patch), p); }
    DeletedAllUndoes(Value(s.patch), origin, Value(s.prePatch), fields);
    DeletedAllIsNullFree(Value(s.prePatch), fields);
    forall q { DeletedAllLeaves(Value(s.prePatch), fields, q); }
  }

  lemma RefusedMirrors(e: Env, r: Request, s: Step)
    requires LawfulEnv(e) && ForPersona(r) && MirroringStep(r, s)
    ensures MirroringStep(r, RefuseStep(e, s, r.workload))
  {
    if RefuseStep(e, s, r.workload) != s {
      var patch, base := s.patch.value, Baseline(e, s, r.workload).value;
      var fields := e.order(Breaches(e, patch, base));
      forall p | p in fields ensures LeafAt(patch, p).Some? {
        LeafPathsAreTheLeaves(patch, p);
      }
      PrunedMirrors(r, s, RefuseStep(e, s, r.workload), fields);
    }
  }

  lemma SafeStepsMirror(e: Env, r: Request)
    requires LawfulEnv(e) && ForPersona(r)
    ensures forall s | s in AfterSafety(e, r) :: MirroringStep(r, s)
  {
    forall i | 0 <= i < |AfterSafety(e, r)| ensures MirroringStep(r, AfterSafety(e, r)[i]) {
      SafeStep(e, r, i);
      MappedMirrors(e, r, r.planned[i]);
      RefusedMirrors(e, r, MapStep(e, r.planned[i], r.persona, r.workload));
    }
  }

  lemma MergedValue(f: Option<Fields>, path: Path, value: string)
    requires path != []
    ensures MergedPatches(f, Nested(path, value)) == WithPath(Value(f), path, value)
  {
    MergedNested(Value(f), path, value);
  }

  lemma InstalledIsUndone(e: Env, r: Request)
    requires LawfulEnv(e) && ForPersona(r) && Installs(e, r)
    requires MirroringStep(r, AfterSafety(e, r)[DerivedStepIndex(AfterSafety(e, r)).value])
    ensures UndoneStep(r, Installed(e, r))
  {
    var s := AfterSafety(e, r)[DerivedStepIndex(AfterSafety(e, r)).value];
    var d := TargetOf(r.diagnosis);
    var path, v, v0 := LimitPath(d), ChangeOf(e, r).value, RollbackValue(ChangeOf(e, r), r.persona, d);
    SizedShape(e.q, r.diagnosis, r.persona, r.workload);
    PersonaRecords(ChangeOf(e, r), r.persona.value, d);
    MergedValue(s.patch, path, v);
    MergedValue(s.prePatch, path, v0);
    InstallUndoes(r, s, Installed(e, r), d, v, v0);
  }

  lemma InstallUndoes(r: Request, s: Step, t: Step, d: Dimension, v: string, v0: string)
    requires ForPersona(r) && MirroringStep(r, s) && RecordsAt(Document(r.persona.value), LimitPath(d), v0)
    requires t.patch == Some(WithPath(Value(s.patch), LimitPath(d), v))
    requires t.prePatch == Some(WithPath(Value(s.prePatch), LimitPath(d), v0))
    ensures UndoneStep(r, t)
  {
    var origin, path := Document(r.persona.value), LimitPath(d);
    DerivedUndoes(Value(s.patch), origin, Value(s.prePatch), path, v, v0);
    WithPathIsNullFree(Value(s.prePatch), path, v0);
    forall q | LeafAt(t.prePatch.value, q).Some? && LeafAt(t.prePatch.value, q) != LeafAt(origin, q)
      ensures IsResourcePath(q) && LeafAt(t.patch.value, q).Some?
    {
      WithPathLeaves(Value(s.prePatch), path, v0, q);
      WithPathLeaves(Value(s.patch), path, v, q);
    }
  }

  lemma MirroringIsUndone(r: Request, s: Step)
    requires ForPersona(r) && MirroringStep(r, s)
    ensures UndoneStep(r, s)
  {
  }

  ghost function Undoing(r: Request): Step -> bool
    requires ForPersona(r)
  {
    (s: Step) => UndoneStep(r, s)
  }

  lemma SameWriteUndoes(r: Request)
    requires ForPersona(r)
    ensures forall a, b | SameWrite(a, b) && Undoing(r)(b) :: Undoing(r)(a)
  {
  }

  lemma BeforeScrubsIsUndone(e: Env, r: Request)
    requires LawfulEnv(e) && ForPersona(r) && EnsuredSteps(e, r).Some?
    ensures forall s | s in BeforeScrubs(e, r).steps :: UndoneStep(r, s)
  {
    SafeStepsMirror(e, r);
    forall s | MirroringStep(r, s) ensures UndoneStep(r, s) { MirroringIsUndone(r, s); }
    if Installs(e, r) { InstalledIsUndone(e, r); }
    SameWriteUndoes(r);
    ReachesScrubs(e, r, Undoing(r));
    assert forall s :: Undoing(r)(s) == UndoneStep(r, s);
  }

  // ---------------------------------------------------------------------------
  // What the executor merges
  // ---------------------------------------------------------------------------

  /** A rollback state with one key, the one the executor merges below. */
  predicate OnlySpec(f: Option<Fields>)
  {
    f.Some? ==> f.value.Keys == {"spec"}
  }

  lemma {:induction false} DeletedAllKeys(f: Fields, paths: seq<Path>)
    requires [] !in paths
    ensures DeletedAll(f, paths).Keys <= f.Keys
    decreases |paths|
  {
    if paths != [] {
      assert paths[0] in paths && forall p | p in paths[1..] :: p in paths;
      DeletedAllKeys(Deleted(f, paths[0]), paths[1..]);
    }
  }

  lemma PrunedIsOnlySpec(f: Option<Fields>, paths: seq<Path>)
    requires [] !in paths && OnlySpec(f)
    ensures OnlySpec(Pruned(f, paths))
  {
    if f.Some? { DeletedAllKeys(f.value, paths); }
  }

  lemma MappedIsOnlySpec(e: Env, r: Request, ps: PlannedStep)
    requires LawfulEnv(e)
    ensures OnlySpec(MapStep(e, ps, r.persona, r.workload).prePatch)
  {
    var s := MapStep(e, ps, r.persona, r.workload);
    if s.patch.Some? {
      MappedStep(e, r, ps);
      SnapshotIsOnlySpec(r.persona, s.patch.value);
    } else {
      MappedWithout(e, r, ps);
    }
  }

  lemma MappedWithout(e: Env, r: Request, ps: PlannedStep)
    requires LawfulEnv(e) && MapStep(e, ps, r.persona, r.workload).patch.None?
    ensures MapStep(e, ps, r.persona, r.workload).prePatch.None?
  {
  }

  lemma SnapshotIsOnlySpec(persona: Option<Fields>, patch: Fields)
    ensures OnlySpec(Snapshot(persona, patch))
  {
  }

  lemma RefusedIsOnlySpec(e: Env, s: Step, w: Workload)
    requires LawfulEnv(e) && OnlySpec(s.prePatch)
    ensures OnlySpec(RefuseStep(e, s, w).prePatch)
  {
    if RefuseStep(e, s, w) != s {
      var base := Baseline(e, s, w).value;
      var fields := e.order(Breaches(e, s.patch.value, base));
      RefusedShape(e, s, w, base, fields);
      PrunedIsOnlySpec(s.prePatch, fields);
    }
  }

  lemma InstalledIsOnlySpec(e: Env, r: Request)
    requires LawfulEnv(e) && Installs(e, r)
    requires OnlySpec(AfterSafety(e, r)[DerivedStepIndex(AfterSafety(e, r)).value].prePatch)
    ensures OnlySpec(Installed(e, r).prePatch)
  {
    SizedShape(e.q, r.diagnosis, r.persona, r.workload);
  }

  lemma BeforeScrubsIsOnlySpec(e: Env, r: Request)
    requires LawfulEnv(e) && EnsuredSteps(e, r).Some?
    ensures forall s | s in BeforeScrubs(e, r).steps :: OnlySpec(s.prePatch)
  {
    forall i | 0 <= i < |AfterSafety(e, r)| ensures OnlySpec(AfterSafety(e, r)[i].prePatch) {
      SafeStep(e, r, i);
      MappedIsOnlySpec(e, r, r.planned[i]);
      RefusedIsOnlySpec(e, MapStep(e, r.planned[i], r.persona, r.workload), r.workload);
    }
    if Installs(e, r) { InstalledIsOnlySpec(e, r); }
    ReachesScrubs(e, r, (s: Step) => OnlySpec(s.prePatch));
  }

  /** The rollback state of every created Action is a document the executor merges. */
  lemma CreatedIsOnlySpec(e: Env, r: Request)
    requires LawfulEnv(e) && Built(e, r).Created? && Built(e, r).contents.detail.patch.Some?
    ensures OnlySpec(Built(e, r).contents.detail.prePatch)
  {
    CreatedDetail(e, r);
    BeforeScrubsIsOnlySpec(e, r);
    var step := BeforeScrubsAction(e, r);
  }

  // ---------------------------------------------------------------------------
  // The created Action
  // ---------------------------------------------------------------------------

  /** The scrub prunes patches only, and no resource of a created plan. */
  lemma ScrubbedUndoes(e: Env, r: Request, s: Step, refused: seq<Redaction.RefusedValue>)
    requires ForPersona(r) && UndoneStep(r, s) && s.patch.Some? && Spares(e, s.patch.value, refused)
    ensures Undoes(Value(WithoutRefused(e, s.patch, refused)), Document(r.persona.value), Value(s.prePatch))
  {
    var paths := RefusedPaths(e, s.patch.value, refused);
    RefusedPathsAreHeld(e, s.patch.value, refused);
    PrunedValueIs(s.patch, paths);
    DeletedAllNeedsLess(s.patch.value, Document(r.persona.value), Value(s.prePatch), paths);
    forall q | LeafAt(s.patch.value, q).Some? && IsResourcePath(q)
      ensures LeafAt(Value(WithoutRefused(e, s.patch, refused)), q).Some?
    {
      PrunedLeaves(s.patch.value, paths, q);
    }
  }

  /** Main result: the rollback state of every created Action undoes its patch on
      the persona the plan was made for, whether it is the persona's own record or
      the live value stored for a limit the persona does not record. */
  lemma CreatedActionUndoes(e: Env, r: Request)
    requires LawfulEnv(e) && ForPersona(r) && Built(e, r).Created? && Built(e, r).contents.detail.patch.Some?
    ensures var d := Built(e, r).contents.detail;
      Undoes(d.patch.value, Document(r.persona.value), Value(d.prePatch))
  {
    CreatedDetail(e, r);
    CreatedIsNotRefused(e, r);
    BeforeScrubsIsUndone(e, r);
    var step := BeforeScrubsAction(e, r);
    ScrubSparesResources(e, r, step);
    ScrubbedUndoes(e, r, step, RefusedValues(e, BeforeScrubs(e, r).steps));
  }

  /** So merging the Action's patch and then its rollback state gives back every
      value the persona had, and what remains beyond them the patch introduced. */
  lemma CreatedActionRestores(e: Env, r: Request)
    requires LawfulEnv(e) && ForPersona(r) && Built(e, r).Created? && Built(e, r).contents.detail.patch.Some?
    ensures var d, origin := Built(e, r).contents.detail, Document(r.persona.value);
      Restored(Merged(Merged(origin, d.patch.value), Value(d.prePatch)), d.patch.value, origin)
  {
    CreatedActionUndoes(e, r);
    ActionRestores(Built(e, r).contents.detail, r.persona.value);
  }

  lemma ActionRestores(d: Detail, persona: Fields)
    requires TypedPersona(persona) && d.patch.Some? && Undoes(d.patch.value, Document(persona), Value(d.prePatch))
    ensures Restored(Merged(Merged(Document(persona), d.patch.value), Value(d.prePatch)),
                     d.patch.value, Document(persona))
  {
    UndoRestores(d.patch.value, Document(persona), Value(d.prePatch));
  }
}
