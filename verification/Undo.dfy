/** When a stored rollback state undoes a patch: the snapshot mirrorExistingPaths
    takes, what pruning and the derived patch make of it, and any number of
    applications and rollbacks in between. */
module Undo {
  import opened Json
  import opened Merge
  import opened Prune

  /** The object under a key, or an empty one. */
  function SubObject(f: Fields, k: string): (sub: Fields)
    ensures k in f && f[k].Obj? ==> sub == f[k].fields
  {
    if k in f && f[k].Obj? then f[k].fields else map[]
  }

  /** Where the rollback state and the original share a key, it holds the
      original's value or a part of it. */
  ghost predicate Faithful(undo: Fields, origin: Fields)
    decreases Obj(undo)
  {
    forall k | k in undo && k in origin ::
      undo[k] == origin[k] || (undo[k].Obj? && origin[k].Obj? && Faithful(undo[k].fields, origin[k].fields))
  }

  /** Every value of the original that the patch replaces or deletes is in the
      rollback state. */
  ghost predicate Covers(patch: Fields, origin: Fields, undo: Fields)
    decreases Obj(patch)
  {
    forall k | k in patch && k in origin ::
      if patch[k].Obj? && origin[k].Obj? then Covers(patch[k].fields, origin[k].fields, SubObject(undo, k))
      else k in undo && undo[k] == origin[k]
  }

  /** Merging the rollback state gives the original's values back. */
  ghost predicate Recoverable(now: Fields, origin: Fields, undo: Fields)
    decreases Obj(origin)
  {
    forall k | k in origin ::
      || (k in undo && undo[k] == origin[k])
      || (k in now && now[k] == origin[k] && k !in undo)
      || (k in now && now[k].Obj? && origin[k].Obj? &&
          Recoverable(now[k].fields, origin[k].fields, SubObject(undo, k)))
  }

  // ---------------------------------------------------------------------------
  // Runs of applications and rollbacks
  // ---------------------------------------------------------------------------

  lemma {:induction false} FaithfulToItself(origin: Fields)
    ensures Faithful(origin, origin)
  {
  }

  lemma {:induction false} OriginIsRecoverable(origin: Fields, undo: Fields)
    requires Faithful(undo, origin)
    ensures Recoverable(origin, origin, undo)
    decreases Obj(origin)
  {
    forall k | k in origin && k in undo && undo[k] != origin[k]
      ensures origin[k].Obj? && Recoverable(origin[k].fields, origin[k].fields, SubObject(undo, k))
    {
      OriginIsRecoverable(origin[k].fields, undo[k].fields);
    }
  }

  lemma {:induction false} ApplyKeepsRecoverable(now: Fields, origin: Fields, patch: Fields, undo: Fields)
    requires Recoverable(now, origin, undo) && Covers(patch, origin, undo)
    ensures Recoverable(Merged(now, patch), origin, undo)
    decreases Obj(patch)
  {
    forall k | k in origin && !(k in undo && undo[k] == origin[k]) && k in patch
      ensures k in Merged(now, patch) && Merged(now, patch)[k].Obj? && origin[k].Obj?
      ensures Recoverable(Merged(now, patch)[k].fields, origin[k].fields, SubObject(undo, k))
    {
      if now[k] == origin[k] && k !in undo {
        OriginIsRecoverable(origin[k].fields, map[]);
      }
      ApplyKeepsRecoverable(now[k].fields, origin[k].fields, patch[k].fields, SubObject(undo, k));
    }
  }

  lemma {:induction false} RollbackKeepsRecoverable(now: Fields, origin: Fields, undo: Fields)
    requires Recoverable(now, origin, undo) && Faithful(undo, origin)
    ensures Recoverable(Merged(now, undo), origin, undo)
    decreases Obj(undo)
  {
    forall k | k in origin && k in undo && undo[k] != origin[k]
      ensures k in Merged(now, undo) && Merged(now, undo)[k].Obj? && origin[k].Obj?
      ensures Recoverable(Merged(now, undo)[k].fields, origin[k].fields, SubObject(undo, k))
    {
      RollbackKeepsRecoverable(now[k].fields, origin[k].fields, undo[k].fields);
    }
  }

  lemma {:induction false} LeafIsNotNull(f: Fields, p: Path)
    requires NullFree(f) && LeafAt(f, p).Some?
    ensures !LeafAt(f, p).value.Null?
    decreases |p|
  {
    if |p| > 1 { LeafIsNotNull(f[p[0]].fields, p[1..]); }
  }

  lemma MergingNothing(f: Fields)
    ensures Merged(f, map[]) == f
  {
  }

  /** Whatever was recoverable is back after a rollback, leaf by leaf. */
  lemma {:induction false} RollbackRecovers(now: Fields, origin: Fields, undo: Fields, p: Path)
    requires Recoverable(now, origin, undo) && Faithful(undo, origin) && NullFree(origin)
    requires LeafAt(origin, p).Some?
    ensures LeafAt(Merged(now, undo), p) == LeafAt(origin, p)
    decreases |p|
  {
    var k := p[0];
    if k in undo && undo[k] == origin[k] {
      RestoredKey(now, origin, undo, p);
    } else if k in now && now[k] == origin[k] && k !in undo {
    } else {
      RollbackRecovers(now[k].fields, origin[k].fields, SubObject(undo, k), p[1..]);
      if k !in undo { MergingNothing(now[k].fields); }
    }
  }

  lemma RestoredKey(now: Fields, origin: Fields, undo: Fields, p: Path)
    requires NullFree(origin) && LeafAt(origin, p).Some? && p[0] in undo && undo[p[0]] == origin[p[0]]
    ensures LeafAt(Merged(now, undo), p) == LeafAt(origin, p)
  {
    LeafIsNotNull(origin, p);
    assert LeafAt(undo, p) == LeafAt(origin, p);
    OverlayLeavesWin(now, undo, p);
  }

  // ---------------------------------------------------------------------------
  // Where rollback states come from
  // ---------------------------------------------------------------------------

  lemma {:induction false} MirroredUndoes(patch: Fields, origin: Fields)
    ensures Covers(patch, origin, Mirrored(patch, origin))
    ensures Faithful(Mirrored(patch, origin), origin)
    decreases Obj(patch)
  {
    forall k | k in patch && k in origin && patch[k].Obj? && origin[k].Obj?
      ensures Covers(patch[k].fields, origin[k].fields, SubObject(Mirrored(patch, origin), k))
      ensures Faithful(Mirrored(patch[k].fields, origin[k].fields), origin[k].fields)
    {
      MirroredUndoes(patch[k].fields, origin[k].fields);
    }
  }

  lemma {:induction false} MirroredIsFromOrigin(patch: Fields, origin: Fields, q: Path)
    requires LeafAt(Mirrored(patch, origin), q).Some?
    ensures LeafAt(Mirrored(patch, origin), q) == LeafAt(origin, q)
    decreases |q|
  {
    var k := q[0];
    if patch[k].Obj? && origin[k].Obj? {
      MirroredIsFromOrigin(patch[k].fields, origin[k].fields, q[1..]);
    }
  }

  /** A path on which the patch has objects only, up to its end. */
  predicate Walkable(patch: Fields, q: Path)
    decreases q
  {
    |q| <= 1 || q[0] !in patch || (patch[q[0]].Obj? && Walkable(patch[q[0]].fields, q[1..]))
  }

  lemma {:induction false} LeafIsWalkable(patch: Fields, q: Path)
    requires LeafAt(patch, q).Some?
    ensures Walkable(patch, q)
    decreases |q|
  {
    if |q| > 1 { LeafIsWalkable(patch[q[0]].fields, q[1..]); }
  }

  lemma {:induction false} DeletedIsWalkable(patch: Fields, p: Path, q: Path)
    requires p != [] && Walkable(patch, q)
    ensures Walkable(Deleted(patch, p), q)
    decreases |q|
  {
    if |q| > 1 && |p| > 1 && p[0] == q[0] && q[0] in patch {
      DeletedIsWalkable(patch[q[0]].fields, p[1..], q[1..]);
    }
  }

  lemma {:induction false} DeletedIsFaithful(undo: Fields, origin: Fields, q: Path)
    requires q != [] && Faithful(undo, origin)
    ensures Faithful(Deleted(undo, q), origin)
    decreases |q|
  {
    var k := q[0];
    if |q| > 1 && k in undo && undo[k].Obj? && k in origin {
      if undo[k] == origin[k] { FaithfulToItself(undo[k].fields); }
      DeletedIsFaithful(undo[k].fields, origin[k].fields, q[1..]);
    }
  }

  /** Pruning patch and rollback state alike keeps them together. */
  lemma {:induction false} DeletedUndoes(patch: Fields, origin: Fields, undo: Fields, q: Path)
    requires q != [] && Walkable(patch, q) && Covers(patch, origin, undo)
    ensures Covers(Deleted(patch, q), origin, Deleted(undo, q))
    decreases |q|
  {
    var k := q[0];
    if |q| > 1 && k in patch && k in origin && origin[k].Obj? {
      DeletedUndoes(patch[k].fields, origin[k].fields, SubObject(undo, k), q[1..]);
      if k !in undo || !undo[k].Obj? { NothingDeleted(q[1..]); }
    }
  }

  lemma NothingDeleted(q: Path)
    requires q != []
    ensures Deleted(map[], q) == map[]
  {
  }

  /** Pruning the patch alone leaves less to undo. */
  lemma {:induction false} DeletedNeedsLess(patch: Fields, origin: Fields, undo: Fields, q: Path)
    requires q != [] && Covers(patch, origin, undo)
    ensures Covers(Deleted(patch, q), origin, undo)
    decreases |q|
  {
    var k := q[0];
    if |q| > 1 && k in patch && patch[k].Obj? && k in origin && origin[k].Obj? {
      DeletedNeedsLess(patch[k].fields, origin[k].fields, SubObject(undo, k), q[1..]);
    }
  }

  lemma {:induction false} DeletedAllUndoes(patch: Fields, origin: Fields, undo: Fields, paths: seq<Path>)
    requires [] !in paths && forall q | q in paths :: Walkable(patch, q)
    requires Covers(patch, origin, undo) && Faithful(undo, origin)
    ensures Covers(DeletedAll(patch, paths), origin, DeletedAll(undo, paths))
    ensures Faithful(DeletedAll(undo, paths), origin)
    decreases |paths|
  {
    if paths != [] {
      var q := paths[0];
      assert q in paths && forall p | p in paths[1..] :: p in paths;
      DeletedUndoes(patch, origin, undo, q);
      DeletedIsFaithful(undo, origin, q);
      forall p | p in paths[1..] ensures Walkable(Deleted(patch, q), p) { DeletedIsWalkable(patch, q, p); }
      DeletedAllUndoes(Deleted(patch, q), origin, Deleted(undo, q), paths[1..]);
    }
  }

  lemma {:induction false} DeletedAllNeedsLess(patch: Fields, origin: Fields, undo: Fields, paths: seq<Path>)
    requires [] !in paths && Covers(patch, origin, undo)
    ensures Covers(DeletedAll(patch, paths), origin, undo)
    decreases |paths|
  {
    if paths != [] {
      assert paths[0] in paths && forall p | p in paths[1..] :: p in paths;
      DeletedNeedsLess(patch, origin, undo, paths[0]);
      DeletedAllNeedsLess(Deleted(patch, paths[0]), origin, undo, paths[1..]);
    }
  }

  // ---------------------------------------------------------------------------
  // The derived patch
  // ---------------------------------------------------------------------------

  /** The original has this text at the path, or nothing on the way to it. */
  predicate RecordsAt(origin: Fields, path: Path, value: string)
    requires path != []
    decreases path
  {
    path[0] in origin ==>
      if |path| == 1 then origin[path[0]] == Str(value)
      else origin[path[0]].Obj? && RecordsAt(origin[path[0]].fields, path[1..], value)
  }

  /** Merging a nested value writes it at its path. */
  lemma {:induction false} MergedNested(f: Fields, path: Path, value: string)
    requires path != []
    ensures Merged(f, Nested(path, value)) == WithPath(f, path, value)
    decreases |path|
  {
    var k, n := path[0], Nested(path, value);
    if |path| > 1 {
      MergedNested(SubObject(f, k), path[1..], value);
      assert n == map[k := Obj(Nested(path[1..], value))];
      if !(k in f && f[k].Obj?) { MergedNested(map[], path[1..], value); }
    }
  }

  /** The derived patch stays undone by the derived rollback value: what the
      original records there, or any value if it records nothing. */
  lemma {:induction false} DerivedUndoes(
    patch: Fields, origin: Fields, undo: Fields, path: Path, value: string, recorded: string)
    requires path != [] && RecordsAt(origin, path, recorded)
    requires Covers(patch, origin, undo) && Faithful(undo, origin)
    ensures Covers(WithPath(patch, path, value), origin, WithPath(undo, path, recorded))
    ensures Faithful(WithPath(undo, path, recorded), origin)
    decreases |path|
  {
    var k := path[0];
    if |path| > 1 && k in origin {
      if k in undo && undo[k] == origin[k] { FaithfulToItself(origin[k].fields); }
      DerivedUndoes(SubObject(patch, k), origin[k].fields, SubObject(undo, k), path[1..], value, recorded);
    }
  }

  // ---------------------------------------------------------------------------
  // Nulls and leaves of a rollback state
  // ---------------------------------------------------------------------------

  lemma {:induction false} DeletedIsNullFree(f: Fields, q: Path)
    requires q != [] && NullFree(f)
    ensures NullFree(Deleted(f, q))
    decreases |q|
  {
    if |q| > 1 && q[0] in f && f[q[0]].Obj? { DeletedIsNullFree(f[q[0]].fields, q[1..]); }
  }

  lemma {:induction false} DeletedAllIsNullFree(f: Fields, paths: seq<Path>)
    requires [] !in paths && NullFree(f)
    ensures NullFree(DeletedAll(f, paths))
    decreases |paths|
  {
    if paths != [] {
      assert paths[0] in paths && forall p | p in paths[1..] :: p in paths;
      DeletedIsNullFree(f, paths[0]);
      DeletedAllIsNullFree(Deleted(f, paths[0]), paths[1..]);
    }
  }

  lemma {:induction false} WithPathIsNullFree(f: Fields, path: Path, value: string)
    requires path != [] && NullFree(f)
    ensures NullFree(WithPath(f, path, value))
    decreases |path|
  {
    if |path| > 1 { WithPathIsNullFree(SubObject(f, path[0]), path[1..], value); }
  }

  /** What a rollback state holds beyond the original, the patch sets too. */
  ghost predicate StraysOnlyWhere(patch: Fields, origin: Fields, undo: Fields)
  {
    forall q | LeafAt(undo, q).Some? && LeafAt(undo, q) != LeafAt(origin, q) :: LeafAt(patch, q).Some?
  }

  /** The rollback state undoes the patch on the original. */
  ghost predicate Undoes(patch: Fields, origin: Fields, undo: Fields)
  {
    Covers(patch, origin, undo) && Faithful(undo, origin) && NullFree(undo) && StraysOnlyWhere(patch, origin, undo)
  }

  /** Nothing of the original is missing, and what there is beyond it the patch
      introduced. */
  ghost predicate Restored(end: Fields, patch: Fields, origin: Fields)
  {
    && (forall p | LeafAt(origin, p).Some? :: LeafAt(end, p) == LeafAt(origin, p))
    && (forall q | LeafAt(end, q).Some? && LeafAt(origin, q).None? :: LeafAt(patch, q).Some?)
  }

  /** Every leaf is the original's, the patch's or the rollback state's. */
  ghost predicate FromThese(now: Fields, patch: Fields, origin: Fields, undo: Fields)
  {
    forall q | LeafAt(now, q).Some? ::
      LeafAt(now, q) == LeafAt(origin, q) || LeafAt(now, q) == LeafAt(patch, q) || LeafAt(now, q) == LeafAt(undo, q)
  }

  lemma MergeKeepsSources(now: Fields, overlay: Fields, patch: Fields, origin: Fields, undo: Fields)
    requires FromThese(now, patch, origin, undo) && (overlay == patch || overlay == undo)
    ensures FromThese(Merged(now, overlay), patch, origin, undo)
  {
    forall q | LeafAt(Merged(now, overlay), q).Some?
      ensures LeafAt(Merged(now, overlay), q) == LeafAt(overlay, q) || LeafAt(Merged(now, overlay), q) == LeafAt(now, q)
    {
      MergedLeafHasASource(now, overlay, q);
    }
  }

  /** A rollback of anything recoverable restores the original. */
  lemma RollbackRestoresAll(now: Fields, patch: Fields, origin: Fields, undo: Fields)
    requires Undoes(patch, origin, undo) && NullFree(origin)
    requires Recoverable(now, origin, undo) && FromThese(now, patch, origin, undo)
    ensures Restored(Merged(now, undo), patch, origin)
  {
    MergeKeepsSources(now, undo, patch, origin, undo);
    forall p | LeafAt(origin, p).Some? ensures LeafAt(Merged(now, undo), p) == LeafAt(origin, p) {
      RollbackRecovers(now, origin, undo, p);
    }
  }

  /** Apply, then roll back. */
  lemma UndoRestores(patch: Fields, origin: Fields, undo: Fields)
    requires Undoes(patch, origin, undo) && NullFree(origin)
    ensures Restored(Merged(Merged(origin, patch), undo), patch, origin)
  {
    OriginIsRecoverable(origin, undo);
    ApplyKeepsRecoverable(origin, origin, patch, undo);
    MergeKeepsSources(origin, patch, patch, origin, undo);
    RollbackRestoresAll(Merged(origin, patch), patch, origin, undo);
  }

  /** The same of one key of the documents. */
  lemma UndoesBelow(patch: Fields, origin: Fields, undo: Fields, k: string)
    requires Undoes(patch, origin, undo) && k in origin && origin[k].Obj?
    ensures Undoes(SubObject(patch, k), origin[k].fields, SubObject(undo, k))
  {
    if k in undo && undo[k] == origin[k] { FaithfulToItself(origin[k].fields); }
    forall q | LeafAt(SubObject(undo, k), q).Some? && LeafAt(SubObject(undo, k), q) != LeafAt(origin[k].fields, q)
      ensures LeafAt(SubObject(patch, k), q).Some?
    {
      BelowKey(undo, k, q);
      BelowKey(origin, k, q);
      BelowKey(patch, k, q);
      assert LeafAt(patch, [k] + q).Some?;
    }
  }

  lemma BelowKey(f: Fields, k: string, q: Path)
    requires q != []
    ensures LeafAt(f, [k] + q) == LeafAt(SubObject(f, k), q)
  {
    assert ([k] + q)[1..] == q;
  }
}
