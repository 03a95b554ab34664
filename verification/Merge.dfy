/** The executor's JSON merge patch (internal/remediation/executor.go), its
    relation to section 2 of RFC 7396, and what an apply followed by a rollback
    leaves behind (internal/remediation/proposer_ai.go, rollback.go). */
module Merge {
  import opened Json

  /** What mergeMaps leaves in its result, key by key. */
  function Merged(target: Fields, patch: Fields): Fields
    decreases Obj(patch)
  {
    map k | k in target.Keys + patch.Keys && !(k in patch && patch[k].Null?) ::
      if k !in patch then target[k]
      else if patch[k].Obj? && k in target && target[k].Obj? then
        Obj(Merged(target[k].fields, patch[k].fields))
      else patch[k]
  }

  /** mergeMaps itself: copy the target, then visit the patch's keys in whatever
      order the map iteration gives them. */
  method MergeMaps(target: Fields, patch: Fields) returns (result: Fields)
    ensures result == Merged(target, patch)
    decreases Obj(patch)
  {
    result := target;
    var todo := patch.Keys;
    while todo != {}
      invariant todo <= patch.Keys
      invariant forall k | k in todo || k !in patch ::
        (k in result <==> k in target) && (k in target ==> result[k] == target[k])
      invariant forall k | k in patch && k !in todo ::
        (k in result <==> k in Merged(target, patch)) && (k in result ==> result[k] == Merged(target, patch)[k])
      decreases todo
    {
      var k :| k in todo;
      todo := todo - {k};
      if patch[k].Null? {
        result := result - {k};
      } else if !patch[k].Obj? || k !in result || !result[k].Obj? {
        result := result[k := patch[k]];
      } else {
        var merged := MergeMaps(result[k].fields, patch[k].fields);
        result := result[k := Obj(merged)];
      }
    }
    assert result.Keys == Merged(target, patch).Keys;
  }

  // ---------------------------------------------------------------------------
  // RFC 7396
  // ---------------------------------------------------------------------------

  /** MergePatch of section 2 of RFC 7396; `None` is an undefined target. */
  function RfcMergePatch(target: Option<Json>, patch: Json): Json
    decreases patch
  {
    if !patch.Obj? then patch
    else
      var base := if target.Some? && target.value.Obj? then target.value.fields else map[];
      Obj(map k | k in base.Keys + patch.fields.Keys && !(k in patch.fields && patch.fields[k].Null?) ::
            if k !in patch.fields then base[k]
            else RfcMergePatch(if k in base then Some(base[k]) else None, patch.fields[k]))
  }

  /** Every patch object that lands where the target holds no object carries no
      null, so storing it unread and merging it into {} are the same thing. */
  ghost predicate CleanLanding(target: Fields, patch: Fields)
    decreases Obj(patch)
  {
    forall k | k in patch && patch[k].Obj? ::
      if k in target && target[k].Obj? then CleanLanding(target[k].fields, patch[k].fields)
      else NullFree(patch[k].fields)
  }

  lemma {:induction false} RfcKeepsExactlyNullFree(target: Option<Json>, patch: Fields)
    requires !(target.Some? && target.value.Obj?)
    ensures RfcMergePatch(target, Obj(patch)) == Obj(patch) <==> NullFree(patch)
    decreases Obj(patch)
  {
    var r := RfcMergePatch(target, Obj(patch)).fields;
    forall k | k in patch && patch[k].Obj?
      ensures RfcMergePatch(None, patch[k]) == patch[k] <==> NullFree(patch[k].fields)
    {
      RfcKeepsExactlyNullFree(None, patch[k].fields);
    }
    if NullFree(patch) {
      forall k | k in patch ensures k in r && r[k] == patch[k] {
        assert !patch[k].Obj? ==> RfcMergePatch(None, patch[k]) == patch[k];
      }
      assert r == patch;
    } else {
      var k :| k in patch && (patch[k].Null? || (patch[k].Obj? && !NullFree(patch[k].fields)));
      assert k !in r || r[k] != patch[k];
    }
  }

  /** mergeMaps computes the RFC's result exactly on clean landings. */
  lemma {:induction false} MergeIsRfc7396(target: Fields, patch: Fields)
    ensures RfcMergePatch(Some(Obj(target)), Obj(patch)) == Obj(Merged(target, patch)) <==> CleanLanding(target, patch)
    decreases Obj(patch)
  {
    var r := RfcMergePatch(Some(Obj(target)), Obj(patch)).fields;
    var m := Merged(target, patch);
    forall k | k in patch && patch[k].Obj?
      ensures k in r && k in m
      ensures r[k] == m[k] <==>
              if k in target && target[k].Obj? then CleanLanding(target[k].fields, patch[k].fields)
              else NullFree(patch[k].fields)
    {
      if k in target && target[k].Obj? {
        MergeIsRfc7396(target[k].fields, patch[k].fields);
      } else {
        RfcKeepsExactlyNullFree(if k in target then Some(target[k]) else None, patch[k].fields);
      }
    }
    assert r.Keys == m.Keys;
    if CleanLanding(target, patch) {
      forall k | k in r ensures r[k] == m[k] {
        if k in patch && !patch[k].Obj? {
          assert RfcMergePatch(if k in target then Some(target[k]) else None, patch[k]) == patch[k];
        }
      }
      assert r == m;
    } else {
      var k :| k in patch && patch[k].Obj? &&
        !(if k in target && target[k].Obj? then CleanLanding(target[k].fields, patch[k].fields)
          else NullFree(patch[k].fields));
      assert r[k] != m[k];
    }
  }

  // ---------------------------------------------------------------------------
  // Applying twice
  // ---------------------------------------------------------------------------

  /** An unclean landing: a null that lands on nothing is stored, where the RFC
      drops it, and applying the patch again removes it. */
  lemma UncleanLanding()
    ensures var patch: Fields := map["a" := Obj(map["b" := Null])];
      && Obj(Merged(map[], patch)) != RfcMergePatch(Some(Obj(map[])), Obj(patch))
      && Merged(Merged(map[], patch), patch) != Merged(map[], patch)
  {
    var patch: Fields := map["a" := Obj(map["b" := Null])];
    assert !NullFree(map["b" := Null]) by { assert "b" in map["b" := Null]; }
    assert !CleanLanding(map[], patch) by { assert "a" in patch; }
    MergeIsRfc7396(map[], patch);
    ReapplyIsIdempotent(map[], patch);
  }

  lemma {:induction false} SelfMergeKeepsExactlyNullFree(f: Fields)
    ensures Merged(f, f) == f <==> NullFree(f)
    decreases Obj(f)
  {
    var m := Merged(f, f);
    forall k | k in f && f[k].Obj?
      ensures Merged(f[k].fields, f[k].fields) == f[k].fields <==> NullFree(f[k].fields)
    {
      SelfMergeKeepsExactlyNullFree(f[k].fields);
    }
    if NullFree(f) {
      assert m == f;
    } else {
      var k :| k in f && (f[k].Null? || (f[k].Obj? && !NullFree(f[k].fields)));
      assert k !in m || m[k] != f[k];
    }
  }

  /** An apply retried after a lost status write changes nothing, exactly on
      clean landings. */
  lemma {:induction false} ReapplyIsIdempotent(target: Fields, patch: Fields)
    ensures Merged(Merged(target, patch), patch) == Merged(target, patch) <==> CleanLanding(target, patch)
    decreases Obj(patch)
  {
    var once := Merged(target, patch);
    var twice := Merged(once, patch);
    forall k | k in patch && patch[k].Obj?
      ensures k in once && k in twice
      ensures twice[k] == once[k] <==>
              if k in target && target[k].Obj? then CleanLanding(target[k].fields, patch[k].fields)
              else NullFree(patch[k].fields)
    {
      if k in target && target[k].Obj? {
        ReapplyIsIdempotent(target[k].fields, patch[k].fields);
      } else {
        SelfMergeKeepsExactlyNullFree(patch[k].fields);
      }
    }
    assert once.Keys == twice.Keys;
    if CleanLanding(target, patch) {
      assert twice == once;
    } else {
      var k :| k in patch && patch[k].Obj? &&
        !(if k in target && target[k].Obj? then CleanLanding(target[k].fields, patch[k].fields)
          else NullFree(patch[k].fields));
      assert twice[k] != once[k];
    }
  }

  lemma NullFreeLandsCleanly(target: Fields, patch: Fields)
    requires NullFree(patch)
    ensures CleanLanding(target, patch)
    decreases Obj(patch)
  {
    forall k | k in patch && patch[k].Obj? && k in target && target[k].Obj?
      ensures CleanLanding(target[k].fields, patch[k].fields)
    {
      NullFreeLandsCleanly(target[k].fields, patch[k].fields);
    }
  }

  // ---------------------------------------------------------------------------
  // Merging two patches into one (mergePatches)
  // ---------------------------------------------------------------------------

  /** No null in the overlay, and no overlay object on a base value that is not
      one, wherever both patches hold an object all the way down. */
  ghost predicate Composable(base: Fields, overlay: Fields)
    decreases Obj(overlay)
  {
    forall k | k in overlay ::
      && !overlay[k].Null?
      && (overlay[k].Obj? && k in base ==> base[k].Obj? && Composable(base[k].fields, overlay[k].fields))
  }

  lemma ComposableKeys(target: Fields, base: Fields, overlay: Fields)
    requires Composable(base, overlay)
    ensures Merged(Merged(target, base), overlay).Keys == Merged(target, Merged(base, overlay)).Keys
  {
  }

  lemma {:induction false} ComposableApplies(target: Fields, base: Fields, overlay: Fields)
    requires Composable(base, overlay)
    ensures Merged(Merged(target, base), overlay) == Merged(target, Merged(base, overlay))
    decreases Obj(overlay)
  {
    ComposableKeys(target, base, overlay);
    forall k | k in Merged(Merged(target, base), overlay)
      ensures Merged(Merged(target, base), overlay)[k] == Merged(target, Merged(base, overlay))[k]
    {
      if k in overlay && overlay[k].Obj? && k in base && k in target && target[k].Obj? {
        ComposableApplies(target[k].fields, base[k].fields, overlay[k].fields);
      }
    }
  }

  /** A key not in a map: one longer than all its keys would do; any will. */
  lemma {:induction false} FreshKey(keys: set<string>) returns (k: string)
    ensures k !in keys
    decreases |keys|
  {
    var longest := "";
    var todo := keys;
    while todo != {}
      invariant todo <= keys
      invariant forall x | x in keys && x !in todo :: |x| <= |longest|
      decreases todo
    {
      var x :| x in todo;
      if |x| > |longest| { longest := x; }
      todo := todo - {x};
    }
    k := longest + "x";
  }

  /** A target that tells the two orders apart when the patches do not compose. */
  lemma {:induction false} NotComposableWitness(base: Fields, overlay: Fields) returns (target: Fields)
    requires !Composable(base, overlay)
    ensures Merged(Merged(target, base), overlay) != Merged(target, Merged(base, overlay))
    decreases Obj(overlay)
  {
    var k :| k in overlay &&
      !(&& !overlay[k].Null?
        && (overlay[k].Obj? && k in base ==> base[k].Obj? && Composable(base[k].fields, overlay[k].fields)));
    if overlay[k].Null? {
      target := map[k := Atom(0)];
      assert k !in Merged(Merged(target, base), overlay);
      assert k !in Merged(base, overlay);
      assert k in Merged(target, Merged(base, overlay));
    } else if !base[k].Obj? {
      var extra := FreshKey(overlay[k].fields.Keys);
      target := map[k := Obj(map[extra := Atom(0)])];
      assert Merged(Merged(target, base), overlay)[k] == overlay[k];
      assert Merged(base, overlay)[k] == overlay[k];
      assert extra in Merged(target, Merged(base, overlay))[k].fields;
    } else {
      var inner := NotComposableWitness(base[k].fields, overlay[k].fields);
      target := map[k := Obj(inner)];
      assert Merged(Merged(target, base), overlay)[k] == Obj(Merged(Merged(inner, base[k].fields), overlay[k].fields));
      assert Merged(target, Merged(base, overlay))[k] == Obj(Merged(inner, Merged(base[k].fields, overlay[k].fields)));
    }
  }

  /** One merged patch means "base, then overlay" on every target, exactly when
      the two patches compose. */
  lemma MergedPatchesCompose(base: Fields, overlay: Fields)
    ensures (forall target: Fields ::
               Merged(Merged(target, base), overlay) == Merged(target, Merged(base, overlay)))
            <==> Composable(base, overlay)
  {
    if Composable(base, overlay) {
      forall target: Fields
        ensures Merged(Merged(target, base), overlay) == Merged(target, Merged(base, overlay))
      {
        ComposableApplies(target, base, overlay);
      }
    } else {
      var target := NotComposableWitness(base, overlay);
    }
  }

  /** Merging invents no leaf: each one is a leaf of one of the two documents. */
  lemma {:induction false} MergedLeafHasASource(base: Fields, overlay: Fields, p: Path)
    requires LeafAt(Merged(base, overlay), p).Some?
    ensures LeafAt(Merged(base, overlay), p) == LeafAt(overlay, p) ||
            LeafAt(Merged(base, overlay), p) == LeafAt(base, p)
    decreases |p|
  {
    var k := p[0];
    if k in overlay && overlay[k].Obj? && k in base && base[k].Obj? && |p| > 1 {
      MergedLeafHasASource(base[k].fields, overlay[k].fields, p[1..]);
    }
  }

  /** The overlay's non-null leaves all arrive. */
  lemma {:induction false} OverlayLeavesWin(base: Fields, overlay: Fields, p: Path)
    requires LeafAt(overlay, p).Some? && !LeafAt(overlay, p).value.Null?
    ensures LeafAt(Merged(base, overlay), p) == LeafAt(overlay, p)
    decreases |p|
  {
    var k := p[0];
    if overlay[k].Obj? && k in base && base[k].Obj? {
      OverlayLeavesWin(base[k].fields, overlay[k].fields, p[1..]);
    }
  }

  // ---------------------------------------------------------------------------
  // Snapshot and rollback
  // ---------------------------------------------------------------------------

  /** What mirrorExistingPaths records: the current values the patch touches. */
  function Mirrored(patch: Fields, current: Fields): Fields
    decreases Obj(patch)
  {
    map k | k in patch && k in current &&
            !(patch[k].Obj? && current[k].Obj? && Mirrored(patch[k].fields, current[k].fields) == map[]) ::
      if patch[k].Obj? && current[k].Obj? then Obj(Mirrored(patch[k].fields, current[k].fields))
      else current[k]
  }

  /** mirrorExistingPaths as written: fill a map in a loop over the patch. */
  method MirrorExistingPaths(patch: Fields, current: Fields) returns (out: Fields)
    ensures out == Mirrored(patch, current)
    decreases Obj(patch)
  {
    out := map[];
    var todo := patch.Keys;
    while todo != {}
      invariant todo <= patch.Keys
      invariant forall k :: k in out <==> k in Mirrored(patch, current) && k !in todo
      invariant forall k | k in out :: out[k] == Mirrored(patch, current)[k]
      decreases todo
    {
      var k :| k in todo;
      todo := todo - {k};
      if k !in current { continue; }
      if patch[k].Obj? && current[k].Obj? {
        var child := MirrorExistingPaths(patch[k].fields, current[k].fields);
        if |child| > 0 {
          out := out[k := Obj(child)];
        }
        continue;
      }
      out := out[k := current[k]];
    }
    assert out.Keys == Mirrored(patch, current).Keys;
  }

  /** The part of a patch that lands on keys the document did not have. */
  function Introduced(current: Fields, patch: Fields): Fields
    decreases Obj(patch)
  {
    map k | k in patch && !patch[k].Null? &&
            (k in current ==>
              patch[k].Obj? && current[k].Obj? && Introduced(current[k].fields, patch[k].fields) != map[]) ::
      if k in current then Obj(Introduced(current[k].fields, patch[k].fields)) else patch[k]
  }

  /** Apply, then roll back: the original document with the introduced keys left
      over and nothing else, whatever the patch deleted or reshaped. */
  lemma {:induction false} RollbackRestores(current: Fields, patch: Fields)
    requires NullFree(current)
    ensures Merged(Merged(current, patch), Mirrored(patch, current)) == Merged(current, Introduced(current, patch))
    decreases Obj(patch)
  {
    var left := Merged(Merged(current, patch), Mirrored(patch, current));
    var right := Merged(current, Introduced(current, patch));
    forall k: string
      ensures k in left <==> k in right
      ensures k in left ==> left[k] == right[k]
    {
      if k in patch && k in current && patch[k].Obj? && current[k].Obj? {
        RollbackRestores(current[k].fields, patch[k].fields);
        RestoresAtObject(current, patch, k);
      } else {
        RestoresElsewhere(current, patch, k);
      }
    }
    assert left == right;
  }

  /** Both sides of RollbackRestores at a key where both documents hold objects. */
  lemma RestoresAtObject(current: Fields, patch: Fields, k: string)
    requires k in patch && k in current && patch[k].Obj? && current[k].Obj?
    ensures
      var c, p := current[k].fields, patch[k].fields;
      var left := Merged(Merged(current, patch), Mirrored(patch, current));
      var right := Merged(current, Introduced(current, patch));
      && k in left && left[k] == Obj(Merged(Merged(c, p), Mirrored(p, c)))
      && k in right && right[k] == Obj(Merged(c, Introduced(c, p)))
  {
    var c, p := current[k].fields, patch[k].fields;
    assert Merged(current, patch)[k] == Obj(Merged(c, p));
    if Mirrored(p, c) == map[] {
      assert Merged(Merged(c, p), map[]) == Merged(c, p);
    }
    if Introduced(c, p) == map[] {
      assert Merged(c, map[]) == c;
    }
  }

  /** Both sides of RollbackRestores at every other key. */
  lemma RestoresElsewhere(current: Fields, patch: Fields, k: string)
    requires NullFree(current)
    requires !(k in patch && k in current && patch[k].Obj? && current[k].Obj?)
    ensures
      var left := Merged(Merged(current, patch), Mirrored(patch, current));
      var right := Merged(current, Introduced(current, patch));
      && (k in left <==> k in right)
      && (k in left ==> left[k] == right[k])
  {
    var applied, snapshot, extra := Merged(current, patch), Mirrored(patch, current), Introduced(current, patch);
    if k in patch && k in current {
      assert k in snapshot && snapshot[k] == current[k] && k !in extra;
    } else {
      assert k !in snapshot;
    }
  }

  /** Every original leaf is back after the rollback. */
  lemma {:induction false} RollbackKeepsEveryOriginalLeaf(current: Fields, patch: Fields, p: Path)
    requires NullFree(current) && LeafAt(current, p).Some?
    ensures LeafAt(Merged(Merged(current, patch), Mirrored(patch, current)), p) == LeafAt(current, p)
  {
    RollbackRestores(current, patch);
    IntroducedMissesOriginalLeaves(current, patch, p);
  }

  lemma {:induction false} IntroducedMissesOriginalLeaves(current: Fields, patch: Fields, p: Path)
    requires LeafAt(current, p).Some?
    ensures LeafAt(Merged(current, Introduced(current, patch)), p) == LeafAt(current, p)
    decreases |p|
  {
    var k := p[0];
    if k in Introduced(current, patch) {
      IntroducedMissesOriginalLeaves(current[k].fields, patch[k].fields, p[1..]);
    }
  }

  /** The rollback is exact if and only if the patch introduced nothing. */
  lemma {:induction false} RollbackIsExact(current: Fields, patch: Fields)
    requires NullFree(current)
    ensures Merged(Merged(current, patch), Mirrored(patch, current)) == current <==> Introduced(current, patch) == map[]
  {
    RollbackRestores(current, patch);
    IntroducedShows(current, patch);
  }

  lemma {:induction false} IntroducedShows(current: Fields, patch: Fields)
    ensures Merged(current, Introduced(current, patch)) == current <==> Introduced(current, patch) == map[]
    decreases Obj(patch)
  {
    var i := Introduced(current, patch);
    if i == map[] {
      assert Merged(current, i) == current;
    } else {
      var k :| k in i;
      if k in current {
        IntroducedShows(current[k].fields, patch[k].fields);
      }
      assert k in Merged(current, i);
    }
  }

  /** A snapshot of a null-free document is null-free, so rolling back twice is
      rolling back once. */
  lemma {:induction false} MirroredIsNullFree(patch: Fields, current: Fields)
    requires NullFree(current)
    ensures NullFree(Mirrored(patch, current))
    decreases Obj(patch)
  {
    forall k | k in patch && k in current && patch[k].Obj? && current[k].Obj?
      ensures NullFree(Mirrored(patch[k].fields, current[k].fields))
    {
      MirroredIsNullFree(patch[k].fields, current[k].fields);
    }
  }

  /** At the paths a patch sets, the snapshot's leaves are the document's own. */
  lemma {:induction false} MirroredLeaf(patch: Fields, current: Fields, p: Path)
    requires LeafAt(patch, p).Some?
    ensures LeafAt(Mirrored(patch, current), p) == LeafAt(current, p)
    decreases |p|
  {
    var k := p[0];
    if k in current && patch[k].Obj? && current[k].Obj? {
      MirroredLeaf(patch[k].fields, current[k].fields, p[1..]);
    }
  }
}
