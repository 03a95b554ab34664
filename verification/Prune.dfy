/** Removing and writing single paths of a patch: deleteNestedPath and
    mergeNestedPath (internal/remediation/proposer_grounding.go), prunePatchPaths
    (internal/remediation/proposer_ai_appliable.go). */
module Prune {
  import opened Json

  /** deleteNestedPath: drop what the path leads to, and every object on the way
      that is left empty. */
  function Deleted(node: Fields, segments: Path): Fields
    requires segments != []
    decreases |segments|
  {
    var k := segments[0];
    if |segments| == 1 then node - {k}
    else if k in node && node[k].Obj? then
      var child := Deleted(node[k].fields, segments[1..]);
      if child == map[] then node - {k} else node[k := Obj(child)]
    else node
  }

  function DeletedAll(node: Fields, paths: seq<Path>): Fields
    requires [] !in paths
    decreases |paths|
  {
    if paths == [] then node
    else DeletedAll(Deleted(node, paths[0]), paths[1..])
  }

  /** prunePatchPaths; an absent patch is `None`, and so is one with nothing
      left. */
  function Pruned(patch: Option<Fields>, paths: seq<Path>): Option<Fields>
    requires [] !in paths
  {
    if patch.None? || paths == [] then patch
    else
      var root := DeletedAll(patch.value, paths);
      if root == map[] then None else Some(root)
  }

  method PrunePatchPaths(patch: Option<Fields>, paths: seq<Path>) returns (pruned: Option<Fields>)
    requires [] !in paths
    ensures pruned == Pruned(patch, paths)
  {
    if patch.None? || |paths| == 0 {
      return patch;
    }
    var root := patch.value;
    for i := 0 to |paths|
      invariant DeletedAll(root, paths[i..]) == DeletedAll(patch.value, paths)
    {
      assert paths[i..][0] == paths[i] && paths[i..][1..] == paths[i + 1..];
      root := Deleted(root, paths[i]);
    }
    assert paths[|paths|..] == [];
    if |root| == 0 {
      return None;
    }
    return Some(root);
  }

  /** Exactly the leaves below the deleted path go. */
  lemma {:induction false} DeletedLeaves(node: Fields, segments: Path, p: Path)
    requires segments != []
    ensures LeafAt(Deleted(node, segments), p) == if segments <= p then None else LeafAt(node, p)
    decreases |segments|
  {
    if p != [] && p[0] == segments[0] && |segments| > 1 && p[0] in node && node[p[0]].Obj? {
      DeletedLeaves(node[p[0]].fields, segments[1..], p[1..]);
      assert segments <= p <==> segments[1..] <= p[1..];
    }
  }

  ghost predicate Below(paths: seq<Path>, p: Path)
  {
    exists s | s in paths :: s <= p
  }

  lemma {:induction false} DeletedAllLeaves(node: Fields, paths: seq<Path>, p: Path)
    requires [] !in paths
    ensures LeafAt(DeletedAll(node, paths), p) == if Below(paths, p) then None else LeafAt(node, p)
    decreases |paths|
  {
    if paths != [] {
      DeletedLeaves(node, paths[0], p);
      DeletedAllLeaves(Deleted(node, paths[0]), paths[1..], p);
      assert Below(paths, p) <==> paths[0] <= p || Below(paths[1..], p) by {
        assert paths[0] in paths;
        assert forall s :: s in paths <==> s == paths[0] || s in paths[1..];
      }
    }
  }

  /** A leaf sits below another leaf's path only if the two paths are one. */
  lemma {:induction false} LeafPathsDoNotNest(f: Fields, p: Path, q: Path)
    requires LeafAt(f, p).Some? && LeafAt(f, q).Some? && p <= q
    ensures p == q
    decreases |p|
  {
    if |p| > 1 {
      LeafPathsDoNotNest(f[p[0]].fields, p[1..], q[1..]);
    }
  }

  /** Pruning leaf paths leaves exactly the other leaves. */
  lemma PrunedLeaves(f: Fields, paths: seq<Path>, p: Path)
    requires forall s | s in paths :: LeafAt(f, s).Some?
    ensures [] !in paths
    ensures LeafAt(DeletedAll(f, paths), p) == if p in paths then None else LeafAt(f, p)
  {
    DeletedAllLeaves(f, paths, p);
    if LeafAt(f, p).Some? && Below(paths, p) {
      var s :| s in paths && s <= p;
      LeafPathsDoNotNest(f, s, p);
    }
  }

  /** mergeNestedPath: write one string, making objects on the way. */
  function WithPath(root: Fields, segments: Path, value: string): Fields
    requires segments != []
    decreases |segments|
  {
    var k := segments[0];
    if |segments| == 1 then root[k := Str(value)]
    else
      var child := if k in root && root[k].Obj? then root[k].fields else map[];
      root[k := Obj(WithPath(child, segments[1..], value))]
  }

  lemma {:induction false} WithPathLeaves(root: Fields, segments: Path, value: string, p: Path)
    requires segments != []
    ensures LeafAt(WithPath(root, segments, value), p) ==
            if p == segments then Some(Str(value))
            else if segments <= p || p <= segments then None
            else LeafAt(root, p)
    decreases |segments|
  {
    if p != [] && p[0] == segments[0] {
      assert p == [p[0]] + p[1..] && segments == [p[0]] + segments[1..];
      if |segments| > 1 {
        var k := p[0];
        var child := if k in root && root[k].Obj? then root[k].fields else map[];
        WithPathLeaves(child, segments[1..], value, p[1..]);
        assert p[1..] == segments[1..] <==> p == segments;
        assert segments[1..] <= p[1..] <==> segments <= p;
        assert p[1..] <= segments[1..] <==> p <= segments;
      }
    }
  }

  /** buildNestedMap for one value. */
  function Nested(segments: Path, value: string): Fields
    requires segments != []
  {
    WithPath(map[], segments, value)
  }

  function WithPaths(root: Fields, paths: seq<Path>, values: map<Path, string>): Fields
    requires forall p | p in paths :: p != [] && p in values
    decreases |paths|
  {
    if paths == [] then root
    else
      assert paths[0] in paths && forall p | p in paths[1..] :: p in paths;
      WithPaths(WithPath(root, paths[0], values[paths[0]]), paths[1..], values)
  }

  /** No path leads through another, as the leaf paths of one object do not. */
  ghost predicate Antichain(paths: seq<Path>)
  {
    forall s, t | s in paths && t in paths && s <= t :: s == t
  }

  /** No leaf of the object is on the way to a path or below it. */
  ghost predicate LeavesRoom(root: Fields, paths: seq<Path>)
  {
    forall q, s | LeafAt(root, q).Some? && s in paths && (q <= s || s <= q) :: q == s
  }

  lemma {:induction false} LeavesAreApart(f: Fields, s: Path, t: Path)
    requires LeafAt(f, s).Some? && LeafAt(f, t).Some? && s <= t
    ensures s == t
    decreases |s|
  {
    if |s| > 1 {
      LeavesAreApart(f[s[0]].fields, s[1..], t[1..]);
      assert s == [s[0]] + s[1..] && t == [t[0]] + t[1..];
    }
  }

  /** The leaf paths of an object are an antichain. */
  lemma LeafPathsAreAnAntichain(f: Fields, paths: seq<Path>)
    requires forall s | s in paths :: LeafAt(f, s).Some?
    ensures Antichain(paths)
  {
    forall s, t | s in paths && t in paths && s <= t ensures s == t { LeavesAreApart(f, s, t); }
  }

  /** Writing such paths: each holds its value, nothing else appears. */
  lemma {:induction false} WithPathsLeaves(root: Fields, paths: seq<Path>, values: map<Path, string>, p: Path)
    requires (forall s | s in paths :: s != [] && s in values) && Antichain(paths) && LeavesRoom(root, paths)
    ensures LeafAt(WithPaths(root, paths, values), p) ==
            if p in paths then Some(Str(values[p])) else LeafAt(root, p)
    decreases |paths|
  {
    if paths != [] {
      var s := paths[0];
      var next := WithPath(root, s, values[s]);
      assert s in paths && forall t | t in paths[1..] :: t in paths;
      forall q ensures LeafAt(next, q) == if q == s then Some(Str(values[s])) else LeafAt(root, q) {
        WithPathLeaves(root, s, values[s], q);
      }
      WithPathsLeaves(next, paths[1..], values, p);
    }
  }

  // ---------------------------------------------------------------------------
  // Pruning everything
  // ---------------------------------------------------------------------------

  /** An object without entries at a path. */
  predicate EmptyAt(f: Fields, z: Path)
    decreases z
  {
    && z != [] && z[0] in f && f[z[0]].Obj?
    && if |z| == 1 then f[z[0]].fields == map[] else EmptyAt(f[z[0]].fields, z[1..])
  }

  ghost predicate NoEmptyObjects(f: Fields)
  {
    forall z :: !EmptyAt(f, z)
  }

  /** Deleting leaves makes no empty object and removes none. */
  lemma {:induction false} DeletedEmpties(f: Fields, p: Path, z: Path)
    requires p != []
    ensures EmptyAt(Deleted(f, p), z) ==> EmptyAt(f, z)
    ensures EmptyAt(f, z) && !(z <= p) && !(p <= z) ==> EmptyAt(Deleted(f, p), z)
    decreases |p|
  {
    if |p| > 1 && p[0] in f && f[p[0]].Obj? && z != [] && z[0] == p[0] {
      var child := f[p[0]].fields;
      if |z| > 1 {
        DeletedEmpties(child, p[1..], z[1..]);
        TailPrefix(z, p);
        TailPrefix(p, z);
      } else {
        assert z <= p;
      }
    }
  }

  lemma TailPrefix(a: Path, b: Path)
    requires a != [] && b != [] && a[0] == b[0]
    ensures a <= b <==> a[1..] <= b[1..]
  {
    assert a == [a[0]] + a[1..] && b == [b[0]] + b[1..];
  }

  lemma {:induction false} DeletedAllEmpties(f: Fields, paths: seq<Path>, z: Path)
    requires [] !in paths
    ensures EmptyAt(DeletedAll(f, paths), z) ==> EmptyAt(f, z)
    ensures EmptyAt(f, z) && (forall p | p in paths :: !(z <= p) && !(p <= z)) ==> EmptyAt(DeletedAll(f, paths), z)
    decreases |paths|
  {
    if paths != [] {
      assert paths[0] in paths && forall p | p in paths[1..] :: p in paths;
      DeletedEmpties(f, paths[0], z);
      DeletedAllEmpties(Deleted(f, paths[0]), paths[1..], z);
    }
  }

  lemma {:induction false} LeafOrEmpty(f: Fields) returns (p: Path)
    requires f != map[]
    ensures LeafAt(f, p).Some? || EmptyAt(f, p)
    decreases Obj(f)
  {
    var k :| k in f;
    if f[k].Obj? && f[k].fields != map[] {
      var q := LeafOrEmpty(f[k].fields);
      p := [k] + q;
      assert p[1..] == q;
    } else {
      p := [k];
    }
  }

  lemma {:induction false} EmptyHoldsNoLeaf(f: Fields, p: Path, z: Path)
    requires LeafAt(f, p).Some? && EmptyAt(f, z)
    ensures !(z <= p) && !(p <= z)
    decreases |p|
  {
    if z[0] == p[0] && |p| > 1 && |z| > 1 {
      EmptyHoldsNoLeaf(f[p[0]].fields, p[1..], z[1..]);
      TailPrefix(z, p);
      TailPrefix(p, z);
    }
  }

  /** Deleting leaves leaves nothing exactly when they are all of them and the
      document holds no empty object. */
  lemma DeletedAllIsEmptyIff(f: Fields, paths: seq<Path>)
    requires forall s | s in paths :: LeafAt(f, s).Some?
    ensures [] !in paths
    ensures DeletedAll(f, paths) == map[] <==> NoEmptyObjects(f) && forall p | LeafAt(f, p).Some? :: p in paths
  {
    var left := DeletedAll(f, paths);
    if left == map[] {
      forall p | LeafAt(f, p).Some? ensures p in paths { PrunedLeaves(f, paths, p); }
      forall z ensures !EmptyAt(f, z) { EmptyWouldStay(f, paths, z); }
    } else {
      var p := LeafOrEmpty(left);
      PrunedLeaves(f, paths, p);
      DeletedAllEmpties(f, paths, p);
    }
  }

  lemma EmptyWouldStay(f: Fields, paths: seq<Path>, z: Path)
    requires forall s | s in paths :: LeafAt(f, s).Some?
    ensures [] !in paths
    ensures EmptyAt(f, z) ==> EmptyAt(DeletedAll(f, paths), z)
  {
    if EmptyAt(f, z) {
      forall p | p in paths ensures !(z <= p) && !(p <= z) { EmptyHoldsNoLeaf(f, p, z); }
      DeletedAllEmpties(f, paths, z);
    }
  }
}
