/** JSON documents as the remediation code sees them after decoding into
    `map[string]any`: objects are walked key by key, everything else is a leaf. */
module Json {
  datatype Option<+T> = None | Some(value: T)

  /** `Null` is JSON null, `Str` a string and `Atom` any other value that is not
      an object (a number, a boolean or an array), told apart by its code. */
  datatype Json = Null | Str(text: string) | Atom(code: int) | Obj(fields: Fields)

  type Fields = map<string, Json>

  /** A dot-joined path of the Go code, kept as the sequence of its keys. */
  type Path = seq<string>

  /** The non-object value at a path, if the document has one there. */
  function LeafAt(f: Fields, p: Path): Option<Json>
    decreases p
  {
    if p == [] || p[0] !in f then None
    else if |p| == 1 then (if f[p[0]].Obj? then None else Some(f[p[0]]))
    else if f[p[0]].Obj? then LeafAt(f[p[0]].fields, p[1..])
    else None
  }

  /** The string leaf at a path: what the Go leaf walkers record. */
  function StringAt(f: Fields, p: Path): Option<string>
  {
    match LeafAt(f, p)
    case Some(Str(s)) => Some(s)
    case _ => None
  }

  ghost predicate NullFree(f: Fields)
    decreases Obj(f)
  {
    forall k | k in f :: !f[k].Null? && (f[k].Obj? ==> NullFree(f[k].fields))
  }

  /** The finite set of all leaf paths. */
  function LeafPaths(f: Fields): (paths: set<Path>)
    ensures forall p | p in paths :: p != [] && p[0] in f
    decreases Obj(f)
  {
    set k, q | k in f && q in (if f[k].Obj? then LeafPaths(f[k].fields) else {[]}) :: [k] + q
  }

  lemma {:induction false} LeafPathsAreTheLeaves(f: Fields, p: Path)
    ensures p in LeafPaths(f) <==> LeafAt(f, p).Some?
    decreases |p|
  {
    if p != [] && p[0] in f {
      var k, q := p[0], p[1..];
      assert p == [k] + q;
      if f[k].Obj? {
        LeafPathsAreTheLeaves(f[k].fields, q);
        assert p in LeafPaths(f) <==> q in LeafPaths(f[k].fields) by {
          if p in LeafPaths(f) {
            var k', q' :| k' in f && q' in (if f[k'].Obj? then LeafPaths(f[k'].fields) else {[]}) && p == [k'] + q';
            assert k' == k && q' == q;
          }
        }
        if q == [] { assert LeafAt(f, p).None?; assert [] !in LeafPaths(f[k].fields); }
      } else {
        assert p in LeafPaths(f) <==> q == [] by {
          if p in LeafPaths(f) {
            var k', q' :| k' in f && q' in (if f[k'].Obj? then LeafPaths(f[k'].fields) else {[]}) && p == [k'] + q';
            assert k' == k && q' == q;
          }
        }
      }
    }
  }

  /** The loop of patchLeafPaths: the recursive walk appends every leaf's path. */
  method CollectLeafPaths(f: Fields) returns (paths: seq<Path>)
    ensures forall p :: p in paths <==> LeafAt(f, p).Some?
    decreases Obj(f)
  {
    paths := [];
    var todo := f.Keys;
    while todo != {}
      invariant todo <= f.Keys
      invariant forall p :: p in paths <==> LeafAt(f, p).Some? && p[0] !in todo
      decreases todo
    {
      var k :| k in todo;
      ghost var before := paths;
      if f[k].Obj? {
        var inner := CollectLeafPaths(f[k].fields);
        paths := paths + Prefixed(k, inner);
        forall p ensures p in paths <==> LeafAt(f, p).Some? && p[0] !in todo - {k} {
          if p != [] && p[0] == k {
            assert p !in before;
            assert p in paths <==> p[1..] in inner;
            assert LeafAt(f, p) == LeafAt(f[k].fields, p[1..]);
          } else {
            assert p !in Prefixed(k, inner);
          }
        }
      } else {
        paths := paths + [[k]];
        forall p ensures p in paths <==> LeafAt(f, p).Some? && p[0] !in todo - {k} {
          assert p in paths <==> p in before || p == [k];
          if p != [] && p[0] == k { assert p == [k] + p[1..] && p !in before; }
        }
      }
      todo := todo - {k};
    }
  }

  function Prefixed(k: string, paths: seq<Path>): (r: seq<Path>)
    ensures forall p :: p in r <==> p != [] && p[0] == k && p[1..] in paths
  {
    if paths == [] then [] else
      assert ([k] + paths[0])[1..] == paths[0];
      assert forall p: Path | p != [] && p[0] == k && p[1..] == paths[0] :: p == [k] + paths[0];
      [[k] + paths[0]] + Prefixed(k, paths[1..])
  }

  lemma FirstIsMember<T>(s: seq<T>)
    ensures s == [] || exists x :: x in s
  {
    if s != [] { assert s[0] in s; }
  }
}
