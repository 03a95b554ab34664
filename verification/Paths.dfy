/** Dot-joined paths: the leaf walkers build them key by key, prunePatchPaths
    splits them again, and the guards compare their prefixes. For dot-free keys
    the string carries exactly the key sequence. */
module Paths {
  import opened Json

  ghost predicate DotFree(p: Path)
  {
    forall k | k in p :: '.' !in k
  }

  function Joined(p: Path): string
    requires p != []
  {
    if |p| == 1 then p[0] else p[0] + "." + Joined(p[1..])
  }

  function FirstDot(s: string): (i: nat)
    ensures i <= |s| && '.' !in s[..i] && (i < |s| ==> s[i] == '.')
  {
    if s == "" || s[0] == '.' then 0 else
      var i := 1 + FirstDot(s[1..]);
      assert s[..i] == [s[0]] + s[1..][..i - 1];
      i
  }

  /** strings.Split(path, "."). */
  function Split(s: string): (p: Path)
    ensures p != []
    decreases |s|
  {
    var i := FirstDot(s);
    if i == |s| then [s] else [s[..i]] + Split(s[i + 1..])
  }

  /** The leaf walkers' accumulation: a dot only after a non-empty prefix. */
  function Walked(prefix: string, keys: Path): string
    decreases keys
  {
    if keys == [] then prefix
    else Walked(if prefix == "" then keys[0] else prefix + "." + keys[0], keys[1..])
  }

  lemma {:induction false} FirstDotIs(s: string, n: nat)
    requires n <= |s| && '.' !in s[..n] && (n < |s| ==> s[n] == '.')
    ensures FirstDot(s) == n
    decreases |s|
  {
    if n > 0 {
      assert s[0] == s[..n][0];
      assert s[1..][..n - 1] == s[..n][1..];
      FirstDotIs(s[1..], n - 1);
    }
  }

  lemma {:induction false} SplitAtDot(head: string, rest: string)
    requires '.' !in head
    ensures Split(head + "." + rest) == [head] + Split(rest)
  {
    var s := head + "." + rest;
    assert s[..|head|] == head && s[|head| + 1..] == rest;
    FirstDotIs(s, |head|);
  }

  lemma HeadThenTail(p: Path, rest: Path)
    requires p != []
    ensures [p[0]] + (p[1..] + rest) == p + rest
  {
    assert p == [p[0]] + p[1..];
  }

  lemma {:induction false} SplitAfterJoin(p: Path, rest: string)
    requires p != [] && DotFree(p)
    ensures Split(Joined(p) + "." + rest) == p + Split(rest)
    decreases |p|
  {
    assert p[0] in p;
    if |p| == 1 {
      SplitAtDot(p[0], rest);
      assert p == [p[0]];
    } else {
      JoinedStep(p, rest);
      SplitAtDot(p[0], Joined(p[1..]) + "." + rest);
      assert DotFree(p[1..]) by { assert forall k | k in p[1..] :: k in p; }
      SplitAfterJoin(p[1..], rest);
      HeadThenTail(p, Split(rest));
    }
  }

  lemma JoinedStep(p: Path, rest: string)
    requires |p| > 1
    ensures Joined(p) + "." + rest == p[0] + "." + (Joined(p[1..]) + "." + rest)
  {
  }

  /** Splitting undoes joining. */
  lemma {:induction false} SplitUndoesJoin(p: Path)
    requires p != [] && DotFree(p)
    ensures Split(Joined(p)) == p
    decreases |p|
  {
    if |p| == 1 {
      assert p[0] in p && p[0][..|p[0]|] == p[0];
      FirstDotIs(p[0], |p[0]|);
      assert p == [p[0]];
    } else {
      assert p[0] in p;
      assert Joined(p) == p[0] + "." + Joined(p[1..]);
      SplitAtDot(p[0], Joined(p[1..]));
      SplitUndoesJoin(p[1..]);
    }
  }

  /** strings.HasPrefix(path, section + ".") asks for the section's keys and at
      least one more. */
  lemma RestOfPrefix(head: string, s: string)
    requires head + "." <= s
    ensures s == head + "." + s[|head| + 1..]
  {
    assert s == (head + ".") + s[|head| + 1..];
  }

  lemma {:induction false} HasPrefixIsKeyPrefix(section: Path, p: Path)
    requires section != [] && p != [] && DotFree(section) && DotFree(p)
    ensures Joined(section) + "." <= Joined(p) <==> |section| < |p| && section <= p
  {
    if Joined(section) + "." <= Joined(p) {
      KeyPrefixOfPrefix(section, p);
    }
    if |section| < |p| && section <= p {
      JoinedAppend(section, p[|section|..]);
      assert p == section + p[|section|..];
    }
  }

  lemma KeyPrefixOfPrefix(section: Path, p: Path)
    requires section != [] && p != [] && DotFree(section) && DotFree(p)
    requires Joined(section) + "." <= Joined(p)
    ensures |section| < |p| && section <= p
  {
    var rest := Joined(p)[|Joined(section)| + 1..];
    SplitUndoesJoin(p);
    RestOfPrefix(Joined(section), Joined(p));
    SplitAfterJoin(section, rest);
    assert p == section + Split(rest);
  }

  lemma {:induction false} JoinedAppend(a: Path, b: Path)
    requires a != [] && b != []
    ensures Joined(a + b) == Joined(a) + "." + Joined(b)
    decreases |a|
  {
    if |a| == 1 {
      assert (a + b)[1..] == b;
    } else {
      assert (a + b)[1..] == a[1..] + b;
      JoinedAppend(a[1..], b);
    }
  }

  /** The walk yields the dot-joined path unless the document's top key is the
      empty string: then it forgets the leading dot. */
  lemma {:induction false} WalkJoins(p: Path)
    requires p != []
    ensures Walked("", p) == Joined(p) <==> p[0] != "" || |p| == 1
  {
    if |p| == 1 {
      assert Walked("", p) == Walked(p[0], p[1..]) == p[0];
    } else if p[0] != "" {
      WalkFromPrefix(p[0], p[1..]);
    } else {
      WalkNotLonger(p[1..]);
    }
  }

  lemma {:induction false} WalkFromPrefix(prefix: string, keys: Path)
    requires prefix != "" && keys != []
    ensures Walked(prefix, keys) == prefix + "." + Joined(keys)
    decreases |keys|
  {
    var next := prefix + "." + keys[0];
    if |keys| == 1 {
      assert Walked(next, keys[1..]) == next;
    } else {
      WalkFromPrefix(next, keys[1..]);
      assert prefix + "." + Joined(keys) == next + "." + Joined(keys[1..]);
    }
  }

  lemma {:induction false} WalkNotLonger(keys: Path)
    requires keys != []
    ensures |Walked("", keys)| <= |Joined(keys)|
    decreases |keys|
  {
    if |keys| == 1 {
      assert Walked("", keys) == Walked(keys[0], keys[1..]) == keys[0];
    } else if keys[0] != "" {
      WalkFromPrefix(keys[0], keys[1..]);
    } else {
      WalkNotLonger(keys[1..]);
    }
  }
}
