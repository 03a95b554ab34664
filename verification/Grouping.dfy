/** Grouping detection signals by application (internal/detection/grouping.go). */
module Grouping {
  import opened Json

  datatype PersonaRef = PersonaRef(kind: string, namespace: string, name: string)

  /** A signal; `deployment` is its metadata entry, "" when unset. */
  datatype Signal = Signal(
    persona: Option<PersonaRef>, namespace: string, resource: string, deployment: string, message: string)

  /** Whose signals a group holds. */
  datatype Owner =
    | OfPersona(ref: PersonaRef)
    | OfCluster
    | Unattributed(namespace: string, workload: string)

  datatype Group = Group(owner: Owner, key: string, signals: seq<Signal>)

  const CLUSTER_KEY := "cluster"

  /** WorkloadName. */
  function WorkloadName(s: Signal): string
  {
    if s.deployment != "" then s.deployment else s.resource
  }

  /** groupFor. */
  function OwnerOf(s: Signal): Owner
  {
    match s.persona
    case Some(ref) => OfPersona(ref)
    case None => if s.namespace == "" then OfCluster else Unattributed(s.namespace, WorkloadName(s))
  }

  function Key(o: Owner): string
  {
    match o
    case OfPersona(ref) => "persona" + "/" + (ref.kind + "/" + (ref.namespace + "/" + ref.name))
    case OfCluster => CLUSTER_KEY
    case Unattributed(namespace, workload) => "unattributed" + "/" + (namespace + "/" + workload)
  }

  function KeyOf(s: Signal): string
  {
    Key(OwnerOf(s))
  }

  /** The byte order of Go strings. */
  predicate Less(a: string, b: string)
    decreases |a|
  {
    b != "" && (a == "" || a[0] < b[0] || (a[0] == b[0] && Less(a[1..], b[1..])))
  }

  predicate Sorted(keys: seq<string>)
  {
    forall i, j | 0 <= i < j < |keys| :: !Less(keys[j], keys[i])
  }

  /** sort.Strings. */
  ghost predicate LawfulSort(sort: seq<string> -> seq<string>)
  {
    forall s :: multiset(sort(s)) == multiset(s) && Sorted(sort(s))
  }

  /** The signals of one key, in input order. */
  function Having(signals: seq<Signal>, key: string): seq<Signal>
    decreases |signals|
  {
    if signals == [] then []
    else
      var last := signals[|signals| - 1];
      Having(signals[..|signals| - 1], key) + if KeyOf(last) == key then [last] else []
  }

  /** The keys in order of first appearance. */
  function Keys(signals: seq<Signal>): (keys: seq<string>)
    ensures forall k :: k in keys <==> exists s | s in signals :: KeyOf(s) == k
    ensures forall i, j | 0 <= i < j < |keys| :: keys[i] != keys[j]
    decreases |signals|
  {
    if signals == [] then []
    else
      var init, last := signals[..|signals| - 1], signals[|signals| - 1];
      assert forall s :: s in signals <==> s in init || s == last;
      if KeyOf(last) in Keys(init) then Keys(init) else Keys(init) + [KeyOf(last)]
  }

  /** The owner recorded with a key: that of the first signal that has it. */
  function FirstOwner(signals: seq<Signal>, key: string): Owner
    decreases |signals|
  {
    if signals == [] then OfCluster
    else if KeyOf(signals[0]) == key then OwnerOf(signals[0])
    else FirstOwner(signals[1..], key)
  }

  function Grouped(signals: seq<Signal>, keys: seq<string>): (groups: seq<Group>)
    ensures |groups| == |keys|
    ensures forall i | 0 <= i < |keys| ::
      groups[i] == Group(FirstOwner(signals, keys[i]), keys[i], Having(signals, keys[i]))
  {
    seq(|keys|, i requires 0 <= i < |keys| => Group(FirstOwner(signals, keys[i]), keys[i], Having(signals, keys[i])))
  }

  /** The map and the key list after some of the signals. */
  ghost predicate Holds(groups: map<string, Group>, keys: seq<string>, signals: seq<Signal>)
  {
    && keys == Keys(signals)
    && (forall k :: k in groups <==> k in keys)
    && (forall k | k in groups :: groups[k] == Group(FirstOwner(signals, k), k, Having(signals, k)))
  }

  /** GroupSignals. */
  method GroupSignals(signals: seq<Signal>, sort: seq<string> -> seq<string>) returns (result: seq<Group>)
    requires LawfulSort(sort)
    ensures result == Grouped(signals, sort(Keys(signals)))
  {
    var groups: map<string, Group> := map[];
    var keys: seq<string> := [];
    for i := 0 to |signals|
      invariant Holds(groups, keys, signals[..i])
    {
      groups, keys := AddSignal(groups, keys, signals[i], signals[..i]);
      assert signals[..i + 1] == signals[..i] + [signals[i]];
    }
    assert signals[..|signals|] == signals;
    var sorted := sort(keys);
    SortMembers(sort, keys);
    result := InKeyOrder(groups, sorted);
    OrderedGroups(groups, keys, signals, sorted, result);
  }

  method InKeyOrder(groups: map<string, Group>, sorted: seq<string>) returns (result: seq<Group>)
    requires forall k | k in sorted :: k in groups
    ensures |result| == |sorted| && forall i | 0 <= i < |sorted| ::
      sorted[i] in groups && result[i] == groups[sorted[i]]
  {
    result := [];
    for i := 0 to |sorted|
      invariant |result| == i
      invariant forall j | 0 <= j < i :: sorted[j] in groups && result[j] == groups[sorted[j]]
    {
      assert sorted[i] in sorted;
      result := result + [groups[sorted[i]]];
    }
  }

  lemma OrderedGroups(
    groups: map<string, Group>, keys: seq<string>, signals: seq<Signal>, sorted: seq<string>, result: seq<Group>)
    requires Holds(groups, keys, signals)
    requires |result| == |sorted| && forall i | 0 <= i < |sorted| ::
      sorted[i] in groups && result[i] == groups[sorted[i]]
    ensures result == Grouped(signals, sorted)
  {
  }

  method AddSignal(groups: map<string, Group>, keys: seq<string>, sig: Signal, ghost before: seq<Signal>)
    returns (next: map<string, Group>, nextKeys: seq<string>)
    requires Holds(groups, keys, before)
    ensures Holds(next, nextKeys, before + [sig])
  {
    next, nextKeys := groups, keys;
    var key := KeyOf(sig);
    if key !in next {
      nextKeys := nextKeys + [key];
      next := next[key := Group(OwnerOf(sig), key, [])];
    }
    next := next[key := next[key].(signals := next[key].signals + [sig])];
    KeysAppend(before, sig);
    forall k ensures k in next ==> next[k] == Group(FirstOwner(before + [sig], k), k, Having(before + [sig], k)) {
      FirstOwnerAppend(before, sig, k);
      HavingAppend(before, sig, k);
      if key !in keys { HavingNothing(before, key); }
    }
  }

  lemma KeysAppend(signals: seq<Signal>, s: Signal)
    ensures Keys(signals + [s]) == if KeyOf(s) in Keys(signals) then Keys(signals) else Keys(signals) + [KeyOf(s)]
  {
  }

  lemma HavingAppend(signals: seq<Signal>, s: Signal, key: string)
    ensures Having(signals + [s], key) == Having(signals, key) + if KeyOf(s) == key then [s] else []
  {
  }

  lemma {:induction false} FirstOwnerAppend(signals: seq<Signal>, s: Signal, key: string)
    ensures FirstOwner(signals + [s], key) ==
            if exists t | t in signals :: KeyOf(t) == key then FirstOwner(signals, key)
            else if key == KeyOf(s) then OwnerOf(s) else OfCluster
    decreases |signals|
  {
    if signals != [] {
      assert (signals + [s])[1..] == signals[1..] + [s];
      FirstOwnerAppend(signals[1..], s, key);
      assert forall t :: t in signals <==> t == signals[0] || t in signals[1..];
    } else {
      assert (signals + [s])[1..] == [];
    }
  }

  lemma {:induction false} HavingNothing(signals: seq<Signal>, key: string)
    requires forall s | s in signals :: KeyOf(s) != key
    ensures Having(signals, key) == []
    decreases |signals|
  {
    if signals != [] {
      assert forall s | s in signals[..|signals| - 1] :: s in signals;
      assert signals[|signals| - 1] in signals;
      HavingNothing(signals[..|signals| - 1], key);
    }
  }

  lemma SortMembers(sort: seq<string> -> seq<string>, keys: seq<string>)
    requires LawfulSort(sort)
    ensures forall k :: k in sort(keys) <==> k in keys
  {
    forall k ensures k in sort(keys) <==> k in keys {
      assert k in multiset(sort(keys)) <==> k in multiset(keys);
    }
  }

  // ---------------------------------------------------------------------------
  // Keys are strictly increasing
  // ---------------------------------------------------------------------------

  lemma {:induction false} LessIsTotal(a: string, b: string)
    ensures Less(a, b) || Less(b, a) || a == b
    decreases |a|
  {
    if a != "" && b != "" && a[0] == b[0] {
      LessIsTotal(a[1..], b[1..]);
      assert a == [a[0]] + a[1..] && b == [b[0]] + b[1..];
    }
  }

  lemma {:induction false} CountOnce(keys: seq<string>, k: string)
    requires forall i, j | 0 <= i < j < |keys| :: keys[i] != keys[j]
    ensures multiset(keys)[k] <= 1
    decreases |keys|
  {
    if keys != [] {
      var init, last := keys[..|keys| - 1], keys[|keys| - 1];
      assert keys == init + [last];
      CountOnce(init, k);
      assert multiset(keys) == multiset(init) + multiset{last};
      assert last !in init;
      assert multiset(init)[last] == 0;
    }
  }

  lemma CountTwice(keys: seq<string>, i: nat, j: nat)
    requires i < j < |keys| && keys[i] == keys[j]
    ensures multiset(keys)[keys[i]] >= 2
  {
    var left, right := keys[..j], keys[j..];
    assert keys == left + right;
    assert multiset(keys) == multiset(left) + multiset(right);
    assert left[i] in multiset(left) && right[0] in multiset(right);
  }

  /** Group keys are strictly increasing. */
  lemma KeysIncrease(signals: seq<Signal>, sort: seq<string> -> seq<string>, i: nat, j: nat)
    requires LawfulSort(sort) && i < j < |sort(Keys(signals))|
    ensures Less(sort(Keys(signals))[i], sort(Keys(signals))[j])
  {
    var keys, sorted := Keys(signals), sort(Keys(signals));
    LessIsTotal(sorted[i], sorted[j]);
    if sorted[i] == sorted[j] {
      CountOnce(keys, sorted[i]);
      CountTwice(sorted, i, j);
    }
  }

  // ---------------------------------------------------------------------------
  // The groups partition the signals
  // ---------------------------------------------------------------------------

  function Flattened(groups: seq<Group>): multiset<Signal>
    decreases |groups|
  {
    if groups == [] then multiset{} else Flattened(groups[..|groups| - 1]) + multiset(groups[|groups| - 1].signals)
  }

  /** The signals of any of the keys. */
  function Among(signals: seq<Signal>, keys: seq<string>): multiset<Signal>
    decreases |signals|
  {
    if signals == [] then multiset{}
    else
      var last := signals[|signals| - 1];
      Among(signals[..|signals| - 1], keys) + if KeyOf(last) in keys then multiset{last} else multiset{}
  }

  lemma {:induction false} AmongSplits(signals: seq<Signal>, keys: seq<string>, k: string)
    requires k !in keys
    ensures Among(signals, keys + [k]) == Among(signals, keys) + multiset(Having(signals, k))
    decreases |signals|
  {
    if signals != [] { AmongSplits(signals[..|signals| - 1], keys, k); }
  }

  lemma {:induction false} FlattenedIsAmong(signals: seq<Signal>, keys: seq<string>)
    requires forall i, j | 0 <= i < j < |keys| :: keys[i] != keys[j]
    ensures Flattened(Grouped(signals, keys)) == Among(signals, keys)
    decreases |keys|
  {
    if keys == [] {
      AmongNone(signals);
    } else {
      var init, last := keys[..|keys| - 1], keys[|keys| - 1];
      FlattenedIsAmong(signals, init);
      assert Grouped(signals, keys)[..|keys| - 1] == Grouped(signals, init);
      assert keys == init + [last];
      AmongSplits(signals, init, last);
    }
  }

  lemma {:induction false} AmongNone(signals: seq<Signal>)
    ensures Among(signals, []) == multiset{}
    decreases |signals|
  {
    if signals != [] { AmongNone(signals[..|signals| - 1]); }
  }

  lemma {:induction false} AmongAll(signals: seq<Signal>, keys: seq<string>)
    requires forall s | s in signals :: KeyOf(s) in keys
    ensures Among(signals, keys) == multiset(signals)
    decreases |signals|
  {
    if signals != [] {
      var init, last := signals[..|signals| - 1], signals[|signals| - 1];
      assert last in signals && forall s | s in init :: s in signals;
      AmongAll(init, keys);
      assert signals == init + [last];
    }
  }

  /** Main result: together the groups hold every signal exactly as often as the
      input, each group its own in input order. */
  lemma GroupsPartition(signals: seq<Signal>, sort: seq<string> -> seq<string>)
    requires LawfulSort(sort)
    ensures Flattened(Grouped(signals, sort(Keys(signals)))) == multiset(signals)
  {
    var sorted := sort(Keys(signals));
    forall i, j | 0 <= i < j < |sorted| ensures sorted[i] != sorted[j] {
      if sorted[i] == sorted[j] {
        CountOnce(Keys(signals), sorted[i]);
        CountTwice(sorted, i, j);
      }
    }
    SortMembers(sort, Keys(signals));
    FlattenedIsAmong(signals, sorted);
    AmongAll(signals, sorted);
  }

  // ---------------------------------------------------------------------------
  // A key names one owner
  // ---------------------------------------------------------------------------

  predicate SlashFree(s: string)
  {
    '/' !in s
  }

  predicate SlashFreeOwner(o: Owner)
  {
    match o
    case OfPersona(ref) => SlashFree(ref.kind) && SlashFree(ref.namespace) && SlashFree(ref.name)
    case OfCluster => true
    case Unattributed(namespace, workload) => SlashFree(namespace) && SlashFree(workload)
  }

  /** The first slash splits one way only. */
  lemma SlashSplits(a: string, rest: string, b: string, other: string)
    requires SlashFree(a) && SlashFree(b) && a + "/" + rest == b + "/" + other
    ensures a == b && rest == other
  {
    var whole := a + "/" + rest;
    assert whole[|a|] == '/' && whole[|b|] == '/';
    assert forall i | 0 <= i < |a| :: whole[i] == a[i];
    assert forall i | 0 <= i < |b| :: whole[i] == b[i];
    assert |a| == |b|;
    assert whole[..|a|] == a && whole[..|b|] == b;
    assert whole[|a| + 1..] == rest && whole[|b| + 1..] == other;
  }

  lemma SlashKeys(o: Owner)
    ensures o.OfCluster? <==> '/' !in Key(o)
  {
  }

  lemma OnlySlash(a: string, rest: string, b: string, other: string)
    requires SlashFree(a) && SlashFree(rest) && a + "/" + rest == b + "/" + other
    ensures a == b && rest == other
  {
    var whole := a + "/" + rest;
    assert whole[|b|] == '/';
    assert forall i | 0 <= i < |whole| && i != |a| :: whole[i] == if i < |a| then a[i] else rest[i - |a| - 1];
    assert whole[..|a|] == a && whole[..|b|] == b;
    assert whole[|a| + 1..] == rest && whole[|b| + 1..] == other;
  }

  lemma OnlyTwoSlashes(a: string, b: string, c: string, x: string, y: string, z: string)
    requires SlashFree(a) && SlashFree(b) && SlashFree(c)
    requires a + "/" + (b + "/" + c) == x + "/" + (y + "/" + z)
    ensures a == x && b == y && c == z
  {
    var whole, rest := a + "/" + (b + "/" + c), b + "/" + c;
    assert forall i | 0 <= i < |rest| && i != |b| :: rest[i] == if i < |b| then b[i] else c[i - |b| - 1];
    assert forall i | 0 <= i < |whole| && i != |a| :: whole[i] == if i < |a| then a[i] else rest[i - |a| - 1];
    assert whole[|x|] == '/' && whole[|x| + 1 + |y|] == '/';
    assert |x| == |a| && |y| == |b|;
    assert whole[..|a|] == a && whole[..|x|] == x;
    assert whole[|a| + 1..] == rest && whole[|x| + 1..] == y + "/" + z;
    OnlySlash(b, c, y, z);
  }

  function Tail(o: Owner): string
  {
    match o
    case OfPersona(ref) => ref.kind + "/" + (ref.namespace + "/" + ref.name)
    case OfCluster => ""
    case Unattributed(namespace, workload) => namespace + "/" + workload
  }

  function Head(o: Owner): (head: string)
    ensures SlashFree(head)
  {
    match o
    case OfPersona(_) => "persona"
    case OfCluster => CLUSTER_KEY
    case Unattributed(_, _) => "unattributed"
  }

  lemma KeyOfSlashFree(a: Owner, b: Owner)
    requires SlashFreeOwner(a) && Key(a) == Key(b)
    ensures a == b
  {
    SlashKeys(a);
    SlashKeys(b);
    if !a.OfCluster? {
      assert Key(a) == Head(a) + "/" + Tail(a) && Key(b) == Head(b) + "/" + Tail(b);
      SlashSplits(Head(a), Tail(a), Head(b), Tail(b));
      assert |"persona"| != |"unattributed"|;
      match a {
        case Unattributed(namespace, workload) => OnlySlash(namespace, workload, b.namespace, b.workload);
        case OfPersona(ref) =>
          OnlyTwoSlashes(ref.kind, ref.namespace, ref.name, b.ref.kind, b.ref.namespace, b.ref.name);
      }
    }
  }

  /** Main result: two signals without a persona share a group exactly when they come
      from the same namespace and the same Deployment, or from the same resource where
      no Deployment is recorded. */
  lemma UnattributedTogether(a: Signal, b: Signal)
    requires a.persona.None? && b.persona.None? && a.namespace != "" && b.namespace != ""
    requires SlashFree(a.namespace) && SlashFree(a.resource) && SlashFree(a.deployment)
    ensures KeyOf(a) == KeyOf(b) <==>
            a.namespace == b.namespace &&
            (if a.deployment != "" then a.deployment else a.resource) ==
            (if b.deployment != "" then b.deployment else b.resource)
  {
    if KeyOf(a) == KeyOf(b) { KeyOfSlashFree(OwnerOf(a), OwnerOf(b)); }
  }

  /** And one with a persona shares a group exactly with those of the same persona;
      signals with neither persona nor namespace are the cluster's. */
  lemma OthersTogether(a: Signal, b: Signal)
    ensures a.persona.Some? && SlashFreeOwner(OfPersona(a.persona.value)) ==>
              (KeyOf(a) == KeyOf(b) <==> b.persona == a.persona)
    ensures a.persona.None? && a.namespace == "" ==>
              (KeyOf(a) == KeyOf(b) <==> b.persona.None? && b.namespace == "") && KeyOf(a) == "cluster"
  {
    if KeyOf(a) == KeyOf(b) && SlashFreeOwner(OwnerOf(a)) { KeyOfSlashFree(OwnerOf(a), OwnerOf(b)); }
  }

  lemma CutAtSlash(s: string) returns (x: string, y: string)
    requires !SlashFree(s)
    ensures s == x + "/" + y
  {
    var i :| 0 <= i < |s| && s[i] == '/';
    x, y := s[..i], s[i + 1..];
  }

  /** A name with a slash in it shares its key with another owner. */
  lemma SlashCollides(o: Owner) returns (other: Owner)
    requires !SlashFreeOwner(o)
    ensures other != o && Key(other) == Key(o)
  {
    match o {
      case Unattributed(namespace, workload) => other := UnattributedCollides(namespace, workload);
      case OfPersona(ref) => other := PersonaCollides(ref);
    }
  }

  lemma UnattributedCollides(namespace: string, workload: string) returns (other: Owner)
    requires !SlashFree(namespace) || !SlashFree(workload)
    ensures other != Unattributed(namespace, workload) && Key(other) == Key(Unattributed(namespace, workload))
  {
    if !SlashFree(namespace) {
      var x, y := CutAtSlash(namespace);
      other := Unattributed(x, y + "/" + workload);
      assert x + "/" + (y + "/" + workload) == namespace + "/" + workload;
    } else {
      var x, y := CutAtSlash(workload);
      other := Unattributed(namespace + "/" + x, y);
      assert namespace + "/" + x + "/" + y == namespace + "/" + workload;
      assert |namespace + "/" + x| != |namespace|;
    }
  }

  lemma PersonaCollides(ref: PersonaRef) returns (other: Owner)
    requires !SlashFreeOwner(OfPersona(ref))
    ensures other != OfPersona(ref) && Key(other) == Key(OfPersona(ref))
  {
    var PersonaRef(kind, namespace, name) := ref;
    if !SlashFree(kind) {
      var x, y := CutAtSlash(kind);
      other := OfPersona(PersonaRef(x, y + "/" + namespace, name));
      assert x + "/" + (y + "/" + namespace + "/" + name) == kind + "/" + (namespace + "/" + name);
    } else if !SlashFree(namespace) {
      var x, y := CutAtSlash(namespace);
      other := OfPersona(PersonaRef(kind + "/" + x, y, name));
      assert kind + "/" + x + "/" + (y + "/" + name) == kind + "/" + (namespace + "/" + name);
      assert |kind + "/" + x| != |kind|;
    } else {
      var x, y := CutAtSlash(name);
      other := OfPersona(PersonaRef(kind, namespace + "/" + x, y));
      assert namespace + "/" + x + "/" + y == namespace + "/" + name;
      assert |namespace + "/" + x| != |namespace|;
    }
  }

  /** Main result: a key names its owner alone, so that its group spans no two
      applications or namespaces, if and only if the owner's names hold no slash. */
  lemma KeyNamesOwner(o: Owner)
    ensures (forall other :: Key(other) == Key(o) ==> other == o) <==> SlashFreeOwner(o)
  {
    if SlashFreeOwner(o) {
      forall other | Key(other) == Key(o) ensures other == o { KeyOfSlashFree(o, other); }
    } else {
      var other := SlashCollides(o);
    }
  }
}
