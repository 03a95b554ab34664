/** Attributing signals to personas (internal/detection/persona_correlator.go). */
module Attribution {
  import opened Json
  import opened Grouping

  datatype Persona = Persona(name: string, specName: string, namespace: string)

  /** One name claims a resource: it is the resource's name, or its prefix up to
      a hyphen. */
  predicate Claims(resource: string, name: string)
  {
    name != "" && resource != "" && (resource == name || name + "-" <= resource)
  }

  function Longer(a: nat, b: nat): nat
  {
    if a >= b then a else b
  }

  /** The longest claim of a persona, 0 if none. */
  function ClaimLength(resource: string, p: Persona): nat
  {
    Longer(if Claims(resource, p.name) then |p.name| else 0, if Claims(resource, p.specName) then |p.specName| else 0)
  }

  /** claimLength. */
  method FindClaimLength(resource: string, p: Persona) returns (best: nat)
    ensures best == ClaimLength(resource, p)
  {
    if resource == "" {
      return 0;
    }
    best := 0;
    var names := [p.name, p.specName];
    for i := 0 to |names|
      invariant best == Longer(if i >= 1 && Claims(resource, p.name) then |p.name| else 0,
                               if i >= 2 && Claims(resource, p.specName) then |p.specName| else 0)
    {
      var name := names[i];
      if name == "" || |name| <= best { continue; }
      if resource == name || name + "-" <= resource {
        best := |name|;
      }
    }
  }

  /** The longest claim on a resource. */
  function Best(resource: string, personas: seq<Persona>): (best: nat)
    ensures forall p | p in personas :: ClaimLength(resource, p) <= best
    ensures best > 0 ==> exists p | p in personas :: ClaimLength(resource, p) == best
    decreases |personas|
  {
    if personas == [] then 0
    else
      var init, last := personas[..|personas| - 1], personas[|personas| - 1];
      assert forall p :: p in personas <==> p in init || p == last;
      Longer(Best(resource, init), ClaimLength(resource, last))
  }

  /** The personas with exactly a claim length, in list order. */
  function WithClaim(resource: string, personas: seq<Persona>, length: nat): (matched: seq<Persona>)
    ensures forall p :: p in matched <==> p in personas && ClaimLength(resource, p) == length
    decreases |personas|
  {
    if personas == [] then []
    else
      var init, last := personas[..|personas| - 1], personas[|personas| - 1];
      assert forall p :: p in personas <==> p in init || p == last;
      WithClaim(resource, init, length) + if ClaimLength(resource, last) == length then [last] else []
  }

  /** The personas that hold the longest claim. */
  function Claiming(resource: string, personas: seq<Persona>): seq<Persona>
  {
    if Best(resource, personas) == 0 then [] else WithClaim(resource, personas, Best(resource, personas))
  }

  /** personasClaiming. */
  method PersonasClaiming(resource: string, personas: seq<Persona>) returns (matched: seq<Persona>)
    ensures matched == Claiming(resource, personas)
  {
    matched := [];
    var best := 0;
    for i := 0 to |personas|
      invariant best == Best(resource, personas[..i])
      invariant matched == Claiming(resource, personas[..i])
    {
      assert personas[..i + 1][..i] == personas[..i] && personas[..i + 1][i] == personas[i];
      var length := FindClaimLength(resource, personas[i]);
      if length == 0 || length < best { continue; }
      if length > best {
        NoneLonger(resource, personas[..i], length);
        best := length;
        matched := [personas[i]];
      } else {
        matched := matched + [personas[i]];
      }
    }
    assert personas[..|personas|] == personas;
  }

  lemma NoneLonger(resource: string, personas: seq<Persona>, length: nat)
    requires length > Best(resource, personas)
    ensures WithClaim(resource, personas, length) == []
  {
  }

  // ---------------------------------------------------------------------------
  // Order does not matter
  // ---------------------------------------------------------------------------

  lemma SameBest(resource: string, a: seq<Persona>, b: seq<Persona>)
    requires forall p :: p in a <==> p in b
    ensures Best(resource, a) == Best(resource, b)
  {
  }

  lemma {:induction false} CountWithClaim(resource: string, personas: seq<Persona>, length: nat, p: Persona)
    ensures multiset(WithClaim(resource, personas, length))[p] ==
            if ClaimLength(resource, p) == length then multiset(personas)[p] else 0
    decreases |personas|
  {
    if personas != [] {
      var init, last := personas[..|personas| - 1], personas[|personas| - 1];
      assert personas == init + [last];
      CountWithClaim(resource, init, length, p);
    }
  }

  /** Main result: the claiming personas are those of the longest positive
      claim, each as often as listed, whatever the list order. */
  lemma ClaimingIgnoresOrder(resource: string, a: seq<Persona>, b: seq<Persona>)
    requires multiset(a) == multiset(b)
    ensures multiset(Claiming(resource, a)) == multiset(Claiming(resource, b))
  {
    forall p ensures p in a <==> p in b {
      assert p in multiset(a) <==> p in multiset(b);
    }
    SameBest(resource, a, b);
    var best := Best(resource, a);
    forall p ensures multiset(WithClaim(resource, a, best))[p] == multiset(WithClaim(resource, b, best))[p] {
      CountWithClaim(resource, a, best, p);
      CountWithClaim(resource, b, best, p);
    }
  }

  /** Most specific: a claiming persona has a name that claims, no listed persona
      has a longer one, and any two claim through the same string. */
  lemma ClaimingIsMostSpecific(resource: string, personas: seq<Persona>, p: Persona)
    ensures p in Claiming(resource, personas) <==>
      p in personas && ClaimLength(resource, p) > 0 &&
      forall q | q in personas :: ClaimLength(resource, q) <= ClaimLength(resource, p)
    ensures p in Claiming(resource, personas) ==>
      var best := Best(resource, personas);
      && 0 < best <= |resource| && Claims(resource, resource[..best])
      && (p.name == resource[..best] || p.specName == resource[..best])
  {
    ClaimedPrefix(resource, p.name);
    ClaimedPrefix(resource, p.specName);
    var best := Best(resource, personas);
    if best > 0 {
      var q :| q in personas && ClaimLength(resource, q) == best;
    }
  }

  lemma ClaimedPrefix(resource: string, name: string)
    ensures Claims(resource, name) ==> |name| <= |resource| && resource[..|name|] == name
  {
  }

  // ---------------------------------------------------------------------------
  // Correlate
  // ---------------------------------------------------------------------------

  /** Listing the personas of a namespace; `None` is a failed list. */
  type Lister = string -> Option<seq<Persona>>

  function Listing(list: Lister, namespace: string): seq<Persona>
  {
    match list(namespace) case Some(personas) => personas case None => []
  }

  const KIND := "ApplicationPersona"

  function Attributed(list: Lister, s: Signal): Signal
  {
    if s.persona.Some? || s.namespace == "" then s
    else
      var matched := Claiming(s.resource, Listing(list, s.namespace));
      if |matched| == 1 then s.(persona := Some(PersonaRef(KIND, matched[0].namespace, matched[0].name))) else s
  }

  ghost predicate IsCache(list: Lister, cache: map<string, seq<Persona>>)
  {
    forall ns | ns in cache :: cache[ns] == Listing(list, ns)
  }

  /** Correlate: in place, with a cache of the lists. */
  method Correlate(list: Lister, signals: array<Signal>)
    modifies signals
    ensures forall i | 0 <= i < signals.Length :: signals[i] == Attributed(list, old(signals[i]))
  {
    var cache: map<string, seq<Persona>> := map[];
    for i := 0 to signals.Length
      invariant IsCache(list, cache)
      invariant forall j | 0 <= j < i :: signals[j] == Attributed(list, old(signals[j]))
      invariant forall j | i <= j < signals.Length :: signals[j] == old(signals[j])
    {
      var sig;
      sig, cache := CorrelateOne(list, signals[i], cache);
      signals[i] := sig;
    }
  }

  method CorrelateOne(list: Lister, sig: Signal, known: map<string, seq<Persona>>)
    returns (out: Signal, cache: map<string, seq<Persona>>)
    requires IsCache(list, known)
    ensures out == Attributed(list, sig) && IsCache(list, cache)
  {
    cache := known;
    if sig.persona.Some? || sig.namespace == "" {
      return sig, cache;
    }
    var ns := sig.namespace;
    if ns !in cache {
      cache := cache[ns := match list(ns) case Some(personas) => personas case None => []];
    }
    var matched := PersonasClaiming(sig.resource, cache[ns]);
    out := sig;
    if |matched| == 1 {
      out := sig.(persona := Some(PersonaRef(KIND, matched[0].namespace, matched[0].name)));
    }
  }

  /** The position of the only persona that holds the longest claim. */
  ghost predicate OnlyClaimant(resource: string, personas: seq<Persona>, at: nat)
  {
    && at < |personas| && ClaimLength(resource, personas[at]) > 0
    && forall j | 0 <= j < |personas| && j != at ::
      ClaimLength(resource, personas[j]) < ClaimLength(resource, personas[at])
  }

  lemma {:induction false} OneMatch(resource: string, personas: seq<Persona>, length: nat)
    ensures |WithClaim(resource, personas, length)| == 1 <==>
            exists at :: 0 <= at < |personas| && OnlyAt(resource, personas, length, at)
    ensures forall at | 0 <= at < |personas| && OnlyAt(resource, personas, length, at) ::
      WithClaim(resource, personas, length) == [personas[at]]
    decreases |personas|
  {
    if personas != [] {
      var init, last := personas[..|personas| - 1], personas[|personas| - 1];
      OneMatch(resource, init, length);
      NoMatch(resource, init, length);
      forall at | 0 <= at < |init|
        ensures OnlyAt(resource, personas, length, at) <==>
                OnlyAt(resource, init, length, at) && ClaimLength(resource, last) != length
      {
        assert personas[at] == init[at];
      }
      assert OnlyAt(resource, personas, length, |init|) <==>
             ClaimLength(resource, last) == length && forall j | 0 <= j < |init| ::
               ClaimLength(resource, init[j]) != length;
    }
  }

  ghost predicate OnlyAt(resource: string, personas: seq<Persona>, length: nat, at: nat)
    requires at < |personas|
  {
    && ClaimLength(resource, personas[at]) == length
    && forall j | 0 <= j < |personas| && j != at :: ClaimLength(resource, personas[j]) != length
  }

  lemma NoMatch(resource: string, personas: seq<Persona>, length: nat)
    ensures WithClaim(resource, personas, length) == [] <==> forall j | 0 <= j < |personas| ::
      ClaimLength(resource, personas[j]) != length
  {
  }

  /** Main result: an unattributed signal of a namespace gets a reference exactly
      when one listed persona's claim is longer than every other's, and then to
      that persona. */
  lemma AttributedIff(list: Lister, s: Signal)
    requires s.persona.None? && s.namespace != ""
    ensures var personas := Listing(list, s.namespace);
      && (Attributed(list, s).persona.Some? <==> exists at: nat :: OnlyClaimant(s.resource, personas, at))
      && (forall at: nat | OnlyClaimant(s.resource, personas, at) ::
            Attributed(list, s).persona == Some(PersonaRef(KIND, personas[at].namespace, personas[at].name)))
  {
    OnlyClaimantIsClaiming(s.resource, Listing(list, s.namespace));
  }

  lemma OnlyClaimantIsClaiming(resource: string, personas: seq<Persona>)
    ensures |Claiming(resource, personas)| == 1 <==> exists at: nat :: OnlyClaimant(resource, personas, at)
    ensures forall at: nat | OnlyClaimant(resource, personas, at) :: Claiming(resource, personas) == [personas[at]]
  {
    var best := Best(resource, personas);
    OneMatch(resource, personas, best);
    forall at: nat | at < |personas|
      ensures OnlyClaimant(resource, personas, at) <==> best > 0 && OnlyAt(resource, personas, best, at)
    {
      OnlyIsBest(resource, personas, at);
    }
    if |Claiming(resource, personas)| == 1 {
      var at :| 0 <= at < |personas| && OnlyAt(resource, personas, best, at);
      assert OnlyClaimant(resource, personas, at);
    }
  }

  lemma OnlyIsBest(resource: string, personas: seq<Persona>, at: nat)
    requires at < |personas|
    ensures OnlyClaimant(resource, personas, at) <==>
            Best(resource, personas) > 0 && OnlyAt(resource, personas, Best(resource, personas), at)
  {
  }
}
