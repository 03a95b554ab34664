/** Removing sentences that claim a guardrail ruled
    (internal/remediation/fabricated_clamp.go). */
module GuardrailClaims {
  import opened Text

  /** Matched anywhere in the lower-cased text. */
  const TERMS: seq<string> := ["clamp", "guardrail", "blast radius", "blast-radius", "ceiling"]

  /** Matched as whole words. */
  const WORDS: seq<string> := ["cap", "caps", "capped", "capping"]

  function Lower(u: Unicode, s: string): (r: string)
    ensures |r| == |s| && forall i | 0 <= i < |s| :: r[i] == u.lower(s[i])
  {
    seq(|s|, i requires 0 <= i < |s| => u.lower(s[i]))
  }

  predicate LetterAt(s: string, i: int)
  {
    0 <= i < |s| && IsLetter(s[i])
  }

  predicate WordAt(s: string, word: string, i: int)
  {
    OccursAt(s, word, i) && !LetterAt(s, i - 1) && !LetterAt(s, i + |word|)
  }

  ghost predicate ContainsWord(s: string, word: string)
  {
    exists i :: WordAt(s, word, i)
  }

  predicate IsSlice(text: string, word: string, i: int, j: int)
  {
    0 <= i <= j <= |text| && text[i..j] == word
  }

  /** A word is a slice of the text with no letter on either side. */
  lemma WordIsSlice(text: string, word: string)
    ensures ContainsWord(text, word) <==>
            exists i, j :: IsSlice(text, word, i, j) &&
                           (i == 0 || !IsLetter(text[i - 1])) && (j == |text| || !IsLetter(text[j]))
  {
    if i :| WordAt(text, word, i) {
      assert IsSlice(text, word, i, i + |word|);
    }
    if i, j :| IsSlice(text, word, i, j) && (i == 0 || !IsLetter(text[i - 1])) && (j == |text| || !IsLetter(text[j])) {
      assert WordAt(text, word, i);
    }
  }

  /** containsWord's search loop. */
  method FindWord(text: string, word: string) returns (found: bool)
    ensures found <==> ContainsWord(text, word)
    ensures found <==> exists i, j :: IsSlice(text, word, i, j) &&
                                     (i == 0 || !IsLetter(text[i - 1])) && (j == |text| || !IsLetter(text[j]))
  {
    WordIsSlice(text, word);
    var offset := 0;
    while offset <= |text|
      invariant forall i | 0 <= i < offset :: !WordAt(text, word, i)
    {
      var start := Index(text, word, offset);
      if start < 0 { return false; }
      if !LetterAt(text, start - 1) && !LetterAt(text, start + |word|) {
        assert WordAt(text, word, start);
        return true;
      }
      offset := start + 1;
    }
    return false;
  }

  ghost predicate Claims(u: Unicode, text: string)
  {
    var lower := Lower(u, text);
    || Contains(lower, "clamp") || Contains(lower, "guardrail") || Contains(lower, "blast radius")
    || Contains(lower, "blast-radius") || Contains(lower, "ceiling")
    || ContainsWord(lower, "cap") || ContainsWord(lower, "caps") || ContainsWord(lower, "capped")
    || ContainsWord(lower, "capping")
  }

  /** The tables hold these terms and words. */
  lemma ClaimsIff(u: Unicode, text: string)
    ensures Claims(u, text) <==>
            (exists t :: t in TERMS && Contains(Lower(u, text), t)) ||
            (exists w :: w in WORDS && ContainsWord(Lower(u, text), w))
  {
    assert TERMS == ["clamp", "guardrail", "blast radius", "blast-radius", "ceiling"];
    assert forall t :: t in TERMS <==>
      t == "clamp" || t == "guardrail" || t == "blast radius" || t == "blast-radius" || t == "ceiling";
    assert forall w :: w in WORDS <==> w == "cap" || w == "caps" || w == "capped" || w == "capping";
  }

  /** assertsGuardrailVerdict. */
  method AssertsGuardrailVerdict(u: Unicode, text: string) returns (claims: bool)
    ensures claims <==> Claims(u, text)
  {
    ClaimsIff(u, text);
    var lower := Lower(u, text);
    for i := 0 to |TERMS|
      invariant forall k | 0 <= k < i :: !Contains(lower, TERMS[k])
    {
      var at := Index(lower, TERMS[i], 0);
      if at >= 0 {
        assert TERMS[i] in TERMS && Contains(lower, TERMS[i]);
        return true;
      }
    }
    for i := 0 to |WORDS|
      invariant forall k | 0 <= k < i :: !ContainsWord(lower, WORDS[k])
    {
      var found := FindWord(lower, WORDS[i]);
      if found {
        assert WORDS[i] in WORDS;
        return true;
      }
    }
    return false;
  }

  ghost function Claiming(u: Unicode): string -> bool
  {
    s => Claims(u, s)
  }

  /** What dropGuardrailClaims leaves of a surface. */
  ghost function Cleaned(u: Unicode, text: string): string
  {
    var sentences := Sentences(u, text);
    var kept := Kept(sentences, Claiming(u));
    if |kept| == |sentences| then text else Trimmed(u, Joined(kept))
  }

  /** dropGuardrailClaims as written. */
  method DropGuardrailClaims(u: Unicode, text: string) returns (cleaned: string, changed: bool)
    ensures cleaned == Cleaned(u, text)
    ensures changed <==> exists s | s in Sentences(u, text) :: Claims(u, s)
  {
    var blank := Trimmed(u, text);
    if blank == "" {
      BlankHasNoSentence(u, text);
      return text, false;
    }
    var sentences := SplitSentences(u, text);
    var kept;
    kept, changed := KeepUnclaiming(u, sentences);
    KeptOrDropped(sentences, Claiming(u));
    if !changed {
      return text, false;
    }
    return Trimmed(u, Joined(kept)), true;
  }

  /** The loop of dropGuardrailClaims. */
  method KeepUnclaiming(u: Unicode, sentences: seq<string>) returns (kept: seq<string>, changed: bool)
    ensures kept == Kept(sentences, Claiming(u))
    ensures changed <==> |kept| < |sentences|
  {
    kept, changed := [], false;
    for i := 0 to |sentences|
      invariant |kept| <= i && (changed <==> |kept| < i)
      invariant kept == Kept(sentences[..i], Claiming(u))
    {
      var claims := AssertsGuardrailVerdict(u, sentences[i]);
      KeptAppend(sentences[..i], sentences[i], Claiming(u));
      assert sentences[..i + 1] == sentences[..i] + [sentences[i]];
      if claims {
        changed := true;
        continue;
      }
      kept := kept + [sentences[i]];
    }
    assert sentences[..|sentences|] == sentences;
  }


  lemma {:induction false} BlankHasNoSentence(u: Unicode, text: string)
    requires Trimmed(u, text) == ""
    ensures Sentences(u, text) == []
  {
    if Sentences(u, text) != [] {
      BlankScan(u, text, 0, 0);
    }
  }

  lemma {:induction false} BlankScan(u: Unicode, text: string, start: nat, i: nat)
    requires start <= i <= |text| && Trimmed(u, text) == ""
    ensures SentencesFrom(u, text, start, i) == []
    decreases |text| - i
  {
    var end := if i < |text| then i + 1 else i;
    var part := text[start..end];
    var l, r := SkipForward(u, text, 0), SkipBack(u, text, |text|);
    assert forall k | 0 <= k < |text| :: u.space(text[k]);
    assert forall k | 0 <= k < |part| :: u.space(part[k]);
    assert Trimmed(u, part) == "";
    if i < |text| {
      BlankScan(u, text, i + 1, i + 1);
      BlankScan(u, text, start, i + 1);
    } else {
      assert text[start..] == part;
    }
  }

  /** A term or word: no terminator inside, a letter at both ends. */
  ghost predicate PlainPattern(p: string)
  {
    p != "" && IsLetter(p[0]) && IsLetter(p[|p| - 1]) && forall c | c in p :: !IsTerminator(c)
  }

  lemma PatternsArePlain(p: string)
    requires p in TERMS || p in WORDS
    ensures PlainPattern(p)
  {
  }

  /** No sentence ends inside a match. */
  lemma MatchIsUncut(u: Unicode, text: string, p: string, a: nat)
    requires Lawful(u) && PlainPattern(p) && OccursAt(Lower(u, text), p, a)
    ensures a + |p| <= |text| && !u.space(text[a]) && !u.space(text[a + |p| - 1])
    ensures forall e | a <= e < a + |p| - 1 :: !EndsAt(u, text, e)
  {
    MatchedChars(u, text, p, a);
    assert u.lower(text[a]) == p[0] && u.lower(text[a + |p| - 1]) == p[|p| - 1];
    forall e | a <= e < a + |p| - 1 ensures !EndsAt(u, text, e) {
      assert p[e - a] in p;
    }
  }

  /** No match forms across a sentence boundary: each lies inside one sentence,
      with the same neighbours or none. */
  lemma MatchInSentence(u: Unicode, text: string, p: string, a: nat) returns (s: string, j: nat)
    requires Lawful(u) && PlainPattern(p) && OccursAt(Lower(u, text), p, a)
    ensures s in Sentences(u, text) && OccursAt(Lower(u, s), p, j)
    ensures LetterAt(Lower(u, s), j - 1) ==> LetterAt(Lower(u, text), a - 1)
    ensures LetterAt(Lower(u, s), j + |p|) ==> LetterAt(Lower(u, text), a + |p|)
  {
    MatchIsUncut(u, text, p, a);
    var l, r := InsideOneSentence(u, text, 0, 0, a, a + |p|);
    s, j := text[l..r], a - l;
    MatchMoves(u, text, p, a, l, r);
  }

  lemma MatchedChars(u: Unicode, text: string, p: string, a: nat)
    requires OccursAt(Lower(u, text), p, a)
    ensures forall k | a <= k < a + |p| :: u.lower(text[k]) == p[k - a]
  {
  }

  lemma MatchMoves(u: Unicode, text: string, p: string, a: nat, l: nat, r: nat)
    requires OccursAt(Lower(u, text), p, a) && l <= a && a + |p| <= r <= |text|
    ensures OccursAt(Lower(u, text[l..r]), p, a - l)
    ensures LetterAt(Lower(u, text[l..r]), a - l - 1) ==> LetterAt(Lower(u, text), a - 1)
    ensures LetterAt(Lower(u, text[l..r]), a - l + |p|) ==> LetterAt(Lower(u, text), a + |p|)
  {
  }

  lemma NoSentenceClaims(u: Unicode, text: string)
    requires Lawful(u)
    requires forall s | s in Sentences(u, text) :: !Claims(u, s)
    ensures !Claims(u, text)
  {
    ClaimsIff(u, text);
    var lower := Lower(u, text);
    if t, i :| t in TERMS && OccursAt(lower, t, i) {
      PatternsArePlain(t);
      var s, j := MatchInSentence(u, text, t, i);
      ClaimsIff(u, s);
      assert Contains(Lower(u, s), t);
    } else if w, i :| w in WORDS && WordAt(lower, w, i) {
      PatternsArePlain(w);
      var s, j := MatchInSentence(u, text, w, i);
      ClaimsIff(u, s);
      assert WordAt(Lower(u, s), w, j);
    }
  }

  /** After the scrub no claim is left, in any text. */
  lemma CleanedClaimsNothing(u: Unicode, text: string)
    requires Lawful(u)
    ensures !Claims(u, Cleaned(u, text))
    ensures forall s | s in Sentences(u, Cleaned(u, text)) :: !Claims(u, s)
  {
    var sentences := Sentences(u, text);
    var drop := Claiming(u);
    var kept := Kept(sentences, drop);
    KeptOrDropped(sentences, drop);
    if |kept| < |sentences| {
      SplittingGivesSentences(u, text, 0, 0);
      KeptIsSentenceList(u, sentences, drop);
      JoinedIsTrimmed(u, kept);
      SplitUndoesJoin(u, kept);
    }
    NoSentenceClaims(u, Cleaned(u, text));
  }

  /** Every sentence that claims nothing survives, in order and unchanged. */
  lemma CleanedKeepsTheRest(u: Unicode, text: string)
    requires Lawful(u)
    ensures Sentences(u, Cleaned(u, text)) == Kept(Sentences(u, text), Claiming(u))
  {
    var sentences := Sentences(u, text);
    var drop := Claiming(u);
    SplittingGivesSentences(u, text, 0, 0);
    KeptIsSentenceList(u, sentences, drop);
    KeptOrDropped(sentences, drop);
    JoinedIsTrimmed(u, Kept(sentences, drop));
    SplitUndoesJoin(u, Kept(sentences, drop));
  }

  /** Scrubbing twice is scrubbing once. */
  lemma CleanedIsIdempotent(u: Unicode, text: string)
    requires Lawful(u)
    ensures Cleaned(u, Cleaned(u, text)) == Cleaned(u, text)
  {
    CleanedClaimsNothing(u, text);
    KeptOrDropped(Sentences(u, Cleaned(u, text)), Claiming(u));
  }
}
