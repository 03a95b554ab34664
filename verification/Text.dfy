/** White space, searching and sentence splitting, as the text guards of
    internal/remediation use them. */
module Text {
  /** The character tables of Go's unicode package the guards consult. */
  datatype Unicode = Unicode(space: char -> bool, lower: char -> char)

  predicate IsTerminator(c: char) {
    c == '.' || c == '!' || c == '?'
  }

  predicate IsLetter(c: char) {
    'a' <= c <= 'z' || 'A' <= c <= 'Z'
  }

  /** What the guards rely on: a blank is white space, terminators, letters, the
      hyphen and NUL are not, and lower-casing leaves white space and terminators
      alone. */
  ghost predicate Lawful(u: Unicode)
  {
    && u.space(' ')
    && (forall c | IsTerminator(c) || IsLetter(c) || c == '-' || c == '\0' :: !u.space(c))
    && (forall c | IsTerminator(c) || u.space(c) :: u.lower(c) == c)
  }

  /** The first non-space position from i on. */
  function SkipForward(u: Unicode, s: string, i: nat): (n: nat)
    requires i <= |s|
    ensures i <= n <= |s|
    ensures forall j | i <= j < n :: u.space(s[j])
    ensures n < |s| ==> !u.space(s[n])
    decreases |s| - i
  {
    if i == |s| || !u.space(s[i]) then i else SkipForward(u, s, i + 1)
  }

  /** The position behind the last non-space one before i. */
  function SkipBack(u: Unicode, s: string, i: nat): (n: nat)
    requires i <= |s|
    ensures n <= i
    ensures forall j | n <= j < i :: u.space(s[j])
    ensures n > 0 ==> !u.space(s[n - 1])
    decreases i
  {
    if i == 0 || !u.space(s[i - 1]) then i else SkipBack(u, s, i - 1)
  }

  /** strings.TrimSpace. */
  function Trimmed(u: Unicode, s: string): (t: string)
    ensures t != "" ==> !u.space(t[0]) && !u.space(t[|t| - 1])
  {
    var l, r := SkipForward(u, s, 0), SkipBack(u, s, |s|);
    if l < r then s[l..r] else ""
  }

  /** The slice of s that trimming keeps covers any slice with non-space ends. */
  lemma TrimKeeps(u: Unicode, s: string, a: nat, b: nat) returns (l: nat, r: nat)
    requires a < b <= |s| && !u.space(s[a]) && !u.space(s[b - 1])
    ensures l <= a && b <= r <= |s| && Trimmed(u, s) == s[l..r]
  {
    l, r := SkipForward(u, s, 0), SkipBack(u, s, |s|);
  }

  lemma TrimOfTrimmed(u: Unicode, s: string)
    requires s != "" ==> !u.space(s[0]) && !u.space(s[|s| - 1])
    ensures Trimmed(u, s) == s
  {
  }

  /** strings.Contains. */
  ghost predicate Contains(s: string, pattern: string)
  {
    exists i :: OccursAt(s, pattern, i)
  }

  predicate OccursAt(s: string, pattern: string, i: int)
  {
    0 <= i <= |s| - |pattern| && s[i..i + |pattern|] == pattern
  }

  /** strings.Index(s[offset:], pattern) + offset, or -1. */
  method Index(s: string, pattern: string, offset: nat) returns (at: int)
    requires offset <= |s|
    ensures at == -1 ==> forall i | offset <= i :: !OccursAt(s, pattern, i)
    ensures at != -1 ==> offset <= at && OccursAt(s, pattern, at) && forall i | offset <= i < at ::
      !OccursAt(s, pattern, i)
  {
    var k := offset;
    while k + |pattern| <= |s|
      invariant offset <= k
      invariant forall i | offset <= i < k :: !OccursAt(s, pattern, i)
    {
      if s[k..k + |pattern|] == pattern { return k; }
      k := k + 1;
    }
    return -1;
  }

  // ---------------------------------------------------------------------------
  // Sentences
  // ---------------------------------------------------------------------------

  /** A sentence ends at a terminator that white space or the end follows. */
  predicate EndsAt(u: Unicode, text: string, i: int)
  {
    0 <= i < |text| && IsTerminator(text[i]) && (i + 1 == |text| || u.space(text[i + 1]))
  }

  function NonBlank(u: Unicode, s: string): seq<string>
  {
    var t := Trimmed(u, s);
    if t == "" then [] else [t]
  }

  function SentencesFrom(u: Unicode, text: string, start: nat, i: nat): seq<string>
    requires start <= i <= |text|
    decreases |text| - i
  {
    if i == |text| then NonBlank(u, text[start..])
    else if EndsAt(u, text, i) then NonBlank(u, text[start..i + 1]) + SentencesFrom(u, text, i + 1, i + 1)
    else SentencesFrom(u, text, start, i + 1)
  }

  function Sentences(u: Unicode, text: string): seq<string>
  {
    SentencesFrom(u, text, 0, 0)
  }

  /** splitSentences as written. */
  method SplitSentences(u: Unicode, text: string) returns (out: seq<string>)
    ensures out == Sentences(u, text)
  {
    out := [];
    var start := 0;
    for i := 0 to |text|
      invariant start <= i
      invariant out + SentencesFrom(u, text, start, i) == Sentences(u, text)
    {
      if !IsTerminator(text[i]) { continue; }
      if i + 1 < |text| && !u.space(text[i + 1]) { continue; }
      var sentence := Trimmed(u, text[start..i + 1]);
      if sentence != "" {
        out := out + [sentence];
      }
      start := i + 1;
    }
    var tail := Trimmed(u, text[start..]);
    if tail != "" {
      out := out + [tail];
    }
  }

  lemma SliceOfSlice(text: string, start: nat, end: nat, l: nat, r: nat)
    requires start <= end <= |text| && l <= r <= end - start
    ensures text[start..end][l..r] == text[start + l..start + r]
  {
    var part := text[start..end];
    assert |part[l..r]| == |text[start + l..start + r]|;
    assert forall k | 0 <= k < r - l :: part[l..r][k] == text[start + l..start + r][k];
  }

  lemma PartCovers(u: Unicode, text: string, start: nat, end: nat, a: nat, b: nat) returns (l: nat, r: nat)
    requires start <= a < b <= end <= |text| && !u.space(text[a]) && !u.space(text[b - 1])
    ensures l <= a && b <= r <= |text| && NonBlank(u, text[start..end]) == [text[l..r]]
  {
    var part := text[start..end];
    assert part[a - start] == text[a] && part[b - 1 - start] == text[b - 1];
    var l', r' := TrimKeeps(u, part, a - start, b - start);
    l, r := l' + start, r' + start;
    SliceOfSlice(text, start, end, l', r');
  }

  /** A stretch of text with non-space ends and no sentence end before its last
      character lies inside one sentence. */
  lemma {:induction false} InsideOneSentence(u: Unicode, text: string, start: nat, i: nat, a: nat, b: nat)
    returns (l: nat, r: nat)
    requires start <= i <= |text| && start <= a < b <= |text|
    requires !u.space(text[a]) && !u.space(text[b - 1])
    requires forall e | a <= e < b - 1 :: !EndsAt(u, text, e)
    ensures l <= a && b <= r <= |text| && text[l..r] in SentencesFrom(u, text, start, i)
    decreases |text| - i
  {
    if i == |text| {
      assert text[start..] == text[start..|text|];
      l, r := PartCovers(u, text, start, |text|, a, b);
    } else if EndsAt(u, text, i) && i >= a {
      assert i >= b - 1;
      l, r := PartCovers(u, text, start, i + 1, a, b);
      assert text[l..r] in NonBlank(u, text[start..i + 1]);
    } else if EndsAt(u, text, i) {
      l, r := InsideOneSentence(u, text, i + 1, i + 1, a, b);
    } else {
      l, r := InsideOneSentence(u, text, start, i + 1, a, b);
    }
  }

  /** A position where a sentence can begin. */
  predicate Opens(u: Unicode, text: string, a: nat)
  {
    a == 0 || (a <= |text| && (IsTerminator(text[a - 1]) || u.space(text[a - 1])))
  }

  /** A position where one can be over. */
  predicate Closes(u: Unicode, text: string, b: nat)
  {
    b == |text| || (0 < b < |text| && (IsTerminator(text[b - 1]) || u.space(text[b])))
  }

  /** A sentence is a slice of the text between such positions. */
  lemma {:induction false} SentenceIsSlice(u: Unicode, text: string, start: nat, i: nat, s: string)
    returns (a: nat, b: nat)
    requires start <= i <= |text| && Opens(u, text, start) && s in SentencesFrom(u, text, start, i)
    ensures a <= b <= |text| && s == text[a..b] && Opens(u, text, a) && Closes(u, text, b)
    decreases |text| - i
  {
    if i == |text| {
      assert text[start..] == text[start..|text|];
      a, b := PartIsSlice(u, text, text[start..], start, |text|);
    } else if EndsAt(u, text, i) {
      if s in NonBlank(u, text[start..i + 1]) {
        a, b := PartIsSlice(u, text, text[start..i + 1], start, i + 1);
      } else {
        a, b := SentenceIsSlice(u, text, i + 1, i + 1, s);
      }
    } else {
      a, b := SentenceIsSlice(u, text, start, i + 1, s);
    }
  }

  lemma PartIsSlice(u: Unicode, text: string, part: string, start: nat, end: nat) returns (a: nat, b: nat)
    requires start <= end <= |text| && part == text[start..end] && Trimmed(u, part) != ""
    requires Opens(u, text, start) && Closes(u, text, end)
    ensures a <= b <= |text| && Trimmed(u, part) == text[a..b] && Opens(u, text, a) && Closes(u, text, b)
  {
    var l, r := TrimmedPart(u, text, part, start, end);
    a, b := start + l, start + r;
  }

  lemma TrimmedPart(u: Unicode, text: string, part: string, start: nat, end: nat) returns (l: nat, r: nat)
    requires start <= end <= |text| && part == text[start..end] && Trimmed(u, part) != ""
    ensures l < r <= end - start && Trimmed(u, part) == text[start + l..start + r]
    ensures (l > 0 ==> u.space(text[start + l - 1])) && (r < end - start ==> u.space(text[start + r]))
  {
    l, r := TrimIsSlice(u, part);
    SliceOfSlice(text, start, end, l, r);
    assert forall k | 0 <= k < |part| :: part[k] == text[start + k];
  }

  lemma TrimIsSlice(u: Unicode, s: string) returns (l: nat, r: nat)
    requires Trimmed(u, s) != ""
    ensures l < r <= |s| && Trimmed(u, s) == s[l..r]
    ensures (l > 0 ==> u.space(s[l - 1])) && (r < |s| ==> u.space(s[r]))
  {
    l, r := SkipForward(u, s, 0), SkipBack(u, s, |s|);
  }

  /** What a text holds, trimmed, its trimmed self holds. */
  lemma TrimKeepsContents(u: Unicode, s: string, part: string, i: nat)
    requires OccursAt(s, part, i)
    ensures Contains(Trimmed(u, s), Trimmed(u, part))
  {
    if Trimmed(u, part) != "" { TrimKeepsText(u, s, part, i); } else { ContainsNothing(Trimmed(u, s)); }
  }

  lemma ContainsNothing(s: string)
    ensures Contains(s, "")
  {
    assert OccursAt(s, "", 0);
  }

  lemma TrimKeepsText(u: Unicode, s: string, part: string, i: nat)
    requires OccursAt(s, part, i) && Trimmed(u, part) != ""
    ensures Contains(Trimmed(u, s), Trimmed(u, part))
  {
    var l, r := TrimmedPart(u, s, part, i, i + |part|);
    HeldInTrim(u, s, Trimmed(u, part), i + l, i + r);
  }

  lemma HeldInTrim(u: Unicode, s: string, held: string, a: nat, b: nat)
    requires a < b <= |s| && held == s[a..b] && !u.space(held[0]) && !u.space(held[|held| - 1])
    ensures Contains(Trimmed(u, s), held)
  {
    assert held[0] == s[a] && held[b - a - 1] == s[b - 1];
    var x, y := TrimKeeps(u, s, a, b);
    SliceOfSlice(s, x, y, a - x, b - x);
    assert OccursAt(Trimmed(u, s), held, a - x);
  }

  /** One sentence on its own: trimmed, non-empty, no sentence end inside. */
  ghost predicate IsSentence(u: Unicode, s: string)
  {
    s != "" && !u.space(s[0]) && !u.space(s[|s| - 1]) && forall e | 0 <= e < |s| - 1 :: !EndsAt(u, s, e)
  }

  predicate Terminated(s: string)
  {
    s != "" && IsTerminator(s[|s| - 1])
  }

  /** A list of sentences of which only the last may lack a terminator. */
  ghost predicate IsSentenceList(u: Unicode, list: seq<string>)
    decreases |list|
  {
    list != [] ==>
      && IsSentence(u, list[0])
      && (|list| > 1 ==> Terminated(list[0]))
      && IsSentenceList(u, list[1..])
  }

  lemma {:induction false} NonBlankIsSentence(u: Unicode, text: string, start: nat, end: nat)
    requires Lawful(u)
    requires start <= end <= |text| && forall e | start <= e < end - 1 :: !EndsAt(u, text, e)
    ensures
      var t := Trimmed(u, text[start..end]);
      t != "" ==> IsSentence(u, t) && (start < end && EndsAt(u, text, end - 1) ==> Terminated(t))
  {
    var part := text[start..end];
    var l, r := SkipForward(u, part, 0), SkipBack(u, part, |part|);
    if l < r {
      var t := part[l..r];
      SliceOfSlice(text, start, end, l, r);
      forall e | 0 <= e < |t| - 1 ensures !EndsAt(u, t, e) {
        assert t[e] == text[start + l..start + r][e] && t[e + 1] == text[start + l..start + r][e + 1];
        assert !EndsAt(u, text, start + l + e);
      }
      if start < end && EndsAt(u, text, end - 1) {
        assert part[|part| - 1] == text[end - 1];
        assert r == |part|;
      }
    }
  }

  lemma {:induction false} SplittingGivesSentences(u: Unicode, text: string, start: nat, i: nat)
    requires Lawful(u)
    requires start <= i <= |text| && forall e | start <= e < i :: !EndsAt(u, text, e)
    ensures IsSentenceList(u, SentencesFrom(u, text, start, i))
    decreases |text| - i
  {
    if i == |text| {
      assert text[start..] == text[start..|text|];
      NonBlankIsSentence(u, text, start, |text|);
    } else if EndsAt(u, text, i) {
      NonBlankIsSentence(u, text, start, i + 1);
      var first, rest := NonBlank(u, text[start..i + 1]), SentencesFrom(u, text, i + 1, i + 1);
      SplittingGivesSentences(u, text, i + 1, i + 1);
      if first != [] { assert (first + rest)[1..] == rest; } else { assert first + rest == rest; }
    } else {
      SplittingGivesSentences(u, text, start, i + 1);
    }
  }

  /** strings.Join(list, " "). */
  function Joined(list: seq<string>): string
    decreases |list|
  {
    if list == [] then ""
    else if |list| == 1 then list[0]
    else list[0] + " " + Joined(list[1..])
  }

  lemma EndsShift(u: Unicode, text: string, start: nat, i: nat)
    requires start <= i < |text|
    ensures EndsAt(u, text, i) <==> EndsAt(u, text[start..], i - start)
    ensures text[start..][0..i + 1 - start] == text[start..i + 1] && text[start..][i + 1 - start..] == text[i + 1..]
  {
  }

  lemma EndedHere(u: Unicode, text: string, start: nat, i: nat)
    requires start <= i < |text| && EndsAt(u, text, i)
    requires SentencesFrom(u, text, i + 1, i + 1) == SentencesFrom(u, text[i + 1..], 0, 0)
    requires SentencesFrom(u, text[start..], i + 1 - start, i + 1 - start)
          == SentencesFrom(u, text[start..][i + 1 - start..], 0, 0)
    ensures SentencesFrom(u, text, start, i) == SentencesFrom(u, text[start..], 0, i - start)
  {
    EndsShift(u, text, start, i);
  }

  lemma {:induction false} SentencesIgnoreWhatIsBehind(u: Unicode, text: string, start: nat, i: nat)
    requires start <= i <= |text|
    ensures SentencesFrom(u, text, start, i) == SentencesFrom(u, text[start..], 0, i - start)
    decreases |text| - i
  {
    if i == |text| {
      assert text[start..][0..] == text[start..];
    } else {
      EndsShift(u, text, start, i);
      if EndsAt(u, text, i) {
        SentencesIgnoreWhatIsBehind(u, text, i + 1, i + 1);
        SentencesIgnoreWhatIsBehind(u, text[start..], i + 1 - start, i + 1 - start);
        EndedHere(u, text, start, i);
      } else {
        SentencesIgnoreWhatIsBehind(u, text, start, i + 1);
      }
    }
  }

  lemma {:induction false} SkipForwardShifts(u: Unicode, s: string, i: nat)
    requires i <= |s|
    ensures SkipForward(u, " " + s, i + 1) == 1 + SkipForward(u, s, i)
    decreases |s| - i
  {
    if i < |s| {
      assert (" " + s)[i + 1] == s[i];
      SkipForwardShifts(u, s, i + 1);
    }
  }

  lemma {:induction false} SkipBackShifts(u: Unicode, s: string, i: nat)
    requires i <= |s| && exists j | 0 <= j < i :: !u.space(s[j])
    ensures SkipBack(u, " " + s, i + 1) == 1 + SkipBack(u, s, i)
    decreases i
  {
    assert (" " + s)[i] == s[i - 1];
    if u.space(s[i - 1]) {
      SkipBackShifts(u, s, i - 1);
    }
  }

  lemma ShiftedSlice(s: string, l: nat, r: nat)
    requires l <= r <= |s|
    ensures (" " + s)[l + 1..r + 1] == s[l..r]
  {
  }

  lemma ForwardOverSpace(u: Unicode, s: string)
    requires Lawful(u)
    ensures SkipForward(u, " " + s, 0) == 1 + SkipForward(u, s, 0)
  {
    SkipForwardShifts(u, s, 0);
  }

  lemma TrimSkipsLeadingSpace(u: Unicode, s: string)
    requires Lawful(u)
    ensures Trimmed(u, " " + s) == Trimmed(u, s)
  {
    ForwardOverSpace(u, s);
    var l, r := SkipForward(u, s, 0), SkipBack(u, s, |s|);
    if l < |s| {
      SkipBackShifts(u, s, |s|);
      if l < r { ShiftedSlice(s, l, r); }
    }
  }

  lemma SpacedSlices(u: Unicode, s: string, i: nat)
    requires i < |s|
    ensures EndsAt(u, " " + s, i + 1) <==> EndsAt(u, s, i)
    ensures (" " + s)[0..i + 2] == " " + s[0..i + 1] && (" " + s)[i + 2..] == s[i + 1..]
  {
  }

  lemma {:induction false} SentencesSkipLeadingSpace(u: Unicode, s: string, i: nat)
    requires Lawful(u)
    requires i <= |s|
    ensures SentencesFrom(u, " " + s, 0, i + 1) == SentencesFrom(u, s, 0, i)
    decreases |s| - i
  {
    if i == |s| {
      assert (" " + s)[0..] == " " + s && s[0..] == s;
      TrimSkipsLeadingSpace(u, s);
    } else {
      SpacedSlices(u, s, i);
      if EndsAt(u, s, i) {
        TrimSkipsLeadingSpace(u, s[0..i + 1]);
        SentencesIgnoreWhatIsBehind(u, " " + s, i + 2, i + 2);
        SentencesIgnoreWhatIsBehind(u, s, i + 1, i + 1);
      } else {
        SentencesSkipLeadingSpace(u, s, i + 1);
      }
    }
  }

  /** Scanning a sentence finds no end before its last character. */
  lemma {:induction false} ScanSentence(u: Unicode, text: string, s: string, i: nat)
    requires s <= text && IsSentence(u, s) && i < |s|
    ensures SentencesFrom(u, text, 0, i) == SentencesFrom(u, text, 0, |s| - 1)
    decreases |s| - i
  {
    if i < |s| - 1 {
      assert text[i] == s[i] && text[i + 1] == s[i + 1];
      assert !EndsAt(u, s, i);
      ScanSentence(u, text, s, i + 1);
    }
  }

  lemma SplitLastSentence(u: Unicode, s: string)
    requires IsSentence(u, s)
    ensures Sentences(u, s) == [s]
  {
    ScanSentence(u, s, s, 0);
    TrimOfTrimmed(u, s);
    assert s[0..] == s && s[0..|s|] == s && s[|s|..] == "";
    assert SentencesFrom(u, s, |s|, |s|) == [];
  }

  lemma SplitFirstSentence(u: Unicode, s: string, rest: string)
    requires Lawful(u)
    requires IsSentence(u, s) && Terminated(s)
    ensures Sentences(u, s + " " + rest) == [s] + Sentences(u, rest)
  {
    var text := s + " " + rest;
    ScanSentence(u, text, s, 0);
    TrimOfTrimmed(u, s);
    assert text[|s| - 1] == s[|s| - 1] && text[|s|] == ' ';
    assert text[0..|s|] == s && text[|s|..] == " " + rest;
    SentencesIgnoreWhatIsBehind(u, text, |s|, |s|);
    SentencesSkipLeadingSpace(u, rest, 0);
    assert !EndsAt(u, " " + rest, 0);
  }

  /** Splitting a join of sentences returns those sentences. */
  lemma {:induction false} SplitUndoesJoin(u: Unicode, list: seq<string>)
    requires Lawful(u)
    requires IsSentenceList(u, list)
    ensures Sentences(u, Joined(list)) == list
    decreases |list|
  {
    if |list| == 1 {
      SplitLastSentence(u, list[0]);
    } else if |list| > 1 {
      SplitFirstSentence(u, list[0], Joined(list[1..]));
      SplitUndoesJoin(u, list[1..]);
      assert list == [list[0]] + list[1..];
    }
  }

  /** The sentences a guard keeps, in order. */
  function Kept(list: seq<string>, drop: string -> bool): seq<string>
    decreases |list|
  {
    if list == [] then []
    else if drop(list[0]) then Kept(list[1..], drop)
    else [list[0]] + Kept(list[1..], drop)
  }

  /** One more item at the end. */
  lemma {:induction false} KeptAppend(list: seq<string>, s: string, drop: string -> bool)
    ensures Kept(list + [s], drop) == Kept(list, drop) + if drop(s) then [] else [s]
    decreases |list|
  {
    if list == [] {
      assert ([] + [s])[1..] == [];
    } else {
      assert (list + [s])[1..] == list[1..] + [s];
      KeptAppend(list[1..], s, drop);
    }
  }

  /** Keeping keeps exactly what is not dropped, and everything only if nothing
      is dropped. */
  lemma {:induction false} KeptOrDropped(list: seq<string>, drop: string -> bool)
    ensures forall s :: s in Kept(list, drop) <==> s in list && !drop(s)
    ensures |Kept(list, drop)| <= |list|
    ensures |Kept(list, drop)| == |list| <==> forall s | s in list :: !drop(s)
    ensures |Kept(list, drop)| == |list| ==> Kept(list, drop) == list
    decreases |list|
  {
    if list != [] {
      KeptOrDropped(list[1..], drop);
      assert list == [list[0]] + list[1..];
    }
  }

  lemma {:induction false} KeptIsSentenceList(u: Unicode, list: seq<string>, drop: string -> bool)
    requires IsSentenceList(u, list)
    ensures IsSentenceList(u, Kept(list, drop))
    decreases |list|
  {
    if list != [] {
      KeptIsSentenceList(u, list[1..], drop);
      var rest := Kept(list[1..], drop);
      assert ([list[0]] + rest)[1..] == rest;
      KeptOrDropped(list[1..], drop);
    }
  }

  lemma {:induction false} JoinedIsTrimmed(u: Unicode, list: seq<string>)
    requires IsSentenceList(u, list)
    ensures list != [] ==> Joined(list) != "" && !u.space(Joined(list)[0]) && !u.space(Joined(list)[|Joined(list)| - 1])
    ensures Trimmed(u, Joined(list)) == Joined(list)
    decreases |list|
  {
    if |list| > 1 {
      JoinedIsTrimmed(u, list[1..]);
    }
    TrimOfTrimmed(u, Joined(list));
  }
}
