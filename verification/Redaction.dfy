/** Finding refused values in text and redacting the sentences that name them
    (internal/remediation/refused_values.go). */
module Redaction {
  import opened Json
  import opened Text

  /** Character classes and the quantity parser behind the token search.
      `before` and `after` say whether the byte on that side of a match reads as
      alphanumeric; `inQuantity` is letter, digit or dot. */
  datatype Scanner = Scanner(
    before: char -> bool, after: char -> bool,
    inQuantity: char -> bool, digit: char -> bool,
    parse: string -> Option<real>)

  ghost predicate LawfulScanner(u: Unicode, t: Scanner)
  {
    forall c | u.space(c) :: !t.inQuantity(c)
  }

  datatype RefusedValue = RefusedValue(field: Path, value: string, quantity: Option<real>)

  // ---------------------------------------------------------------------------
  // Mentions
  // ---------------------------------------------------------------------------

  /** An occurrence that no alphanumeric touches. */
  predicate TokenAt(t: Scanner, text: string, value: string, i: int)
  {
    && OccursAt(text, value, i)
    && !(i > 0 && t.before(text[i - 1]))
    && !(i + |value| < |text| && t.after(text[i + |value|]))
  }

  ghost predicate ContainsToken(t: Scanner, text: string, value: string)
  {
    exists i :: TokenAt(t, text, value, i)
  }

  predicate IsSlice(text: string, value: string, i: int, j: int)
  {
    0 <= i <= j <= |text| && text[i..j] == value
  }

  /** A token is a slice of the text with no alphanumeric on either side. */
  lemma TokenIsSlice(t: Scanner, text: string, value: string)
    ensures ContainsToken(t, text, value) <==>
            exists i, j :: IsSlice(text, value, i, j) &&
                           (i == 0 || !t.before(text[i - 1])) && (j == |text| || !t.after(text[j]))
  {
    if i :| TokenAt(t, text, value, i) {
      assert IsSlice(text, value, i, i + |value|);
    }
    if i, j :| IsSlice(text, value, i, j) && (i == 0 || !t.before(text[i - 1])) && (j == |text| || !t.after(text[j])) {
      assert TokenAt(t, text, value, i);
    }
  }

  /** containsToken's search loop. */
  method FindToken(t: Scanner, text: string, value: string) returns (found: bool)
    ensures found <==> ContainsToken(t, text, value)
    ensures found <==> exists i, j :: IsSlice(text, value, i, j) &&
                                     (i == 0 || !t.before(text[i - 1])) && (j == |text| || !t.after(text[j]))
  {
    TokenIsSlice(t, text, value);
    var offset := 0;
    while offset <= |text|
      invariant forall i | 0 <= i < offset :: !TokenAt(t, text, value, i)
    {
      var start := Index(text, value, offset);
      if start < 0 { return false; }
      if !(start > 0 && t.before(text[start - 1])) &&
         !(start + |value| < |text| && t.after(text[start + |value|])) {
        assert TokenAt(t, text, value, start);
        return true;
      }
      offset := start + 1;
    }
    return false;
  }

  /** A maximal stretch of quantity characters. */
  predicate RunAt(t: Scanner, text: string, i: int, j: int)
  {
    && 0 <= i < j <= |text|
    && (forall k | i <= k < j :: t.inQuantity(text[k]))
    && (i == 0 || !t.inQuantity(text[i - 1]))
    && (j == |text| || !t.inQuantity(text[j]))
  }

  ghost predicate QuantityAt(t: Scanner, text: string, i: int, j: int, q: real)
  {
    RunAt(t, text, i, j) && (exists k | i <= k < j :: t.digit(text[k])) && t.parse(text[i..j]) == Some(q)
  }

  ghost predicate HoldsQuantity(t: Scanner, text: string, q: real)
  {
    exists i, j :: QuantityAt(t, text, i, j, q)
  }

  /** A stretch of quantity characters with a digit, and none beside it, that parses. */
  ghost predicate ReadsAs(t: Scanner, text: string, run: string, i: int, j: int, q: real)
  {
    && IsSlice(text, run, i, j) && run != "" && t.parse(run) == Some(q)
    && (forall c | c in run :: t.inQuantity(c)) && (exists c | c in run :: t.digit(c))
    && (i == 0 || !t.inQuantity(text[i - 1])) && (j == |text| || !t.inQuantity(text[j]))
  }

  lemma QuantityReads(t: Scanner, text: string, q: real)
    ensures HoldsQuantity(t, text, q) <==> exists run, i, j :: ReadsAs(t, text, run, i, j, q)
  {
    if i, j :| QuantityAt(t, text, i, j, q) { QuantityReadsAs(t, text, i, j, q); }
    if run, i, j :| ReadsAs(t, text, run, i, j, q) { ReadsAsQuantity(t, text, run, i, j, q); }
  }

  lemma QuantityReadsAs(t: Scanner, text: string, i: int, j: int, q: real)
    requires QuantityAt(t, text, i, j, q)
    ensures ReadsAs(t, text, text[i..j], i, j, q)
  {
    var run := text[i..j];
    assert forall k | 0 <= k < |run| :: run[k] == text[i + k];
    var k :| i <= k < j && t.digit(text[k]);
    assert run[k - i] in run && t.digit(run[k - i]);
  }

  lemma ReadsAsQuantity(t: Scanner, text: string, run: string, i: int, j: int, q: real)
    requires ReadsAs(t, text, run, i, j, q)
    ensures QuantityAt(t, text, i, j, q)
  {
    assert forall k | i <= k < j :: text[k] == run[k - i];
    forall k | i <= k < j ensures t.inQuantity(text[k]) { assert run[k - i] in run; }
    var c :| c in run && t.digit(c);
    var n :| 0 <= n < |run| && run[n] == c;
    assert t.digit(text[i + n]);
  }

  /** quantityTokens: cut on everything that is not a quantity character and
      parse the pieces that hold a digit. */
  method QuantityTokens(t: Scanner, text: string) returns (out: seq<real>)
    ensures forall q :: q in out <==> HoldsQuantity(t, text, q)
    ensures forall q :: q in out <==> exists run, i, j :: ReadsAs(t, text, run, i, j, q)
  {
    forall q ensures HoldsQuantity(t, text, q) <==> exists run, i, j :: ReadsAs(t, text, run, i, j, q) {
      QuantityReads(t, text, q);
    }
    out := [];
    var i := 0;
    while i < |text|
      invariant 0 <= i <= |text|
      invariant 0 < i < |text| ==> !t.inQuantity(text[i - 1]) || !t.inQuantity(text[i])
      invariant forall q | q in out :: HoldsQuantity(t, text, q)
      invariant forall q, a, b | QuantityAt(t, text, a, b, q) && a < i :: q in out
      decreases |text| - i
    {
      if !t.inQuantity(text[i]) {
        i := i + 1;
        continue;
      }
      var j, digits := i, false;
      while j < |text| && t.inQuantity(text[j])
        invariant i <= j <= |text|
        invariant forall k | i <= k < j :: t.inQuantity(text[k])
        invariant digits <==> exists k | i <= k < j :: t.digit(text[k])
      {
        digits := digits || t.digit(text[j]);
        j := j + 1;
      }
      assert RunAt(t, text, i, j);
      ghost var before := out;
      var parsed := t.parse(text[i..j]);
      if digits && parsed.Some? {
        assert QuantityAt(t, text, i, j, parsed.value);
        out := out + [parsed.value];
      }
      forall q, a, b | QuantityAt(t, text, a, b, q) && a < j ensures q in out {
        if a < i {
          assert q in before;
        } else {
          assert a == i && b == j;
        }
      }
      i := j;
    }
  }

  ghost predicate Mentions(t: Scanner, text: string, r: RefusedValue)
  {
    && r.value != "" && text != ""
    && (ContainsToken(t, text, r.value) || (r.quantity.Some? && HoldsQuantity(t, text, r.quantity.value)))
  }

  ghost predicate MentionsAny(t: Scanner, text: string, refused: seq<RefusedValue>)
  {
    exists r | r in refused :: Mentions(t, text, r)
  }

  /** mentionsRefusedValue. */
  method MentionsRefusedValue(t: Scanner, text: string, r: RefusedValue) returns (found: bool)
    ensures found <==> Mentions(t, text, r)
  {
    if r.value == "" || text == "" { return false; }
    found := FindToken(t, text, r.value);
    if found || r.quantity.None? { return; }
    var tokens := QuantityTokens(t, text);
    return r.quantity.value in tokens;
  }

  /** offersRefusedValue, and the same loop over a sentence. */
  method OffersRefusedValue(t: Scanner, text: string, refused: seq<RefusedValue>) returns (found: bool)
    ensures found <==> MentionsAny(t, text, refused)
  {
    for i := 0 to |refused|
      invariant forall k | 0 <= k < i :: !Mentions(t, text, refused[k])
    {
      var one := MentionsRefusedValue(t, text, refused[i]);
      if one { return true; }
    }
    return false;
  }

  ghost predicate BlankFree(u: Unicode, s: string)
  {
    forall c | c in s :: !u.space(c)
  }

  // ---------------------------------------------------------------------------
  // Mentions in two parts of a text
  // ---------------------------------------------------------------------------

  /** The text has a blank at the cut, and a blank is no alphanumeric. */
  ghost predicate CutAtBlank(u: Unicode, t: Scanner, text: string, m: nat)
  {
    m < |text| && text[m] == ' ' && u.space(' ') && !t.before(' ') && !t.after(' ') && !t.inQuantity(' ')
  }

  lemma TokenInAPart(u: Unicode, t: Scanner, text: string, value: string, m: nat, i: nat)
    requires CutAtBlank(u, t, text, m) && value != "" && BlankFree(u, value) && TokenAt(t, text, value, i)
    ensures ContainsToken(t, text[..m], value) || ContainsToken(t, text[m..], value)
  {
    assert forall k | 0 <= k < |value| :: value[k] in value;
    TokenChars(t, text, value, i);
    if i + |value| <= m {
      TokenMoves(t, text, value, i, 0, m);
      assert text[0..m] == text[..m];
    } else {
      TokenMoves(t, text, value, i, m, |text|);
      assert text[m..|text|] == text[m..];
    }
  }

  lemma TokenInTheRest(u: Unicode, t: Scanner, text: string, value: string, m: nat, i: nat)
    requires CutAtBlank(u, t, text, m) && value != "" && BlankFree(u, value) && TokenAt(t, text[m..], value, i)
    ensures TokenAt(t, text, value, m + i)
  {
    assert value[0] in value;
    TokenChars(t, text[m..], value, i);
    SliceOfSlice(text, m, |text|, i, i + |value|);
    assert text[m..|text|] == text[m..];
  }

  lemma TokenOfParts(u: Unicode, t: Scanner, text: string, value: string, m: nat)
    requires CutAtBlank(u, t, text, m) && value != "" && BlankFree(u, value)
    ensures ContainsToken(t, text, value) <==> ContainsToken(t, text[..m], value) || ContainsToken(t, text[m..], value)
  {
    if i :| TokenAt(t, text, value, i) { TokenInAPart(u, t, text, value, m, i); }
    if i :| TokenAt(t, text[..m], value, i) {
      SliceOfSlice(text, 0, m, i, i + |value|);
      assert text[0..m] == text[..m] && TokenAt(t, text, value, i);
    }
    if i :| TokenAt(t, text[m..], value, i) { TokenInTheRest(u, t, text, value, m, i); }
  }

  lemma RunMoves(t: Scanner, text: string, l: nat, r: nat, i: nat, j: nat, q: real)
    requires l <= r <= |text| && i < j <= r - l
    requires (i > 0 || l == 0 || !t.inQuantity(text[l - 1])) && (j < r - l || r == |text| || !t.inQuantity(text[r]))
    ensures QuantityAt(t, text[l..r], i, j, q) <==> QuantityAt(t, text, l + i, l + j, q)
  {
    var part := text[l..r];
    assert forall k | 0 <= k < r - l :: part[k] == text[l + k];
    SliceOfSlice(text, l, r, i, j);
    forall k | l + i <= k < l + j ensures part[k - l] == text[k] {}
  }

  lemma QuantityOfParts(u: Unicode, t: Scanner, text: string, q: real, m: nat)
    requires CutAtBlank(u, t, text, m)
    ensures HoldsQuantity(t, text, q) <==> HoldsQuantity(t, text[..m], q) || HoldsQuantity(t, text[m..], q)
  {
    assert text[0..m] == text[..m] && text[m..|text|] == text[m..];
    if i, j :| QuantityAt(t, text, i, j, q) {
      assert !(i <= m < j);
      if j <= m { RunMoves(t, text, 0, m, i, j, q); } else { RunMoves(t, text, m, |text|, i - m, j - m, q); }
    }
    if i, j :| QuantityAt(t, text[..m], i, j, q) { RunMoves(t, text, 0, m, i, j, q); }
    if i, j :| QuantityAt(t, text[m..], i, j, q) {
      assert text[m..][0] == ' ';
      RunMoves(t, text, m, |text|, i, j, q);
    }
  }

  /** A blank-free value is mentioned in a text exactly when it is in the part
      before a blank or in the rest. */
  lemma MentionsOfParts(u: Unicode, t: Scanner, text: string, r: RefusedValue, m: nat)
    requires CutAtBlank(u, t, text, m) && BlankFree(u, r.value)
    ensures Mentions(t, text, r) <==> Mentions(t, text[..m], r) || Mentions(t, text[m..], r)
  {
    if r.value != "" {
      TokenOfParts(u, t, text, r.value, m);
      if r.quantity.Some? { QuantityOfParts(u, t, text, r.quantity.value, m); }
    }
  }

  /** A blank-free value never straddles two sentences. */
  lemma TokenInSentence(u: Unicode, t: Scanner, text: string, value: string, a: nat) returns (s: string)
    requires Lawful(u) && value != "" && BlankFree(u, value) && TokenAt(t, text, value, a)
    ensures s in Sentences(u, text) && ContainsToken(t, s, value)
  {
    var b := a + |value|;
    TokenChars(t, text, value, a);
    forall e | a <= e < b - 1 ensures !EndsAt(u, text, e) {
      assert text[e + 1] == value[e + 1 - a] && value[e + 1 - a] in value;
    }
    assert value[0] in value && value[|value| - 1] in value;
    var l, r := InsideOneSentence(u, text, 0, 0, a, b);
    s := text[l..r];
    TokenMoves(t, text, value, a, l, r);
  }

  lemma TokenChars(t: Scanner, text: string, value: string, a: nat)
    requires TokenAt(t, text, value, a)
    ensures forall k | a <= k < a + |value| :: text[k] == value[k - a]
  {
  }

  lemma TokenMoves(t: Scanner, text: string, value: string, a: nat, l: nat, r: nat)
    requires TokenAt(t, text, value, a) && l <= a && a + |value| <= r <= |text|
    ensures TokenAt(t, text[l..r], value, a - l)
  {
    SliceOfSlice(text, l, r, a - l, a + |value| - l);
  }

  lemma QuantityInSentence(u: Unicode, t: Scanner, text: string, a: nat, b: nat, q: real) returns (s: string)
    requires Lawful(u) && LawfulScanner(u, t) && QuantityAt(t, text, a, b, q)
    ensures s in Sentences(u, text) && HoldsQuantity(t, s, q)
  {
    forall e | a <= e < b - 1 ensures !EndsAt(u, text, e) {
      assert t.inQuantity(text[e + 1]);
    }
    assert t.inQuantity(text[a]) && t.inQuantity(text[b - 1]);
    var l, r := InsideOneSentence(u, text, 0, 0, a, b);
    s := text[l..r];
    assert forall k | 0 <= k < |s| :: s[k] == text[l + k];
    SliceOfSlice(text, l, r, a - l, b - l);
    var d :| a <= d < b && t.digit(text[d]);
    assert s[d - l] == text[d];
    assert RunAt(t, s, a - l, b - l);
    assert QuantityAt(t, s, a - l, b - l, q);
  }

  lemma MentionInSentence(u: Unicode, t: Scanner, text: string, r: RefusedValue) returns (s: string)
    requires Lawful(u) && LawfulScanner(u, t) && BlankFree(u, r.value) && Mentions(t, text, r)
    ensures s in Sentences(u, text) && Mentions(t, s, r)
  {
    if i :| TokenAt(t, text, r.value, i) {
      s := TokenInSentence(u, t, text, r.value, i);
    } else {
      var i, j :| QuantityAt(t, text, i, j, r.quantity.value);
      s := QuantityInSentence(u, t, text, i, j, r.quantity.value);
    }
  }

  lemma NoSentenceMentions(u: Unicode, t: Scanner, text: string, r: RefusedValue)
    requires Lawful(u) && LawfulScanner(u, t) && BlankFree(u, r.value)
    requires forall s | s in Sentences(u, text) :: !Mentions(t, s, r)
    ensures !Mentions(t, text, r)
  {
    if Mentions(t, text, r) {
      var s := MentionInSentence(u, t, text, r);
    }
  }

  // ---------------------------------------------------------------------------
  // Replacing and masking
  // ---------------------------------------------------------------------------

  function FirstMatch(s: string, pairs: seq<(string, string)>): (m: Option<(string, string)>)
    ensures m.Some? ==> m.value in pairs && m.value.0 <= s
    ensures m.None? ==> forall p | p in pairs :: !(p.0 <= s)
    decreases |pairs|
  {
    if pairs == [] then None
    else if pairs[0].0 <= s then Some(pairs[0])
    else FirstMatch(s, pairs[1..])
  }

  /** strings.NewReplacer(pairs...).Replace(s); with one pair, strings.ReplaceAll. */
  function Replaced(s: string, pairs: seq<(string, string)>): string
    requires forall p | p in pairs :: p.0 != ""
    decreases |s|
  {
    if s == "" then ""
    else match FirstMatch(s, pairs)
      case Some(p) => p.1 + Replaced(s[|p.0|..], pairs)
      case None => [s[0]] + Replaced(s[1..], pairs)
  }

  /** The i-th protected span's token: no refused value can match it. */
  function Token(i: nat): (token: string)
    ensures |token| == 13
  {
    "\0protected-" + [(('a' as int) + i % 26) as char] + "\0"
  }

  /** maskProtected's loop from the i-th span on: the masked text and the
      replacements that undo it. */
  ghost function MaskedFrom(masked: string, protected: seq<string>, i: nat): (r: (string, seq<(string, string)>))
    requires i <= |protected|
    ensures forall p | p in r.1 :: p.0 != ""
    decreases |protected| - i
  {
    if i == |protected| then (masked, [])
    else
      var span := protected[i];
      if span == "" || !Contains(masked, span) then MaskedFrom(masked, protected, i + 1)
      else
        var (text, pairs) := MaskedFrom(Replaced(masked, [(span, Token(i))]), protected, i + 1);
        (text, [(Token(i), span)] + pairs)
  }

  method MaskProtected(text: string, protected: seq<string>)
    returns (masked: string, replacements: seq<(string, string)>)
    ensures (masked, replacements) == MaskedFrom(text, protected, 0)
  {
    masked, replacements := text, [];
    for i := 0 to |protected|
      invariant MaskedFrom(text, protected, 0).0 == MaskedFrom(masked, protected, i).0
      invariant MaskedFrom(text, protected, 0).1 == replacements + MaskedFrom(masked, protected, i).1
    {
      var span := protected[i];
      if span == "" { continue; }
      var at := Index(masked, span, 0);
      if at < 0 { continue; }
      masked := Replaced(masked, [(span, Token(i))]);
      replacements := replacements + [(Token(i), span)];
    }
    assert replacements + [] == replacements;
  }

  /** Masked text, character by character and token by token. */
  datatype Piece = Plain(c: char) | Held(i: nat)

  function Flat(pieces: seq<Piece>): string
    decreases |pieces|
  {
    if pieces == [] then ""
    else (match pieces[0] case Plain(c) => [c] case Held(i) => Token(i)) + Flat(pieces[1..])
  }

  function Expanded(pieces: seq<Piece>, protected: seq<string>): string
    requires forall x | x in pieces && x.Held? :: x.i < |protected|
    decreases |pieces|
  {
    if pieces == [] then ""
    else (match pieces[0] case Plain(c) => [c] case Held(i) => protected[i]) + Expanded(pieces[1..], protected)
  }

  ghost predicate NulFree(pieces: seq<Piece>)
  {
    forall c | Plain(c) in pieces :: c != '\0'
  }

  /** What a safety message is: some text with a blank in it and no NUL. */
  ghost predicate Maskable(span: string)
  {
    ' ' in span && '\0' !in span
  }

  lemma {:induction false} LeadingPlain(pieces: seq<Piece>, span: string)
    requires '\0' !in span && span <= Flat(pieces)
    ensures |span| <= |pieces|
    ensures forall k | 0 <= k < |span| :: pieces[k] == Plain(span[k])
    ensures Flat(pieces[|span|..]) == Flat(pieces)[|span|..]
    decreases |span|
  {
    if span != "" {
      assert span[0] in span && Flat(pieces)[0] == span[0];
      var rest := pieces[1..];
      assert pieces[0] == Plain(span[0]);
      assert span[1..] == Flat(rest)[..|span| - 1];
      LeadingPlain(rest, span[1..]);
      assert pieces[|span|..] == rest[|span| - 1..];
      forall k | 0 <= k < |span| ensures pieces[k] == Plain(span[k]) {
        if k > 0 { assert pieces[k] == rest[k - 1]; }
      }
    }
  }

  /** A block in which the span starts nowhere is copied as it is. */
  lemma {:induction false} ReplaceSkips(x: string, y: string, span: string, token: string)
    requires span != "" && forall k | 0 <= k < |x| :: !(span <= x[k..] + y)
    ensures Replaced(x + y, [(span, token)]) == x + Replaced(y, [(span, token)])
    decreases |x|
  {
    if x == "" {
      assert x + y == y;
    } else {
      assert x[0..] + y == x + y;
      assert (x + y)[1..] == x[1..] + y;
      forall k | 0 <= k < |x[1..]| ensures !(span <= x[1..][k..] + y) {
        assert x[1..][k..] == x[k + 1..];
      }
      ReplaceSkips(x[1..], y, span, token);
    }
  }

  lemma SpanStartsInNoToken(i: nat, y: string, span: string, k: nat)
    requires Maskable(span) && k < |Token(i)|
    ensures !(span <= Token(i)[k..] + y)
  {
    var tail := Token(i)[k..];
    var at := |tail| - 1;
    assert (tail + y)[at] == '\0';
    if at < |span| {
      assert span[at] in span;
    } else {
      var b :| 0 <= b < |span| && span[b] == ' ';
      assert (tail + y)[b] == Token(i)[k + b];
    }
  }

  /** One step of the masking loop keeps what the text expands to. */
  lemma {:induction false} MaskOne(pieces: seq<Piece>, protected: seq<string>, i: nat) returns (next: seq<Piece>)
    requires i < |protected| && Maskable(protected[i])
    requires NulFree(pieces) && forall x | x in pieces && x.Held? :: x.i < i
    ensures Flat(next) == Replaced(Flat(pieces), [(protected[i], Token(i))])
    ensures NulFree(next) && forall x | x in next && x.Held? :: x.i <= i
    ensures forall x | x in next && x.Held? && x.i != i :: x in pieces
    ensures Expanded(next, protected) == Expanded(pieces, protected)
    decreases |pieces|
  {
    var span, pair := protected[i], [(protected[i], Token(i))];
    var text := Flat(pieces);
    if pieces == [] {
      next := [];
    } else if span <= text {
      LeadingPlain(pieces, span);
      var rest := MaskOne(pieces[|span|..], protected, i);
      next := [Held(i)] + rest;
      ExpandPlain(pieces, span, protected);
    } else {
      var rest := MaskOne(pieces[1..], protected, i);
      next := [pieces[0]] + rest;
      match pieces[0]
      case Plain(c) =>
        assert text[1..] == Flat(pieces[1..]);
      case Held(j) =>
        forall k | 0 <= k < |Token(j)| ensures !(span <= Token(j)[k..] + Flat(pieces[1..])) {
          SpanStartsInNoToken(j, Flat(pieces[1..]), span, k);
        }
        ReplaceSkips(Token(j), Flat(pieces[1..]), span, Token(i));
    }
  }

  lemma {:induction false} ExpandPlain(pieces: seq<Piece>, span: string, protected: seq<string>)
    requires forall x | x in pieces && x.Held? :: x.i < |protected|
    requires |span| <= |pieces| && forall k | 0 <= k < |span| :: pieces[k] == Plain(span[k])
    ensures Expanded(pieces, protected) == span + Expanded(pieces[|span|..], protected)
    decreases |span|
  {
    if span != "" {
      ExpandPlain(pieces[1..], span[1..], protected);
      assert pieces[1..][|span| - 1..] == pieces[|span|..];
      assert span == [span[0]] + span[1..];
    } else {
      assert pieces[0..] == pieces;
    }
  }

  /** The whole loop: the masked text is pieces that expand to the original, and
      every token in it has its replacement. */
  lemma {:induction false} MaskAll(pieces: seq<Piece>, protected: seq<string>, i: nat) returns (all: seq<Piece>)
    requires i <= |protected| && forall s | s in protected :: Maskable(s)
    requires NulFree(pieces) && forall x | x in pieces && x.Held? :: x.i < i
    ensures Masks(pieces, all, protected, i, MaskedFrom(Flat(pieces), protected, i))
    decreases |protected| - i
  {
    if i == |protected| {
      all := pieces;
    } else {
      assert protected[i] in protected;
      if !Contains(Flat(pieces), protected[i]) {
        all := MaskAll(pieces, protected, i + 1);
        MaskedLess(pieces, all, protected, i, MaskedFrom(Flat(pieces), protected, i + 1));
      } else {
        var next := MaskOne(pieces, protected, i);
        all := MaskAll(next, protected, i + 1);
        MaskedMore(pieces, next, all, protected, i, MaskedFrom(Flat(next), protected, i + 1));
      }
    }
  }

  /** The pieces are the masked text and expand to the original; the replacements
      are the tokens of messages from i on, and every token that is new has its
      own. */
  ghost predicate Masks(
    pieces: seq<Piece>, all: seq<Piece>, protected: seq<string>, i: nat, masked: (string, seq<(string, string)>))
  {
    && Flat(all) == masked.0 && NulFree(all)
    && (forall x | x in all && x.Held? :: x.i < |protected|)
    && (forall x | x in pieces && x.Held? :: x.i < |protected|)
    && Expanded(all, protected) == Expanded(pieces, protected)
    && (forall p | p in masked.1 :: exists j | i <= j < |protected| :: p == (Token(j), protected[j]))
    && (forall x | x in all && x.Held? && x !in pieces ::
          i <= x.i < |protected| && (Token(x.i), protected[x.i]) in masked.1)
  }

  lemma MaskedLess(
    pieces: seq<Piece>, all: seq<Piece>, protected: seq<string>, i: nat, masked: (string, seq<(string, string)>))
    requires Masks(pieces, all, protected, i + 1, masked)
    ensures Masks(pieces, all, protected, i, masked)
  {
  }

  lemma MaskedMore(
    pieces: seq<Piece>, next: seq<Piece>, all: seq<Piece>, protected: seq<string>, i: nat,
    masked: (string, seq<(string, string)>))
    requires i < |protected| && forall x | x in next && x.Held? && x.i != i :: x in pieces
    requires forall x | x in pieces && x.Held? :: x.i < |protected|
    requires Masks(next, all, protected, i + 1, masked) && Expanded(next, protected) == Expanded(pieces, protected)
    ensures Masks(pieces, all, protected, i, (masked.0, [(Token(i), protected[i])] + masked.1))
  {
  }

  lemma TokensDiffer(i: nat, j: nat)
    requires i < 26 && j < 26 && Token(i) == Token(j)
    ensures i == j
  {
    assert Token(i)[11] == Token(j)[11];
  }

  /** The span a token is first replaced by. */
  function FirstSpan(pairs: seq<(string, string)>, token: string, otherwise: string): string
    decreases |pairs|
  {
    if pairs == [] then otherwise
    else if pairs[0].0 == token then pairs[0].1
    else FirstSpan(pairs[1..], token, otherwise)
  }

  /** What restoring puts in each span's place. */
  function Firsts(protected: seq<string>, pairs: seq<(string, string)>): (firsts: seq<string>)
    ensures |firsts| == |protected|
    ensures forall j | 0 <= j < |protected| :: firsts[j] == FirstSpan(pairs, Token(j), protected[j])
  {
    seq(|protected|, j requires 0 <= j < |protected| => FirstSpan(pairs, Token(j), protected[j]))
  }

  lemma {:induction false} FirstMatchIsFirst(
    text: string, pairs: seq<(string, string)>, token: string, otherwise: string)
    requires |token| == 13 && token <= text && exists p | p in pairs :: p.0 == token
    requires forall p | p in pairs :: |p.0| == 13
    ensures FirstMatch(text, pairs) == Some((token, FirstSpan(pairs, token, otherwise)))
    decreases |pairs|
  {
    assert pairs[0] in pairs && forall p | p in pairs[1..] :: p in pairs;
    assert token == text[..13];
    if pairs[0].0 <= text {
      assert pairs[0].0 == text[..13];
    } else {
      FirstMatchIsFirst(text, pairs[1..], token, otherwise);
    }
  }

  lemma {:induction false} RestoreAll(all: seq<Piece>, protected: seq<string>, pairs: seq<(string, string)>)
    requires NulFree(all) && forall x | x in all && x.Held? ::
      x.i < |protected| && (Token(x.i), protected[x.i]) in pairs
    requires forall p | p in pairs :: exists j | 0 <= j < |protected| :: p == (Token(j), protected[j])
    ensures forall p | p in pairs :: p.0 != ""
    ensures Replaced(Flat(all), pairs) == Expanded(all, Firsts(protected, pairs))
    decreases |all|
  {
    if all != [] {
      var text, rest := Flat(all), Flat(all[1..]);
      RestoreAll(all[1..], protected, pairs);
      assert all[0] in all;
      match all[0]
      case Plain(c) =>
        assert text[0] == c && text[1..] == rest;
        forall p | p in pairs ensures !(p.0 <= text) {
          assert p.0[0] == '\0';
        }
      case Held(j) =>
        assert Token(j) <= text && text[13..] == rest;
        FirstMatchIsFirst(text, pairs, Token(j), protected[j]);
    }
  }

  lemma {:induction false} SameExpansion(all: seq<Piece>, a: seq<string>, b: seq<string>)
    requires forall x | x in all && x.Held? :: x.i < |a| && x.i < |b| && a[x.i] == b[x.i]
    ensures Expanded(all, a) == Expanded(all, b)
    decreases |all|
  {
    if all != [] {
      assert all[0] in all && forall x | x in all[1..] :: x in all;
      SameExpansion(all[1..], a, b);
    }
  }

  function AsPlain(text: string): (pieces: seq<Piece>)
    ensures |pieces| == |text| && forall k | 0 <= k < |text| :: pieces[k] == Plain(text[k])
  {
    seq(|text|, k requires 0 <= k < |text| => Plain(text[k]))
  }

  lemma {:induction false} AsPlainIsFlat(text: string, protected: seq<string>)
    ensures Flat(AsPlain(text)) == text && Expanded(AsPlain(text), protected) == text
    decreases |text|
  {
    if text != "" {
      AsPlainIsFlat(text[1..], protected);
      assert AsPlain(text)[1..] == AsPlain(text[1..]);
    }
  }

  /** Restoring undoes masking where no two messages share a token. */
  lemma RestoreUndoesMask(text: string, protected: seq<string>)
    requires '\0' !in text && forall s | s in protected :: Maskable(s)
    requires OneSpanPerToken(MaskedFrom(text, protected, 0).1)
    ensures var (masked, pairs) := MaskedFrom(text, protected, 0); Replaced(masked, pairs) == text
  {
    var all := RestoreGivesFirsts(text, protected);
    var (masked, pairs) := MaskedFrom(text, protected, 0);
    forall x | x in all && x.Held? ensures Firsts(protected, pairs)[x.i] == protected[x.i] {
      OnlySpan(pairs, Token(x.i), protected[x.i]);
    }
    SameExpansion(all, protected, Firsts(protected, pairs));
  }

  /** No two masked messages share a token. */
  ghost predicate OneSpanPerToken(pairs: seq<(string, string)>)
  {
    forall p, q | p in pairs && q in pairs && p.0 == q.0 :: p.1 == q.1
  }

  lemma {:induction false} OnlySpan(pairs: seq<(string, string)>, token: string, span: string)
    requires (token, span) in pairs && OneSpanPerToken(pairs)
    ensures FirstSpan(pairs, token, span) == span
    decreases |pairs|
  {
    if pairs[0].0 == token {
      assert pairs[0] in pairs;
    } else {
      assert forall p | p in pairs[1..] :: p in pairs;
      OnlySpan(pairs[1..], token, span);
    }
  }

  /** However many messages there are, restoring puts in each one's place the
      first masked one that shares its token. */
  lemma RestoreGivesFirsts(text: string, protected: seq<string>) returns (all: seq<Piece>)
    requires '\0' !in text && forall s | s in protected :: Maskable(s)
    ensures forall x | x in all && x.Held? :: x.i < |protected|
    ensures var (masked, pairs) := MaskedFrom(text, protected, 0);
      && Flat(all) == masked && Expanded(all, protected) == text
      && Replaced(masked, pairs) == Expanded(all, Firsts(protected, pairs))
      && forall x | x in all && x.Held? :: (Token(x.i), protected[x.i]) in pairs
  {
    AsPlainIsFlat(text, protected);
    assert NulFree(AsPlain(text)) by {
      forall c | Plain(c) in AsPlain(text) ensures c in text {
        var k :| 0 <= k < |text| && AsPlain(text)[k] == Plain(c);
      }
    }
    all := MaskAll(AsPlain(text), protected, 0);
    var (masked, pairs) := MaskedFrom(text, protected, 0);
    RestoreAll(all, protected, pairs);
  }

  /** Up to 26 messages never share one. */
  lemma FewSpansAreApart(text: string, protected: seq<string>)
    requires '\0' !in text && |protected| <= 26 && forall s | s in protected :: Maskable(s)
    ensures OneSpanPerToken(MaskedFrom(text, protected, 0).1)
  {
    AsPlainIsFlat(text, protected);
    assert NulFree(AsPlain(text)) by {
      forall c | Plain(c) in AsPlain(text) ensures c in text {
        var k :| 0 <= k < |text| && AsPlain(text)[k] == Plain(c);
      }
    }
    var all := MaskAll(AsPlain(text), protected, 0);
    var pairs := MaskedFrom(text, protected, 0).1;
    forall p, q | p in pairs && q in pairs && p.0 == q.0 ensures p.1 == q.1 {
      var i :| 0 <= i < |protected| && p == (Token(i), protected[i]);
      var j :| 0 <= j < |protected| && q == (Token(j), protected[j]);
      TokensDiffer(i, j);
    }
  }

  // ---------------------------------------------------------------------------
  // Redaction
  // ---------------------------------------------------------------------------

  ghost function Offering(t: Scanner, refused: seq<RefusedValue>): string -> bool
  {
    s => MentionsAny(t, s, refused)
  }

  /** What redactRefusedProse leaves of a surface. */
  ghost function Redacted(
    u: Unicode, t: Scanner, text: string, protected: seq<string>, refused: seq<RefusedValue>): string
  {
    var (masked, pairs) := MaskedFrom(text, protected, 0);
    var sentences := Sentences(u, masked);
    var kept := Kept(sentences, Offering(t, refused));
    if Trimmed(u, text) == "" || |kept| == |sentences| then text
    else Trimmed(u, Replaced(Joined(kept), pairs))
  }

  method RedactRefusedProse(u: Unicode, t: Scanner, text: string, protected: seq<string>, refused: seq<RefusedValue>)
    returns (redacted: string)
    ensures redacted == Redacted(u, t, text, protected, refused)
  {
    var blank := Trimmed(u, text);
    if blank == "" {
      return text;
    }
    var masked, pairs := MaskProtected(text, protected);
    var sentences := SplitSentences(u, masked);
    var kept := KeepSilent(t, sentences, refused);
    if |kept| == |sentences| {
      return text;
    }
    return Trimmed(u, Replaced(Joined(kept), pairs));
  }

  method KeepSilent(t: Scanner, sentences: seq<string>, refused: seq<RefusedValue>) returns (kept: seq<string>)
    ensures kept == Kept(sentences, Offering(t, refused))
  {
    kept := [];
    for i := 0 to |sentences|
      invariant kept == Kept(sentences[..i], Offering(t, refused))
    {
      var mentions := OffersRefusedValue(t, sentences[i], refused);
      KeptAppend(sentences[..i], sentences[i], Offering(t, refused));
      assert sentences[..i + 1] == sentences[..i] + [sentences[i]];
      if mentions { continue; }
      kept := kept + [sentences[i]];
    }
    assert sentences[..|sentences|] == sentences;
  }

  /** After the redaction, what stands outside Dorgu's own restored messages
      names no refused value: the result is the restoration of such a residue, whose
      sentences are the other ones of the masked text, in order. */
  lemma RedactedOffersNothing(u: Unicode, t: Scanner, text: string, protected: seq<string>, refused: seq<RefusedValue>)
    returns (residue: string)
    requires Lawful(u) && LawfulScanner(u, t)
    requires '\0' !in text && forall s | s in protected :: Maskable(s)
    requires OneSpanPerToken(MaskedFrom(text, protected, 0).1)
    ensures var (_, pairs) := MaskedFrom(text, protected, 0);
      || Redacted(u, t, text, protected, refused) == Replaced(residue, pairs)
      || Redacted(u, t, text, protected, refused) == Trimmed(u, Replaced(residue, pairs))
    ensures Trimmed(u, text) != "" ==>
      && Sentences(u, residue) == Kept(Sentences(u, MaskedFrom(text, protected, 0).0), Offering(t, refused))
      && forall r | r in refused && BlankFree(u, r.value) :: !Mentions(t, residue, r)
  {
    var (masked, pairs) := MaskedFrom(text, protected, 0);
    var sentences := Sentences(u, masked);
    var kept := Kept(sentences, Offering(t, refused));
    KeptOrDropped(sentences, Offering(t, refused));
    RestoreUndoesMask(text, protected);
    if |kept| == |sentences| {
      residue := masked;
    } else {
      residue := Joined(kept);
      SplittingGivesSentences(u, masked, 0, 0);
      KeptIsSentenceList(u, sentences, Offering(t, refused));
      SplitUndoesJoin(u, kept);
    }
    if Trimmed(u, text) == "" { residue := masked; }
    else {
      forall r | r in refused && BlankFree(u, r.value) ensures !Mentions(t, residue, r) {
        forall s | s in Sentences(u, residue) ensures !Mentions(t, s, r) {
          assert !Offering(t, refused)(s);
        }
        NoSentenceMentions(u, t, residue, r);
      }
    }
  }

  // ---------------------------------------------------------------------------
  // What redaction keeps
  // ---------------------------------------------------------------------------

  predicate InToken(c: char)
  {
    c == '\0' || c == '-' || 'a' <= c <= 'z'
  }

  lemma TokenIsInToken(i: nat, k: nat)
    requires k < |Token(i)|
    ensures InToken(Token(i)[k])
  {
  }

  /** A position in a text that is not inside a token. */
  predicate IsCut(text: string, a: nat)
  {
    a <= |text| && (a == 0 || a == |text| || !InToken(text[a - 1]) || !InToken(text[a]))
  }

  lemma OpensIsCut(u: Unicode, text: string, a: nat)
    requires Lawful(u) && a <= |text| && Opens(u, text, a)
    ensures IsCut(text, a)
  {
  }

  lemma ClosesIsCut(u: Unicode, text: string, a: nat, b: nat)
    requires Lawful(u) && a <= b <= |text| && Closes(u, text, b)
    ensures IsCut(text[a..], b - a)
  {
    var tail := text[a..];
    if a < b < |text| { assert tail[b - a] == text[b] && tail[b - a - 1] == text[b - 1]; }
  }

  /** Items printed one after the other. */
  function Concat<T>(items: seq<T>, printed: T -> string): string
  {
    if items == [] then "" else printed(items[0]) + Concat(items[1..], printed)
  }

  /** No printed item has a cut inside. */
  ghost predicate Uncut<T>(items: seq<T>, printed: T -> string)
  {
    forall x, rest, a | x in items && 0 < a < |printed(x)| :: !IsCut(printed(x) + rest, a)
  }

  lemma CutBehind(head: string, rest: string, a: nat)
    requires |head| <= a && IsCut(head + rest, a)
    ensures IsCut(rest, a - |head|)
    ensures (head + rest)[..a] == head + rest[..a - |head|] && (head + rest)[a..] == rest[a - |head|..]
  {
    var text := head + rest;
    if |head| < a { assert text[a - 1] == rest[a - |head| - 1]; }
    if a < |text| { assert text[a] == rest[a - |head|]; }
  }

  /** The items can be cut wherever the text can. */
  lemma {:induction false} CutItems<T>(items: seq<T>, printed: T -> string, text: string, a: nat)
    returns (left: seq<T>, right: seq<T>)
    requires text == Concat(items, printed) && IsCut(text, a) && Uncut(items, printed)
    ensures items == left + right && Concat(left, printed) == text[..a] && Concat(right, printed) == text[a..]
    decreases |items|
  {
    if a == 0 {
      left, right := [], items;
    } else {
      var head, rest := printed(items[0]), Concat(items[1..], printed);
      assert items[0] in items && text == head + rest;
      CutBehind(head, rest, a);
      assert forall x | x in items[1..] :: x in items;
      left, right := CutItems(items[1..], printed, rest, a - |head|);
      assert ([items[0]] + left)[1..] == left;
      left := [items[0]] + left;
    }
  }

  lemma RunBetween<T>(items: seq<T>, printed: T -> string, text: string, a: nat, b: nat)
    returns (before: seq<T>, run: seq<T>, after: seq<T>)
    requires text == Concat(items, printed) && Uncut(items, printed)
    requires a <= b <= |text| && IsCut(text, a) && IsCut(text[a..], b - a)
    ensures items == before + run + after && Concat(run, printed) == text[a..b]
  {
    var tail;
    before, tail := CutItems(items, printed, text, a);
    assert forall x | x in tail :: x in items;
    run, after := CutItems(tail, printed, text[a..], b - a);
    SliceInTwo(text, a, b - a);
  }

  lemma SliceInTwo(s: string, i: nat, n: nat)
    requires i + n <= |s|
    ensures s[i..][..n] == s[i..i + n]
  {
  }

  function Printed(): Piece -> string
  {
    (piece: Piece) => match piece case Plain(c) => [c] case Held(i) => Token(i)
  }

  lemma {:induction false} FlatIsConcat(pieces: seq<Piece>)
    ensures Concat(pieces, Printed()) == Flat(pieces)
    decreases |pieces|
  {
    if pieces != [] { FlatIsConcat(pieces[1..]); }
  }

  lemma PiecesAreUncut(pieces: seq<Piece>)
    ensures Uncut(pieces, Printed())
  {
    forall x, rest, a | x in pieces && 0 < a < |Printed()(x)| ensures !IsCut(Printed()(x) + rest, a) {
      NoCutInside(x, rest, a);
    }
  }

  lemma NoCutInside(piece: Piece, rest: string, a: nat)
    requires 0 < a < |Printed()(piece)|
    ensures !IsCut(Printed()(piece) + rest, a)
  {
    var text := Printed()(piece) + rest;
    assert text[a - 1] == Token(piece.i)[a - 1] && text[a] == Token(piece.i)[a];
    TokenIsInToken(piece.i, a - 1);
    TokenIsInToken(piece.i, a);
  }

  /** Every sentence of the masked text is a run of its pieces. */
  lemma SentencePieces(u: Unicode, all: seq<Piece>, text: string, s: string)
    returns (before: seq<Piece>, run: seq<Piece>, after: seq<Piece>)
    requires Lawful(u) && text == Flat(all) && s in Sentences(u, text)
    ensures all == before + run + after && Flat(run) == s
  {
    var a, b := SentenceIsSlice(u, text, 0, 0, s);
    OpensIsCut(u, text, a);
    ClosesIsCut(u, text, a, b);
    FlatIsConcat(all);
    PiecesAreUncut(all);
    before, run, after := RunBetween(all, Printed(), text, a, b);
    FlatIsConcat(run);
  }

  lemma {:induction false} ExpandedParts(a: seq<Piece>, b: seq<Piece>, protected: seq<string>)
    requires forall x | x in a + b && x.Held? :: x.i < |protected|
    ensures forall x | x in a && x.Held? :: x.i < |protected|
    ensures forall x | x in b && x.Held? :: x.i < |protected|
    ensures Expanded(a + b, protected) == Expanded(a, protected) + Expanded(b, protected)
    decreases |a|
  {
    assert forall x :: x in a || x in b ==> x in a + b;
    if a == [] {
      assert a + b == b;
    } else {
      assert (a + b)[1..] == a[1..] + b;
      ExpandedParts(a[1..], b, protected);
    }
  }

  lemma {:induction false} FlatParts(a: seq<Piece>, b: seq<Piece>)
    ensures Flat(a + b) == Flat(a) + Flat(b)
    decreases |a|
  {
    if a == [] {
      assert a + b == b;
    } else {
      assert (a + b)[1..] == a[1..] + b;
      FlatParts(a[1..], b);
    }
  }

  /** Pieces of a text in which every token has its replacement. */
  ghost predicate Restorable(pieces: seq<Piece>, protected: seq<string>, pairs: seq<(string, string)>)
  {
    && NulFree(pieces)
    && (forall x | x in pieces && x.Held? :: x.i < |protected| && (Token(x.i), protected[x.i]) in pairs)
    && (forall p | p in pairs :: exists j | 0 <= j < |protected| :: p == (Token(j), protected[j]))
  }

  /** Restoring a text restores every run of its pieces where it stands. */
  lemma RestoredPart(a: seq<Piece>, b: seq<Piece>, c: seq<Piece>, protected: seq<string>, pairs: seq<(string, string)>)
    requires Restorable(a + b + c, protected, pairs) && Restorable(b, protected, pairs)
    ensures forall p | p in pairs :: p.0 != ""
    ensures Contains(Replaced(Flat(a + b + c), pairs), Replaced(Flat(b), pairs))
  {
    var firsts := Firsts(protected, pairs);
    RestoreAll(a + b + c, protected, pairs);
    RestoreAll(b, protected, pairs);
    ExpandedParts(a + b, c, firsts);
    ExpandedParts(a, b, firsts);
    assert OccursAt(Expanded(a + b + c, firsts), Expanded(b, firsts), |Expanded(a, firsts)|);
  }

  /** The kept sentences, joined, as pieces around one of them. */
  lemma {:induction false} JoinedPieces(
    u: Unicode, all: seq<Piece>, list: seq<string>, protected: seq<string>, pairs: seq<(string, string)>, s: string)
    returns (a: seq<Piece>, b: seq<Piece>, c: seq<Piece>)
    requires Lawful(u) && Restorable(all, protected, pairs)
    requires forall x | x in list :: x in Sentences(u, Flat(all))
    ensures Flat(a + b + c) == Joined(list) && Restorable(a + b + c, protected, pairs)
    ensures Restorable(b, protected, pairs) && (s in list ==> Flat(b) == s)
    decreases |list|
  {
    if list == [] {
      a, b, c := [], [], [];
    } else {
      assert list[0] in list && forall x | x in list[1..] :: x in list;
      a, b, c := JoinedPieces(u, all, list[1..], protected, pairs, s);
      var before, run, after := SentencePieces(u, all, Flat(all), list[0]);
      RestorableRun(before, run, after, protected, pairs);
      a, b, c := OneMorePart(run, a, b, c, list, protected, pairs, s);
    }
  }

  lemma OneMorePart(
    run: seq<Piece>, a0: seq<Piece>, b0: seq<Piece>, c0: seq<Piece>, list: seq<string>, protected: seq<string>,
    pairs: seq<(string, string)>, s: string)
    returns (a: seq<Piece>, b: seq<Piece>, c: seq<Piece>)
    requires list != [] && Flat(run) == list[0] && Flat(a0 + b0 + c0) == Joined(list[1..])
    requires Restorable(run, protected, pairs) && Restorable(a0 + b0 + c0, protected, pairs)
    requires Restorable(b0, protected, pairs) && (s in list[1..] ==> Flat(b0) == s)
    ensures Flat(a + b + c) == Joined(list) && Restorable(a + b + c, protected, pairs)
    ensures Restorable(b, protected, pairs) && (s in list ==> Flat(b) == s)
  {
    var gap := if |list| > 1 then [Plain(' ')] else [];
    FlatJoin(run, gap, a0 + b0 + c0, list);
    RestorableJoin(run, gap, a0 + b0 + c0, protected, pairs);
    Regrouped(run, gap, a0, b0, c0);
    if list[0] == s {
      a, b, c := [], run, gap + (a0 + b0 + c0);
    } else {
      a, b, c := run + gap + a0, b0, c0;
    }
  }

  lemma Regrouped(run: seq<Piece>, gap: seq<Piece>, a: seq<Piece>, b: seq<Piece>, c: seq<Piece>)
    ensures [] + run + (gap + (a + b + c)) == run + gap + (a + b + c)
    ensures run + gap + a + b + c == run + gap + (a + b + c)
  {
  }

  lemma RestorableJoin(
    run: seq<Piece>, gap: seq<Piece>, rest: seq<Piece>, protected: seq<string>, pairs: seq<(string, string)>)
    requires Restorable(run, protected, pairs) && Restorable(rest, protected, pairs)
    requires forall x | x in gap :: x == Plain(' ')
    ensures Restorable(run + gap + rest, protected, pairs)
  {
  }

  lemma FlatJoin(run: seq<Piece>, gap: seq<Piece>, rest: seq<Piece>, list: seq<string>)
    requires list != [] && Flat(run) == list[0] && Flat(rest) == Joined(list[1..])
    requires gap == if |list| > 1 then [Plain(' ')] else []
    ensures Flat(run + gap + rest) == Joined(list)
  {
    FlatParts(run + gap, rest);
    FlatParts(run, gap);
    FlatGap();
    if |list| == 1 { assert list[0] + "" + "" == list[0]; }
  }

  lemma FlatGap()
    ensures Flat([]) == "" && Flat([Plain(' ')]) == " "
  {
    assert [Plain(' ')][1..] == [];
  }

  lemma HeldThrough(whole: string, part: string, quote: string)
    requires Contains(whole, part) && Contains(part, quote)
    ensures Contains(whole, quote)
  {
    var i :| OccursAt(whole, part, i);
    var k :| OccursAt(part, quote, k);
    SliceOfSlice(whole, i, i + |part|, k, k + |quote|);
    assert OccursAt(whole, quote, i + k);
  }

  lemma HoldsTrimmed(u: Unicode, s: string)
    ensures Contains(s, Trimmed(u, s))
  {
    var l, r := SkipForward(u, s, 0), SkipBack(u, s, |s|);
    assert OccursAt(s, Trimmed(u, s), if l < r then l else 0);
  }

  /** What a text holds, trimmed, it holds, and so does its trimmed self. */
  lemma HeldIsKept(u: Unicode, whole: string, quote: string)
    requires Contains(whole, quote)
    ensures Contains(Trimmed(u, whole), Trimmed(u, quote)) && Contains(whole, Trimmed(u, quote))
  {
    HoldsTrimmed(u, quote);
    HeldThrough(whole, quote, Trimmed(u, quote));
    var i :| OccursAt(whole, quote, i);
    TrimKeepsContents(u, whole, quote, i);
  }

  /** A part of the masked text that no refused value is mentioned in. */
  ghost predicate Harmless(
    u: Unicode, t: Scanner, text: string, protected: seq<string>, refused: seq<RefusedValue>, s: string)
  {
    s in Sentences(u, MaskedFrom(text, protected, 0).0) && !MentionsAny(t, s, refused)
  }

  /** Main result: a sentence that mentions no refused value outside the messages is
      kept, and so is what it quotes of them, up to white space at the ends. */
  lemma RedactedKeeps(
    u: Unicode, t: Scanner, text: string, protected: seq<string>, refused: seq<RefusedValue>, s: string,
    quote: string)
    requires Lawful(u) && '\0' !in text && forall m | m in protected :: Maskable(m)
    requires OneSpanPerToken(MaskedFrom(text, protected, 0).1)
    requires Harmless(u, t, text, protected, refused, s)
    requires Contains(Replaced(s, MaskedFrom(text, protected, 0).1), quote)
    ensures Contains(Redacted(u, t, text, protected, refused), Trimmed(u, quote))
  {
    var (masked, pairs) := MaskedFrom(text, protected, 0);
    var all := TextPieces(text, protected);
    var sentences := Sentences(u, masked);
    var kept := Kept(sentences, Offering(t, refused));
    KeptOrDropped(sentences, Offering(t, refused));
    assert !Offering(t, refused)(s);
    if Trimmed(u, text) == "" || |kept| == |sentences| {
      RestoreUndoesMask(text, protected);
      SentenceIsRestored(u, all, protected, pairs, s);
      HeldThrough(text, Replaced(s, pairs), quote);
      HeldIsKept(u, text, quote);
    } else {
      JoinedIsRestored(u, all, kept, protected, pairs, s);
      HeldThrough(Replaced(Joined(kept), pairs), Replaced(s, pairs), quote);
      HeldIsKept(u, Replaced(Joined(kept), pairs), quote);
    }
  }

  lemma SentenceIsRestored(
    u: Unicode, all: seq<Piece>, protected: seq<string>, pairs: seq<(string, string)>, s: string)
    requires Lawful(u) && Restorable(all, protected, pairs) && s in Sentences(u, Flat(all))
    ensures forall p | p in pairs :: p.0 != ""
    ensures Contains(Replaced(Flat(all), pairs), Replaced(s, pairs))
  {
    var before, run, after := SentencePieces(u, all, Flat(all), s);
    RestorableRun(before, run, after, protected, pairs);
    RestoredPart(before, run, after, protected, pairs);
  }

  lemma JoinedIsRestored(
    u: Unicode, all: seq<Piece>, kept: seq<string>, protected: seq<string>, pairs: seq<(string, string)>, s: string)
    requires Lawful(u) && Restorable(all, protected, pairs) && s in kept
    requires forall x | x in kept :: x in Sentences(u, Flat(all))
    ensures forall p | p in pairs :: p.0 != ""
    ensures Contains(Replaced(Joined(kept), pairs), Replaced(s, pairs))
  {
    var a, b, c := JoinedPieces(u, all, kept, protected, pairs, s);
    RestoredPart(a, b, c, protected, pairs);
  }

  lemma TextPieces(text: string, protected: seq<string>) returns (all: seq<Piece>)
    requires '\0' !in text && forall m | m in protected :: Maskable(m)
    ensures Flat(all) == MaskedFrom(text, protected, 0).0
    ensures Restorable(all, protected, MaskedFrom(text, protected, 0).1)
  {
    AsPlainIsFlat(text, protected);
    assert NulFree(AsPlain(text)) by {
      forall c | Plain(c) in AsPlain(text) ensures c in text {
        var k :| 0 <= k < |text| && AsPlain(text)[k] == Plain(c);
      }
    }
    all := MaskAll(AsPlain(text), protected, 0);
  }

  lemma RestorableRun(
    before: seq<Piece>, run: seq<Piece>, after: seq<Piece>, protected: seq<string>, pairs: seq<(string, string)>)
    requires Restorable(before + run + after, protected, pairs)
    ensures Restorable(run, protected, pairs)
  {
    assert forall x | x in run :: x in before + run + after;
  }
}
