/** The prose of created plans: outside Dorgu's own messages it offers no refused
    value. */
module PlanProse {
  import opened Plan
  import opened PlanTheorems
  import opened PlanScrubs
  import Text
  import Redaction

  /** What the field's format guarantees of a text and of the messages beside it:
      no NUL, messages with a blank in them, no two under one token. */
  ghost predicate Readable(text: string, messages: seq<string>)
  {
    && '\0' !in text && (forall m | m in messages :: Redaction.Maskable(m))
    && Redaction.OneSpanPerToken(Redaction.MaskedFrom(text, messages, 0).1)
  }

  /** The text is blank, or the restoration of a residue that does not mention the
      value: what still shows it lies inside a restored message. */
  ghost predicate OffersNothing(
    e: Env, out: string, text: string, messages: seq<string>, bad: Redaction.RefusedValue)
  {
    || Text.Trimmed(e.u, text) == ""
    || exists residue :: Restores(e, out, residue, text, messages) && !Redaction.Mentions(e.t, residue, bad)
  }

  ghost predicate Restores(e: Env, out: string, residue: string, text: string, messages: seq<string>)
  {
    var pairs := Redaction.MaskedFrom(text, messages, 0).1;
    out == Redaction.Replaced(residue, pairs) || out == Text.Trimmed(e.u, Redaction.Replaced(residue, pairs))
  }

  lemma RedactedSurface(
    e: Env, text: string, messages: seq<string>, refused: seq<Redaction.RefusedValue>, bad: Redaction.RefusedValue)
    requires LawfulEnv(e) && Readable(text, messages) && bad in refused && Redaction.BlankFree(e.u, bad.value)
    ensures OffersNothing(e, Redact(e, text, messages, refused), text, messages, bad)
  {
    var residue := Redaction.RedactedOffersNothing(e.u, e.t, text, messages, refused);
    assert Restores(e, Redact(e, text, messages, refused), residue, text, messages);
  }

  /** The description as the scrub redacts it. */
  ghost function Described(e: Env, step: Step, refused: seq<Redaction.RefusedValue>): string
  {
    if step.command != "" && Redaction.MentionsAny(e.t, step.command, refused)
    then e.note(step.description, e.say(DroppedCommandNote)) else step.description
  }

  lemma ScrubbedProse(e: Env, step: Step, refused: seq<Redaction.RefusedValue>, bad: Redaction.RefusedValue)
    requires LawfulEnv(e) && bad in refused && Redaction.BlankFree(e.u, bad.value)
    requires Readable(Described(e, step, refused), Messages(step.safety))
    requires Readable(step.rationale, Messages(step.safety))
    ensures var out := Scrubbed(e, step, refused);
      && OffersNothing(e, out.description, Described(e, step, refused), Messages(step.safety), bad)
      && OffersNothing(e, out.rationale, step.rationale, Messages(step.safety), bad)
  {
    RedactedSurface(e, Described(e, step, refused), Messages(step.safety), refused, bad);
    RedactedSurface(e, step.rationale, Messages(step.safety), refused, bad);
  }

  /** A plan with a refusal is past the claim scrub. */
  lemma RefusedPlanSpoke(e: Env, c: Contents, s: Safety)
    requires s in AllSafety(Scrubs(e, c).steps) && IsRefusal(s)
    ensures RefusedValues(e, c.steps) != [] && Scrubs(e, c) == ScrubbedOf(e, c, RefusedValues(e, c.steps))
  {
    RefusalIsBefore(e, c, s);
    var scrubbed := ScrubRefused(e, c);
    SafetyOfSteps(Scrubs(e, c).steps, s);
    var t :| t in Scrubs(e, c).steps && s in t.safety;
    var i :| 0 <= i < |Scrubs(e, c).steps| && Scrubs(e, c).steps[i] == t;
    ScrubsLength(e, c);
    assert scrubbed.steps[i].safety == t.safety;
    assert scrubbed.steps[i] in scrubbed.steps;
  }

  /** The same of any contents that reach the scrubs. */
  lemma ScrubbedPlanOffersNothing(e: Env, c: Contents, s: Safety, i: nat)
    requires LawfulEnv(e) && s in AllSafety(Scrubs(e, c).steps) && IsRefusal(s)
    requires Redaction.BlankFree(e.u, s.requested) && i < |c.steps|
    requires var step := c.steps[i];
      && Readable(Described(e, step, RefusedValues(e, c.steps)), Messages(step.safety))
      && Readable(step.rationale, Messages(step.safety))
    ensures |Scrubs(e, c).steps| == |c.steps|
    ensures var out, step := Scrubs(e, c).steps[i], c.steps[i];
      && OffersNothing(e, out.description, Described(e, step, RefusedValues(e, c.steps)), Messages(step.safety),
                       RefusedValueOf(e, s))
      && OffersNothing(e, out.rationale, step.rationale, Messages(step.safety), RefusedValueOf(e, s))
  {
    RefusalIsBefore(e, c, s);
    RefusedPlanSpoke(e, c, s);
    ScrubbedProse(e, c.steps[i], RefusedValues(e, c.steps), RefusedValueOf(e, s));
  }

  /** Main result: whatever blank-free value any step of a created plan records as
      refused, no description and no rationale offers it outside the messages Dorgu
      put there. */
  lemma CreatedProseOffersNothing(e: Env, r: Request, s: Safety, i: nat)
    requires LawfulEnv(e) && Built(e, r).Created? && EnsuredSteps(e, r).Some?
    requires s in AllSafety(Built(e, r).contents.steps) && IsRefusal(s) && Redaction.BlankFree(e.u, s.requested)
    requires i < |BeforeScrubs(e, r).steps|
    requires var step := BeforeScrubs(e, r).steps[i];
      && Readable(Described(e, step, RefusedValues(e, BeforeScrubs(e, r).steps)), Messages(step.safety))
      && Readable(step.rationale, Messages(step.safety))
    ensures |Built(e, r).contents.steps| == |BeforeScrubs(e, r).steps|
    ensures var out, step := Built(e, r).contents.steps[i], BeforeScrubs(e, r).steps[i];
      && OffersNothing(e, out.description, Described(e, step, RefusedValues(e, BeforeScrubs(e, r).steps)),
                       Messages(step.safety), RefusedValueOf(e, s))
      && OffersNothing(e, out.rationale, step.rationale, Messages(step.safety), RefusedValueOf(e, s))
  {
    CreatedIsScrubbed(e, r);
    ScrubbedPlanOffersNothing(e, BeforeScrubs(e, r), s, i);
  }

  // ---------------------------------------------------------------------------
  // What is kept
  // ---------------------------------------------------------------------------

  /** Every sentence of the text that mentions no refused value outside the messages
      is still there, and every message quoted in one, up to white space at the
      ends. */
  ghost predicate KeepsTheRest(
    e: Env, out: string, text: string, messages: seq<string>, refused: seq<Redaction.RefusedValue>)
  {
    var pairs := Redaction.MaskedFrom(text, messages, 0).1;
    forall s, quote | Redaction.Harmless(e.u, e.t, text, messages, refused, s) &&
                      Text.Contains(Redaction.Replaced(s, pairs), quote) ::
      Text.Contains(out, Text.Trimmed(e.u, quote))
  }

  lemma RedactedKeepsTheRest(e: Env, text: string, messages: seq<string>, refused: seq<Redaction.RefusedValue>)
    requires LawfulEnv(e) && Readable(text, messages)
    ensures KeepsTheRest(e, Redact(e, text, messages, refused), text, messages, refused)
  {
    var pairs := Redaction.MaskedFrom(text, messages, 0).1;
    forall s, quote | Redaction.Harmless(e.u, e.t, text, messages, refused, s) &&
                      Text.Contains(Redaction.Replaced(s, pairs), quote)
      ensures Text.Contains(Redact(e, text, messages, refused), Text.Trimmed(e.u, quote))
    {
      Redaction.RedactedKeeps(e.u, e.t, text, messages, refused, s, quote);
    }
  }

  lemma ScrubbedProseKeeps(e: Env, step: Step, refused: seq<Redaction.RefusedValue>)
    requires LawfulEnv(e)
    requires Readable(Described(e, step, refused), Messages(step.safety))
    requires Readable(step.rationale, Messages(step.safety))
    ensures var out := Scrubbed(e, step, refused);
      && KeepsTheRest(e, out.description, Described(e, step, refused), Messages(step.safety), refused)
      && KeepsTheRest(e, out.rationale, step.rationale, Messages(step.safety), refused)
  {
    RedactedKeepsTheRest(e, Described(e, step, refused), Messages(step.safety), refused);
    RedactedKeepsTheRest(e, step.rationale, Messages(step.safety), refused);
  }

  lemma ScrubbedPlanKeeps(e: Env, c: Contents, s: Safety, i: nat)
    requires LawfulEnv(e) && s in AllSafety(Scrubs(e, c).steps) && IsRefusal(s) && i < |c.steps|
    requires var step := c.steps[i];
      && Readable(Described(e, step, RefusedValues(e, c.steps)), Messages(step.safety))
      && Readable(step.rationale, Messages(step.safety))
    ensures |Scrubs(e, c).steps| == |c.steps|
    ensures var out, step, refused := Scrubs(e, c).steps[i], c.steps[i], RefusedValues(e, c.steps);
      && KeepsTheRest(e, out.description, Described(e, step, refused), Messages(step.safety), refused)
      && KeepsTheRest(e, out.rationale, step.rationale, Messages(step.safety), refused)
  {
    RefusedPlanSpoke(e, c, s);
    ScrubbedProseKeeps(e, c.steps[i], RefusedValues(e, c.steps));
  }

  /** Main result: in a created plan with a refusal, nothing else is taken out of the
      descriptions and rationales. */
  lemma CreatedProseKeepsTheRest(e: Env, r: Request, s: Safety, i: nat)
    requires LawfulEnv(e) && Built(e, r).Created? && EnsuredSteps(e, r).Some?
    requires s in AllSafety(Built(e, r).contents.steps) && IsRefusal(s) && i < |BeforeScrubs(e, r).steps|
    requires var step := BeforeScrubs(e, r).steps[i];
      && Readable(Described(e, step, RefusedValues(e, BeforeScrubs(e, r).steps)), Messages(step.safety))
      && Readable(step.rationale, Messages(step.safety))
    ensures |Built(e, r).contents.steps| == |BeforeScrubs(e, r).steps|
    ensures var out, step := Built(e, r).contents.steps[i], BeforeScrubs(e, r).steps[i];
      var refused := RefusedValues(e, BeforeScrubs(e, r).steps);
      && KeepsTheRest(e, out.description, Described(e, step, refused), Messages(step.safety), refused)
      && KeepsTheRest(e, out.rationale, step.rationale, Messages(step.safety), refused)
  {
    CreatedIsScrubbed(e, r);
    ScrubbedPlanKeeps(e, BeforeScrubs(e, r), s, i);
  }

  lemma ScrubbedSummaryKeeps(e: Env, c: Contents, s: Safety)
    requires LawfulEnv(e) && s in AllSafety(Scrubs(e, c).steps) && IsRefusal(s)
    requires Readable(c.planSummary, PlanMessages(Scrubs(e, c))) && Readable(c.explanation, PlanMessages(Scrubs(e, c)))
    ensures var messages, refused := PlanMessages(Scrubs(e, c)), RefusedValues(e, c.steps);
      && KeepsTheRest(e, Scrubs(e, c).planSummary, c.planSummary, messages, refused)
      && KeepsTheRest(e, RedactedExplanation(e, c), c.explanation, messages, refused)
  {
    RefusedPlanSpoke(e, c, s);
    RedactedKeepsTheRest(e, c.planSummary, PlanMessages(Scrubs(e, c)), RefusedValues(e, c.steps));
    RedactedKeepsTheRest(e, c.explanation, PlanMessages(Scrubs(e, c)), RefusedValues(e, c.steps));
  }

  /** Main result: nor out of the plan's summary and, before the recount of the steps,
      its explanation. */
  lemma CreatedSummaryKeepsTheRest(e: Env, r: Request, s: Safety)
    requires LawfulEnv(e) && Built(e, r).Created? && EnsuredSteps(e, r).Some?
    requires s in AllSafety(Built(e, r).contents.steps) && IsRefusal(s)
    requires Readable(BeforeScrubs(e, r).planSummary, PlanMessages(Built(e, r).contents))
    requires Readable(BeforeScrubs(e, r).explanation, PlanMessages(Built(e, r).contents))
    ensures var c, messages := BeforeScrubs(e, r), PlanMessages(Built(e, r).contents);
      && KeepsTheRest(e, Built(e, r).contents.planSummary, c.planSummary, messages, RefusedValues(e, c.steps))
      && KeepsTheRest(e, RedactedExplanation(e, c), c.explanation, messages, RefusedValues(e, c.steps))
  {
    CreatedIsScrubbed(e, r);
    ScrubbedSummaryKeeps(e, BeforeScrubs(e, r), s);
  }

  // ---------------------------------------------------------------------------
  // Summary and explanation
  // ---------------------------------------------------------------------------

  /** The messages put back into the plan's own prose. */
  function PlanMessages(c: Contents): seq<string>
  {
    Messages(AllSafety(c.steps))
  }

  lemma ScrubbedSummary(e: Env, c: Contents, s: Safety)
    requires LawfulEnv(e) && s in AllSafety(Scrubs(e, c).steps) && IsRefusal(s)
    requires Redaction.BlankFree(e.u, s.requested) && Readable(c.planSummary, PlanMessages(Scrubs(e, c)))
    ensures OffersNothing(e, Scrubs(e, c).planSummary, c.planSummary, PlanMessages(Scrubs(e, c)), RefusedValueOf(e, s))
  {
    RefusalIsBefore(e, c, s);
    RefusedPlanSpoke(e, c, s);
    RedactedSurface(e, c.planSummary, PlanMessages(Scrubs(e, c)), RefusedValues(e, c.steps), RefusedValueOf(e, s));
  }

  /** Main result: nor does the plan summary. */
  lemma CreatedSummaryOffersNothing(e: Env, r: Request, s: Safety)
    requires LawfulEnv(e) && Built(e, r).Created? && EnsuredSteps(e, r).Some?
    requires s in AllSafety(Built(e, r).contents.steps) && IsRefusal(s) && Redaction.BlankFree(e.u, s.requested)
    requires Readable(BeforeScrubs(e, r).planSummary, PlanMessages(Built(e, r).contents))
    ensures OffersNothing(e, Built(e, r).contents.planSummary, BeforeScrubs(e, r).planSummary,
                          PlanMessages(Built(e, r).contents), RefusedValueOf(e, s))
  {
    CreatedIsScrubbed(e, r);
    ScrubbedSummary(e, BeforeScrubs(e, r), s);
  }

  /** The explanation between its redaction and the recount of the steps. */
  ghost function RedactedExplanation(e: Env, c: Contents): string
  {
    Redact(e, c.explanation, PlanMessages(Scrubs(e, c)), RefusedValues(e, c.steps))
  }

  /** The scrub demoted a step, and the explanation still opens with the old count. */
  ghost predicate Recounted(e: Env, c: Contents)
  {
    Explained(e, Scrubs(e, c).steps) != Explained(e, c.steps) && Explained(e, c.steps) <= RedactedExplanation(e, c)
  }

  /** What follows the count. */
  ghost function AfterCount(e: Env, c: Contents): string
    requires Recounted(e, c)
  {
    RedactedExplanation(e, c)[|Explained(e, c.steps)|..]
  }

  /** The text is over, or goes on with a blank. */
  ghost predicate WordEnds(e: Env, text: string, m: nat)
  {
    m == |text| || Redaction.CutAtBlank(e.u, e.t, text, m)
  }

  lemma ExplanationIs(e: Env, c: Contents, s: Safety)
    requires LawfulEnv(e) && s in AllSafety(Scrubs(e, c).steps) && IsRefusal(s)
    ensures Scrubs(e, c).explanation ==
            if Recounted(e, c) then Explained(e, Scrubs(e, c).steps) + AfterCount(e, c) else RedactedExplanation(e, c)
  {
    RefusedPlanSpoke(e, c, s);
  }

  lemma ScrubbedExplanation(e: Env, c: Contents, s: Safety)
    requires LawfulEnv(e) && s in AllSafety(Scrubs(e, c).steps) && IsRefusal(s)
    requires Redaction.BlankFree(e.u, s.requested) && Readable(c.explanation, PlanMessages(Scrubs(e, c)))
    ensures OffersNothing(e, RedactedExplanation(e, c), c.explanation, PlanMessages(Scrubs(e, c)), RefusedValueOf(e, s))
    ensures !Recounted(e, c) ==> Scrubs(e, c).explanation == RedactedExplanation(e, c)
  {
    RefusalIsBefore(e, c, s);
    ExplanationIs(e, c, s);
    RedactedSurface(e, c.explanation, PlanMessages(Scrubs(e, c)), RefusedValues(e, c.steps), RefusedValueOf(e, s));
  }

  /** A new count, with what follows it up to a blank or the end, brings a refused
      value back exactly when it mentions it itself: whatever else the explanation
      mentions the redacted one does too. */
  lemma RecountedMentions(e: Env, c: Contents, s: Safety, m: nat)
    requires LawfulEnv(e) && s in AllSafety(Scrubs(e, c).steps) && IsRefusal(s)
    requires Redaction.BlankFree(e.u, s.requested) && Recounted(e, c) && WordEnds(e, AfterCount(e, c), m)
    ensures var bad, rest, head := RefusedValueOf(e, s), AfterCount(e, c)[m..], AfterCount(e, c)[..m];
      && (Redaction.Mentions(e.t, Scrubs(e, c).explanation, bad) <==>
          Redaction.Mentions(e.t, Explained(e, Scrubs(e, c).steps) + head, bad) || Redaction.Mentions(e.t, rest, bad))
      && (Redaction.Mentions(e.t, RedactedExplanation(e, c), bad) <==>
          Redaction.Mentions(e.t, Explained(e, c.steps) + head, bad) || Redaction.Mentions(e.t, rest, bad))
  {
    ExplanationIs(e, c, s);
    assert RedactedExplanation(e, c) == Explained(e, c.steps) + AfterCount(e, c);
    MentionsAfter(e, Explained(e, Scrubs(e, c).steps), AfterCount(e, c), RefusedValueOf(e, s), m);
    MentionsAfter(e, Explained(e, c.steps), AfterCount(e, c), RefusedValueOf(e, s), m);
  }

  lemma MentionsAfter(e: Env, count: string, after: string, bad: Redaction.RefusedValue, m: nat)
    requires Redaction.BlankFree(e.u, bad.value) && WordEnds(e, after, m)
    ensures Redaction.Mentions(e.t, count + after, bad) <==>
            Redaction.Mentions(e.t, count + after[..m], bad) || Redaction.Mentions(e.t, after[m..], bad)
  {
    var text := count + after;
    assert text[..|count| + m] == count + after[..m] && text[|count| + m..] == after[m..];
    if m < |after| {
      Redaction.MentionsOfParts(e.u, e.t, text, bad, |count| + m);
    } else {
      assert after[..m] == after && after[m..] == "";
    }
  }

  /** Main result: the explanation of a created plan offers no refused value outside
      the messages, unless the steps were recounted; then it mentions one that the
      redacted explanation does not if and only if the new count does. */
  lemma CreatedExplanationOffers(e: Env, r: Request, s: Safety, m: nat)
    requires LawfulEnv(e) && Built(e, r).Created? && EnsuredSteps(e, r).Some?
    requires s in AllSafety(Built(e, r).contents.steps) && IsRefusal(s) && Redaction.BlankFree(e.u, s.requested)
    requires Readable(BeforeScrubs(e, r).explanation, PlanMessages(Built(e, r).contents))
    requires Recounted(e, BeforeScrubs(e, r)) ==> WordEnds(e, AfterCount(e, BeforeScrubs(e, r)), m)
    ensures var c, bad, out := BeforeScrubs(e, r), RefusedValueOf(e, s), Built(e, r).contents.explanation;
      if !Recounted(e, c) then OffersNothing(e, out, c.explanation, PlanMessages(Built(e, r).contents), bad)
      else !Redaction.Mentions(e.t, RedactedExplanation(e, c), bad) ==>
             (Redaction.Mentions(e.t, out, bad) <==>
              Redaction.Mentions(e.t, Explained(e, Built(e, r).contents.steps) + AfterCount(e, c)[..m], bad))
  {
    CreatedIsScrubbed(e, r);
    ScrubbedExplanation(e, BeforeScrubs(e, r), s);
    if Recounted(e, BeforeScrubs(e, r)) { RecountedMentions(e, BeforeScrubs(e, r), s, m); }
  }
}
