/** Status conditions (internal/controller/controller_helpers.go) and the retry
    count the controller keeps inside a condition's message. */
module Conditions {
  import opened Json

  datatype ConditionStatus = True | False | Unknown

  datatype Condition = Condition(ctype: string, status: ConditionStatus, reason: string, message: string, since: int)

  // ---------------------------------------------------------------------------
  // setCondition
  // ---------------------------------------------------------------------------

  /** The first condition of a type, or the length. */
  function IndexOf(conditions: seq<Condition>, ctype: string): (i: nat)
    ensures i <= |conditions|
    ensures i < |conditions| ==> conditions[i].ctype == ctype
    ensures forall j | 0 <= j < i :: conditions[j].ctype != ctype
  {
    if conditions == [] || conditions[0].ctype == ctype then 0 else 1 + IndexOf(conditions[1..], ctype)
  }

  predicate HasCondition(conditions: seq<Condition>, ctype: string)
  {
    IndexOf(conditions, ctype) < |conditions|
  }

  /** setCondition. With `refresh` the message also changes when status and
      reason stay the same; the code is `refresh == false`. */
  function WithCondition(conditions: seq<Condition>, c: Condition, refresh: bool): seq<Condition>
  {
    var i := IndexOf(conditions, c.ctype);
    if i == |conditions| then conditions + [c]
    else if conditions[i].status != c.status || conditions[i].reason != c.reason then conditions[i := c]
    else if refresh then conditions[i := conditions[i].(message := c.message)]
    else conditions
  }

  method SetCondition(conditions: seq<Condition>, c: Condition) returns (out: seq<Condition>)
    ensures out == WithCondition(conditions, c, false)
  {
    for i := 0 to |conditions|
      invariant forall j | 0 <= j < i :: conditions[j].ctype != c.ctype
    {
      if conditions[i].ctype == c.ctype {
        assert IndexOf(conditions, c.ctype) == i;
        if conditions[i].status != c.status || conditions[i].reason != c.reason {
          return conditions[i := c];
        }
        return conditions;
      }
    }
    return conditions + [c];
  }

  lemma IndexIs(conditions: seq<Condition>, ctype: string, i: nat)
    requires i <= |conditions| && (i < |conditions| ==> conditions[i].ctype == ctype)
    requires forall j | 0 <= j < i :: conditions[j].ctype != ctype
    ensures IndexOf(conditions, ctype) == i
  {
  }

  /** What a condition reads after it was set. */
  lemma SetConditionReads(conditions: seq<Condition>, c: Condition, refresh: bool)
    ensures var out, i := WithCondition(conditions, c, refresh), IndexOf(conditions, c.ctype);
      && IndexOf(out, c.ctype) == i && i < |out|
      && out[i].status == c.status && out[i].reason == c.reason
      && (out[i].message == c.message || (!refresh && i < |conditions| && out[i] == conditions[i]))
  {
    IndexIs(WithCondition(conditions, c, refresh), c.ctype, IndexOf(conditions, c.ctype));
  }

  /** Setting one condition leaves every other one alone. */
  lemma SettingIsLocal(conditions: seq<Condition>, c: Condition, refresh: bool, other: string)
    requires other != c.ctype
    ensures var out := WithCondition(conditions, c, refresh);
      && (HasCondition(out, other) <==> HasCondition(conditions, other))
      && (HasCondition(conditions, other) ==>
            IndexOf(out, other) == IndexOf(conditions, other) &&
            out[IndexOf(conditions, other)] == conditions[IndexOf(conditions, other)])
  {
    var out, k := WithCondition(conditions, c, refresh), IndexOf(conditions, other);
    assert forall j | 0 <= j < |conditions| :: out[j].ctype == conditions[j].ctype;
    IndexIs(out, other, if k < |conditions| then k else |out|);
  }

  // ---------------------------------------------------------------------------
  // Numerals
  // ---------------------------------------------------------------------------

  predicate IsDigit(c: char)
  {
    '0' <= c <= '9'
  }

  function Digit(d: nat): (c: char)
    requires d < 10
    ensures IsDigit(c) && DigitValue(c) == d
  {
    d as char + '0'
  }

  function DigitValue(c: char): nat
    requires IsDigit(c)
  {
    (c - '0') as nat
  }

  /** How `%d` prints a count. */
  function Numeral(n: nat): (s: string)
    ensures s != [] && forall c | c in s :: IsDigit(c)
  {
    if n < 10 then [Digit(n)] else Numeral(n / 10) + [Digit(n % 10)]
  }

  /** The length of the run of digits a text starts with. */
  function DigitRun(s: string): (k: nat)
    ensures k <= |s| && forall c | c in s[..k] :: IsDigit(c)
  {
    if s == [] || !IsDigit(s[0]) then 0
    else
      assert s[..1 + DigitRun(s[1..])] == [s[0]] + s[1..][..DigitRun(s[1..])];
      1 + DigitRun(s[1..])
  }

  function Value(s: string): nat
    requires forall c | c in s :: IsDigit(c)
  {
    if s == [] then 0
    else
      assert forall c | c in s[..|s| - 1] :: c in s;
      assert s[|s| - 1] in s;
      10 * Value(s[..|s| - 1]) + DigitValue(s[|s| - 1])
  }

  /** How `%d` reads a count back: the value and the rest of the text. */
  function Scanned(s: string): Option<(nat, string)>
  {
    var k := DigitRun(s);
    if k == 0 then None else Some((Value(s[..k]), s[k..]))
  }

  lemma {:induction false} ValueOfNumeral(n: nat)
    ensures Value(Numeral(n)) == n
  {
    if n >= 10 {
      ValueOfNumeral(n / 10);
      var s := Numeral(n);
      assert s[..|s| - 1] == Numeral(n / 10);
    } else {
      assert Numeral(n)[..0] == [];
    }
  }

  lemma {:induction false} RunOfDigits(digits: string, rest: string)
    requires forall c | c in digits :: IsDigit(c)
    requires rest == [] || !IsDigit(rest[0])
    ensures DigitRun(digits + rest) == |digits|
  {
    if digits == [] {
      assert digits + rest == rest;
    } else {
      assert (digits + rest)[1..] == digits[1..] + rest;
      assert digits[0] in digits;
      RunOfDigits(digits[1..], rest);
    }
  }

  lemma ScanUndoesPrint(n: nat, rest: string)
    requires rest == [] || !IsDigit(rest[0])
    ensures Scanned(Numeral(n) + rest) == Some((n, rest))
  {
    RunOfDigits(Numeral(n), rest);
    assert (Numeral(n) + rest)[..|Numeral(n)|] == Numeral(n) && (Numeral(n) + rest)[|Numeral(n)|..] == rest;
    ValueOfNumeral(n);
  }

  // ---------------------------------------------------------------------------
  // The retry count
  // ---------------------------------------------------------------------------

  const VERIFIED := "Verified"
  const VERIFICATION_UNKNOWN := "VerificationUnknown"
  const RETRY_TEXT := "Verification returned Unknown, retry "

  function RetryMessage(attempt: nat, most: nat): string
  {
    RETRY_TEXT + (Numeral(attempt) + ("/" + Numeral(most)))
  }

  /** What the scan finds in a message, if it fits the format. */
  function RetryAttempt(message: string): Option<nat>
  {
    if !(RETRY_TEXT <= message) then None
    else
      match Scanned(message[|RETRY_TEXT|..])
      case None => None
      case Some((attempt, rest)) =>
        if rest == [] || rest[0] != '/' || Scanned(rest[1..]).None? then None else Some(attempt)
  }

  /** The scan reads back what was printed, for every count and bound. */
  lemma RetryMessageRoundTrip(attempt: nat, most: nat)
    ensures RetryAttempt(RetryMessage(attempt, most)) == Some(attempt)
  {
    var m := RetryMessage(attempt, most);
    assert m[|RETRY_TEXT|..] == Numeral(attempt) + ("/" + Numeral(most));
    ScanUndoesPrint(attempt, "/" + Numeral(most));
    assert ("/" + Numeral(most))[1..] == Numeral(most) + [];
    ScanUndoesPrint(most, []);
  }

  /** getRetryCount: the first condition that fits. */
  function RetryCount(conditions: seq<Condition>): nat
  {
    if conditions == [] then 0
    else if conditions[0].ctype == VERIFIED && conditions[0].reason == VERIFICATION_UNKNOWN &&
            RetryAttempt(conditions[0].message).Some?
    then RetryAttempt(conditions[0].message).value
    else RetryCount(conditions[1..])
  }

  method GetRetryCount(conditions: seq<Condition>) returns (count: nat)
    ensures count == RetryCount(conditions)
  {
    for i := 0 to |conditions|
      invariant RetryCount(conditions) == RetryCount(conditions[i..])
    {
      assert conditions[i..][0] == conditions[i] && conditions[i..][1..] == conditions[i + 1..];
      var c := conditions[i];
      if c.ctype == VERIFIED && c.reason == VERIFICATION_UNKNOWN {
        var attempt := RetryAttempt(c.message);
        if attempt.Some? { return attempt.value; }
      }
    }
    assert conditions[|conditions|..] == [];
    return 0;
  }

  /** No type appears twice: what setCondition keeps and a CRD list declares. */
  ghost predicate OnePerType(conditions: seq<Condition>)
  {
    forall i, j | 0 <= i < j < |conditions| :: conditions[i].ctype != conditions[j].ctype
  }

  lemma SettingKeepsOnePerType(conditions: seq<Condition>, c: Condition, refresh: bool)
    requires OnePerType(conditions)
    ensures OnePerType(WithCondition(conditions, c, refresh))
  {
  }

  /** With one condition a type, the count is in the Verified one. */
  lemma {:induction false} CountIsInVerified(conditions: seq<Condition>)
    requires OnePerType(conditions)
    ensures var i := IndexOf(conditions, VERIFIED);
      RetryCount(conditions) ==
      if i < |conditions| && conditions[i].reason == VERIFICATION_UNKNOWN && RetryAttempt(conditions[i].message).Some?
      then RetryAttempt(conditions[i].message).value else 0
    decreases |conditions|
  {
    if conditions != [] {
      CountIsInVerified(conditions[1..]);
      if conditions[0].ctype == VERIFIED {
        assert IndexOf(conditions[1..], VERIFIED) == |conditions| - 1;
      }
    }
  }

  /** Recording a retry: as written the count moves once and then stands still;
      with a refreshed message it is the count that was asked for. */
  lemma CountAfterRetry(conditions: seq<Condition>, attempt: nat, most: nat, at: int, refresh: bool)
    requires OnePerType(conditions)
    ensures var c := Condition(VERIFIED, False, VERIFICATION_UNKNOWN, RetryMessage(attempt, most), at);
      var i := IndexOf(conditions, VERIFIED);
      RetryCount(WithCondition(conditions, c, refresh)) ==
      if refresh || i == |conditions| || conditions[i].status != False || conditions[i].reason != VERIFICATION_UNKNOWN
      then attempt else RetryCount(conditions)
  {
    var c := Condition(VERIFIED, False, VERIFICATION_UNKNOWN, RetryMessage(attempt, most), at);
    var out := WithCondition(conditions, c, refresh);
    SettingKeepsOnePerType(conditions, c, refresh);
    SetConditionReads(conditions, c, refresh);
    RetryMessageRoundTrip(attempt, most);
    CountIsInVerified(conditions);
    CountIsInVerified(out);
  }
}
