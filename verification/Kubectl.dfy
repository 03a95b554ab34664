/** Reading the verb of a suggested kubectl command
    (internal/remediation/kubectl_verb.go) and cleaning such a command
    (api/v1/remediationaction_steps.go). */
module Kubectl {
  import opened Json
  import opened Text

  const MUTATING_VERBS: set<string> := {
    "annotate", "apply", "autoscale", "cordon", "create", "delete", "drain", "edit", "expose", "label", "patch",
    "replace", "run", "scale", "set", "taint", "uncordon"
  }

  const READ_ONLY_VERBS: set<string> := {
    "api-resources", "api-versions", "cluster-info", "describe", "diff", "events", "explain", "get", "logs", "top",
    "version"
  }

  /** Verbs whose effect depends on the subcommand, with the ones that read. */
  const VERBS_WITH_SUBCOMMANDS: map<string, set<string>> := map[
    "auth" := {"can-i", "whoami"},
    "rollout" := {"history", "status"}
  ]

  const VALUE_FLAGS: set<string> := {
    "-n", "--namespace", "-o", "--output", "-s", "--server", "--context", "--cluster", "--user", "--kubeconfig",
    "--token", "--as", "--as-group", "--as-uid", "--cache-dir", "--certificate-authority", "--client-certificate",
    "--client-key", "--request-timeout", "--tls-server-name", "--username", "--password", "--profile",
    "--profile-output", "--log-flush-frequency", "-v", "--v", "--vmodule"
  }

  const BOOLEAN_FLAGS: set<string> := {
    "--insecure-skip-tls-verify", "--match-server-version", "--warnings-as-errors", "--disable-compression"
  }

  // ---------------------------------------------------------------------------
  // Words
  // ---------------------------------------------------------------------------

  /** strings.Fields from position i on, the word under way started at start. */
  function FieldsFrom(u: Unicode, s: string, start: nat, i: nat): seq<string>
    requires start <= i <= |s|
    decreases |s| - i
  {
    if i == |s| then (if start < i then [s[start..i]] else [])
    else if u.space(s[i]) then (if start < i then [s[start..i]] else []) + FieldsFrom(u, s, i + 1, i + 1)
    else FieldsFrom(u, s, start, i + 1)
  }

  function Fields(u: Unicode, s: string): seq<string>
  {
    FieldsFrom(u, s, 0, 0)
  }

  predicate IsWord(u: Unicode, w: string)
  {
    w != "" && forall c | c in w :: !u.space(c)
  }

  lemma {:induction false} FieldsIgnoreWhatIsBehind(u: Unicode, s: string, start: nat, i: nat)
    requires start <= i <= |s|
    ensures FieldsFrom(u, s, start, i) == FieldsFrom(u, s[start..], 0, i - start)
    decreases |s| - i
  {
    var rest := s[start..];
    assert s[start..i] == rest[0..i - start];
    if i < |s| {
      if u.space(s[i]) {
        FieldsIgnoreWhatIsBehind(u, s, i + 1, i + 1);
        FieldsIgnoreWhatIsBehind(u, rest, i + 1 - start, i + 1 - start);
        assert rest[i + 1 - start..] == s[i + 1..];
      } else {
        FieldsIgnoreWhatIsBehind(u, s, start, i + 1);
      }
    }
  }

  lemma {:induction false} ScanWord(u: Unicode, s: string, w: string, i: nat)
    requires w <= s && IsWord(u, w) && i <= |w|
    ensures FieldsFrom(u, s, 0, i) == FieldsFrom(u, s, 0, |w|)
    decreases |w| - i
  {
    if i < |w| {
      assert s[i] == w[i] && w[i] in w;
      ScanWord(u, s, w, i + 1);
    }
  }

  /** Cutting words joined by blanks gives the words back. */
  lemma {:induction false} FieldsUndoJoin(u: Unicode, words: seq<string>)
    requires Lawful(u) && forall w | w in words :: IsWord(u, w)
    ensures Fields(u, Joined(words)) == words
    decreases |words|
  {
    if words != [] {
      var w, s := words[0], Joined(words);
      assert w in words && w <= s;
      ScanWord(u, s, w, 0);
      assert s[0..|w|] == w;
      if |words| > 1 {
        var rest := Joined(words[1..]);
        assert s[|w|] == ' ' && s[|w| + 1..] == rest;
        FieldsIgnoreWhatIsBehind(u, s, |w| + 1, |w| + 1);
        FieldsUndoJoin(u, words[1..]);
      }
      assert words == [w] + words[1..];
    }
  }

  // ---------------------------------------------------------------------------
  // The verb
  // ---------------------------------------------------------------------------

  /** The position of the first '=' of a token, or its length. */
  function EqualsSign(token: string): (i: nat)
    ensures i <= |token| && (i < |token| ==> token[i] == '=') && forall k | 0 <= k < i :: token[k] != '='
    decreases |token|
  {
    if token == "" || token[0] == '=' then 0
    else
      var i := 1 + EqualsSign(token[1..]);
      assert forall k | 0 < k < i :: token[k] == token[1..][k - 1];
      i
  }

  predicate IsFlag(token: string)
  {
    token != "" && token[0] == '-'
  }

  datatype Invocation = Invocation(verb: string, arguments: seq<string>)

  /** The scan of kubectlVerb over the tokens behind "kubectl". */
  function VerbOf(tokens: seq<string>): Option<Invocation>
    decreases |tokens|
  {
    if tokens == [] then None
    else
      var token := tokens[0];
      if !IsFlag(token) then Some(Invocation(token, tokens[1..]))
      else
        var eq := EqualsSign(token);
        if eq < |token| then
          (if token[..eq] in VALUE_FLAGS || token[..eq] in BOOLEAN_FLAGS then VerbOf(tokens[1..]) else None)
        else if token in BOOLEAN_FLAGS then VerbOf(tokens[1..])
        else if token in VALUE_FLAGS then (if |tokens| < 2 then None else VerbOf(tokens[2..]))
        else None
  }

  function VerbOfFields(fields: seq<string>): Option<Invocation>
  {
    if |fields| < 2 || fields[0] != "kubectl" then None else VerbOf(fields[1..])
  }

  /** kubectlVerb's index loop. */
  method KubectlVerb(u: Unicode, command: string) returns (found: Option<Invocation>)
    ensures found == VerbOfFields(Fields(u, command))
  {
    var fields := Fields(u, command);
    if |fields| < 2 || fields[0] != "kubectl" {
      return None;
    }
    var i := 1;
    while i < |fields|
      invariant 1 <= i <= |fields|
      invariant VerbOf(fields[i..]) == VerbOf(fields[1..])
    {
      var token := fields[i];
      assert fields[i..][1..] == fields[i + 1..];
      if !IsFlag(token) {
        return Some(Invocation(token, fields[i + 1..]));
      }
      var eq := EqualsSign(token);
      if eq < |token| {
        if token[..eq] !in VALUE_FLAGS && token[..eq] !in BOOLEAN_FLAGS { return None; }
        i := i + 1;
        continue;
      }
      if token in BOOLEAN_FLAGS {
        i := i + 1;
      } else if token in VALUE_FLAGS {
        if i + 1 >= |fields| { return None; }
        assert fields[i..][2..] == fields[i + 2..];
        i := i + 2;
      } else {
        return None;
      }
    }
    return None;
  }

  /** How a known global flag can be written. */
  datatype GlobalFlag =
    | Bare(name: string)
    | Separate(name: string, value: string)
    | Inline(name: string, value: string)

  ghost predicate Known(flag: GlobalFlag)
  {
    match flag
    case Bare(name) => Switches(name)
    case Separate(name, _) => TakesValue(name)
    case Inline(name, _) => TakesValue(name) || Switches(name)
  }

  /** kubectl's global options with a value. */
  predicate TakesValue(name: string)
  {
    name in {"-n", "--namespace", "-o", "--output", "-s", "--server", "--context", "--cluster", "--user",
      "--kubeconfig", "--token", "--as", "--as-group", "--as-uid", "--cache-dir", "--certificate-authority",
      "--client-certificate", "--client-key", "--request-timeout", "--tls-server-name", "--username", "--password",
      "--profile", "--profile-output", "--log-flush-frequency", "-v", "--v", "--vmodule"}
  }

  /** And those without. */
  predicate Switches(name: string)
  {
    name in {"--insecure-skip-tls-verify", "--match-server-version", "--warnings-as-errors", "--disable-compression"}
  }

  /** The tables hold these options. */
  lemma FlagTables(name: string)
    ensures name in VALUE_FLAGS <==> TakesValue(name)
    ensures name in BOOLEAN_FLAGS <==> Switches(name)
  {
  }

  function Tokens(flag: GlobalFlag): seq<string>
  {
    match flag
    case Bare(name) => [name]
    case Separate(name, value) => [name, value]
    case Inline(name, value) => [name + "=" + value]
  }

  function AllTokens(flags: seq<GlobalFlag>): seq<string>
    decreases |flags|
  {
    if flags == [] then [] else Tokens(flags[0]) + AllTokens(flags[1..])
  }

  lemma ValueFlagNames(name: string)
    requires name in VALUE_FLAGS
    ensures IsFlag(name) && '=' !in name
  {
  }

  lemma BooleanFlagNames(name: string)
    requires name in BOOLEAN_FLAGS
    ensures IsFlag(name) && '=' !in name && name !in VALUE_FLAGS
  {
  }

  lemma FlagNames(name: string)
    requires name in VALUE_FLAGS || name in BOOLEAN_FLAGS
    ensures IsFlag(name) && '=' !in name
    ensures !(name in VALUE_FLAGS && name in BOOLEAN_FLAGS)
  {
    if name in BOOLEAN_FLAGS { BooleanFlagNames(name); } else { ValueFlagNames(name); }
  }

  lemma EqualsSignIs(token: string, n: nat)
    requires n <= |token| && '=' !in token[..n] && (n < |token| ==> token[n] == '=')
    ensures EqualsSign(token) == n
    decreases |token|
  {
  }

  /** One printed flag is skipped. */
  lemma VerbSkipsFlag(flag: GlobalFlag, rest: seq<string>)
    requires Known(flag)
    ensures VerbOf(Tokens(flag) + rest) == VerbOf(rest)
  {
    var tokens := Tokens(flag) + rest;
    FlagTables(flag.name);
    FlagNames(flag.name);
    match flag
    case Bare(name) =>
      assert name[..|name|] == name;
      EqualsSignIs(name, |name|);
      assert tokens[1..] == rest;
    case Separate(name, value) =>
      assert name[..|name|] == name;
      EqualsSignIs(name, |name|);
      assert tokens[2..] == rest;
    case Inline(name, value) =>
      var token := name + "=" + value;
      assert token[..|name|] == name;
      EqualsSignIs(token, |name|);
      assert tokens[1..] == rest;
  }

  lemma {:induction false} VerbSkipsFlags(flags: seq<GlobalFlag>, rest: seq<string>)
    requires forall f | f in flags :: Known(f)
    ensures VerbOf(AllTokens(flags) + rest) == VerbOf(rest)
    decreases |flags|
  {
    if flags == [] {
      assert AllTokens(flags) + rest == rest;
    } else {
      assert AllTokens(flags) + rest == Tokens(flags[0]) + (AllTokens(flags[1..]) + rest);
      VerbSkipsFlag(flags[0], AllTokens(flags[1..]) + rest);
      VerbSkipsFlags(flags[1..], rest);
    }
  }

  /** Parsing undoes printing: known flags in any form and with any values, then
      a verb and its arguments. */
  lemma ParseUndoesPrint(u: Unicode, flags: seq<GlobalFlag>, verb: string, arguments: seq<string>)
    requires Lawful(u)
    requires forall f | f in flags :: Known(f)
    requires !IsFlag(verb) && forall w | w in AllTokens(flags) + [verb] + arguments :: IsWord(u, w)
    ensures VerbOfFields(Fields(u, Joined(["kubectl"] + AllTokens(flags) + [verb] + arguments))) ==
            Some(Invocation(verb, arguments))
  {
    var behind := AllTokens(flags) + ([verb] + arguments);
    var words := ["kubectl"] + AllTokens(flags) + [verb] + arguments;
    assert words[1..] == behind == AllTokens(flags) + [verb] + arguments;
    assert IsWord(u, "kubectl") by {
      forall c | c in "kubectl" ensures !u.space(c) { assert IsLetter(c); }
    }
    FieldsUndoJoin(u, words);
    VerbSkipsFlags(flags, [verb] + arguments);
    assert ([verb] + arguments)[1..] == arguments;
  }

  /** A flag that the scan gets past is a printed known flag. */
  lemma FirstFlag(tokens: seq<string>) returns (flag: GlobalFlag)
    requires tokens != [] && IsFlag(tokens[0]) && VerbOf(tokens).Some?
    ensures Known(flag) && Tokens(flag) <= tokens
    ensures VerbOf(tokens) == VerbOf(tokens[|Tokens(flag)|..])
  {
    var token := tokens[0];
    var eq := EqualsSign(token);
    FlagTables(token);
    FlagTables(token[..eq]);
    if eq < |token| {
      flag := Inline(token[..eq], token[eq + 1..]);
      assert token == token[..eq] + "=" + token[eq + 1..];
    } else if token in BOOLEAN_FLAGS {
      flag := Bare(token);
    } else {
      flag := Separate(token, tokens[1]);
    }
  }

  lemma PutFlagBack(tokens: seq<string>, flag: GlobalFlag, flags: seq<GlobalFlag>, tail: seq<string>)
    requires Tokens(flag) <= tokens && tokens[|Tokens(flag)|..] == AllTokens(flags) + tail
    ensures tokens == AllTokens([flag] + flags) + tail
  {
  }

  function Behind(i: Invocation): seq<string>
  {
    [i.verb] + i.arguments
  }

  /** And nothing else is parsed: a verb is found only behind known flags. */
  lemma {:induction false} ParsedIsPrinted(tokens: seq<string>) returns (flags: seq<GlobalFlag>)
    requires VerbOf(tokens).Some?
    ensures forall f | f in flags :: Known(f)
    ensures !IsFlag(VerbOf(tokens).value.verb)
    ensures tokens == AllTokens(flags) + Behind(VerbOf(tokens).value)
    decreases |tokens|
  {
    if !IsFlag(tokens[0]) {
      flags := [];
      assert AllTokens(flags) == [];
      assert tokens == [tokens[0]] + tokens[1..];
    } else {
      var flag := FirstFlag(tokens);
      var tail := Behind(VerbOf(tokens).value);
      var rest := ParsedIsPrinted(tokens[|Tokens(flag)|..]);
      PutFlagBack(tokens, flag, rest, tail);
      flags := [flag] + rest;
    }
  }

  // ---------------------------------------------------------------------------
  // Reads and writes
  // ---------------------------------------------------------------------------

  predicate SubcommandReadsOnly(arguments: seq<string>, readOnly: set<string>)
  {
    arguments != [] && !IsFlag(arguments[0]) && arguments[0] in readOnly
  }

  predicate ReadsOnly(u: Unicode, command: string)
  {
    match VerbOfFields(Fields(u, command))
    case None => false
    case Some(Invocation(verb, arguments)) =>
      if verb in VERBS_WITH_SUBCOMMANDS then SubcommandReadsOnly(arguments, VERBS_WITH_SUBCOMMANDS[verb])
      else verb !in MUTATING_VERBS && verb in READ_ONLY_VERBS
  }

  predicate IsKubectlInvocation(u: Unicode, command: string)
  {
    var fields := Fields(u, command);
    |fields| >= 2 && fields[0] == "kubectl"
  }

  predicate WritesWorkload(u: Unicode, command: string)
  {
    IsKubectlInvocation(u, command) && !ReadsOnly(u, command)
  }

  /** A listed reading form: a read-only verb, or a verb followed at once by one
      of its read-only subcommands. */
  ghost predicate ListedRead(verb: string, arguments: seq<string>)
  {
    || verb in {"api-resources", "api-versions", "cluster-info", "describe", "diff", "events", "explain", "get", "logs",
                "top", "version"}
    || (verb == "auth" && arguments != [] && arguments[0] in {"can-i", "whoami"})
    || (verb == "rollout" && arguments != [] && arguments[0] in {"history", "status"})
  }

  lemma TablesDisjoint(s: string)
    ensures s in READ_ONLY_VERBS ==> s !in MUTATING_VERBS && s !in VERBS_WITH_SUBCOMMANDS
    ensures s in {"can-i", "whoami", "history", "status"} ==> !IsFlag(s)
  {
  }

  /** Known flags, then a listed reading form. */
  ghost predicate IsListedRead(fields: seq<string>, flags: seq<GlobalFlag>, verb: string, arguments: seq<string>)
  {
    && fields == ["kubectl"] + AllTokens(flags) + [verb] + arguments
    && (forall f | f in flags :: Known(f))
    && !IsFlag(verb) && ListedRead(verb, arguments)
  }

  lemma VerbOfListedRead(fields: seq<string>, flags: seq<GlobalFlag>, verb: string, arguments: seq<string>)
    requires fields == ["kubectl"] + AllTokens(flags) + [verb] + arguments
    requires !IsFlag(verb) && forall f | f in flags :: Known(f)
    ensures VerbOfFields(fields) == Some(Invocation(verb, arguments))
  {
    assert fields[1..] == AllTokens(flags) + ([verb] + arguments);
    VerbSkipsFlags(flags, [verb] + arguments);
    assert ([verb] + arguments)[1..] == arguments;
  }

  lemma ReadingIsListed(verb: string, arguments: seq<string>)
    ensures ListedRead(verb, arguments) <==>
            if verb in VERBS_WITH_SUBCOMMANDS then SubcommandReadsOnly(arguments, VERBS_WITH_SUBCOMMANDS[verb])
            else verb !in MUTATING_VERBS && verb in READ_ONLY_VERBS
  {
    TablesDisjoint(verb);
    if arguments != [] { TablesDisjoint(arguments[0]); }
  }

  /** A kubectl command is let through exactly when it is known flags followed by
      a listed reading form, whatever the flags' values are. */
  lemma LetThroughIsListedRead(u: Unicode, command: string)
    requires IsKubectlInvocation(u, command)
    ensures !WritesWorkload(u, command) <==>
            exists flags, verb, arguments :: IsListedRead(Fields(u, command), flags, verb, arguments)
  {
    if !WritesWorkload(u, command) {
      var flags, verb, arguments := ReadOfLetThrough(u, command);
    }
    forall flags, verb, arguments | IsListedRead(Fields(u, command), flags, verb, arguments)
      ensures !WritesWorkload(u, command)
    {
      ListedReadIsLetThrough(u, command, flags, verb, arguments);
    }
  }

  lemma ListedReadIsLetThrough(
    u: Unicode, command: string, flags: seq<GlobalFlag>, verb: string, arguments: seq<string>)
    requires IsListedRead(Fields(u, command), flags, verb, arguments)
    ensures !WritesWorkload(u, command)
  {
    VerbOfListedRead(Fields(u, command), flags, verb, arguments);
    ReadingIsListed(verb, arguments);
  }

  lemma ReadOfLetThrough(u: Unicode, command: string)
    returns (flags: seq<GlobalFlag>, verb: string, arguments: seq<string>)
    requires IsKubectlInvocation(u, command) && !WritesWorkload(u, command)
    ensures IsListedRead(Fields(u, command), flags, verb, arguments)
  {
    var fields := Fields(u, command);
    verb, arguments := VerbOf(fields[1..]).value.verb, VerbOf(fields[1..]).value.arguments;
    flags := ParsedIsPrinted(fields[1..]);
    ReadingIsListed(verb, arguments);
    assert fields == ["kubectl"] + (AllTokens(flags) + ([verb] + arguments));
  }

  // ---------------------------------------------------------------------------
  // Cleaning a suggested command
  // ---------------------------------------------------------------------------

  const MAX_COMMAND_LENGTH := 1024
  const COMMAND_PREFIX := "kubectl "
  const FORBIDDEN: set<char> := {';', '&', '|', '<', '>', '`', '$', '\n', '\r'}

  /** SanitizeStepCommand. */
  function Sanitized(u: Unicode, command: string): (r: string)
  {
    var t := Trimmed(u, command);
    if t == "" || |t| > MAX_COMMAND_LENGTH || !(COMMAND_PREFIX <= t) || (exists c | c in t :: c in FORBIDDEN) then ""
    else t
  }

  lemma {:induction false} SomeField(u: Unicode, s: string, start: nat, i: nat, k: nat)
    requires start <= i <= k < |s| && !u.space(s[k])
    ensures FieldsFrom(u, s, start, i) != []
    decreases |s| - i
  {
    if i == k {
      FieldStarted(u, s, start, i + 1);
    } else {
      SomeField(u, s, if u.space(s[i]) then i + 1 else start, i + 1, k);
    }
  }

  lemma {:induction false} FieldStarted(u: Unicode, s: string, start: nat, i: nat)
    requires start < i <= |s|
    ensures FieldsFrom(u, s, start, i) != []
    decreases |s| - i
  {
    if i < |s| && !u.space(s[i]) { FieldStarted(u, s, start, i + 1); }
  }

  /** None of the characters that chain, pipe, redirect or expand, or start a new
      line. */
  predicate OneCommand(s: string)
  {
    forall c | c in s ::
      c != ';' && c != '&' && c != '|' && c != '<' && c != '>' && c != '`' && c != '$' && c != '\n' && c != '\r'
  }

  /** The display guard, both ways: a trimmed line of at most 1024 characters that
      starts with kubectl and holds none of those characters is returned as it is,
      and nothing else is. */
  lemma SanitizedIff(u: Unicode, command: string)
    ensures var t := Trimmed(u, command);
      Sanitized(u, command) == if "kubectl " <= t && |t| <= 1024 && OneCommand(t) then t else ""
  {
    var t := Trimmed(u, command);
    if c :| c in t && c in FORBIDDEN { assert !OneCommand(t); }
    if OneCommand(t) {
      forall c | c in t ensures c !in FORBIDDEN {}
    } else {
      var c :| c in t && (c == ';' || c == '&' || c == '|' || c == '<' || c == '>' || c == '`' || c == '$' ||
                          c == '\n' || c == '\r');
      assert c in FORBIDDEN;
    }
  }

  /** A command that passes the display guard is a kubectl invocation. */
  lemma SanitizedIsInvocation(u: Unicode, command: string)
    requires Lawful(u) && Sanitized(u, command) != ""
    ensures IsKubectlInvocation(u, Sanitized(u, command))
  {
    var t := Sanitized(u, command);
    assert |COMMAND_PREFIX| == 8 && t[..8] == COMMAND_PREFIX && COMMAND_PREFIX == "kubectl" + " ";
    assert t[..7] == "kubectl" && t[7] == ' ';
    assert IsWord(u, "kubectl");
    ScanWord(u, t, "kubectl", 0);
    assert t[0..7] == "kubectl";
    assert FieldsFrom(u, t, 0, 7) == ["kubectl"] + FieldsFrom(u, t, 8, 8);
    SomeField(u, t, 8, 8, |t| - 1);
  }

  // ---------------------------------------------------------------------------
  // The words a shell makes of it
  // ---------------------------------------------------------------------------

  datatype Quoting = Unquoted | Single | Double

  predicate IsBlank(c: char)
  {
    c == ' ' || c == '\t'
  }

  /** What ends a command, joins it to another or redirects it. */
  predicate IsOperator(c: char)
  {
    c in {';', '&', '|', '<', '>', '(', ')', '\n'}
  }

  predicate IsExpansion(c: char)
  {
    c == '$' || c == '`'
  }

  function Grown(word: Option<string>, c: char): Option<string>
  {
    match word case Some(w) => Some(w + [c]) case None => Some([c])
  }

  function Opened(word: Option<string>): Option<string>
  {
    if word.None? then Some("") else word
  }

  function Cut(word: Option<string>, rest: Option<seq<string>>): Option<seq<string>>
  {
    match word
    case Some(w) => (if rest.Some? then Some([w] + rest.value) else None)
    case None => rest
  }

  /** Quoting and words as in sections 2.2 and 2.3 of the POSIX Shell Command
      Language: the word under way, and the rest; nothing if the line is more than
      one command of fixed words, or ends in a quotation. */
  function ShellWordsFrom(s: string, word: Option<string>, quoting: Quoting): Option<seq<string>>
    decreases |s|
  {
    if s == "" then (if quoting.Unquoted? then Cut(word, Some([])) else None)
    else
      var c := s[0];
      match quoting
      case Single =>
        if c == '\'' then ShellWordsFrom(s[1..], word, Unquoted)
        else ShellWordsFrom(s[1..], Grown(word, c), Single)
      case Double =>
        if c == '"' then ShellWordsFrom(s[1..], word, Unquoted)
        else if c == '\\' && |s| > 1 && s[1] in {'$', '`', '"', '\\'} then
          ShellWordsFrom(s[2..], Grown(word, s[1]), Double)
        else if IsExpansion(c) then None
        else ShellWordsFrom(s[1..], Grown(word, c), Double)
      case Unquoted =>
        if IsBlank(c) then Cut(word, ShellWordsFrom(s[1..], None, Unquoted))
        else if IsOperator(c) || IsExpansion(c) then None
        else if c == '#' && word.None? then Some([])
        else if c == '\'' then ShellWordsFrom(s[1..], Opened(word), Single)
        else if c == '"' then ShellWordsFrom(s[1..], Opened(word), Double)
        else if c == '\\' then
          (if |s| > 1 then ShellWordsFrom(s[2..], Grown(word, s[1]), Unquoted) else None)
        else ShellWordsFrom(s[1..], Grown(word, c), Unquoted)
  }

  function ShellWords(s: string): Option<seq<string>>
  {
    ShellWordsFrom(s, None, Unquoted)
  }

  /** A character that is itself to the shell. */
  predicate IsPlain(c: char)
  {
    c !in {'\'', '"', '\\', '#'} && !IsBlank(c) && !IsOperator(c) && !IsExpansion(c)
  }

  /** No quotation, comment or parenthesis, and no white space but blanks and tabs. */
  ghost predicate Unadorned(u: Unicode, s: string)
  {
    forall c | c in s :: (u.space(c) <==> IsBlank(c)) && c !in {'\'', '"', '\\', '#', '(', ')'}
  }

  lemma {:induction false} ShellReadsOn(u: Unicode, s: string, start: nat, i: nat)
    requires Unadorned(u, s) && OneCommand(s) && start <= i <= |s|
    ensures ShellWordsFrom(s[i..], if start < i then Some(s[start..i]) else None, Unquoted) ==
            Some(FieldsFrom(u, s, start, i))
    decreases |s| - i
  {
    if i == |s| {
      assert [s[start..i]] + [] == [s[start..i]];
    } else {
      assert s[i] in s && s[i..][1..] == s[i + 1..];
      if u.space(s[i]) {
        ShellReadsOn(u, s, i + 1, i + 1);
        assert [] + FieldsFrom(u, s, i + 1, i + 1) == FieldsFrom(u, s, i + 1, i + 1);
      } else {
        assert s[start..i + 1] == s[start..i] + [s[i]];
        if start == i { assert s[start..i + 1] == [s[i]]; }
        ShellReadsOn(u, s, start, i + 1);
      }
    }
  }

  /** The fields the verb is read from are the shell's words where nothing is
      quoted. */
  lemma ShellReadsFields(u: Unicode, s: string)
    requires Unadorned(u, s) && OneCommand(s)
    ensures ShellWords(s) == Some(Fields(u, s))
  {
    ShellReadsOn(u, s, 0, 0);
    assert s[0..] == s;
  }

  ghost predicate PlainWord(u: Unicode, w: string)
  {
    w != "" && forall c | c in w :: IsPlain(c) && !u.space(c)
  }

  lemma {:induction false} ShellGrows(u: Unicode, w: string, rest: string, word: string, quoting: Quoting)
    requires !quoting.Single? && forall c | c in w :: IsPlain(c)
    ensures ShellWordsFrom(w + rest, Some(word), quoting) == ShellWordsFrom(rest, Some(word + w), quoting)
    decreases |w|
  {
    if w == "" {
      assert w + rest == rest && word + w == word;
    } else {
      assert w[0] in w && forall c | c in w[1..] :: c in w;
      ShellGrows(u, w[1..], rest, word + [w[0]], quoting);
      assert (w + rest)[1..] == w[1..] + rest && word + [w[0]] + w[1..] == word + w;
    }
  }

  lemma ShellStarts(u: Unicode, w: string, rest: string)
    requires PlainWord(u, w)
    ensures ShellWordsFrom(w + rest, None, Unquoted) == ShellWordsFrom(rest, Some(w), Unquoted)
  {
    assert w[0] in w && forall c | c in w[1..] :: c in w;
    ShellGrows(u, w[1..], rest, [w[0]], Unquoted);
    assert (w + rest)[1..] == w[1..] + rest && [w[0]] + w[1..] == w;
  }

  /** One character of the line. */
  lemma ShellReads(c: char, rest: string, word: string)
    ensures c == ' ' ==> ShellWordsFrom([c] + rest, Some(word), Double) ==
                         ShellWordsFrom(rest, Some(word + [c]), Double)
    ensures c == ' ' ==> ShellWordsFrom([c] + rest, Some(word), Unquoted) ==
                         Cut(Some(word), ShellWordsFrom(rest, None, Unquoted))
    ensures c == '"' ==> ShellWordsFrom([c] + rest, Some(word), Double) == ShellWordsFrom(rest, Some(word), Unquoted)
    ensures c == '"' ==> ShellWordsFrom([c] + rest, None, Unquoted) == ShellWordsFrom(rest, Some(""), Double)
  {
    assert ([c] + rest)[1..] == rest;
  }

  /** A command with a flag whose quoted value is three words. */
  function Quoted(flag: string, a: string, b: string, c: string, last: string): string
  {
    "kubectl" + (" " + (flag + (" " + ("\"" + QuotedValue(a, b, c, "\"" + (" " + last))))))
  }

  function QuotedValue(a: string, b: string, c: string, rest: string): string
  {
    a + (" " + (b + (" " + (c + rest))))
  }

  /** The condition is needed: with a quoted value of three words, the second is read
      as the verb, while to a shell the verb is what follows the value. */
  lemma QuotedIsMisread(u: Unicode, flag: string, a: string, b: string, c: string, last: string)
    requires Lawful(u) && !u.space('"')
    requires PlainWord(u, flag) && PlainWord(u, a) && PlainWord(u, b) && PlainWord(u, c) && PlainWord(u, last)
    requires flag in VALUE_FLAGS && b in READ_ONLY_VERBS && !IsFlag(last)
    ensures !WritesWorkload(u, Quoted(flag, a, b, c, last))
    ensures ShellWords(Quoted(flag, a, b, c, last)) == Some(["kubectl", flag, QuotedValue(a, b, c, ""), last])
    ensures VerbOfFields(["kubectl", flag, QuotedValue(a, b, c, ""), last]) == Some(Invocation(last, []))
  {
    QuotedFields(u, flag, a, b, c, last);
    QuotedShellWords(u, flag, a, b, c, last);
    var value := QuotedValue(a, b, c, "");
    var words, flags := ["kubectl", flag, value, last], [Separate(flag, value)];
    assert AllTokens(flags) == [flag, value];
    assert words == ["kubectl"] + AllTokens(flags) + [last] + [];
    VerbOfListedRead(words, flags, last, []);
  }

  lemma QuotedFields(u: Unicode, flag: string, a: string, b: string, c: string, last: string)
    requires Lawful(u) && !u.space('"')
    requires PlainWord(u, flag) && PlainWord(u, a) && PlainWord(u, b) && PlainWord(u, c) && PlainWord(u, last)
    requires flag in VALUE_FLAGS && b in READ_ONLY_VERBS
    ensures !WritesWorkload(u, Quoted(flag, a, b, c, last))
  {
    QuotedIsCut(u, flag, a, b, c, last);
    ReadBehindFlag(["kubectl", flag, "\"" + a, b, c + "\"", last], flag, "\"" + a, b, [c + "\"", last]);
    ListedReadIsLetThrough(u, Quoted(flag, a, b, c, last), [Separate(flag, "\"" + a)], b, [c + "\"", last]);
  }

  lemma ReadBehindFlag(words: seq<string>, flag: string, value: string, verb: string, arguments: seq<string>)
    requires words == ["kubectl", flag, value, verb] + arguments
    requires flag in VALUE_FLAGS && verb in READ_ONLY_VERBS
    ensures IsListedRead(words, [Separate(flag, value)], verb, arguments)
  {
    assert AllTokens([Separate(flag, value)]) == [flag, value];
    ReadVerbs(verb);
    assert words == ["kubectl"] + [flag, value] + [verb] + arguments;
  }

  /** The fields cut the quoted value at its blanks. */
  lemma QuotedIsCut(u: Unicode, flag: string, a: string, b: string, c: string, last: string)
    requires Lawful(u) && !u.space('"')
    requires PlainWord(u, flag) && PlainWord(u, a) && PlainWord(u, b) && PlainWord(u, c) && PlainWord(u, last)
    ensures Fields(u, Quoted(flag, a, b, c, last)) == ["kubectl", flag, "\"" + a, b, c + "\"", last]
  {
    var words := ["kubectl", flag, "\"" + a, b, c + "\"", last];
    KubectlIsPlain(u);
    QuotedJoined(flag, "\"" + a, b, c + "\"", last);
    QuotesMove(a, b, c, last);
    FieldsUndoJoin(u, words);
  }

  lemma QuotesMove(a: string, b: string, c: string, last: string)
    ensures "\"" + QuotedValue(a, b, c, "\"" + (" " + last)) ==
            ("\"" + a) + (" " + (b + (" " + ((c + "\"") + (" " + last)))))
  {
    assert c + ("\"" + (" " + last)) == (c + "\"") + (" " + last);
    var x := " " + (b + (" " + ((c + "\"") + (" " + last))));
    assert "\"" + (a + x) == ("\"" + a) + x;
  }

  lemma ReadVerbs(verb: string)
    requires verb in READ_ONLY_VERBS
    ensures !IsFlag(verb)
  {
  }

  lemma JoinedMore(w: string, rest: seq<string>)
    requires rest != []
    ensures Joined([w] + rest) == w + (" " + Joined(rest))
  {
    assert ([w] + rest)[1..] == rest;
    assert w + " " + Joined(rest) == w + (" " + Joined(rest));
  }

  lemma QuotedJoined(flag: string, a: string, b: string, c: string, last: string)
    ensures Joined(["kubectl", flag, a, b, c, last]) ==
            "kubectl" + (" " + (flag + (" " + (a + (" " + (b + (" " + (c + (" " + last)))))))))
  {
    JoinedMore(c, [last]);
    JoinedMore(b, [c, last]);
    JoinedMore(a, [b, c, last]);
    JoinedMore(flag, [a, b, c, last]);
    JoinedMore("kubectl", [flag, a, b, c, last]);
    assert [c] + [last] == [c, last] && [b] + [c, last] == [b, c, last] && [a] + [b, c, last] == [a, b, c, last];
    assert [flag] + [a, b, c, last] == [flag, a, b, c, last];
    assert ["kubectl"] + [flag, a, b, c, last] == ["kubectl", flag, a, b, c, last];
  }

  lemma QuotedShellWords(u: Unicode, flag: string, a: string, b: string, c: string, last: string)
    requires Lawful(u)
    requires PlainWord(u, flag) && PlainWord(u, a) && PlainWord(u, b) && PlainWord(u, c) && PlainWord(u, last)
    ensures ShellWords(Quoted(flag, a, b, c, last)) == Some(["kubectl", flag, QuotedValue(a, b, c, ""), last])
  {
    KubectlIsPlain(u);
    var end := "\"" + (" " + last);
    var value := "\"" + QuotedValue(a, b, c, end);
    ShellStarts(u, "kubectl", " " + (flag + (" " + value)));
    ShellReads(' ', flag + (" " + value), "kubectl");
    ShellStarts(u, flag, " " + value);
    ShellReads(' ', value, flag);
    ShellReads('"', QuotedValue(a, b, c, end), "");
    QuotedShellValue(u, a, b, c, end);
    ShellReads('"', " " + last, QuotedValue(a, b, c, ""));
    ShellReads(' ', last, QuotedValue(a, b, c, ""));
    ShellStarts(u, last, "");
    assert last + "" == last && [last] + [] == [last];
    var v := QuotedValue(a, b, c, "");
    assert ["kubectl"] + ([flag] + ([v] + [last])) == ["kubectl", flag, v, last];
  }

  lemma KubectlIsPlain(u: Unicode)
    requires Lawful(u)
    ensures PlainWord(u, "kubectl")
  {
    forall x | x in "kubectl" ensures IsPlain(x) && !u.space(x) { assert IsLetter(x); }
  }

  lemma QuotedShellValue(u: Unicode, a: string, b: string, c: string, rest: string)
    requires PlainWord(u, a) && PlainWord(u, b) && PlainWord(u, c)
    ensures ShellWordsFrom(QuotedValue(a, b, c, rest), Some(""), Double) ==
            ShellWordsFrom(rest, Some(QuotedValue(a, b, c, "")), Double)
  {
    ShellGrows(u, a, " " + (b + (" " + (c + rest))), "", Double);
    ShellReads(' ', b + (" " + (c + rest)), a);
    ShellGrows(u, b, " " + (c + rest), a + " ", Double);
    ShellReads(' ', c + rest, a + " " + b);
    ShellGrows(u, c, rest, a + " " + b + " ", Double);
    assert "" + a == a;
    assert a + " " + b + " " + c == QuotedValue(a, b, c, "");
  }
}
