/**
 Building rules from parsed policy files (crates/execpolicy/src/parser.rs): one prefix rule for each
 alternative of the first position, added only when the rule's own examples agree with it.
 */
module ExecPolicyParser {
  import opened Basics
  import opened Text
  import opened ExecPolicy

  /** A parsed argument. */
  datatype Value = Str(s: string) | List(items: seq<Value>) | Other

  datatype Error =
    | InvalidDecision
    | InvalidRule
    | InvalidPattern
    | InvalidExample
    | ExampleDidMatch(rule: PrefixRule, example: Command)
    | ExampleDidNotMatch(examples: seq<Command>)

  // ----- Values -----

  function ParseDecision(raw: string): Option<Decision> {
    if raw == "allow" then Some(Allow)
    else if raw == "prompt" then Some(Prompt)
    else if raw == "prompt_strict" || raw == "promptStrict" then Some(PromptStrict)
    else if raw == "forbidden" then Some(Forbidden)
    else None
  }

  /** The words for the decisions. */
  predicate IsWordFor(raw: string, d: Decision) {
    match d
    case Allow => raw == "allow"
    case Prompt => raw == "prompt"
    case PromptStrict => raw in {"prompt_strict", "promptStrict"}
    case Forbidden => raw == "forbidden"
  }

  lemma ParseDecisionExactly(raw: string, d: Decision)
    ensures ParseDecision(raw) == Some(d) <==> IsWordFor(raw, d)
  {
  }

  predicate AllStrings(items: seq<Value>) {
    forall i :: 0 <= i < |items| ==> items[i].Str?
  }

  function Strings(items: seq<Value>): (r: seq<string>)
    requires AllStrings(items)
    ensures |r| == |items| && forall i :: 0 <= i < |r| ==> items[i] == Str(r[i])
  {
    seq(|items|, i requires 0 <= i < |items| => items[i].s)
  }

  /** A string, or a list of alternatives of which at least one; a single alternative is that string. */
  function ParsePatternToken(value: Value): (r: Option<PatternToken>)
    ensures r.Some? <==> value.Str? || (value.List? && value.items != [] && AllStrings(value.items))
    ensures r.Some? ==> forall token :: r.value.Matches(token) <==> value == Str(token) || (value.List? && Str(token) in value.items)
    ensures r.Some? ==> r.value.Alternatives() != []
  {
    match value
    case Str(s) => Some(Single(s))
    case List(items) =>
      if !AllStrings(items) || items == [] then None
      else
        var tokens := Strings(items);
        assert forall token :: token in tokens <==> Str(token) in items by {
          forall token ensures token in tokens <==> Str(token) in items {
            if Str(token) in items {
              var i :| 0 <= i < |items| && items[i] == Str(token);
              assert tokens[i] == token;
            }
          }
        }
        if |tokens| == 1 then Some(Single(tokens[0])) else Some(Alts(tokens))
    case Other => None
  }

  method ParsePattern(values: seq<Value>) returns (r: Option<seq<PatternToken>>)
    ensures r.Some? <==> values != [] && forall value <- values :: ParsePatternToken(value).Some?
    ensures r.Some? ==> |r.value| == |values| && forall i :: 0 <= i < |values| ==> ParsePatternToken(values[i]) == Some(r.value[i])
  {
    var tokens := [];
    for i := 0 to |values|
      invariant |tokens| == i && forall j :: 0 <= j < i ==> ParsePatternToken(values[j]) == Some(tokens[j])
    {
      var token := ParsePatternToken(values[i]);
      if token.None? {
        assert values[i] in values;
        return None;
      }
      tokens := tokens + [token.value];
    }
    return if tokens == [] then None else Some(tokens);
  }

  /** `shellSplit` splits a line of shell input into words. */
  function ParseExample(shellSplit: string -> Option<Command>, value: Value): (r: Option<Command>)
    ensures r.Some? ==> r.value != [] && (value.Str? || value.List?)
    ensures value.Str? ==> r == if shellSplit(value.s) in {None, Some([])} then None else shellSplit(value.s)
    ensures value.List? ==> (r.None? <==> value.items == [] || exists item <- value.items :: !item.Str?)
    ensures value.List? && r.Some? ==>
      |r.value| == |value.items| && forall i :: 0 <= i < |r.value| ==> value.items[i] == Str(r.value[i])
  {
    match value
    case Str(raw) => if shellSplit(raw) == Some([]) then None else shellSplit(raw)
    case List(items) => if AllStrings(items) && items != [] then Some(Strings(items)) else None
    case Other => None
  }

  method ParseExamples(shellSplit: string -> Option<Command>, values: seq<Value>) returns (r: Option<seq<Command>>)
    ensures r.Some? <==> forall value <- values :: ParseExample(shellSplit, value).Some?
    ensures r.Some? ==> |r.value| == |values| && forall i :: 0 <= i < |values| ==> ParseExample(shellSplit, values[i]) == Some(r.value[i])
  {
    var examples := [];
    for i := 0 to |values|
      invariant |examples| == i && forall j :: 0 <= j < i ==> ParseExample(shellSplit, values[j]) == Some(examples[j])
    {
      var example := ParseExample(shellSplit, values[i]);
      if example.None? {
        assert values[i] in values;
        return None;
      }
      examples := examples + [example.value];
    }
    return Some(examples);
  }

  // ----- Expansion -----

  /** Every position of the whole pattern, the first included, accepts the token there. */
  predicate PatternAccepts(tokens: seq<PatternToken>, cmd: Command) {
    |tokens| <= |cmd| && forall i :: 0 <= i < |tokens| ==> tokens[i].Matches(cmd[i])
  }

  predicate AnyAccepts(rules: seq<PrefixRule>, cmd: Command) {
    exists rule <- rules :: Accepts(rule.pattern, cmd)
  }

  /** One rule for each alternative of the first position. */
  function Expand(tokens: seq<PatternToken>, decision: Decision, justification: Option<string>): (rules: seq<PrefixRule>)
    requires tokens != []
  {
    var heads := tokens[0].Alternatives();
    seq(|heads|, i requires 0 <= i < |heads| => PrefixRule(PrefixPattern(heads[i], tokens[1..]), decision, justification))
  }

  /** The rules together match exactly the commands the pattern describes. */
  lemma ExpansionPreservesMeaning(tokens: seq<PatternToken>, decision: Decision, justification: Option<string>, cmd: Command)
    requires tokens != []
    ensures AnyAccepts(Expand(tokens, decision, justification), cmd) <==> PatternAccepts(tokens, cmd)
    ensures forall rule <- Expand(tokens, decision, justification) :: rule.decision == decision && |rule.pattern.rest| + 1 == |tokens|
  {
    var rules, heads := Expand(tokens, decision, justification), tokens[0].Alternatives();
    if AnyAccepts(rules, cmd) {
      var rule :| rule in rules && Accepts(rule.pattern, cmd);
      forall i | 0 <= i < |tokens| ensures tokens[i].Matches(cmd[i]) {
        assert 0 < i ==> rule.pattern.rest[i - 1] == tokens[i];
      }
    }
    if PatternAccepts(tokens, cmd) {
      assert tokens[0].Matches(cmd[0]);
      var k :| 0 <= k < |heads| && heads[k] == cmd[0];
      forall i | 0 <= i < |tokens| - 1 ensures rules[k].pattern.rest[i].Matches(cmd[i + 1]) {
        assert tokens[1..][i] == tokens[i + 1];
      }
      assert Accepts(rules[k].pattern, cmd);
    }
  }

  /** The words an element of a pattern stands for. */
  predicate StandsFor(value: Value, word: string) {
    value == Str(word) || (value.List? && Str(word) in value.items)
  }

  /** The pattern as it is written describes the commands that begin with words its elements stand for. */
  predicate Describes(pattern: seq<Value>, cmd: Command) {
    |pattern| <= |cmd| && forall i :: 0 <= i < |pattern| ==> StandsFor(pattern[i], cmd[i])
  }

  /** The rules made of a written pattern match exactly the commands it describes. */
  lemma RulesMatchWhatIsWritten(pattern: seq<Value>, decision: Decision, justification: Option<string>, cmd: Command)
    requires pattern != [] && forall value <- pattern :: ParsePatternToken(value).Some?
    ensures AnyAccepts(Expand(TokensOf(pattern), decision, justification), cmd) <==> Describes(pattern, cmd)
  {
    ExpansionPreservesMeaning(TokensOf(pattern), decision, justification, cmd);
    if |pattern| <= |cmd| {
      forall i | 0 <= i < |pattern| ensures TokensOf(pattern)[i].Matches(cmd[i]) <==> StandsFor(pattern[i], cmd[i]) {
        assert pattern[i] in pattern;
      }
    }
  }

  // ----- Examples -----

  /** The examples that no rule accepts, as often as they are given and in that order. */
  function Unmatched(rules: seq<PrefixRule>, examples: seq<Command>): seq<Command> {
    if examples == [] then []
    else
      var (front, last) := (examples[..|examples| - 1], examples[|examples| - 1]);
      Unmatched(rules, front) + (if AnyAccepts(rules, last) then [] else [last])
  }

  method ValidateMatchExamples(rules: seq<PrefixRule>, examples: seq<Command>) returns (r: Result<(), Error>)
    ensures r.Ok? <==> forall example <- examples :: AnyAccepts(rules, example)
    ensures r.Err? ==> r == Err(ExampleDidNotMatch(Unmatched(rules, examples)))
    ensures r.Err? ==> forall example :: example in r.error.examples <==> example in examples && !AnyAccepts(rules, example)
  {
    var unmatched := [];
    for i := 0 to |examples|
      invariant unmatched == Unmatched(rules, examples[..i])
      invariant forall example :: example in unmatched <==> example in examples[..i] && !AnyAccepts(rules, example)
    {
      assert examples[..i + 1] == examples[..i] + [examples[i]];
      assert examples[..i + 1][..i] == examples[..i];
      if AnyAccepts(rules, examples[i]) {
        continue;
      }
      unmatched := unmatched + [examples[i]];
    }
    assert examples[..|examples|] == examples;
    if unmatched == [] {
      return Ok(());
    }
    assert unmatched[0] in unmatched;
    return Err(ExampleDidNotMatch(unmatched));
  }

  /** The first of the rules that accepts the command. */
  ghost predicate IsFirstAccepting(rules: seq<PrefixRule>, cmd: Command, rule: PrefixRule) {
    exists k :: 0 <= k < |rules| && rules[k] == rule && Accepts(rule.pattern, cmd) && forall j :: 0 <= j < k ==> !Accepts(rules[j].pattern, cmd)
  }

  method FindAccepting(rules: seq<PrefixRule>, cmd: Command) returns (r: Option<PrefixRule>)
    ensures r.Some? <==> AnyAccepts(rules, cmd)
    ensures r.Some? ==> IsFirstAccepting(rules, cmd, r.value)
  {
    for i := 0 to |rules|
      invariant forall j :: 0 <= j < i ==> !Accepts(rules[j].pattern, cmd)
    {
      if Accepts(rules[i].pattern, cmd) {
        return Some(rules[i]);
      }
    }
    return None;
  }

  method ValidateNotMatchExamples(rules: seq<PrefixRule>, examples: seq<Command>) returns (r: Result<(), Error>)
    ensures r.Ok? <==> forall example <- examples :: !AnyAccepts(rules, example)
    ensures r.Err? ==> r.error.ExampleDidMatch? && IsFirstAccepting(rules, r.error.example, r.error.rule)
    ensures r.Err? ==> exists k :: 0 <= k < |examples| && examples[k] == r.error.example && forall j :: 0 <= j < k ==> !AnyAccepts(rules, examples[j])
  {
    for i := 0 to |examples|
      invariant forall j :: 0 <= j < i ==> !AnyAccepts(rules, examples[j])
    {
      var rule := FindAccepting(rules, examples[i]);
      if rule.Some? {
        assert examples[i] in examples;
        return Err(ExampleDidMatch(rule.value, examples[i]));
      }
    }
    return Ok(());
  }

  // ----- prefix_rule -----

  datatype Args = Args(
    pattern: seq<Value>,
    decision: Option<string>,
    matches: Option<seq<Value>>,
    notMatch: Option<seq<Value>>,
    justification: Option<string>)

  predicate ArgsParse(args: Args, shellSplit: string -> Option<Command>) {
    && (args.decision.Some? ==> ParseDecision(args.decision.value).Some?)
    && (args.justification.Some? ==> Trim(args.justification.value) != "")
    && args.pattern != [] && (forall value <- args.pattern :: ParsePatternToken(value).Some?)
    && (forall value <- Given(args.matches) :: ParseExample(shellSplit, value).Some?)
    && (forall value <- Given(args.notMatch) :: ParseExample(shellSplit, value).Some?)
  }

  function Given(values: Option<seq<Value>>): seq<Value> {
    if values.None? then [] else values.value
  }

  function DecisionOf(args: Args): Decision
    requires args.decision.Some? ==> ParseDecision(args.decision.value).Some?
  {
    if args.decision.None? then Allow else ParseDecision(args.decision.value).value
  }

  function TokensOf(values: seq<Value>): seq<PatternToken>
    requires forall value <- values :: ParsePatternToken(value).Some?
  {
    seq(|values|, i requires 0 <= i < |values| => ParsePatternToken(values[i]).value)
  }

  function ExamplesOf(shellSplit: string -> Option<Command>, values: seq<Value>): seq<Command>
    requires forall value <- values :: ParseExample(shellSplit, value).Some?
  {
    seq(|values|, i requires 0 <= i < |values| => ParseExample(shellSplit, values[i]).value)
  }

  /** The pattern describes every example given for it and no example given against it. */
  predicate ExamplesAgree(args: Args, shellSplit: string -> Option<Command>)
    requires ArgsParse(args, shellSplit)
  {
    && (forall example <- ExamplesOf(shellSplit, Given(args.matches)) :: PatternAccepts(TokensOf(args.pattern), example))
    && (forall example <- ExamplesOf(shellSplit, Given(args.notMatch)) :: !PatternAccepts(TokensOf(args.pattern), example))
  }

  lemma ExamplesOnRules(args: Args, shellSplit: string -> Option<Command>)
    requires ArgsParse(args, shellSplit)
    ensures var rules := Expand(TokensOf(args.pattern), DecisionOf(args), args.justification);
      ExamplesAgree(args, shellSplit) <==>
      && (forall example <- ExamplesOf(shellSplit, Given(args.notMatch)) :: !AnyAccepts(rules, example))
      && (forall example <- ExamplesOf(shellSplit, Given(args.matches)) :: AnyAccepts(rules, example))
  {
    forall example {
      ExpansionPreservesMeaning(TokensOf(args.pattern), DecisionOf(args), args.justification, example);
    }
  }

  /** A call adds the expansion of its pattern when its arguments parse and its examples agree with the
      pattern, and adds nothing otherwise. */
  method DeclarePrefixRule(builder: Policy, args: Args, shellSplit: string -> Option<Command>) returns (r: Result<(), Error>)
    requires builder.Valid()
    modifies builder
    ensures builder.Valid()
    ensures r.Ok? <==> ArgsParse(args, shellSplit) && ExamplesAgree(args, shellSplit)
    ensures !ArgsParse(args, shellSplit) ==> r == Err(FirstFault(args))
    ensures r.Err? && ArgsParse(args, shellSplit) ==>
      (r.error.ExampleDidMatch? <==>
       exists example <- ExamplesOf(shellSplit, Given(args.notMatch)) :: PatternAccepts(TokensOf(args.pattern), example))
    ensures builder.added ==
      old(builder.added) + if r.Ok? then Expand(TokensOf(args.pattern), DecisionOf(args), args.justification) else []
    ensures r.Ok? ==> AddedAsWritten(args, builder.added[|old(builder.added)|..])
  {
    var parsed := ParseArgs(args, shellSplit);
    if parsed.Err? {
      return Err(parsed.error);
    }
    var (tokens, matches, notMatches) := parsed.value;
    var rules := Expand(tokens, DecisionOf(args), args.justification);
    r := ValidateExamples(args, shellSplit, rules, matches, notMatches);
    if r.Ok? {
      AddRules(builder, rules);
      ExpandedAsWritten(args, shellSplit);
      assert builder.added[|old(builder.added)|..] == rules;
    }
  }

  /** The rules match what the pattern describes, with the decision named, or else allowing, and the
      justification given. */
  ghost predicate AddedAsWritten(args: Args, rules: seq<PrefixRule>) {
    && (forall cmd :: (exists rule <- rules :: Accepts(rule.pattern, cmd)) <==> Describes(args.pattern, cmd))
    && (forall rule <- rules :: rule.justification == args.justification &&
          if args.decision.None? then rule.decision == Allow else IsWordFor(args.decision.value, rule.decision))
  }

  lemma ExpandedAsWritten(args: Args, shellSplit: string -> Option<Command>)
    requires ArgsParse(args, shellSplit)
    ensures AddedAsWritten(args, Expand(TokensOf(args.pattern), DecisionOf(args), args.justification))
  {
    var rules := Expand(TokensOf(args.pattern), DecisionOf(args), args.justification);
    forall cmd ensures (exists rule <- rules :: Accepts(rule.pattern, cmd)) <==> Describes(args.pattern, cmd) {
      RulesMatchWhatIsWritten(args.pattern, DecisionOf(args), args.justification, cmd);
    }
    if args.decision.Some? {
      ParseDecisionExactly(args.decision.value, DecisionOf(args));
    }
  }

  /** The examples against the pattern are looked at first. */
  method ValidateExamples(ghost args: Args, ghost shellSplit: string -> Option<Command>, rules: seq<PrefixRule>,
                          matches: seq<Command>, notMatches: seq<Command>)
    returns (r: Result<(), Error>)
    requires ArgsParse(args, shellSplit) && rules == Expand(TokensOf(args.pattern), DecisionOf(args), args.justification)
    requires matches == ExamplesOf(shellSplit, Given(args.matches)) && notMatches == ExamplesOf(shellSplit, Given(args.notMatch))
    ensures r.Ok? <==> ExamplesAgree(args, shellSplit)
    ensures r.Err? ==> (r.error.ExampleDidMatch? <==> exists example <- notMatches :: PatternAccepts(TokensOf(args.pattern), example))
  {
    ExamplesOnRules(args, shellSplit);
    forall example {
      ExpansionPreservesMeaning(TokensOf(args.pattern), DecisionOf(args), args.justification, example);
    }
    r := ValidateNotMatchExamples(rules, notMatches);
    if r.Ok? {
      r := ValidateMatchExamples(rules, matches);
    }
  }

  method AddRules(builder: Policy, rules: seq<PrefixRule>)
    requires builder.Valid()
    modifies builder
    ensures builder.Valid() && builder.added == old(builder.added) + rules
  {
    for i := 0 to |rules|
      invariant builder.Valid() && builder.added == old(builder.added) + rules[..i]
    {
      assert rules[..i + 1] == rules[..i] + [rules[i]];
      builder.AddRule(rules[i]);
    }
    assert rules[..|rules|] == rules;
  }

  /** The fault reported: the first in the order decision, justification, pattern, examples. */
  function FirstFault(args: Args): Error {
    if args.decision.Some? && ParseDecision(args.decision.value).None? then InvalidDecision
    else if args.justification.Some? && Trim(args.justification.value) == "" then InvalidRule
    else if args.pattern == [] || exists value <- args.pattern :: ParsePatternToken(value).None? then InvalidPattern
    else InvalidExample
  }

  method ParseArgs(args: Args, shellSplit: string -> Option<Command>)
    returns (r: Result<(seq<PatternToken>, seq<Command>, seq<Command>), Error>)
    ensures r.Ok? <==> ArgsParse(args, shellSplit)
    ensures r.Err? ==> r.error == FirstFault(args)
    ensures r.Ok? ==> r.value == (TokensOf(args.pattern), ExamplesOf(shellSplit, Given(args.matches)),
                                  ExamplesOf(shellSplit, Given(args.notMatch)))
  {
    if args.decision.Some? && ParseDecision(args.decision.value).None? {
      return Err(InvalidDecision);
    }
    if args.justification.Some? && Trim(args.justification.value) == "" {
      return Err(InvalidRule);
    }
    var tokens := ParsePattern(args.pattern);
    if tokens.None? {
      return Err(InvalidPattern);
    }
    var matches := ParseExamples(shellSplit, Given(args.matches));
    if matches.None? {
      return Err(InvalidExample);
    }
    var notMatches := ParseExamples(shellSplit, Given(args.notMatch));
    if notMatches.None? {
      return Err(InvalidExample);
    }
    assert tokens.value == TokensOf(args.pattern);
    assert matches.value == ExamplesOf(shellSplit, Given(args.matches));
    assert notMatches.value == ExamplesOf(shellSplit, Given(args.notMatch));
    return Ok((tokens.value, matches.value, notMatches.value));
  }

  // ----- The final policy -----

  /** Whatever rules come before and after those of an accepted call, every example given for its
      pattern has one of its matches and is decided at least as strictly as the call asks; no example
      given against it is matched by any of its rules. */
  lemma ExamplesHoldInTheEnd(args: Args, shellSplit: string -> Option<Command>, before: seq<PrefixRule>, later: seq<PrefixRule>,
                             example: Command, heuristics: Heuristics, d: Decision)
    requires ArgsParse(args, shellSplit) && ExamplesAgree(args, shellSplit)
    ensures var rules := Expand(TokensOf(args.pattern), DecisionOf(args), args.justification);
      && (example in ExamplesOf(shellSplit, Given(args.matches)) ==>
          && (exists m <- Scan(before + rules + later, example) :: m.decision == DecisionOf(args))
          && (Decides(d, Matches(before + rules + later, example, Some(heuristics))) ==> DecisionOf(args).Rank() <= d.Rank()))
      && (example in ExamplesOf(shellSplit, Given(args.notMatch)) ==> !AnyAccepts(rules, example))
  {
    var rules := Expand(TokensOf(args.pattern), DecisionOf(args), args.justification);
    ExamplesOnRules(args, shellSplit);
    if example in ExamplesOf(shellSplit, Given(args.matches)) {
      var rule :| rule in rules && Accepts(rule.pattern, example);
      ExpansionPreservesMeaning(TokensOf(args.pattern), DecisionOf(args), args.justification, example);
      assert rule in before + rules + later;
      ScanHas(before + rules + later, example, rule);
    }
  }

  lemma {:induction false} ScanHas(rules: seq<PrefixRule>, cmd: Command, rule: PrefixRule)
    requires rule in rules && Accepts(rule.pattern, cmd)
    ensures RuleMatchOf(rule, cmd) in Scan(rules, cmd)
  {
    if rule in rules[..|rules| - 1] {
      ScanHas(rules[..|rules| - 1], cmd, rule);
    }
  }
}
