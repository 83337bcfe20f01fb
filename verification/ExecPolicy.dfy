/**
 The exec policy (crates/execpolicy/src/rule.rs and policy.rs): prefix rules kept by program name.
 The theorems are that the index answers like a scan of all rules in the order they were added, that
 many commands are decided by the strictest of them, and exactly when a new rule can relax a decision.
 */
module ExecPolicy {
  import opened Basics

  /** From the most to the least permissive. */
  datatype Decision = Allow | Prompt | PromptStrict | Forbidden {
    function Rank(): nat {
      match this
      case Allow => 0
      case Prompt => 1
      case PromptStrict => 2
      case Forbidden => 3
    }
  }

  type Command = seq<string>

  datatype PatternToken = Single(expected: string) | Alts(alternatives: seq<string>) {
    predicate Matches(token: string) {
      match this
      case Single(expected) => expected == token
      case Alts(alternatives) => token in alternatives
    }

    function Alternatives(): seq<string> {
      match this
      case Single(expected) => [expected]
      case Alts(alternatives) => alternatives
    }
  }

  datatype PrefixPattern = PrefixPattern(first: string, rest: seq<PatternToken>)

  datatype PrefixRule = PrefixRule(pattern: PrefixPattern, decision: Decision, justification: Option<string>)

  datatype RuleMatch =
    | PrefixRuleMatch(matchedPrefix: Command, decision: Decision, justification: Option<string>)
    | HeuristicsRuleMatch(command: Command, decision: Decision)

  datatype Evaluation = Evaluation(decision: Decision, matchedRules: seq<RuleMatch>)

  type Heuristics = Command -> Decision

  // ----- Rules -----

  /** Every position of the pattern accepts the token there. */
  predicate Accepts(pattern: PrefixPattern, cmd: Command) {
    && |pattern.rest| < |cmd| && cmd[0] == pattern.first
    && forall i :: 0 <= i < |pattern.rest| ==> pattern.rest[i].Matches(cmd[i + 1])
  }

  method MatchesPrefix(pattern: PrefixPattern, cmd: Command) returns (r: Option<Command>)
    ensures r == if Accepts(pattern, cmd) then Some(cmd[..|pattern.rest| + 1]) else None
  {
    var patternLength := |pattern.rest| + 1;
    if |cmd| < patternLength || cmd[0] != pattern.first {
      return None;
    }
    for i := 0 to |pattern.rest|
      invariant forall j :: 0 <= j < i ==> pattern.rest[j].Matches(cmd[j + 1])
    {
      if !pattern.rest[i].Matches(cmd[i + 1]) {
        return None;
      }
    }
    return Some(cmd[..patternLength]);
  }

  function RuleMatchOf(rule: PrefixRule, cmd: Command): RuleMatch
    requires Accepts(rule.pattern, cmd)
  {
    PrefixRuleMatch(cmd[..|rule.pattern.rest| + 1], rule.decision, rule.justification)
  }

  /** The matches of all rules, in order. */
  function Scan(rules: seq<PrefixRule>, cmd: Command): seq<RuleMatch> {
    if rules == [] then []
    else
      var (front, last) := (rules[..|rules| - 1], rules[|rules| - 1]);
      Scan(front, cmd) + (if Accepts(last.pattern, cmd) then [RuleMatchOf(last, cmd)] else [])
  }

  lemma {:induction false} ScanOfTwo(a: seq<PrefixRule>, b: seq<PrefixRule>, cmd: Command)
    ensures Scan(a + b, cmd) == Scan(a, cmd) + Scan(b, cmd)
  {
    if b == [] {
      assert a + b == a;
    } else {
      ScanOfTwo(a, b[..|b| - 1], cmd);
      assert (a + b)[..|a + b| - 1] == a + b[..|b| - 1];
      Regroup(Scan(a, cmd), Scan(b[..|b| - 1], cmd), Scan([b[|b| - 1]], cmd));
      OneRule(b[|b| - 1], cmd);
    }
  }

  lemma OneRule(rule: PrefixRule, cmd: Command)
    ensures Scan([rule], cmd) == if Accepts(rule.pattern, cmd) then [RuleMatchOf(rule, cmd)] else []
  {
    assert [rule][..0] == [];
  }

  /** Each rule contributes in its place: when every position of its pattern accepts the word there, the
      words matched, with the rule's decision and justification; otherwise nothing. */
  lemma EachRuleInItsPlace(before: seq<PrefixRule>, rule: PrefixRule, later: seq<PrefixRule>, cmd: Command)
    ensures var (first, rest) := (rule.pattern.first, rule.pattern.rest);
      var accepts := |rest| < |cmd| && cmd[0] == first && forall i :: 0 <= i < |rest| ==> rest[i].Matches(cmd[i + 1]);
      Scan(before + [rule] + later, cmd)
      == Scan(before, cmd)
         + (if accepts then [PrefixRuleMatch(cmd[..|rest| + 1], rule.decision, rule.justification)] else []) + Scan(later, cmd)
  {
    ScanOfTwo(before + [rule], later, cmd);
    ScanOfTwo(before, [rule], cmd);
    OneRule(rule, cmd);
  }

  function RulesOf(rules: seq<PrefixRule>, program: string): seq<PrefixRule> {
    if rules == [] then []
    else
      var (front, last) := (rules[..|rules| - 1], rules[|rules| - 1]);
      RulesOf(front, program) + (if last.pattern.first == program then [last] else [])
  }

  /** Looking only at the rules of the command's program loses no match and keeps their order. */
  lemma {:induction false} IndexAgreesWithScan(rules: seq<PrefixRule>, cmd: Command)
    ensures Scan(rules, cmd) == if cmd == [] then [] else Scan(RulesOf(rules, cmd[0]), cmd)
  {
    if rules != [] {
      var front, last := rules[..|rules| - 1], rules[|rules| - 1];
      IndexAgreesWithScan(front, cmd);
      if cmd != [] {
        var bucket := RulesOf(front, cmd[0]);
        assert (bucket + [last])[..|bucket|] == bucket;
        assert RulesOf(rules, cmd[0]) == if last.pattern.first == cmd[0] then bucket + [last] else bucket;
        assert Scan(bucket + [last], cmd) == Scan(bucket, cmd) + if Accepts(last.pattern, cmd) then [RuleMatchOf(last, cmd)] else [];
      }
    }
  }

  /** The matches reported for a command: those of the rules, or else the heuristics' opinion. */
  function Matches(rules: seq<PrefixRule>, cmd: Command, fallback: Option<Heuristics>): seq<RuleMatch> {
    if Scan(rules, cmd) == [] && fallback.Some? then [HeuristicsRuleMatch(cmd, fallback.value(cmd))] else Scan(rules, cmd)
  }

  // ----- Decisions -----

  /** `d` is the strictest decision of the matches, and `Prompt` when there is none. */
  predicate Decides(d: Decision, matches: seq<RuleMatch>) {
    && (forall m <- matches :: m.decision.Rank() <= d.Rank())
    && (if matches == [] then d == Prompt else exists m <- matches :: m.decision == d)
  }

  predicate SomeMatchDecides(matches: seq<RuleMatch>, d: Decision) {
    exists m <- matches :: m.decision == d
  }

  /** The strictest decision: forbidden before strict prompts, these before prompts, and these before
      allowing; a command without any match is prompted for. */
  lemma DecidesExactly(d: Decision, matches: seq<RuleMatch>)
    ensures var strictest :=
        if SomeMatchDecides(matches, Forbidden) then Forbidden
        else if SomeMatchDecides(matches, PromptStrict) then PromptStrict
        else if SomeMatchDecides(matches, Prompt) || matches == [] then Prompt
        else Allow;
      Decides(d, matches) <==> d == strictest
  {
    if matches != [] {
      assert matches[0] in matches && SomeMatchDecides(matches, matches[0].decision);
    }
  }

  method FromMatches(matchedRules: seq<RuleMatch>) returns (r: Evaluation)
    ensures r.matchedRules == matchedRules && Decides(r.decision, matchedRules)
  {
    var decision := Prompt;
    for i := 0 to |matchedRules|
      invariant Decides(decision, matchedRules[..i])
    {
      assert matchedRules[..i + 1] == matchedRules[..i] + [matchedRules[i]];
      assert i == 0 ==> matchedRules[..i] == [];
      if i == 0 || decision.Rank() <= matchedRules[i].decision.Rank() {
        decision := matchedRules[i].decision;
      }
    }
    assert matchedRules[..|matchedRules|] == matchedRules;
    return Evaluation(decision, matchedRules);
  }

  function MatchesOfAll(rules: seq<PrefixRule>, cmds: seq<Command>, heuristics: Heuristics): seq<RuleMatch> {
    if cmds == [] then []
    else MatchesOfAll(rules, cmds[..|cmds| - 1], heuristics) + Matches(rules, cmds[|cmds| - 1], Some(heuristics))
  }

  /** Several commands together are decided by the strictest of their own decisions. */
  lemma {:induction false} StrictestCommandDecides(rules: seq<PrefixRule>, cmds: seq<Command>, heuristics: Heuristics,
                                                   ds: seq<Decision>, d: Decision)
    requires |ds| == |cmds| && forall i :: 0 <= i < |cmds| ==> Decides(ds[i], Matches(rules, cmds[i], Some(heuristics)))
    requires Decides(d, MatchesOfAll(rules, cmds, heuristics))
    ensures forall i :: 0 <= i < |ds| ==> ds[i].Rank() <= d.Rank()
    ensures if cmds == [] then d == Prompt else d in ds
  {
    forall i | 0 <= i < |ds| ensures ds[i].Rank() <= d.Rank() {
      EveryMatchIsIncluded(rules, cmds, heuristics, i);
      StricterWithMore(ds[i], Matches(rules, cmds[i], Some(heuristics)), d, MatchesOfAll(rules, cmds, heuristics));
    }
    if cmds != [] {
      SomeCommandDecides(rules, cmds, heuristics, ds, d);
    }
  }

  lemma SomeCommandDecides(rules: seq<PrefixRule>, cmds: seq<Command>, heuristics: Heuristics, ds: seq<Decision>, d: Decision)
    requires |ds| == |cmds| && forall i :: 0 <= i < |cmds| ==> Decides(ds[i], Matches(rules, cmds[i], Some(heuristics)))
    requires cmds != [] && Decides(d, MatchesOfAll(rules, cmds, heuristics))
    requires forall i :: 0 <= i < |ds| ==> ds[i].Rank() <= d.Rank()
    ensures d in ds
  {
    EveryMatchIsIncluded(rules, cmds, heuristics, 0);
    var m := Decider(d, MatchesOfAll(rules, cmds, heuristics));
    var i := IncludedMatchHasACommand(rules, cmds, heuristics, m);
    NoStricterMatch(ds[i], Matches(rules, cmds[i], Some(heuristics)), m);
    SameRank(d, ds[i]);
  }

  lemma SameRank(a: Decision, b: Decision)
    requires a.Rank() <= b.Rank() && b.Rank() <= a.Rank()
    ensures a == b
  {
  }

  lemma Decider(d: Decision, matches: seq<RuleMatch>) returns (m: RuleMatch)
    requires Decides(d, matches) && matches != []
    ensures m in matches && m.decision == d
  {
    m :| m in matches && m.decision == d;
  }

  lemma NoStricterMatch(d: Decision, matches: seq<RuleMatch>, m: RuleMatch)
    requires Decides(d, matches) && m in matches
    ensures m.decision.Rank() <= d.Rank()
  {
  }

  lemma StricterWithMore(d: Decision, matches: seq<RuleMatch>, d': Decision, matches': seq<RuleMatch>)
    requires Decides(d, matches) && Decides(d', matches') && matches != [] && forall m <- matches :: m in matches'
    ensures d.Rank() <= d'.Rank()
  {
    var m := Decider(d, matches);
  }

  lemma {:induction false} EveryMatchIsIncluded(rules: seq<PrefixRule>, cmds: seq<Command>, heuristics: Heuristics, i: nat)
    requires i < |cmds|
    ensures Matches(rules, cmds[i], Some(heuristics)) != [] && MatchesOfAll(rules, cmds, heuristics) != []
    ensures forall m <- Matches(rules, cmds[i], Some(heuristics)) :: m in MatchesOfAll(rules, cmds, heuristics)
  {
    if i < |cmds| - 1 {
      EveryMatchIsIncluded(rules, cmds[..|cmds| - 1], heuristics, i);
    }
  }

  lemma {:induction false} IncludedMatchHasACommand(rules: seq<PrefixRule>, cmds: seq<Command>, heuristics: Heuristics, m: RuleMatch)
    returns (i: nat)
    requires m in MatchesOfAll(rules, cmds, heuristics)
    ensures i < |cmds| && m in Matches(rules, cmds[i], Some(heuristics))
  {
    if m in MatchesOfAll(rules, cmds[..|cmds| - 1], heuristics) {
      i := IncludedMatchHasACommand(rules, cmds[..|cmds| - 1], heuristics, m);
    } else {
      i := |cmds| - 1;
    }
  }

  /** A new rule lowers the decision on a command in one case only: no rule matched it before, the new
      one does, and it is more permissive than the heuristics were. */
  lemma NewRuleRelaxes(rules: seq<PrefixRule>, rule: PrefixRule, cmd: Command, heuristics: Heuristics, before: Decision, after: Decision)
    requires Decides(before, Matches(rules, cmd, Some(heuristics)))
    requires Decides(after, Matches(rules + [rule], cmd, Some(heuristics)))
    ensures after.Rank() < before.Rank() <==>
      Scan(rules, cmd) == [] && Accepts(rule.pattern, cmd) && rule.decision.Rank() < heuristics(cmd).Rank()
    ensures Scan(rules, cmd) != [] ==> before.Rank() <= after.Rank()
  {
    assert (rules + [rule])[..|rules|] == rules;
    var m :| m in Matches(rules, cmd, Some(heuristics)) && m.decision == before;
    var m' :| m' in Matches(rules + [rule], cmd, Some(heuristics)) && m'.decision == after;
  }

  const FORBID_ALL: Heuristics := (_: Command) => Forbidden

  const ALLOW_LS := PrefixRule(PrefixPattern("ls", []), Allow, None)

  /** The command `ls`, forbidden by the heuristics of a policy without rules, is allowed once a rule for
      it is added. */
  lemma AddingARuleRelaxes()
    ensures Decides(Forbidden, Matches([], ["ls"], Some(FORBID_ALL)))
    ensures Decides(Allow, Matches([ALLOW_LS], ["ls"], Some(FORBID_ALL)))
  {
    var before := Matches([], ["ls"], Some(FORBID_ALL));
    assert before[0].decision == Forbidden && before[0] in before;
    assert [ALLOW_LS][..0] == [] && Accepts(ALLOW_LS.pattern, ["ls"]);
    var after := Matches([ALLOW_LS], ["ls"], Some(FORBID_ALL));
    assert after == [RuleMatchOf(ALLOW_LS, ["ls"])];
    assert after[0].decision == Allow && after[0] in after;
  }

  // ----- The policy -----

  method MatchesAmong(rules: seq<PrefixRule>, cmd: Command) returns (r: seq<RuleMatch>)
    ensures r == Scan(rules, cmd)
  {
    r := [];
    for i := 0 to |rules|
      invariant r == Scan(rules[..i], cmd)
    {
      assert rules[..i + 1][..i] == rules[..i];
      var prefix := MatchesPrefix(rules[i].pattern, cmd);
      if prefix.Some? {
        r := r + [PrefixRuleMatch(prefix.value, rules[i].decision, rules[i].justification)];
      }
    }
    assert rules[..|rules|] == rules;
  }

  class Policy {
    var rulesByProgram: map<string, seq<PrefixRule>>
    ghost var added: seq<PrefixRule>

    /** Each program's bucket holds its rules in the order they were added. */
    ghost predicate Valid()
      reads this
    {
      && (forall program <- rulesByProgram.Keys :: rulesByProgram[program] == RulesOf(added, program))
      && (forall program :: program !in rulesByProgram ==> RulesOf(added, program) == [])
    }

    constructor ()
      ensures Valid() && added == []
    {
      rulesByProgram, added := map[], [];
    }

    method AddRule(rule: PrefixRule)
      requires Valid()
      modifies this
      ensures Valid() && added == old(added) + [rule]
    {
      var program := rule.pattern.first;
      var bucket := if program in rulesByProgram then rulesByProgram[program] else [];
      rulesByProgram := rulesByProgram[program := bucket + [rule]];
      added := added + [rule];
      assert added[..|added| - 1] == old(added);
    }

    method AddPrefixRule(prefix: Command, decision: Decision) returns (ok: bool)
      requires Valid()
      modifies this
      ensures Valid() && (ok <==> prefix != [])
      ensures !ok ==> added == old(added)
      ensures ok ==> |added| == |old(added)| + 1 && added[..|old(added)|] == old(added)
      ensures ok ==> var rule := added[|old(added)|];
        rule.decision == decision && rule.justification == None && forall cmd :: Accepts(rule.pattern, cmd) <==> prefix <= cmd
    {
      if prefix == [] {
        return false;
      }
      var rest := seq(|prefix| - 1, i requires 0 <= i < |prefix| - 1 => Single(prefix[i + 1]));
      var rule := PrefixRule(PrefixPattern(prefix[0], rest), decision, None);
      AddRule(rule);
      forall cmd ensures Accepts(rule.pattern, cmd) <==> prefix <= cmd {
        assert prefix <= cmd <==> |prefix| <= |cmd| && forall i :: 0 <= i < |prefix| ==> prefix[i] == cmd[i];
        if prefix <= cmd {
          forall i | 0 <= i < |rest| ensures rest[i].Matches(cmd[i + 1]) {
            assert prefix[i + 1] == cmd[i + 1];
          }
        }
        if Accepts(rule.pattern, cmd) {
          forall i | 0 <= i < |prefix| ensures prefix[i] == cmd[i] {
            if 0 < i {
              assert rest[i - 1].Matches(cmd[i]);
            }
          }
        }
      }
      return true;
    }

    method MatchesForCommand(cmd: Command, fallback: Option<Heuristics>) returns (r: seq<RuleMatch>)
      requires Valid()
      ensures r == Matches(added, cmd, fallback)
    {
      IndexAgreesWithScan(added, cmd);
      r := [];
      if cmd != [] && cmd[0] in rulesByProgram {
        r := MatchesAmong(rulesByProgram[cmd[0]], cmd);
      }
      if r == [] && fallback.Some? {
        r := [HeuristicsRuleMatch(cmd, fallback.value(cmd))];
      }
    }

    method Check(cmd: Command, heuristics: Heuristics) returns (r: Evaluation)
      requires Valid()
      ensures r.matchedRules == Matches(added, cmd, Some(heuristics)) && Decides(r.decision, r.matchedRules)
    {
      var matchedRules := MatchesForCommand(cmd, Some(heuristics));
      r := FromMatches(matchedRules);
    }

    method CheckMultiple(cmds: seq<Command>, heuristics: Heuristics) returns (r: Evaluation)
      requires Valid()
      ensures r.matchedRules == MatchesOfAll(added, cmds, heuristics) && Decides(r.decision, r.matchedRules)
    {
      var matchedRules := [];
      for i := 0 to |cmds|
        invariant matchedRules == MatchesOfAll(added, cmds[..i], heuristics)
      {
        assert cmds[..i + 1][..i] == cmds[..i];
        var matched := MatchesForCommand(cmds[i], Some(heuristics));
        matchedRules := matchedRules + matched;
      }
      assert cmds[..|cmds|] == cmds;
      r := FromMatches(matchedRules);
    }
  }
}
