/**
 * rply/lexergenerator.py, first half: matches and rules. The regular
 * expression engine is left abstract: a compiled pattern is an oracle that,
 * asked for an anchored match of `s` at `pos`, answers with the end of the
 * match or with no match.
 */
module Rules {
  import opened Wrappers

  /**
   * A compiled pattern, `re.compile(pattern, flags)`: `m(s, pos)` is the end of
   * `re.match(s, pos)`. Python's anchored match starts at `pos` and ends
   * somewhere between `pos` and the end of `s`; the subset type says so.
   */
  type Pattern = m: (string, nat) -> Option<nat>
    | forall s: string, pos: nat :: m(s, pos).Some? ==> pos <= m(s, pos).value <= |s|
    witness (s: string, pos: nat) => None

  /** A matched span. */
  datatype Match = Match(start: nat, end: nat)

  /** A named rule; ignore rules are named "". */
  datatype Rule = Rule(name: string, re: Pattern)

  /** `rule.matches(s, pos)`: the span of the anchored match, or None. */
  function Matches(rule: Rule, s: string, pos: nat): (r: Option<Match>)
    ensures r.Some? <==> rule.re(s, pos).Some?
    ensures r.Some? ==> r.value.start == pos <= r.value.end <= |s|
  {
    match rule.re(s, pos)
    case Some(end) => Some(Match(pos, end))
    case None => None
  }

  /** A Python list of rules; an object so that a lexer and its generator can share one. */
  class RuleList {
    var items: seq<Rule>

    constructor ()
      ensures items == []
    {
      items := [];
    }
  }
}

/** rply/lexergenerator.py, second half: the ordered rule registry. */
module LexerGenerators {
  import opened Rules
  import Lexers

  class LexerGenerator {
    const rules: RuleList
    const ignoreRules: RuleList

    ghost predicate Valid()
      reads this
    {
      rules != ignoreRules
    }

    constructor ()
      ensures Valid() && fresh(rules) && fresh(ignoreRules)
      ensures rules.items == [] && ignoreRules.items == []
    {
      rules := new RuleList();
      ignoreRules := new RuleList();
    }

    /** `add(name, pattern, flags)`: appends a content rule; earlier rules win ties. */
    method Add(name: string, pattern: Pattern)
      requires Valid()
      modifies rules
      ensures rules.items == old(rules.items) + [Rule(name, pattern)]
      ensures ignoreRules.items == old(ignoreRules.items)
    {
      rules.items := rules.items + [Rule(name, pattern)];
    }

    /** `ignore(pattern, flags)`: appends a rule named "" whose matches are skipped. */
    method Ignore(pattern: Pattern)
      requires Valid()
      modifies ignoreRules
      ensures ignoreRules.items == old(ignoreRules.items) + [Rule("", pattern)]
      ensures rules.items == old(rules.items)
    {
      ignoreRules.items := ignoreRules.items + [Rule("", pattern)];
    }

    /** `build()`: a lexer that shares (does not copy) both rule lists. */
    method Build() returns (lexer: Lexers.Lexer)
      ensures fresh(lexer)
      ensures lexer.rules == rules && lexer.ignoreRules == ignoreRules
    {
      lexer := new Lexers.Lexer(rules, ignoreRules);
    }
  }
}
