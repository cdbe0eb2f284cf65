/** rply/lexer.py: a lexer and the stream of tokens it produces over one string. */
module Lexers {
  import opened Wrappers
  import opened Lists
  import opened Rules
  import opened Tokens

  /** `s.count("\n", start, end)`. */
  function Newlines(s: string, start: nat, end: nat): nat
    requires start <= end <= |s|
  {
    Count(s[start..end], '\n')
  }

  /** Newline counts over adjacent spans add up. */
  lemma NewlinesSplit(s: string, a: nat, b: nat, c: nat)
    requires a <= b <= c <= |s|
    ensures Newlines(s, a, b) + Newlines(s, b, c) == Newlines(s, a, c)
  {
    assert s[a..c] == s[a..b] + s[b..c];
    CountConcat(s[a..b], s[b..c], '\n');
  }

  /** `s.rfind("\n", 0, end)`: the last newline before `end`, or -1. */
  function LastNewline(s: string, end: nat): (r: int)
    requires end <= |s|
    ensures -1 <= r < end
    ensures r >= 0 ==> s[r] == '\n'
    ensures forall j :: r < j < end ==> s[j] != '\n'
  {
    if end == 0 then -1
    else if s[end - 1] == '\n' then end - 1
    else LastNewline(s, end - 1)
  }

  /**
   * The column `_update_pos` reports for a match starting at `start`: one
   * more than the number of characters between the last newline before
   * `start` (or the beginning of `s`) and `start`.
   */
  function Column(s: string, start: nat): int
    requires start <= |s|
  {
    var lastNl := LastNewline(s, start);
    if lastNl < 0 then start + 1 else start - lastNl
  }

  /** Columns are 1-based and count from the start of the line that holds `start`. */
  lemma ColumnIsDistanceFromLineStart(s: string, start: nat)
    requires start <= |s|
    ensures 1 <= Column(s, start) <= start + 1
    ensures forall j :: start - Column(s, start) < j < start ==> s[j] != '\n'
    ensures Column(s, start) <= start ==> s[start - Column(s, start)] == '\n'
  {
  }

  /** A content rule that matched, with its position in the rule list. */
  datatype RuleMatch = RuleMatch(index: nat, span: Match)

  /** The `for rule in rules` search from position `k` of the list: the first rule that matches at `pos`. */
  function FirstMatchFrom(rules: seq<Rule>, s: string, pos: nat, k: nat): (r: Option<RuleMatch>)
    ensures r.Some? ==> k <= r.value.index < |rules|
    ensures r.Some? ==> Matches(rules[r.value.index], s, pos) == Some(r.value.span)
    ensures r.Some? ==> forall j :: k <= j < r.value.index ==> Matches(rules[j], s, pos).None?
    ensures r.None? ==> forall j :: k <= j < |rules| ==> Matches(rules[j], s, pos).None?
    decreases |rules| - k
  {
    if k >= |rules| then None
    else match Matches(rules[k], s, pos)
      case Some(m) => Some(RuleMatch(k, m))
      case None => FirstMatchFrom(rules, s, pos, k + 1)
  }

  /** The first rule, in registration order, that matches at `pos`. */
  function FirstMatch(rules: seq<Rule>, s: string, pos: nat): Option<RuleMatch>
  {
    FirstMatchFrom(rules, s, pos, 0)
  }

  /**
   * No ignore rule matches the empty string before the end of `s`. Without
   * this the skipping loop of `next` does not terminate.
   */
  ghost predicate IgnoreAdvances(ignore: seq<Rule>, s: string)
  {
    forall k: nat, p: nat :: k < |ignore| && p < |s| && ignore[k].re(s, p).Some? ==> ignore[k].re(s, p).value > p
  }

  /** The bookkeeping of a stream: `idx`, `_lineno` and `_colno`. */
  datatype Cursor = Cursor(idx: nat, lineno: int, colno: int)

  /** The error `next` raises when no content rule matches. */
  datatype LexingError = LexingError(message: string, sourcePos: SourcePosition)

  /** What one call of `next` does: emit a token, signal the end (StopIteration), or raise. */
  datatype NextResult = Emitted(token: Token) | EndOfStream | Failed(error: LexingError)

  /** A result together with the cursor it leaves behind. */
  datatype Step = Step(result: NextResult, cursor: Cursor)

  /**
   * The skipping phase of `next`: while input remains and some ignore rule
   * matches, consume the first such match. Ignore matches move `idx` and
   * `_lineno` but leave `_colno` alone.
   */
  function SkipIgnored(ignore: seq<Rule>, s: string, c: Cursor): Cursor
    requires IgnoreAdvances(ignore, s) && c.idx <= |s|
    decreases |s| - c.idx
  {
    if c.idx >= |s| then c
    else match FirstMatch(ignore, s, c.idx)
      case None => c
      case Some(m) =>
        SkipIgnored(ignore, s, Cursor(m.span.end, c.lineno + Newlines(s, m.span.start, m.span.end), c.colno))
  }

  /** One call of `next` on a stream over `s` whose bookkeeping is `c`. */
  function NextStep(rules: seq<Rule>, ignore: seq<Rule>, s: string, c: Cursor): Step
    requires IgnoreAdvances(ignore, s) && c.idx <= |s|
  {
    var c1 := SkipIgnored(ignore, s, c);
    if c1.idx >= |s| then Step(EndOfStream, c1)
    else match FirstMatch(rules, s, c1.idx)
      case None => Step(Failed(LexingError("", SourcePosition(c1.idx, c1.lineno, c1.colno))), c1)
      case Some(m) =>
        var col := Column(s, m.span.start);
        var pos := SourcePosition(m.span.start, c1.lineno, col);
        Step(Emitted(Token(rules[m.index].name, s[m.span.start..m.span.end], Some(pos))),
             Cursor(m.span.end, c1.lineno + Newlines(s, m.span.start, m.span.end), col))
  }

  /** The line number of a cursor that sits at `idx`: one plus the newlines before it. */
  ghost predicate LineConsistent(s: string, c: Cursor)
  {
    c.idx <= |s| && c.lineno == 1 + Newlines(s, 0, c.idx)
  }

  /**
   * Skipping ends where input is exhausted or no ignore rule matches, never
   * moves backwards, keeps the column, and keeps the line count consistent.
   */
  lemma {:induction false} SkipIgnoredFacts(ignore: seq<Rule>, s: string, c: Cursor)
    requires IgnoreAdvances(ignore, s) && c.idx <= |s|
    ensures c.idx <= SkipIgnored(ignore, s, c).idx <= |s|
    ensures SkipIgnored(ignore, s, c).colno == c.colno
    ensures var r := SkipIgnored(ignore, s, c); r.idx >= |s| || FirstMatch(ignore, s, r.idx).None?
    ensures var r := SkipIgnored(ignore, s, c); r.idx > c.idx ==> FirstMatch(ignore, s, c.idx).Some?
    ensures LineConsistent(s, c) ==> LineConsistent(s, SkipIgnored(ignore, s, c))
    decreases |s| - c.idx
  {
    if c.idx < |s| {
      match FirstMatch(ignore, s, c.idx)
      case None =>
      case Some(m) =>
        var c' := Cursor(m.span.end, c.lineno + Newlines(s, m.span.start, m.span.end), c.colno);
        NewlinesSplit(s, 0, c.idx, m.span.end);
        SkipIgnoredFacts(ignore, s, c');
    }
  }

  /** `next` signals the end of the stream exactly when skipping has exhausted the input. */
  lemma NextEndsExactlyAtEndOfInput(rules: seq<Rule>, ignore: seq<Rule>, s: string, c: Cursor)
    requires IgnoreAdvances(ignore, s) && c.idx <= |s|
    ensures NextStep(rules, ignore, s, c).result.EndOfStream? <==> SkipIgnored(ignore, s, c).idx >= |s|
    ensures NextStep(rules, ignore, s, c).result.EndOfStream? ==> NextStep(rules, ignore, s, c).cursor.idx == |s|
  {
    SkipIgnoredFacts(ignore, s, c);
  }

  /**
   * An emitted token comes from the first registered content rule that
   * matches where skipping stopped: its name is the rule's, its text the
   * matched span, its position the start of the span with the line before
   * the match and the column of the start. The cursor moves to the end of
   * the span, counts its newlines, and remembers the column.
   */
  lemma NextEmitsFirstMatchingRule(rules: seq<Rule>, ignore: seq<Rule>, s: string, c: Cursor)
    requires IgnoreAdvances(ignore, s) && LineConsistent(s, c)
    requires NextStep(rules, ignore, s, c).result.Emitted?
    ensures var c1 := SkipIgnored(ignore, s, c);
            var step := NextStep(rules, ignore, s, c);
            var t := step.result.token;
            && c1.idx < |s|
            && exists k, end ::
                 && 0 <= k < |rules| && c1.idx <= end <= |s|
                 && Matches(rules[k], s, c1.idx) == Some(Match(c1.idx, end))
                 && (forall j :: 0 <= j < k ==> Matches(rules[j], s, c1.idx).None?)
                 && t.name == rules[k].name
                 && t.value == s[c1.idx..end]
                 && t.sourcePos == Some(SourcePosition(c1.idx, 1 + Newlines(s, 0, c1.idx), Column(s, c1.idx)))
                 && step.cursor == Cursor(end, 1 + Newlines(s, 0, end), Column(s, c1.idx))
  {
    SkipIgnoredFacts(ignore, s, c);
    var c1 := SkipIgnored(ignore, s, c);
    var m := FirstMatch(rules, s, c1.idx).value;
    var k, end := m.index, m.span.end;
    assert Matches(rules[k], s, c1.idx) == Some(m.span);
    assert m.span == Match(c1.idx, end);
    NewlinesSplit(s, 0, c1.idx, end);
    var step := NextStep(rules, ignore, s, c);
    assert step.result.token == Token(rules[k].name, s[c1.idx..end], Some(SourcePosition(c1.idx, c1.lineno, Column(s, c1.idx))));
    assert step.cursor == Cursor(end, 1 + Newlines(s, 0, end), Column(s, c1.idx));
    assert 0 <= k < |rules| && c1.idx <= end <= |s|
        && Matches(rules[k], s, c1.idx) == Some(Match(c1.idx, end))
        && (forall j :: 0 <= j < k ==> Matches(rules[j], s, c1.idx).None?);
  }

  /**
   * `next` raises exactly when input remains after skipping and no content
   * rule matches there. The error has an empty message and reports the
   * index and line reached but the column of the last emitted token.
   */
  lemma NextFailsWhenNoRuleMatches(rules: seq<Rule>, ignore: seq<Rule>, s: string, c: Cursor)
    requires IgnoreAdvances(ignore, s) && LineConsistent(s, c)
    ensures var c1 := SkipIgnored(ignore, s, c);
            NextStep(rules, ignore, s, c).result.Failed?
            <==> c1.idx < |s| && forall j :: 0 <= j < |rules| ==> Matches(rules[j], s, c1.idx).None?
    ensures var c1 := SkipIgnored(ignore, s, c);
            var step := NextStep(rules, ignore, s, c);
            step.result.Failed? ==>
              && step.result.error == LexingError("", SourcePosition(c1.idx, 1 + Newlines(s, 0, c1.idx), c.colno))
              && step.cursor == c1
  {
    SkipIgnoredFacts(ignore, s, c);
    var c1 := SkipIgnored(ignore, s, c);
    if c1.idx < |s| && FirstMatch(rules, s, c1.idx).Some? {
      var m := FirstMatch(rules, s, c1.idx).value;
      assert Matches(rules[m.index], s, c1.idx).Some?;
    }
  }

  /** `idx` never decreases, and the line count stays consistent with it. */
  lemma NextKeepsLineCount(rules: seq<Rule>, ignore: seq<Rule>, s: string, c: Cursor)
    requires IgnoreAdvances(ignore, s) && LineConsistent(s, c)
    ensures c.idx <= NextStep(rules, ignore, s, c).cursor.idx
    ensures LineConsistent(s, NextStep(rules, ignore, s, c).cursor)
  {
    SkipIgnoredFacts(ignore, s, c);
    var c1 := SkipIgnored(ignore, s, c);
    if c1.idx < |s| && FirstMatch(rules, s, c1.idx).Some? {
      var m := FirstMatch(rules, s, c1.idx).value;
      NewlinesSplit(s, 0, c1.idx, m.span.end);
    }
  }

  /** When an ignore rule matches at every remaining position, the stream yields no token at all. */
  lemma {:induction false} IgnorableInputYieldsNothing(rules: seq<Rule>, ignore: seq<Rule>, s: string, c: Cursor)
    requires IgnoreAdvances(ignore, s) && c.idx <= |s|
    requires forall p :: c.idx <= p < |s| ==> FirstMatch(ignore, s, p).Some?
    ensures SkipIgnored(ignore, s, c).idx == |s|
    ensures NextStep(rules, ignore, s, c).result == EndOfStream
    decreases |s| - c.idx
  {
    if c.idx < |s| {
      var m := FirstMatch(ignore, s, c.idx).value;
      IgnorableInputYieldsNothing(rules, ignore, s, Cursor(m.span.end, c.lineno + Newlines(s, m.span.start, m.span.end), c.colno));
    }
  }

  /** A lexer: the two rule lists its generator registered, shared with it. */
  class Lexer {
    const rules: RuleList
    const ignoreRules: RuleList

    constructor (rules: RuleList, ignoreRules: RuleList)
      ensures this.rules == rules && this.ignoreRules == ignoreRules
    {
      this.rules := rules;
      this.ignoreRules := ignoreRules;
    }

    /** `lex(s)`: a fresh stream at index 0, line 1, column 1. */
    method Lex(s: string) returns (stream: LexerStream)
      ensures fresh(stream) && stream.Valid()
      ensures stream.lexer == this && stream.s == s
      ensures stream.idx == 0 && stream.lineno == 1 && stream.colno == 1
    {
      stream := new LexerStream(this, s);
    }
  }

  /** A cursor over one string. */
  class LexerStream {
    const lexer: Lexer
    const s: string
    var idx: nat
    var lineno: int
    var colno: int

    ghost predicate Valid()
      reads this
    {
      LineConsistent(s, Cursor(idx, lineno, colno))
    }

    constructor (lexer: Lexer, s: string)
      ensures this.lexer == lexer && this.s == s
      ensures idx == 0 && lineno == 1 && colno == 1
      ensures Valid()
    {
      this.lexer := lexer;
      this.s := s;
      idx := 0;
      lineno := 1;
      colno := 1;
      assert s[0..0] == [];
    }

    /** `_update_pos(match)`: move to the end of the match, count its newlines, and return the column of its start. */
    method UpdatePos(m: Match) returns (col: int)
      requires m.start <= m.end <= |s|
      modifies this`idx, this`lineno
      ensures idx == m.end && lineno == old(lineno) + Newlines(s, m.start, m.end) && colno == old(colno)
      ensures col == Column(s, m.start)
    {
      idx := m.end;
      lineno := lineno + Newlines(s, m.start, m.end);
      var lastNl := LastNewline(s, m.start);
      if lastNl < 0 {
        col := m.start + 1;
      } else {
        col := m.start - lastNl;
      }
    }

    /**
     * The ignore loop at the head of `next()`: while input remains, the
     * first ignore rule that matches is consumed, and the scan restarts.
     */
    method SkipIgnore(ignore: seq<Rule>)
      requires Valid() && IgnoreAdvances(ignore, s)
      modifies this`idx, this`lineno
      ensures Valid()
      ensures Cursor(idx, lineno, colno) == SkipIgnored(ignore, s, old(Cursor(idx, lineno, colno)))
    {
      ghost var c0 := Cursor(idx, lineno, colno);
      while idx < |s|
        invariant Valid() && colno == c0.colno
        invariant SkipIgnored(ignore, s, Cursor(idx, lineno, colno)) == SkipIgnored(ignore, s, c0)
        decreases |s| - idx
      {
        ghost var before := Cursor(idx, lineno, colno);
        var matched := false;
        var k := 0;
        while k < |ignore|
          invariant 0 <= k <= |ignore|
          invariant Cursor(idx, lineno, colno) == before
          invariant FirstMatchFrom(ignore, s, idx, k) == FirstMatch(ignore, s, idx)
        {
          var m := Matches(ignore[k], s, idx);
          if m.Some? {
            var _ := UpdatePos(m.value);
            matched := true;
            break;
          }
          k := k + 1;
        }
        if !matched {
          return;
        }
        NewlinesSplit(s, 0, before.idx, idx);
      }
    }

    /** `next()`. */
    method Next() returns (r: NextResult)
      requires Valid() && IgnoreAdvances(lexer.ignoreRules.items, s)
      modifies this`idx, this`lineno, this`colno
      ensures Valid()
      ensures var step := NextStep(lexer.rules.items, lexer.ignoreRules.items, s, old(Cursor(idx, lineno, colno)));
              r == step.result && Cursor(idx, lineno, colno) == step.cursor
    {
      var rules := lexer.rules.items;
      SkipIgnore(lexer.ignoreRules.items);
      if idx >= |s| {
        return EndOfStream;
      }
      var k := 0;
      while k < |rules|
        invariant 0 <= k <= |rules|
        invariant FirstMatchFrom(rules, s, idx, k) == FirstMatch(rules, s, idx)
      {
        var m := Matches(rules[k], s, idx);
        if m.Some? {
          var line := lineno;
          colno := UpdatePos(m.value);
          NewlinesSplit(s, 0, m.value.start, m.value.end);
          return Emitted(Token(rules[k].name, s[m.value.start..m.value.end], Some(SourcePosition(m.value.start, line, colno))));
        }
        k := k + 1;
      }
      return Failed(LexingError("", SourcePosition(idx, lineno, colno)));
    }
  }
}
