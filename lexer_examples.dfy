/** The scenarios of the lexer's test suite, replayed on concrete patterns. */
module LexerExamples {
  import opened Wrappers
  import opened Rules
  import opened Tokens
  import opened Lexers
  import opened Lists

  /** The end of the run of decimal digits that begins at `pos`. */
  function DigitsEnd(s: string, pos: nat): (e: nat)
    requires pos <= |s|
    ensures pos <= e <= |s|
    ensures forall j :: pos <= j < e ==> '0' <= s[j] <= '9'
    ensures e < |s| ==> !('0' <= s[e] <= '9')
    decreases |s| - pos
  {
    if pos < |s| && '0' <= s[pos] <= '9' then DigitsEnd(s, pos + 1) else pos
  }

  /** `\d+` (ASCII digits). */
  const Number: Pattern := (s: string, pos: nat) =>
    if pos < |s| && DigitsEnd(s, pos) > pos then Some(DigitsEnd(s, pos)) else None

  /** A pattern matching the single character `c`. */
  function Literal(c: char): Pattern
  {
    (s: string, pos: nat) => if pos < |s| && s[pos] == c then Some(pos + 1) else None
  }

  /** `\s` (ASCII whitespace). */
  predicate IsSpace(c: char)
  {
    c == ' ' || c == '\t' || c == '\n' || c == '\r' || c == '\U{B}' || c == '\U{C}'
  }

  /** The end of the run of whitespace that begins at `pos`. */
  function SpacesEnd(s: string, pos: nat): (e: nat)
    requires pos <= |s|
    ensures pos <= e <= |s|
    decreases |s| - pos
  {
    if pos < |s| && IsSpace(s[pos]) then SpacesEnd(s, pos + 1) else pos
  }

  /** `\s+`. */
  const Spaces: Pattern := (s: string, pos: nat) =>
    if pos < |s| && SpacesEnd(s, pos) > pos then Some(SpacesEnd(s, pos)) else None

  const Start := Cursor(0, 1, 1)

  const SumRules := [Rule("NUMBER", Number), Rule("PLUS", Literal('+'))]
  const Sum := "2+3"

  lemma SumFirst()
    ensures NextStep(SumRules, [], Sum, Start) == Step(Emitted(Token("NUMBER", "2", Some(SourcePosition(0, 1, 1)))), Cursor(1, 1, 1))
  {
    var s := Sum;
    assert DigitsEnd(s, 0) == 1 by { assert DigitsEnd(s, 1) == 1; }
    assert FirstMatch(SumRules, s, 0) == Some(RuleMatch(0, Match(0, 1)));
    assert Newlines(s, 0, 1) == 0 by { assert s[0..1] == "2"; }
  }

  lemma SumSecond()
    ensures NextStep(SumRules, [], Sum, Cursor(1, 1, 1)) == Step(Emitted(Token("PLUS", "+", Some(SourcePosition(1, 1, 2)))), Cursor(2, 1, 2))
  {
    var s := Sum;
    assert DigitsEnd(s, 1) == 1;
    assert Matches(SumRules[0], s, 1) == None;
    assert FirstMatchFrom(SumRules, s, 1, 1) == Some(RuleMatch(1, Match(1, 2)));
    assert FirstMatch(SumRules, s, 1) == Some(RuleMatch(1, Match(1, 2)));
    assert Newlines(s, 1, 2) == 0 by { assert s[1..2] == "+"; }
    assert LastNewline(s, 0) == -1;
    assert LastNewline(s, 1) == -1;
    assert Column(s, 1) == 2;
    var st := NextStep(SumRules, [], s, Cursor(1, 1, 1));
    assert st.result.Emitted?;
    assert st.result.token.name == "PLUS";
    assert st.result.token.value == "+";
    assert st.result.token.sourcePos == Some(SourcePosition(1, 1, 2));
    assert st.cursor == Cursor(2, 1, 2);
  }

  lemma SumThird()
    ensures NextStep(SumRules, [], Sum, Cursor(2, 1, 2)) == Step(Emitted(Token("NUMBER", "3", Some(SourcePosition(2, 1, 3)))), Cursor(3, 1, 3))
  {
    var s := Sum;
    assert DigitsEnd(s, 2) == 3 by { assert DigitsEnd(s, 3) == 3; }
    assert FirstMatch(SumRules, s, 2) == Some(RuleMatch(0, Match(2, 3)));
    assert Newlines(s, 2, 3) == 0 by { assert s[2..3] == "3"; }
    assert LastNewline(s, 1) == -1;
    assert LastNewline(s, 2) == -1;
    assert Column(s, 2) == 3;
  }

  /** "2+3" lexes to NUMBER, PLUS, NUMBER (the last at index 2) and then ends. */
  lemma SimpleStream()
    ensures NextStep(SumRules, [], Sum, Start) == Step(Emitted(Token("NUMBER", "2", Some(SourcePosition(0, 1, 1)))), Cursor(1, 1, 1))
    ensures NextStep(SumRules, [], Sum, Cursor(1, 1, 1)) == Step(Emitted(Token("PLUS", "+", Some(SourcePosition(1, 1, 2)))), Cursor(2, 1, 2))
    ensures NextStep(SumRules, [], Sum, Cursor(2, 1, 2)) == Step(Emitted(Token("NUMBER", "3", Some(SourcePosition(2, 1, 3)))), Cursor(3, 1, 3))
    ensures NextStep(SumRules, [], Sum, Cursor(3, 1, 3)).result == EndOfStream
  {
    SumFirst();
    SumSecond();
    SumThird();
  }

  /** The rules of the position tests: NUMBER and PLUS, with whitespace ignored. */
  const ArithRules := [Rule("NUMBER", Number), Rule("PLUS", Literal('+'))]
  const BlankRules := [Rule("", Spaces)]
  const TwoLines := "2 +\n    37"

  lemma TwoLinesFirst()
    ensures IgnoreAdvances(BlankRules, TwoLines)
    ensures NextStep(ArithRules, BlankRules, TwoLines, Start)
         == Step(Emitted(Token("NUMBER", "2", Some(SourcePosition(0, 1, 1)))), Cursor(1, 1, 1))
  {
    var s := TwoLines;
    assert SpacesEnd(s, 0) == 0;
    assert FirstMatch(BlankRules, s, 0) == None;
    assert DigitsEnd(s, 0) == 1 by { assert DigitsEnd(s, 1) == 1; }
    assert FirstMatch(ArithRules, s, 0) == Some(RuleMatch(0, Match(0, 1)));
    assert Newlines(s, 0, 1) == 0 by { assert s[0..1] == "2"; }
  }

  lemma TwoLinesSecond()
    requires IgnoreAdvances(BlankRules, TwoLines)
    ensures NextStep(ArithRules, BlankRules, TwoLines, Cursor(1, 1, 1))
         == Step(Emitted(Token("PLUS", "+", Some(SourcePosition(2, 1, 3)))), Cursor(3, 1, 3))
  {
    var s := TwoLines;
    assert SpacesEnd(s, 1) == 2 by { assert SpacesEnd(s, 2) == 2; }
    assert FirstMatch(BlankRules, s, 1) == Some(RuleMatch(0, Match(1, 2)));
    assert Newlines(s, 1, 2) == 0 by { assert s[1..2] == " "; }
    assert SpacesEnd(s, 2) == 2;
    assert FirstMatch(BlankRules, s, 2) == None;
    assert SkipIgnored(BlankRules, s, Cursor(1, 1, 1)) == Cursor(2, 1, 1);
    assert DigitsEnd(s, 2) == 2;
    assert Matches(ArithRules[0], s, 2) == None;
    assert FirstMatchFrom(ArithRules, s, 2, 1) == Some(RuleMatch(1, Match(2, 3)));
    assert FirstMatch(ArithRules, s, 2) == Some(RuleMatch(1, Match(2, 3)));
    assert Newlines(s, 2, 3) == 0 by { assert s[2..3] == "+"; }
    assert LastNewline(s, 1) == -1;
    assert LastNewline(s, 2) == -1;
    assert Column(s, 2) == 3;
    var st := NextStep(ArithRules, BlankRules, s, Cursor(1, 1, 1));
    assert st.result.Emitted?;
    assert st.result.token.name == "PLUS";
    assert st.result.token.value == "+";
    assert st.result.token.sourcePos == Some(SourcePosition(2, 1, 3));
    assert st.cursor == Cursor(3, 1, 3);
  }

  lemma TwoLinesThird()
    requires IgnoreAdvances(BlankRules, TwoLines)
    ensures NextStep(ArithRules, BlankRules, TwoLines, Cursor(3, 1, 3))
         == Step(Emitted(Token("NUMBER", "37", Some(SourcePosition(8, 2, 5)))), Cursor(10, 2, 5))
  {
    var s := TwoLines;
    assert SpacesEnd(s, 3) == 8 by {
      assert SpacesEnd(s, 8) == 8;
      assert SpacesEnd(s, 7) == 8;
      assert SpacesEnd(s, 6) == 8;
      assert SpacesEnd(s, 5) == 8;
      assert SpacesEnd(s, 4) == 8;
    }
    assert FirstMatch(BlankRules, s, 3) == Some(RuleMatch(0, Match(3, 8)));
    assert Newlines(s, 3, 8) == 1 by {
      assert s[3..4] == "\n";
      assert s[4..8] == "    ";
      CountZero(s[4..8], '\n');
      NewlinesSplit(s, 3, 4, 8);
    }
    assert SpacesEnd(s, 8) == 8;
    assert FirstMatch(BlankRules, s, 8) == None;
    assert SkipIgnored(BlankRules, s, Cursor(3, 1, 3)) == Cursor(8, 2, 3);
    assert DigitsEnd(s, 8) == 10 by { assert DigitsEnd(s, 10) == 10; assert DigitsEnd(s, 9) == 10; }
    assert FirstMatch(ArithRules, s, 8) == Some(RuleMatch(0, Match(8, 10)));
    assert Newlines(s, 8, 10) == 0 by { assert s[8..10] == "37"; CountZero(s[8..10], '\n'); }
    assert LastNewline(s, 8) == 3;
    var st := NextStep(ArithRules, BlankRules, s, Cursor(3, 1, 3));
    assert st.result.Emitted?;
    assert st.result.token.name == "NUMBER";
    assert st.result.token.value == "37";
    assert st.result.token.sourcePos == Some(SourcePosition(8, 2, 5));
    assert st.cursor == Cursor(10, 2, 5);
  }

  /**
   * "2 +\n    37" with whitespace ignored: the third token starts a new line
   * and is reported at line 2, column 5; then the stream ends.
   */
  lemma PositionAcrossLines()
    ensures IgnoreAdvances(BlankRules, TwoLines)
    ensures NextStep(ArithRules, BlankRules, TwoLines, Start)
         == Step(Emitted(Token("NUMBER", "2", Some(SourcePosition(0, 1, 1)))), Cursor(1, 1, 1))
    ensures NextStep(ArithRules, BlankRules, TwoLines, Cursor(1, 1, 1))
         == Step(Emitted(Token("PLUS", "+", Some(SourcePosition(2, 1, 3)))), Cursor(3, 1, 3))
    ensures NextStep(ArithRules, BlankRules, TwoLines, Cursor(3, 1, 3))
         == Step(Emitted(Token("NUMBER", "37", Some(SourcePosition(8, 2, 5)))), Cursor(10, 2, 5))
    ensures NextStep(ArithRules, BlankRules, TwoLines, Cursor(10, 2, 5)).result == EndOfStream
  {
    TwoLinesFirst();
    TwoLinesSecond();
    TwoLinesThird();
  }

  /** " \n " with NEWLINE and SPACE rules: columns 1, 2, 1 on lines 1, 1, 2. */
  lemma NewlinePositions()
    ensures var rules := [Rule("NEWLINE", Literal('\n')), Rule("SPACE", Literal(' '))];
            var s := " \n ";
            var a := NextStep(rules, [], s, Start);
            var b := NextStep(rules, [], s, a.cursor);
            var c := NextStep(rules, [], s, b.cursor);
            && a.result == Emitted(Token("SPACE", " ", Some(SourcePosition(0, 1, 1))))
            && b.result == Emitted(Token("NEWLINE", "\n", Some(SourcePosition(1, 1, 2))))
            && c.result == Emitted(Token("SPACE", " ", Some(SourcePosition(2, 2, 1))))
  {
    var rules := [Rule("NEWLINE", Literal('\n')), Rule("SPACE", Literal(' '))];
    var s := " \n ";
    assert Matches(rules[0], s, 0) == None;
    assert FirstMatchFrom(rules, s, 0, 1) == Some(RuleMatch(1, Match(0, 1)));
    assert FirstMatch(rules, s, 1) == Some(RuleMatch(0, Match(1, 2)));
    assert Newlines(s, 1, 2) == 1 by { assert s[1..2] == "\n"; }
    assert Matches(rules[0], s, 2) == None;
    assert FirstMatchFrom(rules, s, 2, 1) == Some(RuleMatch(1, Match(2, 3)));
    assert LastNewline(s, 2) == 1;
  }

  const FailInput := "1+2+fail"

  lemma FailFirst()
    ensures NextStep(SumRules, [], FailInput, Start)
         == Step(Emitted(Token("NUMBER", "1", Some(SourcePosition(0, 1, 1)))), Cursor(1, 1, 1))
  {
    var s := FailInput;
    assert DigitsEnd(s, 0) == 1 by { assert DigitsEnd(s, 1) == 1; }
    assert FirstMatch(SumRules, s, 0) == Some(RuleMatch(0, Match(0, 1)));
    assert Newlines(s, 0, 1) == 0 by { assert s[0..1] == "1"; }
  }

  lemma FailSecond()
    ensures NextStep(SumRules, [], FailInput, Cursor(1, 1, 1))
         == Step(Emitted(Token("PLUS", "+", Some(SourcePosition(1, 1, 2)))), Cursor(2, 1, 2))
  {
    var s := FailInput;
    assert DigitsEnd(s, 1) == 1;
    assert Matches(SumRules[0], s, 1) == None;
    assert FirstMatchFrom(SumRules, s, 1, 1) == Some(RuleMatch(1, Match(1, 2)));
    assert FirstMatch(SumRules, s, 1) == Some(RuleMatch(1, Match(1, 2)));
    assert Newlines(s, 1, 2) == 0 by { assert s[1..2] == "+"; }
    assert LastNewline(s, 1) == -1 by { assert LastNewline(s, 0) == -1; }
    assert Column(s, 1) == 2;
    var st := NextStep(SumRules, [], s, Cursor(1, 1, 1));
    assert st.result.Emitted?;
    assert st.result.token.value == "+";
    assert st.cursor == Cursor(2, 1, 2);
  }

  lemma FailThird()
    ensures NextStep(SumRules, [], FailInput, Cursor(2, 1, 2))
         == Step(Emitted(Token("NUMBER", "2", Some(SourcePosition(2, 1, 3)))), Cursor(3, 1, 3))
  {
    var s := FailInput;
    assert DigitsEnd(s, 2) == 3 by { assert DigitsEnd(s, 3) == 3; }
    assert FirstMatch(SumRules, s, 2) == Some(RuleMatch(0, Match(2, 3)));
    assert Newlines(s, 2, 3) == 0 by { assert s[2..3] == "2"; }
    assert LastNewline(s, 2) == -1 by { assert LastNewline(s, 0) == -1; assert LastNewline(s, 1) == -1; }
    assert Column(s, 2) == 3;
  }

  lemma FailPlus()
    ensures NextStep(SumRules, [], FailInput, Cursor(3, 1, 3))
         == Step(Emitted(Token("PLUS", "+", Some(SourcePosition(3, 1, 4)))), Cursor(4, 1, 4))
  {
    var s := FailInput;
    assert DigitsEnd(s, 3) == 3;
    assert Matches(SumRules[0], s, 3) == None;
    assert FirstMatchFrom(SumRules, s, 3, 1) == Some(RuleMatch(1, Match(3, 4)));
    assert FirstMatch(SumRules, s, 3) == Some(RuleMatch(1, Match(3, 4)));
    assert Newlines(s, 3, 4) == 0 by { assert s[3..4] == "+"; }
    assert LastNewline(s, 3) == -1 by { assert LastNewline(s, 0) == -1; assert LastNewline(s, 1) == -1; assert LastNewline(s, 2) == -1; }
    assert Column(s, 3) == 4;
    var st := NextStep(SumRules, [], s, Cursor(3, 1, 3));
    assert st.result.Emitted?;
    assert st.result.token.value == "+";
    assert st.cursor == Cursor(4, 1, 4);
  }

  lemma FailAfter()
    ensures NextStep(SumRules, [], FailInput, Cursor(4, 1, 4)).result == Failed(LexingError("", SourcePosition(4, 1, 4)))
  {
    var s := FailInput;
    assert DigitsEnd(s, 4) == 4;
    assert Matches(SumRules[0], s, 4) == None;
    assert Matches(SumRules[1], s, 4) == None;
    assert FirstMatch(SumRules, s, 4) == None;
  }

  /**
   * "1+2+fail" from the start: four tokens, then an error that reports
   * index 4 but the column of the last token, 4.
   */
  lemma ErrorColumn()
    ensures NextStep(SumRules, [], FailInput, Start)
         == Step(Emitted(Token("NUMBER", "1", Some(SourcePosition(0, 1, 1)))), Cursor(1, 1, 1))
    ensures NextStep(SumRules, [], FailInput, Cursor(1, 1, 1))
         == Step(Emitted(Token("PLUS", "+", Some(SourcePosition(1, 1, 2)))), Cursor(2, 1, 2))
    ensures NextStep(SumRules, [], FailInput, Cursor(2, 1, 2))
         == Step(Emitted(Token("NUMBER", "2", Some(SourcePosition(2, 1, 3)))), Cursor(3, 1, 3))
    ensures NextStep(SumRules, [], FailInput, Cursor(3, 1, 3))
         == Step(Emitted(Token("PLUS", "+", Some(SourcePosition(3, 1, 4)))), Cursor(4, 1, 4))
    ensures NextStep(SumRules, [], FailInput, Cursor(4, 1, 4)).result == Failed(LexingError("", SourcePosition(4, 1, 4)))
  {
    FailFirst();
    FailSecond();
    FailThird();
    FailPlus();
    FailAfter();
  }

  /** "\nfail" with a NEW_LINE rule: the error that follows the newline is on line 2. */
  lemma ErrorLine()
    ensures var rules := [Rule("NEW_LINE", Literal('\n'))];
            var s := "\nfail";
            var a := NextStep(rules, [], s, Start);
            && a.result == Emitted(Token("NEW_LINE", "\n", Some(SourcePosition(0, 1, 1))))
            && NextStep(rules, [], s, a.cursor).result == Failed(LexingError("", SourcePosition(1, 2, 1)))
  {
    var rules := [Rule("NEW_LINE", Literal('\n'))];
    var s := "\nfail";
    assert Newlines(s, 0, 1) == 1 by { assert s[0..1] == "\n"; }
    assert FirstMatch(rules, s, 1) == None;
  }

  /** Input made only of blanks, with a one-blank ignore rule, yields no token (the long-input test). */
  lemma BlankInputYieldsNothing(rules: seq<Rule>, s: string)
    requires forall i :: 0 <= i < |s| ==> s[i] == ' '
    ensures IgnoreAdvances([Rule("", Literal(' '))], s)
    ensures NextStep(rules, [Rule("", Literal(' '))], s, Start).result == EndOfStream
  {
    var ignore := [Rule("", Literal(' '))];
    forall p | 0 <= p < |s|
      ensures FirstMatch(ignore, s, p).Some?
    {
      assert Matches(ignore[0], s, p).Some?;
    }
    IgnorableInputYieldsNothing(rules, ignore, s, Start);
  }
}
