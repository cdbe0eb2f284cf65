# rply lexer and grammar core, modelled in Dafny

rply is a Python port of PLY: a lexer generator plus an LALR parser
generator. This project models two parts of it and proves properties of
the model:

- **The lexing half.**
  - A `LexerGenerator` collects content rules and ignore rules in registration order.
  - `build()` hands both lists, shared rather than copied, to a `Lexer`.
  - `lex(s)` opens a `LexerStream` over one string.
  - Each `next()` call on the stream does one of three things: it emits a `Token` carrying a `SourcePosition`, ends the stream, or raises a lexing error.
- **The grammar half.**
  - The `Grammar` class collects rules (`Production`s).
  - It records which rules use each terminal and nonterminal.
  - It installs the augmented start rule `S' -> start`.
  - It builds each rule's LR(0) items (`LRItem`s).
  - It computes the FIRST and FOLLOW tables by fixpoint iteration.
- **The helpers in `rply/utils.py`.** An identity-keyed dictionary, a counter, and dict views.

## Model layout

Code that works by mutation is modelled with classes and methods:
- the grammar tables, the rule objects and their item chains;
- the lexer stream's cursor;
- the generator's rule lists;
- the identity dictionary and the counter.

Each method is proved against a specification function. The loops of
`_first`, `compute_first` and `compute_follow` are methods in
`ComputeSets`, proved equal to the recursive functions in `FirstFollow`.
The properties of the grammar are proved about those functions:
- termination;
- closure of FIRST and FOLLOW;
- exactness of FIRST: each member comes from one of the nonterminal's rules;
- idempotence;
- `$end` in FOLLOW of the start symbol;
- no `<empty>` in any FOLLOW list.

| file | module | models |
|---|---|---|
| `wrappers.dfy` | `Wrappers` | Option and pass/fail outcomes |
| `lists.dfy` | `Lists` | the Python list operations used: append-if-absent, `count`, `insert`, negative indexing, `remove` |
| `token.dfy` | `Tokens` | `rply/token.py` |
| `utils.dfy` | `Utils` | `rply/utils.py` |
| `lexergenerator.dfy` | `Rules`, `LexerGenerators` | `rply/lexergenerator.py` |
| `lexer.dfy` | `Lexers` | `rply/lexer.py` |
| `lexer_examples.dfy` | `LexerExamples` | the scenarios of `tests/test_lexer.py`, with concrete patterns |
| `production.dfy` | `Productions` | `Production` and `LRItem` of `rply/grammar.py` |
| `items.dfy` | `Items` | `build_lritems` |
| `first_follow.dfy` | `FirstFollow` | `_first`, `compute_first`, `compute_follow` as functions, with their properties |
| `compute_sets.dfy` | `ComputeSets` | the same three as loops, proved equal to those functions |
| `grammar.dfy` | `Grammars` | `rightmost_terminal` and the `Grammar` class |

Python dicts whose iteration order matters are a `map` plus a key-order
`seq`, related by `KeyOrder`. These are `terminals` and `nonterminals`:
- `compute_first` walks them;
- `unused_terminals` lists them;
- `unused_productions` lists them.

Dicts that are only looked up are plain maps. These are `first`,
`follow`, `prod_names` and `precedence`.

Errors are returned as `Fail(...)` values:
- `ParserGeneratorError` carries its message text;
- the `KeyError` of `compute_first` carries the missing nonterminal;
- `LexingError` carries an empty message and a position;
- the end of a lexer stream is the `EndOfStream` result.

## Model

| member | source | states |
|---|---|---|
| Tokens.Token.DunderEq | rply/token.py:38-41 | NotImplemented (None) exactly for an operand that is not a Token; otherwise whether name and value both agree |
| Tokens.EqualsIgnoresPosition | rply/token.py:38-41 | `t == u` holds iff the names and the values agree, whatever the positions; `!=` is its negation |
| Tokens.EqualsIsEquivalence | rply/token.py:38-41 | token equality is reflexive, symmetric and transitive |
| Tokens.NonTokenNeverEqual | rply/token.py:38-41 | a token is never `==` to a non-token, and `!=` holds |
| Tokens.GettersReturnFields | rply/token.py:34-60 | `gettokentype`, `getstr` and `getsourcepos` return the name, the value and the position; the position defaults to None |
| Tokens.SourcePositionStoresFields | rply/token.py:4-19 | a source position keeps index, line and column as given |
| Utils.ItemsOf | rply/utils.py:48-49 | `d.items()`: one pair per key, in key order, holding that key's value |
| Utils.ValuesOf | rply/utils.py:44-45 | `d.values()`: one value per key, in key order |
| Utils.IdentityDict.constructor | rply/utils.py:9-11 | a new dictionary has no entries, no key order and an empty keepalive list |
| Utils.IdentityDict.Get | rply/utils.py:13-14 | a lookup succeeds exactly for a stored key and returns its value |
| Utils.IdentityDict.Len | rply/utils.py:28-29 | the length is the number of stored keys, which equals the number of keys iteration yields |
| Utils.IdentityDict.Iter | rply/utils.py:31-33 | iteration yields every stored key exactly once and nothing else |
| Utils.IdentityDict.Set | rply/utils.py:16-19 | the key is appended to keepalive; its entry records the keepalive length before the append; no other key's lookup changes; the length grows by one exactly for a new key; the invariant is kept |
| Utils.SetKeepsStored | rply/utils.py:16-19 | setting a key keeps the entries, key order and keepalive list consistent (each stored key once in order, kept alive, filed under itself) |
| Utils.IdentityDict.Delete | rply/utils.py:21-26 | a missing key raises KeyError with nothing changed; otherwise the key leaves the entries and the key order, and its first keepalive occurrence is removed |
| Utils.DeleteKeepsStored | rply/utils.py:21-26 | deleting a stored key keeps entries, key order and keepalive list consistent |
| Utils.FindFirst | rply/utils.py:23-26 | the `enumerate` search returns the first index holding the key, or the length when there is none |
| Utils.Counter.constructor | rply/utils.py:36-38 | a counter starts at the given value, 0 by default |
| Utils.Counter.Incr | rply/utils.py:40-41 | `incr` adds exactly one |
| Rules.Matches | rply/lexergenerator.py:18-20 | a match exists iff the pattern matches at `pos`; its span starts at `pos` and ends between `pos` and the end of the string |
| Rules.RuleList.constructor | rply/lexergenerator.py:60-62 | a rule list starts empty |
| LexerGenerators.LexerGenerator.constructor | rply/lexergenerator.py:60-62 | both rule lists start empty and are two distinct fresh lists |
| LexerGenerators.LexerGenerator.Add | rply/lexergenerator.py:64-69 | appends `Rule(name, pattern)` to the content rules; the ignore rules are unchanged |
| LexerGenerators.LexerGenerator.Ignore | rply/lexergenerator.py:71-76 | appends a rule named "" to the ignore rules; the content rules are unchanged |
| LexerGenerators.LexerGenerator.Build | rply/lexergenerator.py:78-84 | the new lexer shares both rule lists (the same objects, not copies) |
| Lexers.LastNewline | rply/lexer.py:37 | `rfind("\n", 0, end)`: -1 or an index below `end` holding a newline, with no newline after it before `end` |
| Lexers.ColumnIsDistanceFromLineStart | rply/lexer.py:37-41 | the reported column is between 1 and `start + 1`; it is one more than the distance from the newline before `start`, or from the beginning |
| Lexers.FirstMatchFrom | rply/lexer.py:55-57 | the rule found is the first in list order that matches; none is found only when no rule matches |
| Lexers.SkipIgnoredFacts | rply/lexer.py:44-53 | skipping stops at the end of input or where no ignore rule matches; it never moves back; it keeps the column; it keeps the line count equal to one plus the newlines before the index |
| Lexers.NextEndsExactlyAtEndOfInput | rply/lexer.py:44-46 | `next` ends the stream exactly when skipping reached the end of the input |
| Lexers.NextEmitsFirstMatchingRule | rply/lexer.py:55-62 | an emitted token comes from the first content rule matching where skipping stopped; see "Lexer token fields" below |
| Lexers.NextFailsWhenNoRuleMatches | rply/lexer.py:63-64 | `next` raises exactly when input remains and no content rule matches; the error has an empty message, the current index and line, and the column of the previous token |
| Lexers.NextKeepsLineCount | rply/lexer.py:34-64 | `next` never moves the index back and keeps the line count consistent with it |
| Lexers.IgnorableInputYieldsNothing | rply/lexer.py:43-53 | where an ignore rule matches at every remaining position, `next` ends the stream at once |
| Lexers.Lexer.constructor | rply/lexer.py:13-16 | a lexer holds the two rule lists it is given |
| Lexers.Lexer.Lex | rply/lexer.py:18-19 | `lex(s)` returns a fresh stream over `s` at index 0, line 1, column 1 |
| Lexers.LexerStream.constructor | rply/lexer.py:23-29 | a stream starts at index 0, line 1, column 1 |
| Lexers.LexerStream.UpdatePos | rply/lexer.py:34-41 | moves to the end of the match; adds the newlines inside it to the line; leaves the column field alone; returns the column of the match start |
| Lexers.LexerStream.SkipIgnore | rply/lexer.py:44-53 | the ignore loop leaves the cursor where SkipIgnored says and keeps the line count consistent |
| Lexers.LexerStream.Next | rply/lexer.py:43-64 | result and new cursor are those of NextStep on the old cursor and the current rule lists; the line count stays consistent |
| LexerExamples.SimpleStream | tests/test_lexer.py:9-30 | "2+3" gives NUMBER "2", PLUS "+", NUMBER "3" at index 2, then the end |
| LexerExamples.PositionAcrossLines | tests/test_lexer.py:80-94 | "2 +\n    37", whitespace ignored: see "Lexer scenarios" below |
| LexerExamples.NewlinePositions | tests/test_lexer.py:96-115 | " \n " with NEWLINE and SPACE rules: see "Lexer scenarios" below |
| LexerExamples.ErrorLine | tests/test_lexer.py:166-176 | "\nfail": the error after the newline token is reported on line 2 |
| LexerExamples.ErrorColumn | tests/test_lexer.py:178-191 | "1+2+fail" from the start cursor: NUMBER, PLUS, NUMBER, PLUS at columns 1 to 4, then the fifth call fails at index 4, line 1, column 4 (the previous token's column) |
| LexerExamples.BlankInputYieldsNothing | tests/test_lexer.py:145-151 | input made only of blanks, with a one-blank ignore rule, yields no token |
| Productions.Production.constructor | rply/grammar.py:194-211 | stores number, name, symbols and precedence; unique symbols are the set of the symbols; no items yet; `lr_next` is None |
| Productions.LRItem.constructor | rply/grammar.py:228-237 | see "LR item fields" below |
| Items.ItemFacts | rply/grammar.py:108-119 | see "Item facts" below |
| Items.BuildItems | rply/grammar.py:104-128 | a rule of length n gets items 0..n; item i is ItemIs(p, i); the chain is rule → item 0 → … → item n → None |
| Grammars.Grammar.BuildLRItems | rply/grammar.py:96-128 | every rule object in the list gets its complete item chain (ItemsBuilt) |
| Grammars.RightmostTerminal | rply/grammar.py:9-13 | None iff no symbol is a terminal; otherwise a terminal with no terminal after it |
| Grammars.RulePrecedence | rply/grammar.py:41-51 | see "Rule precedence" below |
| Grammars.NonterminalSyms | rply/grammar.py:56-60 | the symbols filed under nonterminals are exactly those that are not terminals |
| Grammars.RecordAllTerms | rply/grammar.py:56-58 | the loop adds no terminal and appends the rule number to a terminal's list once per occurrence |
| Grammars.RecordAllNonterminals | rply/grammar.py:56-60 | the nonterminals afterwards are the old ones plus the non-terminal symbols; each list gets the rule number once per occurrence |
| Grammars.RecordAllOrder | rply/grammar.py:54-60 | the nonterminal key order grows by the new non-terminal symbols in order of first occurrence and stays a key order |
| Grammars.AddUsesFacts | rply/grammar.py:53-60 | see "Use tables" below |
| Grammars.RecordUses | rply/grammar.py:56-60 | the loop over the right-hand side computes RecordAll |
| Grammars.UnusedKeys | rply/grammar.py:88-94 | yields exactly the keys with an empty list that are not excluded; no duplicates when the keys are distinct |
| Grammars.UnusedInOrder | rply/grammar.py:88-94 | over a dict in key order, the unused keys are distinct and exactly those with an empty list that are not excluded |
| Grammars.EmptyGrammarWellFormed | rply/grammar.py:17-33 | a grammar holding only its terminals and `error` is well formed |
| Grammars.Grammar.constructor | rply/grammar.py:17-33 | see "Grammar constructor" below |
| Grammars.AppendedRule | rply/grammar.py:53-65 | appending rule number `len(productions)` and recording its uses gives RuleAppended (see "Use tables" below) |
| Grammars.AppendKeepsWellFormed | rply/grammar.py:35-65 | appending a rule whose name is not a terminal keeps the grammar well formed |
| Grammars.Grammar.AppendRule | rply/grammar.py:62-65 | builds the rule object and installs it with the recorded tables: RuleAppended holds and the rule object is fresh |
| Grammars.Grammar.AddProduction | rply/grammar.py:35-65 | see "add_production" below |
| Grammars.Grammar.SetPrecedence | rply/grammar.py:67-76 | a second declaration for a terminal is refused first; then an associativity other than left/right/nonassoc; otherwise `(assoc, level)` is stored, with the messages of the source |
| Grammars.StartKeepsWellFormed | rply/grammar.py:78-86 | installing `S' -> start` in slot 0 and recording its use of `start` keeps the grammar well formed |
| Grammars.Grammar.SetStart | rply/grammar.py:78-86 | see "set_start" below |
| Grammars.Grammar.UnusedTerminals | rply/grammar.py:88-91 | distinct; exactly the terminals other than `error` with an empty usage list |
| Grammars.Grammar.UnusedProductions | rply/grammar.py:93-94 | distinct; exactly the nonterminals with an empty usage list |
| Grammars.FirstInitCoversRules | rply/grammar.py:146-154 | after the set-up of `compute_first`, every symbol of every listed rule has a FIRST entry |
| Grammars.FirstTableCoversRules | rply/grammar.py:146-163 | after `compute_first`, every symbol of every rule in slots 1.. has a FIRST entry |
| Grammars.Rules | rply/grammar.py:175 | `productions[1:]` without the None type: same length and the same objects |
| Grammars.Grammar.ComputeFirst | rply/grammar.py:146-163 | see "compute_first" below |
| Grammars.Grammar.ComputeFollow | rply/grammar.py:165-190 | the new FOLLOW table is FirstFollow.ComputeFollow over the nonterminals, the start symbol and `productions[1:]` |
| FirstFollow.FirstFromFacts | rply/grammar.py:130-144 | the loop of `_first` from an accumulator: see "_first" below |
| FirstFollow.SeqFirstCharacterization | rply/grammar.py:130-144 | see "_first" below |
| FirstFollow.SeqFirstOfNothing | rply/grammar.py:142-143 | `_first([])` is `["<empty>"]` |
| FirstFollow.SeqFirstWithinTable | rply/grammar.py:130-144 | every member of `_first(beta)` is `<empty>` or drawn from the FIRST table |
| FirstFollow.FirstInit | rply/grammar.py:147-153 | the set-up of `compute_first` gives entries for the old keys, the terminals, `$end` and the nonterminals |
| FirstFollow.FirstPassProds | rply/grammar.py:159-163 | see "FIRST pass" below |
| FirstFollow.FirstPass | rply/grammar.py:158-163 | one pass only adds pairs, only at nonterminals; it grows the table strictly when it reports a change; it leaves it unchanged otherwise |
| FirstFollow.FirstPassMissing | rply/grammar.py:158-159 | a pass raises KeyError iff some nonterminal it visits has no `prod_names` entry |
| FirstFollow.FirstPassStable | rply/grammar.py:155-163 | a pass without change found FIRST of every production inside FIRST of its nonterminal |
| FirstFollow.FirstFixpoint | rply/grammar.py:155-163 | see "FIRST fixpoint" below |
| FirstFollow.FirstOfTerminal | rply/grammar.py:147-148 | after `compute_first`, a terminal that is not a nonterminal maps to `[t]` |
| FirstFollow.FirstIsClosed | rply/grammar.py:146-163 | `compute_first` raises iff some nonterminal has no rules; otherwise FIRST of every rule's right-hand side is inside FIRST of its nonterminal |
| FirstFollow.SeqFirstGrows | rply/grammar.py:130-144 | `_first` of a sequence only gains members when every symbol's FIRST list gains members |
| FirstFollow.SoundFirstFixpoint | rply/grammar.py:155-163 | the `while changed` loop keeps the invariant that every member of FIRST of a nonterminal lies in FIRST of one of its rules |
| FirstFollow.FirstIsExact | rply/grammar.py:146-163 | after `compute_first`, every member of FIRST of a nonterminal comes from FIRST of one of its rules; with FirstIsClosed, FIRST of a nonterminal is exactly the union of FIRST of its rules |
| FirstFollow.EmptyFromSomeRule | rply/grammar.py:130-144 | when FIRST of a nonterminal is exactly the union over its rules, it holds `<empty>` iff some rule has only nullable symbols |
| FirstFollow.FirstEmptyIffNullableRule | rply/grammar.py:146-163 | after `compute_first` succeeds, `<empty>` is in FIRST of a nonterminal iff some rule of it has only symbols whose FIRST holds `<empty>` |
| FirstFollow.ComputeFirstIdempotent | rply/grammar.py:146-163 | running `compute_first` again on its own result gives the same outcome |
| FirstFollow.FollowInit | rply/grammar.py:166-170 | the set-up of `compute_follow` gives entries for the old keys, the nonterminals and the start symbol |
| FirstFollow.FollowAtFacts | rply/grammar.py:177-190 | see "FOLLOW step" below |
| FirstFollow.FollowPassSyms | rply/grammar.py:176-190 | the position loop over one rule only adds pairs, only at nonterminals, with members from FOLLOW or FIRST; it grows strictly when it reports a change; it adds no `<empty>` |
| FirstFollow.FollowPass | rply/grammar.py:175-190 | one pass over all rules: the same additions-only, strict-growth and no-`<empty>` facts |
| FirstFollow.FollowPassSymsStable | rply/grammar.py:176-190 | a position loop without change found the FOLLOW conditions met at every nonterminal it visited |
| FirstFollow.FollowPassStable | rply/grammar.py:173-190 | a pass without change found the FOLLOW conditions met at every nonterminal occurrence of every rule |
| FirstFollow.FollowFixpoint | rply/grammar.py:172-190 | the `while added` loop terminates (measured by the pairs still addable); it keeps keys; it only adds at nonterminals; it ends with the FOLLOW conditions met everywhere |
| FirstFollow.EndFollowsStart | rply/grammar.py:169-170 | `$end` is in FOLLOW of the start symbol |
| FirstFollow.FollowHasNoEmpty | rply/grammar.py:165-190 | every nonterminal has a FOLLOW entry and none contains `<empty>` |
| FirstFollow.FollowIsClosed | rply/grammar.py:165-190 | see "FOLLOW conditions" below |
| FirstFollow.ComputeFollowIdempotent | rply/grammar.py:165-190 | running `compute_follow` again on its own result gives the same table |
| ComputeSets.AppendAbsent | rply/grammar.py:160-163 | the append-if-absent loop computes AppendMissing; it reports growth iff some element was missing |
| ComputeSets.FirstOf | rply/grammar.py:130-144 | the loops of `_first` compute SeqFirst |
| ComputeSets.InitFirst | rply/grammar.py:147-153 | the set-up loops of `compute_first` compute FirstInit |
| ComputeSets.FirstPassOver | rply/grammar.py:159-163 | the loop over the rules of one nonterminal computes FirstPassProds |
| ComputeSets.FirstPassAll | rply/grammar.py:158-163 | the loop over the nonterminals computes FirstPass, and stops at the first nonterminal without rules |
| ComputeSets.RunFirst | rply/grammar.py:146-163 | `compute_first` as written computes FirstFollow.ComputeFirst |
| ComputeSets.AppendNonEmpty | rply/grammar.py:180-185 | appends the missing non-`<empty>` members; reports whether `<empty>` was seen and whether the list grew |
| ComputeSets.FollowStep | rply/grammar.py:177-190 | the body for a nonterminal at position i computes FollowAt; it reports growth iff the table changed |
| ComputeSets.FollowOverRule | rply/grammar.py:176-190 | the position loop over one rule computes FollowPassSyms |
| ComputeSets.FollowPassAll | rply/grammar.py:175-190 | the loop over `productions[1:]` computes FollowPass |
| ComputeSets.InitFollow | rply/grammar.py:166-170 | the set-up loop of `compute_follow` computes FollowInit |
| ComputeSets.RunFollow | rply/grammar.py:165-190 | `compute_follow` as written computes FirstFollow.ComputeFollow |

### Longer entries

**Lexer token fields** (Lexers.NextEmitsFirstMatchingRule). The emitted token has:
- the name of the matching rule;
- the text of the match;
- its index at the match start;
- the line counted before the match;
- the column of the match start.

The cursor moves to the match end, and its column is the start column.

**Lexer scenarios.**
- PositionAcrossLines: "2 +\n    37" with whitespace ignored gives the tokens at (line 1, column 1), then (1, 3), then (2, 5), then the end.
- NewlinePositions: " \n " with NEWLINE and SPACE rules gives the tokens at (1, 1), then (1, 2), then (2, 1).

**LR item fields** (Productions.LRItem.constructor). An item copies name, number and unique symbols from its rule. Its symbols are the rule's with "." inserted at n. It stores `lr_index` n, `lr_before` and `lr_after`. Its `lr_next` starts as None; Python leaves the attribute unset until `build_lritems` assigns it.

**Item facts** (Items.ItemFacts).
- An item is one symbol longer than its rule.
- The dot sits at `lr_index`, and removing it gives the rule back.
- `lr_before` is the symbol left of the dot; for item 0 it is the last symbol, or None for an empty rule.
- `lr_after` is [] at the end.
- Every rule in `lr_after` is a rule of the symbol after the dot.

**Rule precedence** (Grammars.RulePrecedence).
- When a precedence is named explicitly, the result is defined iff that name is declared, and then it is the declared precedence.
- Otherwise the result is always defined.
- Without a terminal on the right-hand side the result is `("right", 0)`.
- Otherwise the rule takes the precedence declared for its rightmost terminal, or `("right", 0)` when that terminal has none declared.

**Use tables** (Grammars.AddUsesFacts and Grammars.AppendedRule). Filing the name and walking the right-hand side:
- keeps the terminal keys;
- appends the rule number to each symbol's list once per occurrence;
- makes the nonterminals exactly the old ones, plus the name, plus the non-terminal symbols, in order of first appearance.

**Grammar constructor** (Grammars.Grammar.constructor). Slot 0 is None and there are no rules. Every given terminal and `error` has an empty usage list, in declaration order. The other tables are empty, and the grammar is well formed.

**add_production** (Grammars.Grammar.AddProduction).
- A terminal as rule name raises "Illegal rule name …", with all tables unchanged.
- An undeclared explicit precedence raises "Precedence … doesn't exist", with all tables unchanged.
- Otherwise rule number `len(productions)` is appended.
  - It carries RulePrecedence.
  - It is filed under its name, and its uses are recorded (see "Use tables").
  - The grammar stays well formed.

**set_start** (Grammars.Grammar.SetStart).
- With no rule yet, it raises "Grammar must contain at least one rule" with nothing changed.
- Otherwise it installs `S' -> [name of rule 1]`, numbered 0 with the default precedence, in slot 0.
  - The other slots are unchanged.
  - 0 is appended to that name's usage list.
  - `start` is set to that name.

**compute_first** (Grammars.Grammar.ComputeFirst).
- The new FIRST table is FirstFollow.ComputeFirst over the terminals and nonterminals in declaration order.
- The KeyError is raised iff some nonterminal has no rules.
- Afterwards every rule symbol has a FIRST entry.

**_first** (FirstFollow.FirstFromFacts and FirstFollow.SeqFirstCharacterization).
- The result has no duplicates.
- It holds `<empty>` iff every symbol is nullable.
- Its other members are exactly the FIRST members of the symbols up to and including the first one that is not nullable.
- FirstFromFacts additionally keeps the members of the accumulator it starts from.

**FIRST pass** (FirstFollow.FirstPassProds). The pass over one nonterminal's rules:
- changes only that nonterminal's list, and only adds to it;
- grows the table strictly when it reports a change;
- when it reports no change, it found FIRST of each rule already inside the list.

**FIRST fixpoint** (FirstFollow.FirstFixpoint). The `while changed` loop:
- terminates, measured by the pairs still addable;
- keeps the keys, and changes only nonterminals;
- raises iff a nonterminal has no rules;
- otherwise ends closed: FIRST of each rule lies inside FIRST of its nonterminal.

**FOLLOW step** (FirstFollow.FollowAtFacts). One position step:
- changes only FOLLOW(B), and only adds to it;
- takes new members from FIRST or FOLLOW;
- grows strictly when it changes the table;
- adds no `<empty>`;
- when it changes nothing, the FOLLOW conditions already hold at that position.

**FOLLOW conditions** (FirstFollow.FollowIsClosed). For a nonterminal B at position j of a rule `A -> …`:
- the non-empty FIRST members of what follows B are in FOLLOW(B);
- when that rest is nullable, or B is last, FOLLOW(A) is inside FOLLOW(B).

## Left out

- Regular expressions.
  - A compiled pattern is an oracle, `(string, nat) -> Option<nat>`, that gives the end of the anchored match. Its only constraint is that the end lies between `pos` and the end of the string.
  - Python's `re` engine and its flags are not modelled.
  - LexerExamples uses small hand-written patterns for `\d+`, `\+`, `\s+` and single characters.
- Lexers.LexerStream.Next: requires that no ignore rule matches the empty string before the end of the input (`IgnoreAdvances`). In the source such a rule makes `next()` loop forever, and a non-terminating call has no result to state.
- The column `_update_pos` returns (Lexers.LexerStream.UpdatePos) is computed from the START of the match (`rfind("\n", 0, match.start)`), as `rply/lexer.py:37-41` and `tests/test_lexer.py` do.
- The test files call attributes that `rply/token.py` does not define: `position`, `index`, `line`, `column`, `get_value` and `get_position`. The model follows `token.py`, whose fields are `source_pos`, `idx`, `lineno` and `colno`, with getters `getsourcepos` and `getstr`.
- Grammars.Grammar.SetStart: the `productions[1] is None` check is not modelled. Only slot 0 is ever None, and slot 1 is filled by `add_production`, so the check can never fire.
- FirstFollow.FollowInit: with `start` None the source writes a `follow[None]` entry. The model has no None key; it skips that entry, which no later step reads.
- Grammars.Grammar.ComputeFollow: requires FIRST entries for every right-hand-side symbol. The source looks up only the symbols after a nonterminal; a missing entry there would be its KeyError. Grammars.Grammar.ComputeFirst guarantees these entries. The KeyError path of `compute_follow` is therefore not modelled.
- Iterating the live list `follow[p.name]` while appending to `follow[B]` is modelled as iterating a snapshot. The two differ only when `B == p.name`, and then every appended member is already in the list.
- Productions.Production.constructor: `unique_syms` is `list(set(prod))`, whose order Python leaves unspecified. It is modelled as the set of the symbols.
- The semantic action `func` of a rule is not modelled. Nor are `lookaheads`, `lr0_added`, `reduced` or `set_lr_next`; `getlength` and `__len__` are the `Length()` functions.
- Grammars.Grammar.BuildLRItems: `lr_after` is the very list object held in `prod_names`, so in Python a later `add_production` would show through it. The model stores the list's value.
- `_keepalive` exists so that `id(key)` is not reused after garbage collection. Object references stand for `id(key)`, and garbage collection is not modelled.
- Python's iterator protocol (`__iter__`, `__next__`, StopIteration as an exception) is modelled as the `EndOfStream` result of `Next`.
- `__repr__` methods, `rply/errors.py` and the message formatting of errors are not modelled. `LexingError` keeps its message and position.
- A nonterminal's FIRST holds `<empty>` as soon as ONE of its rules is nullable (FirstFollow.FirstEmptyIffNullableRule), which is what `rply/grammar.py:155-163` computes. Requiring every rule to be nullable would be stronger than the code, and it is not stated.
- Integers are unbounded, as Python's are.
