/** The `Grammar` class of rply/grammar.py: the tables a parser generator builds from its rules. */
module Grammars {
  import opened Wrappers
  import opened Lists
  import opened Utils
  import opened Productions
  import opened FirstFollow
  import opened ComputeSets
  import opened Items

  /** `ParserGeneratorError(message)`, or the `KeyError` a lookup of a missing key raises. */
  datatype GrammarError = ParserGeneratorError(message: string) | KeyError(key: string)

  /** Position `i` holds a terminal and no later position does. */
  ghost predicate RightmostTerminalAt(syms: seq<string>, terminals: map<string, seq<int>>, i: int)
  {
    && 0 <= i < |syms| && syms[i] in terminals
    && forall j :: i < j < |syms| ==> syms[j] !in terminals
  }

  /** `rightmost_terminal(symbols, terminals)`: the last symbol of `syms` that is a terminal. */
  function RightmostTerminal(syms: seq<string>, terminals: map<string, seq<int>>): (r: Option<string>)
    ensures r.None? <==> forall i :: 0 <= i < |syms| ==> syms[i] !in terminals
    ensures r.Some? ==> exists i :: RightmostTerminalAt(syms, terminals, i) && syms[i] == r.value
  {
    if syms == [] then None
    else
      var n := |syms| - 1;
      if syms[n] in terminals then
        assert RightmostTerminalAt(syms, terminals, n);
        Some(syms[n])
      else
        var init := syms[..n];
        var r := RightmostTerminal(init, terminals);
        assert forall i :: 0 <= i < n ==> init[i] == syms[i];
        assert r.Some? ==> exists i :: RightmostTerminalAt(syms, terminals, i) && syms[i] == r.value by {
          if r.Some? {
            var i :| RightmostTerminalAt(init, terminals, i) && init[i] == r.value;
            assert RightmostTerminalAt(syms, terminals, i);
          }
        }
        r
  }

  /**
   * The precedence `add_production` gives a rule: the declared one when it
   * is named explicitly (None when it is not declared), otherwise the
   * declared precedence of the rightmost terminal, defaulting to
   * ("right", 0) when there is no terminal or it has none.
   */
  function RulePrecedence(declared: map<string, Precedence>, terminals: map<string, seq<int>>,
                          syms: seq<string>, explicit: Option<string>): (r: Option<Precedence>)
    ensures explicit.Some? ==> (r.Some? <==> explicit.value in declared)
    ensures explicit.Some? && r.Some? ==> r.value == declared[explicit.value]
    ensures explicit.None? ==> r.Some?
    ensures explicit.None? && (forall i :: 0 <= i < |syms| ==> syms[i] !in terminals) ==> r == Some(DefaultPrecedence)
    ensures explicit.None? && r.value != DefaultPrecedence ==>
              exists i :: RightmostTerminalAt(syms, terminals, i) && syms[i] in declared && r.value == declared[syms[i]]
    ensures explicit.None? ==> forall i :: RightmostTerminalAt(syms, terminals, i) ==>
              r == Some(if syms[i] in declared then declared[syms[i]] else DefaultPrecedence)
  {
    match explicit
    case Some(name) => if name in declared then Some(declared[name]) else None
    case None =>
      match RightmostTerminal(syms, terminals)
      case None => Some(DefaultPrecedence)
      case Some(t) =>
        assert forall i :: RightmostTerminalAt(syms, terminals, i) ==> syms[i] == t by {
          var j :| RightmostTerminalAt(syms, terminals, j) && syms[j] == t;
          forall i | RightmostTerminalAt(syms, terminals, i) ensures syms[i] == t {
            RightmostTerminalUnique(syms, terminals, i, j);
          }
        }
        Some(if t in declared then declared[t] else DefaultPrecedence)
  }

  /** At most one position is the rightmost terminal. */
  lemma RightmostTerminalUnique(syms: seq<string>, terminals: map<string, seq<int>>, i: int, j: int)
    requires RightmostTerminalAt(syms, terminals, i) && RightmostTerminalAt(syms, terminals, j)
    ensures i == j
  {
  }

  /** `[t for t in syms if t not in terminals]`: the symbols `add_production` files under nonterminals. */
  function NonterminalSyms(syms: seq<string>, terminals: map<string, seq<int>>): (r: seq<string>)
    ensures forall x :: x in r <==> x in syms && x !in terminals
  {
    if syms == [] then []
    else
      var init := NonterminalSyms(syms[..|syms| - 1], terminals);
      var last := syms[|syms| - 1];
      assert syms == syms[..|syms| - 1] + [last];
      if last in terminals then init else init + [last]
  }

  /**
   * The usage lists `after` are those of `before` (or empty lists for new
   * keys) with `pnumber` added once for each occurrence of the key in `syms`.
   */
  ghost predicate UsesRecorded(before: map<string, seq<int>>, after: map<string, seq<int>>, syms: seq<string>, pnumber: int)
  {
    forall x {:trigger after[x]} :: x in after ==> after[x] == (if x in before then before[x] else []) + Repeat(pnumber, Count(syms, x))
  }

  /** Recording one occurrence of a key that has a list. */
  lemma UsesStep(before: map<string, seq<int>>, after: map<string, seq<int>>, done: seq<string>, t: string, pnumber: int)
    requires UsesRecorded(before, after, done, pnumber) && t in after
    ensures UsesRecorded(before, after[t := after[t] + [pnumber]], done + [t], pnumber)
  {
    forall x | x in after ensures Count(done + [t], x) == Count(done, x) + (if t == x then 1 else 0) {
      CountSnoc(done, t, x);
    }
  }

  /** An occurrence of a symbol that is not a key of these lists leaves them as they are. */
  lemma UsesSkip(before: map<string, seq<int>>, after: map<string, seq<int>>, done: seq<string>, t: string, pnumber: int)
    requires UsesRecorded(before, after, done, pnumber) && t !in after
    ensures UsesRecorded(before, after, done + [t], pnumber)
  {
    forall x | x in after ensures Count(done + [t], x) == Count(done, x) {
      CountSnoc(done, t, x);
    }
  }

  /** A new key that has not occurred yet starts with the empty list. */
  lemma UsesNewKey(before: map<string, seq<int>>, after: map<string, seq<int>>, done: seq<string>, t: string, pnumber: int)
    requires UsesRecorded(before, after, done, pnumber) && t !in before && t !in done
    ensures UsesRecorded(before, after[t := []], done, pnumber)
  {
    CountZero(done, t);
  }

  lemma NonterminalSymsSnoc(done: seq<string>, t: string, terminals: map<string, seq<int>>)
    ensures NonterminalSyms(done + [t], terminals)
         == if t in terminals then NonterminalSyms(done, terminals) else NonterminalSyms(done, terminals) + [t]
  {
    assert (done + [t])[..|done|] == done;
  }

  /** The three tables `add_production` updates while it walks a right-hand side. */
  datatype Uses = Uses(terms: map<string, seq<int>>, nts: map<string, seq<int>>, ntOrder: seq<string>)

  /**
   * One turn of the loop of `add_production`: a terminal gets `pnumber`
   * added to its list; any other symbol is filed under nonterminals
   * (appended to their key order when new) and gets `pnumber` added.
   */
  function RecordUse(u: Uses, t: string, pnumber: int): Uses
  {
    if t in u.terms then u.(terms := u.terms[t := u.terms[t] + [pnumber]])
    else
      var uses := if t in u.nts then u.nts[t] else [];
      var order := if t in u.nts then u.ntOrder else u.ntOrder + [t];
      u.(nts := u.nts[t := uses + [pnumber]], ntOrder := order)
  }

  /** The whole loop of `add_production` over `syms`. */
  function RecordAll(u: Uses, syms: seq<string>, pnumber: int): Uses
  {
    if syms == [] then u
    else RecordUse(RecordAll(u, syms[..|syms| - 1], pnumber), syms[|syms| - 1], pnumber)
  }

  /** The loop adds `pnumber` to a terminal's list once per occurrence and adds no terminal. */
  lemma {:induction false} RecordAllTerms(u: Uses, syms: seq<string>, pnumber: int)
    ensures var r := RecordAll(u, syms, pnumber);
            r.terms.Keys == u.terms.Keys && UsesRecorded(u.terms, r.terms, syms, pnumber)
  {
    if syms != [] {
      var done := syms[..|syms| - 1];
      var t := syms[|syms| - 1];
      assert syms == done + [t];
      RecordAllTerms(u, done, pnumber);
      var v := RecordAll(u, done, pnumber);
      if t in v.terms {
        UsesStep(u.terms, v.terms, done, t, pnumber);
      } else {
        UsesSkip(u.terms, v.terms, done, t, pnumber);
      }
    }
  }

  /** The loop files exactly the non-terminal symbols and adds `pnumber` to their lists once per occurrence. */
  lemma {:induction false} RecordAllNonterminals(u: Uses, syms: seq<string>, pnumber: int)
    requires forall x :: x in u.terms ==> x !in u.nts
    ensures var r := RecordAll(u, syms, pnumber);
            && (forall x :: x in r.nts <==> x in u.nts || (x in syms && x !in u.terms))
            && UsesRecorded(u.nts, r.nts, syms, pnumber)
  {
    if syms != [] {
      var done := syms[..|syms| - 1];
      var t := syms[|syms| - 1];
      assert syms == done + [t];
      RecordAllNonterminals(u, done, pnumber);
      RecordAllTerms(u, done, pnumber);
      var v := RecordAll(u, done, pnumber);
      if t in v.terms {
        UsesSkip(u.nts, v.nts, done, t, pnumber);
      } else if t in v.nts {
        UsesStep(u.nts, v.nts, done, t, pnumber);
      } else {
        UsesNewKey(u.nts, v.nts, done, t, pnumber);
        UsesStep(u.nts, v.nts[t := []], done, t, pnumber);
        var none: seq<int> := [];
        assert none + [pnumber] == [pnumber];
      }
    }
  }

  /** The loop extends the nonterminals' key order by the new ones, in order of first occurrence. */
  lemma {:induction false} RecordAllOrder(u: Uses, syms: seq<string>, pnumber: int)
    requires KeyOrder(u.ntOrder, u.nts)
    ensures var r := RecordAll(u, syms, pnumber);
            r.ntOrder == AppendMissing(u.ntOrder, NonterminalSyms(syms, u.terms)) && KeyOrder(r.ntOrder, r.nts)
  {
    if syms != [] {
      var done := syms[..|syms| - 1];
      var t := syms[|syms| - 1];
      assert syms == done + [t];
      RecordAllOrder(u, done, pnumber);
      RecordAllTerms(u, done, pnumber);
      var v := RecordAll(u, done, pnumber);
      NonterminalSymsSnoc(done, t, u.terms);
      if t !in v.terms {
        AppendMissingSnoc(u.ntOrder, NonterminalSyms(done, u.terms), t);
        KeyOrderAdd(v.ntOrder, v.nts, t, (if t in v.nts then v.nts[t] else []) + [pnumber]);
      }
    }
  }

  /** Setting a key keeps a key order when a new key is appended to it. */
  lemma KeyOrderAdd<V>(order: seq<string>, m: map<string, V>, t: string, x: V)
    requires KeyOrder(order, m)
    ensures KeyOrder(if t in m then order else order + [t], m[t := x])
  {
  }

  /** `nonterminals.setdefault(name, [])`, which `add_production` does before its loop. */
  function FileName(u: Uses, name: string): Uses
  {
    if name in u.nts then u else u.(nts := u.nts[name := []], ntOrder := u.ntOrder + [name])
  }

  /**
   * The tables `r` are those given after rule `pnumber`, `name -> syms`,
   * has been recorded: the rule number is added to each symbol's list once
   * per occurrence, the name and the non-terminal symbols become
   * nonterminals in order of first appearance, and no terminal is added.
   */
  ghost predicate UsesAdded(terms: map<string, seq<int>>, nts: map<string, seq<int>>, ntOrder: seq<string>,
                            name: string, syms: seq<string>, pnumber: int, r: Uses)
  {
    && r.terms.Keys == terms.Keys
    && UsesRecorded(terms, r.terms, syms, pnumber)
    && (forall x :: x in r.nts <==> x in nts || x == name || (x in syms && x !in terms))
    && UsesRecorded(nts, r.nts, syms, pnumber)
    && r.ntOrder == AppendMissing(ntOrder, [name] + NonterminalSyms(syms, terms))
    && KeyOrder(r.ntOrder, r.nts)
  }

  /**
   * Filing the rule name and then recording its right-hand side adds the
   * rule number to each symbol's list once per occurrence, adds the name and
   * the non-terminal symbols to the nonterminals in order of first
   * appearance, and adds no terminal.
   */
  lemma AddUsesFacts(terms: map<string, seq<int>>, nts: map<string, seq<int>>, ntOrder: seq<string>,
                     name: string, syms: seq<string>, pnumber: int)
    requires KeyOrder(ntOrder, nts) && (forall x :: x in terms ==> x !in nts) && name !in terms
    ensures UsesAdded(terms, nts, ntOrder, name, syms, pnumber, RecordAll(FileName(Uses(terms, nts, ntOrder), name), syms, pnumber))
  {
    var u0 := FileName(Uses(terms, nts, ntOrder), name);
    RecordAllTerms(u0, syms, pnumber);
    RecordAllNonterminals(u0, syms, pnumber);
    RecordAllOrder(u0, syms, pnumber);
    AppendMissingPrepend(ntOrder, name, NonterminalSyms(syms, terms));
    var r := RecordAll(u0, syms, pnumber);
    forall x | x in r.nts
      ensures r.nts[x] == (if x in nts then nts[x] else []) + Repeat(pnumber, Count(syms, x))
    {
    }
  }

  /** The loop of `add_production` over the right-hand side, on the tables it updates. */
  method RecordUses(u: Uses, syms: seq<string>, pnumber: int) returns (r: Uses)
    ensures r == RecordAll(u, syms, pnumber)
  {
    r := u;
    var k := 0;
    while k < |syms|
      invariant 0 <= k <= |syms|
      invariant r == RecordAll(u, syms[..k], pnumber)
    {
      var t := syms[k];
      assert syms[..k + 1][..k] == syms[..k];
      if t in r.terms {
        r := r.(terms := r.terms[t := r.terms[t] + [pnumber]]);
      } else {
        if t !in r.nts {
          r := r.(nts := r.nts[t := []], ntOrder := r.ntOrder + [t]);
        }
        r := r.(nts := r.nts[t := r.nts[t] + [pnumber]]);
      }
      k := k + 1;
    }
    assert syms[..k] == syms;
  }

  /** `[k for k, v in items if not v and k not in excluded]`. */
  function UnusedKeys(items: seq<(string, seq<int>)>, excluded: set<string>): (r: seq<string>)
    ensures forall k :: k in r <==> exists i :: 0 <= i < |items| && items[i].0 == k && items[i].1 == [] && k !in excluded
    ensures (forall i, j :: 0 <= i < j < |items| ==> items[i].0 != items[j].0) ==> Distinct(r)
  {
    if items == [] then []
    else
      var init := UnusedKeys(items[..|items| - 1], excluded);
      var last := items[|items| - 1];
      assert forall k :: k in init ==> exists i :: 0 <= i < |items| - 1 && items[i].0 == k;
      if last.1 == [] && last.0 !in excluded then init + [last.0] else init
  }

  /** The unused keys of a dict walked in its key order: each once, and exactly those with an empty list that are not excluded. */
  lemma UnusedInOrder(order: seq<string>, m: map<string, seq<int>>, excluded: set<string>)
    requires KeyOrder(order, m)
    ensures Distinct(UnusedKeys(ItemsOf(order, m), excluded))
    ensures forall t :: t in UnusedKeys(ItemsOf(order, m), excluded) <==> t in m && m[t] == [] && t !in excluded
  {
    var items := ItemsOf(order, m);
    assert forall i :: 0 <= i < |items| ==> items[i].0 == order[i];
    forall t | t in m ensures exists i :: 0 <= i < |items| && items[i].0 == t {
      var i :| 0 <= i < |order| && order[i] == t;
      assert items[i].0 == t;
    }
  }

  /** The key order of a dict lists each key exactly once. */
  ghost predicate KeyOrder<V>(order: seq<string>, m: map<string, V>)
  {
    Distinct(order) && forall k :: k in order <==> k in m
  }

  /** Every symbol is a known terminal or nonterminal. */
  ghost predicate Classified(syms: seq<string>, terms: map<string, seq<int>>, nts: map<string, seq<int>>)
  {
    forall i :: 0 <= i < |syms| ==> syms[i] in terms || syms[i] in nts
  }

  /**
   * What the tables of a grammar keep between calls: dict key orders, the
   * `error` terminal, terminals and nonterminals apart, every rule numbered
   * by its slot and filed under its name, and every symbol classified.
   */
  ghost predicate WellFormed(prods: seq<Production?>, names: map<string, seq<Production>>,
                             terms: map<string, seq<int>>, termOrder: seq<string>,
                             nts: map<string, seq<int>>, ntOrder: seq<string>, start: Option<string>)
  {
    && |prods| >= 1
    && KeyOrder(termOrder, terms)
    && KeyOrder(ntOrder, nts)
    && "error" in terms
    && (forall k :: k in terms ==> k !in nts)
    && (forall k :: 1 <= k < |prods| ==>
          && prods[k] != null
          && prods[k].number == k
          && prods[k].name in nts
          && Classified(prods[k].prod, terms, nts))
    && (forall n :: n in names ==> n in nts)
    && (forall n, i :: n in names && 0 <= i < |names[n]| ==>
          names[n][i].name == n && Classified(names[n][i].prod, terms, nts))
    && (start.Some? ==> start.value in nts)
  }

  /** Classification survives growing the tables. */
  lemma ClassifiedGrows(syms: seq<string>, terms: map<string, seq<int>>, nts: map<string, seq<int>>,
                        terms': map<string, seq<int>>, nts': map<string, seq<int>>)
    requires Classified(syms, terms, nts) && terms.Keys <= terms'.Keys && nts.Keys <= nts'.Keys
    ensures Classified(syms, terms', nts')
  {
  }

  /**
   * `prods`, `names` and `u` are the tables `prods0`, `names0`, `terms0`,
   * `nts0` and `ntOrder0` after rule number `|prods0|`, `name -> syms` with
   * precedence `prec`, has been appended: it is filed under its name and
   * its uses are recorded.
   */
  ghost predicate RuleAppended(prods0: seq<Production?>, names0: map<string, seq<Production>>,
                               terms0: map<string, seq<int>>, nts0: map<string, seq<int>>, ntOrder0: seq<string>,
                               name: string, syms: seq<string>, prec: Precedence,
                               prods: seq<Production?>, names: map<string, seq<Production>>, u: Uses)
  {
    var pnumber := |prods0|;
    && |prods| == pnumber + 1
    && prods[pnumber] != null
    && prods == prods0 + [prods[pnumber]]
    && prods[pnumber].number == pnumber
    && prods[pnumber].name == name
    && prods[pnumber].prod == syms
    && prods[pnumber].prec == prec
    && names == names0[name := (if name in names0 then names0[name] else []) + [prods[pnumber] as Production]]
    && UsesAdded(terms0, nts0, ntOrder0, name, syms, pnumber, u)
  }

  /** Appending the rule object `p`, numbered by its slot, and recording its uses gives RuleAppended. */
  lemma AppendedRule(prods0: seq<Production?>, names0: map<string, seq<Production>>,
                     terms0: map<string, seq<int>>, nts0: map<string, seq<int>>, ntOrder0: seq<string>, p: Production)
    requires KeyOrder(ntOrder0, nts0) && (forall x :: x in terms0 ==> x !in nts0) && p.name !in terms0
    requires p.number == |prods0|
    ensures RuleAppended(prods0, names0, terms0, nts0, ntOrder0, p.name, p.prod, p.prec, prods0 + [p],
                         names0[p.name := (if p.name in names0 then names0[p.name] else []) + [p]],
                         RecordAll(FileName(Uses(terms0, nts0, ntOrder0), p.name), p.prod, p.number))
  {
    AddUsesFacts(terms0, nts0, ntOrder0, p.name, p.prod, p.number);
    assert (prods0 + [p])[|prods0|] == p;
  }

  /** Appending a rule keeps the tables well formed. */
  lemma AppendKeepsWellFormed(prods0: seq<Production?>, names0: map<string, seq<Production>>,
                              terms0: map<string, seq<int>>, termOrder: seq<string>,
                              nts0: map<string, seq<int>>, ntOrder0: seq<string>, start: Option<string>,
                              name: string, syms: seq<string>, prec: Precedence,
                              prods: seq<Production?>, names: map<string, seq<Production>>, u: Uses)
    requires WellFormed(prods0, names0, terms0, termOrder, nts0, ntOrder0, start) && name !in terms0
    requires RuleAppended(prods0, names0, terms0, nts0, ntOrder0, name, syms, prec, prods, names, u)
    ensures WellFormed(prods, names, u.terms, termOrder, u.nts, u.ntOrder, start)
  {
    UsesAddedGrows(terms0, nts0, ntOrder0, name, syms, |prods0|, u);
    var p := prods[|prods0|] as Production;
    WellFormedGrows(prods0, names0, terms0, termOrder, nts0, ntOrder0, start, p, prods, names, u.terms, u.nts, u.ntOrder);
  }

  /** Recording a rule's uses keeps the terminals, only adds nonterminals (its name among them), and classifies its symbols. */
  lemma UsesAddedGrows(terms: map<string, seq<int>>, nts: map<string, seq<int>>, ntOrder: seq<string>,
                       name: string, syms: seq<string>, pnumber: int, r: Uses)
    requires UsesAdded(terms, nts, ntOrder, name, syms, pnumber, r) && name !in terms
    requires forall k :: k in terms ==> k !in nts
    ensures r.terms.Keys == terms.Keys && nts.Keys <= r.nts.Keys && name in r.nts
    ensures forall k :: k in r.terms ==> k !in r.nts
    ensures Classified(syms, r.terms, r.nts) && KeyOrder(r.ntOrder, r.nts)
  {
  }

  /** A well-formed grammar with rule `p` appended in the next slot and filed under its name stays well-formed over tables that grew. */
  lemma WellFormedGrows(prods0: seq<Production?>, names0: map<string, seq<Production>>,
                        terms0: map<string, seq<int>>, termOrder: seq<string>,
                        nts0: map<string, seq<int>>, ntOrder0: seq<string>, start: Option<string>, p: Production,
                        prods: seq<Production?>, names: map<string, seq<Production>>,
                        terms: map<string, seq<int>>, nts: map<string, seq<int>>, ntOrder: seq<string>)
    requires WellFormed(prods0, names0, terms0, termOrder, nts0, ntOrder0, start)
    requires prods == prods0 + [p] && p.number == |prods0|
    requires names == names0[p.name := (if p.name in names0 then names0[p.name] else []) + [p]]
    requires terms.Keys == terms0.Keys && nts0.Keys <= nts.Keys && p.name in nts
    requires (forall k :: k in terms ==> k !in nts) && Classified(p.prod, terms, nts) && KeyOrder(ntOrder, nts)
    ensures WellFormed(prods, names, terms, termOrder, nts, ntOrder, start)
  {
    forall k | 1 <= k < |prods|
      ensures prods[k] != null && prods[k].number == k && prods[k].name in nts
      ensures Classified(prods[k].prod, terms, nts)
    {
      if k < |prods0| {
        assert prods[k] == prods0[k];
        ClassifiedGrows(prods0[k].prod, terms0, nts0, terms, nts);
      }
    }
    forall n: string, i: int | n in names && 0 <= i < |names[n]|
      ensures names[n][i].name == n && Classified(names[n][i].prod, terms, nts)
    {
      if n != p.name || i < |names[n]| - 1 {
        assert names[n][i] == names0[n][i];
        ClassifiedGrows(names0[n][i].prod, terms0, nts0, terms, nts);
      }
    }
  }

  /** Every symbol of every rule and of every list under `prod_names` has a FIRST entry once the set-up of `compute_first` ran. */
  lemma FirstInitCoversRules(prods: seq<Production?>, names: map<string, seq<Production>>,
                             terms: map<string, seq<int>>, termOrder: seq<string>,
                             nts: map<string, seq<int>>, ntOrder: seq<string>, start: Option<string>, table: Table)
    requires WellFormed(prods, names, terms, termOrder, nts, ntOrder, start)
    ensures RhsCovered(FirstInit(table, termOrder, ntOrder), names)
  {
    var init := FirstInit(table, termOrder, ntOrder);
    forall n, i | n in names && 0 <= i < |names[n]| ensures Covers(init, names[n][i].prod) {
      var syms := names[n][i].prod;
      forall k | 0 <= k < |syms| ensures syms[k] in init {
        assert syms[k] in terms || syms[k] in nts;
        if syms[k] in terms {
          assert syms[k] in (set t | t in termOrder);
        } else {
          assert syms[k] in (set t | t in ntOrder);
        }
      }
    }
  }

  /** After `compute_first`, every symbol of every rule has a FIRST entry. */
  lemma FirstTableCoversRules(prods: seq<Production?>, names: map<string, seq<Production>>,
                              terms: map<string, seq<int>>, termOrder: seq<string>,
                              nts: map<string, seq<int>>, ntOrder: seq<string>, start: Option<string>,
                              first: Table, table: Table)
    requires WellFormed(prods, names, terms, termOrder, nts, ntOrder, start)
    requires table.Keys == FirstInit(first, termOrder, ntOrder).Keys
    ensures forall k :: 1 <= k < |prods| ==> Covers(table, prods[k].prod)
  {
    forall k | 1 <= k < |prods| ensures Covers(table, prods[k].prod) {
      var syms := prods[k].prod;
      forall j | 0 <= j < |syms| ensures syms[j] in table {
        if syms[j] in terms {
          assert syms[j] in (set t | t in termOrder);
        } else {
          assert syms[j] in (set t | t in ntOrder);
        }
      }
    }
  }

  /** A grammar with its terminals and `error` declared, and nothing else, is well formed. */
  lemma EmptyGrammarWellFormed(ts: seq<string>)
    ensures WellFormed([null], map[], map t | t in ts + ["error"] :: [], AppendMissing([], ts + ["error"]), map[], [], None)
  {
    AppendMissingFacts([], ts + ["error"]);
    assert "error" in ts + ["error"];
  }

  /** Installing the augmented rule in slot 0 and recording its use of the start symbol keeps the tables well formed. */
  lemma StartKeepsWellFormed(prods: seq<Production?>, names: map<string, seq<Production>>,
                             terms: map<string, seq<int>>, termOrder: seq<string>,
                             nts: map<string, seq<int>>, ntOrder: seq<string>, start: Option<string>, p: Production)
    requires WellFormed(prods, names, terms, termOrder, nts, ntOrder, start) && |prods| >= 2
    ensures prods[1] != null && prods[1].name in nts
    ensures WellFormed(prods[0 := p], names, terms, termOrder, nts[prods[1].name := nts[prods[1].name] + [0]],
                       ntOrder, Some(prods[1].name))
  {
    var s := prods[1].name;
    var nts' := nts[s := nts[s] + [0]];
    assert nts'.Keys == nts.Keys;
    forall k | 1 <= k < |prods| ensures Classified(prods[k].prod, terms, nts') {
      ClassifiedGrows(prods[k].prod, terms, nts, terms, nts');
    }
    forall n, i | n in names && 0 <= i < |names[n]| ensures Classified(names[n][i].prod, terms, nts') {
      ClassifiedGrows(names[n][i].prod, terms, nts, terms, nts');
    }
  }

  /** The rules of slots `1..` of a well-formed grammar, none of them None. */
  function Rules(prods: seq<Production?>): (r: seq<Production>)
    requires forall k :: 0 <= k < |prods| ==> prods[k] != null
    ensures |r| == |prods| && forall k :: 0 <= k < |r| ==> r[k] == prods[k]
  {
    if prods == [] then [] else [prods[0] as Production] + Rules(prods[1..])
  }

  class Grammar {
    /** Slot 0 is None until `set_start` puts the augmented rule `S' -> start` there. */
    var productions: seq<Production?>
    var prodNames: map<string, seq<Production>>
    var terminals: map<string, seq<int>>
    var terminalOrder: seq<string>
    var nonterminals: map<string, seq<int>>
    var nonterminalOrder: seq<string>
    var first: Table
    var follow: Table
    var precedence: map<string, Precedence>
    var start: Option<string>

    ghost predicate Valid()
      reads this
    {
      WellFormed(productions, prodNames, terminals, terminalOrder, nonterminals, nonterminalOrder, start)
    }

    /** `Grammar(terminals)`: every terminal, and `error`, with an empty usage list. */
    constructor (ts: seq<string>)
      ensures Valid()
      ensures productions == [null] && prodNames == map[]
      ensures terminals == (map t | t in ts + ["error"] :: []) && terminalOrder == AppendMissing([], ts + ["error"])
      ensures nonterminals == map[] && nonterminalOrder == []
      ensures first == map[] && follow == map[] && precedence == map[] && start == None
    {
      productions := [null];
      prodNames := map[];
      terminals := map t | t in ts + ["error"] :: [];
      terminalOrder := AppendMissing([], ts + ["error"]);
      nonterminals := map[];
      nonterminalOrder := [];
      first := map[];
      follow := map[];
      precedence := map[];
      start := None;
      EmptyGrammarWellFormed(ts);
    }
  
    /**
     * The part of `add_production` after its checks and its loop: builds the
     * rule object and installs it with the tables `u` the loop produced.
     */
    method AppendRule(name: string, syms: seq<string>, prec: Precedence, u: Uses)
      requires KeyOrder(nonterminalOrder, nonterminals) && (forall x :: x in terminals ==> x !in nonterminals)
      requires name !in terminals
      requires u == RecordAll(FileName(Uses(terminals, nonterminals, nonterminalOrder), name), syms, |productions|)
      modifies this`productions, this`prodNames, this`terminals, this`nonterminals, this`nonterminalOrder
      ensures RuleAppended(old(productions), old(prodNames), old(terminals), old(nonterminals), old(nonterminalOrder),
                           name, syms, prec, productions, prodNames, Uses(terminals, nonterminals, nonterminalOrder))
      ensures fresh(productions[|old(productions)|])
    {
      var p := new Production(|productions|, name, syms, prec);
      AppendedRule(productions, prodNames, terminals, nonterminals, nonterminalOrder, p);
      productions, prodNames := productions + [p], prodNames[name := (if name in prodNames then prodNames[name] else []) + [p]];
      terminals, nonterminals, nonterminalOrder := u.terms, u.nts, u.ntOrder;
    }

    /**
     * `add_production(name, syms, func, precedence)`: refuses a terminal as
     * rule name and an undeclared explicit precedence, leaving every table
     * as it was; otherwise appends rule number `|productions|`, with the
     * explicit precedence or else that of its rightmost terminal, and
     * records its uses. The other tables are outside its frame.
     */
    method AddProduction(name: string, syms: seq<string>, precName: Option<string>) returns (r: Outcome<GrammarError>)
      requires Valid()
      modifies this`productions, this`prodNames, this`terminals, this`nonterminals, this`nonterminalOrder
      ensures Valid()
      ensures name in old(terminals) ==>
                r == Fail(ParserGeneratorError("Illegal rule name " + name)) && unchanged(this)
      ensures name !in old(terminals) && precName.Some? && precName.value !in old(precedence) ==>
                r == Fail(ParserGeneratorError("Precedence " + precName.value + " doesn't exist")) && unchanged(this)
      ensures r.Pass? <==> name !in old(terminals) && (precName.None? || precName.value in old(precedence))
      ensures r.Pass? ==>
                && RuleAppended(old(productions), old(prodNames), old(terminals), old(nonterminals), old(nonterminalOrder),
                                name, syms, RulePrecedence(old(precedence), old(terminals), syms, precName).value,
                                productions, prodNames, Uses(terminals, nonterminals, nonterminalOrder))
                && fresh(productions[|old(productions)|])
    {
      if name in terminals {
        return Fail(ParserGeneratorError("Illegal rule name " + name));
      }
      var prec := RulePrecedence(precedence, terminals, syms, precName);
      if prec.None? {
        return Fail(ParserGeneratorError("Precedence " + precName.value + " doesn't exist"));
      }
      var u := RecordUses(FileName(Uses(terminals, nonterminals, nonterminalOrder), name), syms, |productions|);
      AppendRule(name, syms, prec.value, u);
      AppendKeepsWellFormed(old(productions), old(prodNames), old(terminals), terminalOrder, old(nonterminals),
                            old(nonterminalOrder), start, name, syms, prec.value, productions, prodNames,
                            Uses(terminals, nonterminals, nonterminalOrder));
      return Pass;
    }

    /**
     * `set_precedence(term, assoc, level)`: a second declaration for the
     * same terminal is refused first, then an associativity other than
     * left, right or nonassoc; otherwise `(assoc, level)` is stored.
     */
    method SetPrecedence(term: string, assoc: string, level: int) returns (r: Outcome<GrammarError>)
      requires Valid()
      modifies this`precedence
      ensures Valid()
      ensures term in old(precedence) ==>
                r == Fail(ParserGeneratorError("Precedence already specified for " + term)) && unchanged(this)
      ensures term !in old(precedence) && assoc !in ["left", "right", "nonassoc"] ==>
                r == Fail(ParserGeneratorError("Precedence must be one of left, right, nonassoc; not " + assoc)) && unchanged(this)
      ensures term !in old(precedence) && assoc in ["left", "right", "nonassoc"] ==>
                r == Pass && precedence == old(precedence)[term := Precedence(assoc, level)]
    {
      if term in precedence {
        return Fail(ParserGeneratorError("Precedence already specified for " + term));
      }
      if assoc !in ["left", "right", "nonassoc"] {
        return Fail(ParserGeneratorError("Precedence must be one of left, right, nonassoc; not " + assoc));
      }
      precedence := precedence[term := Precedence(assoc, level)];
      return Pass;
    }

    /**
     * `set_start()`: refused while no rule has been added; otherwise the
     * augmented rule `S' -> start` (number 0, default precedence) goes
     * into slot 0, where `start` is the name of rule 1, and rule 0 is
     * recorded as a use of `start`.
     */
    method SetStart() returns (r: Outcome<GrammarError>)
      requires Valid()
      modifies this`productions, this`nonterminals, this`start
      ensures Valid()
      ensures |old(productions)| < 2 ==>
                r == Fail(ParserGeneratorError("Grammar must contain at least one rule")) && unchanged(this)
      ensures |old(productions)| >= 2 ==>
                var s := old(productions)[1].name;
                && r == Pass
                && |productions| == |old(productions)|
                && productions[1..] == old(productions)[1..]
                && productions[0] != null && fresh(productions[0])
                && productions[0].number == 0 && productions[0].name == "S'"
                && productions[0].prod == [s] && productions[0].prec == DefaultPrecedence
                && s in old(nonterminals)
                && nonterminals == old(nonterminals)[s := old(nonterminals)[s] + [0]]
                && start == Some(s)
    {
      if |productions| < 2 {
        return Fail(ParserGeneratorError("Grammar must contain at least one rule"));
      }
      var s := productions[1].name;
      var p := new Production(0, "S'", [s], DefaultPrecedence);
      StartKeepsWellFormed(productions, prodNames, terminals, terminalOrder, nonterminals, nonterminalOrder, start, p);
      productions := productions[0 := p];
      nonterminals := nonterminals[s := nonterminals[s] + [0]];
      start := Some(s);
      return Pass;
    }

    /** `unused_terminals()`: the terminals, other than `error`, used by no rule, in declaration order. */
    function UnusedTerminals(): (r: seq<string>)
      reads this
      requires Valid()
      ensures Distinct(r)
      ensures forall t :: t in r <==> t in terminals && terminals[t] == [] && t != "error"
    {
      UnusedInOrder(terminalOrder, terminals, {"error"});
      UnusedKeys(ItemsOf(terminalOrder, terminals), {"error"})
    }

    /** `unused_productions()`: the nonterminals that no rule uses, in order of first appearance. */
    function UnusedProductions(): (r: seq<string>)
      reads this
      requires Valid()
      ensures Distinct(r)
      ensures forall n :: n in r <==> n in nonterminals && nonterminals[n] == []
    {
      UnusedInOrder(nonterminalOrder, nonterminals, {});
      UnusedKeys(ItemsOf(nonterminalOrder, nonterminals), {})
    }

    /**
     * `compute_first()`: the FIRST table of FirstFollow.ComputeFirst over
     * the terminals and nonterminals in declaration order; the KeyError of
     * a nonterminal without rules ends it, with the table as far as it got.
     * On success every symbol of every rule has a FIRST entry.
     */
    method ComputeFirst() returns (r: Outcome<GrammarError>)
      requires Valid()
      modifies this`first
      ensures var c := FirstFollow.ComputeFirst(old(first), terminalOrder, nonterminalOrder, prodNames);
              && first == c.table
              && (c.missing.None? ==> r == Pass)
              && (c.missing.Some? ==> r == Fail(KeyError(c.missing.value)))
      ensures r.Fail? <==> exists i :: 0 <= i < |nonterminalOrder| && nonterminalOrder[i] !in prodNames
      ensures forall k :: 1 <= k < |productions| ==> Covers(first, productions[k].prod)
    {
      FirstInitCoversRules(productions, prodNames, terminals, terminalOrder, nonterminals, nonterminalOrder, start, first);
      var c := RunFirst(first, terminalOrder, nonterminalOrder, prodNames);
      FirstTableCoversRules(productions, prodNames, terminals, terminalOrder, nonterminals, nonterminalOrder, start, first, c.table);
      first := c.table;
      r := if c.missing.Some? then Fail(KeyError(c.missing.value)) else Pass;
    }

    /**
     * `compute_follow()`: the FOLLOW table of FirstFollow.ComputeFollow over
     * the nonterminals in declaration order and the rules of slots `1..`.
     */
    method ComputeFollow()
      requires Valid()
      requires forall k :: 1 <= k < |productions| ==> Covers(first, productions[k].prod)
      modifies this`follow
      ensures follow == FirstFollow.ComputeFollow(old(follow), first, nonterminalOrder, start, Rules(productions[1..]))
    {
      var rules := Rules(productions[1..]);
      assert FollowInputs(first, nonterminalOrder, rules) by {
        forall i | 0 <= i < |rules| ensures rules[i].name in nonterminalOrder && Covers(first, rules[i].prod) {
          assert rules[i] == productions[i + 1];
        }
      }
      follow := RunFollow(follow, first, nonterminalOrder, start, rules);
    }

    /** `build_lritems()`: every rule in the list gets its items and its `lr_next` chain. */
    method BuildLRItems()
      requires Valid()
      modifies set k | 0 <= k < |productions| && productions[k] != null :: productions[k]
      ensures forall k :: 0 <= k < |productions| && productions[k] != null ==> ItemsBuilt(productions[k], prodNames)
    {
      var k := 0;
      while k < |productions|
        invariant 0 <= k <= |productions|
        invariant forall j :: 0 <= j < k && productions[j] != null ==> ItemsBuilt(productions[j], prodNames)
      {
        var p := productions[k];
        if p != null {
          BuildItems(p, prodNames);
        }
        k := k + 1;
      }
    }
  }
}
