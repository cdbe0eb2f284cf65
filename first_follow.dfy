/**
 * What `Grammar._first`, `Grammar.compute_first` and `Grammar.compute_follow`
 * in rply/grammar.py compute, written as functions over the grammar's
 * tables, with the properties of those functions.
 */
module FirstFollow {
  import opened Wrappers
  import opened Lists
  import opened Productions

  /** The marker for "derives the empty string". */
  const Empty := "<empty>"
  /** The end-of-input terminal. */
  const EndMarker := "$end"

  /** A FIRST or FOLLOW table: symbol name to list of terminal names. */
  type Table = map<string, seq<string>>

  // ---------------------------------------------------------------------
  // Tables as sets of pairs (used to bound the fixpoint iterations)
  // ---------------------------------------------------------------------

  /** Every (key, member) pair of a table. */
  ghost function Pairs(m: Table): set<(string, string)>
  {
    set k, f | k in m && f in m[k] :: (k, f)
  }

  /** Every member of every list of a table. */
  ghost function Vals(m: Table): set<string>
  {
    set k, f | k in m && f in m[k] :: f
  }

  /** All pairs a table over `keys` with members from `universe` could hold. */
  ghost function Box(keys: set<string>, universe: set<string>): set<(string, string)>
  {
    set k, f | k in keys && f in universe :: (k, f)
  }

  /** Appending the missing members of `ys` to one list of a table. */
  lemma {:induction false} GrowEntry(m: Table, n: string, ys: seq<string>)
    requires n in m
    ensures var m' := m[n := AppendMissing(m[n], ys)];
            && m'.Keys == m.Keys
            && Pairs(m) <= Pairs(m')
            && Vals(m') <= Vals(m) + (set y | y in ys)
            && (|m'[n]| == |m[n]| ==> m' == m)
            && (|m'[n]| > |m[n]| ==> Pairs(m) < Pairs(m'))
  {
    var g := AppendMissing(m[n], ys);
    var m' := m[n := g];
    AppendMissingFacts(m[n], ys);
    forall p | p in Pairs(m) ensures p in Pairs(m') {
      var k, f :| k in m && f in m[k] && p == (k, f);
      assert f in m'[k];
    }
    forall v | v in Vals(m') ensures v in Vals(m) + (set y | y in ys) {
      var k, f :| k in m' && f in m'[k] && v == f;
      if k != n {
        assert f in m[k];
      } else if f in m[n] {
        assert v in Vals(m);
      }
    }
    if |g| == |m[n]| {
      assert g == m[n];
      assert m' == m;
    }
    if |g| > |m[n]| {
      var w := g[|m[n]|];
      assert (n, w) in Pairs(m');
      assert (n, w) !in Pairs(m);
    }
  }

  /** A table that strictly gained pairs, within a fixed universe, is closer to the full box. */
  lemma MeasureShrinks(m: Table, m': Table, u: set<string>, u': set<string>)
    requires m'.Keys == m.Keys && Pairs(m) < Pairs(m')
    requires Vals(m') <= u && u' <= u
    ensures Box(m'.Keys, u') - Pairs(m') < Box(m.Keys, u) - Pairs(m)
  {
    var d :| d in Pairs(m') && d !in Pairs(m);
    var k, f :| k in m' && f in m'[k] && d == (k, f);
    assert f in Vals(m');
    assert d in Box(m.Keys, u);
  }

  // ---------------------------------------------------------------------
  // _first: FIRST of a sequence of symbols
  // ---------------------------------------------------------------------

  /** Every symbol of `beta` has an entry in the table (otherwise `_first` raises KeyError). */
  predicate Covers(first: Table, beta: seq<string>)
  {
    forall i :: 0 <= i < |beta| ==> beta[i] in first
  }

  /** Coverage depends only on the table's keys. */
  lemma CoversSameKeys(a: Table, b: Table, beta: seq<string>)
    requires a.Keys == b.Keys && Covers(a, beta)
    ensures Covers(b, beta)
  {
    forall i | 0 <= i < |beta| ensures beta[i] in b {
      assert beta[i] in a.Keys;
    }
  }

  /** The symbols before position `i` of `beta` all derive the empty string. */
  predicate NullableUpTo(first: Table, beta: seq<string>, i: nat)
    requires Covers(first, beta) && i <= |beta|
  {
    forall j :: 0 <= j < i ==> Empty in first[beta[j]]
  }

  /** `f` is a member of FIRST of some symbol of `beta` preceded only by nullable symbols. */
  ghost predicate Reaches(first: Table, beta: seq<string>, f: string)
    requires Covers(first, beta)
  {
    exists i :: 0 <= i < |beta| && NullableUpTo(first, beta, i) && f in first[beta[i]]
  }

  /**
   * The loop of `_first` on the symbols `beta` still to visit, with `acc`
   * the result so far: add the non-empty members of each symbol's FIRST,
   * stop at the first symbol that is not nullable, and add `<empty>` when
   * every symbol was nullable.
   */
  function FirstFrom(first: Table, beta: seq<string>, acc: seq<string>): seq<string>
    requires Covers(first, beta)
    decreases |beta|
  {
    if beta == [] then acc + [Empty]
    else
      var fx := first[beta[0]];
      var acc' := AppendMissing(acc, Without(fx, Empty));
      if Empty in fx then FirstFrom(first, beta[1..], acc') else acc'
  }

  /** `_first(beta)`. */
  function SeqFirst(first: Table, beta: seq<string>): seq<string>
    requires Covers(first, beta)
  {
    FirstFrom(first, beta, [])
  }

  lemma {:induction false} FirstFromFacts(first: Table, beta: seq<string>, acc: seq<string>)
    requires Covers(first, beta) && Distinct(acc) && Empty !in acc
    ensures Distinct(FirstFrom(first, beta, acc))
    ensures Empty in FirstFrom(first, beta, acc) <==> NullableUpTo(first, beta, |beta|)
    ensures forall f :: f != Empty ==> (f in FirstFrom(first, beta, acc) <==> f in acc || Reaches(first, beta, f))
    decreases |beta|
  {
    if beta == [] {
    } else {
      var fx := first[beta[0]];
      var wx := Without(fx, Empty);
      var acc' := AppendMissing(acc, wx);
      WithoutContents(fx, Empty);
      AppendMissingFacts(acc, wx);
      var rest := beta[1..];
      assert Covers(first, rest);
      if Empty in fx {
        FirstFromFacts(first, rest, acc');
        assert NullableUpTo(first, beta, |beta|) <==> NullableUpTo(first, rest, |rest|) by {
          if NullableUpTo(first, rest, |rest|) {
            forall j | 0 <= j < |beta| ensures Empty in first[beta[j]] {
              if j > 0 { assert beta[j] == rest[j - 1]; }
            }
          }
        }
        forall f | f != Empty
          ensures f in FirstFrom(first, beta, acc) <==> f in acc || Reaches(first, beta, f)
        {
          if Reaches(first, rest, f) {
            var i :| 0 <= i < |rest| && NullableUpTo(first, rest, i) && f in first[rest[i]];
            assert NullableUpTo(first, beta, i + 1) by {
              forall j | 0 <= j < i + 1 ensures Empty in first[beta[j]] {
                if j > 0 { assert beta[j] == rest[j - 1]; }
              }
            }
            assert f in first[beta[i + 1]];
          }
          if Reaches(first, beta, f) {
            var i :| 0 <= i < |beta| && NullableUpTo(first, beta, i) && f in first[beta[i]];
            if i > 0 {
              assert NullableUpTo(first, rest, i - 1) by {
                forall j | 0 <= j < i - 1 ensures Empty in first[rest[j]] {
                  assert rest[j] == beta[j + 1];
                }
              }
              assert Reaches(first, rest, f);
            } else {
              assert f in wx;
            }
          }
        }
      } else {
        assert !NullableUpTo(first, beta, |beta|);
        forall f | f != Empty
          ensures f in acc' <==> f in acc || Reaches(first, beta, f)
        {
          if Reaches(first, beta, f) {
            var i :| 0 <= i < |beta| && NullableUpTo(first, beta, i) && f in first[beta[i]];
            assert i == 0;
          }
          if f in wx {
            assert NullableUpTo(first, beta, 0);
          }
        }
      }
    }
  }

  /**
   * `_first(beta)` has no duplicates; it holds `<empty>` exactly when every
   * symbol of `beta` is nullable; and its other members are exactly the
   * non-empty FIRST members of the symbols up to and including the first
   * one that is not nullable.
   */
  lemma SeqFirstCharacterization(first: Table, beta: seq<string>)
    requires Covers(first, beta)
    ensures Distinct(SeqFirst(first, beta))
    ensures Empty in SeqFirst(first, beta) <==> forall i :: 0 <= i < |beta| ==> Empty in first[beta[i]]
    ensures forall f :: f != Empty ==> (f in SeqFirst(first, beta) <==> Reaches(first, beta, f))
  {
    FirstFromFacts(first, beta, []);
  }

  /** FIRST of the empty sequence is `["<empty>"]`. */
  lemma SeqFirstOfNothing(first: Table)
    ensures SeqFirst(first, []) == [Empty]
  {
  }

  /** Every member of `_first(beta)` is `<empty>` or a member of some list of the table. */
  lemma SeqFirstWithinTable(first: Table, beta: seq<string>)
    requires Covers(first, beta)
    ensures forall f :: f in SeqFirst(first, beta) ==> f == Empty || f in Vals(first)
  {
    SeqFirstCharacterization(first, beta);
    forall f | f in SeqFirst(first, beta) && f != Empty ensures f in Vals(first) {
      var i :| 0 <= i < |beta| && NullableUpTo(first, beta, i) && f in first[beta[i]];
    }
  }

  // ---------------------------------------------------------------------
  // compute_first
  // ---------------------------------------------------------------------

  /**
   * The table after the set-up of `compute_first`: every terminal maps to
   * itself, `$end` to itself, every nonterminal to the empty list (later
   * assignments win), and any other key keeps its old list.
   */
  function FirstInit(first: Table, terminals: seq<string>, nonterminals: seq<string>): (r: Table)
    ensures r.Keys == first.Keys + (set t | t in terminals) + {EndMarker} + (set n | n in nonterminals)
  {
    map k | k in first.Keys + (set t | t in terminals) + {EndMarker} + (set n | n in nonterminals) ::
      if k in nonterminals then []
      else if k == EndMarker then [EndMarker]
      else if k in terminals then [k]
      else first[k]
  }

  /** Every right-hand side listed under `prodNames` has its symbols in the table. */
  predicate RhsCovered(first: Table, prodNames: map<string, seq<Production>>)
  {
    forall n, i :: n in prodNames && 0 <= i < |prodNames[n]| ==> Covers(first, prodNames[n][i].prod)
  }

  /** A pass result: the table, and whether any list grew. */
  datatype Progress = Progress(table: Table, changed: bool)

  /**
   * The inner loops of one `compute_first` pass for nonterminal `n`: for
   * each production of `n` in turn, append the missing members of FIRST of
   * its right-hand side (computed on the table as it stands) to `first[n]`.
   */
  function FirstPassProds(first: Table, n: string, prods: seq<Production>, changed: bool): (r: Progress)
    requires n in first && forall i :: 0 <= i < |prods| ==> Covers(first, prods[i].prod)
    ensures r.table.Keys == first.Keys
    ensures forall k :: k in first && k != n ==> r.table[k] == first[k]
    ensures Pairs(first) <= Pairs(r.table)
    ensures Vals(r.table) <= Vals(first) + {Empty}
    ensures !r.changed ==> !changed && r.table == first
    ensures r.changed && !changed ==> Pairs(first) < Pairs(r.table)
    ensures changed ==> r.changed
    ensures !r.changed ==> forall i, f :: 0 <= i < |prods| && f in SeqFirst(first, prods[i].prod) ==> f in first[n]
    decreases |prods|
  {
    if prods == [] then Progress(first, changed)
    else
      var fs := SeqFirst(first, prods[0].prod);
      var grown := AppendMissing(first[n], fs);
      var next := first[n := grown];
      GrowEntry(first, n, fs);
      SeqFirstWithinTable(first, prods[0].prod);
      AppendMissingFacts(first[n], fs);
      forall i | 0 <= i < |prods| - 1 ensures Covers(next, prods[1..][i].prod) {
        assert prods[1..][i] == prods[i + 1];
        CoversSameKeys(first, next, prods[i + 1].prod);
      }
      var r := FirstPassProds(next, n, prods[1..], changed || |grown| > |first[n]|);
      assert !r.changed ==> forall i, f :: 0 <= i < |prods| && f in SeqFirst(first, prods[i].prod) ==> f in first[n] by {
        if !r.changed {
          forall i, f | 0 <= i < |prods| && f in SeqFirst(first, prods[i].prod) ensures f in first[n] {
            if i > 0 { assert prods[i] == prods[1..][i - 1]; }
          }
        }
      }
      r
  }

  /** A complete pass result, with the nonterminal whose missing `prod_names` entry raised KeyError. */
  datatype PassResult = PassResult(table: Table, changed: bool, missing: Option<string>)

  /** One pass of the `while changed` loop of `compute_first`, over the nonterminals still to visit. */
  function FirstPass(first: Table, prodNames: map<string, seq<Production>>, nts: seq<string>, changed: bool): (r: PassResult)
    requires (forall i :: 0 <= i < |nts| ==> nts[i] in first) && RhsCovered(first, prodNames)
    ensures r.table.Keys == first.Keys
    ensures forall k :: k in first && k !in nts ==> r.table[k] == first[k]
    ensures Pairs(first) <= Pairs(r.table)
    ensures Vals(r.table) <= Vals(first) + {Empty}
    ensures !r.changed ==> !changed && r.table == first
    ensures r.changed && !changed ==> Pairs(first) < Pairs(r.table)
    ensures changed ==> r.changed
    decreases |nts|
  {
    if nts == [] then PassResult(first, changed, None)
    else if nts[0] !in prodNames then PassResult(first, changed, Some(nts[0]))
    else
      var n := nts[0];
      var pr := FirstPassProds(first, n, prodNames[n], changed);
      RhsCoveredSameKeys(first, pr.table, prodNames);
      FirstPass(pr.table, prodNames, nts[1..], pr.changed)
  }

  lemma RhsCoveredSameKeys(a: Table, b: Table, prodNames: map<string, seq<Production>>)
    requires a.Keys == b.Keys && RhsCovered(a, prodNames)
    ensures RhsCovered(b, prodNames)
  {
    forall n, i | n in prodNames && 0 <= i < |prodNames[n]| ensures Covers(b, prodNames[n][i].prod) {
      CoversSameKeys(a, b, prodNames[n][i].prod);
    }
  }

  /** A pass raises KeyError exactly when some nonterminal it visits has no `prod_names` entry. */
  lemma {:induction false} FirstPassMissing(first: Table, prodNames: map<string, seq<Production>>, nts: seq<string>, changed: bool)
    requires (forall i :: 0 <= i < |nts| ==> nts[i] in first) && RhsCovered(first, prodNames)
    ensures FirstPass(first, prodNames, nts, changed).missing.Some? <==> exists i :: 0 <= i < |nts| && nts[i] !in prodNames
    decreases |nts|
  {
    if nts != [] && nts[0] in prodNames {
      var pr := FirstPassProds(first, nts[0], prodNames[nts[0]], changed);
      RhsCoveredSameKeys(first, pr.table, prodNames);
      FirstPassMissing(pr.table, prodNames, nts[1..], pr.changed);
      if exists i :: 0 <= i < |nts| && nts[i] !in prodNames {
        var i :| 0 <= i < |nts| && nts[i] !in prodNames;
        assert nts[1..][i - 1] !in prodNames;
      }
      if exists i :: 0 <= i < |nts[1..]| && nts[1..][i] !in prodNames {
        var i :| 0 <= i < |nts[1..]| && nts[1..][i] !in prodNames;
        assert nts[i + 1] !in prodNames;
      }
    }
  }

  /**
   * A pass that completes without growing any list found FIRST of every
   * visited production already inside FIRST of its nonterminal.
   */
  lemma {:induction false} FirstPassStable(first: Table, prodNames: map<string, seq<Production>>, nts: seq<string>, changed: bool)
    requires (forall i :: 0 <= i < |nts| ==> nts[i] in first) && RhsCovered(first, prodNames)
    requires forall i :: 0 <= i < |nts| ==> nts[i] in prodNames
    requires !FirstPass(first, prodNames, nts, changed).changed
    ensures forall i, j, f :: 0 <= i < |nts| && 0 <= j < |prodNames[nts[i]]| && f in SeqFirst(first, prodNames[nts[i]][j].prod)
              ==> f in first[nts[i]]
    decreases |nts|
  {
    if nts != [] {
      var n := nts[0];
      var pr := FirstPassProds(first, n, prodNames[n], changed);
      RhsCoveredSameKeys(first, pr.table, prodNames);
      FirstPassStable(pr.table, prodNames, nts[1..], pr.changed);
      forall i, j, f | 0 <= i < |nts| && 0 <= j < |prodNames[nts[i]]| && f in SeqFirst(first, prodNames[nts[i]][j].prod)
        ensures f in first[nts[i]]
      {
        if i > 0 { assert nts[i] == nts[1..][i - 1]; }
      }
    }
  }

  /** The outcome of `compute_first`: the final table, and the nonterminal that raised KeyError if one did. */
  datatype Computed = Computed(table: Table, missing: Option<string>)

  /** The `while changed` loop of `compute_first`, from the table `first`. */
  function FirstFixpoint(first: Table, prodNames: map<string, seq<Production>>, nts: seq<string>): (r: Computed)
    requires (forall i :: 0 <= i < |nts| ==> nts[i] in first) && RhsCovered(first, prodNames)
    ensures r.table.Keys == first.Keys
    ensures forall k :: k in first && k !in nts ==> r.table[k] == first[k]
    ensures Pairs(first) <= Pairs(r.table)
    ensures r.missing.Some? <==> exists i :: 0 <= i < |nts| && nts[i] !in prodNames
    ensures r.missing.None? ==>
              forall i, j, f :: 0 <= i < |nts| && 0 <= j < |prodNames[nts[i]]| && f in SeqFirst(r.table, prodNames[nts[i]][j].prod)
                ==> f in r.table[nts[i]]
    decreases Box(first.Keys, Vals(first) + {Empty}) - Pairs(first)
  {
    var p := FirstPass(first, prodNames, nts, false);
    FirstPassMissing(first, prodNames, nts, false);
    if p.missing.Some? then Computed(p.table, p.missing)
    else if !p.changed then
      assert forall i :: 0 <= i < |nts| ==> nts[i] in prodNames;
      FirstPassStable(first, prodNames, nts, false);
      Computed(p.table, None)
    else
      MeasureShrinks(first, p.table, Vals(first) + {Empty}, Vals(p.table) + {Empty});
      RhsCoveredSameKeys(first, p.table, prodNames);
      FirstFixpoint(p.table, prodNames, nts)
  }

  /** `compute_first` on a grammar with these tables. */
  function ComputeFirst(first: Table, terminals: seq<string>, nonterminals: seq<string>,
                        prodNames: map<string, seq<Production>>): Computed
    requires RhsCovered(FirstInit(first, terminals, nonterminals), prodNames)
  {
    FirstFixpoint(FirstInit(first, terminals, nonterminals), prodNames, nonterminals)
  }

  /** After `compute_first` (also when it raises), a terminal that is not a nonterminal maps to itself alone. */
  lemma FirstOfTerminal(first: Table, terminals: seq<string>, nonterminals: seq<string>,
                        prodNames: map<string, seq<Production>>, t: string)
    requires RhsCovered(FirstInit(first, terminals, nonterminals), prodNames)
    requires t in terminals && t !in nonterminals
    ensures t in ComputeFirst(first, terminals, nonterminals, prodNames).table
    ensures ComputeFirst(first, terminals, nonterminals, prodNames).table[t] == [t]
  {
  }

  /**
   * `compute_first` raises exactly when some nonterminal has no `prod_names`
   * entry; otherwise FIRST of every production's right-hand side is
   * contained in FIRST of its nonterminal.
   */
  lemma FirstIsClosed(first: Table, terminals: seq<string>, nonterminals: seq<string>,
                      prodNames: map<string, seq<Production>>)
    requires RhsCovered(FirstInit(first, terminals, nonterminals), prodNames)
    ensures var r := ComputeFirst(first, terminals, nonterminals, prodNames);
            r.missing.Some? <==> exists n :: n in nonterminals && n !in prodNames
    ensures var r := ComputeFirst(first, terminals, nonterminals, prodNames);
            r.missing.None? ==>
              forall n, j, f :: n in nonterminals && 0 <= j < |prodNames[n]| && f in SeqFirst(r.table, prodNames[n][j].prod)
                ==> f in r.table[n]
  {
    var r := ComputeFirst(first, terminals, nonterminals, prodNames);
    if r.missing.None? {
      forall n, j, f | n in nonterminals && 0 <= j < |prodNames[n]| && f in SeqFirst(r.table, prodNames[n][j].prod)
        ensures f in r.table[n]
      {
        var i :| 0 <= i < |nonterminals| && nonterminals[i] == n;
      }
    }
  }

  /** `a` is contained in `b` list by list. */
  ghost predicate Within(a: Table, b: Table)
  {
    forall k, f :: k in a && f in a[k] ==> k in b && f in b[k]
  }

  /** Gaining pairs over the same keys is growing list by list. */
  lemma PairsWithin(a: Table, b: Table)
    requires a.Keys == b.Keys && Pairs(a) <= Pairs(b)
    ensures Within(a, b)
  {
    forall k, f | k in a && f in a[k] ensures f in b[k] {
      assert (k, f) in Pairs(a);
    }
  }

  /** `_first` of a sequence only grows as the table grows. */
  lemma SeqFirstGrows(a: Table, b: Table, beta: seq<string>)
    requires Covers(a, beta) && a.Keys == b.Keys && Within(a, b)
    ensures Covers(b, beta)
    ensures forall f :: f in SeqFirst(a, beta) ==> f in SeqFirst(b, beta)
  {
    CoversSameKeys(a, b, beta);
    SeqFirstCharacterization(a, beta);
    SeqFirstCharacterization(b, beta);
    forall f | f in SeqFirst(a, beta) ensures f in SeqFirst(b, beta) {
      if f == Empty {
        forall i | 0 <= i < |beta| ensures Empty in b[beta[i]] {
          assert Empty in a[beta[i]];
        }
      } else {
        var i :| 0 <= i < |beta| && NullableUpTo(a, beta, i) && f in a[beta[i]];
        assert NullableUpTo(b, beta, i);
      }
    }
  }

  /**
   * Every member of FIRST of a nonterminal of `nts` is drawn from FIRST,
   * over the same table, of one of its rules.
   */
  ghost predicate SoundFirst(first: Table, prodNames: map<string, seq<Production>>, nts: seq<string>)
    requires RhsCovered(first, prodNames)
  {
    forall n, f :: n in nts && n in first && f in first[n] ==>
      n in prodNames && exists j :: 0 <= j < |prodNames[n]| && f in SeqFirst(first, prodNames[n][j].prod)
  }

  /** Adding FIRST of rule `j` of `n` to the list of `n` keeps every member accounted for. */
  lemma SoundFirstStep(first: Table, prodNames: map<string, seq<Production>>, nts: seq<string>, n: string, j: nat)
    requires RhsCovered(first, prodNames) && SoundFirst(first, prodNames, nts)
    requires n in first && n in prodNames && j < |prodNames[n]|
    ensures var next := first[n := AppendMissing(first[n], SeqFirst(first, prodNames[n][j].prod))];
            RhsCovered(next, prodNames) && SoundFirst(next, prodNames, nts)
  {
    var fs := SeqFirst(first, prodNames[n][j].prod);
    var next := first[n := AppendMissing(first[n], fs)];
    GrowEntry(first, n, fs);
    AppendMissingFacts(first[n], fs);
    PairsWithin(first, next);
    RhsCoveredSameKeys(first, next, prodNames);
    forall m, f | m in nts && m in next && f in next[m]
      ensures m in prodNames && exists i :: 0 <= i < |prodNames[m]| && f in SeqFirst(next, prodNames[m][i].prod)
    {
      if m == n && f !in first[n] {
        SeqFirstGrows(first, next, prodNames[n][j].prod);
      } else {
        var i :| 0 <= i < |prodNames[m]| && f in SeqFirst(first, prodNames[m][i].prod);
        SeqFirstGrows(first, next, prodNames[m][i].prod);
      }
    }
  }

  /** The loop over the rules of `n`, from rule `k` on, keeps every member accounted for. */
  lemma {:induction false} SoundFirstRules(first: Table, prodNames: map<string, seq<Production>>, nts: seq<string>,
                                           n: string, k: nat, changed: bool)
    requires RhsCovered(first, prodNames) && SoundFirst(first, prodNames, nts)
    requires n in first && n in prodNames && k <= |prodNames[n]|
    ensures forall i :: 0 <= i < |prodNames[n][k..]| ==> Covers(first, prodNames[n][k..][i].prod)
    ensures var r := FirstPassProds(first, n, prodNames[n][k..], changed);
            RhsCovered(r.table, prodNames) && SoundFirst(r.table, prodNames, nts)
    decreases |prodNames[n]| - k
  {
    var prods := prodNames[n][k..];
    forall i | 0 <= i < |prods| ensures Covers(first, prods[i].prod) {
      assert prods[i] == prodNames[n][k + i];
    }
    var r := FirstPassProds(first, n, prods, changed);
    if k == |prodNames[n]| {
      assert prods == [];
    } else {
      assert prods[0] == prodNames[n][k] && prods[1..] == prodNames[n][k + 1..];
      var fs := SeqFirst(first, prods[0].prod);
      var next := first[n := AppendMissing(first[n], fs)];
      SoundFirstStep(first, prodNames, nts, n, k);
      SoundFirstRules(next, prodNames, nts, n, k + 1, changed || |AppendMissing(first[n], fs)| > |first[n]|);
    }
  }

  /** A pass over the nonterminals still to visit keeps every member accounted for. */
  lemma {:induction false} SoundFirstPass(first: Table, prodNames: map<string, seq<Production>>, all: seq<string>,
                                          nts: seq<string>, changed: bool)
    requires (forall i :: 0 <= i < |nts| ==> nts[i] in first) && RhsCovered(first, prodNames)
    requires SoundFirst(first, prodNames, all)
    ensures var r := FirstPass(first, prodNames, nts, changed);
            RhsCovered(r.table, prodNames) && SoundFirst(r.table, prodNames, all)
    decreases |nts|
  {
    if nts != [] && nts[0] in prodNames {
      var n := nts[0];
      assert prodNames[n][0..] == prodNames[n];
      SoundFirstRules(first, prodNames, all, n, 0, changed);
      var pr := FirstPassProds(first, n, prodNames[n], changed);
      SoundFirstPass(pr.table, prodNames, all, nts[1..], pr.changed);
    }
  }

  /** The `while changed` loop keeps every member accounted for. */
  lemma {:induction false} SoundFirstFixpoint(first: Table, prodNames: map<string, seq<Production>>, nts: seq<string>)
    requires (forall i :: 0 <= i < |nts| ==> nts[i] in first) && RhsCovered(first, prodNames)
    requires SoundFirst(first, prodNames, nts)
    ensures var r := FirstFixpoint(first, prodNames, nts);
            RhsCovered(r.table, prodNames) && SoundFirst(r.table, prodNames, nts)
    decreases Box(first.Keys, Vals(first) + {Empty}) - Pairs(first)
  {
    var p := FirstPass(first, prodNames, nts, false);
    SoundFirstPass(first, prodNames, nts, nts, false);
    if p.missing.None? && p.changed {
      MeasureShrinks(first, p.table, Vals(first) + {Empty}, Vals(p.table) + {Empty});
      SoundFirstFixpoint(p.table, prodNames, nts);
    }
  }

  /**
   * Together with FirstIsClosed: after `compute_first`, FIRST of a
   * nonterminal is exactly the union of FIRST of its rules, as a member
   * only ever enters it from FIRST of one of its rules.
   */
  lemma FirstIsExact(first: Table, terminals: seq<string>, nonterminals: seq<string>,
                     prodNames: map<string, seq<Production>>)
    requires RhsCovered(FirstInit(first, terminals, nonterminals), prodNames)
    ensures var r := ComputeFirst(first, terminals, nonterminals, prodNames);
            RhsCovered(r.table, prodNames)
    ensures var r := ComputeFirst(first, terminals, nonterminals, prodNames);
            forall n, f :: n in nonterminals && f in r.table[n] ==>
              n in prodNames && exists j :: 0 <= j < |prodNames[n]| && f in SeqFirst(r.table, prodNames[n][j].prod)
  {
    var init := FirstInit(first, terminals, nonterminals);
    assert SoundFirst(init, prodNames, nonterminals);
    SoundFirstFixpoint(init, prodNames, nonterminals);
  }

  /**
   * In a table where FIRST of `n` is exactly the union of FIRST of its
   * rules, `<empty>` is in it exactly when some rule has only nullable symbols.
   */
  lemma EmptyFromSomeRule(t: Table, rules: seq<Production>, n: string)
    requires n in t && forall j :: 0 <= j < |rules| ==> Covers(t, rules[j].prod)
    requires forall j, f :: 0 <= j < |rules| && f in SeqFirst(t, rules[j].prod) ==> f in t[n]
    requires forall f :: f in t[n] ==> exists j :: 0 <= j < |rules| && f in SeqFirst(t, rules[j].prod)
    ensures Empty in t[n] <==>
              exists j :: 0 <= j < |rules| && NullableUpTo(t, rules[j].prod, |rules[j].prod|)
  {
    if Empty in t[n] {
      var j :| 0 <= j < |rules| && Empty in SeqFirst(t, rules[j].prod);
      SeqFirstCharacterization(t, rules[j].prod);
    }
    if exists j :: 0 <= j < |rules| && NullableUpTo(t, rules[j].prod, |rules[j].prod|) {
      var j :| 0 <= j < |rules| && NullableUpTo(t, rules[j].prod, |rules[j].prod|);
      SeqFirstCharacterization(t, rules[j].prod);
    }
  }

  /**
   * After `compute_first` succeeds, `<empty>` is in FIRST of a nonterminal
   * exactly when one of its rules (not necessarily every one) has only
   * nullable symbols.
   */
  lemma FirstEmptyIffNullableRule(first: Table, terminals: seq<string>, nonterminals: seq<string>,
                                  prodNames: map<string, seq<Production>>, n: string)
    requires RhsCovered(FirstInit(first, terminals, nonterminals), prodNames)
    requires ComputeFirst(first, terminals, nonterminals, prodNames).missing.None? && n in nonterminals
    ensures var r := ComputeFirst(first, terminals, nonterminals, prodNames);
            && n in prodNames && RhsCovered(r.table, prodNames)
            && (Empty in r.table[n] <==>
                  exists j :: 0 <= j < |prodNames[n]| && NullableUpTo(r.table, prodNames[n][j].prod, |prodNames[n][j].prod|))
  {
    var t := ComputeFirst(first, terminals, nonterminals, prodNames).table;
    FirstIsClosed(first, terminals, nonterminals, prodNames);
    FirstIsExact(first, terminals, nonterminals, prodNames);
    EmptyFromSomeRule(t, prodNames[n], n);
  }

  /** Re-initialising a table that differs from an initialised one only at nonterminals gives the same initial table. */
  lemma FirstInitAbsorbs(first: Table, x: Table, terminals: seq<string>, nonterminals: seq<string>)
    requires x.Keys == FirstInit(first, terminals, nonterminals).Keys
    requires forall k :: k in x && k !in nonterminals ==> x[k] == FirstInit(first, terminals, nonterminals)[k]
    ensures FirstInit(x, terminals, nonterminals) == FirstInit(first, terminals, nonterminals)
  {
    var init := FirstInit(first, terminals, nonterminals);
    var again := FirstInit(x, terminals, nonterminals);
    assert again.Keys == init.Keys;
    forall k | k in init ensures again[k] == init[k] {
      if k !in nonterminals && k != EndMarker && k !in terminals {
        assert again[k] == x[k];
      }
    }
  }

  /** Running `compute_first` a second time gives the same table. */
  lemma ComputeFirstIdempotent(first: Table, terminals: seq<string>, nonterminals: seq<string>,
                               prodNames: map<string, seq<Production>>)
    requires RhsCovered(FirstInit(first, terminals, nonterminals), prodNames)
    ensures var r := ComputeFirst(first, terminals, nonterminals, prodNames);
            && RhsCovered(FirstInit(r.table, terminals, nonterminals), prodNames)
            && ComputeFirst(r.table, terminals, nonterminals, prodNames) == r
  {
    var r := ComputeFirst(first, terminals, nonterminals, prodNames);
    FirstInitAbsorbs(first, r.table, terminals, nonterminals);
  }

  // ---------------------------------------------------------------------
  // compute_follow
  // ---------------------------------------------------------------------

  /**
   * The set-up of `compute_follow`: every nonterminal maps to the empty
   * list, then the start symbol to `["$end"]`; other keys keep their lists.
   */
  function FollowInit(follow: Table, nonterminals: seq<string>, start: Option<string>): (r: Table)
    ensures r.Keys == follow.Keys + (set n | n in nonterminals) + (if start.Some? then {start.value} else {})
  {
    map k | k in follow.Keys + (set n | n in nonterminals) + (if start.Some? then {start.value} else {}) ::
      if start == Some(k) then [EndMarker]
      else if k in nonterminals then []
      else follow[k]
  }

  /** No list of a nonterminal holds `<empty>`. */
  ghost predicate NoEmpty(follow: Table, nts: set<string>)
    requires nts <= follow.Keys
  {
    forall b :: b in nts ==> Empty !in follow[b]
  }

  lemma CoversSuffix(first: Table, beta: seq<string>, i: nat)
    requires Covers(first, beta) && i <= |beta|
    ensures Covers(first, beta[i..])
  {
    forall k | 0 <= k < |beta[i..]| ensures beta[i..][k] in first {
      assert beta[i..][k] == beta[i + k];
    }
  }

  /**
   * The body of the position loop of `compute_follow` for a nonterminal `B`
   * at position `i` of the right-hand side of `p`: append to `follow[B]` the
   * non-empty members of FIRST of the rest of the rule, and, when that rest
   * is nullable or `B` is last, the members of `follow[p.name]` as it stands
   * after the first step.
   */
  function FollowAt(follow: Table, first: Table, p: Production, i: nat): Table
    requires i < |p.prod| && p.prod[i] in follow && p.name in follow && Covers(first, p.prod)
  {
    CoversSuffix(first, p.prod, i + 1);
    var b := p.prod[i];
    var fst := SeqFirst(first, p.prod[i + 1..]);
    var t1 := follow[b := AppendMissing(follow[b], Without(fst, Empty))];
    if Empty in fst || i == |p.prod| - 1 then t1[b := AppendMissing(t1[b], t1[p.name])] else t1
  }

  /** One step only adds members (drawn from FIRST or FOLLOW), only at `B`, never `<empty>`, and changes nothing only when the conditions already hold. */
  lemma FollowAtFacts(follow: Table, first: Table, nts: set<string>, p: Production, i: nat)
    requires i < |p.prod| && p.prod[i] in nts && nts <= follow.Keys && p.name in follow && Covers(first, p.prod)
    ensures var r := FollowAt(follow, first, p, i);
            && r.Keys == follow.Keys
            && (forall k :: k in follow && k != p.prod[i] ==> r[k] == follow[k])
            && Pairs(follow) <= Pairs(r)
            && Vals(r) <= Vals(follow) + Vals(first)
            && (r != follow ==> Pairs(follow) < Pairs(r))
            && (p.name in nts && NoEmpty(follow, nts) ==> NoEmpty(r, nts))
            && (r == follow ==> FollowHoldsAt(follow, first, p, i))
  {
    CoversSuffix(first, p.prod, i + 1);
    var b := p.prod[i];
    var fst := SeqFirst(first, p.prod[i + 1..]);
    SeqFirstWithinTable(first, p.prod[i + 1..]);
    WithoutContents(fst, Empty);
    var ws := Without(fst, Empty);
    GrowStep(follow, b, ws, nts);
    assert (set y | y in ws) <= Vals(first);
    var t1 := follow[b := AppendMissing(follow[b], ws)];
    assert Vals(t1) <= Vals(follow) + Vals(first);
    if Empty in fst || i == |p.prod| - 1 {
      assert (set y | y in t1[p.name]) <= Vals(t1);
      GrowStep(t1, b, t1[p.name], nts);
    }
  }

  /**
   * Appending the missing members of `ys` to the list of `n` changes no other
   * list, only adds pairs, draws new members from `ys`, grows the table
   * strictly when it changes it, leaves it alone only when `ys` was already
   * there, and adds no `<empty>` unless `ys` holds it.
   */
  lemma GrowStep(m: Table, n: string, ys: seq<string>, nts: set<string>)
    requires n in m && nts <= m.Keys
    ensures var m' := m[n := AppendMissing(m[n], ys)];
            && m'.Keys == m.Keys
            && (forall k :: k in m && k != n ==> m'[k] == m[k])
            && Pairs(m) <= Pairs(m')
            && Vals(m') <= Vals(m) + (set y | y in ys)
            && (m' != m ==> Pairs(m) < Pairs(m'))
            && (m' == m ==> forall y :: y in ys ==> y in m[n])
            && (NoEmpty(m, nts) && Empty !in ys ==> NoEmpty(m', nts))
  {
    GrowEntry(m, n, ys);
    AppendMissingFacts(m[n], ys);
  }

  /** The position loop of one `compute_follow` pass, over the positions `i..` of the right-hand side of `p`. */
  function FollowPassSyms(follow: Table, first: Table, nts: set<string>, p: Production, i: nat, added: bool): (r: Progress)
    requires i <= |p.prod| && p.name in follow && nts <= follow.Keys && Covers(first, p.prod)
    ensures r.table.Keys == follow.Keys
    ensures forall k :: k in follow && k !in nts ==> r.table[k] == follow[k]
    ensures Pairs(follow) <= Pairs(r.table)
    ensures Vals(r.table) <= Vals(follow) + Vals(first)
    ensures !r.changed ==> !added && r.table == follow
    ensures r.changed && !added ==> Pairs(follow) < Pairs(r.table)
    ensures added ==> r.changed
    ensures p.name in nts && NoEmpty(follow, nts) ==> NoEmpty(r.table, nts)
    decreases |p.prod| - i
  {
    if i == |p.prod| then Progress(follow, added)
    else if p.prod[i] !in nts then FollowPassSyms(follow, first, nts, p, i + 1, added)
    else
      var t := FollowAt(follow, first, p, i);
      FollowAtFacts(follow, first, nts, p, i);
      FollowPassSyms(t, first, nts, p, i + 1, added || t != follow)
  }

  /** Every production's name has a FOLLOW entry and its right-hand side has FIRST entries. */
  predicate FollowReady(follow: Table, first: Table, nts: set<string>, prods: seq<Production>)
  {
    && nts <= follow.Keys
    && forall i :: 0 <= i < |prods| ==> prods[i].name in follow && Covers(first, prods[i].prod)
  }

  /** One pass of the `while added` loop of `compute_follow`, over the productions still to visit. */
  function FollowPass(follow: Table, first: Table, nts: set<string>, prods: seq<Production>, added: bool): (r: Progress)
    requires FollowReady(follow, first, nts, prods)
    ensures r.table.Keys == follow.Keys
    ensures forall k :: k in follow && k !in nts ==> r.table[k] == follow[k]
    ensures Pairs(follow) <= Pairs(r.table)
    ensures Vals(r.table) <= Vals(follow) + Vals(first)
    ensures !r.changed ==> !added && r.table == follow
    ensures r.changed && !added ==> Pairs(follow) < Pairs(r.table)
    ensures added ==> r.changed
    ensures (forall i :: 0 <= i < |prods| ==> prods[i].name in nts) && NoEmpty(follow, nts) ==> NoEmpty(r.table, nts)
    decreases |prods|
  {
    if prods == [] then Progress(follow, added)
    else
      var pr := FollowPassSyms(follow, first, nts, prods[0], 0, added);
      assert FollowReady(pr.table, first, nts, prods[1..]) by {
        forall i | 0 <= i < |prods[1..]| ensures prods[1..][i].name in pr.table {
          assert prods[1..][i] == prods[i + 1];
        }
      }
      assert (forall i :: 0 <= i < |prods| ==> prods[i].name in nts) ==> (forall i :: 0 <= i < |prods[1..]| ==> prods[1..][i].name in nts);
      FollowPass(pr.table, first, nts, prods[1..], pr.changed)
  }

  /** The conditions a FOLLOW table satisfies at position `j` of the right-hand side of `p`. */
  ghost predicate FollowHoldsAt(follow: Table, first: Table, p: Production, j: nat)
    requires j < |p.prod| && p.prod[j] in follow && p.name in follow && Covers(first, p.prod)
  {
    CoversSuffix(first, p.prod, j + 1);
    var b := p.prod[j];
    var fst := SeqFirst(first, p.prod[j + 1..]);
    && (forall f :: f in fst && f != Empty ==> f in follow[b])
    && (Empty in fst || j == |p.prod| - 1 ==> forall f :: f in follow[p.name] ==> f in follow[b])
  }

  /** A position loop that grew nothing found the conditions already met at every nonterminal it visited. */
  lemma {:induction false} FollowPassSymsStable(follow: Table, first: Table, nts: set<string>, p: Production, i: nat, added: bool)
    requires i <= |p.prod| && p.name in follow && nts <= follow.Keys && Covers(first, p.prod)
    requires !FollowPassSyms(follow, first, nts, p, i, added).changed
    ensures forall j :: i <= j < |p.prod| && p.prod[j] in nts ==> FollowHoldsAt(follow, first, p, j)
    decreases |p.prod| - i
  {
    if i < |p.prod| {
      if p.prod[i] in nts {
        FollowAtFacts(follow, first, nts, p, i);
      }
      FollowPassSymsStable(follow, first, nts, p, i + 1, added);
    }
  }

  /** A pass that grew nothing found the FOLLOW conditions met everywhere. */
  lemma {:induction false} FollowPassStable(follow: Table, first: Table, nts: set<string>, prods: seq<Production>, added: bool)
    requires FollowReady(follow, first, nts, prods)
    requires !FollowPass(follow, first, nts, prods, added).changed
    ensures forall i, j :: 0 <= i < |prods| && 0 <= j < |prods[i].prod| && prods[i].prod[j] in nts
              ==> FollowHoldsAt(follow, first, prods[i], j)
    decreases |prods|
  {
    if prods != [] {
      FollowPassSymsStable(follow, first, nts, prods[0], 0, added);
      var pr := FollowPassSyms(follow, first, nts, prods[0], 0, added);
      assert FollowReady(pr.table, first, nts, prods[1..]) by {
        forall i | 0 <= i < |prods[1..]| ensures prods[1..][i].name in pr.table {
          assert prods[1..][i] == prods[i + 1];
        }
      }
      FollowPassStable(follow, first, nts, prods[1..], added);
      forall i, j | 0 <= i < |prods| && 0 <= j < |prods[i].prod| && prods[i].prod[j] in nts
        ensures FollowHoldsAt(follow, first, prods[i], j)
      {
        if i > 0 { assert prods[i] == prods[1..][i - 1]; }
      }
    }
  }

  /** The `while added` loop of `compute_follow`, from the table `follow`. */
  function FollowFixpoint(follow: Table, first: Table, nts: set<string>, prods: seq<Production>): (r: Table)
    requires FollowReady(follow, first, nts, prods)
    ensures r.Keys == follow.Keys
    ensures forall k :: k in follow && k !in nts ==> r[k] == follow[k]
    ensures Pairs(follow) <= Pairs(r)
    ensures (forall i :: 0 <= i < |prods| ==> prods[i].name in nts) && NoEmpty(follow, nts) ==> NoEmpty(r, nts)
    ensures forall i, j :: 0 <= i < |prods| && 0 <= j < |prods[i].prod| && prods[i].prod[j] in nts
              ==> FollowHoldsAt(r, first, prods[i], j)
    decreases Box(follow.Keys, Vals(follow) + Vals(first)) - Pairs(follow)
  {
    var p := FollowPass(follow, first, nts, prods, false);
    if !p.changed then
      FollowPassStable(follow, first, nts, prods, false);
      p.table
    else
      MeasureShrinks(follow, p.table, Vals(follow) + Vals(first), Vals(p.table) + Vals(first));
      FollowFixpoint(p.table, first, nts, prods)
  }

  /** What `compute_follow` needs: every production's name is a nonterminal and its symbols have FIRST entries. */
  predicate FollowInputs(first: Table, nonterminals: seq<string>, prods: seq<Production>)
  {
    forall i :: 0 <= i < |prods| ==> prods[i].name in nonterminals && Covers(first, prods[i].prod)
  }

  /** `compute_follow` over the productions `prods` (the grammar's list without slot 0). */
  function ComputeFollow(follow: Table, first: Table, nonterminals: seq<string>, start: Option<string>,
                         prods: seq<Production>): Table
    requires FollowInputs(first, nonterminals, prods)
  {
    FollowFixpoint(FollowInit(follow, nonterminals, start), first, (set n | n in nonterminals), prods)
  }

  /** `$end` follows the start symbol. */
  lemma EndFollowsStart(follow: Table, first: Table, nonterminals: seq<string>, start: Option<string>,
                        prods: seq<Production>)
    requires FollowInputs(first, nonterminals, prods) && start.Some?
    ensures start.value in ComputeFollow(follow, first, nonterminals, start, prods)
    ensures EndMarker in ComputeFollow(follow, first, nonterminals, start, prods)[start.value]
  {
    var init := FollowInit(follow, nonterminals, start);
    assert (start.value, EndMarker) in Pairs(init);
  }

  /** No FOLLOW list of a nonterminal contains `<empty>`. */
  lemma FollowHasNoEmpty(follow: Table, first: Table, nonterminals: seq<string>, start: Option<string>,
                         prods: seq<Production>)
    requires FollowInputs(first, nonterminals, prods)
    ensures forall n :: n in nonterminals ==> n in ComputeFollow(follow, first, nonterminals, start, prods)
    ensures forall n :: n in nonterminals ==> Empty !in ComputeFollow(follow, first, nonterminals, start, prods)[n]
  {
    var nts := set n | n in nonterminals;
    var init := FollowInit(follow, nonterminals, start);
    assert NoEmpty(init, nts);
  }

  /**
   * The result of `compute_follow` satisfies the FOLLOW conditions: for a
   * nonterminal `B` at position `j` of a rule `A -> ...`, the non-empty
   * members of FIRST of what comes after `B` are in FOLLOW(B), and when that
   * rest is nullable, or `B` is last, FOLLOW(A) is in FOLLOW(B).
   */
  lemma FollowIsClosed(follow: Table, first: Table, nonterminals: seq<string>, start: Option<string>,
                       prods: seq<Production>)
    requires FollowInputs(first, nonterminals, prods)
    ensures var r := ComputeFollow(follow, first, nonterminals, start, prods);
            forall i, j :: 0 <= i < |prods| && 0 <= j < |prods[i].prod| && prods[i].prod[j] in nonterminals
              ==> prods[i].prod[j] in r && prods[i].name in r && FollowHoldsAt(r, first, prods[i], j)
  {
  }

  /** Re-initialising a table that differs from an initialised one only at nonterminals gives the same initial table. */
  lemma FollowInitAbsorbs(follow: Table, x: Table, nonterminals: seq<string>, start: Option<string>)
    requires x.Keys == FollowInit(follow, nonterminals, start).Keys
    requires forall k :: k in x && k !in nonterminals ==> x[k] == FollowInit(follow, nonterminals, start)[k]
    ensures FollowInit(x, nonterminals, start) == FollowInit(follow, nonterminals, start)
  {
    var init := FollowInit(follow, nonterminals, start);
    var again := FollowInit(x, nonterminals, start);
    assert again.Keys == init.Keys;
    forall k | k in init ensures again[k] == init[k] {
      if start != Some(k) && k !in nonterminals {
        assert again[k] == x[k];
      }
    }
  }

  /** Running `compute_follow` a second time gives the same table. */
  lemma ComputeFollowIdempotent(follow: Table, first: Table, nonterminals: seq<string>, start: Option<string>,
                                prods: seq<Production>)
    requires FollowInputs(first, nonterminals, prods)
    ensures var r := ComputeFollow(follow, first, nonterminals, start, prods);
            ComputeFollow(r, first, nonterminals, start, prods) == r
  {
    var r := ComputeFollow(follow, first, nonterminals, start, prods);
    FollowInitAbsorbs(follow, r, nonterminals, start);
  }
}
