/**
 * The loops of `Grammar._first`, `Grammar.compute_first` and
 * `Grammar.compute_follow` in rply/grammar.py, run on the tables they read
 * and update, each proved to compute the function of module FirstFollow
 * that describes it.
 */
module ComputeSets {
  import opened Wrappers
  import opened Lists
  import opened Productions
  import opened FirstFollow

  /**
   * `for y in ys: if y not in xs: xs.append(y); grew = True`, the loop that
   * grows the FIRST and FOLLOW lists; `grew` tells whether anything was added.
   */
  method AppendAbsent(xs: seq<string>, ys: seq<string>) returns (r: seq<string>, grew: bool)
    ensures r == AppendMissing(xs, ys)
    ensures grew <==> |r| > |xs|
    ensures grew <==> exists y :: y in ys && y !in xs
  {
    r, grew := xs, false;
    var k := 0;
    while k < |ys|
      invariant 0 <= k <= |ys|
      invariant r == AppendMissing(xs, ys[..k])
      invariant grew <==> |r| > |xs|
    {
      AppendMissingSnoc(xs, ys[..k], ys[k]);
      assert ys[..k + 1] == ys[..k] + [ys[k]];
      AppendMissingFacts(xs, ys[..k]);
      if ys[k] !in r {
        r := r + [ys[k]];
        grew := true;
      }
      k := k + 1;
    }
    assert ys[..k] == ys;
    AppendMissingFacts(xs, ys);
  }

  /**
   * `_first(beta)` on the table `first`: for each symbol, the non-empty
   * members of its FIRST list are added when absent; the walk stops at the
   * first symbol whose list lacks `<empty>`, and `<empty>` is added when no
   * symbol stopped it.
   */
  method FirstOf(first: Table, beta: seq<string>) returns (r: seq<string>)
    requires Covers(first, beta)
    ensures r == SeqFirst(first, beta)
  {
    r := [];
    var k := 0;
    while k < |beta|
      invariant 0 <= k <= |beta|
      invariant Covers(first, beta[k..])
      invariant FirstFrom(first, beta[k..], r) == SeqFirst(first, beta)
    {
      var fx := first[beta[k]];
      ghost var r0 := r;
      var nullable := false;
      var j := 0;
      while j < |fx|
        invariant 0 <= j <= |fx|
        invariant r == AppendMissing(r0, Without(fx[..j], Empty))
        invariant nullable <==> Empty in fx[..j]
      {
        assert fx[..j + 1] == fx[..j] + [fx[j]];
        WithoutSnoc(fx[..j], fx[j], Empty);
        if fx[j] == Empty {
          nullable := true;
        } else {
          AppendMissingSnoc(r0, Without(fx[..j], Empty), fx[j]);
          if fx[j] !in r {
            r := r + [fx[j]];
          }
        }
        j := j + 1;
      }
      assert fx[..j] == fx;
      assert beta[k..][1..] == beta[k + 1..];
      if !nullable {
        return;
      }
      k := k + 1;
    }
    r := r + [Empty];
  }

  /** The set-up loops of `compute_first` build FirstInit. */
  method InitFirst(first: Table, terminals: seq<string>, nonterminals: seq<string>) returns (r: Table)
    ensures r == FirstInit(first, terminals, nonterminals)
  {
    r := first;
    var i := 0;
    while i < |terminals|
      invariant 0 <= i <= |terminals|
      invariant forall k :: k in r <==> k in first || k in terminals[..i]
      invariant forall k :: k in r ==> r[k] == if k in terminals[..i] then [k] else first[k]
    {
      assert terminals[..i + 1] == terminals[..i] + [terminals[i]];
      r := r[terminals[i] := [terminals[i]]];
      i := i + 1;
    }
    assert terminals[..i] == terminals;
    r := r[EndMarker := [EndMarker]];
    i := 0;
    while i < |nonterminals|
      invariant 0 <= i <= |nonterminals|
      invariant forall k :: k in r <==> k in first || k in terminals || k == EndMarker || k in nonterminals[..i]
      invariant forall k :: k in r ==>
                  r[k] == if k in nonterminals[..i] then []
                          else if k == EndMarker then [EndMarker]
                          else if k in terminals then [k]
                          else first[k]
    {
      assert nonterminals[..i + 1] == nonterminals[..i] + [nonterminals[i]];
      r := r[nonterminals[i] := []];
      i := i + 1;
    }
    assert nonterminals[..i] == nonterminals;
    FirstInitAgrees(first, terminals, nonterminals, r);
  }

  /** A table with FirstInit's keys and FirstInit's entries is FirstInit. */
  lemma FirstInitAgrees(first: Table, terminals: seq<string>, nonterminals: seq<string>, r: Table)
    requires forall k :: k in r <==> k in first || k in terminals || k == EndMarker || k in nonterminals
    requires forall k :: k in r ==>
               r[k] == if k in nonterminals then []
                       else if k == EndMarker then [EndMarker]
                       else if k in terminals then [k]
                       else first[k]
    ensures r == FirstInit(first, terminals, nonterminals)
  {
    var init := FirstInit(first, terminals, nonterminals);
    assert r.Keys == init.Keys;
  }

  /**
   * The loop over the productions of `n` in one pass of `compute_first`:
   * FIRST of each right-hand side, on the table as it stands, is appended
   * to `first[n]` where absent.
   */
  method FirstPassOver(first: Table, n: string, prods: seq<Production>, changed: bool) returns (r: Progress)
    requires n in first && forall i :: 0 <= i < |prods| ==> Covers(first, prods[i].prod)
    ensures r == FirstPassProds(first, n, prods, changed)
  {
    var table, grew := first, changed;
    var rest := prods;
    while rest != []
      invariant n in table && RulesCovered(table, rest)
      invariant FirstPassProds(table, n, rest, grew) == FirstPassProds(first, n, prods, changed)
      decreases |rest|
    {
      var fs := FirstOf(table, rest[0].prod);
      var list, added := AppendAbsent(table[n], fs);
      RulesCoveredNext(table, table[n := list], rest);
      table, grew, rest := table[n := list], grew || added, rest[1..];
    }
    r := Progress(table, grew);
  }

  /** Every listed right-hand side has its symbols in the table. */
  predicate RulesCovered(table: Table, prods: seq<Production>)
  {
    forall i :: 0 <= i < |prods| ==> Covers(table, prods[i].prod)
  }

  lemma RulesCoveredNext(a: Table, b: Table, prods: seq<Production>)
    requires a.Keys == b.Keys && RulesCovered(a, prods) && prods != []
    ensures RulesCovered(b, prods[1..])
  {
    forall i | 0 <= i < |prods[1..]| ensures Covers(b, prods[1..][i].prod) {
      assert prods[1..][i] == prods[i + 1];
      CoversSameKeys(a, b, prods[i + 1].prod);
    }
  }

  /**
   * `compute_first` on the tables given: the set-up, then passes over the
   * nonterminals until one changes nothing; the pass stops with KeyError
   * (the nonterminal is returned) at a nonterminal without `prod_names` entry.
   */
  method RunFirst(first: Table, terminals: seq<string>, nonterminals: seq<string>,
                  prodNames: map<string, seq<Production>>) returns (r: Computed)
    requires RhsCovered(FirstInit(first, terminals, nonterminals), prodNames)
    ensures r == ComputeFirst(first, terminals, nonterminals, prodNames)
  {
    var table := InitFirst(first, terminals, nonterminals);
    ghost var goal := ComputeFirst(first, terminals, nonterminals, prodNames);
    assert AllIn(nonterminals, table) by {
      forall i | 0 <= i < |nonterminals| ensures nonterminals[i] in table {
        assert nonterminals[i] in (set n | n in nonterminals);
      }
    }
    var changed := true;
    while changed
      invariant AllIn(nonterminals, table) && RhsCovered(table, prodNames)
      invariant changed ==> FirstFixpoint(table, prodNames, nonterminals) == goal
      invariant !changed ==> Computed(table, None) == goal
      decreases Box(table.Keys, Vals(table) + {Empty}) - Pairs(table), changed
    {
      var p := FirstPassAll(table, prodNames, nonterminals);
      FirstFixpointStep(table, prodNames, nonterminals);
      if p.missing.Some? {
        return Computed(p.table, p.missing);
      }
      table, changed := p.table, p.changed;
    }
    r := Computed(table, None);
  }

  /** One pass ends the fixpoint (KeyError or no change) or leaves the same fixpoint ahead, closer by the measure. */
  lemma FirstFixpointStep(first: Table, prodNames: map<string, seq<Production>>, nts: seq<string>)
    requires AllIn(nts, first) && RhsCovered(first, prodNames)
    ensures var p := FirstPass(first, prodNames, nts, false);
            && AllIn(nts, p.table) && RhsCovered(p.table, prodNames)
            && (p.missing.Some? ==> Computed(p.table, p.missing) == FirstFixpoint(first, prodNames, nts))
            && (p.missing.None? && !p.changed ==> Computed(p.table, None) == FirstFixpoint(first, prodNames, nts))
            && (p.missing.None? && p.changed ==> FirstFixpoint(p.table, prodNames, nts) == FirstFixpoint(first, prodNames, nts))
            && (p.changed ==> Box(p.table.Keys, Vals(p.table) + {Empty}) - Pairs(p.table)
                              < Box(first.Keys, Vals(first) + {Empty}) - Pairs(first))
  {
    var p := FirstPass(first, prodNames, nts, false);
    RhsCoveredSameKeys(first, p.table, prodNames);
    if p.changed {
      MeasureShrinks(first, p.table, Vals(first) + {Empty}, Vals(p.table) + {Empty});
    }
  }

  /** One pass of the `while changed` loop of `compute_first`, over every nonterminal. */
  method FirstPassAll(first: Table, prodNames: map<string, seq<Production>>, nonterminals: seq<string>)
      returns (r: PassResult)
    requires AllIn(nonterminals, first) && RhsCovered(first, prodNames)
    ensures r == FirstPass(first, prodNames, nonterminals, false)
  {
    var table, changed := first, false;
    var rest := nonterminals;
    while rest != []
      invariant AllIn(rest, table) && RhsCovered(table, prodNames)
      invariant FirstPass(table, prodNames, rest, changed) == FirstPass(first, prodNames, nonterminals, false)
      decreases |rest|
    {
      var n := rest[0];
      if n !in prodNames {
        return PassResult(table, changed, Some(n));
      }
      var pr := FirstPassOver(table, n, prodNames[n], changed);
      RhsCoveredSameKeys(table, pr.table, prodNames);
      AllInDrop(rest, pr.table, 1);
      table, changed, rest := pr.table, pr.changed, rest[1..];
    }
    r := PassResult(table, changed, None);
  }

  /** Every listed symbol has an entry in the table. */
  predicate AllIn(syms: seq<string>, table: Table)
  {
    forall i :: 0 <= i < |syms| ==> syms[i] in table
  }

  lemma AllInDrop(syms: seq<string>, table: Table, k: nat)
    requires AllIn(syms, table) && k <= |syms|
    ensures AllIn(syms[k..], table)
  {
    forall i | 0 <= i < |syms[k..]| ensures syms[k..][i] in table {
      assert syms[k..][i] == syms[k + i];
    }
  }

  /**
   * The inner loop of the position step of `compute_follow`: the members of
   * `ys` other than `<empty>` are appended to `xs` where absent; `hasEmpty`
   * tells whether `<empty>` was seen and `grew` whether anything was added.
   */
  method AppendNonEmpty(xs: seq<string>, ys: seq<string>) returns (r: seq<string>, hasEmpty: bool, grew: bool)
    ensures r == AppendMissing(xs, Without(ys, Empty))
    ensures hasEmpty <==> Empty in ys
    ensures grew <==> |r| > |xs|
  {
    r, hasEmpty, grew := xs, false, false;
    var m := 0;
    while m < |ys|
      invariant 0 <= m <= |ys|
      invariant r == AppendMissing(xs, Without(ys[..m], Empty))
      invariant hasEmpty <==> Empty in ys[..m]
      invariant grew <==> |r| > |xs|
    {
      assert ys[..m + 1] == ys[..m] + [ys[m]];
      WithoutSnoc(ys[..m], ys[m], Empty);
      AppendMissingFacts(xs, Without(ys[..m], Empty));
      if ys[m] == Empty {
        hasEmpty := true;
      } else {
        AppendMissingSnoc(xs, Without(ys[..m], Empty), ys[m]);
        if ys[m] !in r {
          r, grew := r + [ys[m]], true;
        }
      }
      m := m + 1;
    }
    assert ys[..m] == ys;
  }

  /**
   * The body of the position loop of `compute_follow` for the nonterminal
   * `B = p.prod[i]`: the non-empty members of FIRST of the rest of the rule
   * are appended to `follow[B]`, then, when that rest derives `<empty>` or
   * `B` is last, the members of `follow[p.name]`.
   */
  method FollowStep(follow: Table, first: Table, p: Production, i: nat) returns (r: Table, grew: bool)
    requires i < |p.prod| && p.prod[i] in follow && p.name in follow && Covers(first, p.prod)
    ensures r == FollowAt(follow, first, p, i)
    ensures grew <==> r != follow
  {
    CoversSuffix(first, p.prod, i + 1);
    var b := p.prod[i];
    var fst := FirstOf(first, p.prod[i + 1..]);
    var list, hasEmpty, grewFirst := AppendNonEmpty(follow[b], fst);
    AppendMissingFacts(follow[b], Without(fst, Empty));
    r, grew := follow[b := list], grewFirst;
    if hasEmpty || i == |p.prod| - 1 {
      var more, grewFollow := AppendAbsent(r[b], r[p.name]);
      AppendMissingFacts(r[b], r[p.name]);
      r, grew := r[b := more], grew || grewFollow;
    }
    if grew {
      assert r[b] != follow[b];
    } else {
      assert r[b] == follow[b];
    }
  }

  /** The position loop of `compute_follow` over the right-hand side of `p`, from position `i`. */
  method FollowOverRule(follow: Table, first: Table, nts: set<string>, p: Production, added: bool) returns (r: Progress)
    requires p.name in follow && nts <= follow.Keys && Covers(first, p.prod)
    ensures r == FollowPassSyms(follow, first, nts, p, 0, added)
  {
    var table, grew := follow, added;
    var j := 0;
    while j < |p.prod|
      invariant 0 <= j <= |p.prod|
      invariant table.Keys == follow.Keys
      invariant FollowPassSyms(table, first, nts, p, j, grew) == FollowPassSyms(follow, first, nts, p, 0, added)
    {
      if p.prod[j] in nts {
        var t, g := FollowStep(table, first, p, j);
        FollowAtFacts(table, first, nts, p, j);
        table, grew := t, grew || g;
      }
      j := j + 1;
    }
    r := Progress(table, grew);
  }

  /** One pass of the `while added` loop of `compute_follow`, over every production. */
  method FollowPassAll(follow: Table, first: Table, nts: set<string>, prods: seq<Production>) returns (r: Progress)
    requires FollowReady(follow, first, nts, prods)
    ensures r == FollowPass(follow, first, nts, prods, false)
  {
    var table, added := follow, false;
    var rest := prods;
    while rest != []
      invariant FollowReady(table, first, nts, rest)
      invariant FollowPass(table, first, nts, rest, added) == FollowPass(follow, first, nts, prods, false)
      decreases |rest|
    {
      var pr := FollowOverRule(table, first, nts, rest[0], added);
      assert forall q :: 0 <= q < |rest[1..]| ==> rest[1..][q] == rest[q + 1];
      table, added, rest := pr.table, pr.changed, rest[1..];
    }
    r := Progress(table, added);
  }

  /**
   * `compute_follow` on the tables given, over the productions `prods`: the
   * set-up, then passes over every position of every rule until one adds
   * nothing.
   */
  method RunFollow(follow: Table, first: Table, nonterminals: seq<string>, start: Option<string>,
                   prods: seq<Production>) returns (r: Table)
    requires FollowInputs(first, nonterminals, prods)
    ensures r == ComputeFollow(follow, first, nonterminals, start, prods)
  {
    var table := InitFollow(follow, nonterminals, start);
    var nts := set n | n in nonterminals;
    FollowInitReady(follow, first, nonterminals, start, prods);
    ghost var goal := FollowFixpoint(table, first, nts, prods);
    var added := true;
    while added
      invariant FollowReady(table, first, nts, prods)
      invariant added ==> FollowFixpoint(table, first, nts, prods) == goal
      invariant !added ==> table == goal
      decreases Box(table.Keys, Vals(table) + Vals(first)) - Pairs(table), added
    {
      var p := FollowPassAll(table, first, nts, prods);
      FollowFixpointStep(table, first, nts, prods);
      table, added := p.table, p.changed;
    }
    r := table;
  }

  /** One pass either reaches the fixpoint or leaves the same fixpoint ahead, closer by the measure. */
  lemma FollowFixpointStep(follow: Table, first: Table, nts: set<string>, prods: seq<Production>)
    requires FollowReady(follow, first, nts, prods)
    ensures var p := FollowPass(follow, first, nts, prods, false);
            && FollowReady(p.table, first, nts, prods)
            && (!p.changed ==> p.table == FollowFixpoint(follow, first, nts, prods))
            && (p.changed ==> FollowFixpoint(p.table, first, nts, prods) == FollowFixpoint(follow, first, nts, prods))
            && (p.changed ==> Box(p.table.Keys, Vals(p.table) + Vals(first)) - Pairs(p.table)
                              < Box(follow.Keys, Vals(follow) + Vals(first)) - Pairs(follow))
  {
    var p := FollowPass(follow, first, nts, prods, false);
    FollowPassShrinks(follow, first, nts, prods, p);
  }

  lemma FollowPassShrinks(follow: Table, first: Table, nts: set<string>, prods: seq<Production>, p: Progress)
    requires FollowReady(follow, first, nts, prods) && p == FollowPass(follow, first, nts, prods, false)
    ensures FollowReady(p.table, first, nts, prods)
    ensures p.changed ==> Box(p.table.Keys, Vals(p.table) + Vals(first)) - Pairs(p.table)
                          < Box(follow.Keys, Vals(follow) + Vals(first)) - Pairs(follow)
  {
    if p.changed {
      MeasureShrinks(follow, p.table, Vals(follow) + Vals(first), Vals(p.table) + Vals(first));
    }
  }

  /** The set-up of `compute_follow`: an empty list for every nonterminal, then `[$end]` for the start symbol. */
  method InitFollow(follow: Table, nonterminals: seq<string>, start: Option<string>) returns (r: Table)
    ensures r == FollowInit(follow, nonterminals, start)
  {
    r := follow;
    var i := 0;
    while i < |nonterminals|
      invariant 0 <= i <= |nonterminals|
      invariant forall k :: k in r <==> k in follow || k in nonterminals[..i]
      invariant forall k :: k in r ==> r[k] == if k in nonterminals[..i] then [] else follow[k]
    {
      assert nonterminals[..i + 1] == nonterminals[..i] + [nonterminals[i]];
      r := r[nonterminals[i] := []];
      i := i + 1;
    }
    assert nonterminals[..i] == nonterminals;
    if start.Some? {
      r := r[start.value := [EndMarker]];
    }
    FollowInitAgrees(follow, nonterminals, start, r);
  }

  lemma FollowInitReady(follow: Table, first: Table, nonterminals: seq<string>, start: Option<string>, prods: seq<Production>)
    requires FollowInputs(first, nonterminals, prods)
    ensures FollowReady(FollowInit(follow, nonterminals, start), first, (set n | n in nonterminals), prods)
  {
  }

  /** A table with FollowInit's keys and FollowInit's entries is FollowInit. */
  lemma FollowInitAgrees(follow: Table, nonterminals: seq<string>, start: Option<string>, r: Table)
    requires forall k :: k in r <==> k in follow || k in nonterminals || start == Some(k)
    requires forall k :: k in r ==>
               r[k] == if start == Some(k) then [EndMarker] else if k in nonterminals then [] else follow[k]
    ensures r == FollowInit(follow, nonterminals, start)
  {
    var init := FollowInit(follow, nonterminals, start);
    assert r.Keys == init.Keys;
  }
}
