/**
 * The LR(0) items `build_lritems` in rply/grammar.py hangs off each rule:
 * what one item holds, and the loop that builds a rule's items and chains
 * them through `lr_next`.
 */
module Items {
  import opened Wrappers
  import opened Lists
  import opened Productions

  /**
   * LR item `it` is item `i` of rule `p`: the rule with the dot inserted at
   * `i`, `lr_before` the symbol at `i - 1` as Python indexes it (so for
   * `i == 0` the last symbol, None for an empty rule), and `lr_after` the
   * rules of the symbol after the dot ([] past the end or for a symbol
   * without rules).
   */
  predicate ItemIs(it: LRItem, p: Production, i: nat, names: map<string, seq<Production>>)
  {
    && it.name == p.name && it.number == p.number && it.uniqueSyms == p.uniqueSyms
    && it.prod == Insert(p.prod, i, ".") && it.lrIndex == i
    && it.lrBefore == PyIndex(p.prod, i - 1)
    && it.lrAfter == (if i < |p.prod| && p.prod[i] in names then names[p.prod[i]] else [])
  }

  /** `items[j]` is item `j` of rule `p`, for every `j`. */
  predicate ItemsOfRule(items: seq<LRItem>, p: Production, names: map<string, seq<Production>>)
  {
    forall j {:trigger ItemIs(items[j], p, j, names)} :: 0 <= j < |items| ==> ItemIs(items[j], p, j, names)
  }

  lemma ItemsOfRuleSnoc(items: seq<LRItem>, it: LRItem, p: Production, names: map<string, seq<Production>>)
    requires ItemsOfRule(items, p, names) && ItemIs(it, p, |items|, names)
    ensures ItemsOfRule(items + [it], p, names)
  {
  }

  /**
   * What `build_lritems` leaves on rule `p`: items 0 to `len(p)`, chained
   * from `p.lr_next` through each item's `lr_next` to None.
   */
  ghost predicate ItemsBuilt(p: Production, names: map<string, seq<Production>>)
    reads p, p.lrItems
  {
    var items := p.lrItems;
    && |items| == |p.prod| + 1
    && ItemsOfRule(items, p, names)
    && p.lrNext == items[0]
    && (forall i :: 0 <= i < |items| - 1 ==> items[i].lrNext == items[i + 1])
    && items[|items| - 1].lrNext == null
  }

  /**
   * An item is its rule with one dot: the dot sits at `lr_index`, taking
   * it out gives the rule back, `lr_before` is the symbol left of the dot
   * (past the dot's start it is the rule's last symbol), and every rule in
   * `lr_after` is a rule of the symbol right of the dot.
   */
  lemma ItemFacts(it: LRItem, p: Production, i: nat, names: map<string, seq<Production>>)
    requires ItemIs(it, p, i, names) && i <= |p.prod|
    requires forall n, j :: n in names && 0 <= j < |names[n]| ==> names[n][j].name == n
    ensures it.Length() == p.Length() + 1 && it.prod[it.lrIndex] == "."
    ensures it.prod[..i] + it.prod[i + 1..] == p.prod
    ensures 0 < i ==> it.lrBefore == Some(it.prod[i - 1])
    ensures i == 0 ==> it.lrBefore == (if p.prod == [] then None else Some(p.prod[|p.prod| - 1]))
    ensures i == |p.prod| ==> it.lrAfter == []
    ensures forall q :: q in it.lrAfter ==> i < |p.prod| && q.name == it.prod[i + 1]
  {
    assert p.prod == p.prod[..i] + p.prod[i..];
    if i < |p.prod| {
      assert it.prod[i + 1] == p.prod[i] by {
        assert it.prod[i + 1..] == p.prod[i..];
      }
    }
  }

  /** The body of `build_lritems` for one rule `p`. */
  method BuildItems(p: Production, names: map<string, seq<Production>>)
    modifies p
    ensures ItemsBuilt(p, names)
  {
    var lri := new LRItem(p, 0, PyIndex(p.prod, -1), if 0 < |p.prod| && p.prod[0] in names then names[p.prod[0]] else []);
    p.lrNext := lri;
    var items := [lri];
    var i := 1;
    while i <= |p.prod|
      invariant 1 <= i <= |p.prod| + 1 && |items| == i
      invariant ItemsOfRule(items, p, names)
      invariant forall j :: 0 <= j < i ==> items[j].lrIndex == j
      invariant fresh(items[i - 1])
      invariant p.lrNext == items[0] && items[i - 1].lrNext == null
      invariant forall j :: 0 <= j < i - 1 ==> items[j].lrNext == items[j + 1]
    {
      var before := PyIndex(p.prod, i - 1);
      var after := if i < |p.prod| && p.prod[i] in names then names[p.prod[i]] else [];
      lri := new LRItem(p, i, before, after);
      ItemsOfRuleSnoc(items, lri, p, names);
      var last := items[i - 1];
      last.lrNext := lri;
      forall j | 0 <= j < i - 1 ensures items[j].lrNext == items[j + 1] {
        assert items[j].lrIndex == j;
      }
      items, i := items + [lri], i + 1;
    }
    p.lrItems := items;
  }
}
