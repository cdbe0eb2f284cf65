/** The few Python list operations the model relies on, written as functions on sequences. */
module Lists {
  import opened Wrappers

  /** No element occurs twice. */
  predicate Distinct<T(==)>(xs: seq<T>)
  {
    forall i, j :: 0 <= i < j < |xs| ==> xs[i] != xs[j]
  }

  /**
   * The list `xs` after `for y in ys: if y not in xs: xs.append(y)`: the
   * append-if-absent loop that rply uses to grow its FIRST and FOLLOW lists
   * and Python's dict uses for its key order.
   */
  function AppendMissing<T(==)>(xs: seq<T>, ys: seq<T>): seq<T>
  {
    if ys == [] then xs
    else
      var r := AppendMissing(xs, ys[..|ys| - 1]);
      if ys[|ys| - 1] in r then r else r + [ys[|ys| - 1]]
  }

  /** AppendMissing only adds, keeps `xs` as a prefix, adds exactly the missing elements of `ys`, and adds no duplicates. */
  lemma {:induction false} AppendMissingFacts<T>(xs: seq<T>, ys: seq<T>)
    ensures |AppendMissing(xs, ys)| >= |xs| && AppendMissing(xs, ys)[..|xs|] == xs
    ensures forall z :: z in AppendMissing(xs, ys) <==> z in xs || z in ys
    ensures forall k :: |xs| <= k < |AppendMissing(xs, ys)| ==> AppendMissing(xs, ys)[k] !in xs
    ensures Distinct(xs) ==> Distinct(AppendMissing(xs, ys))
    ensures |AppendMissing(xs, ys)| == |xs| <==> forall y :: y in ys ==> y in xs
    ensures |AppendMissing(xs, ys)| == |xs| ==> AppendMissing(xs, ys) == xs
  {
    if ys != [] {
      var init := ys[..|ys| - 1];
      AppendMissingFacts(xs, init);
      assert ys == init + [ys[|ys| - 1]];
    }
  }

  /** One more step of the append-if-absent loop. */
  lemma AppendMissingSnoc<T>(xs: seq<T>, ys: seq<T>, y: T)
    ensures AppendMissing(xs, ys + [y])
         == var r := AppendMissing(xs, ys); if y in r then r else r + [y]
  {
    assert (ys + [y])[..|ys|] == ys;
  }

  /** Running the append-if-absent loop over `ys + zs` is running it over `ys`, then over `zs`. */
  lemma {:induction false} AppendMissingConcat<T>(xs: seq<T>, ys: seq<T>, zs: seq<T>)
    ensures AppendMissing(xs, ys + zs) == AppendMissing(AppendMissing(xs, ys), zs)
    decreases |zs|
  {
    if zs == [] {
      assert ys + zs == ys;
    } else {
      var init := zs[..|zs| - 1];
      var last := zs[|zs| - 1];
      assert zs == init + [last];
      assert ys + zs == (ys + init) + [last];
      AppendMissingConcat(xs, ys, init);
      AppendMissingSnoc(xs, ys + init, last);
      AppendMissingSnoc(AppendMissing(xs, ys), init, last);
    }
  }

  /** A leading element is appended first, when absent. */
  lemma AppendMissingPrepend<T>(xs: seq<T>, y: T, ys: seq<T>)
    ensures AppendMissing(xs, [y] + ys) == AppendMissing(if y in xs then xs else xs + [y], ys)
  {
    AppendMissingConcat(xs, [y], ys);
    assert AppendMissing(xs, [y]) == if y in xs then xs else xs + [y] by {
      AppendMissingSnoc(xs, [], y);
      assert [] + [y] == [y];
    }
  }

  /** `xs.count(x)`. */
  function Count<T(==)>(xs: seq<T>, x: T): nat
  {
    if xs == [] then 0
    else Count(xs[..|xs| - 1], x) + (if xs[|xs| - 1] == x then 1 else 0)
  }

  lemma CountSnoc<T>(xs: seq<T>, y: T, x: T)
    ensures Count(xs + [y], x) == Count(xs, x) + (if y == x then 1 else 0)
  {
    assert (xs + [y])[..|xs|] == xs;
  }

  /** Counting over a concatenation adds up. */
  lemma {:induction false} CountConcat<T>(xs: seq<T>, ys: seq<T>, x: T)
    ensures Count(xs + ys, x) == Count(xs, x) + Count(ys, x)
    decreases |ys|
  {
    if ys == [] {
      assert xs + ys == xs;
    } else {
      var init, last := ys[..|ys| - 1], ys[|ys| - 1];
      assert xs + ys == (xs + init) + [last];
      assert ys == init + [last];
      CountSnoc(xs + init, last, x);
      CountSnoc(init, last, x);
      CountConcat(xs, init, x);
    }
  }

  lemma {:induction false} CountZero<T>(xs: seq<T>, x: T)
    ensures Count(xs, x) == 0 <==> x !in xs
  {
    if xs != [] {
      var init := xs[..|xs| - 1];
      CountZero(init, x);
      assert xs == init + [xs[|xs| - 1]];
    }
  }

  /** `[x] * n`. */
  function Repeat<T>(x: T, n: nat): (r: seq<T>)
    ensures |r| == n && forall i :: 0 <= i < n ==> r[i] == x
  {
    if n == 0 then [] else Repeat(x, n - 1) + [x]
  }

  /** `[y for y in xs if y != v]`. */
  function Without<T(==)>(xs: seq<T>, v: T): seq<T>
  {
    if xs == [] then []
    else
      var r := Without(xs[..|xs| - 1], v);
      if xs[|xs| - 1] == v then r else r + [xs[|xs| - 1]]
  }

  lemma {:induction false} WithoutContents<T>(xs: seq<T>, v: T)
    ensures forall z :: z in Without(xs, v) <==> z in xs && z != v
  {
    if xs != [] {
      WithoutContents(xs[..|xs| - 1], v);
      assert xs == xs[..|xs| - 1] + [xs[|xs| - 1]];
    }
  }

  lemma WithoutSnoc<T>(xs: seq<T>, y: T, v: T)
    ensures Without(xs + [y], v) == if y == v then Without(xs, v) else Without(xs, v) + [y]
  {
    assert (xs + [y])[..|xs|] == xs;
  }

  /** `xs[i]` with Python's negative indexing; None where Python raises IndexError. */
  function PyIndex<T>(xs: seq<T>, i: int): (r: Option<T>)
    ensures r.Some? <==> -|xs| <= i < |xs|
    ensures 0 <= i < |xs| ==> r == Some(xs[i])
    ensures -|xs| <= i < 0 ==> r == Some(xs[|xs| + i])
  {
    if 0 <= i < |xs| then Some(xs[i])
    else if -|xs| <= i < 0 then Some(xs[|xs| + i])
    else None
  }

  /** The list `xs` after `xs.insert(i, x)` for a non-negative `i`: past the end it appends. */
  function Insert<T>(xs: seq<T>, i: nat, x: T): (r: seq<T>)
    ensures |r| == |xs| + 1
    ensures i <= |xs| ==> r[i] == x && r[..i] == xs[..i] && r[i + 1..] == xs[i..]
    ensures i >= |xs| ==> r == xs + [x]
  {
    if i < |xs| then xs[..i] + [x] + xs[i..] else xs + [x]
  }

  /** The list `xs` after deleting the first element equal to `x` (unchanged if there is none). */
  function RemoveFirst<T(==)>(xs: seq<T>, x: T): seq<T>
  {
    if xs == [] then []
    else if xs[0] == x then xs[1..]
    else [xs[0]] + RemoveFirst(xs[1..], x)
  }

  /** Deleting at the first index that holds `x` is RemoveFirst. */
  lemma {:induction false} RemoveFirstAt<T>(xs: seq<T>, x: T, i: nat)
    requires i < |xs| && xs[i] == x
    requires forall j :: 0 <= j < i ==> xs[j] != x
    ensures RemoveFirst(xs, x) == xs[..i] + xs[i + 1..]
  {
    if i > 0 {
      RemoveFirstAt(xs[1..], x, i - 1);
      assert xs[1..][..i - 1] == xs[1..i];
      assert xs[1..][i..] == xs[i + 1..];
      assert [xs[0]] + xs[1..i] == xs[..i];
    }
  }

  lemma {:induction false} RemoveFirstAbsent<T>(xs: seq<T>, x: T)
    requires x !in xs
    ensures RemoveFirst(xs, x) == xs
  {
    if xs != [] {
      RemoveFirstAbsent(xs[1..], x);
      assert xs == [xs[0]] + xs[1..];
    }
  }

  /** RemoveFirst takes away exactly one occurrence of `x` and nothing else. */
  lemma {:induction false} RemoveFirstCount<T>(xs: seq<T>, x: T, y: T)
    ensures Count(RemoveFirst(xs, x), y)
         == if y == x && x in xs then Count(xs, y) - 1 else Count(xs, y)
  {
    if xs != [] {
      RemoveFirstCount(xs[1..], x, y);
      CountConcat([xs[0]], xs[1..], y);
      assert [xs[0]] + xs[1..] == xs;
      if xs[0] != x {
        CountConcat([xs[0]], RemoveFirst(xs[1..], x), y);
      }
      assert Count([xs[0]], y) == (if xs[0] == y then 1 else 0) by {
        assert [xs[0]][..0] == [];
      }
    }
  }

  /** Removing one occurrence leaves every other value present. */
  lemma RemoveFirstKeeps<T>(xs: seq<T>, x: T, y: T)
    requires y in xs && y != x
    ensures y in RemoveFirst(xs, x)
  {
    RemoveFirstCount(xs, x, y);
    CountZero(xs, y);
    CountZero(RemoveFirst(xs, x), y);
  }

  /** Deleting one element keeps a list duplicate-free, and it leaves that element out. */
  lemma DistinctDrop<T>(xs: seq<T>, i: nat)
    requires Distinct(xs) && i < |xs|
    ensures Distinct(xs[..i] + xs[i + 1..]) && xs[i] !in xs[..i] + xs[i + 1..]
  {
    var o := xs[..i] + xs[i + 1..];
    assert forall a :: 0 <= a < |o| ==> o[a] == if a < i then xs[a] else xs[a + 1];
  }

  /** A duplicate-free list has as many elements as the set of its elements. */
  lemma {:induction false} DistinctCard<T>(xs: seq<T>)
    requires Distinct(xs)
    ensures |set x | x in xs| == |xs|
  {
    if xs != [] {
      var init := xs[..|xs| - 1];
      DistinctCard(init);
      assert (set x | x in xs) == (set x | x in init) + {xs[|xs| - 1]};
    }
  }
}
