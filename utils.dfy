/** rply/utils.py: an identity-keyed dictionary, a counter, and dict views. */
module Utils {
  import opened Wrappers
  import opened Lists

  /**
   * `iteritems(d)`, i.e. `d.items()`, for a dict given by its key order
   * `order` (insertion order, as Python keeps it) and its mapping `m`.
   */
  function ItemsOf<K, V>(order: seq<K>, m: map<K, V>): (r: seq<(K, V)>)
    requires forall k :: k in order ==> k in m
    ensures |r| == |order|
    ensures forall i :: 0 <= i < |order| ==> r[i] == (order[i], m[order[i]])
  {
    if order == [] then []
    else ItemsOf(order[..|order| - 1], m) + [(order[|order| - 1], m[order[|order| - 1]])]
  }

  /** `itervalues(d)`, i.e. `d.values()`, in the dict's key order. */
  function ValuesOf<K, V>(order: seq<K>, m: map<K, V>): (r: seq<V>)
    requires forall k :: k in order ==> k in m
    ensures |r| == |order|
    ensures forall i :: 0 <= i < |order| ==> r[i] == m[order[i]]
  {
    if order == [] then []
    else ValuesOf(order[..|order| - 1], m) + [m[order[|order| - 1]]]
  }

  /** What `_contents` stores under `id(key)`: the key itself, its value, and the length of `_keepalive` when it was set. */
  datatype Entry<V> = Entry(key: object, value: V, idx: nat)

  /** `[key for key, _, _ in entries]`. */
  function EntryKeys<V>(entries: seq<Entry<V>>): (r: seq<object>)
    ensures |r| == |entries|
    ensures forall i :: 0 <= i < |entries| ==> r[i] == entries[i].key
  {
    if entries == [] then []
    else EntryKeys(entries[..|entries| - 1]) + [entries[|entries| - 1].key]
  }

  /**
   * A mapping whose keys are compared by identity. Dafny object references
   * stand for Python's `id(key)`: `contents` is `_contents`, `order` is the
   * insertion order Python keeps for `_contents`, and `keepalive` is
   * `_keepalive`, the list of every key ever set and not yet deleted.
   */
  class IdentityDict<V> {
    var contents: map<object, Entry<V>>
    var order: seq<object>
    var keepalive: seq<object>

    ghost predicate Valid()
      reads this
    {
      Stored(contents, order, keepalive)
    }

    constructor ()
      ensures Valid()
      ensures contents == map[] && order == [] && keepalive == []
    {
      contents, order, keepalive := map[], [], [];
    }

    /** `d[key]`; None where Python raises KeyError. */
    function Get(key: object): (r: Option<V>)
      reads this
      ensures r.Some? <==> key in contents
      ensures r.Some? ==> r.value == contents[key].value
    {
      if key in contents then Some(contents[key].value) else None
    }

    /** `len(d)`: the number of keys stored, which is the number iteration yields. */
    function Len(): (r: nat)
      reads this
      requires Valid()
      ensures r == |contents| == |Iter()|
    {
      assert contents.Keys == set k | k in order;
      DistinctCard(order);
      |contents|
    }

    /** `iter(d)`: the stored keys, each exactly once, in `_contents` order. */
    function Iter(): (r: seq<object>)
      reads this
      requires Valid()
      ensures Distinct(r)
      ensures forall k :: k in r ==> k in contents
      ensures forall k :: k in contents ==> k in r
    {
      var r := EntryKeys(ValuesOf(order, contents));
      assert r == order;
      r
    }

    /** `d[key] = value`. */
    method Set(key: object, value: V)
      requires Valid()
      modifies this
      ensures Valid()
      ensures keepalive == old(keepalive) + [key]
      ensures contents == old(contents)[key := Entry(key, value, |old(keepalive)|)]
      ensures order == if key in old(contents) then old(order) else old(order) + [key]
      ensures Get(key) == Some(value)
      ensures forall k :: k in old(contents) && k != key ==> Get(k) == old(Get(k))
      ensures Len() == old(Len()) + if key in old(contents) then 0 else 1
    {
      var idx := |keepalive|;
      SetKeepsStored(contents, order, keepalive, key, value);
      keepalive := keepalive + [key];
      if key !in contents {
        order := order + [key];
      }
      contents := contents[key := Entry(key, value, idx)];
    }

    /** `del d[key]`: Fail is Python's KeyError, raised before `_keepalive` is touched. */
    method Delete(key: object) returns (r: Outcome<object>)
      requires Valid()
      modifies this
      ensures Valid()
      ensures r.Fail? <==> key !in old(contents)
      ensures r.Fail? ==> r.error == key && unchanged(this)
      ensures r.Pass? ==> contents == old(contents) - {key}
      ensures r.Pass? ==> order == RemoveFirst(old(order), key)
      ensures r.Pass? ==> keepalive == RemoveFirst(old(keepalive), key)
    {
      if key !in contents {
        return Fail(key);
      }
      DeleteKeepsStored(contents, order, keepalive, key);
      var i := FindFirst(order, key);
      RemoveFirstAt(order, key, i);
      order := order[..i] + order[i + 1..];
      contents := contents - {key};
      var j := FindFirst(keepalive, key);
      if j < |keepalive| {
        RemoveFirstAt(keepalive, key, j);
        keepalive := keepalive[..j] + keepalive[j + 1..];
      }
      return Pass;
    }
  }

  /**
   * How an IdentityDict keeps its parts together: each stored key once in
   * the key order, nothing else there, and every entry filed under its own
   * key and kept alive.
   */
  ghost predicate Stored<V>(contents: map<object, Entry<V>>, order: seq<object>, keepalive: seq<object>)
  {
    && Distinct(order)
    && (forall k :: k in order ==> k in contents)
    && (forall k :: k in contents ==> k in order)
    && (forall k :: k in contents ==> contents[k].key == k && k in keepalive)
  }

  /** Setting a key, appended to the key order when new and to the keepalive list always, keeps the parts together. */
  lemma SetKeepsStored<V>(contents: map<object, Entry<V>>, order: seq<object>, keepalive: seq<object>, key: object, value: V)
    requires Stored(contents, order, keepalive)
    ensures Stored(contents[key := Entry(key, value, |keepalive|)], if key in contents then order else order + [key],
                   keepalive + [key])
  {
  }

  /** Deleting a stored key from the entries, the key order and the keepalive list keeps them together. */
  lemma DeleteKeepsStored<V>(contents: map<object, Entry<V>>, order: seq<object>, keepalive: seq<object>, key: object)
    requires Stored(contents, order, keepalive) && key in contents
    ensures Stored(contents - {key}, RemoveFirst(order, key), RemoveFirst(keepalive, key))
  {
    var o := RemoveFirst(order, key);
    var i :| 0 <= i < |order| && order[i] == key;
    RemoveFirstAt(order, key, i);
    DistinctDrop(order, i);
    forall k | k in contents - {key} ensures k in o && k in RemoveFirst(keepalive, key) {
      RemoveFirstKeeps(order, key, k);
      RemoveFirstKeeps(keepalive, key, k);
    }
    assert key !in o;
  }

  /** The `enumerate` loop that looks for the first element equal to `x`: its index, or `|xs|` when there is none. */
  method FindFirst<T(==)>(xs: seq<T>, x: T) returns (i: nat)
    ensures i <= |xs| && (i < |xs| ==> xs[i] == x)
    ensures forall j :: 0 <= j < i ==> xs[j] != x
  {
    i := 0;
    while i < |xs| && xs[i] != x
      invariant i <= |xs|
      invariant forall j :: 0 <= j < i ==> xs[j] != x
    {
      i := i + 1;
    }
  }

  /** A mutable integer cell. */
  class Counter {
    var value: int

    constructor (value: int := 0)
      ensures this.value == value
    {
      this.value := value;
    }

    /** `incr()`. */
    method Incr()
      modifies this
      ensures value == old(value) + 1
    {
      value := value + 1;
    }
  }
}
