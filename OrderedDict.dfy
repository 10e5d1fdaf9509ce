/**
 * Python's insertion-ordered `dict` with string keys, as the list of its
 * items. Assigning to a key that is present replaces its value where it
 * stands; assigning to a new key appends it. Both the folder mapping and the
 * size summary are such dicts.
 */
module OrderedDict {
  import opened Wrappers

  type Dict<V> = seq<(string, V)>

  /** The keys of a list of items, in order (`list(d.keys())`). */
  function Keys<V>(items: seq<(string, V)>): (ks: seq<string>)
    ensures |ks| == |items|
  {
    if items == [] then [] else [items[0].0] + Keys(items[1..])
  }

  lemma {:induction false} KeysAppend<V>(a: seq<(string, V)>, b: seq<(string, V)>)
    ensures Keys(a + b) == Keys(a) + Keys(b)
    decreases |a|
  {
    if a == [] {
      assert a + b == b;
    } else {
      assert (a + b)[1..] == a[1..] + b;
      KeysAppend(a[1..], b);
    }
  }

  lemma {:induction false} KeysAt<V>(items: seq<(string, V)>)
    ensures forall i :: 0 <= i < |items| ==> Keys(items)[i] == items[i].0
  {
    if items != [] {
      KeysAt(items[1..]);
    }
  }

  predicate Distinct<T(==)>(s: seq<T>)
  {
    forall i, j :: 0 <= i < j < |s| ==> s[i] != s[j]
  }

  /** `d.get(k)`: the value stored under `k`, if `k` is a key. */
  function Get<V>(d: Dict<V>, k: string): (r: Option<V>)
    ensures r.Some? <==> k in Keys(d)
  {
    if d == [] then None
    else if d[0].0 == k then Some(d[0].1)
    else Get(d[1..], k)
  }

  /**
   * `d[k] = v`: afterwards `k` maps to `v` and every other key keeps its
   * value (`SetKeys` says what becomes of the order of the keys).
   */
  function Set<V>(d: Dict<V>, k: string, v: V): (r: Dict<V>)
    ensures Get(r, k) == Some(v)
    ensures forall k' :: k' != k ==> Get(r, k') == Get(d, k')
  {
    if d == [] then [(k, v)]
    else if d[0].0 == k then [(k, v)] + d[1..]
    else [d[0]] + Set(d[1..], k, v)
  }

  /** Assigning to a present key leaves the keys as they are; assigning to a new key appends it. */
  lemma {:induction false} SetKeys<V>(d: Dict<V>, k: string, v: V)
    ensures Keys(Set(d, k, v)) == if k in Keys(d) then Keys(d) else Keys(d) + [k]
  {
    if d != [] && d[0].0 != k {
      var rest := Set(d[1..], k, v);
      SetKeys(d[1..], k, v);
      var r := [d[0]] + rest;
      assert r[1..] == rest;
      assert Keys(d) == [d[0].0] + Keys(d[1..]);
      assert Keys(r) == [d[0].0] + Keys(rest);
    } else if d != [] {
      var r := [(k, v)] + d[1..];
      assert r[1..] == d[1..];
    }
  }

  /** Assigning to a key the dict does not have appends the item. */
  lemma {:induction false} SetNew<V>(d: Dict<V>, k: string, v: V)
    requires k !in Keys(d)
    ensures Set(d, k, v) == d + [(k, v)]
  {
    if d != [] {
      assert Keys(d) == [d[0].0] + Keys(d[1..]);
      SetNew(d[1..], k, v);
      assert d == [d[0]] + d[1..];
    }
  }

  /** Assignment keeps the keys of a dict distinct. */
  lemma SetDistinct<V>(d: Dict<V>, k: string, v: V)
    requires Distinct(Keys(d))
    ensures Distinct(Keys(Set(d, k, v)))
  {
    SetKeys(d, k, v);
    var ks := Keys(d);
    if k !in ks {
      assert forall i :: 0 <= i < |ks| ==> (ks + [k])[i] == ks[i];
    }
  }

  /** The assignments `d[k] = v` for each item `(k, v)` of `items`, in order. */
  function SetAll<V>(d: Dict<V>, items: seq<(string, V)>): Dict<V>
    decreases |items|
  {
    if items == [] then d else SetAll(Set(d, items[0].0, items[0].1), items[1..])
  }

  lemma {:induction false} SetAllAppend<V>(d: Dict<V>, a: seq<(string, V)>, b: seq<(string, V)>)
    ensures SetAll(d, a + b) == SetAll(SetAll(d, a), b)
    decreases |a|
  {
    if a != [] {
      assert (a + b)[1..] == a[1..] + b;
      SetAllAppend(Set(d, a[0].0, a[0].1), a[1..], b);
    } else {
      assert a + b == b;
    }
  }

  /** Assigning only fresh, distinct keys appends the items in order. */
  lemma {:induction false} SetAllFresh<V>(d: Dict<V>, items: seq<(string, V)>)
    requires Distinct(Keys(d + items))
    ensures SetAll(d, items) == d + items
    decreases |items|
  {
    if items != [] {
      var x := items[0];
      var all := d + items;
      assert all == (d + [x]) + items[1..];
      assert x.0 !in Keys(d) by {
        KeysAt(all);
        KeysAt(d);
        assert all[|d|] == x;
        forall i | 0 <= i < |d|
          ensures Keys(d)[i] != x.0
        {
          assert all[i] == d[i];
        }
      }
      SetNew(d, x.0, x.1);
      SetAllFresh(d + [x], items[1..]);
    }
  }

  /** The elements of `s` at their first occurrence, in the order of `s`. */
  function Dedup(s: seq<string>): (r: seq<string>)
    ensures Distinct(r)
    ensures forall x :: x in r <==> x in s
    decreases |s|
  {
    if s == [] then []
    else
      var p := Dedup(s[..|s| - 1]);
      assert forall x :: x in s <==> x in s[..|s| - 1] || x == s[|s| - 1] by {
        assert s == s[..|s| - 1] + [s[|s| - 1]];
      }
      if s[|s| - 1] in p then p else p + [s[|s| - 1]]
  }

  lemma {:induction false} DedupDistinct(s: seq<string>)
    requires Distinct(s)
    ensures Dedup(s) == s
    decreases |s|
  {
    if s != [] {
      DedupDistinct(s[..|s| - 1]);
      assert s[|s| - 1] !in s[..|s| - 1];
      assert s == s[..|s| - 1] + [s[|s| - 1]];
    }
  }

  /** The value of the last item whose key is `k`, if there is one. */
  function LastValue<V>(items: seq<(string, V)>, k: string): (r: Option<V>)
    ensures r.Some? <==> k in Keys(items)
    ensures r.Some? ==> (k, r.value) in items
    decreases |items|
  {
    if items == [] then None
    else
      var n := |items| - 1;
      assert items == items[..n] + [items[n]];
      KeysAppend(items[..n], [items[n]]);
      if items[n].0 == k then Some(items[n].1) else LastValue(items[..n], k)
  }

  /**
   * After a run of assignments the keys are the old keys followed by the
   * newly assigned ones, each at its first assignment.
   */
  lemma {:induction false} SetAllKeys<V>(d: Dict<V>, items: seq<(string, V)>)
    requires Distinct(Keys(d))
    ensures Keys(SetAll(d, items)) == Dedup(Keys(d) + Keys(items))
    decreases |items|
  {
    if items == [] {
      DedupDistinct(Keys(d));
      assert Keys(d) + Keys(items) == Keys(d);
    } else {
      var n := |items| - 1;
      var p, x := items[..n], items[n];
      assert items == p + [x];
      SetAllAppend(d, p, [x]);
      SetAllKeys(d, p);
      SetKeys(SetAll(d, p), x.0, x.1);
      KeysAppend(p, [x]);
      assert Keys([x]) == [x.0];
      var q := Keys(d) + Keys(p);
      var s := Keys(d) + Keys(items);
      assert s == q + [x.0];
      assert s[..|s| - 1] == q;
      DedupSnoc(q, x.0);
    }
  }

  /** Deduplicating one more element appends it unless it was seen already. */
  lemma DedupSnoc(q: seq<string>, y: string)
    ensures Dedup(q + [y]) == if y in q then Dedup(q) else Dedup(q) + [y]
  {
    var s := q + [y];
    assert s[..|s| - 1] == q;
  }

  /**
   * After a run of assignments a key holds the value of its last assignment,
   * or its old value when the run never assigned it.
   */
  lemma {:induction false} SetAllGet<V>(d: Dict<V>, items: seq<(string, V)>, k: string)
    ensures Get(SetAll(d, items), k) == if k in Keys(items) then LastValue(items, k) else Get(d, k)
    decreases |items|
  {
    if items != [] {
      var n := |items| - 1;
      var p, x := items[..n], items[n];
      assert items == p + [x];
      SetAllAppend(d, p, [x]);
      SetAllGet(d, p, k);
      KeysAppend(p, [x]);
    }
  }
}
