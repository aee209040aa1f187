/**
 * A JavaScript `Map`: a dictionary that remembers the order in which keys were
 * first inserted.  `set` on a key already present replaces its value and keeps
 * its position; `delete` removes it; `keys().next()` yields the oldest key.
 */
module OrderedMaps {
  import opened Optional
  import opened Seqs

  datatype OrderedMap<K(==,!new), V> = OrderedMap(keys: seq<K>, values: map<K, V>) {

    /** The key order lists each key of the dictionary exactly once. */
    ghost predicate Valid() {
      Distinct(keys) && (forall k :: k in values <==> k in keys)
    }

    /** `map.size`. */
    function Size(): nat {
      |keys|
    }

    /** `map.has(k)`. */
    predicate Has(k: K) {
      k in values
    }

    /** `map.get(k)`: `None` for a missing key. */
    function Get(k: K): (r: Option<V>)
      ensures r.Some? <==> k in values
      ensures r.Some? ==> r.value == values[k]
    {
      if k in values then Some(values[k]) else None
    }

    /** `map.set(k, v)`: a new key goes to the end, an existing key keeps its place. */
    function Set(k: K, v: V): (m: OrderedMap<K, V>)
      requires Valid()
      ensures m.Valid()
      ensures m.values == values[k := v]
      ensures k in values ==> m.keys == keys
      ensures k !in values ==> m.keys == keys + [k]
    {
      if k in values then OrderedMap(keys, values[k := v]) else OrderedMap(keys + [k], values[k := v])
    }

    /** `map.delete(k)`: removes the key wherever it is; a missing key changes nothing. */
    function Delete(k: K): (m: OrderedMap<K, V>)
      requires Valid()
      ensures m.Valid()
      ensures m.keys == Filter(keys, Other(k))
      ensures m.values == values - {k}
      ensures k !in values ==> m == this
    {
      FilterDistinct(keys, Other(k));
      if k in values then OrderedMap(Filter(keys, Other(k)), values - {k})
      else FilterAll(keys, Other(k)); this
    }
  }

  function Empty<K(==,!new), V>(): (m: OrderedMap<K, V>)
    ensures m.Valid() && m.keys == [] && m.values == map[]
  {
    OrderedMap([], map[])
  }

  /** `Map.size` counts the entries: the key order and the dictionary agree in size. */
  lemma SizeIsCardinality<K(!new), V>(m: OrderedMap<K, V>)
    requires m.Valid()
    ensures m.Size() == |m.values|
  {
    assert m.values.Keys == (set x | x in m.keys);
    DistinctCardinality(m.keys);
  }

  /** Deleting the first key of a non-empty map drops exactly that key from the front. */
  lemma DeleteFirst<K(!new), V>(m: OrderedMap<K, V>)
    requires m.Valid() && m.keys != []
    ensures m.Delete(m.keys[0]).keys == m.keys[1..]
  {
    var k := m.keys[0];
    assert m.keys == [k] + m.keys[1..];
    FilterAppend([k], m.keys[1..], Other(k));
    assert forall i :: 0 <= i < |m.keys[1..]| ==> Other(k)(m.keys[1..][i]);
    FilterAll(m.keys[1..], Other(k));
  }

  /** After `set(k, v)`, `get(k)` returns `v` and every other key is untouched. */
  lemma SetThenGet<K(!new), V>(m: OrderedMap<K, V>, k: K, v: V, j: K)
    requires m.Valid()
    ensures m.Set(k, v).Get(k) == Some(v)
    ensures j != k ==> m.Set(k, v).Get(j) == m.Get(j)
    ensures m.Set(k, v).Size() == if m.Has(k) then m.Size() else m.Size() + 1
  {
  }

  /**
   * One step of walking a snapshot of the keys and deleting those that fail
   * `keep`: after the first `i` keys have been visited, the keys are the kept
   * ones among them followed by the unvisited ones.
   */
  lemma SweepStep<K(!new)>(keys: seq<K>, keep: K -> bool, i: nat, cur: seq<K>)
    requires Distinct(keys) && i < |keys|
    requires cur == Filter(keys[..i], keep) + keys[i..]
    ensures keep(keys[i]) ==> cur == Filter(keys[..i + 1], keep) + keys[i + 1..]
    ensures !keep(keys[i]) ==> Filter(cur, Other(keys[i])) == Filter(keys[..i + 1], keep) + keys[i + 1..]
  {
    NotInSplit(keys, i);
    SweepCase(keys[..i], keys[i], keys[i + 1..], keep);
    assert keys[i..] == [keys[i]] + keys[i + 1..];
    assert keys[..i + 1] == keys[..i] + [keys[i]];
  }

  lemma SweepCase<K(!new)>(done: seq<K>, k: K, rest: seq<K>, keep: K -> bool)
    requires k !in done && k !in rest
    ensures keep(k) ==> Filter(done, keep) + ([k] + rest) == Filter(done + [k], keep) + rest
    ensures !keep(k) ==> Filter(Filter(done, keep) + ([k] + rest), Other(k)) == Filter(done + [k], keep) + rest
  {
    var kept := Filter(done, keep);
    FilterAppend(done, [k], keep);
    FilterOne(k, keep);
    if keep(k) {
      assert Filter(done + [k], keep) == kept + [k];
      Regroup(kept, k, rest);
    } else {
      assert Filter(done + [k], keep) == kept;
      assert k !in kept;
      DropOnly(kept, k, rest);
    }
  }

  lemma Regroup<K>(a: seq<K>, k: K, b: seq<K>)
    ensures a + ([k] + b) == (a + [k]) + b
  {
  }

  /** Filtering a one-element sequence. */
  lemma FilterOne<K(!new)>(k: K, p: K -> bool)
    ensures Filter([k], p) == if p(k) then [k] else []
  {
    assert [k][1..] == [];
  }

  /** In a sequence without duplicates, the element at `i` is neither before nor after `i`. */
  lemma NotInSplit<K>(s: seq<K>, i: nat)
    requires Distinct(s) && i < |s|
    ensures s[i] !in s[..i] && s[i] !in s[i + 1..]
  {
    forall j | i + 1 <= j < |s| ensures s[j] != s[i] {
    }
  }

  /** Filtering out a value that occurs once removes just that occurrence. */
  lemma DropOnly<K(!new)>(a: seq<K>, k: K, b: seq<K>)
    requires k !in a && k !in b
    ensures Filter(a + ([k] + b), Other(k)) == a + b
  {
    assert forall j :: 0 <= j < |a| ==> Other(k)(a[j]);
    assert forall j :: 0 <= j < |b| ==> Other(k)(b[j]);
    FilterAll(a, Other(k));
    FilterAll(b, Other(k));
    FilterAppend(a, [k] + b, Other(k));
    FilterAppend([k], b, Other(k));
  }

  /** The sweep finishes with exactly the kept keys, in their old order. */
  lemma SweepDone<K(!new), V>(m0: OrderedMap<K, V>, keep: K -> bool, cur: OrderedMap<K, V>)
    requires m0.Valid() && cur.Valid()
    requires cur.keys == Filter(m0.keys[..|m0.keys|], keep) + m0.keys[|m0.keys|..]
    ensures cur.keys == Filter(m0.keys, keep)
    ensures forall k :: k in cur.values <==> k in m0.values && keep(k)
  {
    assert m0.keys[..|m0.keys|] == m0.keys;
    assert m0.keys[|m0.keys|..] == [];
  }

  /** Where the sweep starts: nothing visited yet. */
  lemma SweepStart<K(!new)>(keys: seq<K>, keep: K -> bool)
    ensures keys == Filter(keys[..0], keep) + keys[0..]
  {
    assert keys[..0] == [];
    assert keys[0..] == keys;
  }
}
