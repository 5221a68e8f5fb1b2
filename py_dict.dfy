/**
 * A Python `dict` with integer keys, as the store keeps its products and customers.
 * Python dictionaries remember insertion order, and the store's listings and searches
 * return entries in that order, so the dictionary is a key order together with a map.
 */
module PyDict {
  import opened Seqs

  datatype Dict<V> = Dict(keys: seq<int>, entries: map<int, V>)

  /** The key order lists every key of the map exactly once. */
  ghost predicate Valid<V>(d: Dict<V>)
  {
    && Distinct(d.keys)
    && (forall i :: 0 <= i < |d.keys| ==> d.keys[i] in d.entries)
    && (forall k :: k in d.entries ==> k in d.keys)
  }

  /** `{}` */
  function Empty<V>(): (d: Dict<V>)
    ensures Valid(d) && d.entries == map[] && d.keys == []
  {
    Dict([], map[])
  }

  /**
   * `d[k] = v`: a new key goes to the end of the order; assigning to an existing key
   * replaces its value and keeps its place.
   */
  function Put<V>(d: Dict<V>, k: int, v: V): (r: Dict<V>)
    requires Valid(d)
    ensures Valid(r)
    ensures r.entries == d.entries[k := v]
    ensures k in d.entries ==> r.keys == d.keys
    ensures k !in d.entries ==> r.keys == d.keys + [k]
  {
    if k in d.entries then Dict(d.keys, d.entries[k := v])
    else Dict(d.keys + [k], d.entries[k := v])
  }

  /** `del d[k]` for a present key, or nothing for an absent one: the other keys keep their order. */
  function Remove<V>(d: Dict<V>, k: int): (r: Dict<V>)
    requires Valid(d)
    ensures Valid(r)
    ensures r.entries == d.entries - {k}
    ensures IsSubsequence(r.keys, d.keys)
  {
    var keys := Filter(d.keys, x => x != k);
    FilterDistinct(d.keys, x => x != k);
    assert forall i :: 0 <= i < |keys| ==> keys[i] in d.entries - {k} by {
      forall i | 0 <= i < |keys| ensures keys[i] in d.entries - {k} {
        var x := keys[i];
        assert x in keys;
        var j :| 0 <= j < |d.keys| && d.keys[j] == x;
      }
    }
    Dict(keys, d.entries - {k})
  }

  /** The key order is exactly as long as the map has entries. */
  lemma KeyCount<V>(d: Dict<V>)
    requires Valid(d)
    ensures |d.keys| == |d.entries|
  {
    DistinctCardinality(d.keys);
    assert d.entries.Keys == set x | x in d.keys by {
      forall x ensures x in d.entries.Keys <==> x in d.keys {
        if x in d.keys {
          var i :| 0 <= i < |d.keys| && d.keys[i] == x;
        }
      }
    }
  }

  /** `list(d.values())`: every entry exactly once, in insertion order. */
  function Values<V(!new)>(d: Dict<V>): (r: seq<V>)
    requires Valid(d)
    ensures |r| == |d.keys| == |d.entries|
    ensures forall i :: 0 <= i < |r| ==> d.keys[i] in d.entries && r[i] == d.entries[d.keys[i]]
    ensures forall v :: v in r <==> exists k :: k in d.entries && d.entries[k] == v
  {
    KeyCount(d);
    var r := seq(|d.keys|, i requires 0 <= i < |d.keys| => d.entries[d.keys[i]]);
    assert forall v :: v in r ==> exists k :: k in d.entries && d.entries[k] == v by {
      forall v | v in r ensures exists k :: k in d.entries && d.entries[k] == v {
        var i :| 0 <= i < |r| && r[i] == v;
        var k := d.keys[i];
        assert k in d.entries && d.entries[k] == v;
      }
    }
    assert forall v :: (exists k :: k in d.entries && d.entries[k] == v) ==> v in r by {
      forall v | exists k :: k in d.entries && d.entries[k] == v ensures v in r {
        var k :| k in d.entries && d.entries[k] == v;
        assert k in d.keys;
        var i :| 0 <= i < |d.keys| && d.keys[i] == k;
        assert r[i] == v;
      }
    }
    r
  }

  /**
   * The next free id of a collection: one more than the largest key, or 1 for an empty one.
   * It is larger than every key, so it is never already taken.
   */
  function NextId<V>(d: Dict<V>): (n: int)
    requires Valid(d)
    ensures forall k :: k in d.entries ==> k < n
    ensures n !in d.entries
    ensures d.entries == map[] ==> n == 1
    ensures d.entries != map[] ==> n - 1 in d.entries
  {
    KeyCount(d);
    if d.keys == [] then
      1
    else
      assert d.keys[0] in d.entries;
      MaxOf(d.keys) + 1
  }

  /**
   * The dictionary comprehension `{key(x): x for x in rows}`: every row's key is present,
   * and every stored value is a row stored under its own key.
   */
  function FromRows<V(==)>(rows: seq<V>, key: V -> int): (d: Dict<V>)
    ensures Valid(d)
    ensures forall i :: 0 <= i < |rows| ==> key(rows[i]) in d.entries
    ensures forall k :: k in d.entries ==> key(d.entries[k]) == k && d.entries[k] in rows
    decreases |rows|
  {
    if rows == [] then Empty()
    else
      var init := rows[..|rows| - 1];
      var last := rows[|rows| - 1];
      var d0 := FromRows(init, key);
      assert forall i :: 0 <= i < |init| ==> init[i] == rows[i];
      assert forall x :: x in init ==> x in rows;
      Put(d0, key(last), last)
  }

  /** A later row with the same key overwrites an earlier one: the last row for a key wins. */
  lemma {:induction false} FromRowsLastWins<V>(rows: seq<V>, key: V -> int, i: nat)
    requires i < |rows|
    requires forall j :: i < j < |rows| ==> key(rows[j]) != key(rows[i])
    ensures key(rows[i]) in FromRows(rows, key).entries
    ensures FromRows(rows, key).entries[key(rows[i])] == rows[i]
    decreases |rows|
  {
    if i < |rows| - 1 {
      var init := rows[..|rows| - 1];
      assert init[i] == rows[i];
      forall j | i < j < |init| ensures key(init[j]) != key(init[i]) {
        assert init[j] == rows[j];
      }
      FromRowsLastWins(init, key, i);
    }
  }
}
