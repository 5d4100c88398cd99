/** Insertion-ordered dictionaries: a Python `dict` and a JavaScript `Map` (or a plain
    object used as one). Assigning to a present key overwrites its value in place; a new key
    is appended. */
module OrderedMap {
  import opened Wrappers

  datatype Entry<K, V> = Entry(key: K, val: V)

  function Keys<K, V>(m: seq<Entry<K, V>>): (ks: seq<K>)
    ensures |ks| == |m|
    ensures forall i :: 0 <= i < |m| ==> ks[i] == m[i].key
  {
    seq(|m|, i requires 0 <= i < |m| => m[i].key)
  }

  predicate KeysUnique<K(==), V>(m: seq<Entry<K, V>>) {
    forall i, j :: 0 <= i < j < |m| ==> m[i].key != m[j].key
  }

  /** `d.get(k)` / `map.get(k)`: the value stored under `k`, if any. */
  function Get<K(==), V>(m: seq<Entry<K, V>>, k: K): (r: Option<V>)
    ensures r.None? <==> forall i :: 0 <= i < |m| ==> m[i].key != k
    ensures r.Some? ==> exists i :: 0 <= i < |m| && m[i] == Entry(k, r.value)
  {
    if |m| == 0 then None
    else if m[0].key == k then Some(m[0].val)
    else
      var r := Get(m[1..], k);
      assert r.Some? ==> exists i :: 0 <= i < |m[1..]| && m[1..][i] == Entry(k, r.value);
      assert r.Some? ==> exists i :: 0 <= i < |m| && m[i] == Entry(k, r.value) by {
        if r.Some? {
          var i :| 0 <= i < |m[1..]| && m[1..][i] == Entry(k, r.value);
          assert m[i + 1] == Entry(k, r.value);
        }
      }
      r
  }

  /** With unique keys, the entry for `k` is the value Get returns. */
  lemma GetOfEntry<K, V>(m: seq<Entry<K, V>>, i: int)
    requires KeysUnique(m)
    requires 0 <= i < |m|
    ensures Get(m, m[i].key) == Some(m[i].val)
  {
    if i > 0 {
      assert m[0].key != m[i].key;
      GetOfEntry(m[1..], i - 1);
    }
  }

  lemma KeysCons<K, V>(e: Entry<K, V>, m: seq<Entry<K, V>>)
    ensures Keys([e] + m) == [e.key] + Keys(m)
  {
    assert forall i :: 0 <= i < |m| + 1 ==> Keys([e] + m)[i] == ([e.key] + Keys(m))[i];
  }

  /** `d[k] = v` / `map.set(k, v)`: overwrites in place, or appends a new key. */
  function Put<K(==), V>(m: seq<Entry<K, V>>, k: K, v: V): (r: seq<Entry<K, V>>)
    ensures k in Keys(m) ==> Keys(r) == Keys(m)
    ensures k !in Keys(m) ==> Keys(r) == Keys(m) + [k]
  {
    if |m| == 0 then
      assert Keys([Entry(k, v)]) == [k];
      [Entry(k, v)]
    else
      assert m == [m[0]] + m[1..];
      KeysCons(m[0], m[1..]);
      if m[0].key == k then
        KeysCons(Entry(k, v), m[1..]);
        [Entry(k, v)] + m[1..]
      else
        var rest := Put(m[1..], k, v);
        KeysCons(m[0], rest);
        assert k in Keys(m) <==> k in Keys(m[1..]);
        [m[0]] + rest
  }

  /** After `d[k] = v`, `k` maps to `v` and every other key keeps its value. */
  lemma {:induction false} PutGet<K, V>(m: seq<Entry<K, V>>, k: K, v: V, k': K)
    ensures Get(Put(m, k, v), k') == if k' == k then Some(v) else Get(m, k')
  {
    if |m| > 0 && m[0].key != k {
      PutGet(m[1..], k, v, k');
    }
  }

  lemma PutKeepsUnique<K, V>(m: seq<Entry<K, V>>, k: K, v: V)
    requires KeysUnique(m)
    ensures KeysUnique(Put(m, k, v))
  {
    var r := Put(m, k, v);
    forall i, j | 0 <= i < j < |r|
      ensures r[i].key != r[j].key
    {
      assert Keys(r)[i] == r[i].key && Keys(r)[j] == r[j].key;
      if k !in Keys(m) && j == |m| {
        assert Keys(r)[i] == Keys(m)[i];
      } else {
        assert Keys(r)[i] == Keys(m)[i] && Keys(r)[j] == Keys(m)[j];
      }
    }
  }

  /** The value of the last pair in `ps` whose key is `k`: "the last one wins". */
  function LastFor<K(==), V>(ps: seq<Entry<K, V>>, k: K): (r: Option<V>)
    ensures r.None? <==> forall i :: 0 <= i < |ps| ==> ps[i].key != k
    ensures r.Some? ==> exists i :: 0 <= i < |ps| && ps[i] == Entry(k, r.value) &&
                          forall j :: i < j < |ps| ==> ps[j].key != k
  {
    if |ps| == 0 then None
    else if ps[|ps| - 1].key == k then Some(ps[|ps| - 1].val)
    else
      var init := ps[..|ps| - 1];
      var r := LastFor(init, k);
      assert ps == init + [ps[|ps| - 1]];
      LastForSnoc(init, ps[|ps| - 1], k, r);
      r
  }

  /** The last pair for `k` stays the last one when a pair with another key follows. */
  lemma LastForSnoc<K, V>(init: seq<Entry<K, V>>, e: Entry<K, V>, k: K, r: Option<V>)
    requires e.key != k
    requires r.None? <==> forall i :: 0 <= i < |init| ==> init[i].key != k
    requires r.Some? ==> exists i :: 0 <= i < |init| && init[i] == Entry(k, r.value) &&
                           forall j :: i < j < |init| ==> init[j].key != k
    ensures r.None? <==> forall i :: 0 <= i < |init + [e]| ==> (init + [e])[i].key != k
    ensures r.Some? ==> exists i :: 0 <= i < |init + [e]| && (init + [e])[i] == Entry(k, r.value) &&
                          forall j :: i < j < |init + [e]| ==> (init + [e])[j].key != k
  {
    var ps := init + [e];
    if r.Some? {
      var i :| 0 <= i < |init| && init[i] == Entry(k, r.value) && forall j :: i < j < |init| ==> init[j].key != k;
      assert ps[i] == init[i];
      assert forall j :: i < j < |ps| ==> ps[j].key != k by {
        forall j | i < j < |ps|
          ensures ps[j].key != k
        {
          if j < |init| {
            assert ps[j] == init[j];
          }
        }
      }
    } else {
      assert forall i :: 0 <= i < |ps| ==> ps[i].key != k by {
        forall i | 0 <= i < |ps|
          ensures ps[i].key != k
        {
          if i < |init| {
            assert ps[i] == init[i];
          }
        }
      }
    }
  }

  /** `dict(pairs)` / `new Map(pairs)`: inserting the pairs left to right. */
  function FromPairs<K(==), V>(ps: seq<Entry<K, V>>): (r: seq<Entry<K, V>>)
    ensures KeysUnique(r)
  {
    if |ps| == 0 then []
    else
      var rest := FromPairs(ps[..|ps| - 1]);
      PutKeepsUnique(rest, ps[|ps| - 1].key, ps[|ps| - 1].val);
      Put(rest, ps[|ps| - 1].key, ps[|ps| - 1].val)
  }

  /** Building a dictionary from pairs keeps, for each key, the last value given for it;
      in particular its keys are exactly the keys of the pairs. */
  lemma {:induction false} FromPairsLastWins<K, V>(ps: seq<Entry<K, V>>, k: K)
    ensures Get(FromPairs(ps), k) == LastFor(ps, k)
  {
    if |ps| > 0 {
      FromPairsLastWins(ps[..|ps| - 1], k);
      PutGet(FromPairs(ps[..|ps| - 1]), ps[|ps| - 1].key, ps[|ps| - 1].val, k);
    }
  }

  /** With distinct keys, the entry holding a key is the one found for it. */
  lemma {:induction false} LastForUnique<K, V>(ps: seq<Entry<K, V>>, i: int)
    requires KeysUnique(ps) && 0 <= i < |ps|
    ensures LastFor(ps, ps[i].key) == Some(ps[i].val)
  {
    if i < |ps| - 1 {
      var init := ps[..|ps| - 1];
      assert ps[|ps| - 1].key != ps[i].key;
      assert init[i] == ps[i];
      assert KeysUnique(init) by {
        forall a, b | 0 <= a < b < |init|
          ensures init[a].key != init[b].key
        {
          assert init[a] == ps[a] && init[b] == ps[b];
        }
      }
      LastForUnique(init, i);
    }
  }
}
