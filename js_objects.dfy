/**
 * Plain objects and `Map`s as the build script uses them: entries kept in insertion order,
 * read with `Get` (`obj[k]`, `map.get(k)`) and written with `Put` (`obj[k] = v`, `map.set(k, v)`).
 */
module JsObjects {
  import opened Outcomes
  import opened JsArrays

  /** `Object.keys(m)` / `[...m.keys()]`: the keys in insertion order. */
  function Keys<K, V>(m: seq<(K, V)>): (ks: seq<K>)
    ensures |ks| == |m|
    ensures forall i :: 0 <= i < |m| ==> ks[i] == m[i].0
  {
    if |m| == 0 then [] else [m[0].0] + Keys(m[1..])
  }

  /** `m[k]` / `m.get(k)`: the value stored under `k`, or `undefined`. */
  function Get<K(==,!new), V>(m: seq<(K, V)>, k: K): (r: Option<V>)
    ensures r.None? <==> k !in Keys(m)
    ensures r.Some? ==> (k, r.value) in m
  {
    if |m| == 0 then None
    else if m[0].0 == k then Some(m[0].1)
    else
      assert Keys(m) == [m[0].0] + Keys(m[1..]);
      Get(m[1..], k)
  }

  /**
   * `m[k] = v` / `m.set(k, v)`: an existing key keeps its position and takes the new
   * value; a new key goes last.
   */
  function Put<K(==,!new), V>(m: seq<(K, V)>, k: K, v: V): (r: seq<(K, V)>)
    ensures Keys(r) == if k in Keys(m) then Keys(m) else Keys(m) + [k]
  {
    if |m| == 0 then [(k, v)]
    else if m[0].0 == k then
      assert Keys(m) == [m[0].0] + Keys(m[1..]);
      assert Keys([(k, v)] + m[1..]) == [k] + Keys(m[1..]);
      [(k, v)] + m[1..]
    else
      var rest := Put(m[1..], k, v);
      assert Keys(m) == [m[0].0] + Keys(m[1..]);
      assert Keys([m[0]] + rest) == [m[0].0] + Keys(rest);
      [m[0]] + rest
  }

  /** After `m[k] = v`, reading `k` gives `v` and every other key keeps its value. */
  lemma {:induction false} PutGet<K(!new), V>(m: seq<(K, V)>, k: K, v: V, k2: K)
    ensures Get(Put(m, k, v), k2) == if k2 == k then Some(v) else Get(m, k2)
  {
    if |m| > 0 && m[0].0 != k {
      PutGet(m[1..], k, v, k2);
    }
  }

  /** Putting a key that is not there appends its entry. */
  lemma {:induction false} PutNew<K(!new), V>(m: seq<(K, V)>, k: K, v: V)
    requires k !in Keys(m)
    ensures Put(m, k, v) == m + [(k, v)]
  {
    if |m| > 0 {
      assert Keys(m)[0] == m[0].0;
      assert k !in Keys(m[1..]) by {
        assert Keys(m) == [m[0].0] + Keys(m[1..]);
      }
      PutNew(m[1..], k, v);
      calc {
        Put(m, k, v);
        [m[0]] + Put(m[1..], k, v);
        [m[0]] + (m[1..] + [(k, v)]);
        { assert [m[0]] + (m[1..] + [(k, v)]) == ([m[0]] + m[1..]) + [(k, v)]; }
        ([m[0]] + m[1..]) + [(k, v)];
        { assert [m[0]] + m[1..] == m; }
        m + [(k, v)];
      }
    }
  }

  /** The entries `(k, f(k))` for the keys `ks`, in order. */
  function Tabulate<K, V>(ks: seq<K>, f: K -> V): (m: seq<(K, V)>)
    ensures Keys(m) == ks
  {
    if |ks| == 0 then []
    else
      var m := [(ks[0], f(ks[0]))] + Tabulate(ks[1..], f);
      assert Keys(m) == [ks[0]] + Keys(Tabulate(ks[1..], f));
      m
  }

  /** In a table, `k` is present exactly when it is one of the keys, with value `f(k)`. */
  lemma {:induction false} TabulateGet<K(!new), V>(ks: seq<K>, f: K -> V, k: K)
    ensures Get(Tabulate(ks, f), k) == if k in ks then Some(f(k)) else None
  {
    if |ks| > 0 && ks[0] != k {
      TabulateGet(ks[1..], f, k);
      assert ks == [ks[0]] + ks[1..];
    }
  }

  /** Putting `(k, f(k))` into a table with no repeated key that already has `k` changes nothing. */
  lemma {:induction false} PutTabulated<K(!new), V>(ks: seq<K>, f: K -> V, k: K)
    requires k in ks
    ensures Put(Tabulate(ks, f), k, f(k)) == Tabulate(ks, f)
  {
    if ks[0] != k {
      PutTabulated(ks[1..], f, k);
    }
  }

  /**
   * Putting the keys of `ks` one after the other, each with its value under `f`, builds
   * the table of the distinct keys in the order of their first occurrence.
   */
  lemma PutDedup<K(!new), V>(ks: seq<K>, f: K -> V, k: K)
    ensures Put(Tabulate(Dedup(ks), f), k, f(k)) == Tabulate(Dedup(ks + [k]), f)
  {
    assert (ks + [k])[..|ks|] == ks;
    var d := Dedup(ks);
    if k in d {
      PutTabulated(d, f, k);
    } else {
      PutNew(Tabulate(d, f), k, f(k));
      TabulateSnoc(d, f, k);
    }
  }

  /** The table of one more key has one more entry at the end. */
  lemma {:induction false} TabulateSnoc<K, V>(ks: seq<K>, f: K -> V, k: K)
    ensures Tabulate(ks + [k], f) == Tabulate(ks, f) + [(k, f(k))]
  {
    if |ks| > 0 {
      assert (ks + [k])[1..] == ks[1..] + [k];
      TabulateSnoc(ks[1..], f, k);
    }
  }
}
