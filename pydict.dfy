/**
 * Python's `dict` as the script uses it: key/value pairs kept in insertion
 * order, so that iterating `items()` and taking the first match behave as in
 * the source. Assigning to a key that is already present keeps its position.
 */
module PyDict {
  import opened Wrappers

  type Dict<K, V> = seq<(K, V)>

  /** `list(d.keys())`, in iteration order. */
  function Keys<K, V>(d: Dict<K, V>): (ks: seq<K>)
    ensures |ks| == |d|
    ensures forall i :: 0 <= i < |d| ==> ks[i] == d[i].0
  {
    if d == [] then [] else [d[0].0] + Keys(d[1..])
  }

  /** No key occurs twice: every dict built with `Put` has this shape. */
  predicate DistinctKeys<K(==), V>(d: Dict<K, V>) {
    d == [] || (d[0].0 !in Keys(d[1..]) && DistinctKeys(d[1..]))
  }

  /** `d.get(k)`: the value stored under `k`, or None. */
  function Get<K(==), V>(d: Dict<K, V>, k: K): (r: Option<V>)
    ensures r.Some? ==> (k, r.value) in d
  {
    if d == [] then None
    else if d[0].0 == k then Some(d[0].1)
    else Get(d[1..], k)
  }

  /** `d[k] = v`: a new key goes last, an existing key keeps its place. */
  function Put<K(==,!new), V>(d: Dict<K, V>, k: K, v: V): (r: Dict<K, V>)
    ensures Get(r, k) == Some(v)
    ensures forall k' :: k' != k ==> Get(r, k') == Get(d, k')
  {
    if d == [] then [(k, v)]
    else if d[0].0 == k then [(k, v)] + d[1..]
    else [d[0]] + Put(d[1..], k, v)
  }

  /** `d.setdefault(k, []).append(v)`: extends the list under `k` and touches no other key. */
  function AppendAt<K(==,!new), V>(d: Dict<K, seq<V>>, k: K, v: V): (r: Dict<K, seq<V>>)
    ensures Get(r, k) == Some(Get(d, k).GetOr([]) + [v])
    ensures forall k' :: k' != k ==> Get(r, k') == Get(d, k')
  {
    Put(d, k, Get(d, k).GetOr([]) + [v])
  }

  /** The dict built by assigning the pairs of `ps` one after another. */
  function FromPairs<K(==,!new), V>(ps: seq<(K, V)>): Dict<K, V> {
    if ps == [] then []
    else Put(FromPairs(ps[..|ps| - 1]), ps[|ps| - 1].0, ps[|ps| - 1].1)
  }

  /** `k in d` is `d.get(k) is not None`. */
  lemma {:induction false} GetFindsKeys<K, V>(d: Dict<K, V>, k: K)
    ensures Get(d, k).None? <==> k !in Keys(d)
  {
    if d != [] {
      GetFindsKeys(d[1..], k);
    }
  }

  /** Assignment keeps the order of the keys, adding a new key at the end, and never duplicates one. */
  lemma {:induction false} PutKeys<K(!new), V>(d: Dict<K, V>, k: K, v: V)
    ensures Keys(Put(d, k, v)) == (if k in Keys(d) then Keys(d) else Keys(d) + [k])
    ensures DistinctKeys(d) ==> DistinctKeys(Put(d, k, v))
  {
    PutKeyOrder(d, k, v);
    if DistinctKeys(d) {
      PutDistinct(d, k, v);
    }
  }

  lemma {:induction false} PutKeyOrder<K(!new), V>(d: Dict<K, V>, k: K, v: V)
    ensures Keys(Put(d, k, v)) == (if k in Keys(d) then Keys(d) else Keys(d) + [k])
  {
    var r := Put(d, k, v);
    GetFindsKeys(d, k);
    if Get(d, k).None? {
      GetMissing(d, k);
      PutNew(d, k, v);
      assert Keys(r) == Keys(d) + [k];
    } else {
      var i := FirstHolder(d, k);
      PutAtPointwise(d, i, k, v);
      assert Keys(r) == Keys(d);
    }
  }

  lemma {:induction false} PutDistinct<K(!new), V>(d: Dict<K, V>, k: K, v: V)
    requires DistinctKeys(d)
    ensures DistinctKeys(Put(d, k, v))
  {
    var r := Put(d, k, v);
    if d != [] {
      if d[0].0 == k {
        assert r[1..] == d[1..];
      } else {
        PutDistinct(d[1..], k, v);
        PutKeyOrder(d[1..], k, v);
        assert r[1..] == Put(d[1..], k, v);
      }
    }
  }

  /** A dict built by assignments has no repeated key. */
  lemma {:induction false} FromPairsDistinct<K(!new), V>(ps: seq<(K, V)>)
    ensures DistinctKeys(FromPairs(ps))
  {
    if ps != [] {
      FromPairsDistinct(ps[..|ps| - 1]);
      PutKeys(FromPairs(ps[..|ps| - 1]), ps[|ps| - 1].0, ps[|ps| - 1].1);
    }
  }

  /** Assigning one more pair extends the dict built so far. */
  lemma FromPairsSnoc<K(!new), V>(ps: seq<(K, V)>, p: (K, V))
    ensures FromPairs(ps + [p]) == Put(FromPairs(ps), p.0, p.1)
  {
    assert (ps + [p])[..|ps|] == ps;
  }

  /** The value of the last pair of `ps` whose key is `k`. */
  function LastValue<K(==), V>(ps: seq<(K, V)>, k: K): Option<V> {
    if ps == [] then None
    else if ps[|ps| - 1].0 == k then Some(ps[|ps| - 1].1)
    else LastValue(ps[..|ps| - 1], k)
  }

  /** `LastValue` finds a pair of `ps` exactly when `k` is a key of some pair. */
  lemma {:induction false} LastValueFound<K, V>(ps: seq<(K, V)>, k: K)
    ensures LastValue(ps, k).Some? ==> (k, LastValue(ps, k).value) in ps
    ensures LastValue(ps, k).None? <==> forall p :: p in ps ==> p.0 != k
  {
    if ps != [] {
      LastValueFound(ps[..|ps| - 1], k);
      assert ps == ps[..|ps| - 1] + [ps[|ps| - 1]];
    }
  }

  /** The pair `LastValue` reads is the last pair of `ps` with key `k`. */
  lemma {:induction false} LastValueSource<K, V>(ps: seq<(K, V)>, k: K) returns (i: nat)
    requires LastValue(ps, k).Some?
    ensures i < |ps| && ps[i] == (k, LastValue(ps, k).value)
    ensures forall j :: i < j < |ps| ==> ps[j].0 != k
  {
    var n := |ps| - 1;
    if ps[n].0 == k {
      i := n;
    } else {
      i := LastValueSource(ps[..n], k);
      assert ps[..n][i] == ps[i];
      assert forall j :: i < j < n ==> ps[..n][j] == ps[j];
    }
  }

  /** Later assignments win: the dict holds the last value given to each key. */
  lemma {:induction false} GetFromPairs<K(!new), V>(ps: seq<(K, V)>, k: K)
    ensures Get(FromPairs(ps), k) == LastValue(ps, k)
  {
    if ps != [] {
      GetFromPairs(ps[..|ps| - 1], k);
    }
  }

  /** Assigning a key the dict does not hold appends one pair at the end. */
  lemma {:induction false} PutNew<K(!new), V>(d: Dict<K, V>, k: K, v: V)
    requires forall i :: 0 <= i < |d| ==> d[i].0 != k
    ensures Put(d, k, v) == d + [(k, v)]
  {
    if d != [] {
      PutNew(d[1..], k, v);
      assert d == [d[0]] + d[1..];
    }
  }

  /** Assigning the key of the last pair, held nowhere else, replaces that pair in place. */
  lemma {:induction false} PutLast<K(!new), V>(d: Dict<K, V>, k: K, v: V)
    requires d != [] && d[|d| - 1].0 == k
    requires forall i :: 0 <= i < |d| - 1 ==> d[i].0 != k
    ensures Put(d, k, v) == d[..|d| - 1] + [(k, v)]
  {
    PutAt(d, |d| - 1, k, v);
    assert d[|d|..] == [];
  }

  /** Looking up the key of the last pair, held nowhere else, finds that pair's value. */
  lemma {:induction false} GetLast<K, V>(d: Dict<K, V>, k: K)
    requires d != [] && d[|d| - 1].0 == k
    requires forall i :: 0 <= i < |d| - 1 ==> d[i].0 != k
    ensures Get(d, k) == Some(d[|d| - 1].1)
  {
    if |d| > 1 {
      GetLast(d[1..], k);
    }
  }

  /** Every pair after an assignment was already there or is the one assigned. */
  lemma {:induction false} PutPairs<K(!new), V>(d: Dict<K, V>, k: K, v: V)
    ensures forall p :: p in Put(d, k, v) ==> p in d || p == (k, v)
  {
    if d != [] && d[0].0 != k {
      PutPairs(d[1..], k, v);
      assert Put(d, k, v) == [d[0]] + Put(d[1..], k, v);
    }
  }

  /** The first pair holding a key the dict holds. */
  lemma {:induction false} FirstHolder<K, V>(d: Dict<K, V>, k: K) returns (i: nat)
    requires Get(d, k).Some?
    ensures i < |d| && d[i].0 == k && forall j :: 0 <= j < i ==> d[j].0 != k
    ensures Get(d, k) == Some(d[i].1)
  {
    if d[0].0 == k {
      i := 0;
    } else {
      var i' := FirstHolder(d[1..], k);
      i := i' + 1;
    }
  }

  /** Assigning a key replaces the first pair that holds it, in place; the other pairs stay as they are. */
  lemma {:induction false} PutAt<K(!new), V>(d: Dict<K, V>, i: nat, k: K, v: V)
    requires i < |d| && d[i].0 == k && forall j :: 0 <= j < i ==> d[j].0 != k
    ensures Put(d, k, v) == d[..i] + [(k, v)] + d[i + 1..]
  {
    PutAtPointwise(d, i, k, v);
    var r := Put(d, k, v);
    assert |r| == |d[..i] + [(k, v)] + d[i + 1..]|;
    forall j | 0 <= j < |r|
      ensures r[j] == (d[..i] + [(k, v)] + d[i + 1..])[j]
    {
    }
  }

  lemma {:induction false} PutAtPointwise<K(!new), V>(d: Dict<K, V>, i: nat, k: K, v: V)
    requires i < |d| && d[i].0 == k && forall j :: 0 <= j < i ==> d[j].0 != k
    ensures |Put(d, k, v)| == |d| && Put(d, k, v)[i] == (k, v)
    ensures forall j :: 0 <= j < |d| && j != i ==> Put(d, k, v)[j] == d[j]
  {
    if i > 0 {
      PutAtPointwise(d[1..], i - 1, k, v);
      assert Put(d, k, v) == [d[0]] + Put(d[1..], k, v);
    }
  }

  /** Looking up a key no pair holds finds nothing. */
  lemma GetMissing<K, V>(d: Dict<K, V>, k: K)
    requires Get(d, k).None?
    ensures forall j :: 0 <= j < |d| ==> d[j].0 != k
  {
    GetFindsKeys(d, k);
    assert forall j :: 0 <= j < |d| ==> Keys(d)[j] == d[j].0;
  }
}
