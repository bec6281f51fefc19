/** Python dictionaries as sequences of key/value pairs.  The order of
    the pairs is the iteration order; assigning an existing key keeps its
    position, assigning a new key appends it, `del` removes it. */
module Dicts {
  import opened Outcomes

  type Dict<K, V> = seq<(K, V)>

  function Keys<K, V>(d: Dict<K, V>): (ks: seq<K>)
    ensures |ks| == |d|
    ensures forall i :: 0 <= i < |d| ==> ks[i] == d[i].0
  {
    if d == [] then [] else [d[0].0] + Keys(d[1..])
  }

  function Values<K, V>(d: Dict<K, V>): (vs: seq<V>)
    ensures |vs| == |d|
    ensures forall i :: 0 <= i < |d| ==> vs[i] == d[i].1
  {
    if d == [] then [] else [d[0].1] + Values(d[1..])
  }

  /** `k in d` */
  predicate Has<K(==), V>(d: Dict<K, V>, k: K) {
    k in Keys(d)
  }

  /** `d[k]` (None stands for the KeyError). */
  function Get<K(==), V>(d: Dict<K, V>, k: K): (r: Option<V>)
    ensures r.Some? <==> Has(d, k)
    ensures r.Some? ==> exists i :: 0 <= i < |d| && d[i] == (k, r.value)
  {
    if d == [] then None
    else if d[0].0 == k then Some(d[0].1)
    else Get(d[1..], k)
  }

  /** `d[k] = v` */
  function Put<K(==), V>(d: Dict<K, V>, k: K, v: V): (r: Dict<K, V>)
  {
    if d == [] then [(k, v)]
    else if d[0].0 == k then [(k, v)] + d[1..]
    else [d[0]] + Put(d[1..], k, v)
  }

  /** `del d[k]` (for a key that is present; a dict never holds a key twice). */
  function Del<K(==), V>(d: Dict<K, V>, k: K): (r: Dict<K, V>)
  {
    if d == [] then []
    else if d[0].0 == k then Del(d[1..], k)
    else [d[0]] + Del(d[1..], k)
  }

  /** After `d[k] = v`, `d[k]` is `v` and every other key reads as before. */
  lemma {:induction false} PutGet<K, V>(d: Dict<K, V>, k: K, v: V, j: K)
    ensures Get(Put(d, k, v), j) == if j == k then Some(v) else Get(d, j)
  {
    if d != [] && d[0].0 != k {
      PutGet(d[1..], k, v, j);
    }
  }

  /** `d[k] = v` keeps the position of an existing key and adds at most one pair. */
  lemma {:induction false} PutKeys<K, V>(d: Dict<K, V>, k: K, v: V)
    ensures Has(d, k) ==> Keys(Put(d, k, v)) == Keys(d)
    ensures !Has(d, k) ==> Keys(Put(d, k, v)) == Keys(d) + [k]
  {
    if d != [] && d[0].0 != k {
      PutKeys(d[1..], k, v);
    }
  }

  /** Every pair of `d[k] = v` is the new one or a pair of `d`. */
  lemma {:induction false} PutIn<K, V>(d: Dict<K, V>, k: K, v: V, e: (K, V))
    ensures e in Put(d, k, v) ==> e == (k, v) || e in d
  {
    if d != [] && d[0].0 != k {
      PutIn(d[1..], k, v, e);
    }
  }

  /** Appending pairs in the order of `src` keeps the keys of the two lists equal. */
  lemma KeysStep<K, V, W>(acc: Dict<K, V>, src: Dict<K, W>, i: nat, v: V)
    requires i < |src| && Keys(acc) == Keys(src[..i])
    ensures Keys(acc + [(src[i].0, v)]) == Keys(src[..i + 1])
  {
    assert Keys(acc + [(src[i].0, v)]) == Keys(acc) + [src[i].0];
    assert Keys(src[..i + 1]) == Keys(src[..i]) + [src[i].0];
  }

  /** `acc[k] = v` for each key `k` of `src` in turn gives `acc` the keys of `src`. */
  lemma PutTracks<K, V, W>(acc: Dict<K, V>, src: Dict<K, W>, i: nat, v: V)
    requires i < |src| && forall k :: Has(acc, k) <==> Has(src[..i], k)
    ensures forall k :: Has(Put(acc, src[i].0, v), k) <==> Has(src[..i + 1], k)
  {
    assert Keys(src[..i + 1]) == Keys(src[..i]) + [src[i].0];
    forall k ensures Has(Put(acc, src[i].0, v), k) <==> Has(src[..i + 1], k) {
      PutGet(acc, src[i].0, v, k);
    }
  }

  /** After `del d[k]`, `k` is gone and every other key reads as before. */
  lemma {:induction false} DelGet<K, V>(d: Dict<K, V>, k: K, j: K)
    ensures Get(Del(d, k), j) == if j == k then None else Get(d, j)
  {
    if d != [] {
      DelGet(d[1..], k, j);
    }
  }

  /** Writing the value a key already has changes nothing. */
  lemma {:induction false} PutSame<K, V>(d: Dict<K, V>, k: K, v: V)
    requires Get(d, k) == Some(v)
    ensures Put(d, k, v) == d
  {
    if d[0].0 != k {
      PutSame(d[1..], k, v);
    }
  }

  /** A second write to the same key replaces the first. */
  lemma {:induction false} PutPut<K, V>(d: Dict<K, V>, k: K, v: V, w: V)
    ensures Put(Put(d, k, v), k, w) == Put(d, k, w)
  {
    if d != [] && d[0].0 != k {
      PutPut(d[1..], k, v, w);
    }
  }

  /** `d.update(e)`: every pair of `e` written into `d`, in order. */
  function Update<K(==), V>(d: Dict<K, V>, e: Dict<K, V>): Dict<K, V>
    decreases |e|
  {
    if e == [] then d else Update(Put(d, e[0].0, e[0].1), e[1..])
  }

  /** After `d.update(e)` the keys are those of `d` and of `e`, and a key
      `e` lacks reads as in `d`. */
  lemma {:induction false} UpdateGet<K, V>(d: Dict<K, V>, e: Dict<K, V>, k: K)
    ensures Has(Update(d, e), k) <==> Has(d, k) || Has(e, k)
    ensures !Has(e, k) ==> Get(Update(d, e), k) == Get(d, k)
    decreases |e|
  {
    if e != [] {
      PutGet(d, e[0].0, e[0].1, k);
      UpdateGet(Put(d, e[0].0, e[0].1), e[1..], k);
      assert Keys(e) == [e[0].0] + Keys(e[1..]);
    }
  }

  /** `d[k] = v` leaves every other key as it was. */
  lemma PutElsewhere<K, V>(d: Dict<K, V>, k: K, v: V)
    ensures forall j :: j != k ==> Get(Put(d, k, v), j) == Get(d, j)
  {
    forall j | j != k {
      PutGet(d, k, v, j);
    }
  }

  /** Growing the visited prefix of a sequence by one element. */
  lemma PrefixStep<T>(s: seq<T>, i: nat)
    requires i < |s|
    ensures s[..i + 1] == s[..i] + [s[i]]
  {
  }

  /** Entry `i` is the last of the first `n` entries of `d` with its key. */
  ghost predicate LastIn<K, V>(d: Dict<K, V>, i: nat, n: nat) {
    i < n <= |d| && forall j :: i < j < n ==> d[j].0 != d[i].0
  }

  /** `acc` was built by `acc[k] = vals[i]` for the key `k` of each of the
      first `n` entries of `src` in turn: every key holds the value given at
      its last entry. */
  ghost predicate Tracks<K, V, W>(acc: Dict<K, V>, src: Dict<K, W>, vals: seq<V>, n: nat) {
    && n <= |src| && |vals| == n
    && forall i :: 0 <= i < n && LastIn(src, i, n) ==> Get(acc, src[i].0) == Some(vals[i])
  }

  lemma PutLatest<K, V, W>(acc: Dict<K, V>, src: Dict<K, W>, vals: seq<V>, n: nat, v: V)
    requires Tracks(acc, src, vals, n) && n < |src|
    ensures Tracks(Put(acc, src[n].0, v), src, vals + [v], n + 1)
  {
    var acc', vals' := Put(acc, src[n].0, v), vals + [v];
    forall i | 0 <= i < n + 1 && LastIn(src, i, n + 1) ensures Get(acc', src[i].0) == Some(vals'[i]) {
      PutGet(acc, src[n].0, v, src[i].0);
      if i < n {
        assert LastIn(src, i, n) && src[n].0 != src[i].0;
      }
    }
  }
}
