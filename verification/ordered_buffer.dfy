/**
  The coordinator's round buffer: a Python dict, i.e. an association list that
  keeps keys in first-insertion order. Assigning to an existing key replaces its
  value in place; a new key goes to the end.
*/
module OrderedBuffer {
  import opened Wrappers

  type Buffer<K, V> = seq<(K, V)>

  /** No key appears twice: the dict invariant. */
  predicate Distinct<K(==), V>(b: Buffer<K, V>)
  {
    forall i, j :: 0 <= i < j < |b| ==> b[i].0 != b[j].0
  }

  predicate HasKey<K(==), V>(b: Buffer<K, V>, k: K)
  {
    exists i :: 0 <= i < |b| && b[i].0 == k
  }

  /** The set of keys present, i.e. the dict's `keys()`. */
  function KeySet<K(==,!new), V>(b: Buffer<K, V>): (ks: set<K>)
    ensures forall k :: k in ks <==> HasKey(b, k)
  {
    set i | 0 <= i < |b| :: b[i].0
  }

  /** The dict's `values()`, in insertion order. */
  function Values<K(==), V>(b: Buffer<K, V>): (vs: seq<V>)
    ensures |vs| == |b|
    ensures forall i :: 0 <= i < |b| ==> vs[i] == b[i].1
  {
    seq(|b|, i requires 0 <= i < |b| => b[i].1)
  }

  /** The position of the first entry stored under `k`. */
  function IndexOf<K(==), V>(b: Buffer<K, V>, k: K): (i: nat)
    requires HasKey(b, k)
    ensures i < |b| && b[i].0 == k
    ensures forall j :: 0 <= j < i ==> b[j].0 != k
  {
    if b[0].0 == k then 0
    else
      assert HasKey(b[1..], k) by {
        var i :| 0 <= i < |b| && b[i].0 == k;
        assert b[1..][i - 1] == b[i];
      }
      1 + IndexOf(b[1..], k)
  }

  /** `d.get(k)`: the value stored under `k`, if any. */
  function Get<K(==), V>(b: Buffer<K, V>, k: K): (r: Option<V>)
    ensures r.Some? <==> HasKey(b, k)
    ensures r.Some? ==> exists i :: 0 <= i < |b| && b[i] == (k, r.value)
  {
    if HasKey(b, k) then Some(b[IndexOf(b, k)].1) else None
  }

  /** `d[k] = v`: overwrite in place when `k` is present, append otherwise. */
  function Upsert<K(==,!new), V>(b: Buffer<K, V>, k: K, v: V): (r: Buffer<K, V>)
    ensures |r| == if HasKey(b, k) then |b| else |b| + 1
    ensures Distinct(b) ==> Distinct(r)
    ensures Get(r, k) == Some(v)
    ensures forall k' :: k' != k ==> Get(r, k') == Get(b, k')
    ensures forall i :: 0 <= i < |b| ==> r[i].0 == b[i].0
    ensures forall i :: 0 <= i < |b| && b[i].0 != k ==> r[i] == b[i]
    ensures !HasKey(b, k) ==> r[|b|] == (k, v)
  {
    if HasKey(b, k) then
      OverwriteKeepsKeys(b, k, v);
      b[IndexOf(b, k) := (k, v)]
    else
      AppendKeepsKeys(b, k, v);
      b + [(k, v)]
  }

  /** Overwriting a present key's entry leaves every key where it was. */
  lemma OverwriteKeepsKeys<K, V>(b: Buffer<K, V>, k: K, v: V)
    requires HasKey(b, k)
    ensures var r := b[IndexOf(b, k) := (k, v)];
      forall k' :: HasKey(r, k') <==> HasKey(b, k')
    ensures var r := b[IndexOf(b, k) := (k, v)];
      forall k' :: HasKey(b, k') ==> IndexOf(r, k') == IndexOf(b, k')
  {
    var r := b[IndexOf(b, k) := (k, v)];
    forall k' ensures HasKey(r, k') <==> HasKey(b, k') {
      if HasKey(b, k') {
        var i :| 0 <= i < |b| && b[i].0 == k';
        assert r[i].0 == k';
      }
    }
    forall k' | HasKey(b, k') ensures IndexOf(r, k') == IndexOf(b, k') {
      SameKeysSameIndex(b, r, k');
    }
  }

  /** Appending a new key's entry leaves every present key where it was. */
  lemma AppendKeepsKeys<K, V>(b: Buffer<K, V>, k: K, v: V)
    ensures var r := b + [(k, v)];
      && HasKey(r, k)
      && forall k' :: HasKey(b, k') ==> HasKey(r, k') && IndexOf(r, k') == IndexOf(b, k')
  {
    var r := b + [(k, v)];
    forall k' | HasKey(b, k') ensures HasKey(r, k') && IndexOf(r, k') == IndexOf(b, k') {
      var i :| 0 <= i < |b| && b[i].0 == k';
      assert r[i].0 == k';
      SameKeysSameIndex(b, r, k');
    }
    assert r[|b|].0 == k;
  }

  /** Two buffers whose keys agree on a common prefix find a key there at the same place. */
  lemma SameKeysSameIndex<K, V>(b: Buffer<K, V>, r: Buffer<K, V>, k: K)
    requires |b| <= |r|
    requires forall i :: 0 <= i < |b| ==> r[i].0 == b[i].0
    requires HasKey(b, k)
    ensures HasKey(r, k) && IndexOf(r, k) == IndexOf(b, k)
  {
    var i := IndexOf(b, k);
    assert r[i].0 == k;
    var j := IndexOf(r, k);
    assert !(j < i);
  }

  lemma {:induction false} DistinctSize<K(!new), V>(b: Buffer<K, V>)
    requires Distinct(b)
    ensures |KeySet(b)| == |b|
    decreases |b|
  {
    if |b| > 0 {
      var t := b[..|b| - 1];
      DistinctSize(t);
      assert KeySet(b) == KeySet(t) + {b[|b| - 1].0};
      assert b[|b| - 1].0 !in KeySet(t);
    }
  }

  /** With distinct keys, looking up any stored key finds its own entry. */
  lemma GetAt<K, V>(b: Buffer<K, V>, i: nat)
    requires Distinct(b) && i < |b|
    ensures Get(b, b[i].0) == Some(b[i].1)
  {
    var r := Get(b, b[i].0);
    var j :| 0 <= j < |b| && b[j] == (b[i].0, r.value);
  }

  /** The keys after `d[k] = v` are the keys before plus `k`. */
  lemma KeySetUpsert<K(!new), V>(b: Buffer<K, V>, k: K, v: V)
    ensures KeySet(Upsert(b, k, v)) == KeySet(b) + {k}
  {
    var r := Upsert(b, k, v);
    forall k' ensures k' in KeySet(r) <==> k' in KeySet(b) + {k} {
      assert HasKey(r, k') <==> Get(r, k').Some?;
      assert HasKey(b, k') <==> Get(b, k').Some?;
    }
  }

  /** Two writes to the same key leave the same dict as the second write alone. */
  lemma UpsertTwice<K(!new), V>(b: Buffer<K, V>, k: K, v1: V, v2: V)
    ensures Upsert(Upsert(b, k, v1), k, v2) == Upsert(b, k, v2)
  {
    var b1 := Upsert(b, k, v1);
    if !HasKey(b, k) {
      assert b1 == b + [(k, v1)];
      assert IndexOf(b1, k) == |b|;
    } else {
      SameKeysSameIndex(b, b1, k);
    }
  }
}
