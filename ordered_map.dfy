/** A JavaScript `Map` with string keys, as the daily aggregations use it:
    entries in insertion order, `set` on a present key replacing its value in
    place, `set` on a new key appending an entry. */
module OrderedMaps {

  import Sorting

  datatype Entry<V> = Entry(key: string, value: V)

  function KeyOf<V>(e: Entry<V>): string { e.key }

  /** No key appears twice. */
  ghost predicate ValidMap<V>(m: seq<Entry<V>>)
  {
    Sorting.DistinctKeys(m, KeyOf)
  }

  /** The keys in insertion order (`map.keys()`). */
  function Keys<V>(m: seq<Entry<V>>): (ks: seq<string>)
    ensures |ks| == |m| && forall i :: 0 <= i < |m| ==> ks[i] == m[i].key
  {
    seq(|m|, i requires 0 <= i < |m| => m[i].key)
  }

  /** The position of key `k`, or -1 when it is absent. */
  function IndexOf<V>(m: seq<Entry<V>>, k: string): (i: int)
    ensures -1 <= i < |m|
    ensures 0 <= i ==> m[i].key == k && forall j :: 0 <= j < i ==> m[j].key != k
    ensures i == -1 <==> forall j :: 0 <= j < |m| ==> m[j].key != k
    decreases |m|
  {
    if m == [] then -1
    else if m[0].key == k then 0
    else
      var i := IndexOf(m[1..], k);
      if i < 0 then -1 else i + 1
  }

  /** `map.get(k) || otherwise` for values that are never falsy. */
  function Get<V>(m: seq<Entry<V>>, k: string, otherwise: V): V
  {
    var i := IndexOf(m, k);
    if i >= 0 then m[i].value else otherwise
  }

  /** `map.set(k, v)`. */
  function Put<V>(m: seq<Entry<V>>, k: string, v: V): seq<Entry<V>>
  {
    var i := IndexOf(m, k);
    if i >= 0 then m[i := Entry(k, v)] else m + [Entry(k, v)]
  }

  /** A present key keeps its place; a new key goes last. */
  lemma PutKeys<V>(m: seq<Entry<V>>, k: string, v: V)
    ensures Keys(Put(m, k, v)) == if k in Keys(m) then Keys(m) else Keys(m) + [k]
  {
    if k in Keys(m) {
      var j :| 0 <= j < |m| && Keys(m)[j] == k;
      assert IndexOf(m, k) >= 0;
    }
  }

  lemma PutValid<V>(m: seq<Entry<V>>, k: string, v: V)
    requires ValidMap(m)
    ensures ValidMap(Put(m, k, v))
  {
  }

  /** `IndexOf` depends only on the keys. */
  lemma IndexOfSameKeys<V>(a: seq<Entry<V>>, b: seq<Entry<V>>, k: string)
    requires |a| == |b| && forall i :: 0 <= i < |a| ==> a[i].key == b[i].key
    ensures IndexOf(a, k) == IndexOf(b, k)
  {
  }

  /** Reading after writing: the written key has the new value, every other
      key its old one. */
  lemma PutGet<V>(m: seq<Entry<V>>, k: string, v: V, k': string, otherwise: V)
    ensures Get(Put(m, k, v), k', otherwise) == if k' == k then v else Get(m, k', otherwise)
  {
    var r := Put(m, k, v);
    var i := IndexOf(m, k);
    if i >= 0 {
      IndexOfSameKeys(r, m, k');
    } else if k' == k {
      assert r[|m|].key == k;
      assert forall j :: 0 <= j < |m| ==> r[j] == m[j];
    } else {
      assert forall t :: 0 <= t < |m| ==> r[t] == m[t];
      var j := IndexOf(r, k');
      if j >= 0 {
        assert j < |m|;
        assert IndexOf(m, k') == j;
      } else {
        assert IndexOf(m, k') == -1;
      }
    }
  }

  /** In a map with distinct keys, an entry is what `get` finds for its key. */
  lemma GetEntry<V>(m: seq<Entry<V>>, j: nat, otherwise: V)
    requires ValidMap(m) && j < |m|
    ensures Get(m, m[j].key, otherwise) == m[j].value
  {
    var i := IndexOf(m, m[j].key);
    assert KeyOf(m[i]) == KeyOf(m[j]);
  }
}
