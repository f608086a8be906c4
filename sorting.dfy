/** The sort the dashboard applies to map entries, symbols and calendar days:
    a stable sort on a string key, ascending or descending. The source uses
    the built-in `Array.prototype.sort`, which is stable; this model is an
    insertion sort, proved sorted, a permutation and stable below. */
module Sorting {

  import Strings
  import Seqs

  /** An element with key `a` goes strictly before one with key `b`. */
  predicate Before(a: string, b: string, descending: bool)
  {
    if descending then Strings.Less(b, a) else Strings.Less(a, b)
  }

  lemma BeforeIrreflexive(a: string, descending: bool)
    ensures !Before(a, a, descending)
  {
    Strings.LessIrreflexive(a);
  }

  lemma BeforeAsymmetric(a: string, b: string, descending: bool)
    ensures !(Before(a, b, descending) && Before(b, a, descending))
  {
    Strings.LessAsymmetric(a, b);
  }

  lemma BeforeTotal(a: string, b: string, descending: bool)
    ensures a == b || Before(a, b, descending) || Before(b, a, descending)
  {
    Strings.LessTotal(a, b);
  }

  lemma BeforeTransitive(a: string, b: string, c: string, descending: bool)
    requires Before(a, b, descending) && Before(b, c, descending)
    ensures Before(a, c, descending)
  {
    if descending {
      Strings.LessTransitive(c, b, a);
    } else {
      Strings.LessTransitive(a, b, c);
    }
  }

  /** "Not after" is transitive too. */
  lemma NotBeforeTransitive(a: string, b: string, c: string, descending: bool)
    requires !Before(b, a, descending) && !Before(c, b, descending)
    ensures !Before(c, a, descending)
  {
    if Before(c, a, descending) {
      BeforeTotal(a, b, descending);
      if Before(a, b, descending) {
        BeforeTransitive(c, a, b, descending);
      }
    }
  }

  /** Every element of `s` has a key no element after it goes before. */
  ghost predicate SortedBy<T>(s: seq<T>, key: T -> string, descending: bool)
  {
    forall i, j :: 0 <= i < j < |s| ==> !Before(key(s[j]), key(s[i]), descending)
  }

  ghost predicate StrictlySortedBy<T>(s: seq<T>, key: T -> string, descending: bool)
  {
    forall i, j :: 0 <= i < j < |s| ==> Before(key(s[i]), key(s[j]), descending)
  }

  ghost predicate DistinctKeys<T>(s: seq<T>, key: T -> string)
  {
    forall i, j :: 0 <= i < j < |s| ==> key(s[i]) != key(s[j])
  }

  /** `x` placed after the elements that go strictly before it. */
  function Insert<T>(x: T, s: seq<T>, key: T -> string, descending: bool): (r: seq<T>)
    ensures multiset(r) == multiset(s) + multiset{x}
    ensures |r| == |s| + 1
    decreases |s|
  {
    if s == [] then [x]
    else (assert s == [s[0]] + s[1..];
    if Before(key(s[0]), key(x), descending) then [s[0]] + Insert(x, s[1..], key, descending)
    else [x] + s)
  }

  /** `s` ordered by `key`; elements with equal keys keep their relative
      order (`SortByKeyStable`). */
  function SortByKey<T>(s: seq<T>, key: T -> string, descending: bool): (r: seq<T>)
    ensures multiset(r) == multiset(s)
    ensures |r| == |s|
    decreases |s|
  {
    if s == [] then []
    else (assert s == [s[0]] + s[1..]; Insert(s[0], SortByKey(s[1..], key, descending), key, descending))
  }

  lemma {:induction false} InsertSorted<T>(x: T, s: seq<T>, key: T -> string, descending: bool)
    requires SortedBy(s, key, descending)
    ensures SortedBy(Insert(x, s, key, descending), key, descending)
    decreases |s|
  {
    var r := Insert(x, s, key, descending);
    if s != [] {
      if Before(key(s[0]), key(x), descending) {
        var tail := Insert(x, s[1..], key, descending);
        InsertSorted(x, s[1..], key, descending);
        assert r == [s[0]] + tail;
        forall j | 0 < j < |r|
          ensures !Before(key(r[j]), key(s[0]), descending)
        {
          assert r[j] in multiset(tail);
          assert r[j] in multiset(s[1..]) || r[j] == x;
          if r[j] == x {
            BeforeAsymmetric(key(s[0]), key(x), descending);
          } else {
            var k :| 0 <= k < |s[1..]| && s[1..][k] == r[j];
            assert s[k + 1] == r[j];
          }
        }
      } else {
        assert r == [x] + s;
        forall j | 0 < j < |r|
          ensures !Before(key(r[j]), key(x), descending)
        {
          if j > 1 {
            NotBeforeTransitive(key(x), key(s[0]), key(r[j]), descending);
          }
        }
      }
    }
  }

  lemma {:induction false} SortByKeySorted<T>(s: seq<T>, key: T -> string, descending: bool)
    ensures SortedBy(SortByKey(s, key, descending), key, descending)
    decreases |s|
  {
    if s != [] {
      SortByKeySorted(s[1..], key, descending);
      InsertSorted(s[0], SortByKey(s[1..], key, descending), key, descending);
    }
  }

  /** Sorted with no two equal keys means strictly ordered. */
  lemma SortedDistinctIsStrict<T>(s: seq<T>, key: T -> string, descending: bool)
    requires SortedBy(s, key, descending) && DistinctKeys(s, key)
    ensures StrictlySortedBy(s, key, descending)
  {
    forall i, j | 0 <= i < j < |s|
      ensures Before(key(s[i]), key(s[j]), descending)
    {
      BeforeTotal(key(s[i]), key(s[j]), descending);
    }
  }

  lemma {:induction false} InsertDistinct<T>(x: T, s: seq<T>, key: T -> string, descending: bool)
    requires DistinctKeys(s, key)
    requires forall y :: y in s ==> key(y) != key(x)
    ensures DistinctKeys(Insert(x, s, key, descending), key)
    decreases |s|
  {
    var r := Insert(x, s, key, descending);
    if s != [] && Before(key(s[0]), key(x), descending) {
      var tail := Insert(x, s[1..], key, descending);
      assert forall y :: y in s[1..] ==> y in s;
      InsertDistinct(x, s[1..], key, descending);
      assert r == [s[0]] + tail;
      forall j | 0 < j < |r|
        ensures key(r[j]) != key(s[0])
      {
        assert r[j] in multiset(tail);
        assert r[j] in multiset(s[1..]) || r[j] == x;
        if r[j] != x {
          var k :| 0 <= k < |s[1..]| && s[1..][k] == r[j];
          assert s[k + 1] == r[j];
        }
      }
    } else if s != [] {
      assert r == [x] + s;
    }
  }

  lemma {:induction false} SortByKeyDistinct<T>(s: seq<T>, key: T -> string, descending: bool)
    requires DistinctKeys(s, key)
    ensures DistinctKeys(SortByKey(s, key, descending), key)
    decreases |s|
  {
    if s != [] {
      var rest := SortByKey(s[1..], key, descending);
      SortByKeyDistinct(s[1..], key, descending);
      forall y | y in rest
        ensures key(y) != key(s[0])
      {
        assert y in multiset(s[1..]);
        var k :| 0 <= k < |s[1..]| && s[1..][k] == y;
        assert s[k + 1] == y;
      }
      InsertDistinct(s[0], rest, key, descending);
    }
  }

  /** With distinct keys, the sort orders them strictly; this is the case of
      every map's entries. */
  lemma SortByKeyStrict<T>(s: seq<T>, key: T -> string, descending: bool)
    requires DistinctKeys(s, key)
    ensures StrictlySortedBy(SortByKey(s, key, descending), key, descending)
  {
    SortByKeySorted(s, key, descending);
    SortByKeyDistinct(s, key, descending);
    SortedDistinctIsStrict(SortByKey(s, key, descending), key, descending);
  }

  /** The test "has key `k`", one value per key so that filters by it compare equal. */
  function KeyIs<T>(key: T -> string, k: string): T -> bool
  {
    x => key(x) == k
  }

  lemma FilterSingleton<T(!new)>(x: T, p: T -> bool)
    ensures Seqs.Filter([x], p) == (if p(x) then [x] else [])
  {
    assert [x][..0] == [];
  }

  /** Moving `x` past `y` changes no filter that cannot keep both. */
  lemma FilterSwap<T(!new)>(x: T, y: T, rest: seq<T>, r: seq<T>, p: T -> bool)
    requires !(p(x) && p(y))
    requires Seqs.Filter(r, p) == Seqs.Filter([x] + rest, p)
    ensures Seqs.Filter([y] + r, p) == Seqs.Filter([x] + ([y] + rest), p)
  {
    var a, b, c := Seqs.Filter([y], p), Seqs.Filter([x], p), Seqs.Filter(rest, p);
    FilterSingleton(x, p);
    FilterSingleton(y, p);
    Seqs.FilterConcat([y], r, p);
    Seqs.FilterConcat([x], rest, p);
    Seqs.FilterConcat([y], rest, p);
    Seqs.FilterConcat([x], [y] + rest, p);
    assert a + (b + c) == b + (a + c);
  }

  /** Inserting `x` only moves it past elements with other keys. */
  lemma {:induction false} InsertStable<T(!new)>(x: T, s: seq<T>, key: T -> string, descending: bool, k: string)
    ensures Seqs.Filter(Insert(x, s, key, descending), KeyIs(key, k)) == Seqs.Filter([x] + s, KeyIs(key, k))
    decreases |s|
  {
    if s != [] && Before(key(s[0]), key(x), descending) {
      var rest := s[1..];
      BeforeIrreflexive(key(x), descending);
      InsertStable(x, rest, key, descending, k);
      FilterSwap(x, s[0], rest, Insert(x, rest, key, descending), KeyIs(key, k));
      assert [s[0]] + rest == s;
    }
  }

  /** The sort is stable: the elements with any one key come out in the
      order they went in. */
  lemma {:induction false} SortByKeyStable<T(!new)>(s: seq<T>, key: T -> string, descending: bool, k: string)
    ensures Seqs.Filter(SortByKey(s, key, descending), KeyIs(key, k)) == Seqs.Filter(s, KeyIs(key, k))
    decreases |s|
  {
    if s != [] {
      var p := KeyIs(key, k);
      var rest := SortByKey(s[1..], key, descending);
      assert SortByKey(s, key, descending) == Insert(s[0], rest, key, descending);
      SortByKeyStable(s[1..], key, descending, k);
      InsertStable(s[0], rest, key, descending, k);
      Seqs.FilterConcat([s[0]], rest, p);
      Seqs.FilterConcat([s[0]], s[1..], p);
      assert [s[0]] + s[1..] == s;
    }
  }
}
