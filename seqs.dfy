/** Order-preserving filters and exact sums over sequences: the `filter` and
    `reduce((sum, x) => sum + f(x), 0)` idioms the dashboard is built from. */
module Seqs {

  /** The elements of `s` that satisfy `p`, in their original order. */
  function Filter<T(!new)>(s: seq<T>, p: T -> bool): (r: seq<T>)
    ensures |r| <= |s|
    decreases |s|
  {
    if s == [] then [] else Filter(s[..|s| - 1], p) + (if p(s[|s| - 1]) then [s[|s| - 1]] else [])
  }

  /** The filter keeps exactly the elements that pass the test. */
  lemma {:induction false} FilterMembers<T(!new)>(s: seq<T>, p: T -> bool)
    ensures forall x :: x in Filter(s, p) <==> x in s && p(x)
    decreases |s|
  {
    if s != [] {
      var init, x := s[..|s| - 1], s[|s| - 1];
      FilterMembers(init, p);
      FilterSnoc(init, x, p);
      assert s == init + [x];
    }
  }

  /** `a` is `b` with some elements removed (the order of the rest kept). */
  ghost predicate IsSubsequence<T>(a: seq<T>, b: seq<T>)
    decreases |b|
  {
    if a == [] then true
    else if b == [] then false
    else (a[|a| - 1] == b[|b| - 1] && IsSubsequence(a[..|a| - 1], b[..|b| - 1]))
         || IsSubsequence(a, b[..|b| - 1])
  }

  lemma {:induction false} SubsequenceOfItself<T>(s: seq<T>)
    ensures IsSubsequence(s, s)
    decreases |s|
  {
    if s != [] {
      SubsequenceOfItself(s[..|s| - 1]);
    }
  }

  lemma {:induction false} FilterIsSubsequence<T(!new)>(s: seq<T>, p: T -> bool)
    ensures IsSubsequence(Filter(s, p), s)
    decreases |s|
  {
    if s != [] {
      var init, x := s[..|s| - 1], s[|s| - 1];
      var fi := Filter(init, p);
      FilterIsSubsequence(init, p);
      if p(x) {
        var r := fi + [x];
        assert Filter(s, p) == r;
        assert r[..|r| - 1] == fi && r[|r| - 1] == x;
        assert IsSubsequence(r, s);
      } else {
        assert Filter(s, p) == fi;
        assert IsSubsequence(fi, s);
      }
    }
  }

  lemma {:induction false} SubsequenceTransitive<T>(a: seq<T>, b: seq<T>, c: seq<T>)
    requires IsSubsequence(a, b) && IsSubsequence(b, c)
    ensures IsSubsequence(a, c)
    decreases |c|
  {
    if a != [] {
      assert b != [] && c != [];
      var b', c' := b[..|b| - 1], c[..|c| - 1];
      if b[|b| - 1] == c[|c| - 1] && IsSubsequence(b', c') {
        if a[|a| - 1] == b[|b| - 1] && IsSubsequence(a[..|a| - 1], b') {
          SubsequenceTransitive(a[..|a| - 1], b', c');
        } else {
          SubsequenceTransitive(a, b', c');
        }
      } else {
        SubsequenceTransitive(a, b, c');
      }
    }
  }

  lemma {:induction false} FilterConcat<T(!new)>(a: seq<T>, b: seq<T>, p: T -> bool)
    ensures Filter(a + b, p) == Filter(a, p) + Filter(b, p)
    decreases |b|
  {
    if b == [] {
      assert a + b == a;
    } else {
      var b' := b[..|b| - 1];
      assert (a + b)[..|a + b| - 1] == a + b';
      FilterConcat(a, b', p);
    }
  }

  /** A filter whose test always passes keeps everything. */
  lemma {:induction false} FilterAll<T(!new)>(s: seq<T>, p: T -> bool)
    requires forall x :: p(x)
    ensures Filter(s, p) == s
    decreases |s|
  {
    if s != [] {
      var init, x := s[..|s| - 1], s[|s| - 1];
      FilterAll(init, p);
      FilterSnoc(init, x, p);
      assert init + [x] == s;
    }
  }

  lemma FilterSnoc<T(!new)>(init: seq<T>, x: T, p: T -> bool)
    ensures Filter(init + [x], p) == Filter(init, p) + (if p(x) then [x] else [])
  {
    assert (init + [x])[..|init|] == init;
  }

  /** Two filters can be applied in either order. */
  lemma {:induction false} FilterCommute<T(!new)>(s: seq<T>, p: T -> bool, q: T -> bool)
    ensures Filter(Filter(s, p), q) == Filter(Filter(s, q), p)
    decreases |s|
  {
    if s != [] {
      var init, x := s[..|s| - 1], s[|s| - 1];
      FilterCommute(init, p, q);
      var tp := if p(x) then [x] else [];
      var tq := if q(x) then [x] else [];
      FilterConcat(Filter(init, p), tp, q);
      FilterConcat(Filter(init, q), tq, p);
      assert Filter(tp, q) == Filter(tq, p) by {
        assert Filter([x], q) == Filter([], q) + (if q(x) then [x] else []);
        assert Filter([x], p) == Filter([], p) + (if p(x) then [x] else []);
      }
    }
  }

  /** The sum of `f` over `s`, accumulated from the left starting at 0. */
  function Sum<T>(s: seq<T>, f: T -> real): real
    decreases |s|
  {
    if s == [] then 0.0 else Sum(s[..|s| - 1], f) + f(s[|s| - 1])
  }

  lemma {:induction false} SumConcat<T>(a: seq<T>, b: seq<T>, f: T -> real)
    ensures Sum(a + b, f) == Sum(a, f) + Sum(b, f)
    decreases |b|
  {
    if b != [] {
      var b' := b[..|b| - 1];
      assert (a + b)[..|a + b| - 1] == a + b';
      SumConcat(a, b', f);
    } else {
      assert a + b == a;
    }
  }

  lemma SumSnoc<T>(a: seq<T>, x: T, f: T -> real)
    ensures Sum(a + [x], f) == Sum(a, f) + f(x)
  {
    assert (a + [x])[..|a|] == a;
  }

  lemma {:induction false} SumFirst<T>(s: seq<T>, f: T -> real)
    requires s != []
    ensures Sum(s, f) == f(s[0]) + Sum(s[1..], f)
  {
    SumConcat([s[0]], s[1..], f);
    assert [s[0]] + s[1..] == s;
    assert Sum([s[0]], f) == Sum([], f) + f(s[0]);
  }

  /** Replacing one element changes the sum by the difference of the two values. */
  lemma {:induction false} SumUpdate<T>(s: seq<T>, j: nat, y: T, f: T -> real)
    requires j < |s|
    ensures Sum(s[j := y], f) == Sum(s, f) - f(s[j]) + f(y)
  {
    assert s == s[..j] + [s[j]] + s[j + 1..];
    assert s[j := y] == s[..j] + [y] + s[j + 1..];
    SumConcat(s[..j] + [s[j]], s[j + 1..], f);
    SumConcat(s[..j], [s[j]], f);
    SumConcat(s[..j] + [y], s[j + 1..], f);
    SumConcat(s[..j], [y], f);
    assert Sum([s[j]], f) == f(s[j]) by { assert [s[j]][..0] == []; }
    assert Sum([y], f) == f(y) by { assert [y][..0] == []; }
  }

  /** Taking one element out of a sequence takes its term out of the sum. */
  lemma {:induction false} SumRemove<T>(b: seq<T>, j: nat, f: T -> real)
    requires j < |b|
    ensures Sum(b, f) == f(b[j]) + Sum(b[..j] + b[j + 1..], f)
  {
    assert b == b[..j] + [b[j]] + b[j + 1..];
    SumConcat(b[..j] + [b[j]], b[j + 1..], f);
    SumConcat(b[..j], [b[j]], f);
    SumConcat(b[..j], b[j + 1..], f);
    assert Sum([b[j]], f) == f(b[j]) by { assert [b[j]][..0] == []; }
  }

  lemma MultisetRemove<T>(b: seq<T>, j: nat)
    requires j < |b|
    ensures multiset(b[..j] + b[j + 1..]) == multiset(b) - multiset{b[j]}
  {
    assert b == b[..j] + [b[j]] + b[j + 1..];
    assert multiset(b) == multiset(b[..j]) + multiset{b[j]} + multiset(b[j + 1..]);
  }

  /** A position of an element of `b`. */
  lemma IndexIn<T>(b: seq<T>, x: T) returns (j: nat)
    requires x in multiset(b)
    ensures j < |b| && b[j] == x
  {
    assert x in b;
    j :| 0 <= j < |b| && b[j] == x;
  }

  /** Taking the first element out of `a` and the same element out of `b`
      leaves two permutations of each other. */
  lemma PermutationRest<T>(a: seq<T>, b: seq<T>, j: nat)
    requires multiset(a) == multiset(b) && a != [] && j < |b| && b[j] == a[0]
    ensures multiset(a[1..]) == multiset(b[..j] + b[j + 1..])
  {
    MultisetRemove(a, 0);
    MultisetRemove(b, j);
    assert a[..0] + a[1..] == a[1..];
  }

  /** A sum does not depend on the order of its terms. */
  lemma {:induction false} SumPermutation<T>(a: seq<T>, b: seq<T>, f: T -> real)
    requires multiset(a) == multiset(b)
    ensures Sum(a, f) == Sum(b, f)
    decreases |a|
  {
    if a != [] {
      var j := IndexIn(b, a[0]);
      var rest := b[..j] + b[j + 1..];
      PermutationRest(a, b, j);
      SumPermutation(a[1..], rest, f);
      SumFirst(a, f);
      SumRemove(b, j, f);
    }
  }

  /** With `q` the negation of `p`, the two filters split the sum. */
  lemma {:induction false} SumSplit<T(!new)>(s: seq<T>, p: T -> bool, q: T -> bool, f: T -> real)
    requires forall x :: q(x) == !p(x)
    ensures Sum(Filter(s, p), f) + Sum(Filter(s, q), f) == Sum(s, f)
    ensures |Filter(s, p)| + |Filter(s, q)| == |s|
    decreases |s|
  {
    if s != [] {
      var init, x := s[..|s| - 1], s[|s| - 1];
      SumSplit(init, p, q, f);
      if p(x) {
        assert Filter(s, p) == Filter(init, p) + [x];
        assert Filter(s, q) == Filter(init, q);
        SumSnoc(Filter(init, p), x, f);
      } else {
        assert Filter(s, p) == Filter(init, p);
        assert Filter(s, q) == Filter(init, q) + [x];
        SumSnoc(Filter(init, q), x, f);
      }
    }
  }

  lemma {:induction false} SumNonNegative<T>(s: seq<T>, f: T -> real)
    requires forall x :: x in s ==> f(x) >= 0.0
    ensures Sum(s, f) >= 0.0
    ensures Sum(s, f) == 0.0 <==> forall x :: x in s ==> f(x) == 0.0
    decreases |s|
  {
    if s != [] {
      var init := s[..|s| - 1];
      assert forall x :: x in init ==> x in s;
      SumNonNegative(init, f);
      assert forall x :: x in s ==> x in init || x == s[|s| - 1];
    }
  }

  lemma {:induction false} SumNonPositive<T>(s: seq<T>, f: T -> real)
    requires forall x :: x in s ==> f(x) <= 0.0
    ensures Sum(s, f) <= 0.0
    ensures Sum(s, f) == 0.0 <==> forall x :: x in s ==> f(x) == 0.0
    decreases |s|
  {
    if s != [] {
      var init := s[..|s| - 1];
      assert forall x :: x in init ==> x in s;
      SumNonPositive(init, f);
      assert forall x :: x in s ==> x in init || x == s[|s| - 1];
    }
  }

  /** Pointwise equal terms give equal sums. */
  lemma {:induction false} SumCongruent<T, U>(a: seq<T>, b: seq<U>, f: T -> real, g: U -> real)
    requires |a| == |b|
    requires forall i :: 0 <= i < |a| ==> f(a[i]) == g(b[i])
    ensures Sum(a, f) == Sum(b, g)
    decreases |a|
  {
    if a != [] {
      SumCongruent(a[..|a| - 1], b[..|b| - 1], f, g);
    }
  }
}
