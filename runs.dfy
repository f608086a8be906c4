/** Streak counters: the `count++ / count = 0 / max = Math.max(max, count)`
    loop the dashboard uses for losing trades and for winning and losing days. */
module Runs {

  import opened Types

  /** The length of the run of elements satisfying `p` at the end of `s`:
      the counter after the loop. */
  function TrailingRun<T>(s: seq<T>, p: T -> bool): nat
    decreases |s|
  {
    if s == [] then 0
    else if p(s[|s| - 1]) then TrailingRun(s[..|s| - 1], p) + 1
    else 0
  }

  /** The largest value the counter reached: the maximum after the loop. */
  function LongestRun<T>(s: seq<T>, p: T -> bool): nat
    decreases |s|
  {
    if s == [] then 0
    else if p(s[|s| - 1]) then MaxNat(LongestRun(s[..|s| - 1], p), TrailingRun(s, p))
    else LongestRun(s[..|s| - 1], p)
  }

  /** The elements at positions `i` to `j` (exclusive) all satisfy `p`. */
  ghost predicate RunAt<T>(s: seq<T>, p: T -> bool, i: int, j: int)
    requires 0 <= i <= j <= |s|
  {
    forall k :: i <= k < j ==> p(s[k])
  }

  /** The trailing run is the longest suffix of elements satisfying `p`. */
  lemma {:induction false} TrailingRunSuffix<T>(s: seq<T>, p: T -> bool)
    ensures TrailingRun(s, p) <= |s|
    ensures RunAt(s, p, |s| - TrailingRun(s, p), |s|)
    ensures TrailingRun(s, p) < |s| ==> !p(s[|s| - 1 - TrailingRun(s, p)])
    decreases |s|
  {
    if s != [] && p(s[|s| - 1]) {
      var init := s[..|s| - 1];
      TrailingRunSuffix(init, p);
      assert forall k :: 0 <= k < |init| ==> init[k] == s[k];
    }
  }

  /** The longest run is the length of the longest stretch of consecutive
      elements satisfying `p`: no stretch is longer, one has that length, and
      the trailing run is one of them. */
  lemma {:induction false} LongestRunIsLongest<T>(s: seq<T>, p: T -> bool)
    ensures LongestRun(s, p) <= |s|
    ensures TrailingRun(s, p) <= LongestRun(s, p)
    ensures forall i, j :: 0 <= i <= j <= |s| && RunAt(s, p, i, j) ==> j - i <= LongestRun(s, p)
    ensures exists i, j :: 0 <= i <= j <= |s| && j - i == LongestRun(s, p) && RunAt(s, p, i, j)
    decreases |s|
  {
    var n := |s|;
    if n == 0 {
      assert RunAt(s, p, 0, 0);
    } else {
      var init := s[..n - 1];
      LongestRunIsLongest(init, p);
      TrailingRunSuffix(s, p);
      var streak, longest := TrailingRun(s, p), LongestRun(s, p);
      forall i, j | 0 <= i <= j <= n && RunAt(s, p, i, j)
        ensures j - i <= longest
      {
        if j < n {
          assert RunAt(init, p, i, j);
        }
      }
      if longest == LongestRun(init, p) {
        var i, j :| 0 <= i <= j <= |init| && j - i == longest && RunAt(init, p, i, j);
        assert RunAt(s, p, i, j);
      } else {
        assert RunAt(s, p, n - streak, n);
      }
    }
  }
}
