/**
 * Deleting several entries of a list at once, the way both dashboards do it:
 * the indices of the entries whose delete button was pressed are collected in
 * increasing order, then popped from the highest down, so that each `pop(i)`
 * still finds the entry it means at index `i`.
 */
module Lists {

  /** The index list collected by `enumerate`: strictly increasing. */
  predicate Ascending(marked: seq<nat>) {
    forall i, j :: 0 <= i < j < |marked| ==> marked[i] < marked[j]
  }

  /** The set of marked indices. */
  function Marks(marked: seq<nat>): set<nat> {
    set k | 0 <= k < |marked| :: marked[k]
  }

  /** `xs` with the entries at the indices in `drop` left out, the others kept in their order. */
  function Without<T>(xs: seq<T>, drop: set<nat>): (r: seq<T>)
    ensures |r| <= |xs|
    decreases |xs|
  {
    if xs == [] then []
    else Without(xs[..|xs| - 1], drop) + (if |xs| - 1 in drop then [] else [xs[|xs| - 1]])
  }

  /** `list.pop(i)` for the list it changes. */
  function RemoveAt<T>(xs: seq<T>, i: nat): (r: seq<T>)
    requires i < |xs|
    ensures |r| == |xs| - 1
    ensures forall k :: 0 <= k < i ==> r[k] == xs[k]
    ensures forall k :: i <= k < |r| ==> r[k] == xs[k + 1]
  {
    xs[..i] + xs[i + 1..]
  }

  /** Everything `Without` keeps comes from `xs`. */
  lemma {:induction false} WithoutKeepsOnlyOriginals<T>(xs: seq<T>, drop: set<nat>)
    ensures forall x :: x in Without(xs, drop) ==> x in xs
    decreases |xs|
  {
    if xs != [] {
      WithoutKeepsOnlyOriginals(xs[..|xs| - 1], drop);
    }
  }

  /** Indices at or above `k` do not disturb the first `k` entries. */
  lemma {:induction false} WithoutKeepsPrefix<T>(xs: seq<T>, drop: set<nat>, k: nat)
    requires k <= |xs|
    requires forall d :: d in drop ==> d >= k
    ensures |Without(xs, drop)| >= k
    ensures Without(xs, drop)[..k] == xs[..k]
    decreases |xs|
  {
    if xs == [] {
    } else if |xs| == k {
      var front := xs[..|xs| - 1];
      WithoutKeepsPrefix(front, drop, k - 1);
      assert Without(front, drop) == front;
      assert Without(xs, drop) == front + [xs[|xs| - 1]];
    } else {
      WithoutKeepsPrefix(xs[..|xs| - 1], drop, k);
      assert xs[..|xs| - 1][..k] == xs[..k];
    }
  }

  /** With no index below `|xs|` to drop, nothing is dropped. */
  lemma WithoutNothing<T>(xs: seq<T>, drop: set<nat>)
    requires forall d :: d in drop ==> d >= |xs|
    ensures Without(xs, drop) == xs
  {
    WithoutKeepsPrefix(xs, drop, |xs|);
  }

  /**
   * Popping index `m` after every higher marked index is gone removes exactly the entry
   * originally at `m`: the result is `xs` without the marked indices and `m`.
   */
  lemma {:induction false} PopBelowMarks<T>(xs: seq<T>, drop: set<nat>, m: nat)
    requires m < |xs| && m !in drop
    requires forall d :: d in drop ==> d > m
    ensures m < |Without(xs, drop)|
    ensures RemoveAt(Without(xs, drop), m) == Without(xs, drop + {m})
    decreases |xs|
  {
    var n := |xs| - 1;
    var front := xs[..n];
    if n == m {
      WithoutNothing(front, drop);
      WithoutNothing(front, drop + {m});
      assert Without(xs, drop) == front + [xs[n]];
      assert Without(xs, drop + {m}) == front;
    } else {
      PopBelowMarks(front, drop, m);
      WithoutKeepsPrefix(front, drop, m + 1);
      var tail := if n in drop then [] else [xs[n]];
      assert Without(xs, drop) == Without(front, drop) + tail;
      assert Without(xs, drop + {m}) == Without(front, drop + {m}) + tail;
      var a := Without(front, drop);
      assert RemoveAt(a + tail, m) == RemoveAt(a, m) + tail;
    }
  }

  /**
   * `for i in sorted(marked, reverse=True): xs.pop(i)`: pops the marked indices from the
   * highest down and returns what is left, which is `xs` without exactly those entries.
   */
  method PopMarked<T>(xs: seq<T>, marked: seq<nat>) returns (ys: seq<T>)
    requires Ascending(marked)
    requires forall k :: 0 <= k < |marked| ==> marked[k] < |xs|
    ensures ys == Without(xs, Marks(marked))
  {
    ys := xs;
    WithoutNothing(xs, {});
    assert marked[|marked|..] == [];
    var j := |marked|;
    assert Marks(marked[j..]) == {};
    while j > 0
      invariant 0 <= j <= |marked|
      invariant ys == Without(xs, Marks(marked[j..]))
    {
      j := j - 1;
      var m := marked[j];
      assert Marks(marked[j..]) == Marks(marked[j + 1..]) + {m} by {
        assert marked[j..] == [m] + marked[j + 1..];
      }
      var later := Marks(marked[j + 1..]);
      forall d | d in later
        ensures d > m
      {
        var k :| 0 <= k < |marked[j + 1..]| && marked[j + 1..][k] == d;
        assert marked[j + 1 + k] == d;
      }
      PopBelowMarks(xs, later, m);
      ys := RemoveAt(ys, m);
    }
    assert marked[0..] == marked;
  }
}
