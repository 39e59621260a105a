/**
 * Counting labels, shared by both statistics helpers: how often a label
 * occurs, the sum of the counters kept for a list of categories, and how
 * many labels fall in those categories at all.
 */
module Tally {

  /** No element occurs twice (the keys of an object literal). */
  predicate Distinct<T(==)>(s: seq<T>)
  {
    forall i, j :: 0 <= i < j < |s| ==> s[i] != s[j]
  }

  /** Occurrences of `x` in `xs`, counted from the back as a loop over a growing prefix does. */
  function Count<T(==)>(xs: seq<T>, x: T): nat
  {
    if |xs| == 0 then 0
    else Count(xs[..|xs| - 1], x) + (if xs[|xs| - 1] == x then 1 else 0)
  }

  /** The positions that hold `x`: the reference meaning of "how many". */
  ghost function Positions<T>(xs: seq<T>, x: T): set<nat>
  {
    set i: nat | i < |xs| && xs[i] == x
  }

  /** Sum of the counters kept for `keys`. */
  function Total<T(==)>(keys: seq<T>, xs: seq<T>): nat
  {
    if |keys| == 0 then 0 else Count(xs, keys[0]) + Total(keys[1..], xs)
  }

  /** How many labels of `xs` are one of `keys`. */
  function Matched<T(==)>(keys: seq<T>, xs: seq<T>): nat
  {
    if |xs| == 0 then 0
    else Matched(keys, xs[..|xs| - 1]) + (if xs[|xs| - 1] in keys then 1 else 0)
  }

  lemma CountAppend<T>(xs: seq<T>, y: T, x: T)
    ensures Count(xs + [y], x) == Count(xs, x) + (if y == x then 1 else 0)
  {
    assert (xs + [y])[..|xs|] == xs;
  }

  lemma MatchedAppend<T>(keys: seq<T>, xs: seq<T>, y: T)
    ensures Matched(keys, xs + [y]) == Matched(keys, xs) + (if y in keys then 1 else 0)
  {
    assert (xs + [y])[..|xs|] == xs;
  }

  /** The counter equals the number of positions holding the label. */
  lemma {:induction false} CountIsPositions<T>(xs: seq<T>, x: T)
    ensures Count(xs, x) == |Positions(xs, x)|
  {
    if |xs| > 0 {
      var n := |xs| - 1;
      CountIsPositions(xs[..n], x);
      if xs[n] == x {
        assert Positions(xs, x) == Positions(xs[..n], x) + {n};
      } else {
        assert Positions(xs, x) == Positions(xs[..n], x);
      }
    }
  }

  /** A label that does not occur is counted zero times. */
  lemma {:induction false} CountAbsent<T>(xs: seq<T>, x: T)
    requires forall i :: 0 <= i < |xs| ==> xs[i] != x
    ensures Count(xs, x) == 0
  {
    if |xs| > 0 {
      var n := |xs| - 1;
      assert forall i :: 0 <= i < n ==> xs[..n][i] != x by {
        forall i | 0 <= i < n ensures xs[..n][i] != x {
          assert xs[..n][i] == xs[i];
        }
      }
      CountAbsent(xs[..n], x);
    }
  }

  /** Over distinct keys, one more label adds one to exactly the counter it names, if any. */
  lemma {:induction false} TotalAppend<T>(keys: seq<T>, xs: seq<T>, y: T)
    requires Distinct(keys)
    ensures Total(keys, xs + [y]) == Total(keys, xs) + (if y in keys then 1 else 0)
  {
    if |keys| > 0 {
      CountAppend(xs, y, keys[0]);
      TotalAppend(keys[1..], xs, y);
      assert y in keys <==> y == keys[0] || y in keys[1..];
      if y == keys[0] {
        assert y !in keys[1..] by {
          forall j | 0 <= j < |keys[1..]| ensures keys[1..][j] != y {
            assert keys[1..][j] == keys[j + 1];
          }
        }
      }
    }
  }

  /** Over distinct keys, the counters sum to the number of known labels. */
  lemma {:induction false} TotalIsMatched<T>(keys: seq<T>, xs: seq<T>)
    requires Distinct(keys)
    ensures Total(keys, xs) == Matched(keys, xs)
  {
    if |xs| == 0 {
      TotalOfEmpty(keys);
    } else {
      var n := |xs| - 1;
      assert xs == xs[..n] + [xs[n]];
      TotalIsMatched(keys, xs[..n]);
      TotalAppend(keys, xs[..n], xs[n]);
      MatchedAppend(keys, xs[..n], xs[n]);
    }
  }

  /** Every counter of an empty list is zero, and so is their sum. */
  lemma {:induction false} TotalOfEmpty<T>(keys: seq<T>)
    ensures Total(keys, []) == 0
  {
    if |keys| > 0 {
      TotalOfEmpty(keys[1..]);
    }
  }

  /** Known labels are at most all labels, and all of them exactly when every label is a key. */
  lemma {:induction false} MatchedBound<T>(keys: seq<T>, xs: seq<T>)
    ensures Matched(keys, xs) <= |xs|
    ensures Matched(keys, xs) == |xs| <==> forall i :: 0 <= i < |xs| ==> xs[i] in keys
  {
    if |xs| > 0 {
      var n := |xs| - 1;
      MatchedBound(keys, xs[..n]);
      if forall i :: 0 <= i < |xs| ==> xs[i] in keys {
        assert forall i :: 0 <= i < n ==> xs[..n][i] in keys by {
          forall i | 0 <= i < n ensures xs[..n][i] in keys {
            assert xs[..n][i] == xs[i];
          }
        }
      } else {
        var k :| 0 <= k < |xs| && xs[k] !in keys;
        if k < n {
          assert xs[..n][k] !in keys;
        }
      }
    }
  }

  /** The sum of the counters never exceeds the number of labels; it reaches it exactly when every label is a key. */
  lemma TotalBound<T>(keys: seq<T>, xs: seq<T>)
    requires Distinct(keys)
    ensures Total(keys, xs) <= |xs|
    ensures Total(keys, xs) == |xs| <==> forall i :: 0 <= i < |xs| ==> xs[i] in keys
  {
    TotalIsMatched(keys, xs);
    MatchedBound(keys, xs);
  }
}
