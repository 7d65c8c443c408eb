/**
 * `pickWeightedRandom`: a roulette-wheel choice of the next line to drill.
 * A line's weight shrinks with every completion and grows with every error;
 * a draw `r` in `[0, total)` walks the running sums of the weights and stops
 * at the first line whose running sum reaches `r`. The JavaScript numbers
 * are modelled as exact reals.
 */
module Selection {
  import opened Wrappers
  import opened Library

  /** The weight of a line completed `c` times with `e` errors. */
  function Weight(c: nat, e: nat): (w: real)
    ensures w > 0.0
  {
    (1.0 / (1 + c) as real) * (1.0 + e as real * 0.2)
  }

  /** One more completion makes a line strictly less likely. */
  lemma WeightFallsWithCompletions(c: nat, e: nat)
    ensures Weight(c + 1, e) < Weight(c, e)
  {
    var a, b := (1 + c) as real, (2 + c) as real;
    var f := 1.0 + e as real * 0.2;
    assert 1.0 / b < 1.0 / a by {
      assert (1.0 / b) * b == 1.0 && (1.0 / a) * a == 1.0;
    }
    assert (1.0 / b) * f < (1.0 / a) * f;
  }

  /** One more error makes a line strictly more likely. */
  lemma WeightGrowsWithErrors(c: nat, e: nat)
    ensures Weight(c, e) < Weight(c, e + 1)
  {
    var q := 1.0 / (1 + c) as real;
    assert q > 0.0;
    assert q * (1.0 + e as real * 0.2) < q * (1.0 + (e + 1) as real * 0.2);
  }

  /** A line that was never completed and never missed weighs 1. */
  lemma FreshWeight()
    ensures Weight(0, 0) == 1.0
  {
  }

  /** The weights of the lines, line by line and in order. */
  function Weights(games: seq<Opening>): (w: seq<real>)
    ensures |w| == |games|
    ensures Positive(w)
  {
    seq(|games|, i requires 0 <= i < |games| => Weight(games[i].completedCount, games[i].errorCount))
  }

  /** The sum of the first `n` weights, added from the left as `reduce` does. */
  function RunningSum(w: seq<real>, n: nat): real
    requires n <= |w|
  {
    if n == 0 then 0.0 else RunningSum(w, n - 1) + w[n - 1]
  }

  function Total(w: seq<real>): real {
    RunningSum(w, |w|)
  }

  predicate Positive(w: seq<real>) {
    forall i :: 0 <= i < |w| ==> w[i] > 0.0
  }

  /** Index `i` is where the walk stops: its running sum reaches `r`, no earlier one does. */
  predicate FirstReaching(w: seq<real>, r: real, i: nat) {
    i < |w| && r <= RunningSum(w, i + 1)
    && forall n :: 1 <= n <= i ==> RunningSum(w, n) < r
  }

  /** The walk stops at most at one index. */
  lemma FirstReachingUnique(w: seq<real>, r: real, i: nat)
    requires FirstReaching(w, r, i)
    ensures forall j: nat :: FirstReaching(w, r, j) ==> j == i
  {
  }

  /** With positive weights the running sums strictly increase. */
  lemma {:induction false} RunningSumIncreases(w: seq<real>, m: nat, n: nat)
    requires Positive(w) && m < n <= |w|
    ensures RunningSum(w, m) < RunningSum(w, n)
    decreases n - m
  {
    if m + 1 < n {
      RunningSumIncreases(w, m + 1, n);
    }
  }

  /**
   * With positive weights the walk stops at `i` exactly when `r` lies in the
   * interval `(RunningSum(i), RunningSum(i + 1)]` (for the first line, when `r`
   * is at most its weight): each line owns a slice of the wheel as wide as
   * its weight.
   */
  lemma FirstReachingInterval(w: seq<real>, r: real, i: nat)
    requires Positive(w) && i < |w|
    ensures FirstReaching(w, r, i) <==> (i == 0 || RunningSum(w, i) < r) && r <= RunningSum(w, i + 1)
  {
    if (i == 0 || RunningSum(w, i) < r) && r <= RunningSum(w, i + 1) {
      forall n | 1 <= n <= i
        ensures RunningSum(w, n) < r
      {
        if n < i {
          RunningSumIncreases(w, n, i);
        }
      }
    }
  }

  /** A draw no larger than the total always stops the walk at some line. */
  lemma {:induction false} SomeIndexReaches(w: seq<real>, r: real)
    requires |w| > 0 && r <= Total(w)
    ensures exists i: nat :: FirstReaching(w, r, i)
  {
    var n := 1;
    while n < |w| && RunningSum(w, n) < r
      invariant 1 <= n <= |w|
      invariant forall m :: 1 <= m < n ==> RunningSum(w, m) < r
    {
      n := n + 1;
    }
    assert FirstReaching(w, r, n - 1);
  }

  /** The point of the wheel a draw of `Math.random()` selects: `draw * total`. */
  function Target(games: seq<Opening>, draw: real): real {
    draw * Total(Weights(games))
  }

  /**
   * `pickWeightedRandom(games)` with `Math.random()` returning `draw`: None for
   * an empty library; otherwise the first line whose running sum reaches
   * `draw * total`, or the last line when none does.
   */
  method PickWeightedRandom(games: seq<Opening>, draw: real) returns (picked: Option<Opening>)
    ensures picked.None? <==> games == []
    ensures picked.Some? ==> picked.value in games
    ensures forall i: nat :: FirstReaching(Weights(games), Target(games, draw), i) ==>
              picked == Some(games[i])
    ensures games != [] && Target(games, draw) > Total(Weights(games)) ==>
              picked == Some(games[|games| - 1])
  {
    if |games| == 0 {
      return None;
    }
    var weights := Weights(games);
    var total := Total(weights);
    var r := draw * total;
    assert r == Target(games, draw);
    var sum := 0.0;
    for i := 0 to |games|
      invariant sum == RunningSum(weights, i)
      invariant forall n :: 1 <= n <= i ==> RunningSum(weights, n) < r
    {
      sum := sum + weights[i];
      if r <= sum {
        FirstReachingUnique(weights, r, i);
        if i + 1 < |games| {
          RunningSumIncreases(weights, i + 1, |games|);
        }
        return Some(games[i]);
      }
    }
    assert RunningSum(weights, |games|) < r;
    return Some(games[|games| - 1]);
  }

  lemma ScaleBelow(d: real, t: real)
    requires 0.0 <= d <= 1.0 && t >= 0.0
    ensures d * t <= t
  {
    assert t - d * t == (1.0 - d) * t;
  }

  /**
   * For a draw in `[0, 1)`, the fallback to the last line never fires in
   * exact arithmetic: the draw lands in the slice of exactly one line.
   */
  lemma DrawAlwaysLands(games: seq<Opening>, draw: real)
    requires games != [] && 0.0 <= draw < 1.0
    ensures exists i: nat :: FirstReaching(Weights(games), Target(games, draw), i)
    ensures Target(games, draw) <= Total(Weights(games))
  {
    var w := Weights(games);
    RunningSumIncreases(w, 0, |w|);
    ScaleBelow(draw, Total(w));
    var r := Target(games, draw);
    assert r <= Total(w);
    SomeIndexReaches(w, r);
  }

  /** A library of untouched lines is a fair wheel: the `n`-th running sum is `n`. */
  lemma {:induction false} FreshLibraryIsUniform(games: seq<Opening>, n: nat)
    requires n <= |games|
    requires forall i :: 0 <= i < |games| ==> games[i].completedCount == 0 && games[i].errorCount == 0
    ensures RunningSum(Weights(games), n) == n as real
  {
    if n > 0 {
      FreshLibraryIsUniform(games, n - 1);
      FreshWeight();
    }
  }
}
