/** Small value types and sequence arithmetic shared by the trip analyser and the series builder. */
module Util {

  datatype Option<+T> = None | Some(value: T)

  datatype Result<+T, +E> = Ok(value: T) | Err(error: E)

  /** Sum of a list of integers, as Python's `sum`. */
  function Sum(xs: seq<int>): int
  {
    if xs == [] then 0 else Sum(xs[..|xs| - 1]) + xs[|xs| - 1]
  }

  function Min(xs: seq<int>): int
    requires |xs| > 0
  {
    if |xs| == 1 then xs[0]
    else var m := Min(xs[..|xs| - 1]); if xs[|xs| - 1] < m then xs[|xs| - 1] else m
  }

  function Max(xs: seq<int>): int
    requires |xs| > 0
  {
    if |xs| == 1 then xs[0]
    else var m := Max(xs[..|xs| - 1]); if xs[|xs| - 1] > m then xs[|xs| - 1] else m
  }

  /** `n` zeros: the history the padding template holds after `n` advances. */
  function Zeros(n: nat): (z: seq<int>)
    ensures |z| == n && forall i :: 0 <= i < n ==> z[i] == 0
  {
    seq(n, _ => 0)
  }

  /** Min and Max are attained and bound every element. */
  lemma {:induction false} MinMaxBound(xs: seq<int>)
    requires |xs| > 0
    ensures forall i :: 0 <= i < |xs| ==> Min(xs) <= xs[i] <= Max(xs)
    ensures Min(xs) in xs && Max(xs) in xs
  {
    if |xs| > 1 {
      var init := xs[..|xs| - 1];
      MinMaxBound(init);
      assert forall i :: 0 <= i < |xs| - 1 ==> xs[i] == init[i];
    }
  }

  /** The sum of a non-empty list lies between |xs| times its minimum and |xs| times its maximum,
      so the mean Sum(xs) / |xs| lies in [Min(xs), Max(xs)]. */
  lemma {:induction false} SumBetweenMinAndMax(xs: seq<int>)
    requires |xs| > 0
    ensures Min(xs) * |xs| <= Sum(xs) <= Max(xs) * |xs|
  {
    if |xs| > 1 {
      var init := xs[..|xs| - 1];
      var last := xs[|xs| - 1];
      var n := |init|;
      var lo, hi := Min(xs), Max(xs);
      SumBetweenMinAndMax(init);
      assert lo <= Min(init) && lo <= last;
      assert hi >= Max(init) && hi >= last;
      MulMonotone(lo, Min(init), n);
      MulMonotone(Max(init), hi, n);
      assert Sum(xs) == Sum(init) + last;
      MulSucc(lo, n);
      MulSucc(hi, n);
    }
  }

  lemma {:induction false} MulSucc(a: int, n: nat)
    ensures a * (n + 1) == a * n + a
  {
  }

  lemma {:induction false} MulMonotone(a: int, b: int, n: nat)
    requires a <= b
    ensures a * n <= b * n
  {
  }
}
