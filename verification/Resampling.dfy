/** Weight normalisation and prefix-sum selection of a particle filter, over exact reals. */
module Resampling {
  predicate NonNegative(ws: seq<real>) {
    forall i :: 0 <= i < |ws| ==> ws[i] >= 0.0
  }

  /** The sum of the weights. */
  ghost function Total(ws: seq<real>): real {
    if ws == [] then 0.0 else Total(ws[..|ws| - 1]) + ws[|ws| - 1]
  }

  /** The sum of the first `k + 1` weights. */
  ghost function Cumulative(ws: seq<real>, k: nat): real
    requires k < |ws|
  {
    Total(ws[..k + 1])
  }

  lemma TotalStep(ws: seq<real>, k: nat)
    requires k < |ws|
    ensures Total(ws[..k + 1]) == Total(ws[..k]) + ws[k]
  {
    assert ws[..k + 1][..k] == ws[..k];
  }

  lemma {:induction false} TotalMonotone(ws: seq<real>, j: nat, k: nat)
    requires NonNegative(ws) && j <= k <= |ws|
    ensures Total(ws[..j]) <= Total(ws[..k])
    decreases k
  {
    if j < k {
      TotalMonotone(ws, j, k - 1);
      TotalStep(ws, k - 1);
    }
  }

  lemma Distribute(t: real, w: real, sum: real)
    requires sum != 0.0
    ensures t / sum + w / sum == (t + w) / sum
  {
  }

  lemma {:induction false} ScaledTotal(ws: seq<real>, ns: seq<real>, sum: real)
    requires sum != 0.0 && |ns| == |ws| && forall i :: 0 <= i < |ws| ==> ns[i] == ws[i] / sum
    ensures Total(ns) == Total(ws) / sum
    decreases |ws|
  {
    if ws != [] {
      var k := |ws| - 1;
      ScaledTotal(ws[..k], ns[..k], sum);
      Distribute(Total(ws[..k]), ws[k], sum);
    }
  }

  method Accumulate(weights: seq<real>) returns (sum: real)
    ensures sum == Total(weights)
  {
    sum := 0.0;
    for i := 0 to |weights|
      invariant sum == Total(weights[..i])
    {
      TotalStep(weights, i);
      sum := sum + weights[i];
    }
    assert weights[..|weights|] == weights;
  }

  method Normalize(weights: seq<real>) returns (normalized: seq<real>)
    requires weights != [] ==> Total(weights) != 0.0
    ensures |normalized| == |weights|
    ensures forall i :: 0 <= i < |weights| ==> normalized[i] == weights[i] / Total(weights)
    ensures weights != [] ==> Total(normalized) == 1.0
    ensures NonNegative(weights) ==> NonNegative(normalized)
  {
    var sum := Accumulate(weights);
    normalized := [];
    for i := 0 to |weights|
      invariant |normalized| == i
      invariant forall j :: 0 <= j < i ==> normalized[j] == weights[j] / sum
    {
      normalized := normalized + [weights[i] / sum];
    }
    if weights != [] {
      NormalizedTotal(weights, normalized, sum);
      if NonNegative(weights) {
        NonNegativeTotal(weights);
        NormalizedNonNegative(weights, normalized, sum);
      }
    }
  }

  lemma NormalizedTotal(ws: seq<real>, ns: seq<real>, sum: real)
    requires sum == Total(ws) != 0.0
    requires |ns| == |ws| && forall i :: 0 <= i < |ws| ==> ns[i] == ws[i] / sum
    ensures Total(ns) == 1.0
  {
    ScaledTotal(ws, ns, sum);
    SelfQuotient(sum);
  }

  lemma NonNegativeTotal(ws: seq<real>)
    requires NonNegative(ws)
    ensures Total(ws) >= 0.0
  {
    TotalMonotone(ws, 0, |ws|);
    assert ws[..0] == [] && ws[..|ws|] == ws;
  }

  lemma NormalizedNonNegative(ws: seq<real>, ns: seq<real>, sum: real)
    requires NonNegative(ws) && sum > 0.0
    requires |ns| == |ws| && forall i :: 0 <= i < |ws| ==> ns[i] == ws[i] / sum
    ensures NonNegative(ns)
  {
  }

  lemma SelfQuotient(x: real)
    requires x != 0.0
    ensures x / x == 1.0
  {
  }

  /** `k` is the first index whose cumulative weight is not below the draw. */
  ghost predicate Picks(ws: seq<real>, draw: real, k: nat) {
    k < |ws| && draw <= Cumulative(ws, k) && forall j :: 0 <= j < k ==> Cumulative(ws, j) < draw
  }

  ghost predicate Selected<P>(particles: seq<P>, ws: seq<real>, draw: real, p: P)
    requires |ws| == |particles|
  {
    exists k: nat :: Picks(ws, draw, k) && p == particles[k]
  }

  /** One original particle for each draw, chosen by cumulative weight. */
  method Resample<P>(particles: seq<P>, weights: seq<real>, draws: seq<real>) returns (resampled: seq<P>)
    requires |weights| == |particles| >= 1 && |draws| == |particles|
    requires Total(weights) == 1.0
    requires forall i :: 0 <= i < |draws| ==> 0.0 <= draws[i] < 1.0
    ensures |resampled| == |particles|
    ensures forall i :: 0 <= i < |draws| ==> Selected(particles, weights, draws[i], resampled[i])
  {
    var cumulative := [weights[0]];
    TotalStep(weights, 0);
    for i := 1 to |weights|
      invariant |cumulative| == i
      invariant forall j :: 0 <= j < i ==> cumulative[j] == Cumulative(weights, j)
    {
      TotalStep(weights, i);
      cumulative := cumulative + [cumulative[i - 1] + weights[i]];
    }
    assert weights[..|weights|] == weights;
    resampled := [];
    for i := 0 to |particles|
      invariant |resampled| == i
      invariant forall j :: 0 <= j < i ==> Selected(particles, weights, draws[j], resampled[j])
    {
      var index := 0;
      while draws[i] > cumulative[index]
        invariant 0 <= index < |weights|
        invariant forall j :: 0 <= j < index ==> Cumulative(weights, j) < draws[i]
        decreases |weights| - index
      {
        assert index != |weights| - 1;
        index := index + 1;
      }
      assert Picks(weights, draws[i], index);
      resampled := resampled + [particles[index]];
    }
  }

  /** Each index is picked by the draws in an interval as long as its weight: the half-open interval above
      the previous cumulative weight, closed at zero for the first index. */
  lemma PickedInterval(ws: seq<real>, draw: real, k: nat)
    requires NonNegative(ws) && k < |ws|
    ensures Picks(ws, draw, k) <==> draw <= Cumulative(ws, k) && (k > 0 ==> Cumulative(ws, k - 1) < draw)
    ensures Cumulative(ws, k) - (if k > 0 then Cumulative(ws, k - 1) else 0.0) == ws[k]
  {
    TotalStep(ws, k);
    assert ws[..0] == [];
    forall j | 0 <= j < k
      ensures Cumulative(ws, j) <= Cumulative(ws, k - 1)
    {
      TotalMonotone(ws, j + 1, k);
    }
  }

  /** A particle of weight zero is picked exactly when it is the first one and the draw is zero. */
  lemma ZeroWeightPicked(ws: seq<real>, draw: real, k: nat)
    requires NonNegative(ws) && k < |ws| && ws[k] == 0.0 && 0.0 <= draw
    ensures Picks(ws, draw, k) <==> k == 0 && draw == 0.0
  {
    PickedInterval(ws, draw, k);
  }
}
