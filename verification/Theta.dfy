/** The throttle both engines share: the share of the projected amounts that the funds cover. */
module Theta {
  import opened Prelude

  // Millionths; 1 is paid in full.
  const ONE := 1_000_000

  // funds and projected in one common unit.
  function ComputeTheta(funds: int, projected: int): int {
    if projected <= 0 then ONE
    else if funds >= projected then ONE
    else if funds < 0 then 0
    else funds * ONE / projected
  }

  function Throttled(amount: int, theta: int): int { amount * theta / ONE }

  lemma {:induction false} DivBounds(n: int, d: int)
    requires 0 < d
    ensures n / d * d <= n < (n / d + 1) * d
  {
  }

  /** Theta is the largest number of millionths whose share of the projection is funded. */
  lemma {:induction false} ThetaIsLargest(funds: int, projected: int)
    requires 0 < projected
    ensures var theta := ComputeTheta(funds, projected);
            && 0 <= theta <= ONE
            && theta * projected <= ONE * Max(0, funds)
            && (theta < ONE ==> ONE * funds < (theta + 1) * projected)
  {
    if 0 <= funds < projected {
      DivBounds(funds * ONE, projected);
      ShareBelowOne(funds, projected);
    }
  }

  lemma {:induction false} ShareBelowOne(funds: int, projected: int)
    requires 0 <= funds < projected
    ensures 0 <= funds * ONE / projected < ONE
  {
    DivBounds(funds * ONE, projected);
    var q := funds * ONE / projected;
    if q >= ONE {
      MulMonotone(ONE, q, projected);
    }
    if q < 0 {
      MulMonotone(q + 1, 0, projected);
    }
  }

  lemma {:induction false} MulMonotone(x: int, y: int, k: int)
    requires x <= y && 0 <= k
    ensures x * k <= y * k
  {
  }

  // A throttled amount is the whole-unit part of the share.
  lemma {:induction false} ThrottledBounds(amount: int, theta: int)
    requires 0 <= amount && 0 <= theta <= ONE
    ensures 0 <= Throttled(amount, theta) <= amount
    ensures Throttled(amount, theta) * ONE <= amount * theta
  {
    MulMonotone(theta, ONE, amount);
    MulMonotone(0, amount, theta);
  }

  function SumThrottled(amounts: seq<int>, theta: int): int {
    if amounts == [] then 0 else Throttled(amounts[0], theta) + SumThrottled(amounts[1..], theta)
  }

  lemma {:induction false} SumThrottledBound(amounts: seq<int>, theta: int)
    requires 0 <= theta <= ONE && forall i :: 0 <= i < |amounts| ==> 0 <= amounts[i]
    ensures 0 <= SumThrottled(amounts, theta) && SumThrottled(amounts, theta) * ONE <= Sum(amounts) * theta
    ensures 0 <= Sum(amounts)
  {
    hide Throttled;
    if amounts != [] {
      ThrottledBounds(amounts[0], theta);
      SumThrottledBound(amounts[1..], theta);
      assert (amounts[0] + Sum(amounts[1..])) * theta == amounts[0] * theta + Sum(amounts[1..]) * theta;
    }
  }

  /** Paid at their theta, the projected amounts never take more than the funds. */
  lemma {:induction false} ThrottledFits(amounts: seq<int>, funds: int)
    requires forall i :: 0 <= i < |amounts| ==> 0 <= amounts[i]
    ensures SumThrottled(amounts, ComputeTheta(funds, Sum(amounts))) <= Max(0, funds)
  {
    var projected := Sum(amounts);
    var theta := ComputeTheta(funds, projected);
    if projected > 0 {
      ThetaIsLargest(funds, projected);
      hide ComputeTheta;
      SumThrottledBound(amounts, theta);
    } else {
      SumThrottledBound(amounts, theta);
    }
  }
}
