/** AI call costs rounded to six decimals and credits charged by ceiling, over exact reals. */
module Metering {

  datatype Usage = Usage(inputTokens: int, outputTokens: int)

  datatype Rates = Rates(inputCostPerMillion: real, outputCostPerMillion: real)

  datatype Call = Call(usage: Usage, rates: Rates)

  const MILLION: real := 1_000_000.0

  function ExactCost(c: Call): real {
    (c.usage.inputTokens as real / MILLION) * c.rates.inputCostPerMillion
    + (c.usage.outputTokens as real / MILLION) * c.rates.outputCostPerMillion
  }

  /** `Math.round`: halves go up. */
  function Round(x: real): int { (x + 0.5).Floor }

  /** `Math.ceil`. */
  function Ceil(x: real): int { -((-x).Floor) }

  function RoundCost(cost: real): real {
    Round(cost * MILLION) as real / MILLION
  }

  function EstimateAiCostUsd(c: Call): real {
    RoundCost(ExactCost(c))
  }

  function CreditsForCostUsd(costUsd: real, creditsPerUsd: real): int {
    if costUsd <= 0.0 || creditsPerUsd <= 0.0 then 0
    else
      var credits := Ceil(costUsd * creditsPerUsd);
      if credits < 1 then 1 else credits
  }

  /** A million times the exact cost: input tokens at the input rate and output tokens at the output rate. */
  lemma CostExact(c: Call)
    ensures ExactCost(c) * 1_000_000.0 ==
            c.usage.inputTokens as real * c.rates.inputCostPerMillion
            + c.usage.outputTokens as real * c.rates.outputCostPerMillion
  {
    PerMillion(c.usage.inputTokens as real, c.rates.inputCostPerMillion);
    PerMillion(c.usage.outputTokens as real, c.rates.outputCostPerMillion);
  }

  lemma PerMillion(tokens: real, rate: real)
    ensures tokens / MILLION * rate * 1_000_000.0 == tokens * rate
  {
    assert tokens / MILLION * 1_000_000.0 == tokens;
  }

  /** The stored cost is the nearest whole number of millionths, a half rounded up. */
  lemma {:induction false} RoundExact(c: Call, millionths: int)
    ensures EstimateAiCostUsd(c) == millionths as real / 1_000_000.0 <==>
            ExactCost(c) * 1_000_000.0 - 0.5 < millionths as real <= ExactCost(c) * 1_000_000.0 + 0.5
  {
    var x := ExactCost(c) * MILLION;
    var n := Round(x);
    assert x - 0.5 < n as real <= x + 0.5;
    assert millionths as real / 1_000_000.0 == n as real / MILLION <==> millionths == n;
  }

  /** The fewest whole credits that cover the cost, at least one; none without a cost or a rate. */
  lemma {:induction false} CreditsExact(cost: real, rate: real)
    ensures cost <= 0.0 || rate <= 0.0 ==> CreditsForCostUsd(cost, rate) == 0
    ensures cost > 0.0 && rate > 0.0 ==>
              var credits := CreditsForCostUsd(cost, rate);
              credits >= 1 && cost * rate <= credits as real < cost * rate + 1.0
  {
    if cost > 0.0 && rate > 0.0 {
      Product(cost, rate);
      var x := cost * rate;
      assert x <= Ceil(x) as real < x + 1.0;
    }
  }

  function TotalExact(calls: seq<Call>): real {
    if calls == [] then 0.0 else ExactCost(calls[0]) + TotalExact(calls[1..])
  }

  function TotalRounded(calls: seq<Call>): real {
    if calls == [] then 0.0 else EstimateAiCostUsd(calls[0]) + TotalRounded(calls[1..])
  }

  function TotalCredits(calls: seq<Call>, creditsPerUsd: real): int {
    if calls == [] then 0
    else CreditsForCostUsd(EstimateAiCostUsd(calls[0]), creditsPerUsd) + TotalCredits(calls[1..], creditsPerUsd)
  }

  /** Half a unit of the sixth decimal. */
  const HALF_STEP: real := 0.000_000_5

  lemma RoundCostError(cost: real)
    ensures cost - HALF_STEP <= RoundCost(cost) <= cost + HALF_STEP
  {
    var x := cost * MILLION;
    var n := Round(x) as real;
    assert x - 0.5 <= n <= x + 0.5;
    assert RoundCost(cost) * MILLION == n;
  }

  /** The stored costs of any number of calls are off by at most half a step a call. */
  lemma {:induction false} TotalCostError(calls: seq<Call>)
    ensures TotalExact(calls) - |calls| as real * HALF_STEP <= TotalRounded(calls)
    ensures TotalRounded(calls) <= TotalExact(calls) + |calls| as real * HALF_STEP
  {
    if calls != [] {
      RoundCostError(ExactCost(calls[0]));
      TotalCostError(calls[1..]);
      assert |calls| as real * HALF_STEP == |calls[1..]| as real * HALF_STEP + HALF_STEP;
    }
  }

  /** A charge covers the cost at the rate, and is less than one credit above it when the cost is positive. */
  lemma CreditsBounds(cost: real, rate: real)
    requires rate > 0.0
    ensures rate * cost <= CreditsForCostUsd(cost, rate) as real
    ensures cost > 0.0 ==> CreditsForCostUsd(cost, rate) as real < rate * cost + 1.0
    ensures cost > 0.0 <==> CreditsForCostUsd(cost, rate) >= 1
  {
    var x := cost * rate;
    assert x <= Ceil(x) as real < x + 1.0;
    if cost > 0.0 {
      Product(cost, rate);
    } else {
      NoProduct(cost, rate);
    }
  }

  lemma Product(a: real, b: real)
    requires a > 0.0 && b > 0.0
    ensures a * b > 0.0
  {
  }

  lemma NoProduct(a: real, b: real)
    requires a <= 0.0 && b > 0.0
    ensures a * b <= 0.0
  {
  }

  ghost predicate NonNegative(calls: seq<Call>) {
    forall i :: 0 <= i < |calls| ==>
      calls[i].usage.inputTokens >= 0 && calls[i].usage.outputTokens >= 0
      && calls[i].rates.inputCostPerMillion >= 0.0 && calls[i].rates.outputCostPerMillion >= 0.0
  }

  lemma CostNonNegative(c: Call)
    requires NonNegative([c])
    ensures ExactCost(c) >= 0.0 && EstimateAiCostUsd(c) >= 0.0
  {
    assert [c][0] == c;
    var u, v := c.usage.inputTokens as real / MILLION, c.usage.outputTokens as real / MILLION;
    assert u >= 0.0 && v >= 0.0;
    NonNegativeProduct(u, c.rates.inputCostPerMillion);
    NonNegativeProduct(v, c.rates.outputCostPerMillion);
    assert ExactCost(c) * MILLION >= 0.0;
  }

  lemma NonNegativeProduct(a: real, b: real)
    requires a >= 0.0 && b >= 0.0
    ensures a * b >= 0.0
  {
  }

  /** Credits never fall short of the exact cost by more than the rounding of the costs, for any calls; on real
      usage they exceed the stored costs by less than one credit a call. */
  lemma {:induction false} TotalCreditsBounds(calls: seq<Call>, rate: real)
    requires rate > 0.0
    ensures rate * (TotalExact(calls) - |calls| as real * HALF_STEP) <= TotalCredits(calls, rate) as real
    ensures NonNegative(calls) ==> TotalCredits(calls, rate) as real <= rate * TotalRounded(calls) + |calls| as real
    ensures NonNegative(calls) && calls != [] ==>
              TotalCredits(calls, rate) as real < rate * TotalRounded(calls) + |calls| as real
  {
    CreditsFloor(calls, rate);
    if NonNegative(calls) {
      TotalCreditsCap(calls, rate);
    }
  }

  lemma {:induction false} CreditsFloor(calls: seq<Call>, rate: real)
    requires rate > 0.0
    ensures rate * (TotalExact(calls) - |calls| as real * HALF_STEP) <= TotalCredits(calls, rate) as real
  {
    TotalCreditsCover(calls, rate);
    TotalCostError(calls);
    ScaleBelow(rate, TotalExact(calls) - |calls| as real * HALF_STEP, TotalRounded(calls),
               TotalCredits(calls, rate) as real);
  }

  lemma ScaleBelow(rate: real, a: real, b: real, c: real)
    requires rate > 0.0 && a <= b && rate * b <= c
    ensures rate * a <= c
  {
    Scale(rate, a, b);
  }

  lemma Scale(rate: real, a: real, b: real)
    requires rate > 0.0 && a <= b
    ensures rate * a <= rate * b
  {
  }

  lemma Distribute(rate: real, a: real, b: real)
    ensures rate * (a + b) == rate * a + rate * b
  {
  }

  lemma {:induction false} TotalCreditsCover(calls: seq<Call>, rate: real)
    requires rate > 0.0
    ensures rate * TotalRounded(calls) <= TotalCredits(calls, rate) as real
  {
    if calls != [] {
      var cost, rest := EstimateAiCostUsd(calls[0]), TotalRounded(calls[1..]);
      CreditsBounds(cost, rate);
      TotalCreditsCover(calls[1..], rate);
      Distribute(rate, cost, rest);
    }
  }

  lemma CreditsCap(c: Call, rate: real)
    requires rate > 0.0 && NonNegative([c])
    ensures CreditsForCostUsd(EstimateAiCostUsd(c), rate) as real < rate * EstimateAiCostUsd(c) + 1.0
  {
    CostNonNegative(c);
    CreditsBounds(EstimateAiCostUsd(c), rate);
    NonNegativeProduct(rate, EstimateAiCostUsd(c));
  }

  lemma CapStep(rate: real, cost: real, rest: real, total: real, credits: int, more: int, sum: int, n: nat)
    requires credits as real < rate * cost + 1.0 && more as real <= rate * rest + n as real
    requires total == cost + rest && sum == credits + more
    ensures sum as real < rate * total + (n + 1) as real
  {
    Distribute(rate, cost, rest);
  }

  /** The first call's share of the totals. */
  lemma {:induction false} TotalsCons(calls: seq<Call>, rate: real) returns (cost: real, credits: int)
    requires rate > 0.0 && NonNegative(calls) && calls != []
    ensures TotalRounded(calls) == cost + TotalRounded(calls[1..])
    ensures TotalCredits(calls, rate) == credits + TotalCredits(calls[1..], rate)
    ensures credits as real < rate * cost + 1.0
  {
    CreditsCap(calls[0], rate);
    cost := EstimateAiCostUsd(calls[0]);
    credits := CreditsForCostUsd(cost, rate);
  }

  lemma {:induction false} CapCons(calls: seq<Call>, rate: real)
    requires rate > 0.0 && NonNegative(calls) && calls != []
    requires TotalCredits(calls[1..], rate) as real <= rate * TotalRounded(calls[1..]) + |calls[1..]| as real
    ensures TotalCredits(calls, rate) as real < rate * TotalRounded(calls) + |calls| as real
  {
    var cost, credits := TotalsCons(calls, rate);
    CapStep(rate, cost, TotalRounded(calls[1..]), TotalRounded(calls),
            credits, TotalCredits(calls[1..], rate), TotalCredits(calls, rate), |calls[1..]|);
  }

  lemma {:induction false} TotalCreditsCap(calls: seq<Call>, rate: real)
    requires rate > 0.0 && NonNegative(calls)
    ensures TotalCredits(calls, rate) as real <= rate * TotalRounded(calls) + |calls| as real
    ensures calls != [] ==> TotalCredits(calls, rate) as real < rate * TotalRounded(calls) + |calls| as real
  {
    if calls != [] {
      TotalCreditsCap(calls[1..], rate);
      CapCons(calls, rate);
    }
  }

  function SumCosts(costs: seq<real>): real {
    if costs == [] then 0.0 else costs[0] + SumCosts(costs[1..])
  }

  function SumCredits(costs: seq<real>, rate: real): int {
    if costs == [] then 0 else CreditsForCostUsd(costs[0], rate) + SumCredits(costs[1..], rate)
  }

  lemma CreditsSubadditive(a: real, b: real, rate: real)
    ensures CreditsForCostUsd(a + b, rate) <= CreditsForCostUsd(a, rate) + CreditsForCostUsd(b, rate)
  {
    if rate > 0.0 && a + b > 0.0 {
      CreditsBounds(a, rate);
      CreditsBounds(b, rate);
      CreditsBounds(a + b, rate);
      var ca, cb := CreditsForCostUsd(a, rate), CreditsForCostUsd(b, rate);
      assert (a + b) * rate == rate * a + rate * b;
      assert (a + b) * rate <= (ca + cb) as real;
      assert Ceil((a + b) * rate) <= ca + cb;
    }
  }

  /** Charging a sum at once never costs more credits than charging its parts. */
  lemma {:induction false} ChargingTogether(costs: seq<real>, rate: real)
    ensures CreditsForCostUsd(SumCosts(costs), rate) <= SumCredits(costs, rate)
  {
    if costs != [] {
      ChargingTogether(costs[1..], rate);
      CreditsSubadditive(costs[0], SumCosts(costs[1..]), rate);
    }
  }
}
