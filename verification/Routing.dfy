/**
 * Splitting a trade over the most liquid pools and pricing the split from the
 * exchanges' quotes (src/Create Stellar DEX Aggregator Integration,
 * `computeOptimalSplit` and `buildSplitRoute`).
 */
module Routing {

  import opened Options
  import opened RealFacts
  import opened Sorting
  import opened Liquidity
  import opened Quotes

  // ------------------------------------------------------ choosing the pools

  function MoreLiquid(a: Pool, b: Pool): bool
  {
    a.totalValueLocked >= b.totalValueLocked
  }

  function TopPools(pools: seq<Pool>, maxSplits: nat): seq<Pool>
  {
    var sorted := Sort(pools, MoreLiquid);
    if maxSplits < |sorted| then sorted[..maxSplits] else sorted
  }

  /** No pool left out is more liquid than a pool chosen. */
  lemma TopPoolsAreMostLiquid(pools: seq<Pool>, maxSplits: nat)
    ensures var sorted, top := Sort(pools, MoreLiquid), TopPools(pools, maxSplits);
            && multiset(sorted) == multiset(pools) && |sorted| == |pools|
            && |top| == (if maxSplits < |pools| then maxSplits else |pools|)
            && top == sorted[..|top|]
            && forall i, j :: 0 <= i < |top| && i < j < |sorted| ==>
                 top[i].totalValueLocked >= sorted[j].totalValueLocked
  {
    SortPermutes(pools, MoreLiquid);
    assert TotalPreorder(MoreLiquid);
    SortSorts(pools, MoreLiquid);
    var sorted, top := Sort(pools, MoreLiquid), TopPools(pools, maxSplits);
    forall i, j | 0 <= i < |top| && i < j < |sorted|
      ensures top[i].totalValueLocked >= sorted[j].totalValueLocked
    {
      assert MoreLiquid(sorted[i], sorted[j]);
    }
  }

  // -------------------------------------------------------------- the split

  datatype Allocation = Allocation(
    poolId: string,
    dexId: string,
    allocationPercent: real,
    allocatedAmount: real,
    expectedSlippage: Number)

  /** The percentage of a pool among `n` chosen ones that hold `total` together. */
  function SharePercent(pool: Pool, total: real, n: nat): (percent: real)
    requires n > 0
    ensures percent >= 0.0
  {
    PercentAdds(0.0, pool.totalValueLocked, total);
    if total > 0.0 then PercentOf(pool.totalValueLocked, total) else 100.0 / (n as real)
  }

  lemma SharePercentAtMostHundred(pool: Pool, total: real, n: nat)
    requires n > 0 && pool.totalValueLocked <= total
    ensures SharePercent(pool, total, n) <= 100.0
  {
    if total > 0.0 {
      PercentAdds(pool.totalValueLocked, total - pool.totalValueLocked, total);
      WholeIsHundred(total);
    } else {
      var k, t := n as real, 100.0 / (n as real);
      assert t * k == 100.0;
      assert (100.0 - t) * k == 100.0 * k - 100.0;
      NonNegativeFactor(100.0 - t, k);
    }
  }

  /** The part of a trade that a percentage stands for. */
  function Part(tradeSize: real, percent: real): real
  {
    tradeSize * percent / 100.0
  }

  lemma PartBounds(tradeSize: real, percent: real)
    requires tradeSize >= 0.0 && percent >= 0.0
    ensures Part(tradeSize, percent) >= 0.0
    ensures percent <= 100.0 ==> Part(tradeSize, percent) <= tradeSize
  {
    assert tradeSize * percent >= 0.0;
    if percent <= 100.0 {
      assert tradeSize * (100.0 - percent) >= 0.0;
      assert tradeSize * (100.0 - percent) == tradeSize * 100.0 - tradeSize * percent;
    }
  }

  lemma PartAdds(tradeSize: real, p: real, q: real)
    ensures Part(tradeSize, p + q) == Part(tradeSize, p) + Part(tradeSize, q)
  {
    assert tradeSize * (p + q) == tradeSize * p + tradeSize * q;
  }

  function Allocate(tradeSize: Amount, pool: Pool, percent: real): Allocation
    requires percent >= 0.0
  {
    PartBounds(tradeSize, percent);
    var amount := Part(tradeSize, percent);
    Allocation(pool.poolId, pool.dexId, percent, amount, EstimateSlippage(amount, pool).estimatedSlippage)
  }

  function Allocations(tradeSize: Amount, top: seq<Pool>): (r: seq<Allocation>)
    ensures |r| == |top|
    ensures forall i :: 0 <= i < |top| ==>
              r[i] == Allocate(tradeSize, top[i], SharePercent(top[i], Total(top, Tvl), |top|))
  {
    seq(|top|, i requires 0 <= i < |top| => Allocate(tradeSize, top[i], SharePercent(top[i], Total(top, Tvl), |top|)))
  }

  /** `computeOptimalSplit`; the number of splits defaults to 3 at the caller. */
  function OptimalSplit(tradeSize: Amount, pools: seq<Pool>, maxSplits: nat): seq<Allocation>
  {
    Allocations(tradeSize, TopPools(pools, maxSplits))
  }

  function SumPercents(xs: seq<Allocation>): real
  {
    if xs == [] then 0.0 else SumPercents(xs[..|xs| - 1]) + xs[|xs| - 1].allocationPercent
  }

  function SumAmounts(xs: seq<Allocation>): real
  {
    if xs == [] then 0.0 else SumAmounts(xs[..|xs| - 1]) + xs[|xs| - 1].allocatedAmount
  }

  lemma {:induction false} PercentsAddUp(top: seq<Pool>, xs: seq<Allocation>, total: real, n: nat)
    requires |xs| == |top| && n > 0
    requires forall i :: 0 <= i < |xs| ==> xs[i].allocationPercent == SharePercent(top[i], total, n)
    ensures SumPercents(xs) ==
            if total > 0.0 then PercentOf(Total(top, Tvl), total) else (|xs| as real) * (100.0 / (n as real))
  {
    if xs == [] {
      PercentAdds(0.0, 0.0, total);
    } else {
      var last := |xs| - 1;
      PercentsAddUp(top[..last], xs[..last], total, n);
      PercentAdds(Total(top[..last], Tvl), top[last].totalValueLocked, total);
      CountAdds(last, 100.0 / (n as real));
    }
  }

  lemma CountAdds(k: nat, each: real)
    ensures ((k + 1) as real) * each == (k as real) * each + each
  {
  }

  lemma {:induction false} AmountsFollowPercents(tradeSize: Amount, xs: seq<Allocation>)
    requires forall i :: 0 <= i < |xs| ==> xs[i].allocatedAmount == Part(tradeSize, xs[i].allocationPercent)
    ensures SumAmounts(xs) == Part(tradeSize, SumPercents(xs))
  {
    if xs != [] {
      var last := |xs| - 1;
      AmountsFollowPercents(tradeSize, xs[..last]);
      PartAdds(tradeSize, SumPercents(xs[..last]), xs[last].allocationPercent);
    }
  }

  lemma AllocationsCoverTrade(tradeSize: Amount, top: seq<Pool>)
    requires top != []
    ensures SumPercents(Allocations(tradeSize, top)) == 100.0
    ensures SumAmounts(Allocations(tradeSize, top)) == tradeSize
  {
    var xs, total, n := Allocations(tradeSize, top), Total(top, Tvl), |top| as real;
    PercentsAddUp(top, xs, total, |top|);
    if total > 0.0 {
      WholeIsHundred(total);
    } else {
      assert n * (100.0 / n) == 100.0;
    }
    AmountsFollowPercents(tradeSize, xs);
    assert Part(tradeSize, 100.0) == tradeSize;
  }

  /** The percentage a pool gets: its part of the liquidity chosen, or an equal part if there is none. */
  predicate IsAllocation(percent: real, part: real, total: real, n: nat)
  {
    if total > 0.0 then percent * total == 100.0 * part else percent * (n as real) == 100.0
  }

  lemma SharePercentAllocates(pool: Pool, total: real, n: nat)
    requires n > 0
    ensures IsAllocation(SharePercent(pool, total, n), pool.totalValueLocked, total, n)
  {
    PercentOfIsPercent(pool.totalValueLocked, total);
    if total <= 0.0 {
      assert 100.0 / (n as real) * (n as real) == 100.0;
    }
  }

  predicate IsPart(amount: real, whole: real, percent: real)
  {
    amount >= 0.0 && amount * 100.0 == whole * percent
  }

  lemma PartIsPart(whole: Amount, percent: real)
    requires percent >= 0.0
    ensures IsPart(Part(whole, percent), whole, percent)
  {
    PartBounds(whole, percent);
  }

  /** What every chosen pool gets. */
  lemma AllocatedByLiquidity(tradeSize: Amount, pools: seq<Pool>, maxSplits: nat, i: nat)
    requires i < |TopPools(pools, maxSplits)|
    ensures var top, x := TopPools(pools, maxSplits), OptimalSplit(tradeSize, pools, maxSplits)[i];
            && x.poolId == top[i].poolId && x.dexId == top[i].dexId
            && IsAllocation(x.allocationPercent, top[i].totalValueLocked, Total(top, Tvl), |top|)
            && IsPart(x.allocatedAmount, tradeSize, x.allocationPercent)
            && x.expectedSlippage == EstimateSlippage(x.allocatedAmount, top[i]).estimatedSlippage
  {
    var top := TopPools(pools, maxSplits);
    SharePercentAllocates(top[i], Total(top, Tvl), |top|);
    PartIsPart(tradeSize, SharePercent(top[i], Total(top, Tvl), |top|));
  }

  /** The split conserves the trade: percentages add up to 100 and amounts to the trade size. */
  lemma SplitConservesTrade(tradeSize: Amount, pools: seq<Pool>, maxSplits: nat)
    requires pools != [] && maxSplits > 0
    ensures var xs := OptimalSplit(tradeSize, pools, maxSplits);
            xs != [] && SumPercents(xs) == 100.0 && SumAmounts(xs) == tradeSize
  {
    TopPoolsAreMostLiquid(pools, maxSplits);
    AllocationsCoverTrade(tradeSize, TopPools(pools, maxSplits));
  }

  lemma {:induction false} TotalBounds(pools: seq<Pool>, i: nat)
    requires i < |pools|
    ensures pools[i].totalValueLocked <= Total(pools, Tvl)
  {
    var last := |pools| - 1;
    TotalNonNegative(pools[..last]);
    if i < last {
      TotalBounds(pools[..last], i);
    }
  }

  lemma SmallerTradeSlipsLess(pool: Pool, part: Amount, whole: Amount)
    requires 0.0 < whole && part <= whole
    ensures var a, b := EstimateSlippage(part, pool).estimatedSlippage, EstimateSlippage(whole, pool).estimatedSlippage;
            b.Finite? && (a.Finite? ==> a.value <= b.value)
  {
    if pool.reserveA > 0.0 && pool.reserveB > 0.0 && 0.0 < part < whole {
      PriceImpactGrows(pool.reserveA, pool.reserveB, part, whole);
    }
  }

  /** A pool of positive size gets a positive part, and only an empty part has no slippage figure. */
  lemma PartEmptyIff(tradeSize: Amount, pool: Pool, total: real, n: nat)
    requires tradeSize > 0.0 && n > 0 && pool.totalValueLocked <= total
    ensures Part(tradeSize, SharePercent(pool, total, n)) == 0.0 <==> total > 0.0 && pool.totalValueLocked == 0.0
  {
    var percent := SharePercent(pool, total, n);
    if total > 0.0 {
      assert percent * total == pool.totalValueLocked * 100.0;
    } else {
      assert percent * (n as real) == 100.0;
    }
    assert Part(tradeSize, percent) * 100.0 == tradeSize * percent;
  }

  /**
   * Splitting never makes a pool look worse than sending it the whole trade.
   * The one exception is a figure that is no number: for a pool with reserves
   * but without liquidity of its own, next to pools that have some.
   */
  lemma SplitNeverWorse(tradeSize: Amount, pools: seq<Pool>, maxSplits: nat, i: nat)
    requires tradeSize > 0.0 && i < |OptimalSplit(tradeSize, pools, maxSplits)|
    ensures var top := TopPools(pools, maxSplits);
            var part := OptimalSplit(tradeSize, pools, maxSplits)[i].expectedSlippage;
            var whole := EstimateSlippage(tradeSize, top[i]).estimatedSlippage;
            && whole.Finite? && (part.Finite? ==> part.value <= whole.value)
            && (part.NaN? <==> top[i].totalValueLocked == 0.0 && Total(top, Tvl) > 0.0 &&
                               top[i].reserveA != 0.0 && top[i].reserveB != 0.0)
  {
    var top := TopPools(pools, maxSplits);
    var percent := SharePercent(top[i], Total(top, Tvl), |top|);
    TotalBounds(top, i);
    SharePercentAtMostHundred(top[i], Total(top, Tvl), |top|);
    PartBounds(tradeSize, percent);
    SmallerTradeSlipsLess(top[i], Part(tradeSize, percent), tradeSize);
    PartEmptyIff(tradeSize, top[i], Total(top, Tvl), |top|);
  }

  // ------------------------------------------------------- the split route

  const UNITS := 10000000.0  // 1e-7 is the smallest amount

  /** `x.toFixed(7)` in units of 1e-7: nearest, and the larger one on a tie. */
  function ToUnits(x: real): int
  {
    (x * UNITS + 0.5).Floor
  }

  lemma ToUnitsNearest(x: real)
    ensures x * UNITS - 0.5 < ToUnits(x) as real <= x * UNITS + 0.5
  {
  }

  function FindQuote(quotes: seq<Quote>, dexId: string): Option<Quote>
  {
    if quotes == [] then None
    else if quotes[0].dexId == dexId then Some(quotes[0])
    else FindQuote(quotes[1..], dexId)
  }

  /** The first quote of the exchange, and none iff the exchange has no quote. */
  lemma {:induction false} FindQuoteIsFirst(quotes: seq<Quote>, dexId: string)
    ensures FindQuote(quotes, dexId).None? <==> forall i :: 0 <= i < |quotes| ==> quotes[i].dexId != dexId
    ensures FindQuote(quotes, dexId).Some? ==>
              exists i :: 0 <= i < |quotes| && quotes[i] == FindQuote(quotes, dexId).value && IsFirst(quotes, dexId, i)
  {
    if quotes != [] && quotes[0].dexId != dexId {
      FindQuoteIsFirst(quotes[1..], dexId);
      if FindQuote(quotes, dexId).Some? {
        var i :| 0 <= i < |quotes[1..]| && quotes[1..][i] == FindQuote(quotes, dexId).value &&
                 IsFirst(quotes[1..], dexId, i);
        assert IsFirst(quotes, dexId, i + 1);
      }
    } else if quotes != [] {
      assert IsFirst(quotes, dexId, 0);
    }
  }

  ghost predicate IsFirst(quotes: seq<Quote>, dexId: string, i: nat)
  {
    i < |quotes| && quotes[i].dexId == dexId && forall j :: 0 <= j < i ==> quotes[j].dexId != dexId
  }

  function Ratio(part: real, whole: real): real
    requires whole > 0.0
  {
    part / whole
  }

  /** A ratio of an amount, in units. */
  function RatioUnits(amount: real, r: real): int
  {
    ToUnits(amount * r)
  }

  datatype Leg = Leg(dexId: string, allocationPercent: real, sourceUnits: int, expectedUnits: int)

  /** One exchange's part of the route; without a quote it is expected to bring nothing. */
  function RouteLeg(a: Allocation, quotes: seq<Quote>, tradeSize: real): Leg
    requires tradeSize > 0.0
  {
    var quote := FindQuote(quotes, a.dexId);
    Leg(a.dexId, a.allocationPercent, ToUnits(a.allocatedAmount),
        if quote.Some? then RatioUnits(quote.value.destinationAmount, Ratio(a.allocatedAmount, tradeSize)) else 0)
  }

  function Legs(xs: seq<Allocation>, quotes: seq<Quote>, tradeSize: real): (legs: seq<Leg>)
    requires tradeSize > 0.0
    ensures |legs| == |xs|
  {
    if xs == [] then []
    else Legs(xs[..|xs| - 1], quotes, tradeSize) + [RouteLeg(xs[|xs| - 1], quotes, tradeSize)]
  }

  function ExpectedUnits(legs: seq<Leg>): int
  {
    if legs == [] then 0 else ExpectedUnits(legs[..|legs| - 1]) + legs[|legs| - 1].expectedUnits
  }

  function SourceUnits(legs: seq<Leg>): int
  {
    if legs == [] then 0 else SourceUnits(legs[..|legs| - 1]) + legs[|legs| - 1].sourceUnits
  }

  datatype SplitRoute = SplitRoute(legs: seq<Leg>, expectedUnits: int, minimumUnits: int)

  /** `slippageTolerance || 0.5`. */
  function Tolerance(requested: Option<real>): real
  {
    if requested.None? || requested.value == 0.0 then 0.5 else requested.value
  }

  /** `totalDst * (1 - tolerance / 100)`, in units. */
  function Discounted(total: int, tolerance: real): int
  {
    ToUnits((total as real) / UNITS * (1.0 - tolerance / 100.0))
  }

  /** `buildSplitRoute`; a trade of zero has no ratios and hence no route. */
  function BuildSplitRoute(quotes: seq<Quote>, pools: seq<Pool>, tradeSize: Amount, maxSplits: nat,
                           tolerance: Option<real>): Option<SplitRoute>
  {
    if tradeSize == 0.0 then None
    else
      var legs := Legs(OptimalSplit(tradeSize, pools, if maxSplits == 0 then 3 else maxSplits), quotes, tradeSize);
      var total := ExpectedUnits(legs);
      Some(SplitRoute(legs, total, Discounted(total, Tolerance(tolerance))))
  }

  lemma RatioAdds(a: real, b: real, whole: real)
    requires whole > 0.0
    ensures Ratio(a + b, whole) == Ratio(a, whole) + Ratio(b, whole)
    ensures b >= 0.0 ==> Ratio(b, whole) >= 0.0
    ensures Ratio(whole, whole) == 1.0
  {
    NonNegativeRatio(b, whole);
  }

  lemma NonNegativeRatio(b: real, whole: real)
    requires whole > 0.0
    ensures b >= 0.0 ==> Ratio(b, whole) >= 0.0
  {
    assert Ratio(b, whole) * whole == b;
    if b >= 0.0 {
      NonNegativeFactor(Ratio(b, whole), whole);
    }
  }

  /** What a ratio of an amount is worth in units. */
  function Worth(amount: real, r: real): real
  {
    amount * r * UNITS
  }

  /** `units` is ratio `r` of an amount between `lo` and `hi`, with `n` roundings on the way. */
  ghost predicate Between(units: int, lo: real, hi: real, r: real, n: nat)
  {
    Worth(lo, r) - 0.5 * (n as real) <= units as real <= Worth(hi, r) + 0.5 * (n as real)
  }

  lemma WorthGrows(a: real, b: real, r: real)
    requires a <= b && r >= 0.0
    ensures Worth(a, r) <= Worth(b, r)
  {
    NonNegativeProduct(b - a, r);
    assert (b - a) * r == b * r - a * r;
  }

  lemma LegBetween(amount: real, lo: real, hi: real, r: real)
    requires lo <= amount <= hi && r >= 0.0
    ensures Between(RatioUnits(amount, r), lo, hi, r, 1)
  {
    ToUnitsNearest(amount * r);
    assert Worth(amount, r) - 0.5 <= RatioUnits(amount, r) as real <= Worth(amount, r) + 0.5;
    WorthGrows(lo, amount, r);
    WorthGrows(amount, hi, r);
  }

  lemma WorthAdds(amount: real, s: real, r: real)
    ensures Worth(amount, s + r) == Worth(amount, s) + Worth(amount, r)
  {
    assert amount * (s + r) == amount * s + amount * r;
  }

  lemma BetweenAdds(u: int, v: int, lo: real, hi: real, s: real, r: real, n: nat)
    requires Between(u, lo, hi, s, n) && Between(v, lo, hi, r, 1)
    ensures Between(u + v, lo, hi, s + r, n + 1)
  {
    WorthAdds(lo, s, r);
    WorthAdds(hi, s, r);
  }

  ghost predicate MatchedWithin(xs: seq<Allocation>, quotes: seq<Quote>, lo: real, hi: real)
  {
    forall i :: 0 <= i < |xs| ==>
      var quote := FindQuote(quotes, xs[i].dexId);
      quote.Some? && lo <= quote.value.destinationAmount <= hi
  }

  lemma ExpectedSnoc(legs: seq<Leg>, leg: Leg)
    ensures ExpectedUnits(legs + [leg]) == ExpectedUnits(legs) + leg.expectedUnits
    ensures SourceUnits(legs + [leg]) == SourceUnits(legs) + leg.sourceUnits
  {
    assert (legs + [leg])[..|legs|] == legs;
  }

  lemma {:induction false} LegsWithinQuotes(xs: seq<Allocation>, quotes: seq<Quote>, tradeSize: real,
                                            lo: real, hi: real)
    requires tradeSize > 0.0 && MatchedWithin(xs, quotes, lo, hi)
    requires forall i :: 0 <= i < |xs| ==> xs[i].allocatedAmount >= 0.0
    ensures Between(ExpectedUnits(Legs(xs, quotes, tradeSize)), lo, hi, Ratio(SumAmounts(xs), tradeSize), |xs|)
  {
    if xs == [] {
      RatioAdds(0.0, 0.0, tradeSize);
      WorthAdds(lo, 0.0, 0.0);
      WorthAdds(hi, 0.0, 0.0);
    } else {
      var last := |xs| - 1;
      var front, x := xs[..last], xs[last];
      LegsWithinQuotes(front, quotes, tradeSize, lo, hi);
      RatioAdds(SumAmounts(front), x.allocatedAmount, tradeSize);
      var s, r := Ratio(SumAmounts(front), tradeSize), Ratio(x.allocatedAmount, tradeSize);
      var leg := RouteLeg(x, quotes, tradeSize);
      LegBetween(FindQuote(quotes, x.dexId).value.destinationAmount, lo, hi, r);
      ExpectedSnoc(Legs(front, quotes, tradeSize), leg);
      BetweenAdds(ExpectedUnits(Legs(front, quotes, tradeSize)), leg.expectedUnits, lo, hi, s, r, last);
    }
  }

  lemma {:induction false} SourcesCoverAmounts(xs: seq<Allocation>, quotes: seq<Quote>, tradeSize: real)
    requires tradeSize > 0.0
    ensures var units := SourceUnits(Legs(xs, quotes, tradeSize)) as real;
            SumAmounts(xs) * UNITS - 0.5 * (|xs| as real) <= units <= SumAmounts(xs) * UNITS + 0.5 * (|xs| as real)
  {
    if xs != [] {
      var last := |xs| - 1;
      SourcesCoverAmounts(xs[..last], quotes, tradeSize);
      ToUnitsNearest(xs[last].allocatedAmount);
      ExpectedSnoc(Legs(xs[..last], quotes, tradeSize), RouteLeg(xs[last], quotes, tradeSize));
    }
  }

  lemma SplitAmountsNonNegative(tradeSize: Amount, pools: seq<Pool>, maxSplits: nat)
    ensures forall i :: 0 <= i < |OptimalSplit(tradeSize, pools, maxSplits)| ==>
              OptimalSplit(tradeSize, pools, maxSplits)[i].allocatedAmount >= 0.0
  {
    var top := TopPools(pools, maxSplits);
    forall i | 0 <= i < |top|
      ensures OptimalSplit(tradeSize, pools, maxSplits)[i].allocatedAmount >= 0.0
    {
      PartBounds(tradeSize, SharePercent(top[i], Total(top, Tvl), |top|));
    }
  }

  /**
   * When every chosen pool has a quote, the expected output lies between the
   * smallest and the largest of these quotes, and the source amounts add up
   * to the trade; both up to half a unit per leg.
   */
  lemma RouteWithinQuotes(quotes: seq<Quote>, pools: seq<Pool>, tradeSize: Amount, maxSplits: nat,
                          tolerance: Option<real>, lo: real, hi: real)
    requires tradeSize > 0.0 && pools != []
    requires MatchedWithin(OptimalSplit(tradeSize, pools, if maxSplits == 0 then 3 else maxSplits), quotes, lo, hi)
    ensures BuildSplitRoute(quotes, pools, tradeSize, maxSplits, tolerance).Some?
    ensures var route := BuildSplitRoute(quotes, pools, tradeSize, maxSplits, tolerance).value;
            var slack := 0.5 * (|route.legs| as real);
            && lo * UNITS - slack <= route.expectedUnits as real <= hi * UNITS + slack
            && tradeSize * UNITS - slack <= SourceUnits(route.legs) as real <= tradeSize * UNITS + slack
  {
    var splits := if maxSplits == 0 then 3 else maxSplits;
    var xs := OptimalSplit(tradeSize, pools, splits);
    SplitConservesTrade(tradeSize, pools, splits);
    SplitAmountsNonNegative(tradeSize, pools, splits);
    LegsWithinQuotes(xs, quotes, tradeSize, lo, hi);
    SourcesCoverAmounts(xs, quotes, tradeSize);
    RatioAdds(0.0, 0.0, tradeSize);
  }

  lemma {:induction false} ExpectedNonNegative(xs: seq<Allocation>, quotes: seq<Quote>, tradeSize: real)
    requires tradeSize > 0.0 && forall i :: 0 <= i < |xs| ==> xs[i].allocatedAmount >= 0.0
    ensures ExpectedUnits(Legs(xs, quotes, tradeSize)) >= 0
  {
    if xs != [] {
      var last := |xs| - 1;
      ExpectedNonNegative(xs[..last], quotes, tradeSize);
      ExpectedSnoc(Legs(xs[..last], quotes, tradeSize), RouteLeg(xs[last], quotes, tradeSize));
      LegNonNegative(xs[last], quotes, tradeSize);
    }
  }

  lemma LegNonNegative(a: Allocation, quotes: seq<Quote>, tradeSize: real)
    requires tradeSize > 0.0 && a.allocatedAmount >= 0.0
    ensures RouteLeg(a, quotes, tradeSize).expectedUnits >= 0
  {
    var quote := FindQuote(quotes, a.dexId);
    if quote.Some? {
      RatioAdds(0.0, a.allocatedAmount, tradeSize);
      var x := quote.value.destinationAmount * Ratio(a.allocatedAmount, tradeSize);
      assert x >= 0.0;
      ToUnitsNearest(x);
    }
  }

  lemma {:induction false} LegsAt(xs: seq<Allocation>, quotes: seq<Quote>, tradeSize: real, i: nat)
    requires tradeSize > 0.0 && i < |xs|
    ensures Legs(xs, quotes, tradeSize)[i] == RouteLeg(xs[i], quotes, tradeSize)
  {
    if i < |xs| - 1 {
      LegsAt(xs[..|xs| - 1], quotes, tradeSize, i);
    }
  }

  /** `units` is `x` in units of 1e-7, rounded to the nearest and upwards on a tie. */
  predicate Rounded(units: int, x: real)
  {
    x * 10000000.0 - 0.5 < units as real <= x * 10000000.0 + 0.5
  }

  /**
   * A leg: the part of the trade its pool got, and that part of what the first
   * quote of its exchange brings, or nothing without a quote.
   */
  ghost predicate IsLeg(leg: Leg, x: Allocation, quotes: seq<Quote>, tradeSize: real)
    requires tradeSize > 0.0
  {
    && leg.dexId == x.dexId && leg.allocationPercent == x.allocationPercent
    && Rounded(leg.sourceUnits, x.allocatedAmount)
    && var quote := FindQuote(quotes, x.dexId);
       if quote.None? then leg.expectedUnits == 0
       else Rounded(leg.expectedUnits, quote.value.destinationAmount * (x.allocatedAmount / tradeSize))
  }

  lemma RouteLegIsLeg(x: Allocation, quotes: seq<Quote>, tradeSize: real)
    requires tradeSize > 0.0
    ensures IsLeg(RouteLeg(x, quotes, tradeSize), x, quotes, tradeSize)
  {
    ToUnitsNearest(x.allocatedAmount);
    var quote := FindQuote(quotes, x.dexId);
    if quote.Some? {
      ToUnitsNearest(quote.value.destinationAmount * Ratio(x.allocatedAmount, tradeSize));
    }
  }

  lemma RouteParts(quotes: seq<Quote>, pools: seq<Pool>, tradeSize: Amount, maxSplits: nat, tolerance: Option<real>)
    requires tradeSize > 0.0
    ensures var r := BuildSplitRoute(quotes, pools, tradeSize, maxSplits, tolerance);
            && r.Some?
            && r.value.legs ==
               Legs(OptimalSplit(tradeSize, pools, if maxSplits == 0 then 3 else maxSplits), quotes, tradeSize)
            && r.value.expectedUnits == ExpectedUnits(r.value.legs)
            && r.value.minimumUnits == Discounted(r.value.expectedUnits, Tolerance(tolerance))
  {
  }

  /** The legs of the route; three pools are used unless the request says otherwise. */
  lemma LegsFollowQuotes(quotes: seq<Quote>, pools: seq<Pool>, tradeSize: Amount, maxSplits: nat,
                         tolerance: Option<real>, i: nat)
    requires tradeSize > 0.0
    requires i < |OptimalSplit(tradeSize, pools, if maxSplits == 0 then 3 else maxSplits)|
    ensures BuildSplitRoute(quotes, pools, tradeSize, maxSplits, tolerance).Some?
    ensures var xs := OptimalSplit(tradeSize, pools, if maxSplits == 0 then 3 else maxSplits);
            var legs := BuildSplitRoute(quotes, pools, tradeSize, maxSplits, tolerance).value.legs;
            |legs| == |xs| && IsLeg(legs[i], xs[i], quotes, tradeSize)
  {
    var xs := OptimalSplit(tradeSize, pools, if maxSplits == 0 then 3 else maxSplits);
    RouteParts(quotes, pools, tradeSize, maxSplits, tolerance);
    LegsAt(xs, quotes, tradeSize, i);
    RouteLegIsLeg(xs[i], quotes, tradeSize);
  }

  /** The expected output is the sum of the legs. */
  lemma {:induction false} ExpectedIsSum(legs: seq<Leg>, more: seq<Leg>)
    ensures ExpectedUnits(legs + more) == ExpectedUnits(legs) + ExpectedUnits(more)
    ensures |more| == 1 ==> ExpectedUnits(more) == more[0].expectedUnits
  {
    if more == [] {
      assert legs + more == legs;
    } else {
      ExpectedIsSum(legs, more[..|more| - 1]);
      assert (legs + more)[..|legs + more| - 1] == legs + more[..|more| - 1];
    }
  }

  /** `units` is `total` less `percent` percent, rounded to the nearest and upwards on a tie. */
  predicate IsDiscounted(units: int, total: int, percent: real)
  {
    var exact := total as real * (1.0 - percent / 100.0);
    exact - 0.5 < units as real <= exact + 0.5
  }

  lemma DiscountedNearest(total: int, tolerance: real)
    ensures IsDiscounted(Discounted(total, tolerance), total, tolerance)
  {
    var x, keep := (total as real) / UNITS, 1.0 - tolerance / 100.0;
    ToUnitsNearest(x * keep);
    assert x * UNITS == total as real;
    assert x * keep * UNITS == x * UNITS * keep;
  }

  /** The guaranteed minimum is the expected output less the tolerance, which is half a percent unless given. */
  lemma MinimumIsDiscounted(quotes: seq<Quote>, pools: seq<Pool>, tradeSize: Amount, maxSplits: nat,
                            tolerance: Option<real>)
    requires tradeSize > 0.0
    ensures BuildSplitRoute(quotes, pools, tradeSize, maxSplits, tolerance).Some?
    ensures var route := BuildSplitRoute(quotes, pools, tradeSize, maxSplits, tolerance).value;
            && route.expectedUnits == ExpectedUnits(route.legs)
            && IsDiscounted(route.minimumUnits, route.expectedUnits,
                            if tolerance.None? || tolerance.value == 0.0 then 0.5 else tolerance.value)
  {
    RouteParts(quotes, pools, tradeSize, maxSplits, tolerance);
    DiscountedNearest(BuildSplitRoute(quotes, pools, tradeSize, maxSplits, tolerance).value.expectedUnits,
                      Tolerance(tolerance));
  }

  /** The guaranteed minimum never exceeds the expected output. */
  lemma MinimumBelowExpected(quotes: seq<Quote>, pools: seq<Pool>, tradeSize: Amount, maxSplits: nat,
                             tolerance: Option<real>)
    requires tradeSize > 0.0 && 0.0 <= Tolerance(tolerance) <= 100.0
    ensures BuildSplitRoute(quotes, pools, tradeSize, maxSplits, tolerance).Some?
    ensures var route := BuildSplitRoute(quotes, pools, tradeSize, maxSplits, tolerance).value;
            0 <= route.expectedUnits && route.minimumUnits <= route.expectedUnits
  {
    var splits := if maxSplits == 0 then 3 else maxSplits;
    SplitAmountsNonNegative(tradeSize, pools, splits);
    ExpectedNonNegative(OptimalSplit(tradeSize, pools, splits), quotes, tradeSize);
    var route := BuildSplitRoute(quotes, pools, tradeSize, maxSplits, tolerance).value;
    DiscountedBelow(route.expectedUnits, Tolerance(tolerance));
  }

  lemma DiscountedBelow(total: int, tolerance: real)
    requires total >= 0 && 0.0 <= tolerance <= 100.0
    ensures Discounted(total, tolerance) <= total
  {
    var x, t := (total as real) / UNITS, tolerance / 100.0;
    assert x * t >= 0.0 && x * (1.0 - t) == x - x * t;
    ToUnitsNearest(x * (1.0 - t));
    assert x * UNITS == total as real;
  }
}
