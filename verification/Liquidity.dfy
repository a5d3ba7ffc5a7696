/**
 * Liquidity across exchanges: grouping, market shares and concentration, and
 * the constant-product price impact (src/Create Stellar DEX Aggregator Integration/liquidity-analyzer.ts).
 * Amounts are exact reals.
 */
module Liquidity {

  import opened Options
  import opened RealFacts

  type Amount = r: real | r >= 0.0

  datatype Pool = Pool(
    poolId: string,
    dexId: string,
    totalValueLocked: Amount,
    volume24h: Amount,
    fee: Amount,
    reserveA: Amount,
    reserveB: Amount)

  // ---------------------------------------------------------------- sums

  /** `pools.reduce((sum, p) => sum + weight(p), 0)`. */
  function Total(pools: seq<Pool>, weight: Pool -> real): real
  {
    if pools == [] then 0.0 else Total(pools[..|pools| - 1], weight) + weight(pools[|pools| - 1])
  }

  function Tvl(p: Pool): real
  {
    p.totalValueLocked
  }

  function Volume(p: Pool): real
  {
    p.volume24h
  }

  /** What a single pool weighs, and that totals add up. */
  lemma TotalOfOne(p: Pool)
    ensures Total([p], Tvl) == p.totalValueLocked && Total([p], Volume) == p.volume24h
  {
    assert [p][..0] == [] && Total([p][..0], Tvl) == 0.0 && Total([p][..0], Volume) == 0.0;
  }

  lemma {:induction false} TotalConcat(a: seq<Pool>, b: seq<Pool>, weight: Pool -> real)
    ensures Total(a + b, weight) == Total(a, weight) + Total(b, weight)
  {
    if b == [] {
      assert a + b == a;
    } else {
      TotalConcat(a, b[..|b| - 1], weight);
      assert (a + b)[..|a + b| - 1] == a + b[..|b| - 1];
    }
  }

  // ------------------------------------------------------- grouping by DEX

  /** The exchanges in order of first appearance, as the keys of a JavaScript Map. */
  function DexIds(pools: seq<Pool>): seq<string>
  {
    if pools == [] then []
    else
      var front, d := DexIds(pools[..|pools| - 1]), pools[|pools| - 1].dexId;
      if d in front then front else front + [d]
  }

  /** The pools of one exchange, in input order. */
  function PoolsOf(pools: seq<Pool>, dexId: string): seq<Pool>
  {
    if pools == [] then []
    else
      var front, p := PoolsOf(pools[..|pools| - 1], dexId), pools[|pools| - 1];
      if p.dexId == dexId then front + [p] else front
  }

  lemma {:induction false} DexIdsMember(pools: seq<Pool>, d: string)
    ensures d in DexIds(pools) <==> PoolsOf(pools, d) != []
  {
    if pools != [] {
      DexIdsMember(pools[..|pools| - 1], d);
    }
  }

  /** Further pools only add exchanges behind those already known: the order of first appearance. */
  lemma {:induction false} DexIdsGrow(a: seq<Pool>, b: seq<Pool>)
    ensures DexIds(a) <= DexIds(a + b)
  {
    if b == [] {
      assert a + b == a;
    } else {
      DexIdsGrow(a, b[..|b| - 1]);
      assert (a + b)[..|a + b| - 1] == a + b[..|b| - 1];
    }
  }

  /** A group picks the pools of its exchange in input order. */
  lemma {:induction false} PoolsOfConcat(a: seq<Pool>, b: seq<Pool>, dexId: string)
    ensures PoolsOf(a + b, dexId) == PoolsOf(a, dexId) + PoolsOf(b, dexId)
  {
    if b == [] {
      assert a + b == a;
    } else {
      PoolsOfConcat(a, b[..|b| - 1], dexId);
      assert (a + b)[..|a + b| - 1] == a + b[..|b| - 1];
    }
  }

  lemma PoolsOfOne(p: Pool, dexId: string)
    ensures PoolsOf([p], dexId) == if p.dexId == dexId then [p] else []
  {
    assert [p][..0] == [] && PoolsOf([p][..0], dexId) == [];
  }

  /** `groupByDex`: the accumulator Map, filled pool by pool. */
  method GroupByDex(pools: seq<Pool>) returns (keys: seq<string>, groups: map<string, seq<Pool>>)
    ensures keys == DexIds(pools)
    ensures forall d :: d in groups <==> d in keys
    ensures forall d :: d in groups ==> groups[d] == PoolsOf(pools, d)
  {
    keys, groups := [], map[];
    for i := 0 to |pools|
      invariant keys == DexIds(pools[..i])
      invariant forall d :: d in groups <==> d in keys
      invariant forall d :: d in groups ==> groups[d] == PoolsOf(pools[..i], d)
    {
      assert pools[..i + 1][..i] == pools[..i];
      var d := pools[i].dexId;
      DexIdsMember(pools[..i], d);
      var existing := if d in groups then groups[d] else [];
      keys := if d in groups then keys else keys + [d];
      groups := groups[d := existing + [pools[i]]];
    }
    assert pools[..|pools|] == pools;
  }

  /** The sum over the groups of the given exchanges. */
  function SumGroups(keys: seq<string>, pools: seq<Pool>, weight: Pool -> real): real
  {
    if keys == [] then 0.0
    else SumGroups(keys[..|keys| - 1], pools, weight) + Total(PoolsOf(pools, keys[|keys| - 1]), weight)
  }

  ghost predicate Distinct(keys: seq<string>)
  {
    forall i, j :: 0 <= i < j < |keys| ==> keys[i] != keys[j]
  }

  lemma {:induction false} DexIdsDistinct(pools: seq<Pool>)
    ensures Distinct(DexIds(pools))
  {
    if pools != [] {
      DexIdsDistinct(pools[..|pools| - 1]);
    }
  }

  lemma TotalSnoc(pools: seq<Pool>, p: Pool, weight: Pool -> real)
    ensures Total(pools + [p], weight) == Total(pools, weight) + weight(p)
  {
    assert (pools + [p])[..|pools|] == pools;
  }

  /** One more pool adds its weight to the one group it belongs to. */
  lemma {:induction false} SumGroupsOneMore(keys: seq<string>, pools: seq<Pool>, p: Pool, weight: Pool -> real)
    requires Distinct(keys)
    ensures SumGroups(keys, pools + [p], weight) ==
            SumGroups(keys, pools, weight) + if p.dexId in keys then weight(p) else 0.0
  {
    if keys != [] {
      var front, d := keys[..|keys| - 1], keys[|keys| - 1];
      SumGroupsOneMore(front, pools, p, weight);
      assert (pools + [p])[..|pools|] == pools;
      TotalSnoc(PoolsOf(pools, d), p, weight);
      assert p.dexId in keys <==> p.dexId in front || p.dexId == d;
      assert d !in front;
    }
  }

  /** Grouping loses nothing: any additive quantity is the same over the groups as over the pools. */
  lemma {:induction false} GroupingConserves(pools: seq<Pool>, weight: Pool -> real)
    ensures SumGroups(DexIds(pools), pools, weight) == Total(pools, weight)
  {
    if pools != [] {
      var front, p := pools[..|pools| - 1], pools[|pools| - 1];
      assert pools == front + [p];
      GroupingConserves(front, weight);
      DexIdsDistinct(front);
      DexIdsDistinct(pools);
      SumGroupsOneMore(DexIds(front), front, p, weight);
      if p.dexId !in DexIds(front) {
        NewGroup(front, p, weight);
      }
    }
  }

  lemma NewGroup(pools: seq<Pool>, p: Pool, weight: Pool -> real)
    requires p.dexId !in DexIds(pools)
    ensures SumGroups(DexIds(pools) + [p.dexId], pools + [p], weight) ==
            SumGroups(DexIds(pools), pools + [p], weight) + weight(p)
  {
    var keys := DexIds(pools) + [p.dexId];
    assert keys[..|keys| - 1] == DexIds(pools);
    DexIdsMember(pools, p.dexId);
    assert (pools + [p])[..|pools|] == pools;
    TotalSnoc([], p, weight);
    assert PoolsOf(pools + [p], p.dexId) == [] + [p];
  }

  // -------------------------------------------- distribution and analysis

  datatype DexShare = DexShare(dexId: string, liquidityShare: real, volumeShare: real, poolCount: nat)

  function PercentOf(part: real, whole: real): real
  {
    if whole > 0.0 then part / whole * 100.0 else 0.0
  }

  function ShareOf(dexId: string, group: seq<Pool>, liquidity: real, volume: real): DexShare
  {
    DexShare(dexId, PercentOf(Total(group, Tvl), liquidity), PercentOf(Total(group, Volume), volume), |group|)
  }

  function Distribution(keys: seq<string>, pools: seq<Pool>, liquidity: real, volume: real): (ds: seq<DexShare>)
    ensures |ds| == |keys|
  {
    if keys == [] then []
    else
      var dexId := keys[|keys| - 1];
      Distribution(keys[..|keys| - 1], pools, liquidity, volume) +
      [ShareOf(dexId, PoolsOf(pools, dexId), liquidity, volume)]
  }

  /** `distribution.reduce(...)`: the running winner is replaced on ties. */
  function Dominant(ds: seq<DexShare>): DexShare
    requires ds != []
  {
    if |ds| == 1 then ds[0]
    else
      var a, b := Dominant(ds[..|ds| - 1]), ds[|ds| - 1];
      if a.liquidityShare > b.liquidityShare then a else b
  }

  /** The Herfindahl-Hirschman index: the sum of squared fractions. */
  function Herfindahl(ds: seq<DexShare>): real
  {
    if ds == [] then 0.0
    else
      var x := ds[|ds| - 1].liquidityShare / 100.0;
      Herfindahl(ds[..|ds| - 1]) + x * x
  }

  datatype Analysis = Analysis(
    totalLiquidity: real,
    totalVolume: real,
    dominantDex: string,
    distribution: seq<DexShare>,
    depthScore: real,
    concentrationRisk: real,
    recommendedMaxTradeSize: real)

  lemma {:induction false} DexIdsNonEmpty(pools: seq<Pool>)
    ensures DexIds(pools) == [] <==> pools == []
  {
    if pools != [] {
      DexIdsNonEmpty(pools[..|pools| - 1]);
    }
  }

  function Analyze(pools: seq<Pool>): Analysis
  {
    if pools == [] then Analysis(0.0, 0.0, "none", [], 0.0, 1.0, 0.0)
    else
      var liquidity, volume := Total(pools, Tvl), Total(pools, Volume);
      DexIdsNonEmpty(pools);
      var ds := Distribution(DexIds(pools), pools, liquidity, volume);
      var depth := liquidity / 1000000.0 * 100.0;
      Analysis(liquidity, volume, Dominant(ds).dexId, ds, if depth < 100.0 then depth else 100.0,
               Herfindahl(ds), liquidity * 0.01)
  }

  /** `analyze` as it runs, over the Map that `groupByDex` builds. */
  method AnalyzePools(pools: seq<Pool>) returns (a: Analysis)
    ensures a == Analyze(pools)
  {
    if |pools| == 0 {
      return Analysis(0.0, 0.0, "none", [], 0.0, 1.0, 0.0);
    }
    var liquidity, volume := Total(pools, Tvl), Total(pools, Volume);
    var keys, byDex := GroupByDex(pools);
    var ds: seq<DexShare> := [];
    for i := 0 to |keys|
      invariant ds == Distribution(keys[..i], pools, liquidity, volume)
    {
      assert keys[..i + 1][..i] == keys[..i];
      ds := ds + [ShareOf(keys[i], byDex[keys[i]], liquidity, volume)];
    }
    assert keys[..|keys|] == keys;
    DexIdsNonEmpty(pools);
    var depth := liquidity / 1000000.0 * 100.0;
    a := Analysis(liquidity, volume, Dominant(ds).dexId, ds, if depth < 100.0 then depth else 100.0,
                  Herfindahl(ds), liquidity * 0.01);
  }

  function SumShares(ds: seq<DexShare>): real
  {
    if ds == [] then 0.0 else SumShares(ds[..|ds| - 1]) + ds[|ds| - 1].liquidityShare
  }

  lemma {:induction false} TotalNonNegative(pools: seq<Pool>)
    ensures Total(pools, Tvl) >= 0.0
  {
    if pools != [] {
      TotalNonNegative(pools[..|pools| - 1]);
    }
  }

  lemma {:induction false} SharesFollowGroups(keys: seq<string>, pools: seq<Pool>, liquidity: real, volume: real)
    ensures SumShares(Distribution(keys, pools, liquidity, volume)) == PercentOf(SumGroups(keys, pools, Tvl), liquidity)
  {
    if keys == [] {
      PercentAdds(0.0, 0.0, liquidity);
    } else {
      var front, dexId := keys[..|keys| - 1], keys[|keys| - 1];
      SharesFollowGroups(front, pools, liquidity, volume);
      var share := ShareOf(dexId, PoolsOf(pools, dexId), liquidity, volume);
      SumSharesSnoc(Distribution(front, pools, liquidity, volume), share);
      PercentAdds(SumGroups(front, pools, Tvl), Total(PoolsOf(pools, dexId), Tvl), liquidity);
    }
  }

  lemma SumSharesSnoc(ds: seq<DexShare>, d: DexShare)
    ensures SumShares(ds + [d]) == SumShares(ds) + d.liquidityShare
  {
    assert (ds + [d])[..|ds|] == ds;
  }

  lemma {:induction false} SharesNonNegative(keys: seq<string>, pools: seq<Pool>, liquidity: real, volume: real)
    ensures forall i :: 0 <= i < |keys| ==> Distribution(keys, pools, liquidity, volume)[i].liquidityShare >= 0.0
  {
    if keys != [] {
      SharesNonNegative(keys[..|keys| - 1], pools, liquidity, volume);
      TotalNonNegative(PoolsOf(pools, keys[|keys| - 1]));
      PercentAdds(0.0, Total(PoolsOf(pools, keys[|keys| - 1]), Tvl), liquidity);
    }
  }

  lemma PercentAdds(a: real, b: real, whole: real)
    ensures PercentOf(a + b, whole) == PercentOf(a, whole) + PercentOf(b, whole)
    ensures b >= 0.0 ==> PercentOf(b, whole) >= 0.0
  {
    if whole > 0.0 {
      assert (a + b) / whole == a / whole + b / whole;
    }
  }

  /** With positive total liquidity the shares are non-negative and add up to 100. */
  lemma SharesSumToHundred(pools: seq<Pool>)
    requires Total(pools, Tvl) > 0.0
    ensures SumShares(Analyze(pools).distribution) == 100.0
    ensures forall i :: 0 <= i < |Analyze(pools).distribution| ==> Analyze(pools).distribution[i].liquidityShare >= 0.0
  {
    var liquidity, volume := Total(pools, Tvl), Total(pools, Volume);
    GroupingConserves(pools, Tvl);
    SharesFollowGroups(DexIds(pools), pools, liquidity, volume);
    SharesNonNegative(DexIds(pools), pools, liquidity, volume);
    WholeIsHundred(liquidity);
  }

  lemma WholeIsHundred(x: real)
    requires x > 0.0
    ensures PercentOf(x, x) == 100.0
  {
    assert x / x == 1.0;
  }

  lemma {:induction false} DominantIsMaximal(ds: seq<DexShare>)
    requires ds != []
    ensures Dominant(ds) in ds
    ensures forall i :: 0 <= i < |ds| ==> ds[i].liquidityShare <= Dominant(ds).liquidityShare
  {
    if |ds| > 1 {
      DominantIsMaximal(ds[..|ds| - 1]);
    }
  }

  /** Among equals the last one wins: everything behind the dominant exchange is strictly smaller. */
  lemma {:induction false} DominantIsLast(ds: seq<DexShare>) returns (k: nat)
    requires ds != []
    ensures k < |ds| && Dominant(ds) == ds[k]
    ensures forall i :: k < i < |ds| ==> ds[i].liquidityShare < ds[k].liquidityShare
  {
    var last := |ds| - 1;
    if last == 0 {
      k := 0;
    } else {
      k := DominantIsLast(ds[..last]);
      if !(ds[k].liquidityShare > ds[last].liquidityShare) {
        k := last;
      }
    }
  }

  // --------------------------------------------- the figures of an analysis

  lemma {:induction false} DistributionAt(keys: seq<string>, pools: seq<Pool>, liquidity: real, volume: real, i: nat)
    requires i < |keys|
    ensures Distribution(keys, pools, liquidity, volume)[i] ==
            ShareOf(keys[i], PoolsOf(pools, keys[i]), liquidity, volume)
  {
    if i < |keys| - 1 {
      DistributionAt(keys[..|keys| - 1], pools, liquidity, volume, i);
    }
  }

  /** `percent` says which part of `whole` the amount `part` is; of nothing everything is zero percent. */
  predicate IsPercent(percent: real, part: real, whole: real)
  {
    if whole > 0.0 then percent * whole == 100.0 * part else percent == 0.0
  }

  lemma PercentOfIsPercent(part: real, whole: real)
    ensures IsPercent(PercentOf(part, whole), part, whole)
  {
    if whole > 0.0 {
      assert part / whole * whole == part;
    }
  }

  lemma DistributionOfAnalysis(pools: seq<Pool>, i: nat)
    requires i < |DexIds(pools)|
    ensures var ds, d := Analyze(pools).distribution, DexIds(pools)[i];
            && |ds| == |DexIds(pools)|
            && ds[i] == ShareOf(d, PoolsOf(pools, d), Total(pools, Tvl), Total(pools, Volume))
  {
    DexIdsNonEmpty(pools);
    DistributionAt(DexIds(pools), pools, Total(pools, Tvl), Total(pools, Volume), i);
  }

  /** The shares of every exchange, in order of first appearance. */
  lemma SharesOfExchanges(pools: seq<Pool>, i: nat)
    requires i < |DexIds(pools)|
    ensures var ds, d := Analyze(pools).distribution, DexIds(pools)[i];
            && |ds| == |DexIds(pools)| && ds[i].dexId == d && ds[i].poolCount == |PoolsOf(pools, d)|
            && IsPercent(ds[i].liquidityShare, Total(PoolsOf(pools, d), Tvl), Total(pools, Tvl))
            && IsPercent(ds[i].volumeShare, Total(PoolsOf(pools, d), Volume), Total(pools, Volume))
  {
    var d := DexIds(pools)[i];
    DistributionOfAnalysis(pools, i);
    PercentOfIsPercent(Total(PoolsOf(pools, d), Tvl), Total(pools, Tvl));
    PercentOfIsPercent(Total(PoolsOf(pools, d), Volume), Total(pools, Volume));
  }

  function Squared(x: real): real
  {
    x * x
  }

  /** The squared liquidity of each exchange, summed. */
  function SquaredTotals(keys: seq<string>, pools: seq<Pool>): real
  {
    if keys == [] then 0.0
    else SquaredTotals(keys[..|keys| - 1], pools) + Squared(Total(PoolsOf(pools, keys[|keys| - 1]), Tvl))
  }

  /** `index` is `squares` in relation to the square of `whole`. */
  predicate IsIndex(index: real, squares: real, whole: real)
  {
    index * Squared(whole) == squares
  }

  lemma SquaredFraction(part: real, whole: real)
    requires whole > 0.0
    ensures IsIndex(Squared(PercentOf(part, whole) / 100.0), Squared(part), whole)
  {
    var x := PercentOf(part, whole) / 100.0;
    assert x == part / whole && x * whole == part;
    assert x * x * (whole * whole) == x * whole * (x * whole);
  }

  lemma IndexAdds(h: real, squares: real, k: real, more: real, whole: real)
    requires IsIndex(h, squares, whole) && IsIndex(k, more, whole)
    ensures IsIndex(h + k, squares + more, whole)
  {
    assert (h + k) * Squared(whole) == h * Squared(whole) + k * Squared(whole);
  }

  lemma {:induction false} HerfindahlIsIndex(keys: seq<string>, pools: seq<Pool>, liquidity: real, volume: real)
    requires liquidity > 0.0
    ensures IsIndex(Herfindahl(Distribution(keys, pools, liquidity, volume)), SquaredTotals(keys, pools), liquidity)
  {
    if keys != [] {
      var front, d := keys[..|keys| - 1], keys[|keys| - 1];
      HerfindahlIsIndex(front, pools, liquidity, volume);
      var ds, part := Distribution(front, pools, liquidity, volume), Total(PoolsOf(pools, d), Tvl);
      var fraction := PercentOf(part, liquidity) / 100.0;
      HerfindahlSnoc(ds, ShareOf(d, PoolsOf(pools, d), liquidity, volume), fraction);
      SquaredFraction(part, liquidity);
      IndexAdds(Herfindahl(ds), SquaredTotals(front, pools), Squared(fraction), Squared(part), liquidity);
    }
  }

  lemma HerfindahlSnoc(ds: seq<DexShare>, d: DexShare, fraction: real)
    requires fraction == d.liquidityShare / 100.0
    ensures Herfindahl(ds + [d]) == Herfindahl(ds) + Squared(fraction)
  {
    assert (ds + [d])[..|ds|] == ds;
  }

  lemma {:induction false} HerfindahlOfNothing(keys: seq<string>, pools: seq<Pool>, volume: real)
    ensures Herfindahl(Distribution(keys, pools, 0.0, volume)) == 0.0
  {
    if keys != [] {
      var front, d := keys[..|keys| - 1], keys[|keys| - 1];
      HerfindahlOfNothing(front, pools, volume);
      HerfindahlSnoc(Distribution(front, pools, 0.0, volume), ShareOf(d, PoolsOf(pools, d), 0.0, volume), 0.0);
    }
  }

  /** The concentration, times the squared total, is the sum of the squared liquidities of the exchanges. */
  lemma ConcentrationIsIndex(pools: seq<Pool>)
    ensures var risk, total := Analyze(pools).concentrationRisk, Total(pools, Tvl);
            && (total > 0.0 ==> IsIndex(risk, SquaredTotals(DexIds(pools), pools), total))
            && (total == 0.0 ==> risk == if pools == [] then 1.0 else 0.0)
  {
    if Total(pools, Tvl) > 0.0 {
      HerfindahlIsIndex(DexIds(pools), pools, Total(pools, Tvl), Total(pools, Volume));
    } else {
      HerfindahlOfNothing(DexIds(pools), pools, Total(pools, Volume));
    }
  }

  /**
   * The other figures: the totals, a depth score that is full from a million
   * of liquidity on and proportional below, and a recommended trade of one
   * percent of the total.
   */
  lemma AnalysisFigures(pools: seq<Pool>)
    ensures var a, total := Analyze(pools), Total(pools, Tvl);
            && a.totalLiquidity == total && a.totalVolume == Total(pools, Volume)
            && (if total < 1000000.0 then a.depthScore * 10000.0 == total else a.depthScore == 100.0)
            && a.recommendedMaxTradeSize * 100.0 == total
            && (pools == [] ==> a.dominantDex == "none" && a.distribution == [])
  {
  }

  lemma Square(x: real)
    ensures x * x >= 0.0
  {
  }

  /** For any centre `c`, the squared distances to it are not negative in sum. */
  lemma {:induction false} SquaresAround(ds: seq<DexShare>, c: real)
    ensures Herfindahl(ds) - 2.0 * c * (SumShares(ds) / 100.0) + (|ds| as real) * (c * c) >= 0.0
  {
    if ds != [] {
      var front := ds[..|ds| - 1];
      SquaresAround(front, c);
      var x := ds[|ds| - 1].liquidityShare / 100.0;
      Square(x - c);
      assert (x - c) * (x - c) == x * x - 2.0 * c * x + c * c;
      var s := SumShares(front) / 100.0;
      assert SumShares(ds) / 100.0 == s + x;
      assert 2.0 * c * (s + x) == 2.0 * c * s + 2.0 * c * x;
      assert (|ds| as real) * (c * c) == (|front| as real) * (c * c) + c * c;
    }
  }

  /** The product of two percentages, as fractions. */
  function FractionProduct(p: real, q: real): real
  {
    p / 100.0 * (q / 100.0)
  }

  lemma {:induction false} SquaresBelow(ds: seq<DexShare>, m: real)
    requires forall i :: 0 <= i < |ds| ==> 0.0 <= ds[i].liquidityShare <= m
    ensures Herfindahl(ds) <= FractionProduct(m, SumShares(ds))
  {
    if ds != [] {
      var front := ds[..|ds| - 1];
      SquaresBelow(front, m);
      BelowStep(Herfindahl(front), SumShares(front) / 100.0, ds[|ds| - 1].liquidityShare / 100.0, m / 100.0);
      assert SumShares(ds) / 100.0 == SumShares(front) / 100.0 + ds[|ds| - 1].liquidityShare / 100.0;
    }
  }

  lemma BelowStep(h: real, s: real, x: real, y: real)
    requires h <= y * s && 0.0 <= x <= y
    ensures h + x * x <= y * (s + x)
  {
    assert x * x <= y * x;
    assert y * (s + x) == y * s + y * x;
  }

  lemma FullShare(h: real, m: real, s: real)
    requires s == 100.0 && h <= FractionProduct(m, s)
    ensures h <= m / 100.0
  {
  }

  lemma HerfindahlAtMostDominant(ds: seq<DexShare>)
    requires ds != [] && SumShares(ds) == 100.0
    requires forall i :: 0 <= i < |ds| ==> ds[i].liquidityShare >= 0.0
    ensures Herfindahl(ds) <= Dominant(ds).liquidityShare / 100.0
  {
    DominantIsMaximal(ds);
    SquaresBelow(ds, Dominant(ds).liquidityShare);
    FullShare(Herfindahl(ds), Dominant(ds).liquidityShare, SumShares(ds));
  }

  lemma DominantAtMostWhole(ds: seq<DexShare>)
    requires ds != [] && SumShares(ds) == 100.0
    requires forall i :: 0 <= i < |ds| ==> ds[i].liquidityShare >= 0.0
    ensures Dominant(ds).liquidityShare / 100.0 <= 1.0
  {
    DominantIsMaximal(ds);
    var i :| 0 <= i < |ds| && ds[i] == Dominant(ds);
    ShareBelowSum(ds, i);
  }

  lemma HerfindahlAtLeastEven(ds: seq<DexShare>)
    requires ds != [] && SumShares(ds) == 100.0
    ensures 1.0 / (|ds| as real) <= Herfindahl(ds)
  {
    SquaresAround(ds, 1.0 / (|ds| as real));
    CentreArithmetic(Herfindahl(ds), |ds| as real, SumShares(ds) / 100.0);
  }

  /**
   * The concentration index lies between 1/n and 1 for n exchanges, and never
   * exceeds the dominant exchange's share taken as a fraction.
   */
  lemma ConcentrationBounds(pools: seq<Pool>)
    requires Total(pools, Tvl) > 0.0
    ensures var a := Analyze(pools);
            && a.distribution != [] && a.dominantDex == Dominant(a.distribution).dexId
            && 1.0 / (|a.distribution| as real) <= a.concentrationRisk
            && a.concentrationRisk <= Dominant(a.distribution).liquidityShare / 100.0 <= 1.0
  {
    DexIdsNonEmpty(pools);
    SharesSumToHundred(pools);
    HerfindahlAtMostDominant(Analyze(pools).distribution);
    DominantAtMostWhole(Analyze(pools).distribution);
    HerfindahlAtLeastEven(Analyze(pools).distribution);
  }

  lemma CentreArithmetic(h: real, n: real, one: real)
    requires n > 0.0 && one == 1.0 && h - 2.0 * (1.0 / n) * one + n * ((1.0 / n) * (1.0 / n)) >= 0.0
    ensures h >= 1.0 / n
  {
    assert n * (1.0 / n) == 1.0;
    assert n * ((1.0 / n) * (1.0 / n)) == 1.0 / n;
  }

  lemma {:induction false} ShareBelowSum(ds: seq<DexShare>, i: nat)
    requires i < |ds| && forall k :: 0 <= k < |ds| ==> ds[k].liquidityShare >= 0.0
    ensures SumShares(ds) >= ds[i].liquidityShare && SumShares(ds) >= 0.0
  {
    var last := |ds| - 1;
    if last > 0 {
      ShareBelowSum(ds[..last], if i < last then i else 0);
    }
  }

  // ---------------------------------------------------------- price impact

  /** A JavaScript number: real, or NaN from dividing zero by zero. */
  datatype Number = NaN | Finite(value: real)

  datatype Warning = NoLiquidity | High | Moderate

  datatype SlippageEstimate = SlippageEstimate(
    tradeSize: Amount,
    estimatedSlippage: Number,
    priceImpact: Number,
    isExecutable: bool,
    warning: Option<Warning>)

  /** The impact in percent, step by step along the constant-product formula. */
  function PriceImpact(reserveIn: real, reserveOut: real, tradeSize: real): real
    requires reserveIn > 0.0 && reserveOut > 0.0 && tradeSize > 0.0
  {
    var k := reserveIn * reserveOut;
    var newReserveIn := reserveIn + tradeSize;
    var newReserveOut := k / newReserveIn;
    var amountOut := reserveOut - newReserveOut;
    var spotPrice := reserveOut / reserveIn;
    SpotPositive(reserveIn, reserveOut);
    var executionPrice := amountOut / tradeSize;
    (spotPrice - executionPrice) / spotPrice * 100.0
  }

  lemma SpotPositive(reserveIn: real, reserveOut: real)
    requires reserveIn > 0.0 && reserveOut > 0.0
    ensures reserveOut / reserveIn > 0.0
  {
  }

  function EstimateSlippage(tradeSize: Amount, pool: Pool): SlippageEstimate
  {
    if pool.reserveA == 0.0 || pool.reserveB == 0.0 then
      SlippageEstimate(tradeSize, Finite(100.0), Finite(100.0), false, Some(NoLiquidity))
    else if tradeSize == 0.0 then
      SlippageEstimate(tradeSize, NaN, NaN, false, Some(High))
    else
      var impact := PriceImpact(pool.reserveA, pool.reserveB, tradeSize);
      var slippage := impact + pool.fee * 100.0;
      SlippageEstimate(tradeSize, Finite(slippage), Finite(impact), slippage < 10.0,
                       if slippage >= 10.0 then Some(High) else if slippage > 2.0 then Some(Moderate) else None)
  }

  lemma Cancel(a: real, b: real, c: real)
    requires b != 0.0 && c == a * b
    ensures c / b == a
  {
  }

  /** The impact has a closed form: the trade's part of the enlarged reserve. */
  lemma PriceImpactClosedForm(rin: real, rout: real, x: real)
    requires rin > 0.0 && rout > 0.0 && x > 0.0
    ensures PriceImpact(rin, rout, x) == 100.0 * (x / (rin + x))
  {
    var n, spot := rin + x, rout / rin;
    var out := rout - rin * rout / n;
    Cancel(rin * (rout / n), n, rin * rout) by {
      assert rin * (rout / n) * n == rin * (rout / n * n) == rin * rout;
    }
    assert out == rout - rin * (rout / n);
    var price := rout / n;
    assert rout == price * n;
    assert out == price * n - rin * price == price * x;
    Cancel(price, x, out);
    assert out / x == price;
    ImpactRatio(rin, rout, x, spot, price);
  }

  lemma ImpactRatio(rin: real, rout: real, x: real, spot: real, price: real)
    requires rin > 0.0 && rout > 0.0 && x > 0.0 && spot == rout / rin && price == rout / (rin + x)
    ensures spot > 0.0 && (spot - price) / spot == x / (rin + x)
  {
    var n, t := rin + x, x / (rin + x);
    SpotPositive(rin, rout);
    assert t * n == x && price * n == rout && spot * rin == rout;
    assert (spot - price - t * spot) * n == spot * n - rout - spot * x == 0.0;
    assert spot - price == t * spot;
    Cancel(t, spot, spot - price);
  }

  lemma FractionGrows(r: real, x: real, y: real)
    requires r > 0.0 && 0.0 < x < y
    ensures 0.0 < x / (r + x) < y / (r + y) < 1.0
  {
    var s, t, a, b := x / (r + x), y / (r + y), r + x, r + y;
    assert s * a == x && t * b == y;
    PositiveFactor(s, a);
    assert (1.0 - t) * b == b - t * b == r;
    PositiveFactor(1.0 - t, b);
    assert (t - s) * (a * b) == t * b * a - s * a * b == y * a - x * b == r * (y - x);
    PositiveFactor(t - s, a * b);
  }

  /** The impact stays strictly between 0 and 100 and strictly grows with the trade. */
  lemma PriceImpactGrows(rin: real, rout: real, x: real, y: real)
    requires rin > 0.0 && rout > 0.0 && 0.0 < x < y
    ensures 0.0 < PriceImpact(rin, rout, x) < PriceImpact(rin, rout, y) < 100.0
  {
    PriceImpactClosedForm(rin, rout, x);
    PriceImpactClosedForm(rin, rout, y);
    FractionGrows(rin, x, y);
  }

  /** Slippage is the trade's part of the enlarged reserve plus the fee, both in percent. */
  lemma SlippageClosedForm(tradeSize: Amount, pool: Pool)
    requires tradeSize > 0.0 && pool.reserveA > 0.0 && pool.reserveB > 0.0
    ensures var e := EstimateSlippage(tradeSize, pool);
            var slippage := 100.0 * (tradeSize / (pool.reserveA + tradeSize)) + pool.fee * 100.0;
            && e.estimatedSlippage == Finite(slippage) && e.tradeSize == tradeSize
            && e.priceImpact == Finite(slippage - pool.fee * 100.0)
            && (e.isExecutable <==> slippage < 10.0)
            && (e.warning.None? <==> slippage <= 2.0)
            && (e.warning == Some(High) <==> slippage >= 10.0)
            && (e.warning == Some(Moderate) <==> 2.0 < slippage < 10.0)
  {
    PriceImpactClosedForm(pool.reserveA, pool.reserveB, tradeSize);
  }

  /** Without reserves the slippage is total; an empty trade into a pool has no figure and counts as unsafe. */
  lemma SlippageWithoutFigure(tradeSize: Amount, pool: Pool)
    ensures pool.reserveA == 0.0 || pool.reserveB == 0.0 ==>
              EstimateSlippage(tradeSize, pool) ==
              SlippageEstimate(tradeSize, Finite(100.0), Finite(100.0), false, Some(NoLiquidity))
    ensures pool.reserveA > 0.0 && pool.reserveB > 0.0 && tradeSize == 0.0 ==>
              EstimateSlippage(tradeSize, pool) == SlippageEstimate(tradeSize, NaN, NaN, false, Some(High))
  {
  }
}
