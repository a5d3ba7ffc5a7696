/**
 * Ranking the quotes of several exchanges by a composite score and choosing
 * one of them (src/Create Stellar DEX Aggregator Integration/price-comparator.ts,
 * route-optimizer.service.ts).
 */
module Quotes {

  import opened Options
  import opened RealFacts
  import opened Sorting
  import opened Liquidity

  datatype Quote = Quote(
    dexId: string,
    destinationAmount: Amount,
    price: Amount,
    fee: Amount,
    confidence: Amount,
    pathLength: nat)

  // ----------------------------------------------------------------- scores

  /** The extremes over all quotes that scores are relative to. */
  datatype Scale = Scale(maxAmount: Amount, minFee: Amount, maxConfidence: Amount)

  function RealMax(a: Amount, b: Amount): Amount
  {
    if a >= b then a else b
  }

  function RealMin(a: Amount, b: Amount): Amount
  {
    if a <= b then a else b
  }

  function ScaleOf(quotes: seq<Quote>): Scale
    requires quotes != []
  {
    var q := quotes[|quotes| - 1];
    if |quotes| == 1 then Scale(q.destinationAmount, q.fee, q.confidence)
    else
      var s := ScaleOf(quotes[..|quotes| - 1]);
      Scale(RealMax(s.maxAmount, q.destinationAmount), RealMin(s.minFee, q.fee), RealMax(s.maxConfidence, q.confidence))
  }

  ghost predicate InScale(q: Quote, s: Scale)
  {
    q.destinationAmount <= s.maxAmount && s.minFee <= q.fee && q.confidence <= s.maxConfidence
  }

  lemma {:induction false} ScaleCovers(quotes: seq<Quote>, i: nat)
    requires i < |quotes|
    ensures InScale(quotes[i], ScaleOf(quotes))
  {
    var last := |quotes| - 1;
    if i < last {
      ScaleCovers(quotes[..last], i);
    }
  }

  /** Some quote has the largest amount, some the smallest fee, some the highest confidence. */
  ghost predicate Attained(quotes: seq<Quote>, s: Scale)
  {
    && (exists i :: 0 <= i < |quotes| && quotes[i].destinationAmount == s.maxAmount)
    && (exists i :: 0 <= i < |quotes| && quotes[i].fee == s.minFee)
    && (exists i :: 0 <= i < |quotes| && quotes[i].confidence == s.maxConfidence)
  }

  lemma {:induction false} ScaleAttained(quotes: seq<Quote>)
    requires quotes != []
    ensures Attained(quotes, ScaleOf(quotes))
  {
    var last := |quotes| - 1;
    if last > 0 {
      var front, s := quotes[..last], ScaleOf(quotes[..last]);
      ScaleAttained(front);
      var i :| 0 <= i < |front| && front[i].destinationAmount == s.maxAmount;
      var j :| 0 <= j < |front| && front[j].fee == s.minFee;
      var k :| 0 <= k < |front| && front[k].confidence == s.maxConfidence;
      assert quotes[i] == front[i] && quotes[j] == front[j] && quotes[k] == front[k];
    }
  }

  /** `part / whole * weight`. */
  function Weighted(part: real, whole: real, weight: real): real
    requires whole > 0.0
  {
    part / whole * weight
  }

  function AmountScore(q: Quote, s: Scale): real
  {
    if s.maxAmount > 0.0 then Weighted(q.destinationAmount, s.maxAmount, 60.0) else 0.0
  }

  /** Zero fees give every quote full marks; otherwise the cheapest does best. */
  function FeeScore(q: Quote, s: Scale): real
    requires s.minFee <= q.fee
  {
    if s.minFee > 0.0 then Weighted(s.minFee, q.fee, 25.0) else 25.0
  }

  function ConfidenceScore(q: Quote, s: Scale): real
  {
    if s.maxConfidence > 0.0 then Weighted(q.confidence, s.maxConfidence, 15.0) else 15.0
  }

  function Score(q: Quote, s: Scale): real
    requires InScale(q, s)
  {
    AmountScore(q, s) + FeeScore(q, s) + ConfidenceScore(q, s)
  }

  lemma WeightedBounds(part: real, whole: real, weight: real)
    requires 0.0 <= part <= whole && whole > 0.0 && weight > 0.0
    ensures 0.0 <= Weighted(part, whole, weight) <= weight
  {
    var t := part / whole;
    assert t * whole == part && (1.0 - t) * whole == whole - part;
    NonNegativeFactor(t, whole);
    NonNegativeFactor(1.0 - t, whole);
    assert t * weight >= 0.0 && (1.0 - t) * weight >= 0.0;
    assert (1.0 - t) * weight == weight - t * weight;
  }

  lemma WeightedGrows(p: real, q: real, whole: real, weight: real)
    requires 0.0 <= p <= q && whole > 0.0 && weight > 0.0
    ensures Weighted(p, whole, weight) <= Weighted(q, whole, weight)
  {
    var t := (q - p) / whole;
    assert t * whole == q - p;
    NonNegativeFactor(t, whole);
    assert t == q / whole - p / whole;
    assert t * weight >= 0.0;
    assert t * weight == q / whole * weight - p / whole * weight;
  }

  lemma WeightedShrinks(part: real, p: real, q: real, weight: real)
    requires 0.0 < part && 0.0 < p <= q && weight > 0.0
    ensures Weighted(part, q, weight) <= Weighted(part, p, weight)
  {
    var s, t := part / p, part / q;
    assert s * p == part && t * q == part;
    assert (s - t) * p == t * q - t * p == t * (q - p);
    NonNegativeFactor(t, q);
    assert t * (q - p) >= 0.0;
    NonNegativeFactor(s - t, p);
    assert (s - t) * weight >= 0.0;
    assert (s - t) * weight == s * weight - t * weight;
  }

  /** Every score lies between 0 and 100. */
  lemma ScoreBounds(q: Quote, s: Scale)
    requires InScale(q, s)
    ensures 0.0 <= Score(q, s) <= 100.0
  {
    if s.maxAmount > 0.0 {
      WeightedBounds(q.destinationAmount, s.maxAmount, 60.0);
    }
    if s.minFee > 0.0 {
      WeightedBounds(s.minFee, q.fee, 25.0);
    }
    if s.maxConfidence > 0.0 {
      WeightedBounds(q.confidence, s.maxConfidence, 15.0);
    }
  }

  ghost predicate AtLeastAsGood(q: Quote, p: Quote)
  {
    q.destinationAmount >= p.destinationAmount && q.fee <= p.fee && q.confidence >= p.confidence
  }

  /** A quote at least as good in all three respects never scores below the one it dominates. */
  lemma DominanceRespected(q: Quote, p: Quote, s: Scale)
    requires InScale(q, s) && InScale(p, s) && AtLeastAsGood(q, p)
    ensures Score(q, s) >= Score(p, s)
  {
    if s.maxAmount > 0.0 {
      WeightedGrows(p.destinationAmount, q.destinationAmount, s.maxAmount, 60.0);
    }
    if s.minFee > 0.0 {
      WeightedShrinks(s.minFee, q.fee, p.fee, 25.0);
    }
    if s.maxConfidence > 0.0 {
      WeightedGrows(p.confidence, q.confidence, s.maxConfidence, 15.0);
    }
  }

  /**
   * The score is the sum of three marks: 60 for the largest amount and in
   * proportion below, 25 for the smallest fee and in inverse proportion above,
   * 15 for the highest confidence and in proportion below. A largest amount of
   * zero gives 0, a smallest fee of zero gives everyone 25, a highest
   * confidence of zero gives everyone 15.
   */
  lemma ScoreFormula(q: Quote, s: Scale) returns (amount: real, fee: real, confidence: real)
    requires InScale(q, s)
    ensures Score(q, s) == amount + fee + confidence
    ensures if s.maxAmount == 0.0 then amount == 0.0 else amount * s.maxAmount == 60.0 * q.destinationAmount
    ensures if s.minFee == 0.0 then fee == 25.0 else fee * q.fee == 25.0 * s.minFee
    ensures if s.maxConfidence == 0.0 then confidence == 15.0 else confidence * s.maxConfidence == 15.0 * q.confidence
  {
    amount, fee, confidence := AmountScore(q, s), FeeScore(q, s), ConfidenceScore(q, s);
    if s.maxAmount > 0.0 {
      WeightedTimes(q.destinationAmount, s.maxAmount, 60.0);
    }
    if s.minFee > 0.0 {
      WeightedTimes(s.minFee, q.fee, 25.0);
    }
    if s.maxConfidence > 0.0 {
      WeightedTimes(q.confidence, s.maxConfidence, 15.0);
    }
  }

  lemma WeightedTimes(part: real, whole: real, weight: real)
    requires whole > 0.0
    ensures Weighted(part, whole, weight) * whole == weight * part
  {
    assert part / whole * whole == part;
  }

  lemma WeightedSame(p: real, q: real, whole: real, weight: real)
    requires whole > 0.0 && weight > 0.0
    ensures Weighted(p, whole, weight) == Weighted(q, whole, weight) <==> p == q
  {
    WeightedTimes(p, whole, weight);
    WeightedTimes(q, whole, weight);
  }

  lemma WeightedSameBelow(part: real, p: real, q: real, weight: real)
    requires part > 0.0 && p > 0.0 && q > 0.0 && weight > 0.0
    ensures Weighted(part, p, weight) == Weighted(part, q, weight) <==> p == q
  {
    WeightedTimes(part, p, weight);
    WeightedTimes(part, q, weight);
    assert weight * part > 0.0;
    if Weighted(part, p, weight) == Weighted(part, q, weight) {
      var w := Weighted(part, p, weight);
      assert w * (p - q) == w * p - w * q == 0.0;
      assert w != 0.0;
    }
  }

  /**
   * A quote at least as good everywhere scores strictly higher exactly when it
   * brings more, is more certain, or is cheaper while no quote is free.
   */
  lemma StrictlyBetterIff(q: Quote, p: Quote, s: Scale)
    requires InScale(q, s) && InScale(p, s) && AtLeastAsGood(q, p)
    ensures Score(q, s) > Score(p, s) <==>
            || q.destinationAmount > p.destinationAmount || q.confidence > p.confidence
            || (q.fee < p.fee && s.minFee > 0.0)
  {
    if s.maxAmount > 0.0 {
      WeightedGrows(p.destinationAmount, q.destinationAmount, s.maxAmount, 60.0);
      WeightedSame(p.destinationAmount, q.destinationAmount, s.maxAmount, 60.0);
    }
    if s.minFee > 0.0 {
      WeightedShrinks(s.minFee, q.fee, p.fee, 25.0);
      WeightedSameBelow(s.minFee, q.fee, p.fee, 25.0);
    }
    if s.maxConfidence > 0.0 {
      WeightedGrows(p.confidence, q.confidence, s.maxConfidence, 15.0);
      WeightedSame(p.confidence, q.confidence, s.maxConfidence, 15.0);
    }
  }

  /** Next to a free quote, one that takes a fee of half the amount scores just as high. */
  lemma FreeQuoteLevelsFees()
    ensures var free, dear := Quote("a", 100.0, 1.0, 0.0, 1.0, 0), Quote("b", 100.0, 1.0, 0.5, 1.0, 0);
            var s := ScaleOf([free, dear]);
            InScale(free, s) && InScale(dear, s) && free.fee < dear.fee && Score(free, s) == Score(dear, s)
  {
    var free, dear := Quote("a", 100.0, 1.0, 0.0, 1.0, 0), Quote("b", 100.0, 1.0, 0.5, 1.0, 0);
    assert [free, dear][..1] == [free];
    assert ScaleOf([free]) == Scale(100.0, 0.0, 1.0);
    assert ScaleOf([free, dear]) == Scale(100.0, 0.0, 1.0);
  }

  // ---------------------------------------------------------------- ranking

  datatype Scored = Scored(quote: Quote, netPrice: real, score: real)

  datatype RankedQuote = RankedQuote(quote: Quote, rank: nat, netPrice: real, score: real, priceDifference: real)

  function NetPrice(q: Quote): real
  {
    q.price * (1.0 - q.fee)
  }

  /** How far `x` is from `best`, in percent of `best`. */
  function DifferencePercent(x: real, best: real): real
  {
    if best > 0.0 then (x - best) / best * 100.0 else 0.0
  }

  function ScoreQuote(q: Quote, s: Scale): Scored
    requires InScale(q, s)
  {
    Scored(q, NetPrice(q), Score(q, s))
  }

  function ScoreAll(quotes: seq<Quote>, s: Scale): (r: seq<Scored>)
    requires forall i :: 0 <= i < |quotes| ==> InScale(quotes[i], s)
    ensures |r| == |quotes| && forall i :: 0 <= i < |r| ==> r[i] == ScoreQuote(quotes[i], s)
  {
    seq(|quotes|, i requires 0 <= i < |quotes| => ScoreQuote(quotes[i], s))
  }

  function HigherScore(a: Scored, b: Scored): bool
  {
    a.score >= b.score
  }

  function Ranked(x: Scored, i: nat, best: real): RankedQuote
  {
    RankedQuote(x.quote, i + 1, x.netPrice, x.score, DifferencePercent(x.netPrice, best))
  }

  lemma ScaleCoversAll(quotes: seq<Quote>)
    requires quotes != []
    ensures forall i :: 0 <= i < |quotes| ==> InScale(quotes[i], ScaleOf(quotes))
  {
    forall i | 0 <= i < |quotes|
      ensures InScale(quotes[i], ScaleOf(quotes))
    {
      ScaleCovers(quotes, i);
    }
  }

  /** `rankQuotes`: without any quote the best price of nothing is an error. */
  function RankQuotes(quotes: seq<Quote>): Option<seq<RankedQuote>>
  {
    if quotes == [] then None
    else
      ScaleCoversAll(quotes);
      var sorted := Sort(ScoreAll(quotes, ScaleOf(quotes)), HigherScore);
      Some(seq(|sorted|, i requires 0 <= i < |sorted| => Ranked(sorted[i], i, sorted[0].netPrice)))
  }

  function QuotesOf(ranked: seq<RankedQuote>): (r: seq<Quote>)
    ensures |r| == |ranked|
  {
    seq(|ranked|, i requires 0 <= i < |ranked| => ranked[i].quote)
  }

  function Bare(xs: seq<Scored>): (r: seq<Quote>)
    ensures |r| == |xs|
  {
    if xs == [] then [] else [xs[0].quote] + Bare(xs[1..])
  }

  lemma {:induction false} BareInsert(x: Scored, xs: seq<Scored>)
    ensures multiset(Bare(Insert(x, xs, HigherScore))) == multiset(Bare(xs)) + multiset{x.quote}
  {
    if xs != [] {
      assert Bare(xs) == [xs[0].quote] + Bare(xs[1..]);
      if HigherScore(x, xs[0]) {
        assert ([x] + xs)[1..] == xs;
      } else {
        BareInsert(x, xs[1..]);
        var rest := Insert(x, xs[1..], HigherScore);
        assert ([xs[0]] + rest)[1..] == rest;
      }
    }
  }

  lemma {:induction false} BareSort(xs: seq<Scored>)
    ensures multiset(Bare(Sort(xs, HigherScore))) == multiset(Bare(xs))
  {
    if xs != [] {
      BareSort(xs[1..]);
      BareInsert(xs[0], Sort(xs[1..], HigherScore));
      assert Bare(xs) == [xs[0].quote] + Bare(xs[1..]);
    }
  }

  lemma {:induction false} BareAt(xs: seq<Scored>, i: nat)
    requires i < |xs|
    ensures Bare(xs)[i] == xs[i].quote
  {
    if i > 0 {
      BareAt(xs[1..], i - 1);
    }
  }

  ghost predicate ByDescendingScore(ranked: seq<RankedQuote>)
  {
    forall i, j :: 0 <= i < j < |ranked| ==> ranked[i].score >= ranked[j].score
  }

  /** Rank and score of an entry are what they should be. */
  ghost predicate FairlyScored(r: RankedQuote, i: nat, s: Scale)
  {
    r.rank == i + 1 && InScale(r.quote, s) && r.score == Score(r.quote, s) && 0.0 <= r.score <= 100.0
  }

  lemma SortedScoresAreFair(quotes: seq<Quote>, s: Scale, sorted: seq<Scored>, i: nat)
    requires forall k :: 0 <= k < |quotes| ==> InScale(quotes[k], s)
    requires sorted == Sort(ScoreAll(quotes, s), HigherScore) && i < |sorted|
    ensures FairlyScored(Ranked(sorted[i], i, sorted[0].netPrice), i, s)
    ensures sorted[i].netPrice == NetPrice(sorted[i].quote)
  {
    var scored := ScoreAll(quotes, s);
    SortMembers(scored, HigherScore);
    assert sorted[i] in scored;
    var k :| 0 <= k < |scored| && scored[k] == sorted[i];
    ScoreBounds(quotes[k], s);
  }

  lemma RankingIsPermutation(quotes: seq<Quote>)
    requires quotes != []
    ensures RankQuotes(quotes).Some? && multiset(QuotesOf(RankQuotes(quotes).value)) == multiset(quotes)
  {
    ScaleCoversAll(quotes);
    var scored := ScoreAll(quotes, ScaleOf(quotes));
    BareSort(scored);
    BareMatches(scored, quotes, Sort(scored, HigherScore), QuotesOf(RankQuotes(quotes).value));
  }

  /**
   * The ranking is a permutation of the quotes by descending score, numbered
   * from 1, with each score computed against the extremes of all quotes.
   */
  lemma RankingIsSortedPermutation(quotes: seq<Quote>)
    requires quotes != []
    ensures RankQuotes(quotes).Some?
    ensures var ranked := RankQuotes(quotes).value;
            && multiset(QuotesOf(ranked)) == multiset(quotes) && ByDescendingScore(ranked)
            && Attained(quotes, ScaleOf(quotes))
            && forall i :: 0 <= i < |ranked| ==> FairlyScored(ranked[i], i, ScaleOf(quotes))
  {
    RankingIsPermutation(quotes);
    ScaleCoversAll(quotes);
    ScaleAttained(quotes);
    var s := ScaleOf(quotes);
    var sorted := Sort(ScoreAll(quotes, s), HigherScore);
    var ranked := RankQuotes(quotes).value;
    assert TotalPreorder(HigherScore);
    SortSorts(ScoreAll(quotes, s), HigherScore);
    forall i, j | 0 <= i < j < |ranked|
      ensures ranked[i].score >= ranked[j].score
    {
      assert HigherScore(sorted[i], sorted[j]);
    }
    forall i | 0 <= i < |ranked|
      ensures FairlyScored(ranked[i], i, s)
    {
      SortedScoresAreFair(quotes, s, sorted, i);
    }
  }

  predicate IsNet(net: real, q: Quote)
  {
    net == q.price - q.price * q.fee
  }

  predicate IsDifference(percent: real, x: real, best: real)
  {
    if best > 0.0 then percent * best == 100.0 * (x - best) else percent == 0.0
  }

  lemma NetPriceIsNet(q: Quote)
    ensures IsNet(NetPrice(q), q)
  {
  }

  lemma DifferenceIsDifference(x: real, best: real)
    ensures IsDifference(DifferencePercent(x, best), x, best)
  {
    if best > 0.0 {
      assert (x - best) / best * best == x - best;
    }
  }

  lemma RankedNetPrice(quotes: seq<Quote>, i: nat)
    requires quotes != [] && i < |RankQuotes(quotes).value|
    ensures var r, best := RankQuotes(quotes).value[i], RankQuotes(quotes).value[0].netPrice;
            r.netPrice == NetPrice(r.quote) && r.priceDifference == DifferencePercent(r.netPrice, best)
  {
    ScaleCoversAll(quotes);
    SortedScoresAreFair(quotes, ScaleOf(quotes), Sort(ScoreAll(quotes, ScaleOf(quotes)), HigherScore), i);
  }

  /** The price after the fee, and its distance from the first entry's in percent of that. */
  lemma RankedPrices(quotes: seq<Quote>, i: nat)
    requires quotes != [] && i < |RankQuotes(quotes).value|
    ensures var r, best := RankQuotes(quotes).value[i], RankQuotes(quotes).value[0].netPrice;
            IsNet(r.netPrice, r.quote) && IsDifference(r.priceDifference, r.netPrice, best)
  {
    var r := RankQuotes(quotes).value[i];
    RankedNetPrice(quotes, i);
    NetPriceIsNet(r.quote);
    DifferenceIsDifference(r.netPrice, RankQuotes(quotes).value[0].netPrice);
  }

  lemma BareMatches(scored: seq<Scored>, quotes: seq<Quote>, sorted: seq<Scored>, listed: seq<Quote>)
    requires |scored| == |quotes| && |sorted| == |listed|
    requires forall i :: 0 <= i < |quotes| ==> scored[i].quote == quotes[i]
    requires forall i :: 0 <= i < |listed| ==> sorted[i].quote == listed[i]
    ensures Bare(scored) == quotes && Bare(sorted) == listed
  {
    forall i | 0 <= i < |quotes|
      ensures Bare(scored)[i] == quotes[i]
    {
      BareAt(scored, i);
    }
    forall i | 0 <= i < |listed|
      ensures Bare(sorted)[i] == listed[i]
    {
      BareAt(sorted, i);
    }
  }

  // --------------------------------------------------------------- strategy

  datatype Strategy = BestPrice | LowestFee | Fastest | Balanced

  /** Does `b` displace the running choice `a`? */
  predicate Displaces(strategy: Strategy, a: Quote, b: Quote)
  {
    match strategy
    case BestPrice => b.price > a.price
    case LowestFee => b.fee < a.fee
    case Fastest => b.pathLength < a.pathLength
    case Balanced => false
  }

  /** `ranked.reduce(...)`, or the first of the ranking for the balanced strategy. */
  function Select(ranked: seq<Quote>, strategy: Strategy): Quote
    requires ranked != []
  {
    if |ranked| == 1 then ranked[0]
    else
      var a, b := Select(ranked[..|ranked| - 1], strategy), ranked[|ranked| - 1];
      if Displaces(strategy, a, b) then b else a
  }

  /** The choice is unbeaten, and everything ranked before it is strictly worse. */
  lemma {:induction false} SelectIsFirstBest(ranked: seq<Quote>, strategy: Strategy) returns (k: nat)
    requires ranked != []
    ensures k < |ranked| && Select(ranked, strategy) == ranked[k]
    ensures forall i :: 0 <= i < |ranked| ==> !Displaces(strategy, ranked[k], ranked[i])
    ensures strategy != Balanced ==> forall i :: 0 <= i < k ==> Displaces(strategy, ranked[i], ranked[k])
    ensures strategy == Balanced ==> k == 0
    ensures forall i :: 0 <= i < |ranked| ==>
              && (strategy == BestPrice ==> ranked[i].price <= ranked[k].price)
              && (strategy == LowestFee ==> ranked[i].fee >= ranked[k].fee)
              && (strategy == Fastest ==> ranked[i].pathLength >= ranked[k].pathLength)
  {
    var last := |ranked| - 1;
    if last == 0 {
      k := 0;
    } else {
      k := SelectIsFirstBest(ranked[..last], strategy);
      if Displaces(strategy, ranked[k], ranked[last]) {
        k := last;
      }
    }
  }
}
