/**
 * Dashboard intervals and event totals (src/analytics/analytics.service.ts).
 * Times are milliseconds. The calendar step `addPeriod` is an arbitrary
 * function of the time.
 */
module Analytics {

  import opened Options

  datatype Interval = Interval(start: int, end: int)

  datatype Event = Event(at: int, userId: Option<string>, kind: string, revenue: real)

  // -------------------------------------------------------------- intervals

  /** Consecutive intervals from `start` on, each as long as the calendar step says. */
  ghost predicate Tiles(ivs: seq<Interval>, start: int, step: int -> int)
  {
    && (ivs != [] ==> ivs[0].start == start)
    && (forall i :: 0 <= i < |ivs| ==> ivs[i].start < ivs[i].end && ivs[i].end == step(ivs[i].start))
    && (forall i, j :: 0 <= i && j == i + 1 && j < |ivs| ==> ivs[j].start == ivs[i].end)
  }

  function EndOf(ivs: seq<Interval>, start: int): int
  {
    if ivs == [] then start else ivs[|ivs| - 1].end
  }

  /**
   * `buildIntervals`: the intervals tile the time from `start` without gap or
   * overlap. They stop at the first boundary at or past `end`, or where the
   * calendar step does not move forward.
   */
  method BuildIntervals(start: int, end: int, step: int -> int) returns (ivs: seq<Interval>)
    ensures Tiles(ivs, start, step)
    ensures forall i :: 0 <= i < |ivs| ==> ivs[i].start < end
    ensures EndOf(ivs, start) >= end || step(EndOf(ivs, start)) <= EndOf(ivs, start)
    ensures (forall t :: step(t) > t) ==> EndOf(ivs, start) >= end
    ensures start >= end ==> ivs == []
  {
    ivs := [];
    var cursor := start;
    while cursor < end
      invariant Tiles(ivs, start, step) && cursor == EndOf(ivs, start)
      invariant forall i :: 0 <= i < |ivs| ==> ivs[i].start < end
      invariant start >= end ==> ivs == []
      decreases end - cursor
    {
      var next := step(cursor);
      if next <= cursor {
        break;
      }
      ivs := ivs + [Interval(cursor, next)];
      cursor := next;
    }
  }

  lemma TilesFront(ivs: seq<Interval>, start: int, step: int -> int)
    requires Tiles(ivs, start, step) && ivs != []
    ensures Tiles(ivs[..|ivs| - 1], start, step)
    ensures ivs[|ivs| - 1].start == EndOf(ivs[..|ivs| - 1], start)
  {
  }

  lemma {:induction false} TilesReach(ivs: seq<Interval>, start: int, step: int -> int)
    requires Tiles(ivs, start, step)
    ensures start <= EndOf(ivs, start)
  {
    if ivs != [] {
      TilesFront(ivs, start, step);
      TilesReach(ivs[..|ivs| - 1], start, step);
    }
  }

  // ----------------------------------------------------------------- totals

  predicate In(e: Event, from: int, to: int)
  {
    from <= e.at < to
  }

  /** `SUM(weight)` over the events with `from <= at < to`. */
  function Total(es: seq<Event>, weight: Event -> real, from: int, to: int): real
  {
    if es == [] then 0.0
    else Total(es[..|es| - 1], weight, from, to) + if In(es[|es| - 1], from, to) then weight(es[|es| - 1]) else 0.0
  }

  /** Totals are sums: one event counts from the start of the range up to, but not including, its end. */
  lemma TotalOfOne(e: Event, weight: Event -> real, from: int, to: int)
    ensures Total([e], weight, from, to) == if from <= e.at < to then weight(e) else 0.0
  {
    assert [e][..0] == [] && Total([e][..0], weight, from, to) == 0.0;
  }

  lemma {:induction false} TotalConcat(a: seq<Event>, b: seq<Event>, weight: Event -> real, from: int, to: int)
    ensures Total(a + b, weight, from, to) == Total(a, weight, from, to) + Total(b, weight, from, to)
  {
    if b == [] {
      assert a + b == a;
    } else {
      TotalConcat(a, b[..|b| - 1], weight, from, to);
      assert (a + b)[..|a + b| - 1] == a + b[..|b| - 1];
    }
  }

  /** The sum of the snapshots' totals. */
  function SumOfTotals(es: seq<Event>, weight: Event -> real, ivs: seq<Interval>): real
  {
    if ivs == [] then 0.0
    else
      var last := ivs[|ivs| - 1];
      SumOfTotals(es, weight, ivs[..|ivs| - 1]) + Total(es, weight, last.start, last.end)
  }

  lemma {:induction false} TotalSplits(es: seq<Event>, weight: Event -> real, a: int, b: int, c: int)
    requires a <= b <= c
    ensures Total(es, weight, a, c) == Total(es, weight, a, b) + Total(es, weight, b, c)
  {
    if es != [] {
      TotalSplits(es[..|es| - 1], weight, a, b, c);
    }
  }

  lemma {:induction false} TotalEmptyRange(es: seq<Event>, weight: Event -> real, a: int)
    ensures Total(es, weight, a, a) == 0.0
  {
    if es != [] {
      TotalEmptyRange(es[..|es| - 1], weight, a);
    }
  }

  /** Whatever is summed, the snapshots of a tiling add up to the tiled range. */
  lemma {:induction false} SnapshotsAddUp(es: seq<Event>, weight: Event -> real, ivs: seq<Interval>, start: int,
                                          step: int -> int)
    requires Tiles(ivs, start, step)
    ensures SumOfTotals(es, weight, ivs) == Total(es, weight, start, EndOf(ivs, start))
  {
    if ivs == [] {
      TotalEmptyRange(es, weight, start);
    } else {
      var front, last := ivs[..|ivs| - 1], ivs[|ivs| - 1];
      TilesFront(ivs, start, step);
      TilesReach(front, start, step);
      SnapshotsAddUp(es, weight, front, start, step);
      TotalSplits(es, weight, start, last.start, last.end);
    }
  }

  /** The summary of the requested range differs from the snapshots by what lies past its end. */
  lemma SummaryIffNothingBeyond(es: seq<Event>, weight: Event -> real, ivs: seq<Interval>, start: int, end: int,
                                step: int -> int)
    requires Tiles(ivs, start, step) && start <= end <= EndOf(ivs, start)
    ensures SumOfTotals(es, weight, ivs) ==
            Total(es, weight, start, end) + Total(es, weight, end, EndOf(ivs, start))
    ensures SumOfTotals(es, weight, ivs) == Total(es, weight, start, end) <==>
            Total(es, weight, end, EndOf(ivs, start)) == 0.0
    ensures end == EndOf(ivs, start) ==> SumOfTotals(es, weight, ivs) == Total(es, weight, start, end)
  {
    SnapshotsAddUp(es, weight, ivs, start, step);
    TotalSplits(es, weight, start, end, EndOf(ivs, start));
    TotalEmptyRange(es, weight, end);
  }

  /** `COUNT(*)`, and counts by event type. */
  function One(e: Event): real
  {
    1.0
  }

  function OfKind(kind: string): Event -> real
  {
    (e: Event) => if e.kind == kind then 1.0 else 0.0
  }

  function Revenue(e: Event): real
  {
    e.revenue
  }

  /** What a single event adds to the four figures of the dashboard. */
  lemma FiguresOfOne(e: Event, kind: string, from: int, to: int)
    requires from <= e.at < to
    ensures Total([e], One, from, to) == 1.0
    ensures Total([e], OfKind(kind), from, to) == if e.kind == kind then 1.0 else 0.0
    ensures Total([e], Revenue, from, to) == e.revenue
  {
    TotalOfOne(e, One, from, to);
    TotalOfOne(e, OfKind(kind), from, to);
    TotalOfOne(e, Revenue, from, to);
  }

  lemma {:induction false} CountZeroIff(es: seq<Event>, from: int, to: int)
    ensures Total(es, One, from, to) >= 0.0
    ensures Total(es, One, from, to) == 0.0 <==> forall i :: 0 <= i < |es| ==> !In(es[i], from, to)
  {
    if es != [] {
      CountZeroIff(es[..|es| - 1], from, to);
    }
  }

  /** The event counts agree exactly when no event falls between the range's end and the last boundary. */
  lemma EventCountsAgreeIff(es: seq<Event>, ivs: seq<Interval>, start: int, end: int, step: int -> int)
    requires Tiles(ivs, start, step) && start <= end <= EndOf(ivs, start)
    ensures SumOfTotals(es, One, ivs) == Total(es, One, start, end) <==>
            forall i :: 0 <= i < |es| ==> !In(es[i], end, EndOf(ivs, start))
  {
    SummaryIffNothingBeyond(es, One, ivs, start, end, step);
    CountZeroIff(es, end, EndOf(ivs, start));
  }

  /** One event past the requested end, but inside the last interval, is in the snapshots and not in the summary. */
  lemma SnapshotsExceedSummary()
    ensures var es, ivs := [Event(7, None, "signal_view", 0.0)], [Interval(0, 10)];
            && Tiles(ivs, 0, (t: int) => t + 10) && ivs[0].start < 5 <= EndOf(ivs, 0)
            && SumOfTotals(es, One, ivs) == 1.0 && Total(es, One, 0, 5) == 0.0
  {
    var es, ivs := [Event(7, None, "signal_view", 0.0)], [Interval(0, 10)];
    assert es[..0] == [] && ivs[..0] == [];
    assert Total(es[..0], One, 0, 10) == 0.0 && Total(es[..0], One, 0, 5) == 0.0;
    assert Total(es, One, 0, 10) == 1.0;
    assert SumOfTotals(es, One, ivs[..0]) == 0.0;
  }

  /** On a boundary, counts, counts by type and revenue of the snapshots all add up to the summary. */
  lemma DashboardTotalsAgree(es: seq<Event>, ivs: seq<Interval>, start: int, step: int -> int, kind: string)
    requires Tiles(ivs, start, step)
    ensures var end := EndOf(ivs, start);
            && SumOfTotals(es, One, ivs) == Total(es, One, start, end)
            && SumOfTotals(es, OfKind(kind), ivs) == Total(es, OfKind(kind), start, end)
            && SumOfTotals(es, Revenue, ivs) == Total(es, Revenue, start, end)
  {
    SnapshotsAddUp(es, One, ivs, start, step);
    SnapshotsAddUp(es, OfKind(kind), ivs, start, step);
    SnapshotsAddUp(es, Revenue, ivs, start, step);
  }

  // ----------------------------------------------------------- active users

  /** The users behind `COUNT(DISTINCT user_id)`; anonymous events do not count. */
  function ActiveUsers(es: seq<Event>, from: int, to: int): set<string>
  {
    if es == [] then {}
    else
      var e := es[|es| - 1];
      ActiveUsers(es[..|es| - 1], from, to) + if In(e, from, to) && e.userId.Some? then {e.userId.value} else {}
  }

  /** A user is active iff some event of the range carries that user. */
  lemma {:induction false} ActiveIff(es: seq<Event>, from: int, to: int, u: string)
    ensures u in ActiveUsers(es, from, to) <==>
            exists i :: 0 <= i < |es| && from <= es[i].at < to && es[i].userId == Some(u)
  {
    if es != [] {
      var front := es[..|es| - 1];
      ActiveIff(front, from, to, u);
      assert forall i :: 0 <= i < |front| ==> front[i] == es[i];
    }
  }

  function SumOfActive(es: seq<Event>, ivs: seq<Interval>): nat
  {
    if ivs == [] then 0
    else
      var last := ivs[|ivs| - 1];
      SumOfActive(es, ivs[..|ivs| - 1]) + |ActiveUsers(es, last.start, last.end)|
  }

  lemma {:induction false} ActiveSplits(es: seq<Event>, a: int, b: int, c: int)
    requires a <= b <= c
    ensures ActiveUsers(es, a, c) == ActiveUsers(es, a, b) + ActiveUsers(es, b, c)
  {
    if es != [] {
      ActiveSplits(es[..|es| - 1], a, b, c);
    }
  }

  lemma {:induction false} SubsetSize<T>(a: set<T>, b: set<T>)
    requires a <= b
    ensures |a| <= |b|
  {
    if a != {} {
      var x :| x in a;
      SubsetSize(a - {x}, b - {x});
    }
  }

  lemma UnionSize<T>(a: set<T>, b: set<T>)
    ensures |a| <= |a + b| <= |a| + |b| && |b| <= |a + b|
  {
    SubsetSize(a, a + b);
    SubsetSize(b, a + b);
  }

  lemma {:induction false} ActiveNobody(es: seq<Event>, a: int)
    ensures ActiveUsers(es, a, a) == {}
  {
    if es != [] {
      ActiveNobody(es[..|es| - 1], a);
    }
  }

  lemma {:induction false} TiledActiveAtMostSum(es: seq<Event>, ivs: seq<Interval>, start: int, step: int -> int)
    requires Tiles(ivs, start, step)
    ensures |ActiveUsers(es, start, EndOf(ivs, start))| <= SumOfActive(es, ivs)
  {
    if ivs == [] {
      ActiveNobody(es, start);
    } else {
      var front, last := ivs[..|ivs| - 1], ivs[|ivs| - 1];
      TilesFront(ivs, start, step);
      TilesReach(front, start, step);
      TiledActiveAtMostSum(es, front, start, step);
      ActiveSplits(es, start, last.start, last.end);
      UnionSize(ActiveUsers(es, start, last.start), ActiveUsers(es, last.start, last.end));
    }
  }

  lemma ActiveInWiderRange(es: seq<Event>, a: int, b: int, c: int, d: int)
    requires a <= b <= c <= d
    ensures |ActiveUsers(es, b, c)| <= |ActiveUsers(es, a, d)|
  {
    ActiveSplits(es, a, b, d);
    ActiveSplits(es, b, c, d);
    SubsetSize(ActiveUsers(es, b, c), ActiveUsers(es, a, d));
  }

  lemma {:induction false} TileStartsAfter(ivs: seq<Interval>, start: int, step: int -> int, i: nat)
    requires Tiles(ivs, start, step) && i < |ivs|
    ensures start <= ivs[i].start
  {
    if i > 0 {
      TileStartsAfter(ivs, start, step, i - 1);
      assert ivs[i - 1].start < ivs[i - 1].end == ivs[i].start;
    }
  }

  /**
   * The active users of the requested range are no more than those of all
   * intervals together, and no fewer than those of any interval inside it.
   */
  lemma ActiveUsersBetween(es: seq<Event>, ivs: seq<Interval>, start: int, end: int, step: int -> int)
    requires Tiles(ivs, start, step) && start <= end <= EndOf(ivs, start)
    ensures |ActiveUsers(es, start, end)| <= SumOfActive(es, ivs)
    ensures forall i :: 0 <= i < |ivs| && ivs[i].end <= end ==>
              |ActiveUsers(es, ivs[i].start, ivs[i].end)| <= |ActiveUsers(es, start, end)|
  {
    TiledActiveAtMostSum(es, ivs, start, step);
    ActiveInWiderRange(es, start, start, end, EndOf(ivs, start));
    forall i | 0 <= i < |ivs| && ivs[i].end <= end
      ensures |ActiveUsers(es, ivs[i].start, ivs[i].end)| <= |ActiveUsers(es, start, end)|
    {
      TileStartsAfter(ivs, start, step, i);
      ActiveInWiderRange(es, start, ivs[i].start, ivs[i].end, end);
    }
  }
}
