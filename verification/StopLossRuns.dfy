/**
 * What stop-loss and trailing stop guarantee over every run of ticks, whatever
 * database writes fail on the way
 * (src/Automated Stop-Loss and Take-Profit System).
 */
module StopLossRuns {

  import opened Options
  import opened Positions

  // ---------------------------------------------------------- missing prices

  predicate Usable(e: Event)
  {
    e.Tick? ==> e.price.Some? && e.price.value > 0
  }

  function UsableEvents(es: seq<Event>): seq<Event>
  {
    if es == [] then []
    else
      var front, e := UsableEvents(es[..|es| - 1]), es[|es| - 1];
      if Usable(e) then front + [e] else front
  }

  /** A tick without a positive price leaves no trace, so runs may be read without such ticks. */
  lemma {:induction false} UnusablePricesIgnored(s: State, es: seq<Event>)
    ensures Run(s, UsableEvents(es)) == Run(s, es)
  {
    if es != [] {
      var front, e := es[..|es| - 1], es[|es| - 1];
      UnusablePricesIgnored(s, front);
      if Usable(e) {
        var usable := UsableEvents(front);
        assert (usable + [e])[..|usable|] == usable;
      }
    }
  }

  // ------------------------------------------------ at most one exit order

  /** A freshly opened position without take-profit and without exit orders. */
  ghost predicate Fresh(s: State)
  {
    s.row.status == OPEN && !Truthy(s.row.takeProfitPrice) && s.exits == []
  }

  /** The invariant of the two-write protocol: first the order commits, then the position is saved. */
  ghost predicate OneExit(s: State, quantity: real)
  {
    && s.row.quantity == quantity && !Truthy(s.row.takeProfitPrice)
    && (s.exits == [] || (|s.exits| == 1 && s.exits[0].quantity == quantity && s.exits[0].filledPrice.Some?))
    && (s.row.status == OPEN ||
        (s.row.status == CLOSED && s.exits != [] && s.row.exitReason == Some(STOP_LOSS) &&
         s.row.exitPrice == s.exits[0].filledPrice))
  }

  /** The same in the middle of a tick, for the object in memory and for its row. */
  ghost predicate OneExitWorld(w: World, quantity: real)
  {
    OneExit(State(w.row, w.exits), quantity) && OneExit(State(w.saved, w.exits), quantity)
  }

  lemma TrailKeepsOneExit(w: World, price: int, save: Write, quantity: real)
    requires OneExitWorld(w, quantity)
    ensures OneExitWorld(TrailStep(w, price, save).world, quantity)
  {
  }

  lemma StopKeepsOneExit(w: World, price: int, f: Faults, quantity: real)
    requires OneExitWorld(w, quantity)
    ensures OneExitWorld(StopStep(w, price, f).world, quantity)
  {
  }

  lemma StepKeepsOneExit(s: State, e: Event, quantity: real)
    requires OneExit(s, quantity)
    ensures OneExit(Step(s, e), quantity)
  {
    if e.Tick? && e.price.Some? {
      var w := World(s.row, s.row, s.exits);
      var trail := TrailStep(w, e.price.value, e.faults.trailSave);
      TrailKeepsOneExit(w, e.price.value, e.faults.trailSave, quantity);
      StopKeepsOneExit(trail.world, e.price.value, e.faults, quantity);
    }
  }

  /**
   * However ticks, failures and new stop levels are interleaved, stop-loss
   * sells a position at most once, for its whole quantity, and a closed
   * position carries the fill price of that one order.
   */
  lemma {:induction false} StopLossSellsOnce(s: State, es: seq<Event>)
    requires Fresh(s)
    ensures OneExit(Run(s, es), s.row.quantity)
  {
    if es != [] {
      StopLossSellsOnce(s, es[..|es| - 1]);
      StepKeepsOneExit(Run(s, es[..|es| - 1]), es[|es| - 1], s.row.quantity);
    }
  }

  ghost predicate Extends(before: seq<Order>, after: seq<Order>)
  {
    |before| <= |after| && after[..|before|] == before
  }

  lemma StopExtendsExits(w: World, price: int, f: Faults)
    ensures Extends(w.exits, StopStep(w, price, f).world.exits)
  {
  }

  lemma ProfitExtendsExits(w: World, price: int, f: Faults)
    ensures Extends(w.exits, ProfitStep(w, price, f).world.exits)
  {
  }

  lemma StepExtendsExits(s: State, e: Event)
    ensures Extends(s.exits, Step(s, e).exits)
  {
    if e.Tick? && e.price.Some? {
      var w := World(s.row, s.row, s.exits);
      var trail := TrailStep(w, e.price.value, e.faults.trailSave).world;
      assert trail.exits == s.exits;
      StopExtendsExits(trail, e.price.value, e.faults);
      ProfitExtendsExits(StopStep(trail, e.price.value, e.faults).world, e.price.value, e.faults);
    }
  }

  /** An exit order is never withdrawn or altered by a later event. */
  lemma {:induction false} ExitsOnlyGrow(s: State, es: seq<Event>, n: nat)
    requires n <= |es|
    ensures Extends(Run(s, es[..n]).exits, Run(s, es).exits)
  {
    if n == |es| {
      assert es[..n] == es;
    } else {
      var front := es[..|es| - 1];
      assert front[..n] == es[..n];
      ExitsOnlyGrow(s, front, n);
      StepExtendsExits(Run(s, front), es[|es| - 1]);
    }
  }

  // --------------------------------------------------- the trailing ratchet

  function Max(a: int, b: int): int
  {
    if a >= b then a else b
  }

  /** The stop one price entitles the position to, given the stop so far. */
  function Raise(stop: int, entry: int, percent: int, price: int): int
  {
    if price > entry then Max(stop, TrailedStop(price, percent)) else stop
  }

  /** The stop all prices so far entitle the position to. */
  function Ratchet(stop: int, entry: int, percent: int, prices: seq<int>): int
  {
    if prices == [] then stop
    else Raise(Ratchet(stop, entry, percent, prices[..|prices| - 1]), entry, percent, prices[|prices| - 1])
  }

  /** The ratchet is the maximum of the initial stop and all trailed prices above entry. */
  lemma {:induction false} RatchetIsMaximum(stop: int, entry: int, percent: int, prices: seq<int>)
    ensures var r := Ratchet(stop, entry, percent, prices);
            && r >= stop
            && (forall i :: 0 <= i < |prices| && prices[i] > entry ==> r >= TrailedStop(prices[i], percent))
            && (r == stop || exists i :: 0 <= i < |prices| && prices[i] > entry && r == TrailedStop(prices[i], percent))
  {
    if prices != [] {
      RatchetIsMaximum(stop, entry, percent, prices[..|prices| - 1]);
    }
  }

  /** The trailed stop is the price times one minus the fraction, to the nearest unit, upwards on a tie. */
  lemma TrailedStopIsNearest(price: int, percent: int)
    ensures var exact, r := price * (10000 - percent), TrailedStop(price, percent);
            10000 * r - 5000 <= exact < 10000 * r + 5000
  {
  }

  lemma ProductMonotone(p: int, q: int, k: int)
    requires p <= q && k >= 0
    ensures p * k <= q * k
  {
    assert 0 <= (q - p) * k == q * k - p * k;
  }

  lemma TrailedStopMonotone(p: int, q: int, percent: int)
    requires p <= q && percent <= 10000
    ensures TrailedStop(p, percent) <= TrailedStop(q, percent)
  {
    ProductMonotone(p, q, 10000 - percent);
  }

  lemma TrailedStopExcessive(p: int, percent: int)
    requires p > 0 && percent > 10000
    ensures TrailedStop(p, percent) <= 0
  {
    ProductMonotone(0, p, percent - 10000);
    assert p * (10000 - percent) == -(p * (percent - 10000));
  }

  /** Prices that reached the trailing logic and whose result, if any, was persisted. */
  predicate Counts(e: Event)
  {
    e.Tick? && e.price.Some? && e.price.value > 0 && !e.faults.trailSave.Refused?
  }

  function Seen(es: seq<Event>): seq<int>
  {
    if es == [] then []
    else
      var front, last := Seen(es[..|es| - 1]), es[|es| - 1];
      if Counts(last) then front + [last.price.value] else front
  }

  ghost predicate OnlyTicks(es: seq<Event>)
  {
    forall i :: 0 <= i < |es| ==> es[i].Tick?
  }

  /** The position right after a trailing stop was set (or initialised). */
  ghost predicate TrailingSet(row: Row, stop: int, percent: int)
  {
    && row.status == OPEN && row.isTrailingStop && OrElse(row.trailingPercent, DEFAULT_TRAILING) == percent
    && row.stopLossPrice == Some(stop) && stop > 0
    && row.highestPrice == Some(row.entryPrice)
  }

  /**
   * The recorded high is the entry price or a price whose trailed stop is the
   * current stop; highs that did not raise the stop are not recorded.
   */
  ghost predicate Trailing(row: Row, entry: int, percent: int, stop: int)
  {
    && row.isTrailingStop && OrElse(row.trailingPercent, DEFAULT_TRAILING) == percent
    && row.entryPrice == entry && row.stopLossPrice == Some(stop) && stop > 0
    && row.highestPrice.Some?
    && (row.highestPrice.value == entry ||
        (row.highestPrice.value > entry && stop == TrailedStop(row.highestPrice.value, percent)))
  }

  lemma TrailStepRatchets(w: World, price: int, save: Write, entry: int, percent: int, stop: int)
    requires Trailing(w.row, entry, percent, stop) && w.saved == w.row && w.row.status == OPEN && price > 0
    ensures var step, raised := TrailStep(w, price, save), Raise(stop, entry, percent, price);
            && Trailing(step.world.saved, entry, percent, if save.Refused? then stop else raised)
            && Trailing(step.world.row, entry, percent, raised)
            && step.world.row.status == OPEN && step.world.exits == w.exits
            && (step.threw ==> save != Done)
            && (!step.threw ==> step.world.saved == step.world.row)
  {
    var high := w.row.highestPrice.value;
    if entry < price <= high {
      if percent <= 10000 {
        TrailedStopMonotone(price, high, percent);
      } else {
        TrailedStopExcessive(price, percent);
      }
    }
  }

  /** Neither selling nor taking profit touches the fields of the trailing stop. */
  lemma StopKeepsTrailing(w: World, price: int, f: Faults, entry: int, percent: int, stop: int)
    requires Trailing(w.row, entry, percent, stop) && Trailing(w.saved, entry, percent, stop)
    ensures Trailing(StopStep(w, price, f).world.saved, entry, percent, stop)
    ensures Trailing(StopStep(w, price, f).world.row, entry, percent, stop)
  {
  }

  lemma ProfitKeepsTrailing(w: World, price: int, f: Faults, entry: int, percent: int, stop: int)
    requires Trailing(w.row, entry, percent, stop) && Trailing(w.saved, entry, percent, stop)
    ensures Trailing(ProfitStep(w, price, f).world.saved, entry, percent, stop)
  {
  }

  lemma TickRatchets(s: State, e: Event, entry: int, percent: int, stop: int)
    requires Trailing(s.row, entry, percent, stop) && s.row.status == OPEN && e.Tick?
    ensures Trailing(Step(s, e).row, entry, percent,
                     if Counts(e) then Raise(stop, entry, percent, e.price.value) else stop)
  {
    if e.price.Some? && e.price.value > 0 {
      var price, f := e.price.value, e.faults;
      var w := World(s.row, s.row, s.exits);
      TrailStepRatchets(w, price, f.trailSave, entry, percent, stop);
      var trail := TrailStep(w, price, f.trailSave);
      if !trail.threw {
        var raised := Raise(stop, entry, percent, price);
        StopKeepsTrailing(trail.world, price, f, entry, percent, raised);
        ProfitKeepsTrailing(StopStep(trail.world, price, f).world, price, f, entry, percent, raised);
      }
    }
  }

  /** A request for a stop: when it is accepted, and every field of the row it leaves. */
  lemma StopAsRequested(row: Row, stop: int, trailing: Option<bool>, percent: Option<int>)
    ensures var r := SetStopRow(row, stop, trailing, percent);
            && (r.Some? <==> row.status == OPEN && stop < row.entryPrice)
            && (r.Some? ==>
                && r.value.stopLossPrice == Some(stop) && (r.value.isTrailingStop <==> trailing == Some(true))
                && r.value.trailingPercent == Some(if percent.Some? then percent.value else 500)
                && r.value.highestPrice == Some(row.entryPrice)
                && r.value.id == row.id && r.value.symbol == row.symbol && r.value.entryPrice == row.entryPrice
                && r.value.quantity == row.quantity && r.value.status == row.status
                && r.value.takeProfitPrice == row.takeProfitPrice
                && r.value.takeProfitLevels == row.takeProfitLevels
                && r.value.exitPrice == row.exitPrice && r.value.exitReason == row.exitReason)
  {
  }

  /** When the trailing update raises the stop, and to what; without a percentage it trails at 5 %. */
  lemma TrailsIff(w: World, price: int)
    ensures var row, step := w.row, TrailStep(w, price, Done);
            var percent := if row.trailingPercent.Some? then row.trailingPercent.value else 500;
            var high := if row.highestPrice.Some? then row.highestPrice.value else row.entryPrice;
            && (step.hit <==> row.isTrailingStop && row.status == OPEN && Truthy(row.stopLossPrice) && price > high &&
                              TrailedStop(price, percent) > row.stopLossPrice.value)
            && step.world.saved == (if step.hit then step.world.row else w.saved)
            && step.world.row == if step.hit then row.(highestPrice := Some(price),
                                                       stopLossPrice := Some(TrailedStop(price, percent))) else row
  {
  }

  ghost predicate FixedStop(row: Row, stop: int)
  {
    !row.isTrailingStop && row.stopLossPrice == Some(stop)
  }

  lemma TickKeepsFixedStop(s: State, e: Event, stop: int)
    requires FixedStop(s.row, stop) && e.Tick?
    ensures FixedStop(Step(s, e).row, stop)
  {
    if e.price.Some? && e.price.value > 0 && s.row.status == OPEN {
      var w := StopStep(World(s.row, s.row, s.exits), e.price.value, e.faults).world;
      assert FixedStop(w.row, stop) && FixedStop(w.saved, stop);
      ProfitKeepsStop(w, e.price.value, e.faults, stop);
    }
  }

  lemma ProfitKeepsStop(w: World, price: int, f: Faults, stop: int)
    requires FixedStop(w.row, stop) && FixedStop(w.saved, stop)
    ensures FixedStop(ProfitStep(w, price, f).world.saved, stop)
  {
  }

  lemma {:induction false} TicksKeepFixedStop(s: State, es: seq<Event>, stop: int)
    requires FixedStop(s.row, stop) && OnlyTicks(es)
    ensures FixedStop(Run(s, es).row, stop)
  {
    if es != [] {
      TicksKeepFixedStop(s, es[..|es| - 1], stop);
      TickKeepsFixedStop(Run(s, es[..|es| - 1]), es[|es| - 1], stop);
    }
  }

  /** A stop set without the trailing flag stays where it was set, whatever prices and failures follow. */
  lemma FixedStopStays(s: State, stop: int, trailing: Option<bool>, percent: Option<int>, save: Write, es: seq<Event>)
    requires s.row.status == OPEN && stop < s.row.entryPrice && trailing != Some(true) && !save.Refused?
    requires OnlyTicks(es)
    ensures Run(Step(s, SetStop(stop, trailing, percent, save)), es).row.stopLossPrice == Some(stop)
  {
    TicksKeepFixedStop(Step(s, SetStop(stop, trailing, percent, save)), es, stop);
  }

  /** Setting a trailing stop, or initialising one from the entry price, starts such a run. */
  lemma SettingStartsTrailing(row: Row, stop: int, percent: Option<int>)
    requires row.status == OPEN && 0 < stop
    ensures SetStopRow(row, stop, Some(true), percent).Some? <==> stop < row.entryPrice
    ensures stop < row.entryPrice ==>
              TrailingSet(SetStopRow(row, stop, Some(true), percent).value, stop,
                          if percent.Some? then percent.value else 500)
  {
  }

  /**
   * While the position is open, its stop is exactly the maximum over all
   * prices seen since it was set, although new highs are not always recorded.
   */
  lemma {:induction false} TrailingStopIsRatchet(s: State, es: seq<Event>, stop: int, percent: int)
    requires TrailingSet(s.row, stop, percent) && OnlyTicks(es)
    requires Run(s, es).row.status == OPEN
    ensures Run(s, es).row.stopLossPrice == Some(Ratchet(stop, s.row.entryPrice, percent, Seen(es)))
    ensures Trailing(Run(s, es).row, s.row.entryPrice, percent, Ratchet(stop, s.row.entryPrice, percent, Seen(es)))
  {
    if es != [] {
      var front, e := es[..|es| - 1], es[|es| - 1];
      TrailingStopIsRatchet(s, front, stop, percent);
      var entry := s.row.entryPrice;
      TickRatchets(Run(s, front), e, entry, percent, Ratchet(stop, entry, percent, Seen(front)));
    }
  }

  /** Hence it never moves down from one tick to a later one. */
  lemma TrailingStopNeverFalls(s: State, es: seq<Event>, n: nat, stop: int, percent: int)
    requires TrailingSet(s.row, stop, percent) && OnlyTicks(es) && n <= |es|
    requires Run(s, es).row.status == OPEN
    ensures Run(s, es[..n]).row.status == OPEN
    ensures Run(s, es[..n]).row.stopLossPrice.Some? && Run(s, es).row.stopLossPrice.Some?
    ensures Run(s, es[..n]).row.stopLossPrice.value <= Run(s, es).row.stopLossPrice.value
    decreases |es| - n
  {
    if n == |es| {
      assert es[..n] == es;
      TrailingStopIsRatchet(s, es, stop, percent);
    } else {
      var shorter, longer := es[..n], es[..n + 1];
      TrailingStopNeverFalls(s, es, n + 1, stop, percent);
      assert longer[..n] == shorter && longer[n] == es[n];
      TrailingStopIsRatchet(s, shorter, stop, percent);
      TrailingStopIsRatchet(s, longer, stop, percent);
    }
  }

  // ------------------------------------------------------ the closing tick

  /** The stop in force when the last of `prices` is checked. */
  function StopLevel(row: Row, prices: seq<int>): int
    requires row.stopLossPrice.Some?
  {
    if row.isTrailingStop
    then Ratchet(row.stopLossPrice.value, row.entryPrice, OrElse(row.trailingPercent, DEFAULT_TRAILING), prices)
    else row.stopLossPrice.value
  }

  ghost predicate Crosses(row: Row, prices: seq<int>, k: nat)
    requires row.stopLossPrice.Some?
  {
    k < |prices| && prices[k] <= StopLevel(row, prices[..k + 1])
  }

  ghost predicate FirstCrossing(row: Row, prices: seq<int>, k: nat)
    requires row.stopLossPrice.Some?
  {
    Crosses(row, prices, k) && forall j :: 0 <= j < k ==> !Crosses(row, prices, j)
  }

  lemma CrossesInPrefix(row: Row, prices: seq<int>, k: nat)
    requires row.stopLossPrice.Some? && k < |prices| - 1
    ensures Crosses(row, prices, k) <==> Crosses(row, prices[..|prices| - 1], k)
  {
    assert prices[..|prices| - 1][..k + 1] == prices[..k + 1];
  }

  /** The state a run without failures is in: waiting, or closed by the first crossing. */
  ghost predicate ClosedByCrossing(s: State, prices: seq<int>, r: State)
    requires s.row.stopLossPrice.Some?
  {
    if r.row.status == CLOSED then
      exists k: nat :: FirstCrossing(s.row, prices, k)
        && r.row.exitPrice == Some(prices[k]) && r.exits == [ExitOrder(s.row, s.row.quantity, prices[k])]
    else
      && r.row.status == OPEN && r.exits == []
      && forall k :: 0 <= k < |prices| ==> !Crosses(s.row, prices, k)
  }

  /** What a tick leaves alone in a position that stays open. */
  ghost predicate SameTerms(s: State, r: State)
  {
    && r.row.id == s.row.id && r.row.quantity == s.row.quantity && r.row.takeProfitPrice == s.row.takeProfitPrice
    && r.row.isTrailingStop == s.row.isTrailingStop && r.row.entryPrice == s.row.entryPrice
    && r.row.trailingPercent == s.row.trailingPercent && r.row.symbol == s.row.symbol
  }

  ghost predicate StopSet(row: Row)
  {
    row.stopLossPrice.Some? && row.stopLossPrice.value > 0 && row.highestPrice == Some(row.entryPrice)
  }

  ghost predicate Guarded(row: Row, start: Row, stop: int)
  {
    if start.isTrailingStop
    then Trailing(row, start.entryPrice, OrElse(start.trailingPercent, DEFAULT_TRAILING), stop)
    else !row.isTrailingStop && row.stopLossPrice == Some(stop) && stop > 0
  }

  /** The stop a price is checked against, when the stop so far is `stop`. */
  function LevelAt(start: Row, stop: int, price: int): int
  {
    if start.isTrailingStop
    then Raise(stop, start.entryPrice, OrElse(start.trailingPercent, DEFAULT_TRAILING), price) else stop
  }

  lemma StopLevelOneMore(row: Row, prices: seq<int>)
    requires row.stopLossPrice.Some? && prices != []
    ensures var last := |prices| - 1;
            StopLevel(row, prices) == LevelAt(row, StopLevel(row, prices[..last]), prices[last])
  {
  }

  lemma CrossingOneMore(s: State, prices: seq<int>, before: State, r: State)
    requires s.row.stopLossPrice.Some? && prices != []
    requires ClosedByCrossing(s, prices[..|prices| - 1], before) && (before.row.status != OPEN ==> r == before)
    requires var price := prices[|prices| - 1];
             before.row.status == OPEN ==>
               if price > StopLevel(s.row, prices) then r.row.status == OPEN && r.exits == []
               else r.row.status == CLOSED && r.row.exitPrice == Some(price)
                    && r.exits == [ExitOrder(s.row, s.row.quantity, price)]
    ensures ClosedByCrossing(s, prices, r)
  {
    var front, last := prices[..|prices| - 1], |prices| - 1;
    forall k | 0 <= k < last
      ensures Crosses(s.row, prices, k) <==> Crosses(s.row, front, k)
    {
      CrossesInPrefix(s.row, prices, k);
    }
    assert prices[..last + 1] == prices;
    if before.row.status == OPEN {
      assert Crosses(s.row, prices, last) ==> FirstCrossing(s.row, prices, last);
    } else {
      var k: nat :| FirstCrossing(s.row, front, k)
        && before.row.exitPrice == Some(front[k]) && before.exits == [ExitOrder(s.row, s.row.quantity, front[k])];
      assert FirstCrossing(s.row, prices, k);
    }
  }

  /** With every write succeeding, the position closes on exactly the first tick at or below its stop. */
  lemma {:induction false} ClosesOnFirstCrossing(s: State, prices: seq<int>)
    requires Fresh(s) && StopSet(s.row)
    requires forall i :: 0 <= i < |prices| ==> prices[i] > 0
    ensures ClosedByCrossing(s, prices, Run(s, Ticks(prices)))
    ensures SameTerms(s, Run(s, Ticks(prices)))
    ensures Run(s, Ticks(prices)).row.status == OPEN ==>
              Guarded(Run(s, Ticks(prices)).row, s.row, StopLevel(s.row, prices))
  {
    if prices != [] {
      var front, last := prices[..|prices| - 1], prices[|prices| - 1];
      ClosesOnFirstCrossing(s, front);
      assert Ticks(prices)[..|prices| - 1] == Ticks(front);
      var before := Run(s, Ticks(front));
      StopLevelOneMore(s.row, prices);
      if before.row.status == OPEN {
        TickWithoutFaults(s, before, StopLevel(s.row, front), last);
      }
      CrossingOneMore(s, prices, before, Run(s, Ticks(prices)));
    }
  }

  lemma TickWithoutFaults(s: State, before: State, stop: int, price: int)
    requires Fresh(s) && price > 0 && SameTerms(s, before) && Guarded(before.row, s.row, stop)
    requires before.row.status == OPEN && before.exits == []
    ensures var r := TickState(before, Some(price), NO_FAULTS);
            var level := LevelAt(s.row, stop, price);
            && SameTerms(s, r)
            && (price > level ==> r.row.status == OPEN && r.exits == [] && Guarded(r.row, s.row, level))
            && (price <= level ==> r.row.status == CLOSED && r.row.exitPrice == Some(price)
                                   && r.exits == [ExitOrder(s.row, s.row.quantity, price)])
  {
    if s.row.isTrailingStop {
      TrailStepRatchets(World(before.row, before.row, []), price, Done, s.row.entryPrice,
                        OrElse(s.row.trailingPercent, DEFAULT_TRAILING), stop);
    }
  }
}
