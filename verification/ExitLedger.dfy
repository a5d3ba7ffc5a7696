/**
 * Stop-loss and take-profit on the same position, over every run and failure
 * (src/Automated Stop-Loss and Take-Profit System): which ticks sell, which
 * close, and how much has been sold in the end.
 */
module ExitLedger {

  import opened Options
  import opened Positions
  import opened TakeProfitRuns

  // ------------------------------------------------- what one tick comes to

  predicate Live(s: State, e: Event)
  {
    e.Tick? && e.price.Some? && e.price.value > 0 && s.row.status == OPEN
  }

  function Trailed(s: State, e: Event): StepResult
    requires Live(s, e)
  {
    TrailStep(World(s.row, s.row, s.exits), e.price.value, e.faults.trailSave)
  }

  /** The trailing update does not fail, so the checks are reached. */
  predicate Reaches(s: State, e: Event)
  {
    Live(s, e) && !Trailed(s, e).threw
  }

  /** The position as the checks find it. */
  function Object(s: State, e: Event): Row
    requires Reaches(s, e)
  {
    Trailed(s, e).world.row
  }

  predicate Fires(s: State, e: Event)
  {
    && Reaches(s, e)
    && Truthy(Object(s, e).stopLossPrice) && e.price.value <= Object(s, e).stopLossPrice.value
  }

  /** The stop-loss finds or places an exit order and goes on to close the position. */
  predicate Stops(s: State, e: Event)
  {
    Fires(s, e) && e.faults.stopLookup && (s.exits != [] || e.faults.stopOrder.Done?)
  }

  /** The stop-loss places an order of its own, whether or not it learns of it. */
  predicate StopSells(s: State, e: Event)
  {
    Fires(s, e) && e.faults.stopLookup && s.exits == [] && !e.faults.stopOrder.Refused?
  }

  /** What the take-profit check wants to sell, if it is reached. */
  function Wanted(s: State, e: Event): Option<Sale>
  {
    if Reaches(s, e) && !Stops(s, e) then ProfitSale(Object(s, e), e.price.value) else None
  }

  predicate ProfitSells(s: State, e: Event)
  {
    Wanted(s, e).Some? && !e.faults.profitOrder.Refused?
  }

  predicate ProfitSaves(s: State, e: Event)
  {
    Wanted(s, e).Some? && e.faults.profitOrder.Done? && !e.faults.profitSave.Refused?
  }

  function OrdersOf(s: State, e: Event): seq<Order>
  {
    (if StopSells(s, e) then [ExitOrder(s.row, s.row.quantity, e.price.value)] else []) +
    (if ProfitSells(s, e) then [ExitOrder(s.row, Wanted(s, e).value.quantity, e.price.value)] else [])
  }

  function StopFill(s: State, price: int): int
  {
    if s.exits == [] then price else OrElse(s.exits[0].filledPrice, price)
  }

  function RowAfter(s: State, e: Event): Row
    requires Live(s, e)
  {
    if !Reaches(s, e) then Trailed(s, e).world.saved
    else if Stops(s, e) then
      if e.faults.stopSave.Refused? then Object(s, e)
      else Closed(Object(s, e), StopFill(s, e.price.value), STOP_LOSS)
    else if ProfitSaves(s, e) then Wanted(s, e).value.after
    else Object(s, e)
  }

  lemma TrailKeeps(s: State, e: Event)
    requires Live(s, e)
    ensures var w := Trailed(s, e).world;
            && w.exits == s.exits && (!Trailed(s, e).threw ==> w.saved == w.row)
            && SameStake(s.row, w.row) && SameStake(s.row, w.saved)
  {
  }

  /** A trailing update or a new stop level touches none of these. */
  ghost predicate SameStake(a: Row, b: Row)
  {
    && b.id == a.id && b.quantity == a.quantity && b.status == a.status
    && b.takeProfitLevels == a.takeProfitLevels && b.exitPrice == a.exitPrice && b.exitReason == a.exitReason
  }

  lemma TickIsChecks(s: State, e: Event)
    requires Live(s, e)
    ensures var trail := Trailed(s, e);
            var stop := StopStep(trail.world, e.price.value, e.faults);
            var w := if trail.threw then trail.world else if stop.hit then stop.world
                     else ProfitStep(stop.world, e.price.value, e.faults).world;
            Step(s, e) == State(w.saved, w.exits)
  {
  }

  lemma StopPart(s: State, e: Event)
    requires Reaches(s, e)
    ensures var stop := StopStep(Trailed(s, e).world, e.price.value, e.faults);
            && stop.hit == (Stops(s, e) && e.faults.stopSave.Done?)
            && stop.world.exits == s.exits +
                 (if StopSells(s, e) then [ExitOrder(s.row, s.row.quantity, e.price.value)] else [])
            && stop.world.row == (if Stops(s, e) then Closed(Object(s, e), StopFill(s, e.price.value), STOP_LOSS)
                                  else Object(s, e))
            && stop.world.saved == (if Stops(s, e) && !e.faults.stopSave.Refused? then stop.world.row
                                    else Object(s, e))
  {
    TrailKeeps(s, e);
  }

  lemma ProfitPart(w: World, price: int, f: Faults)
    requires w.saved == w.row
    ensures var sale, after := ProfitSale(w.row, price), ProfitStep(w, price, f).world;
            && after.exits == w.exits + (if sale.Some? && !f.profitOrder.Refused?
                                         then [ExitOrder(w.row, sale.value.quantity, price)] else [])
            && after.saved == (if sale.Some? && f.profitOrder.Done? && !f.profitSave.Refused?
                               then sale.value.after else w.row)
  {
    ProfitStepIsSale(w, price, f);
  }

  /** A tick appends the orders it places and leaves the row its last effective save wrote. */
  lemma TickComesTo(s: State, e: Event)
    requires Live(s, e)
    ensures Step(s, e) == State(RowAfter(s, e), s.exits + OrdersOf(s, e))
  {
    TickIsChecks(s, e);
    TrailKeeps(s, e);
    if Reaches(s, e) {
      StopPart(s, e);
      var stop := StopStep(Trailed(s, e).world, e.price.value, e.faults);
      if Stops(s, e) {
        assert ProfitStep(stop.world, e.price.value, e.faults).world == stop.world;
      } else {
        ProfitPart(stop.world, e.price.value, e.faults);
      }
    }
  }

  /** Every other event leaves orders and stake alone. */
  lemma QuietStep(s: State, e: Event)
    requires !Live(s, e)
    ensures Step(s, e).exits == s.exits && SameStake(s.row, Step(s, e).row)
  {
  }

  // ------------------------------------------- the exit price of a stop-loss

  predicate Filled(exits: seq<Order>)
  {
    forall i :: 0 <= i < |exits| ==> exits[i].filledPrice.Some?
  }

  predicate Stopped(row: Row)
  {
    row.status == CLOSED && row.exitReason == Some(STOP_LOSS)
  }

  ghost predicate AtOldestFill(s: State)
  {
    Filled(s.exits) && (Stopped(s.row) ==> s.exits != [] && s.row.exitPrice == s.exits[0].filledPrice)
  }

  lemma SaleLeaves(row: Row, price: int)
    requires ProfitSale(row, price).Some?
    ensures var sale := ProfitSale(row, price).value;
            && row.status == OPEN
            && (sale.after.status == OPEN ==> sale.after.quantity == row.quantity - sale.quantity)
            && (sale.after.status != OPEN ==>
                  && sale.after.status == CLOSED && sale.after.quantity == row.quantity
                  && sale.after.exitReason in {Some(TAKE_PROFIT), Some(TAKE_PROFIT_ALL_LEVELS)})
  {
  }

  lemma StepKeepsOldestFill(s: State, e: Event)
    requires AtOldestFill(s)
    ensures AtOldestFill(Step(s, e))
  {
    if Live(s, e) {
      TickComesTo(s, e);
      TrailKeeps(s, e);
      if Wanted(s, e).Some? {
        SaleLeaves(Object(s, e), e.price.value);
      }
    } else {
      QuietStep(s, e);
    }
  }

  /**
   * A position closed by stop-loss carries the fill price of its oldest exit
   * order, be it the stop's own or a take-profit's, whatever run led there.
   */
  lemma {:induction false} StopExitsAtOldestFill(s: State, es: seq<Event>)
    requires s.row.status == OPEN && Filled(s.exits)
    ensures AtOldestFill(Run(s, es))
  {
    if es != [] {
      StopExitsAtOldestFill(s, es[..|es| - 1]);
      StepKeepsOldestFill(Run(s, es[..|es| - 1]), es[|es| - 1]);
    }
  }

  // ------------------------------------------------------------ conservation

  /**
   * What a run sold without taking it off the row: by stop-loss orders, and by
   * take-profit orders whose save was lost; and how many orders each placed.
   */
  datatype Ledger = Ledger(stopped: real, lost: real, stops: nat, profits: nat)

  function Enter(l: Ledger, s: State, e: Event): Ledger
  {
    Ledger(l.stopped + (if StopSells(s, e) then s.row.quantity else 0.0),
           l.lost + (if ProfitSells(s, e) && !ProfitSaves(s, e) then Wanted(s, e).value.quantity else 0.0),
           l.stops + (if StopSells(s, e) then 1 else 0),
           l.profits + (if ProfitSells(s, e) then 1 else 0))
  }

  function LedgerOf(s: State, es: seq<Event>): Ledger
  {
    if es == [] then Ledger(0.0, 0.0, 0, 0)
    else Enter(LedgerOf(s, es[..|es| - 1]), Run(s, es[..|es| - 1]), es[|es| - 1])
  }

  predicate ProfitClosed(row: Row)
  {
    row.status == CLOSED && row.exitReason in {Some(TAKE_PROFIT), Some(TAKE_PROFIT_ALL_LEVELS)}
  }

  /** What the row shows as not yet sold; the order that closes a take-profit is not taken off it. */
  function Shown(s: State): real
  {
    if ProfitClosed(s.row) && s.exits != [] then s.row.quantity - s.exits[|s.exits| - 1].quantity
    else s.row.quantity
  }

  lemma SoldAppended(exits: seq<Order>, more: seq<Order>)
    requires |more| <= 2
    ensures Sold(exits + more) == Sold(exits) + Sold(more)
  {
    if more == [] {
      assert exits + more == exits;
    } else if |more| == 1 {
      SoldOneMore(exits, more[0]);
      assert exits + more == exits + [more[0]];
      assert more[..0] == [];
    } else {
      assert exits + more == exits + [more[0]] + [more[1]];
      SoldOneMore(exits, more[0]);
      SoldOneMore(exits + [more[0]], more[1]);
      assert more[..1] == [more[0]] && more[..1][..0] == [];
    }
  }

  lemma OrdersSum(s: State, e: Event)
    ensures |OrdersOf(s, e)| <= 2
    ensures Sold(OrdersOf(s, e)) == (if StopSells(s, e) then s.row.quantity else 0.0) +
                                    (if ProfitSells(s, e) then Wanted(s, e).value.quantity else 0.0)
  {
    if Wanted(s, e).Some? {
      var price := e.price.value;
      var a := ExitOrder(s.row, s.row.quantity, price);
      var b := ExitOrder(s.row, Wanted(s, e).value.quantity, price);
      SoldOneMore([], b);
      SoldOneMore([a], b);
      SoldOneMore([], a);
      assert [] + [a] == [a] && [] + [b] == [b];
    } else if StopSells(s, e) {
      SoldOneMore([], ExitOrder(s.row, s.row.quantity, e.price.value));
    }
  }

  /** A tick takes off the row what a take-profit sold and saved, and nothing else. */
  lemma ShownAfterTick(s: State, e: Event)
    requires Live(s, e)
    ensures Shown(Step(s, e)) == Shown(s) - (if ProfitSaves(s, e) then Wanted(s, e).value.quantity else 0.0)
  {
    TickComesTo(s, e);
    TrailKeeps(s, e);
    if Wanted(s, e).Some? {
      SaleLeaves(Object(s, e), e.price.value);
    }
  }

  lemma SoldAfterTick(s: State, e: Event)
    requires Live(s, e)
    ensures Sold(Step(s, e).exits) == Sold(s.exits) + Sold(OrdersOf(s, e))
    ensures |Step(s, e).exits| == |s.exits| + |OrdersOf(s, e)|
  {
    TickComesTo(s, e);
    OrdersSum(s, e);
    SoldAppended(s.exits, OrdersOf(s, e));
  }

  lemma StepConserves(l: Ledger, s: State, e: Event)
    ensures Sold(Step(s, e).exits) + Shown(Step(s, e)) - Enter(l, s, e).stopped - Enter(l, s, e).lost ==
            Sold(s.exits) + Shown(s) - l.stopped - l.lost
    ensures |Step(s, e).exits| + l.stops + l.profits == |s.exits| + Enter(l, s, e).stops + Enter(l, s, e).profits
  {
    if Live(s, e) {
      ShownAfterTick(s, e);
      SoldAfterTick(s, e);
      OrdersSum(s, e);
    } else {
      QuietStep(s, e);
    }
  }

  /**
   * Conservation over every run: what was sold and what the row still shows
   * add up to what was there, plus what stop-loss orders and lost take-profit
   * saves sold without taking it off the row.
   */
  lemma {:induction false} SalesConserved(s: State, es: seq<Event>)
    ensures var r, l := Run(s, es), LedgerOf(s, es);
            && Sold(r.exits) + Shown(r) == Sold(s.exits) + Shown(s) + l.stopped + l.lost
            && |r.exits| == |s.exits| + l.stops + l.profits
  {
    if es != [] {
      var front, e := es[..|es| - 1], es[|es| - 1];
      SalesConserved(s, front);
      StepConserves(LedgerOf(s, front), Run(s, front), e);
    }
  }

  // ---------------------------------------------- a position sold already

  predicate ProfitSellsAt(s: State, es: seq<Event>, n: nat)
  {
    n < |es| && ProfitSells(Run(s, es[..n]), es[n])
  }

  predicate StopSellsAt(s: State, es: seq<Event>, n: nat)
  {
    n < |es| && StopSells(Run(s, es[..n]), es[n])
  }

  /** The tick closes the position: by stop-loss, or by the last sale of a take-profit. */
  predicate Closes(s: State, e: Event)
  {
    || (Stops(s, e) && !e.faults.stopSave.Refused?)
    || (ProfitSaves(s, e) && Wanted(s, e).value.after.status == CLOSED)
  }

  predicate ClosesAt(s: State, es: seq<Event>, n: nat)
  {
    n < |es| && Closes(Run(s, es[..n]), es[n])
  }

  lemma InPrefix(s: State, es: seq<Event>, n: nat)
    requires n < |es| - 1
    ensures ProfitSellsAt(s, es, n) <==> ProfitSellsAt(s, es[..|es| - 1], n)
    ensures StopSellsAt(s, es, n) <==> StopSellsAt(s, es[..|es| - 1], n)
    ensures LosesAt(s, es, n) <==> LosesAt(s, es[..|es| - 1], n)
  {
    assert es[..|es| - 1][..n] == es[..n];
  }

  lemma CountOneMore(s: State, es: seq<Event>)
    requires es != []
    ensures var front, last := es[..|es| - 1], |es| - 1;
            && LedgerOf(s, es).profits == LedgerOf(s, front).profits + (if ProfitSellsAt(s, es, last) then 1 else 0)
            && LedgerOf(s, es).stops == LedgerOf(s, front).stops + (if StopSellsAt(s, es, last) then 1 else 0)
  {
  }

  lemma {:induction false} SaleCounted(s: State, es: seq<Event>, n: nat)
    requires n < |es|
    ensures ProfitSellsAt(s, es, n) ==> LedgerOf(s, es).profits > 0
    ensures StopSellsAt(s, es, n) ==> LedgerOf(s, es).stops > 0
  {
    CountOneMore(s, es);
    if n < |es| - 1 {
      InPrefix(s, es, n);
      SaleCounted(s, es[..|es| - 1], n);
    }
  }

  lemma {:induction false} NoProfitCounted(s: State, es: seq<Event>)
    requires forall n :: 0 <= n < |es| ==> !ProfitSellsAt(s, es, n)
    ensures LedgerOf(s, es).profits == 0
  {
    if es != [] {
      var front := es[..|es| - 1];
      forall n | 0 <= n < |front|
        ensures !ProfitSellsAt(s, front, n)
      {
        InPrefix(s, es, n);
      }
      NoProfitCounted(s, front);
      CountOneMore(s, es);
    }
  }

  lemma {:induction false} NoStopCounted(s: State, es: seq<Event>)
    requires forall n :: 0 <= n < |es| ==> !StopSellsAt(s, es, n)
    ensures LedgerOf(s, es).stops == 0
  {
    if es != [] {
      var front := es[..|es| - 1];
      forall n | 0 <= n < |front|
        ensures !StopSellsAt(s, front, n)
      {
        InPrefix(s, es, n);
      }
      NoStopCounted(s, front);
      CountOneMore(s, es);
    }
  }

  /** The counts of the ledger in terms of the ticks of the run. */
  lemma NoProfitsIff(s: State, es: seq<Event>)
    ensures LedgerOf(s, es).profits == 0 <==> forall n :: 0 <= n < |es| ==> !ProfitSellsAt(s, es, n)
  {
    if n :| 0 <= n < |es| && ProfitSellsAt(s, es, n) {
      SaleCounted(s, es, n);
    } else {
      NoProfitCounted(s, es);
    }
  }

  lemma NoStopsIff(s: State, es: seq<Event>)
    ensures LedgerOf(s, es).stops == 0 <==> forall n :: 0 <= n < |es| ==> !StopSellsAt(s, es, n)
  {
    if n :| 0 <= n < |es| && StopSellsAt(s, es, n) {
      SaleCounted(s, es, n);
    } else {
      NoStopCounted(s, es);
    }
  }

  lemma {:induction false} OrdersOnlyAdded(s: State, es: seq<Event>)
    ensures |s.exits| <= |Run(s, es).exits| && Run(s, es).exits[..|s.exits|] == s.exits
  {
    if es != [] {
      var before, e := Run(s, es[..|es| - 1]), es[|es| - 1];
      OrdersOnlyAdded(s, es[..|es| - 1]);
      if Live(before, e) {
        TickComesTo(before, e);
      } else {
        QuietStep(before, e);
      }
    }
  }

  lemma {:induction false} StopSellsOnlyFirst(s: State, es: seq<Event>)
    requires s.exits != []
    ensures LedgerOf(s, es).stops == 0
  {
    if es != [] {
      StopSellsOnlyFirst(s, es[..|es| - 1]);
      OrdersOnlyAdded(s, es[..|es| - 1]);
    }
  }

  /**
   * A position with an exit order, such as one whose stop-loss order committed
   * while its save failed, is not sold again iff no tick sells for a
   * take-profit: the stop-loss looks for an order first, the take-profit does not.
   */
  lemma SoldAgainIff(s: State, es: seq<Event>)
    requires s.exits != []
    ensures Run(s, es).exits == s.exits <==> forall n :: 0 <= n < |es| ==> !ProfitSellsAt(s, es, n)
  {
    SalesConserved(s, es);
    StopSellsOnlyFirst(s, es);
    NoProfitsIff(s, es);
    OrdersOnlyAdded(s, es);
    if |Run(s, es).exits| == |s.exits| {
      assert Run(s, es).exits[..|s.exits|] == Run(s, es).exits;
    }
  }

  lemma StepClosesIff(s: State, e: Event)
    requires s.row.status == OPEN
    ensures Step(s, e).row.status == if Closes(s, e) then CLOSED else OPEN
  {
    if Live(s, e) {
      TickComesTo(s, e);
      TrailKeeps(s, e);
      if Wanted(s, e).Some? {
        SaleLeaves(Object(s, e), e.price.value);
      }
    } else {
      QuietStep(s, e);
    }
  }

  ghost predicate OpenAfter(s: State, es: seq<Event>, n: nat)
  {
    n <= |es| && Run(s, es[..n]).row.status == OPEN
  }

  lemma OpenOneMore(s: State, es: seq<Event>, n: nat)
    requires n < |es|
    ensures OpenAfter(s, es, n + 1) <==> OpenAfter(s, es, n) && !ClosesAt(s, es, n)
  {
    var before := Run(s, es[..n]);
    assert es[..n + 1][..n] == es[..n];
    if before.row.status == OPEN {
      StepClosesIff(before, es[n]);
    } else {
      QuietStep(before, es[n]);
    }
  }

  lemma NotOpenStays(s: State, es: seq<Event>, n: nat)
    requires n < |es| && !OpenAfter(s, es, n)
    ensures !OpenAfter(s, es, n + 1)
  {
    assert es[..n + 1][..n] == es[..n];
    QuietStep(Run(s, es[..n]), es[n]);
  }

  lemma {:induction false} NeverOpenAgain(s: State, es: seq<Event>, n: nat, m: nat)
    requires n <= m <= |es| && !OpenAfter(s, es, n)
    ensures !OpenAfter(s, es, m)
  {
    if n < m {
      NeverOpenAgain(s, es, n, m - 1);
      NotOpenStays(s, es, m - 1);
    }
  }

  lemma {:induction false} OpenIfNeverClosed(s: State, es: seq<Event>, n: nat)
    requires s.row.status == OPEN && n <= |es| && forall k :: 0 <= k < n ==> !ClosesAt(s, es, k)
    ensures OpenAfter(s, es, n)
  {
    if n == 0 {
      assert es[..0] == [];
    } else {
      OpenIfNeverClosed(s, es, n - 1);
      OpenOneMore(s, es, n - 1);
    }
  }

  /** An open position stays open over a run iff no tick closes it. */
  lemma StaysOpenIff(s: State, es: seq<Event>)
    requires s.row.status == OPEN
    ensures Run(s, es).row.status == OPEN <==> forall n :: 0 <= n < |es| ==> !ClosesAt(s, es, n)
  {
    assert OpenAfter(s, es, |es|) <==> Run(s, es).row.status == OPEN by {
      assert es[..|es|] == es;
    }
    if n :| 0 <= n < |es| && ClosesAt(s, es, n) {
      OpenOneMore(s, es, n);
      NeverOpenAgain(s, es, n + 1, |es|);
    } else {
      OpenIfNeverClosed(s, es, |es|);
    }
  }

  const BOTH := Row("p", "XLM", 100, 8.0, OPEN, Some(90), false, None, Some(100), Some(120), None, None, None)

  /** A run that stops, loses its save and then reaches its target: sold twice. */
  lemma StoppedThenTargetRun()
    ensures var es := [Tick(Some(90), NO_FAULTS.(stopSave := Refused)), Tick(Some(120), NO_FAULTS)];
            var r := Run(State(BOTH, []), es);
            && r.row.status == CLOSED && r.row.exitReason == Some(TAKE_PROFIT)
            && |r.exits| == 2 && Sold(r.exits) == 16.0
  {
    var first, second := Tick(Some(90), NO_FAULTS.(stopSave := Refused)), Tick(Some(120), NO_FAULTS);
    var s, a, b := State(BOTH, []), ExitOrder(BOTH, 8.0, 90), ExitOrder(BOTH, 8.0, 120);
    TwoSteps(s, first, second);
    TickComesTo(s, first);
    assert Step(s, first) == State(BOTH, [a]);
    TickComesTo(State(BOTH, [a]), second);
    assert Share(8.0, 100.0) == 8.0;
    SoldOneMore([a], b);
    SoldOneMore([], a);
    assert [] + [a] == [a];
  }

  // -------------------------------------- exactly the whole quantity, or not

  /** A take-profit order commits, but the position is not saved. */
  predicate LosesAt(s: State, es: seq<Event>, n: nat)
  {
    n < |es| && ProfitSells(Run(s, es[..n]), es[n]) && !ProfitSaves(Run(s, es[..n]), es[n])
  }

  /** Every level closes more than nothing and at most everything that is left. */
  ghost predicate SensibleLevels(row: Row)
  {
    row.takeProfitLevels.Some? ==>
      forall i :: 0 <= i < |row.takeProfitLevels.value| ==>
        0.0 < row.takeProfitLevels.value[i].closePercent <= 100.0
  }

  /** A level that closes 100 percent has been executed. */
  ghost predicate SoldOut(row: Row)
  {
    row.takeProfitLevels.Some? &&
    exists i :: 0 <= i < |row.takeProfitLevels.value| && row.takeProfitLevels.value[i].executed &&
                row.takeProfitLevels.value[i].closePercent == 100.0
  }

  lemma ShareBounds(x: real, percent: real)
    requires 0.0 <= x && 0.0 < percent <= 100.0
    ensures 0.0 <= Share(x, percent) <= x
    ensures Share(x, percent) == x <==> x == 0.0 || percent == 100.0
    ensures Share(x, percent) == 0.0 <==> x == 0.0
  {
    ProductZero(x, percent);
    ProductZero(x, 100.0 - percent);
    assert Share(x, percent) * 100.0 == x * percent;
    assert (x - Share(x, percent)) * 100.0 == x * (100.0 - percent);
  }

  /** The level behind a sale that leaves the position open. */
  lemma SaleMarksLevel(row: Row, price: int) returns (i: nat)
    requires ProfitSale(row, price).Some? && ProfitSale(row, price).value.after.status == OPEN
    ensures row.takeProfitLevels.Some? && i < |row.takeProfitLevels.value|
    ensures var levels, sale := row.takeProfitLevels.value, ProfitSale(row, price).value;
            && sale.quantity == Share(row.quantity, levels[i].closePercent)
            && sale.after.quantity == row.quantity - sale.quantity
            && sale.after.takeProfitLevels == Some(Mark(levels, i))
  {
    HitLevelInRange(row.takeProfitLevels.value, price);
    i := HitLevel(row.takeProfitLevels.value, price).value.index;
  }

  lemma MarkSellsOut(row: Row, i: nat, after: Row)
    requires row.takeProfitLevels.Some? && i < |row.takeProfitLevels.value|
    requires after.takeProfitLevels == Some(Mark(row.takeProfitLevels.value, i))
    ensures SoldOut(after) <==> SoldOut(row) || row.takeProfitLevels.value[i].closePercent == 100.0
    ensures SensibleLevels(row) ==> SensibleLevels(after)
  {
    var levels, marked := row.takeProfitLevels.value, after.takeProfitLevels.value;
    if levels[i].closePercent == 100.0 {
      assert marked[i].executed && marked[i].closePercent == 100.0;
    } else if SoldOut(row) {
      var k :| 0 <= k < |levels| && levels[k].executed && levels[k].closePercent == 100.0;
      assert marked[k] == levels[k];
    }
  }

  /** How much of quantity `q` the row still shows while no take-profit has closed it. */
  ghost predicate Shrinking(q: real, profits: nat, row: Row)
  {
    && SensibleLevels(row) && 0.0 <= row.quantity <= q
    && (row.quantity == q <==> profits == 0)
    && (row.quantity == 0.0 <==> SoldOut(row))
  }

  lemma SaleShrinks(q: real, profits: nat, row: Row, price: int)
    requires q > 0.0 && Shrinking(q, profits, row)
    requires ProfitSale(row, price).Some? && ProfitSale(row, price).value.after.status == OPEN
    ensures Shrinking(q, profits + 1, ProfitSale(row, price).value.after)
  {
    var i := SaleMarksLevel(row, price);
    MarkSellsOut(row, i, ProfitSale(row, price).value.after);
    ShareBounds(row.quantity, row.takeProfitLevels.value[i].closePercent);
  }

  ghost predicate OnTheBooks(q: real, l: Ledger, r: State)
  {
    && l.lost == 0.0 && l.stopped == (if l.stops > 0 then q else 0.0) && |r.exits| == l.stops + l.profits
    && (ProfitClosed(r.row) || Shrinking(q, l.profits, r.row))
  }

  lemma SameStakeShrinks(q: real, profits: nat, a: Row, b: Row)
    requires SameStake(a, b) && Shrinking(q, profits, a)
    ensures Shrinking(q, profits, b)
  {
  }

  lemma TickOnTheBooks(q: real, l: Ledger, r: State, e: Event)
    requires q > 0.0 && OnTheBooks(q, l, r) && Live(r, e) && (ProfitSells(r, e) ==> ProfitSaves(r, e))
    ensures ProfitClosed(RowAfter(r, e)) || Shrinking(q, Enter(l, r, e).profits, RowAfter(r, e))
  {
    TrailKeeps(r, e);
    SameStakeShrinks(q, l.profits, r.row, Trailed(r, e).world.row);
    SameStakeShrinks(q, l.profits, r.row, Trailed(r, e).world.saved);
    if ProfitSaves(r, e) {
      SaleLeaves(Object(r, e), e.price.value);
      if Wanted(r, e).value.after.status == OPEN {
        SaleShrinks(q, l.profits, Object(r, e), e.price.value);
      }
    }
  }

  lemma StepOnTheBooks(q: real, l: Ledger, r: State, e: Event)
    requires q > 0.0 && OnTheBooks(q, l, r) && (ProfitSells(r, e) ==> ProfitSaves(r, e))
    ensures OnTheBooks(q, Enter(l, r, e), Step(r, e))
  {
    StepConserves(l, r, e);
    if Live(r, e) {
      TickComesTo(r, e);
      TickOnTheBooks(q, l, r, e);
    } else {
      QuietStep(r, e);
      if !ProfitClosed(r.row) {
        SameStakeShrinks(q, l.profits, r.row, Step(r, e).row);
      }
    }
  }

  lemma {:induction false} RunOnTheBooks(s: State, es: seq<Event>)
    requires s.row.quantity > 0.0 && OnTheBooks(s.row.quantity, Ledger(0.0, 0.0, 0, 0), s)
    requires forall n :: 0 <= n < |es| ==> !LosesAt(s, es, n)
    ensures OnTheBooks(s.row.quantity, LedgerOf(s, es), Run(s, es))
  {
    if es != [] {
      var front, last := es[..|es| - 1], |es| - 1;
      forall n | 0 <= n < last
        ensures !LosesAt(s, front, n)
      {
        InPrefix(s, es, n);
      }
      RunOnTheBooks(s, front);
      assert !LosesAt(s, es, last);
      StepOnTheBooks(s.row.quantity, LedgerOf(s, front), Run(s, front), es[last]);
    }
  }

  /**
   * A position with levels and a stop, closed by stop-loss with no save of a
   * take-profit lost, has been sold exactly once iff no take-profit sold
   * anything, or take-profits alone sold and one of them closed 100 percent.
   * Otherwise a rest stays unsold, or the stop's order sold a part again.
   */
  lemma StoppedSoldWholeIff(s: State, es: seq<Event>)
    requires s.row.status == OPEN && s.exits == [] && s.row.quantity > 0.0
    requires SensibleLevels(s.row) && !SoldOut(s.row)
    requires forall n :: 0 <= n < |es| ==> !LosesAt(s, es, n)
    requires Stopped(Run(s, es).row)
    ensures Sold(Run(s, es).exits) == s.row.quantity <==>
            || (forall n :: 0 <= n < |es| ==> !ProfitSellsAt(s, es, n))
            || ((forall n :: 0 <= n < |es| ==> !StopSellsAt(s, es, n)) && SoldOut(Run(s, es).row))
  {
    RunOnTheBooks(s, es);
    SalesConserved(s, es);
    NoProfitsIff(s, es);
    NoStopsIff(s, es);
    StopExitsAtOldestFill(s, es);
  }

  // -------------------------------------------------- where orders come from

  /** A filled market sell order of the position at the price of one of the ticks. */
  ghost predicate FromTick(o: Order, id: string, es: seq<Event>)
  {
    && o.positionId == id && o.orderType == MARKET && o.side == SELL && o.exitOrder
    && o.requestedPrice == o.filledPrice
    && exists n :: 0 <= n < |es| && es[n].Tick? && es[n].price.Some? && es[n].price == o.filledPrice
  }

  lemma FromLongerRun(o: Order, id: string, es: seq<Event>)
    requires es != [] && FromTick(o, id, es[..|es| - 1])
    ensures FromTick(o, id, es)
  {
    var front := es[..|es| - 1];
    var n :| 0 <= n < |front| && front[n].Tick? && front[n].price.Some? && front[n].price == o.filledPrice;
    assert es[n] == front[n];
  }

  lemma SaleKeepsId(row: Row, price: int)
    requires ProfitSale(row, price).Some?
    ensures ProfitSale(row, price).value.after.id == row.id
  {
  }

  lemma StepKeepsId(s: State, e: Event)
    ensures Step(s, e).row.id == s.row.id
  {
    if Live(s, e) {
      TickComesTo(s, e);
      TrailKeeps(s, e);
      if Wanted(s, e).Some? {
        SaleKeepsId(Object(s, e), e.price.value);
      }
    } else {
      QuietStep(s, e);
    }
  }

  lemma {:induction false} RunKeepsId(s: State, es: seq<Event>)
    ensures Run(s, es).row.id == s.row.id
  {
    if es != [] {
      RunKeepsId(s, es[..|es| - 1]);
      StepKeepsId(Run(s, es[..|es| - 1]), es[|es| - 1]);
    }
  }

  lemma OrdersOfTick(s: State, es: seq<Event>, i: nat)
    requires es != [] && Live(s, es[|es| - 1]) && i < |OrdersOf(s, es[|es| - 1])|
    ensures FromTick(OrdersOf(s, es[|es| - 1])[i], s.row.id, es)
  {
    assert es[|es| - 1].Tick?;
  }

  /** Every order a run adds is a filled market sell of this position at the price of a tick of the run. */
  lemma {:induction false} OrdersComeFromTicks(s: State, es: seq<Event>, i: nat)
    requires |s.exits| <= i < |Run(s, es).exits|
    ensures FromTick(Run(s, es).exits[i], s.row.id, es)
  {
    if es != [] {
      var before, e := Run(s, es[..|es| - 1]), es[|es| - 1];
      RunKeepsId(s, es[..|es| - 1]);
      if Live(before, e) {
        TickComesTo(before, e);
      } else {
        QuietStep(before, e);
      }
      if i < |before.exits| {
        OrdersComeFromTicks(s, es[..|es| - 1], i);
        FromLongerRun(before.exits[i], s.row.id, es);
      } else {
        OrdersOfTick(before, es, i - |before.exits|);
      }
    }
  }
}
