/**
 * Stop-loss and trailing stop under every failure: the stored position and its
 * orders follow a small machine that knows only the stop in force, the fill
 * price of the exit order and whether the position is closed
 * (src/Automated Stop-Loss and Take-Profit System).
 */
module StopLossMachine {

  import opened Options
  import opened Positions
  import opened StopLossRuns

  datatype Guard = Guard(stop: int, fill: Option<int>, closed: bool)

  predicate UsableTick(e: Event)
  {
    e.Tick? && e.price.Some? && e.price.value > 0
  }

  /** The trailing update does not fail, so the stop-loss check is reached. */
  predicate Reaches(start: Row, m: Guard, e: Event)
    requires UsableTick(e)
  {
    LevelAt(start, m.stop, e.price.value) == m.stop || e.faults.trailSave.Done?
  }

  /** The check is reached with a price at or below the stop then in force. */
  predicate Crosses(start: Row, m: Guard, e: Event)
    requires UsableTick(e)
  {
    Reaches(start, m, e) && e.price.value <= LevelAt(start, m.stop, e.price.value)
  }

  /** The tick closes the position: it crosses, finds or places its order, and saves. */
  predicate Completes(start: Row, m: Guard, e: Event)
  {
    && UsableTick(e) && !m.closed && Crosses(start, m, e)
    && e.faults.stopLookup && (m.fill.Some? || e.faults.stopOrder.Done?) && !e.faults.stopSave.Refused?
  }

  /** The tick places the exit order, whether or not it learns of it. */
  predicate Sells(start: Row, m: Guard, e: Event)
  {
    && UsableTick(e) && !m.closed && Crosses(start, m, e)
    && e.faults.stopLookup && m.fill.None? && !e.faults.stopOrder.Refused?
  }

  function Next(start: Row, m: Guard, e: Event): Guard
  {
    if m.closed || !UsableTick(e) then m
    else
      var level := LevelAt(start, m.stop, e.price.value);
      Guard(if e.faults.trailSave.Refused? then m.stop else level,
            if Sells(start, m, e) then Some(e.price.value) else m.fill,
            Completes(start, m, e))
  }

  function RunGuard(start: Row, m: Guard, es: seq<Event>): Guard
  {
    if es == [] then m else Next(start, RunGuard(start, m, es[..|es| - 1]), es[|es| - 1])
  }

  /** The fill price of the exit order, once there is one. */
  function FillOf(exits: seq<Order>): Option<int>
  {
    if exits == [] then None else exits[0].filledPrice
  }

  /** The stored position that belongs to a state of the machine. */
  ghost predicate AtGuard(s: State, m: Guard, r: State)
  {
    && SameTerms(s, r) && !Truthy(r.row.takeProfitPrice) && Guarded(r.row, s.row, m.stop)
    && m.fill == FillOf(r.exits) && (r.exits != [] ==> m.fill.Some?)
    && r.exits == (if s.exits != [] then s.exits
                   else if m.fill.Some? then [ExitOrder(s.row, s.row.quantity, m.fill.value)] else [])
    && r.row.status == (if m.closed then CLOSED else OPEN)
    && (m.closed ==> m.fill.Some? && r.row.exitPrice == m.fill && r.row.exitReason == Some(STOP_LOSS))
  }

  /** An open position under guard, whether or not its exit order was placed already. */
  ghost predicate Starts(s: State, m: Guard)
  {
    && OneExit(s, s.row.quantity) && s.row.status == OPEN && Guarded(s.row, s.row, m.stop)
    && m.fill == FillOf(s.exits) && !m.closed
  }

  /** The trailing update leaves a world from which the check can be read off. */
  lemma TrailFollowsGuard(s: State, m: Guard, r: State, price: int, save: Write)
    requires AtGuard(s, m, r) && !m.closed && price > 0
    ensures var step, level := TrailStep(World(r.row, r.row, r.exits), price, save), LevelAt(s.row, m.stop, price);
            && step.world.exits == r.exits
            && SameTerms(s, State(step.world.saved, r.exits)) && SameTerms(s, State(step.world.row, r.exits))
            && step.world.row.status == OPEN && step.world.saved.status == OPEN
            && step.world.saved.takeProfitPrice == r.row.takeProfitPrice == step.world.row.takeProfitPrice
            && Guarded(step.world.saved, s.row, if save.Refused? then m.stop else level)
            && (step.threw <==> level != m.stop && !save.Done?)
            && (!step.threw ==> step.world.saved == step.world.row && Guarded(step.world.row, s.row, level))
  {
    if s.row.isTrailingStop {
      TrailStepRatchets(World(r.row, r.row, r.exits), price, save, s.row.entryPrice,
                        OrElse(s.row.trailingPercent, DEFAULT_TRAILING), m.stop);
    }
  }

  /** The check itself, on an object just saved: what is stored afterwards. */
  lemma StopFollowsGuard(s: State, m: Guard, r: State, price: int, f: Faults)
    requires AtGuard(s, m, r) && !m.closed
    ensures var w := StopStep(World(r.row, r.row, r.exits), price, f).world;
            var sells := price <= m.stop && f.stopLookup && m.fill.None? && !f.stopOrder.Refused?;
            var sold := price <= m.stop && f.stopLookup && (m.fill.Some? || f.stopOrder.Done?);
            var closes := sold && !f.stopSave.Refused?;
            && AtGuard(s, Guard(m.stop, if sells then Some(price) else m.fill, closes), State(w.saved, w.exits))
            && !Truthy(w.row.takeProfitPrice)
  {
  }

  /** Without a take-profit the last check of a tick does nothing. */
  lemma TickIsTrailThenStop(r: State, price: int, f: Faults)
    requires r.row.status == OPEN && !Truthy(r.row.takeProfitPrice) && price > 0
    ensures var trail := TrailStep(World(r.row, r.row, r.exits), price, f.trailSave);
            var w := if trail.threw then trail.world else StopStep(trail.world, price, f).world;
            TickState(r, Some(price), f) == State(w.saved, w.exits)
  {
  }

  lemma TickFollowsGuard(s: State, m: Guard, r: State, e: Event)
    requires AtGuard(s, m, r) && e.Tick?
    ensures AtGuard(s, Next(s.row, m, e), Step(r, e))
  {
    if !m.closed && UsableTick(e) {
      var price, f := e.price.value, e.faults;
      TickIsTrailThenStop(r, price, f);
      TrailFollowsGuard(s, m, r, price, f.trailSave);
      var trail := TrailStep(World(r.row, r.row, r.exits), price, f.trailSave);
      if !trail.threw {
        var raised := m.(stop := LevelAt(s.row, m.stop, price));
        StopFollowsGuard(s, raised, State(trail.world.row, r.exits), price, f);
      }
    }
  }

  /** For every run of ticks and every failure the stored position is the one the machine says. */
  lemma {:induction false} StopLossFollowsMachine(s: State, m: Guard, es: seq<Event>)
    requires Starts(s, m) && OnlyTicks(es)
    ensures AtGuard(s, RunGuard(s.row, m, es), Run(s, es))
  {
    if es != [] {
      var front, e := es[..|es| - 1], es[|es| - 1];
      StopLossFollowsMachine(s, m, front);
      TickFollowsGuard(s, RunGuard(s.row, m, front), Run(s, front), e);
    }
  }

  // ------------------------------------------------ when the position closes

  /** Tick number `n` closes the position, judged by the machine just before it. */
  predicate CompletesAt(start: Row, m: Guard, es: seq<Event>, n: nat)
  {
    n < |es| && Completes(start, RunGuard(start, m, es[..n]), es[n])
  }

  lemma CompletesInPrefix(start: Row, m: Guard, es: seq<Event>, n: nat)
    requires n < |es| - 1
    ensures CompletesAt(start, m, es, n) <==> CompletesAt(start, m, es[..|es| - 1], n)
  {
    assert es[..|es| - 1][..n] == es[..n];
  }

  lemma {:induction false} ClosedIffCompleted(start: Row, m: Guard, es: seq<Event>)
    requires !m.closed
    ensures RunGuard(start, m, es).closed <==> exists n :: 0 <= n < |es| && CompletesAt(start, m, es, n)
  {
    if es != [] {
      var front, last := es[..|es| - 1], |es| - 1;
      ClosedIffCompleted(start, m, front);
      forall n | 0 <= n < last
        ensures CompletesAt(start, m, es, n) <==> CompletesAt(start, m, front, n)
      {
        CompletesInPrefix(start, m, es, n);
      }
      assert CompletesAt(start, m, es, last) <==> Completes(start, RunGuard(start, m, front), es[last]);
    }
  }

  /** Nothing moves the machine once it has closed. */
  lemma {:induction false} ClosedStays(start: Row, m: Guard, es: seq<Event>, n: nat)
    requires n <= |es| && RunGuard(start, m, es[..n]).closed
    ensures RunGuard(start, m, es) == RunGuard(start, m, es[..n])
  {
    if n == |es| {
      assert es[..n] == es;
    } else {
      var front := es[..|es| - 1];
      assert front[..n] == es[..n];
      ClosedStays(start, m, front, n);
    }
  }

  /**
   * Whatever fails on the way, the position ends closed iff some tick reached
   * the check at or below the stop then in force and its lookup, order and save
   * took effect. That tick is the only one to close it, and the exit price is
   * the fill of the one exit order: the price of that tick, or of the earlier
   * tick that had placed the order.
   */
  lemma ClosesOnEffectiveCrossing(s: State, m: Guard, es: seq<Event>)
    requires Starts(s, m) && OnlyTicks(es)
    ensures Run(s, es).row.status == CLOSED <==> exists n :: 0 <= n < |es| && CompletesAt(s.row, m, es, n)
    ensures forall n :: 0 <= n < |es| && CompletesAt(s.row, m, es, n) ==>
              && Run(s, es[..n]).row.status == OPEN
              && Run(s, es).row.exitPrice == OrSome(RunGuard(s.row, m, es[..n]).fill, es[n].price)
    ensures |Run(s, es).exits| <= 1
  {
    StopLossFollowsMachine(s, m, es);
    ClosedIffCompleted(s.row, m, es);
    forall n | 0 <= n < |es| && CompletesAt(s.row, m, es, n)
      ensures Run(s, es[..n]).row.status == OPEN
      ensures Run(s, es).row.exitPrice == OrSome(RunGuard(s.row, m, es[..n]).fill, es[n].price)
    {
      StopLossFollowsMachine(s, m, es[..n]);
      assert es[..n + 1][..n] == es[..n] && es[..n + 1][n] == es[n];
      ClosedStays(s.row, m, es, n + 1);
    }
  }

  function OrSome(x: Option<int>, y: Option<int>): Option<int>
  {
    if x.Some? then x else y
  }

  // ---------------------------------------------------- retry after a crash

  /** A tick that finishes the job for a position already sold: seen from the stored row alone. */
  predicate Retries(row: Row, e: Event)
  {
    && UsableTick(e) && row.stopLossPrice.Some?
    && var level := LevelAt(row, row.stopLossPrice.value, e.price.value);
       && e.price.value <= level && (level == row.stopLossPrice.value || e.faults.trailSave.Done?)
       && e.faults.stopLookup && !e.faults.stopSave.Refused?
  }

  lemma SoldTickClosesIff(s: State, m: Guard, r: State, e: Event)
    requires AtGuard(s, m, r) && m.fill.Some? && !m.closed && e.Tick?
    ensures Step(r, e).row.status == CLOSED <==> Retries(r.row, e)
    ensures Step(r, e).row.status == OPEN || Step(r, e).row.status == CLOSED
  {
    TickFollowsGuard(s, m, r, e);
    assert UsableTick(e) ==> LevelAt(r.row, m.stop, e.price.value) == LevelAt(s.row, m.stop, e.price.value);
  }

  ghost predicate RetriesAt(s: State, es: seq<Event>, n: nat)
  {
    n < |es| && Retries(Run(s, es[..n]).row, es[n])
  }

  lemma RetriesInPrefix(s: State, es: seq<Event>, n: nat)
    requires n < |es| - 1
    ensures RetriesAt(s, es, n) <==> RetriesAt(s, es[..|es| - 1], n)
  {
    assert es[..|es| - 1][..n] == es[..n];
  }

  lemma SoldRunKeepsOrder(s: State, m: Guard, es: seq<Event>)
    requires Starts(s, m) && s.exits != [] && OnlyTicks(es)
    ensures Run(s, es).exits == s.exits
    ensures Run(s, es).row.status == OPEN ||
            (Run(s, es).row.status == CLOSED && Run(s, es).row.exitPrice == s.exits[0].filledPrice)
  {
    StopLossFollowsMachine(s, m, es);
  }

  lemma SoldRunOneMore(s: State, m: Guard, front: seq<Event>, e: Event)
    requires Starts(s, m) && s.exits != [] && OnlyTicks(front) && e.Tick?
    ensures Step(Run(s, front), e).row.status == OPEN <==>
            Run(s, front).row.status == OPEN && !Retries(Run(s, front).row, e)
  {
    StopLossFollowsMachine(s, m, front);
    if Run(s, front).row.status == OPEN {
      SoldTickClosesIff(s, RunGuard(s.row, m, front), Run(s, front), e);
    }
  }

  /**
   * A position whose exit order was committed while its own save failed is
   * never sold again. Over a whole run it stays open iff no tick again reaches
   * the check at or below the (trailing) stop with lookup and save taking
   * effect; when it closes, the exit price is the first order's.
   */
  lemma {:induction false} SoldPositionStrandsIff(s: State, m: Guard, es: seq<Event>)
    requires Starts(s, m) && s.exits != [] && OnlyTicks(es)
    ensures Run(s, es).exits == s.exits
    ensures Run(s, es).row.status == OPEN <==> forall n :: 0 <= n < |es| ==> !RetriesAt(s, es, n)
    ensures Run(s, es).row.status != OPEN ==>
              Run(s, es).row.status == CLOSED && Run(s, es).row.exitPrice == s.exits[0].filledPrice
  {
    SoldRunKeepsOrder(s, m, es);
    if es != [] {
      var front, last := es[..|es| - 1], |es| - 1;
      SoldPositionStrandsIff(s, m, front);
      SoldRunOneMore(s, m, front, es[last]);
      forall n | 0 <= n < last
        ensures RetriesAt(s, es, n) <==> RetriesAt(s, front, n)
      {
        RetriesInPrefix(s, es, n);
      }
      assert RetriesAt(s, es, last) <==> Retries(Run(s, front).row, es[last]);
    }
  }

  /** A run that strands: the order at the stop commits, the save fails, and the price recovers. */
  lemma StrandedRun()
    ensures var row := Row("p", "XLM", 100, 8.0, OPEN, Some(90), false, None, Some(100), None, None, None, None);
            var es := [Tick(Some(90), NO_FAULTS.(stopSave := Refused)), Tick(Some(95), NO_FAULTS)];
            Run(State(row, []), es) == State(row, [ExitOrder(row, 8.0, 90)])
  {
    var row := Row("p", "XLM", 100, 8.0, OPEN, Some(90), false, None, Some(100), None, None, None, None);
    var first, second := Tick(Some(90), NO_FAULTS.(stopSave := Refused)), Tick(Some(95), NO_FAULTS);
    TwoSteps(State(row, []), first, second);
    TickIsTrailThenStop(State(row, []), 90, first.faults);
    assert Step(State(row, []), first) == State(row, [ExitOrder(row, 8.0, 90)]);
    TickIsTrailThenStop(State(row, [ExitOrder(row, 8.0, 90)]), 95, NO_FAULTS);
  }
}
