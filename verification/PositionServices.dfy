/**
 * The services as they run: position objects updated in place, rows saved and
 * orders inserted one after the other. Each method is shown to do what the
 * step functions of `Positions` say, and to leave all other positions alone.
 */
module PositionServices {

  import opened Options
  import opened Positions
  import opened Sorting

  // -------------------------------------------------------------- entities

  class Position {
    const id: string
    const symbol: string
    const entryPrice: int
    var quantity: real
    var status: Status
    var stopLossPrice: Option<int>
    var isTrailingStop: bool
    var trailingPercent: Option<int>
    var highestPrice: Option<int>
    var takeProfitPrice: Option<int>
    var takeProfitLevels: Option<seq<Level>>
    var exitPrice: Option<int>
    var exitReason: Option<Reason>

    function AsRow(): Row
      reads this
    {
      Row(id, symbol, entryPrice, quantity, status, stopLossPrice, isTrailingStop, trailingPercent,
          highestPrice, takeProfitPrice, takeProfitLevels, exitPrice, exitReason)
    }

    constructor (row: Row)
      ensures AsRow() == row
    {
      id, symbol, entryPrice, quantity, status := row.id, row.symbol, row.entryPrice, row.quantity, row.status;
      stopLossPrice, isTrailingStop, trailingPercent := row.stopLossPrice, row.isTrailingStop, row.trailingPercent;
      highestPrice, takeProfitPrice, takeProfitLevels := row.highestPrice, row.takeProfitPrice, row.takeProfitLevels;
      exitPrice, exitReason := row.exitPrice, row.exitReason;
    }
  }

  predicate IsExit(o: Order, id: string)
  {
    o.positionId == id && o.orderType == MARKET && o.side == SELL && o.exitOrder
  }

  /** The exit orders of one position, oldest first. */
  ghost function Exits(orders: seq<Order>, id: string): seq<Order>
  {
    if orders == [] then []
    else
      var front, last := Exits(orders[..|orders| - 1], id), orders[|orders| - 1];
      if IsExit(last, id) then front + [last] else front
  }

  lemma ExitsSnoc(orders: seq<Order>, o: Order)
    ensures forall id :: Exits(orders + [o], id) == Exits(orders, id) + if IsExit(o, id) then [o] else []
  {
    assert (orders + [o])[..|orders|] == orders;
  }

  class Database {
    var positions: map<string, Row>
    var orders: seq<Order>

    constructor ()
      ensures positions == map[] && orders == []
    {
      positions, orders := map[], [];
    }

    /** `positionRepository.save(position)`. */
    method SavePosition(p: Position, outcome: Write) returns (ok: bool)
      modifies this`positions
      ensures ok == outcome.Done?
      ensures positions == if outcome.Refused? then old(positions) else old(positions)[p.id := p.AsRow()]
    {
      if !outcome.Refused? {
        positions := positions[p.id := p.AsRow()];
      }
      ok := outcome.Done?;
    }

    /** Inserts an order in its own transaction. */
    method CommitOrder(o: Order, outcome: Write) returns (ok: bool)
      modifies this`orders
      ensures ok == outcome.Done?
      ensures orders == if outcome.Refused? then old(orders) else old(orders) + [o]
    {
      if !outcome.Refused? {
        orders := orders + [o];
      }
      ok := outcome.Done?;
    }

    /** `findOne(Order, ...)`: the oldest exit order of a position. */
    method FindExit(id: string) returns (found: Option<Order>)
      ensures found == if Exits(orders, id) == [] then None else Some(Exits(orders, id)[0])
    {
      found := None;
      for i := 0 to |orders|
        invariant found == if Exits(orders[..i], id) == [] then None else Some(Exits(orders[..i], id)[0])
      {
        assert orders[..i + 1][..i] == orders[..i];
        if found.None? && IsExit(orders[i], id) {
          found := Some(orders[i]);
        }
      }
      assert orders[..|orders|] == orders;
    }
  }

  ghost function Now(p: Position, db: Database): World
    reads p, db
    requires p.id in db.positions
  {
    World(p.AsRow(), db.positions[p.id], Exits(db.orders, p.id))
  }

  /** Nothing that belongs to a position other than `id` differs between two states of the tables. */
  ghost predicate Kept(positions: map<string, Row>, orders: seq<Order>,
                       newPositions: map<string, Row>, newOrders: seq<Order>, id: string)
  {
    && newPositions.Keys == positions.Keys
    && (forall other :: other != id && other in positions ==> newPositions[other] == positions[other])
    && (forall other :: other != id ==> Exits(newOrders, other) == Exits(orders, other))
  }

  /** Nothing that belongs to another position has changed. */
  twostate predicate OthersKept(db: Database, id: string)
    reads db
  {
    Kept(old(db.positions), old(db.orders), db.positions, db.orders, id)
  }

  // -------------------------------------------------------------- services

  /** `closePosition`, which both exit services carry in the same form. */
  method ClosePosition(db: Database, p: Position, price: int, reason: Reason, save: Write) returns (ok: bool)
    requires p.id in db.positions
    modifies p, db`positions
    ensures OthersKept(db, p.id)
    ensures ok == save.Done?
    ensures var w := old(Now(p, db));
            Now(p, db) == Save(w.(row := Closed(w.row, price, reason)), save)
  {
    p.status := CLOSED;
    p.exitPrice := Some(price);
    p.exitReason := Some(reason);
    ok := db.SavePosition(p, save);
  }

  class TrailingStopService {
    const db: Database

    constructor (db: Database)
      ensures this.db == db
    {
      this.db := db;
    }

    method Update(p: Position, price: int, save: Write) returns (updated: bool, threw: bool)
      requires p.id in db.positions
      modifies p, db
      ensures OthersKept(db, p.id)
      ensures var r := TrailStep(old(Now(p, db)), price, save);
              Now(p, db) == r.world && updated == r.hit && threw == r.threw
    {
      updated, threw := false, false;
      if !p.isTrailingStop || p.status != OPEN || !Truthy(p.stopLossPrice) {
        return;
      }
      var previousHigh := OrElse(p.highestPrice, p.entryPrice);
      if price <= previousHigh {
        return;
      }
      var oldStopLoss := p.stopLossPrice.value;
      var newStopLoss := TrailedStop(price, OrElse(p.trailingPercent, DEFAULT_TRAILING));
      if newStopLoss <= oldStopLoss {
        return;
      }
      p.highestPrice := Some(price);
      p.stopLossPrice := Some(newStopLoss);
      updated := db.SavePosition(p, save);
      threw := !updated;
    }

    /** Seeds the stop from the entry price; a position without the trailing flag is left alone. */
    method Initialize(p: Position, save: Write) returns (ok: bool)
      requires p.id in db.positions
      modifies p, db
      ensures OthersKept(db, p.id) && db.orders == old(db.orders)
      ensures var row := old(p.AsRow());
              var percent := if row.trailingPercent.Some? then row.trailingPercent.value else 500;
              var stop := TrailedStop(row.entryPrice, percent);
              p.AsRow() == if row.isTrailingStop
                           then row.(stopLossPrice := Some(stop), highestPrice := Some(row.entryPrice)) else row
      ensures ok == (!p.isTrailingStop || save.Done?)
      ensures db.positions[p.id] ==
              if p.isTrailingStop && !save.Refused? then p.AsRow() else old(db.positions[p.id])
    {
      if !p.isTrailingStop {
        return true;
      }
      p.stopLossPrice := Some(TrailedStop(p.entryPrice, OrElse(p.trailingPercent, DEFAULT_TRAILING)));
      p.highestPrice := Some(p.entryPrice);
      ok := db.SavePosition(p, save);
    }
  }

  class StopLossService {
    const db: Database

    constructor (db: Database)
      ensures this.db == db
    {
      this.db := db;
    }

    method SetStopLoss(p: Position, stop: int, trailing: Option<bool>, percent: Option<int>, save: Write)
      returns (ok: bool)
      requires p.id in db.positions && db.positions[p.id] == p.AsRow()
      modifies p, db
      ensures OthersKept(db, p.id) && db.orders == old(db.orders)
      ensures var r := SetStopRow(old(p.AsRow()), stop, trailing, percent);
              && ok == (r.Some? && save.Done?)
              && db.positions[p.id] == if r.None? || save.Refused? then old(p.AsRow()) else r.value
    {
      if p.status != OPEN || stop >= p.entryPrice {
        return false;
      }
      p.stopLossPrice := Some(stop);
      p.isTrailingStop := OrElse(trailing, false);
      p.trailingPercent := Some(OrElse(percent, DEFAULT_TRAILING));
      p.highestPrice := Some(p.entryPrice);
      ok := db.SavePosition(p, save);
    }

    method ExecuteMarketSell(p: Position, price: int, f: Faults) returns (executed: Option<int>)
      requires p.id in db.positions
      modifies db`orders
      ensures OthersKept(db, p.id)
      ensures var r := StopSell(old(Now(p, db)), price, f);
              Now(p, db) == r.world && executed == r.price
    {
      if !f.stopLookup {
        return None;
      }
      var existing := db.FindExit(p.id);
      if existing.Some? {
        return Some(OrElse(existing.value.filledPrice, price));
      }
      var order := ExitOrder(p.AsRow(), p.quantity, price);
      ExitsSnoc(db.orders, order);
      var ok := db.CommitOrder(order, f.stopOrder);
      executed := if ok then Some(price) else None;
    }

    method CheckAndExecute(p: Position, price: int, f: Faults) returns (triggered: bool)
      requires p.id in db.positions
      modifies p, db
      ensures OthersKept(db, p.id)
      ensures var r := StopStep(old(Now(p, db)), price, f);
              Now(p, db) == r.world && triggered == r.hit
    {
      if !Truthy(p.stopLossPrice) || p.status != OPEN {
        return false;
      }
      if price <= p.stopLossPrice.value {
        var executed := ExecuteMarketSell(p, price, f);
        if executed.None? {
          return false;
        }
        triggered := ClosePosition(db, p, executed.value, STOP_LOSS, f.stopSave);
        return;
      }
      triggered := false;
    }
  }

  class TakeProfitService {
    const db: Database

    constructor (db: Database)
      ensures this.db == db
    {
      this.db := db;
    }

    method ExecutePartialOrFullSell(p: Position, price: int, percent: real, f: Faults) returns (executed: Option<int>)
      requires p.id in db.positions
      modifies db`orders
      ensures OthersKept(db, p.id)
      ensures var w := old(Now(p, db));
              var r := Sell(w, Share(w.row.quantity, percent), price, f.profitOrder);
              Now(p, db) == r.world && executed == r.price
    {
      var order := ExitOrder(p.AsRow(), Share(p.quantity, percent), price);
      ExitsSnoc(db.orders, order);
      var ok := db.CommitOrder(order, f.profitOrder);
      executed := if ok then Some(price) else None;
    }

    method CheckMultiLevel(p: Position, levels: seq<Level>, price: int, f: Faults)
      returns (triggered: bool, threw: bool)
      requires p.id in db.positions && p.takeProfitLevels == Some(levels)
      modifies p, db
      ensures OthersKept(db, p.id)
      ensures var r := LevelStep(old(Now(p, db)), levels, price, f);
              Now(p, db) == r.world && triggered == r.hit && threw == r.threw
    {
      var remaining := Sort(Filter(Slots(levels), Pending(levels)), SlotLe);
      var hit := FindHit(remaining, price);
      if hit.None? {
        return false, false;
      }
      HitLevelInRange(levels, price);
      var i := hit.value.index;
      var quantityToSell := Share(p.quantity, levels[i].closePercent);
      var executed := ExecutePartialOrFullSell(p, price, levels[i].closePercent, f);
      if executed.None? {
        return false, true;
      }
      var marked := levels[i := levels[i].(executed := true)];
      p.takeProfitLevels := Some(marked);
      if AllExecuted(marked) {
        triggered := ClosePosition(db, p, executed.value, TAKE_PROFIT_ALL_LEVELS, f.profitSave);
      } else {
        p.quantity := p.quantity - quantityToSell;
        triggered := db.SavePosition(p, f.profitSave);
      }
      threw := !triggered;
    }

    method CheckAndExecute(p: Position, price: int, f: Faults) returns (triggered: bool, threw: bool)
      requires p.id in db.positions
      modifies p, db
      ensures OthersKept(db, p.id)
      ensures var r := ProfitStep(old(Now(p, db)), price, f);
              Now(p, db) == r.world && triggered == r.hit && threw == r.threw
    {
      triggered, threw := false, false;
      if !Truthy(p.takeProfitPrice) || p.status != OPEN {
        return;
      }
      if p.takeProfitLevels.Some? && p.takeProfitLevels.value != [] {
        triggered, threw := CheckMultiLevel(p, p.takeProfitLevels.value, price, f);
        return;
      }
      if price >= p.takeProfitPrice.value {
        var executed := ExecutePartialOrFullSell(p, price, 100.0, f);
        if executed.Some? {
          triggered := ClosePosition(db, p, executed.value, TAKE_PROFIT, f.profitSave);
        }
      }
    }
  }
}
