/**
 * Positions, exit orders and what one monitoring tick does to them
 * (src/Automated Stop-Loss and Take-Profit System).
 *
 * Prices are integers in units of 1e-8 and trailing percentages integers in
 * units of 0.01 %, as the columns store them; quantities are exact reals.
 */
module Positions {

  import opened Options
  import opened Sorting

  datatype Status = OPEN | CLOSED | PENDING

  datatype Reason = STOP_LOSS | TAKE_PROFIT | TAKE_PROFIT_ALL_LEVELS

  datatype Level = Level(price: int, closePercent: real, executed: bool)

  /** A row of the positions table. */
  datatype Row = Row(
    id: string,
    symbol: string,
    entryPrice: int,
    quantity: real,
    status: Status,
    stopLossPrice: Option<int>,
    isTrailingStop: bool,
    trailingPercent: Option<int>,
    highestPrice: Option<int>,
    takeProfitPrice: Option<int>,
    takeProfitLevels: Option<seq<Level>>,
    exitPrice: Option<int>,
    exitReason: Option<Reason>)

  datatype OrderType = MARKET | LIMIT | STOP

  datatype OrderSide = BUY | SELL

  datatype Order = Order(
    positionId: string,
    orderType: OrderType,
    side: OrderSide,
    quantity: real,
    exitOrder: bool,
    requestedPrice: Option<int>,
    filledPrice: Option<int>)

  /** A database write succeeds, fails, or takes effect although the caller sees an error. */
  datatype Write = Done | Refused | Unacknowledged

  /** What happens to each database access of one tick. */
  datatype Faults = Faults(
    trailSave: Write,
    stopLookup: bool,
    stopOrder: Write,
    stopSave: Write,
    profitOrder: Write,
    profitSave: Write)

  const NO_FAULTS := Faults(Done, true, Done, Done, Done, Done)

  /** The position object in memory, its row in the database, and its exit orders, oldest first. */
  datatype World = World(row: Row, saved: Row, exits: seq<Order>)

  datatype StepResult = StepResult(world: World, hit: bool, threw: bool)

  /** `repository.save(position)`. */
  function Save(w: World, outcome: Write): World
  {
    if outcome.Refused? then w else w.(saved := w.row)
  }

  /** JavaScript truth of a nullable price: present and not zero. */
  predicate Truthy(x: Option<int>)
  {
    x.Some? && x.value != 0
  }

  function ExitOrder(row: Row, quantity: real, price: int): Order
  {
    Order(row.id, MARKET, SELL, quantity, true, Some(price), Some(price))
  }

  function Closed(row: Row, price: int, reason: Reason): Row
  {
    row.(status := CLOSED, exitPrice := Some(price), exitReason := Some(reason))
  }

  // --------------------------------------------------------- trailing stop

  const DEFAULT_TRAILING := 500  // 5 %

  /** `price * (1 - fraction)` to 8 decimals; `toFixed` resolves a tie to the larger value. */
  function TrailedStop(price: int, percent: int): int
  {
    (2 * (price * (10000 - percent)) + 10000) / 20000
  }

  function TrailStep(w: World, price: int, save: Write): StepResult
  {
    var row := w.row;
    if !row.isTrailingStop || row.status != OPEN || !Truthy(row.stopLossPrice) then StepResult(w, false, false)
    else if price <= OrElse(row.highestPrice, row.entryPrice) then StepResult(w, false, false)
    else
      var newStop := TrailedStop(price, OrElse(row.trailingPercent, DEFAULT_TRAILING));
      if newStop <= row.stopLossPrice.value then StepResult(w, false, false)
      else
        var raised := w.(row := row.(highestPrice := Some(price), stopLossPrice := Some(newStop)));
        StepResult(Save(raised, save), save.Done?, !save.Done?)
  }

  // ------------------------------------------------------------- stop-loss

  datatype SellResult = SellResult(world: World, price: Option<int>)

  /** `executeMarketSell`: an exit order that already exists is reused instead of selling again. */
  function StopSell(w: World, price: int, f: Faults): SellResult
  {
    if !f.stopLookup then SellResult(w, None)
    else if w.exits != [] then SellResult(w, Some(OrElse(w.exits[0].filledPrice, price)))
    else Sell(w, w.row.quantity, price, f.stopOrder)
  }

  /** One transaction that inserts a filled market order. */
  function Sell(w: World, quantity: real, price: int, commit: Write): SellResult
  {
    var sold := w.(exits := w.exits + [ExitOrder(w.row, quantity, price)]);
    match commit
    case Done => SellResult(sold, Some(price))
    case Unacknowledged => SellResult(sold, None)
    case Refused => SellResult(w, None)
  }

  function StopStep(w: World, price: int, f: Faults): StepResult
  {
    var row := w.row;
    if !Truthy(row.stopLossPrice) || row.status != OPEN || price > row.stopLossPrice.value then
      StepResult(w, false, false)
    else
      var sale := StopSell(w, price, f);
      match sale.price
      case None => StepResult(sale.world, false, false)
      case Some(executed) =>
        var closed := sale.world.(row := Closed(row, executed, STOP_LOSS));
        StepResult(Save(closed, f.stopSave), f.stopSave.Done?, false)
  }

  // ----------------------------------------------------------- take-profit

  /** A level's place in the list, with the price it waits for. */
  datatype Slot = Slot(index: nat, price: int)

  function Slots(levels: seq<Level>): (slots: seq<Slot>)
    ensures |slots| == |levels|
    ensures forall i :: 0 <= i < |slots| ==> slots[i] == Slot(i, levels[i].price)
  {
    seq(|levels|, i requires 0 <= i < |levels| => Slot(i, levels[i].price))
  }

  function SlotLe(x: Slot, y: Slot): bool
  {
    x.price <= y.price
  }

  function Pending(levels: seq<Level>): Slot -> bool
  {
    (s: Slot) => s.index < |levels| && !levels[s.index].executed
  }

  /** `remainingLevels.find`: the first entry whose price has been reached. */
  function FindHit(slots: seq<Slot>, price: int): Option<Slot>
  {
    if slots == [] then None
    else if price >= slots[0].price then Some(slots[0])
    else FindHit(slots[1..], price)
  }

  function HitLevel(levels: seq<Level>, price: int): Option<Slot>
  {
    FindHit(Sort(Filter(Slots(levels), Pending(levels)), SlotLe), price)
  }

  predicate AllExecuted(levels: seq<Level>)
  {
    forall i :: 0 <= i < |levels| ==> levels[i].executed
  }

  lemma {:induction false} FindHitMember(slots: seq<Slot>, price: int)
    ensures FindHit(slots, price).Some? ==> FindHit(slots, price).value in slots
  {
    if slots != [] && price < slots[0].price {
      FindHitMember(slots[1..], price);
    }
  }

  lemma HitLevelInRange(levels: seq<Level>, price: int)
    ensures HitLevel(levels, price).Some? ==> HitLevel(levels, price).value.index < |levels|
  {
    var pending := Filter(Slots(levels), Pending(levels));
    FindHitMember(Sort(pending, SlotLe), price);
    SortMembers(pending, SlotLe);
    FilterMembers(Slots(levels), Pending(levels));
  }

  /** The part of a quantity that a close percentage stands for. */
  function Share(quantity: real, percent: real): real
  {
    quantity * percent / 100.0
  }

  /** `checkMultiLevel`: sells for one level per tick; its errors are not caught. */
  function LevelStep(w: World, levels: seq<Level>, price: int, f: Faults): StepResult
  {
    HitLevelInRange(levels, price);
    match HitLevel(levels, price)
    case None => StepResult(w, false, false)
    case Some(slot) =>
      var toSell := Share(w.row.quantity, levels[slot.index].closePercent);
      var sale := Sell(w, toSell, price, f.profitOrder);
      match sale.price
      case None => StepResult(sale.world, false, true)
      case Some(executed) =>
        var marked := levels[slot.index := levels[slot.index].(executed := true)];
        var row := w.row.(takeProfitLevels := Some(marked));
        var after := if AllExecuted(marked) then Closed(row, executed, TAKE_PROFIT_ALL_LEVELS)
                     else row.(quantity := row.quantity - toSell);
        StepResult(Save(sale.world.(row := after), f.profitSave), f.profitSave.Done?, !f.profitSave.Done?)
  }

  function ProfitStep(w: World, price: int, f: Faults): StepResult
  {
    var row := w.row;
    if !Truthy(row.takeProfitPrice) || row.status != OPEN then StepResult(w, false, false)
    else if row.takeProfitLevels.Some? && row.takeProfitLevels.value != [] then
      LevelStep(w, row.takeProfitLevels.value, price, f)
    else if price < row.takeProfitPrice.value then StepResult(w, false, false)
    else
      var sale := Sell(w, Share(row.quantity, 100.0), price, f.profitOrder);
      match sale.price
      case None => StepResult(sale.world, false, false)
      case Some(executed) =>
        var closed := sale.world.(row := Closed(row, executed, TAKE_PROFIT));
        StepResult(Save(closed, f.profitSave), f.profitSave.Done?, false)
  }

  /** What a take-profit check sells, and the position once that is saved. */
  datatype Sale = Sale(quantity: real, after: Row)

  function LevelSale(row: Row, levels: seq<Level>, price: int): Option<Sale>
  {
    HitLevelInRange(levels, price);
    match HitLevel(levels, price)
    case None => None
    case Some(slot) =>
      var toSell := Share(row.quantity, levels[slot.index].closePercent);
      var marked := levels[slot.index := levels[slot.index].(executed := true)];
      var passed := row.(takeProfitLevels := Some(marked));
      Some(Sale(toSell, if AllExecuted(marked) then Closed(passed, price, TAKE_PROFIT_ALL_LEVELS)
                        else passed.(quantity := row.quantity - toSell)))
  }

  function ProfitSale(row: Row, price: int): Option<Sale>
  {
    if !Truthy(row.takeProfitPrice) || row.status != OPEN then None
    else if row.takeProfitLevels.Some? && row.takeProfitLevels.value != [] then
      LevelSale(row, row.takeProfitLevels.value, price)
    else if price < row.takeProfitPrice.value then None
    else Some(Sale(Share(row.quantity, 100.0), Closed(row, price, TAKE_PROFIT)))
  }

  /** A take-profit check is its sale, then its save. */
  lemma ProfitStepIsSale(w: World, price: int, f: Faults)
    ensures var sale := ProfitSale(w.row, price);
            ProfitStep(w, price, f).world ==
            if sale.None? then w
            else
              var sold := Sell(w, sale.value.quantity, price, f.profitOrder);
              if sold.price.None? then sold.world else Save(sold.world.(row := sale.value.after), f.profitSave)
  {
  }

  // -------------------------------------------------------------- the tick

  datatype TickResult = TickResult(world: World, trailed: bool, stopped: bool, profited: bool, failed: bool)

  /** `processPosition`: trail, then stop-loss, then take-profit. */
  function Process(w: World, price: Option<int>, f: Faults): TickResult
  {
    if price.None? || price.value <= 0 then TickResult(w, false, false, false, true)
    else
      var trail := TrailStep(w, price.value, f.trailSave);
      if trail.threw then TickResult(trail.world, false, false, false, true)
      else
        var stop := StopStep(trail.world, price.value, f);
        if stop.hit then TickResult(stop.world, trail.hit, true, false, false)
        else
          var profit := ProfitStep(stop.world, price.value, f);
          TickResult(profit.world, trail.hit, false, profit.hit, profit.threw)
  }

  // ------------------------------------------------- the life of a position

  /** What survives between ticks: the saved row and the exit orders. */
  datatype State = State(row: Row, exits: seq<Order>)

  datatype Event =
    | Tick(price: Option<int>, faults: Faults)
    | SetStop(stop: int, trailing: Option<bool>, percent: Option<int>, save: Write)

  /** Each tick loads the open positions afresh from the database. */
  function TickState(s: State, price: Option<int>, f: Faults): State
  {
    if s.row.status != OPEN then s
    else
      var w := Process(World(s.row, s.row, s.exits), price, f).world;
      State(w.saved, w.exits)
  }

  /** `setStopLoss`: refused unless the position is open and the stop lies below the entry price. */
  function SetStopRow(row: Row, stop: int, trailing: Option<bool>, percent: Option<int>): Option<Row>
  {
    if row.status != OPEN || stop >= row.entryPrice then None
    else Some(row.(
      stopLossPrice := Some(stop),
      isTrailingStop := OrElse(trailing, false),
      trailingPercent := Some(OrElse(percent, DEFAULT_TRAILING)),
      highestPrice := Some(row.entryPrice)))
  }

  function Step(s: State, e: Event): State
  {
    match e
    case Tick(price, f) => TickState(s, price, f)
    case SetStop(stop, trailing, percent, save) =>
      var r := SetStopRow(s.row, stop, trailing, percent);
      if r.None? || save.Refused? then s else s.(row := r.value)
  }

  function Run(s: State, es: seq<Event>): State
  {
    if es == [] then s else Step(Run(s, es[..|es| - 1]), es[|es| - 1])
  }

  /** One tick per price, with every write succeeding. */
  function Ticks(prices: seq<int>): seq<Event>
  {
    seq(|prices|, i requires 0 <= i < |prices| => Tick(Some(prices[i]), NO_FAULTS))
  }

  lemma TwoSteps(s: State, first: Event, second: Event)
    ensures Run(s, [first, second]) == Step(Step(s, first), second)
  {
    assert [first, second][..1] == [first] && [first][..0] == [];
    assert Run(s, [first]) == Step(Run(s, []), first);
  }
}
