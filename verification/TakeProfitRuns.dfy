/**
 * Multi-level take-profit over every price run
 * (src/Automated Stop-Loss and Take-Profit System/take-profit.service.ts).
 *
 * The service keeps an `executed` flag per level in the stored list. Its runs
 * are compared with a small machine that walks through the levels in price order.
 */
module TakeProfitRuns {

  import opened Options
  import opened Positions
  import opened Sorting

  // --------------------------------------------------- levels in price order

  lemma SlotLePreorder()
    ensures TotalPreorder(SlotLe)
  {
  }

  /** The levels by ascending price; equal prices keep their listed order. */
  function PriceOrder(levels: seq<Level>): seq<Slot>
  {
    Sort(Slots(levels), SlotLe)
  }

  function OtherIndex(x: Slot, y: Slot): bool
  {
    x.index != y.index
  }

  /** The order lists every level exactly once, cheapest first. */
  lemma PriceOrderIsPermutation(levels: seq<Level>)
    ensures |PriceOrder(levels)| == |levels|
    ensures forall i :: 0 <= i < |levels| ==>
              && PriceOrder(levels)[i].index < |levels|
              && PriceOrder(levels)[i].price == levels[PriceOrder(levels)[i].index].price
    ensures Sorted(PriceOrder(levels), OtherIndex)
    ensures Sorted(PriceOrder(levels), SlotLe)
  {
    SlotLePreorder();
    SortPermutes(Slots(levels), SlotLe);
    SortMembers(Slots(levels), SlotLe);
    SortPairwise(Slots(levels), SlotLe, OtherIndex);
    SortSorts(Slots(levels), SlotLe);
    forall i | 0 <= i < |levels|
      ensures PriceOrder(levels)[i].index < |levels|
      ensures PriceOrder(levels)[i].price == levels[PriceOrder(levels)[i].index].price
    {
      assert PriceOrder(levels)[i] in Slots(levels);
    }
  }

  /** Exactly the first `n` levels in price order carry the executed flag. */
  ghost predicate ExecutedPrefix(start: seq<Level>, levels: seq<Level>, n: nat)
  {
    && n <= |start| == |levels|
    && (forall i :: 0 <= i < |levels| ==>
          levels[i].price == start[i].price && levels[i].closePercent == start[i].closePercent)
    && |PriceOrder(start)| == |start|
    && forall k :: 0 <= k < |start| ==>
         PriceOrder(start)[k].index < |levels| && (levels[PriceOrder(start)[k].index].executed <==> k < n)
  }

  lemma {:induction false} FilterSuffix(s: seq<Slot>, keep: Slot -> bool, n: nat)
    requires n <= |s| && forall k :: 0 <= k < |s| ==> (keep(s[k]) <==> k >= n)
    ensures Filter(s, keep) == s[n..]
  {
    if s != [] {
      if n == 0 {
        assert keep(s[0]);
        FilterSuffix(s[1..], keep, 0);
      } else {
        assert !keep(s[0]);
        FilterSuffix(s[1..], keep, n - 1);
        assert s[1..][n - 1..] == s[n..];
      }
    }
  }

  lemma {:induction false} FindHitIsHead(s: seq<Slot>, price: int)
    requires Sorted(s, SlotLe)
    ensures FindHit(s, price) == if s != [] && price >= s[0].price then Some(s[0]) else None
  {
    if s != [] && price < s[0].price {
      SortedTail(s, SlotLe);
      FindHitIsHead(s[1..], price);
      if |s| > 1 {
        assert s[1] in s[1..];
      }
    }
  }

  /** The level hit is always the next one in price order. */
  lemma HitIsNext(start: seq<Level>, levels: seq<Level>, n: nat, price: int)
    requires ExecutedPrefix(start, levels, n)
    ensures HitLevel(levels, price) ==
            if n < |start| && price >= PriceOrder(start)[n].price then Some(PriceOrder(start)[n]) else None
  {
    var order := PriceOrder(start);
    assert Slots(levels) == Slots(start);
    SlotLePreorder();
    SortFilter(Slots(levels), Pending(levels), SlotLe);
    FilterSuffix(order, Pending(levels), n);
    SortSorts(Slots(start), SlotLe);
    assert Sorted(order[n..], SlotLe);
    FindHitIsHead(order[n..], price);
  }

  function Mark(levels: seq<Level>, i: nat): seq<Level>
    requires i < |levels|
  {
    levels[i := levels[i].(executed := true)]
  }

  lemma MarkNext(start: seq<Level>, levels: seq<Level>, n: nat)
    requires ExecutedPrefix(start, levels, n) && n < |start|
    ensures ExecutedPrefix(start, Mark(levels, PriceOrder(start)[n].index), n + 1)
    ensures AllExecuted(Mark(levels, PriceOrder(start)[n].index)) <==> n + 1 == |start|
  {
    PriceOrderIsPermutation(start);
    var order, marked := PriceOrder(start), Mark(levels, PriceOrder(start)[n].index);
    forall k | 0 <= k < |start|
      ensures marked[order[k].index].executed <==> k < n + 1
    {
      assert k < n ==> OtherIndex(order[k], order[n]);
      assert k > n ==> OtherIndex(order[n], order[k]);
    }
    PrefixIsAll(start, marked, n + 1);
  }

  lemma PrefixIsAll(start: seq<Level>, levels: seq<Level>, n: nat)
    requires ExecutedPrefix(start, levels, n)
    ensures AllExecuted(levels) <==> n == |start|
  {
    var order := PriceOrder(start);
    SortMembers(Slots(start), SlotLe);
    if n == |start| {
      forall i | 0 <= i < |levels|
        ensures levels[i].executed
      {
        assert Slots(start)[i] in order;
        var k :| 0 <= k < |order| && order[k] == Slots(start)[i];
      }
    } else {
      assert !levels[order[n].index].executed;
    }
  }

  // ------------------------------------------------------------ quantities

  /** The fraction kept after the first `n` levels: the product of all 1 - percent / 100. */
  function Kept(levels: seq<Level>, n: nat): real
    requires n <= |levels|
  {
    if n == 0 then 1.0 else Kept(levels, n - 1) * (1.0 - Percent(levels, n - 1) / 100.0)
  }

  /** What is left of quantity `q` after the first `n` levels each sold their share of the rest. */
  function Left(q: real, levels: seq<Level>, n: nat): real
    requires n <= |levels|
  {
    if n == 0 then q else Left(q, levels, n - 1) - Share(Left(q, levels, n - 1), Percent(levels, n - 1))
  }

  lemma {:induction false} LeftIsProduct(q: real, levels: seq<Level>, n: nat)
    requires n <= |levels|
    ensures Left(q, levels, n) == q * Kept(levels, n)
  {
    if n > 0 {
      LeftIsProduct(q, levels, n - 1);
      KeepStep(q, Kept(levels, n - 1), Percent(levels, n - 1));
    }
  }

  lemma KeepStep(q: real, kept: real, percent: real)
    ensures q * kept - Share(q * kept, percent) == q * (kept * (1.0 - percent / 100.0))
  {
    assert q * kept * percent / 100.0 == q * (kept * (percent / 100.0));
  }

  function Percent(levels: seq<Level>, k: nat): real
  {
    PriceOrderIsPermutation(levels);
    if k < |levels| then levels[PriceOrder(levels)[k].index].closePercent else 0.0
  }

  function Sold(exits: seq<Order>): real
  {
    if exits == [] then 0.0 else Sold(exits[..|exits| - 1]) + exits[|exits| - 1].quantity
  }

  // ---------------------------------------------------- runs and the machine

  /** An open position with levels to reach and no stop-loss. */
  ghost predicate ProfitOnly(row: Row)
  {
    && row.status == OPEN && !Truthy(row.stopLossPrice) && Truthy(row.takeProfitPrice)
    && row.takeProfitLevels.Some? && row.takeProfitLevels.value != []
    && forall i :: 0 <= i < |row.takeProfitLevels.value| ==> !row.takeProfitLevels.value[i].executed
  }

  /**
   * The simple machine: how many levels have been passed, how many orders were
   * committed without the position being saved, and what those orders sold.
   */
  datatype Machine = Machine(passed: nat, lost: nat, extra: real)

  /** The machine moves only on a price that reaches the next level and an order that is not refused. */
  function Advance(levels: seq<Level>, q: real, m: Machine, e: Event): (r: Machine)
    requires m.passed <= |levels|
    ensures r.passed <= |levels|
  {
    PriceOrderIsPermutation(levels);
    if !e.Tick? || e.price.None? || e.price.value <= 0 || m.passed == |levels| then m
    else if e.price.value < PriceOrder(levels)[m.passed].price || e.faults.profitOrder.Refused? then m
    else if e.faults.profitOrder.Unacknowledged? || e.faults.profitSave.Refused? then
      Machine(m.passed, m.lost + 1, m.extra + Share(Left(q, levels, m.passed), Percent(levels, m.passed)))
    else Machine(m.passed + 1, m.lost, m.extra)
  }

  function RunMachine(levels: seq<Level>, q: real, es: seq<Event>): (m: Machine)
    ensures m.passed <= |levels|
  {
    if es == [] then Machine(0, 0, 0.0)
    else Advance(levels, q, RunMachine(levels, q, es[..|es| - 1]), es[|es| - 1])
  }

  /** The stored position that belongs to a state of the machine. */
  ghost predicate AtCount(s: State, levels: seq<Level>, m: Machine, r: State)
  {
    && m.passed <= |levels| && levels != []
    && !Truthy(r.row.stopLossPrice) && Truthy(r.row.takeProfitPrice)
    && r.row.takeProfitLevels.Some? && ExecutedPrefix(levels, r.row.takeProfitLevels.value, m.passed)
    && |r.exits| == |s.exits| + m.passed + m.lost
    && Sold(r.exits) == Sold(s.exits) + s.row.quantity - Left(s.row.quantity, levels, m.passed) + m.extra
    && (if m.passed < |levels|
        then r.row.status == OPEN && r.row.quantity == Left(s.row.quantity, levels, m.passed)
        else r.row.status == CLOSED && r.row.exitReason == Some(TAKE_PROFIT_ALL_LEVELS) && r.exits != [] &&
             r.row.exitPrice == r.exits[|r.exits| - 1].filledPrice)
  }

  lemma StartsAtZero(s: State)
    requires ProfitOnly(s.row)
    ensures AtCount(s, s.row.takeProfitLevels.value, Machine(0, 0, 0.0), s)
  {
    PriceOrderIsPermutation(s.row.takeProfitLevels.value);
  }

  lemma SoldOneMore(exits: seq<Order>, o: Order)
    ensures Sold(exits + [o]) == Sold(exits) + o.quantity
  {
    assert (exits + [o])[..|exits|] == exits;
  }

  /** Without a stop-loss a tick is a take-profit check. */
  lemma TickIsProfitStep(r: State, price: int, f: Faults)
    requires r.row.status == OPEN && !Truthy(r.row.stopLossPrice) && price > 0
    ensures var w := ProfitStep(World(r.row, r.row, r.exits), price, f).world;
            TickState(r, Some(price), f) == State(w.saved, w.exits)
  {
  }

  /** The row after level `i` was sold and saved. */
  function LevelRow(row: Row, levels: seq<Level>, i: nat, price: int): Row
    requires i < |levels|
  {
    var marked := row.(takeProfitLevels := Some(Mark(levels, i)));
    if AllExecuted(Mark(levels, i)) then Closed(marked, price, TAKE_PROFIT_ALL_LEVELS)
    else marked.(quantity := row.quantity - Share(row.quantity, levels[i].closePercent))
  }

  /** What a tick that hits a level leaves in the database, for every outcome of its two writes. */
  lemma LevelTick(r: State, price: int, f: Faults, levels: seq<Level>, slot: Slot)
    requires r.row.status == OPEN && !Truthy(r.row.stopLossPrice) && Truthy(r.row.takeProfitPrice) && price > 0
    requires r.row.takeProfitLevels == Some(levels) && HitLevel(levels, price) == Some(slot)
    ensures slot.index < |levels|
    ensures var sold := r.exits + [ExitOrder(r.row, Share(r.row.quantity, levels[slot.index].closePercent), price)];
            TickState(r, Some(price), f) ==
            if f.profitOrder.Refused? then r
            else if f.profitOrder.Unacknowledged? || f.profitSave.Refused? then State(r.row, sold)
            else State(LevelRow(r.row, levels, slot.index, price), sold)
  {
    HitLevelInRange(levels, price);
    TickIsProfitStep(r, price, f);
    var w := World(r.row, r.row, r.exits);
    assert ProfitStep(w, price, f) == LevelStep(w, levels, price, f);
    assert LevelStep(w, levels, price, f).world.saved ==
           if f.profitOrder.Done? && !f.profitSave.Refused? then LevelRow(r.row, levels, slot.index, price) else r.row;
    assert LevelStep(w, levels, price, f).world.exits ==
           if f.profitOrder.Refused? then r.exits
           else r.exits + [ExitOrder(r.row, Share(r.row.quantity, levels[slot.index].closePercent), price)];
  }

  lemma HitMovesMachine(s: State, levels: seq<Level>, m: Machine, r: State, e: Event)
    requires AtCount(s, levels, m, r) && e.Tick? && e.price.Some? && e.price.value > 0
    requires m.passed < |levels| && e.price.value >= PriceOrder(levels)[m.passed].price
    ensures AtCount(s, levels, Advance(levels, s.row.quantity, m, e), Step(r, e))
  {
    var now, price := r.row.takeProfitLevels.value, e.price.value;
    HitIsNext(levels, now, m.passed, price);
    LevelTick(r, price, e.faults, now, PriceOrder(levels)[m.passed]);
    if e.faults.profitOrder.Refused? {
    } else if e.faults.profitOrder.Unacknowledged? || e.faults.profitSave.Refused? {
      LevelLost(s, levels, m, r, price);
    } else {
      LevelPassed(s, levels, m, r, price);
    }
  }

  lemma TickMovesMachine(s: State, levels: seq<Level>, m: Machine, r: State, e: Event)
    requires AtCount(s, levels, m, r) && e.Tick?
    ensures AtCount(s, levels, Advance(levels, s.row.quantity, m, e), Step(r, e))
  {
    if m.passed < |levels| && e.price.Some? && e.price.value > 0 {
      if e.price.value >= PriceOrder(levels)[m.passed].price {
        HitMovesMachine(s, levels, m, r, e);
      } else {
        HitIsNext(levels, r.row.takeProfitLevels.value, m.passed, e.price.value);
        TickIsProfitStep(r, e.price.value, e.faults);
      }
    }
  }

  lemma LevelPassed(s: State, levels: seq<Level>, m: Machine, r: State, price: int)
    requires AtCount(s, levels, m, r) && m.passed < |levels|
    ensures var now, i := r.row.takeProfitLevels.value, PriceOrder(levels)[m.passed].index;
            AtCount(s, levels, m.(passed := m.passed + 1),
                    State(LevelRow(r.row, now, i, price),
                          r.exits + [ExitOrder(r.row, Share(r.row.quantity, now[i].closePercent), price)]))
  {
    var now, i := r.row.takeProfitLevels.value, PriceOrder(levels)[m.passed].index;
    MarkNext(levels, now, m.passed);
    PriceOrderIsPermutation(levels);
    assert now[i].closePercent == Percent(levels, m.passed);
    SoldOneMore(r.exits, ExitOrder(r.row, Share(r.row.quantity, now[i].closePercent), price));
  }

  lemma LevelLost(s: State, levels: seq<Level>, m: Machine, r: State, price: int)
    requires AtCount(s, levels, m, r) && m.passed < |levels|
    ensures var now, i := r.row.takeProfitLevels.value, PriceOrder(levels)[m.passed].index;
            var share := Share(Left(s.row.quantity, levels, m.passed), Percent(levels, m.passed));
            AtCount(s, levels, m.(lost := m.lost + 1, extra := m.extra + share),
                    State(r.row, r.exits + [ExitOrder(r.row, Share(r.row.quantity, now[i].closePercent), price)]))
  {
    var now, i := r.row.takeProfitLevels.value, PriceOrder(levels)[m.passed].index;
    PriceOrderIsPermutation(levels);
    assert now[i].closePercent == Percent(levels, m.passed);
    SoldOneMore(r.exits, ExitOrder(r.row, Share(r.row.quantity, now[i].closePercent), price));
  }

  /**
   * For every run of ticks and every failure: the executed levels are a prefix
   * of the levels in price order, what is left follows the levels passed, every
   * order beyond one per level comes from a save that was lost, and the
   * position closes when the last level is passed.
   */
  lemma {:induction false} LevelsFollowMachine(s: State, es: seq<Event>)
    requires ProfitOnly(s.row) && forall i :: 0 <= i < |es| ==> es[i].Tick?
    ensures var levels := s.row.takeProfitLevels.value;
            AtCount(s, levels, RunMachine(levels, s.row.quantity, es), Run(s, es))
  {
    var levels := s.row.takeProfitLevels.value;
    if es == [] {
      StartsAtZero(s);
    } else {
      var front, e := es[..|es| - 1], es[|es| - 1];
      LevelsFollowMachine(s, front);
      TickMovesMachine(s, levels, RunMachine(levels, s.row.quantity, front), Run(s, front), e);
    }
  }

  /** The tick reaches the next level and its order commits, but the position is not saved. */
  predicate LosesLevel(levels: seq<Level>, m: Machine, e: Event)
  {
    PriceOrderIsPermutation(levels);
    && e.Tick? && e.price.Some? && e.price.value > 0
    && m.passed < |levels| && e.price.value >= PriceOrder(levels)[m.passed].price
    && (e.faults.profitOrder.Unacknowledged? || (e.faults.profitOrder.Done? && e.faults.profitSave.Refused?))
  }

  predicate LosesLevelAt(levels: seq<Level>, q: real, es: seq<Event>, n: nat)
  {
    n < |es| && LosesLevel(levels, RunMachine(levels, q, es[..n]), es[n])
  }

  lemma LosesLevelInPrefix(levels: seq<Level>, q: real, es: seq<Event>, n: nat)
    requires n < |es| - 1
    ensures LosesLevelAt(levels, q, es, n) <==> LosesLevelAt(levels, q, es[..|es| - 1], n)
  {
    assert es[..|es| - 1][..n] == es[..n];
  }

  /** Over a run no order exceeds one per level iff no tick commits a level's order and loses its save. */
  lemma {:induction false} NoLevelLostIff(levels: seq<Level>, q: real, es: seq<Event>)
    ensures RunMachine(levels, q, es).lost == 0 <==>
            forall n :: 0 <= n < |es| ==> !LosesLevelAt(levels, q, es, n)
    ensures RunMachine(levels, q, es).lost == 0 ==> RunMachine(levels, q, es).extra == 0.0
  {
    if es != [] {
      var front, last := es[..|es| - 1], |es| - 1;
      NoLevelLostIff(levels, q, front);
      forall n | 0 <= n < last
        ensures LosesLevelAt(levels, q, es, n) <==> LosesLevelAt(levels, q, front, n)
      {
        LosesLevelInPrefix(levels, q, es, n);
      }
      assert LosesLevelAt(levels, q, es, last) <==> LosesLevel(levels, RunMachine(levels, q, front), es[last]);
    }
  }

  // ----------------------------------------------------------- one target

  /** An open position with a single take-profit price, no levels and no stop-loss. */
  ghost predicate SingleTarget(row: Row)
  {
    && row.status == OPEN && !Truthy(row.stopLossPrice) && Truthy(row.takeProfitPrice)
    && (row.takeProfitLevels.None? || row.takeProfitLevels.value == [])
  }

  /** Orders committed without the position being saved, and the price at which the position closed. */
  datatype Target = Target(lost: nat, closedAt: Option<int>)

  /** A price at the target with an order that is not refused. */
  predicate SellsAtTarget(target: int, m: Target, e: Event)
  {
    && m.closedAt.None? && e.Tick? && e.price.Some? && e.price.value > 0
    && e.price.value >= target && !e.faults.profitOrder.Refused?
  }

  /** The order commits, but the position is not saved. */
  predicate LosesSave(target: int, m: Target, e: Event)
  {
    SellsAtTarget(target, m, e) && (e.faults.profitOrder.Unacknowledged? || e.faults.profitSave.Refused?)
  }

  function NextTarget(target: int, m: Target, e: Event): Target
  {
    if LosesSave(target, m, e) then Target(m.lost + 1, None)
    else if SellsAtTarget(target, m, e) then Target(m.lost, e.price)
    else m
  }

  function RunTarget(target: int, es: seq<Event>): Target
  {
    if es == [] then Target(0, None) else NextTarget(target, RunTarget(target, es[..|es| - 1]), es[|es| - 1])
  }

  function Sales(m: Target): nat
  {
    m.lost + if m.closedAt.Some? then 1 else 0
  }

  /** Every order sells the whole quantity. */
  ghost predicate AtTarget(s: State, m: Target, r: State)
  {
    && r.row == (if m.closedAt.Some? then Closed(s.row, m.closedAt.value, TAKE_PROFIT) else s.row)
    && |r.exits| == |s.exits| + Sales(m)
    && Sold(r.exits) == Sold(s.exits) + Times(Sales(m), s.row.quantity)
  }

  /** What a tick leaves in the database, for every outcome of its two writes. */
  lemma SingleTargetTick(s: State, price: int, f: Faults)
    requires SingleTarget(s.row) && price > 0
    ensures var sold := s.exits + [ExitOrder(s.row, s.row.quantity, price)];
            TickState(s, Some(price), f) ==
            if price < s.row.takeProfitPrice.value || f.profitOrder.Refused? then s
            else if f.profitOrder.Unacknowledged? || f.profitSave.Refused? then State(s.row, sold)
            else State(Closed(s.row, price, TAKE_PROFIT), sold)
  {
    TickIsProfitStep(s, price, f);
    assert Share(s.row.quantity, 100.0) == s.row.quantity;
  }

  function Times(n: nat, q: real): real
  {
    (n as real) * q
  }

  lemma OneMoreSale(n: nat, q: real)
    ensures Times(n + 1, q) == Times(n, q) + q
  {
  }

  lemma SaleCounted(s: State, m: Target, r: State, price: int)
    requires AtTarget(s, m, r) && m.closedAt.None?
    ensures var sold := r.exits + [ExitOrder(s.row, s.row.quantity, price)];
            && AtTarget(s, Target(m.lost + 1, None), State(s.row, sold))
            && AtTarget(s, Target(m.lost, Some(price)), State(Closed(s.row, price, TAKE_PROFIT), sold))
  {
    SoldOneMore(r.exits, ExitOrder(s.row, s.row.quantity, price));
    OneMoreSale(Sales(m), s.row.quantity);
  }

  lemma TickMovesTarget(s: State, m: Target, r: State, e: Event)
    requires SingleTarget(s.row) && AtTarget(s, m, r) && e.Tick?
    ensures AtTarget(s, NextTarget(s.row.takeProfitPrice.value, m, e), Step(r, e))
  {
    if m.closedAt.None? && e.price.Some? && e.price.value > 0 {
      SingleTargetTick(r, e.price.value, e.faults);
      SaleCounted(s, m, r, e.price.value);
    }
  }

  /**
   * For every run and every failure: one order for the whole quantity per lost
   * save, plus one if the position closed, at the price it closed at.
   */
  lemma {:induction false} SingleTargetFollowsMachine(s: State, es: seq<Event>)
    requires SingleTarget(s.row) && forall i :: 0 <= i < |es| ==> es[i].Tick?
    ensures AtTarget(s, RunTarget(s.row.takeProfitPrice.value, es), Run(s, es))
  {
    if es != [] {
      var front, e := es[..|es| - 1], es[|es| - 1];
      SingleTargetFollowsMachine(s, front);
      TickMovesTarget(s, RunTarget(s.row.takeProfitPrice.value, front), Run(s, front), e);
    }
  }

  lemma {:induction false} NothingLostIff(target: int, es: seq<Event>)
    ensures RunTarget(target, es).lost == 0 <==>
            forall n :: 0 <= n < |es| ==> !LosesSaveAt(target, es, n)
  {
    if es != [] {
      var front, last := es[..|es| - 1], |es| - 1;
      NothingLostIff(target, front);
      assert forall n :: 0 <= n < last ==> front[..n] == es[..n];
      assert forall n :: 0 <= n < last ==> (LosesSaveAt(target, es, n) <==> LosesSaveAt(target, front, n));
      assert LosesSaveAt(target, es, last) <==> LosesSave(target, RunTarget(target, front), es[last]);
    }
  }

  predicate LosesSaveAt(target: int, es: seq<Event>, n: nat)
  {
    n < |es| && LosesSave(target, RunTarget(target, es[..n]), es[n])
  }

  lemma SalesAreOne(k: nat, q: real)
    ensures Times(k, q) == q <==> k == 1 || q == 0.0
  {
    assert (k as real) * q - q == ((k as real) - 1.0) * q;
    ProductZero((k as real) - 1.0, q);
  }

  /** A closed position was sold exactly once iff no committed order lost its save on the way. */
  lemma SingleTargetSoldOnceIff(s: State, es: seq<Event>)
    requires SingleTarget(s.row) && forall i :: 0 <= i < |es| ==> es[i].Tick?
    requires Run(s, es).row.status == CLOSED
    ensures Sold(Run(s, es).exits) == Sold(s.exits) + s.row.quantity <==>
            s.row.quantity == 0.0 ||
            forall n :: 0 <= n < |es| ==> !LosesSaveAt(s.row.takeProfitPrice.value, es, n)
  {
    var m := RunTarget(s.row.takeProfitPrice.value, es);
    SingleTargetFollowsMachine(s, es);
    NothingLostIff(s.row.takeProfitPrice.value, es);
    SalesAreOne(Sales(m), s.row.quantity);
    assert m.closedAt.Some? && (Sales(m) == 1 <==> m.lost == 0);
  }

  /** A run that sells the position twice: the first save at the target is lost. */
  lemma SoldTwiceRun()
    ensures var row := Row("p", "XLM", 100, 8.0, OPEN, None, false, None, None, Some(120), None, None, None);
            var es := [Tick(Some(120), NO_FAULTS.(profitSave := Refused)), Tick(Some(125), NO_FAULTS)];
            var r := Run(State(row, []), es);
            r.row.status == CLOSED && |r.exits| == 2 && Sold(r.exits) == 16.0
  {
    var row := Row("p", "XLM", 100, 8.0, OPEN, None, false, None, None, Some(120), None, None, None);
    var first, second := Tick(Some(120), NO_FAULTS.(profitSave := Refused)), Tick(Some(125), NO_FAULTS);
    TwoSteps(State(row, []), first, second);
    SingleTargetTick(State(row, []), 120, first.faults);
    SingleTargetTick(Step(State(row, []), first), 125, NO_FAULTS);
    SoldOneMore([], ExitOrder(row, 8.0, 120));
    SoldOneMore([] + [ExitOrder(row, 8.0, 120)], ExitOrder(row, 8.0, 125));
  }

  // ------------------------------------------------------ what stays unsold

  lemma {:induction false} KeptIsZero(levels: seq<Level>, n: nat)
    requires n <= |levels|
    ensures Kept(levels, n) == 0.0 <==> exists k :: 0 <= k < n && Percent(levels, k) == 100.0
  {
    if n > 0 {
      KeptIsZero(levels, n - 1);
      var kept, factor := Kept(levels, n - 1), 1.0 - Percent(levels, n - 1) / 100.0;
      ProductZero(kept, factor);
      assert factor == 0.0 <==> Percent(levels, n - 1) == 100.0;
    }
  }

  lemma ProductZero(a: real, b: real)
    ensures a * b == 0.0 <==> a == 0.0 || b == 0.0
  {
  }

  lemma SomeLevelClosesAll(levels: seq<Level>)
    ensures (exists k :: 0 <= k < |levels| && Percent(levels, k) == 100.0) <==>
            (exists i :: 0 <= i < |levels| && levels[i].closePercent == 100.0)
  {
    PriceOrderIsPermutation(levels);
    SortMembers(Slots(levels), SlotLe);
    var order := PriceOrder(levels);
    if i :| 0 <= i < |levels| && levels[i].closePercent == 100.0 {
      assert Slots(levels)[i] in order;
      var k :| 0 <= k < |order| && order[k] == Slots(levels)[i];
      assert Percent(levels, k) == 100.0;
    }
    if k :| 0 <= k < |levels| && Percent(levels, k) == 100.0 {
      assert levels[order[k].index].closePercent == 100.0;
    }
  }

  lemma NothingLeftIff(q: real, levels: seq<Level>)
    ensures Left(q, levels, |levels|) == 0.0 <==>
            q == 0.0 || exists i :: 0 <= i < |levels| && levels[i].closePercent == 100.0
  {
    KeptIsZero(levels, |levels|);
    SomeLevelClosesAll(levels);
    LeftIsProduct(q, levels, |levels|);
    ProductZero(q, Kept(levels, |levels|));
  }

  lemma ClosedPassedAll(s: State, levels: seq<Level>, m: Machine, r: State)
    requires AtCount(s, levels, m, r) && r.row.status == CLOSED
    ensures |r.exits| == |s.exits| + |levels| + m.lost
    ensures Sold(r.exits) == Sold(s.exits) + s.row.quantity - Left(s.row.quantity, levels, |levels|) + m.extra
  {
  }

  /** What a position closed by its last level has sold, whatever failed on the way. */
  lemma SoldWhenClosed(s: State, es: seq<Event>)
    requires ProfitOnly(s.row) && forall i :: 0 <= i < |es| ==> es[i].Tick?
    requires Run(s, es).row.status == CLOSED
    ensures var levels := s.row.takeProfitLevels.value;
            var m := RunMachine(levels, s.row.quantity, es);
            && |Run(s, es).exits| == |s.exits| + |levels| + m.lost
            && Sold(Run(s, es).exits) ==
               Sold(s.exits) + s.row.quantity - Left(s.row.quantity, levels, |levels|) + m.extra
  {
    var levels := s.row.takeProfitLevels.value;
    LevelsFollowMachine(s, es);
    ClosedPassedAll(s, levels, RunMachine(levels, s.row.quantity, es), Run(s, es));
  }

  /**
   * Each level sells a share of what is left, so a position that closes after
   * its last level, with no save lost on the way, is sold completely only if
   * one level closes 100 percent.
   */
  lemma ClosesSoldOutIff(s: State, es: seq<Event>)
    requires ProfitOnly(s.row) && forall i :: 0 <= i < |es| ==> es[i].Tick?
    requires RunMachine(s.row.takeProfitLevels.value, s.row.quantity, es).lost == 0
    requires Run(s, es).row.status == CLOSED
    ensures Sold(Run(s, es).exits) == Sold(s.exits) + s.row.quantity <==>
            s.row.quantity == 0.0 || exists i :: 0 <= i < |s.row.takeProfitLevels.value| &&
                                       s.row.takeProfitLevels.value[i].closePercent == 100.0
  {
    SoldWhenClosed(s, es);
    NoLevelLostIff(s.row.takeProfitLevels.value, s.row.quantity, es);
    NothingLeftIff(s.row.quantity, s.row.takeProfitLevels.value);
  }

  const HALVES := [Level(110, 50.0, false), Level(120, 50.0, false)]

  /** An open position of 8 units with two levels of 50 percent each, and a stop-loss if one is given. */
  function HalvesRow(stop: Option<int>): Row
  {
    Row("p", "XLM", 100, 8.0, OPEN, stop, false, None, Some(100), Some(110), Some(HALVES), None, None)
  }

  lemma FirstHalfSold(stop: Option<int>, price: int)
    requires 110 <= price && (stop.Some? ==> 0 < stop.value < price)
    ensures Step(State(HalvesRow(stop), []), Tick(Some(price), NO_FAULTS)) ==
            State(HalvesRow(stop).(quantity := 4.0, takeProfitLevels := Some([Level(110, 50.0, true), HALVES[1]])),
                  [ExitOrder(HalvesRow(stop), 4.0, price)])
  {
    var row := HalvesRow(stop);
    HalvesStart();
    HitIsNext(HALVES, HALVES, 0, price);
    MarkNext(HALVES, HALVES, 0);
    assert Mark(HALVES, 0) == [Level(110, 50.0, true), HALVES[1]];
    var w := World(row, row, []);
    assert Process(w, Some(price), NO_FAULTS).world == ProfitStep(w, price, NO_FAULTS).world;
    assert ProfitStep(w, price, NO_FAULTS) == LevelStep(w, HALVES, price, NO_FAULTS);
    assert Share(8.0, 50.0) == 4.0;
  }

  lemma HalvesStart()
    ensures ExecutedPrefix(HALVES, HALVES, 0) && PriceOrder(HALVES) == [Slot(0, 110), Slot(1, 120)]
  {
    PriceOrderIsPermutation(HALVES);
    var order := PriceOrder(HALVES);
    assert OtherIndex(order[0], order[1]) && SlotLe(order[0], order[1]);
    assert order == [order[0], order[1]];
  }

  /** Two levels of 50 percent close the position with a quarter of it unsold. */
  lemma TwoHalvesLeaveAQuarter()
    ensures var r := Run(State(HalvesRow(None), []), Ticks([110, 120]));
            r.row.status == CLOSED && |r.exits| == 2 && Sold(r.exits) == 6.0
  {
    var s := State(HalvesRow(None), []);
    FirstHalfSold(None, 110);
    SecondHalfSold();
    TwoSteps(s, Tick(Some(110), NO_FAULTS), Tick(Some(120), NO_FAULTS));
    assert Ticks([110, 120]) == [Tick(Some(110), NO_FAULTS), Tick(Some(120), NO_FAULTS)];
    SoldOneMore([], ExitOrder(s.row, 4.0, 110));
    SoldOneMore([] + [ExitOrder(s.row, 4.0, 110)], ExitOrder(s.row, 2.0, 120));
  }

  lemma SecondHalfSold()
    ensures var row := HalvesRow(None);
            var half := row.(quantity := 4.0, takeProfitLevels := Some([Level(110, 50.0, true), HALVES[1]]));
            var r := Step(State(half, [ExitOrder(row, 4.0, 110)]), Tick(Some(120), NO_FAULTS));
            r.row.status == CLOSED && r.exits == [ExitOrder(row, 4.0, 110), ExitOrder(row, 2.0, 120)]
  {
    var row, levels := HalvesRow(None), [Level(110, 50.0, true), HALVES[1]];
    var half := State(row.(quantity := 4.0, takeProfitLevels := Some(levels)), [ExitOrder(row, 4.0, 110)]);
    HalvesStart();
    MarkNext(HALVES, HALVES, 0);
    assert levels == Mark(HALVES, 0);
    HitIsNext(HALVES, levels, 1, 120);
    LevelTick(half, 120, NO_FAULTS, levels, Slot(1, 120));
    MarkNext(HALVES, levels, 1);
    assert Share(4.0, 50.0) == 2.0;
  }

  // ---------------------------------------------------- failures and mixing

  /**
   * A level that is not the last conserves quantity plus sales exactly when
   * order and position are written together or not at all.
   */
  lemma LevelConservesIff(r: State, price: int, f: Faults)
    requires r.row.status == OPEN && !Truthy(r.row.stopLossPrice) && Truthy(r.row.takeProfitPrice) && price > 0
    requires r.row.takeProfitLevels.Some?
    requires var levels := r.row.takeProfitLevels.value;
             var hit := HitLevel(levels, price);
             hit.Some? && hit.value.index < |levels| && !AllExecuted(Mark(levels, hit.value.index))
    ensures var levels := r.row.takeProfitLevels.value;
            var toSell := Share(r.row.quantity, levels[HitLevel(levels, price).value.index].closePercent);
            var after := TickState(r, Some(price), f);
            after.row.quantity + Sold(after.exits) == r.row.quantity + Sold(r.exits) <==>
            toSell == 0.0 || f.profitOrder == Refused || (f.profitOrder == Done && f.profitSave != Refused)
  {
    var levels := r.row.takeProfitLevels.value;
    var slot := HitLevel(levels, price).value;
    LevelTick(r, price, f, levels, slot);
    var toSell := Share(r.row.quantity, levels[slot.index].closePercent);
    SoldOneMore(r.exits, ExitOrder(r.row, toSell, price));
  }

  /**
   * When the order commits and the position save fails, the row is untouched
   * and one more order exists; take-profit has no lookup, so the next tick at
   * this price sells the same level once more.
   */
  lemma LostSaveRepeatsLevel(r: State, price: int, f: Faults)
    requires r.row.status == OPEN && !Truthy(r.row.stopLossPrice) && Truthy(r.row.takeProfitPrice) && price > 0
    requires r.row.takeProfitLevels.Some? && r.row.takeProfitLevels.value != []
    requires HitLevel(r.row.takeProfitLevels.value, price).Some?
    requires f.profitOrder == Done && f.profitSave == Refused
    ensures var once := TickState(r, Some(price), f);
            var twice := TickState(once, Some(price), NO_FAULTS);
            && once.row == r.row && |once.exits| == |r.exits| + 1
            && |twice.exits| == |r.exits| + 2
            && twice.exits[|r.exits|] == twice.exits[|r.exits| + 1]
  {
    var levels := r.row.takeProfitLevels.value;
    var slot := HitLevel(levels, price).value;
    LevelTick(r, price, f, levels, slot);
    LevelTick(TickState(r, Some(price), f), price, NO_FAULTS, levels, slot);
  }

  /**
   * The stop-loss lookup also finds take-profit orders. Whatever fails, a
   * triggered stop-loss sells what is left iff no exit order exists yet and its
   * own order is placed; after a partial take-profit it closes the position
   * without selling the rest, at the price of the oldest take-profit order.
   */
  lemma StopSellsRestIff(w: World, price: int, f: Faults)
    requires w.row.status == OPEN && w.saved.status == OPEN
    requires Truthy(w.row.stopLossPrice) && price <= w.row.stopLossPrice.value
    ensures var after := StopStep(w, price, f).world;
            && (Sold(after.exits) == Sold(w.exits) + w.row.quantity <==>
                w.row.quantity == 0.0 || (w.exits == [] && f.stopLookup && !f.stopOrder.Refused?))
            && (after.saved.status == CLOSED <==>
                f.stopLookup && (w.exits != [] || f.stopOrder.Done?) && !f.stopSave.Refused?)
            && (after.saved.status == CLOSED ==>
                after.saved.exitPrice ==
                Some(if w.exits == [] then price else OrElse(w.exits[0].filledPrice, price)))
  {
    SoldOneMore(w.exits, ExitOrder(w.row, w.row.quantity, price));
  }

  /** A run in which half the position is never sold, and the exit price is not the stop's. */
  lemma StopAfterHalfRun()
    ensures var r := Run(State(HalvesRow(Some(90)), []), Ticks([110, 90]));
            && r.row.status == CLOSED && r.row.exitReason == Some(STOP_LOSS) && r.row.exitPrice == Some(110)
            && |r.exits| == 1 && Sold(r.exits) == 4.0
  {
    var s := State(HalvesRow(Some(90)), []);
    FirstHalfSold(Some(90), 110);
    TwoSteps(s, Tick(Some(110), NO_FAULTS), Tick(Some(90), NO_FAULTS));
    assert Ticks([110, 90]) == [Tick(Some(110), NO_FAULTS), Tick(Some(90), NO_FAULTS)];
    SoldOneMore([], ExitOrder(s.row, 4.0, 110));
  }
}
