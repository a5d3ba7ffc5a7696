/**
 * Concurrent batches (src/Automated Stop-Loss and Take-Profit System/monitor-positions.job.ts,
 * `Promise.allSettled` over a batch). All positions of a batch work on one
 * positions table and one orders table. Between two database accesses a
 * position's processing runs undisturbed; at each access any other may go on.
 * Every such interleaving ends in the same tables, because no two of them
 * process the same position.
 */
module BatchInterleaving {

  import opened Options
  import opened Positions
  import opened PositionServices
  import opened MonitorJob

  // ------------------------------------------------- one position, in pieces

  /**
   * Where a position's processing stands; each state but the last makes one
   * database access. An order is inserted in a transaction of its own, so it
   * becomes visible with the commit.
   */
  datatype Pc = Trail | Lookup | Commit | Close(executed: int) | Profit | Settle | Finished

  /** The processing of one position: the object in memory, its price and the fate of its accesses. */
  datatype Thread = Thread(pc: Pc, row: Row, price: Option<int>, faults: Faults)

  /** What an access asks of the tables. */
  datatype Request = Nothing | SaveRow(row: Row, outcome: Write) | CommitOrder(order: Order, outcome: Write)

  /** The object with its stop raised, if the price raises it. */
  function Raised(row: Row, price: int): Option<Row>
  {
    if !row.isTrailingStop || row.status != OPEN || !Truthy(row.stopLossPrice) then None
    else if price <= OrElse(row.highestPrice, row.entryPrice) then None
    else
      var newStop := TrailedStop(price, OrElse(row.trailingPercent, DEFAULT_TRAILING));
      if newStop <= row.stopLossPrice.value then None
      else Some(row.(highestPrice := Some(price), stopLossPrice := Some(newStop)))
  }

  predicate StopTriggered(row: Row, price: int)
  {
    Truthy(row.stopLossPrice) && row.status == OPEN && price <= row.stopLossPrice.value
  }

  predicate Active(th: Thread)
  {
    !th.pc.Finished? && th.price.Some? && th.price.value > 0
  }

  function RequestOf(th: Thread): Request
  {
    if !Active(th) then Nothing
    else
      var row, price, f := th.row, th.price.value, th.faults;
      match th.pc
      case Trail =>
        (match Raised(row, price)
         case None => Nothing
         case Some(raised) => SaveRow(raised, f.trailSave))
      case Lookup => Nothing
      case Commit => CommitOrder(ExitOrder(row, row.quantity, price), f.stopOrder)
      case Close(executed) => SaveRow(Closed(row, executed, STOP_LOSS), f.stopSave)
      case Profit =>
        (match ProfitSale(row, price)
         case None => Nothing
         case Some(sale) => CommitOrder(ExitOrder(row, sale.quantity, price), f.profitOrder))
      case Settle => SaveRow(row, f.profitSave)
      case Finished => Nothing
  }

  /** How the processing goes on after its access; `found` is what a lookup of its exit order returns. */
  function Resume(th: Thread, found: Option<Order>): Thread
  {
    if !Active(th) then th.(pc := Finished)
    else
      var row, price, f := th.row, th.price.value, th.faults;
      match th.pc
      case Trail =>
        (match Raised(row, price)
         case None => th.(pc := Lookup)
         case Some(raised) => th.(row := raised, pc := if f.trailSave.Done? then Lookup else Finished))
      case Lookup =>
        if !StopTriggered(row, price) || !f.stopLookup then th.(pc := Profit)
        else if found.Some? then th.(pc := Close(OrElse(found.value.filledPrice, price)))
        else th.(pc := Commit)
      case Commit => th.(pc := if f.stopOrder.Done? then Close(price) else Profit)
      case Close(executed) =>
        th.(row := Closed(row, executed, STOP_LOSS), pc := if f.stopSave.Done? then Finished else Profit)
      case Profit =>
        (match ProfitSale(row, price)
         case None => th.(pc := Finished)
         case Some(sale) =>
           if f.profitOrder.Done? then th.(row := sale.after, pc := Settle) else th.(pc := Finished))
      case Settle => th.(pc := Finished)
      case Finished => th
  }

  /** A position's processing together with its own row and exit orders. */
  datatype Local = Local(thread: Thread, state: State)

  function First(exits: seq<Order>): Option<Order>
  {
    if exits == [] then None else Some(exits[0])
  }

  /** One access of a position that is alone with its row and orders. */
  function Micro(l: Local): Local
  {
    var s := l.state;
    Local(Resume(l.thread, First(s.exits)),
          match RequestOf(l.thread)
          case Nothing => s
          case SaveRow(row, outcome) => if outcome.Refused? then s else s.(row := row)
          case CommitOrder(o, outcome) => if outcome.Refused? then s else s.(exits := s.exits + [o]))
  }

  function Iterate<T>(f: T -> T, x: T, n: nat): T
  {
    if n == 0 then x else f(Iterate(f, x, n - 1))
  }

  lemma {:induction false} IterateAdd<T>(f: T -> T, x: T, n: nat, m: nat)
    ensures Iterate(f, Iterate(f, x, n), m) == Iterate(f, x, n + m)
  {
    if m > 0 {
      IterateAdd(f, x, n, m - 1);
    }
  }

  lemma {:induction false} IterateFixed<T>(f: T -> T, x: T, n: nat, m: nat)
    requires n <= m && f(Iterate(f, x, n)) == Iterate(f, x, n)
    ensures Iterate(f, x, m) == Iterate(f, x, n)
  {
    if n < m {
      IterateFixed(f, x, n, m - 1);
    }
  }

  function Micros(l: Local, n: nat): Local
  {
    Iterate(Micro, l, n)
  }

  /** A position that has finished stays as it is. */
  lemma MicrosFinished(l: Local, n: nat, m: nat)
    requires n <= m && Micros(l, n).thread.pc.Finished?
    ensures Micros(l, m) == Micros(l, n)
  {
    IterateFixed(Micro, l, n, m);
  }

  // ---------------------------------------------- the pieces make up a tick

  /** The processing stands at `pc`, with the given object in memory and the given row and orders stored. */
  ghost predicate At(l: Local, pc: Pc, w: World, price: int, f: Faults)
  {
    l == Local(Thread(pc, w.row, Some(price), f), State(w.saved, w.exits))
  }

  lemma OneMicro(l: Local)
    ensures Micros(l, 1) == Micro(l)
  {
    assert Iterate(Micro, l, 1) == Micro(Iterate(Micro, l, 0));
  }

  lemma OneMoreMicro(l: Local, n: nat)
    ensures Micros(l, n + 1) == Micro(Micros(l, n))
  {
  }

  lemma MicrosFrom(l: Local, n: nat, m: nat, pc: Pc, w: World, price: int, f: Faults)
    requires At(Micros(Micros(l, n), m), pc, w, price, f)
    ensures At(Micros(l, n + m), pc, w, price, f)
  {
    IterateAdd(Micro, l, n, m);
  }

  /** The take-profit part of a tick takes at most two accesses. */
  lemma ProfitInPieces(l: Local, w: World, price: int, f: Faults)
    requires At(l, Profit, w, price, f) && price > 0
    ensures At(Micros(l, 2), Finished, ProfitStep(w, price, f).world, price, f)
  {
    OneMicro(l);
    OneMoreMicro(l, 1);
    ProfitStepIsSale(w, price, f);
  }

  /** From a sold order on: the object closes, and only a save that is confirmed ends the tick. */
  lemma CloseInPieces(l: Local, w: World, executed: int, price: int, f: Faults)
    requires At(l, Close(executed), w, price, f) && price > 0
    ensures At(Micros(l, 1), if f.stopSave.Done? then Finished else Profit,
               Save(w.(row := Closed(w.row, executed, STOP_LOSS)), f.stopSave), price, f)
  {
    OneMicro(l);
  }

  /** Where the stop-loss part stands after its lookup. */
  lemma LookupInPieces(l: Local, w: World, price: int, f: Faults)
    requires At(l, Lookup, w, price, f) && price > 0
    ensures At(Micros(l, 1),
               if !StopTriggered(w.row, price) || !f.stopLookup then Profit
               else if w.exits != [] then Close(OrElse(w.exits[0].filledPrice, price)) else Commit,
               w, price, f)
  {
    OneMicro(l);
  }

  lemma CommitInPieces(l: Local, w: World, price: int, f: Faults)
    requires At(l, Commit, w, price, f) && price > 0
    ensures At(Micros(l, 1), if f.stopOrder.Done? then Close(price) else Profit,
               Sell(w, w.row.quantity, price, f.stopOrder).world, price, f)
  {
    OneMicro(l);
  }

  /** The stop-loss part takes at most three accesses, and ends the tick if it closed the position. */
  lemma StopInPieces(l: Local, w: World, price: int, f: Faults)
    requires At(l, Lookup, w, price, f) && price > 0
    ensures var step := StopStep(w, price, f);
            exists n :: 1 <= n <= 3 && At(Micros(l, n), if step.hit then Finished else Profit, step.world, price, f)
  {
    var step := StopStep(w, price, f);
    var pc := if step.hit then Finished else Profit;
    LookupInPieces(l, w, price, f);
    if !StopTriggered(w.row, price) || !f.stopLookup {
      assert At(Micros(l, 1), pc, step.world, price, f);
    } else if w.exits != [] {
      CloseInPieces(Micros(l, 1), w, OrElse(w.exits[0].filledPrice, price), price, f);
      MicrosFrom(l, 1, 1, pc, step.world, price, f);
    } else {
      CommitInPieces(Micros(l, 1), w, price, f);
      var sale := Sell(w, w.row.quantity, price, f.stopOrder);
      MicrosFrom(l, 1, 1, if f.stopOrder.Done? then Close(price) else Profit, sale.world, price, f);
      if f.stopOrder.Done? {
        CloseInPieces(Micros(l, 2), sale.world, price, price, f);
        MicrosFrom(l, 2, 1, pc, step.world, price, f);
      }
    }
  }

  /** A position that reaches its take-profit check within three accesses has finished after five. */
  lemma FinishesByFive(l: Local, n: nat, w: World, price: int, f: Faults)
    requires n <= 3 && At(Micros(l, n), Profit, w, price, f) && price > 0
    ensures At(Micros(l, 5), Finished, ProfitStep(w, price, f).world, price, f)
  {
    ProfitInPieces(Micros(l, n), w, price, f);
    MicrosFrom(l, n, 2, Finished, ProfitStep(w, price, f).world, price, f);
    MicrosFinished(l, n + 2, 5);
  }

  /** From the lookup on, five accesses finish the tick. */
  lemma StopThenProfit(l: Local, w: World, price: int, f: Faults)
    requires At(l, Lookup, w, price, f) && price > 0
    ensures var step := StopStep(w, price, f);
            At(Micros(l, 5), Finished,
               if step.hit then step.world else ProfitStep(step.world, price, f).world, price, f)
  {
    StopInPieces(l, w, price, f);
    var step := StopStep(w, price, f);
    var n :| 1 <= n <= 3 && At(Micros(l, n), if step.hit then Finished else Profit, step.world, price, f);
    if step.hit {
      MicrosFinished(l, n, 5);
    } else {
      FinishesByFive(l, n, step.world, price, f);
    }
  }

  lemma TrailInPieces(l: Local, w: World, price: int, f: Faults)
    requires At(l, Trail, w, price, f) && price > 0
    ensures var step := TrailStep(w, price, f.trailSave);
            At(Micros(l, 1), if step.threw then Finished else Lookup, step.world, price, f)
  {
    OneMicro(l);
  }

  /** A position as a cycle loads it. */
  function Started(row: Row, price: Option<int>, f: Faults): Thread
  {
    Thread(Trail, row, price, f)
  }

  /** Six accesses finish a position, and what they leave is its tick. */
  lemma SixAccessesAreATick(s: State, price: Option<int>, f: Faults)
    requires s.row.status == OPEN
    ensures var l := Micros(Local(Started(s.row, price, f), s), 6);
            l.thread.pc.Finished? && l.state == TickState(s, price, f)
  {
    var l, w := Local(Started(s.row, price, f), s), World(s.row, s.row, s.exits);
    if price.None? || price.value <= 0 {
      OneMicro(l);
      MicrosFinished(l, 1, 6);
    } else {
      var trail := TrailStep(w, price.value, f.trailSave);
      TrailInPieces(l, w, price.value, f);
      if trail.threw {
        MicrosFinished(l, 1, 6);
      } else {
        StopThenProfit(Micros(l, 1), trail.world, price.value, f);
        IterateAdd(Micro, l, 1, 5);
      }
    }
  }

  // ------------------------------------------------------- the shared tables

  /** One positions table, one orders table, and the positions being processed. */
  datatype Shared = Shared(positions: map<string, Row>, orders: seq<Order>, threads: seq<Thread>)

  /** A request as the tables carry it out. */
  ghost function Execute(sh: Shared, r: Request): Shared
  {
    match r
    case Nothing => sh
    case SaveRow(row, outcome) => if outcome.Refused? then sh else sh.(positions := sh.positions[row.id := row])
    case CommitOrder(o, outcome) => if outcome.Refused? then sh else sh.(orders := sh.orders + [o])
  }

  /** The scheduler lets thread `i` make its next access; a lookup searches the whole orders table. */
  ghost function Schedule(sh: Shared, i: nat): (r: Shared)
    ensures |r.threads| == |sh.threads|
  {
    if i >= |sh.threads| then sh
    else
      var th := sh.threads[i];
      Execute(sh, RequestOf(th)).(threads := sh.threads[i := Resume(th, First(Exits(sh.orders, th.row.id)))])
  }

  ghost function Interleave(sh: Shared, turns: seq<nat>): (r: Shared)
    ensures |r.threads| == |sh.threads|
  {
    if turns == [] then sh else Schedule(Interleave(sh, turns[..|turns| - 1]), turns[|turns| - 1])
  }

  ghost function Turns(turns: seq<nat>, i: nat): nat
  {
    if turns == [] then 0 else Turns(turns[..|turns| - 1], i) + if turns[|turns| - 1] == i then 1 else 0
  }

  /** What the tables hold for the position of thread `i`. */
  ghost function View(sh: Shared, i: nat): Local
    requires i < |sh.threads| && sh.threads[i].row.id in sh.positions
  {
    var id := sh.threads[i].row.id;
    Local(sh.threads[i], State(sh.positions[id], Exits(sh.orders, id)))
  }

  /** Thread `i` works on a stored position of its own. */
  ghost predicate Alone(sh: Shared, i: nat)
  {
    && i < |sh.threads| && sh.threads[i].row.id in sh.positions
    && forall j :: 0 <= j < |sh.threads| && j != i ==> sh.threads[j].row.id != sh.threads[i].row.id
  }

  /** A thread never leaves its position: it keeps the id, saves that row, and orders for that position. */
  lemma KeepsToItsPosition(th: Thread, found: Option<Order>)
    ensures Resume(th, found).row.id == th.row.id
    ensures RequestOf(th).SaveRow? ==> RequestOf(th).row.id == th.row.id
    ensures RequestOf(th).CommitOrder? ==>
              forall id :: IsExit(RequestOf(th).order, id) <==> id == th.row.id
  {
  }

  /** What an access does to the rows and exit orders of any position. */
  lemma ExecuteAt(sh: Shared, th: Thread, id: string)
    requires id in sh.positions
    ensures var r, request := Execute(sh, RequestOf(th)), RequestOf(th);
            && id in r.positions
            && r.positions[id] == (if id == th.row.id && request.SaveRow? && !request.outcome.Refused?
                                   then request.row else sh.positions[id])
            && Exits(r.orders, id) == Exits(sh.orders, id) +
                                      (if id == th.row.id && request.CommitOrder? && !request.outcome.Refused?
                                       then [request.order] else [])
  {
    KeepsToItsPosition(th, None);
    if RequestOf(th).CommitOrder? {
      ExitsSnoc(sh.orders, RequestOf(th).order);
    }
  }

  /** On its own turn a position moves as if it were alone with its row and orders. */
  lemma OwnTurn(sh: Shared, i: nat)
    requires Alone(sh, i)
    ensures Alone(Schedule(sh, i), i) && View(Schedule(sh, i), i) == Micro(View(sh, i))
  {
    var th := sh.threads[i];
    KeepsToItsPosition(th, First(Exits(sh.orders, th.row.id)));
    ExecuteAt(sh, th, th.row.id);
  }

  /** On another's turn nothing changes for a position that no other thread works on. */
  lemma OtherTurn(sh: Shared, i: nat, j: nat)
    requires Alone(sh, i) && i != j
    ensures Alone(Schedule(sh, j), i) && View(Schedule(sh, j), i) == View(sh, i)
  {
    if j < |sh.threads| {
      var th := sh.threads[j];
      KeepsToItsPosition(th, First(Exits(sh.orders, th.row.id)));
      ExecuteAt(sh, th, sh.threads[i].row.id);
    }
  }

  lemma TurnMoves(sh: Shared, i: nat, j: nat)
    requires Alone(sh, i)
    ensures Alone(Schedule(sh, j), i)
    ensures View(Schedule(sh, j), i) == if i == j then Micro(View(sh, i)) else View(sh, i)
  {
    if i == j {
      OwnTurn(sh, i);
    } else {
      OtherTurn(sh, i, j);
    }
  }

  lemma TurnCounted(l: Local, turns: seq<nat>, i: nat)
    requires turns != []
    ensures var before := Micros(l, Turns(turns[..|turns| - 1], i));
            Micros(l, Turns(turns, i)) == if i == turns[|turns| - 1] then Micro(before) else before
  {
    OneMoreMicro(l, Turns(turns[..|turns| - 1], i));
  }

  /**
   * Whatever the schedule, the tables hold for a position what its own
   * accesses, and only those, have made of it.
   */
  lemma {:induction false} OwnTurnsOnly(sh: Shared, turns: seq<nat>, i: nat)
    requires Alone(sh, i)
    ensures Alone(Interleave(sh, turns), i)
    ensures View(Interleave(sh, turns), i) == Micros(View(sh, i), Turns(turns, i))
  {
    if turns == [] {
      assert Micros(View(sh, i), 0) == View(sh, i);
    } else {
      var front, last := turns[..|turns| - 1], turns[|turns| - 1];
      OwnTurnsOnly(sh, front, i);
      TurnMoves(Interleave(sh, front), i, last);
      TurnCounted(View(sh, i), turns, i);
    }
  }

  /** No thread works on the position. */
  ghost predicate Idle(sh: Shared, id: string)
  {
    id in sh.positions && forall j :: 0 <= j < |sh.threads| ==> sh.threads[j].row.id != id
  }

  lemma {:induction false} IdleUntouched(sh: Shared, turns: seq<nat>, id: string)
    requires Idle(sh, id)
    ensures var r := Interleave(sh, turns);
            Idle(r, id) && r.positions[id] == sh.positions[id] && Exits(r.orders, id) == Exits(sh.orders, id)
  {
    if turns != [] {
      var front, j := turns[..|turns| - 1], turns[|turns| - 1];
      IdleUntouched(sh, front, id);
      var mid := Interleave(sh, front);
      if j < |mid.threads| {
        KeepsToItsPosition(mid.threads[j], First(Exits(mid.orders, mid.threads[j].row.id)));
        ExecuteAt(mid, mid.threads[j], id);
      }
    }
  }

  /** Rows are saved, never inserted or removed. */
  lemma {:induction false} InterleaveKeepsKeys(sh: Shared, turns: seq<nat>)
    requires forall j :: 0 <= j < |sh.threads| ==> sh.threads[j].row.id in sh.positions
    ensures var r := Interleave(sh, turns);
            && r.positions.Keys == sh.positions.Keys
            && forall j :: 0 <= j < |r.threads| ==> r.threads[j].row.id == sh.threads[j].row.id
  {
    if turns != [] {
      var front, j := turns[..|turns| - 1], turns[|turns| - 1];
      InterleaveKeepsKeys(sh, front);
      var mid := Interleave(sh, front);
      if j < |mid.threads| {
        KeepsToItsPosition(mid.threads[j], First(Exits(mid.orders, mid.threads[j].row.id)));
      }
    }
  }

  // ------------------------------------------------------------- a batch

  /** The threads of a batch: each job on the open row that was loaded for it. */
  ghost predicate StartsOn(sh: Shared, jobs: seq<Job>)
  {
    && DistinctJobs(jobs) && |sh.threads| == |jobs|
    && forall i :: 0 <= i < |jobs| ==> JobStarts(sh, jobs[i], sh.threads[i])
  }

  ghost predicate JobStarts(sh: Shared, j: Job, th: Thread)
  {
    && j.id in sh.positions && sh.positions[j.id].id == j.id && sh.positions[j.id].status == OPEN
    && th == Started(sh.positions[j.id], j.price, j.faults)
  }

  ghost predicate AllFinished(sh: Shared)
  {
    forall i :: 0 <= i < |sh.threads| ==> sh.threads[i].pc.Finished?
  }

  lemma BatchAlone(sh: Shared, jobs: seq<Job>, i: nat)
    requires StartsOn(sh, jobs) && i < |jobs|
    ensures Alone(sh, i) && sh.threads[i].row.id == jobs[i].id
    ensures View(sh, i) == var s := TableOf(sh.positions, sh.orders)[jobs[i].id];
                           Local(Started(s.row, jobs[i].price, jobs[i].faults), s)
  {
    assert JobStarts(sh, jobs[i], sh.threads[i]);
    forall j | 0 <= j < |jobs| && j != i
      ensures sh.threads[j].row.id != sh.threads[i].row.id
    {
      assert JobStarts(sh, jobs[j], sh.threads[j]);
    }
  }

  /** A position of the batch that has finished is where its own tick puts it. */
  lemma FinishedAtTick(sh: Shared, jobs: seq<Job>, turns: seq<nat>, i: nat)
    requires StartsOn(sh, jobs) && i < |jobs| && Interleave(sh, turns).threads[i].pc.Finished?
    ensures var r, t := Interleave(sh, turns), TableOf(sh.positions, sh.orders);
            && jobs[i].id in r.positions
            && State(r.positions[jobs[i].id], Exits(r.orders, jobs[i].id)) ==
               TickState(t[jobs[i].id], jobs[i].price, jobs[i].faults)
  {
    var n := Turns(turns, i);
    BatchAlone(sh, jobs, i);
    OwnTurnsOnly(sh, turns, i);
    var s := TableOf(sh.positions, sh.orders)[jobs[i].id];
    assert JobStarts(sh, jobs[i], sh.threads[i]);
    SixAccessesAreATick(s, jobs[i].price, jobs[i].faults);
    if n <= 6 {
      MicrosFinished(View(sh, i), n, 6);
    } else {
      MicrosFinished(View(sh, i), 6, n);
    }
    InterleaveKeepsKeys(sh, turns);
  }

  /** No schedule can keep a position from finishing once it has had six turns. */
  lemma SixTurnsFinish(sh: Shared, jobs: seq<Job>, turns: seq<nat>, i: nat)
    requires StartsOn(sh, jobs) && i < |jobs| && Turns(turns, i) >= 6
    ensures Interleave(sh, turns).threads[i].pc.Finished?
  {
    BatchAlone(sh, jobs, i);
    OwnTurnsOnly(sh, turns, i);
    assert JobStarts(sh, jobs[i], sh.threads[i]);
    SixAccessesAreATick(View(sh, i).state, jobs[i].price, jobs[i].faults);
    MicrosFinished(View(sh, i), 6, Turns(turns, i));
  }

  /**
   * However the positions of a batch take turns at the two tables, once all
   * have finished the tables are those that processing them one after the
   * other leaves.
   */
  lemma InterleavingEndsAsSequence(sh: Shared, jobs: seq<Job>, turns: seq<nat>)
    requires StartsOn(sh, jobs) && AllFinished(Interleave(sh, turns))
    ensures var r := Interleave(sh, turns);
            TableOf(r.positions, r.orders) == TickAll(TableOf(sh.positions, sh.orders), jobs)
  {
    var r, t := Interleave(sh, turns), TableOf(sh.positions, sh.orders);
    forall i | 0 <= i < |jobs|
      ensures sh.threads[i].row.id == jobs[i].id && jobs[i].id in sh.positions
    {
      assert JobStarts(sh, jobs[i], sh.threads[i]);
    }
    InterleaveKeepsKeys(sh, turns);
    forall id | id in t
      ensures TableOf(r.positions, r.orders)[id] == TickAll(t, jobs)[id]
    {
      if NoJobFor(jobs, id) {
        TickAllSpares(t, jobs, id);
        IdleUntouched(sh, turns, id);
      } else {
        var i :| 0 <= i < |jobs| && jobs[i].id == id;
        FinishedAtTick(sh, jobs, turns, i);
        TickAllAt(t, jobs, i);
      }
    }
  }

  // ------------------------------------------------------- a whole cycle

  /** Every job on the row that was loaded for it at the start of the cycle. */
  ghost function ThreadsFor(loaded: map<string, Row>, jobs: seq<Job>): (threads: seq<Thread>)
    requires forall i :: 0 <= i < |jobs| ==> jobs[i].id in loaded
    ensures |threads| == |jobs|
    ensures forall i :: 0 <= i < |jobs| ==> threads[i] == Started(loaded[jobs[i].id], jobs[i].price, jobs[i].faults)
  {
    seq(|jobs|, i requires 0 <= i < |jobs| => Started(loaded[jobs[i].id], jobs[i].price, jobs[i].faults))
  }

  /** A batch: its jobs and the order in which they get their turns. */
  datatype Batch = Batch(jobs: seq<Job>, turns: seq<nat>)

  ghost function AllJobs(batches: seq<Batch>): seq<Job>
  {
    if batches == [] then [] else AllJobs(batches[..|batches| - 1]) + batches[|batches| - 1].jobs
  }

  /** Every job belongs to a different open row. */
  ghost predicate Loadable(positions: map<string, Row>, jobs: seq<Job>)
  {
    && DistinctJobs(jobs)
    && forall i :: 0 <= i < |jobs| ==> RowFor(positions, jobs[i])
  }

  ghost predicate RowFor(positions: map<string, Row>, j: Job)
  {
    j.id in positions && positions[j.id].id == j.id && positions[j.id].status == OPEN
  }

  lemma LoadableParts(positions: map<string, Row>, a: seq<Job>, b: seq<Job>)
    requires Loadable(positions, a + b)
    ensures Loadable(positions, a) && Loadable(positions, b)
    ensures forall i :: 0 <= i < |b| ==> NoJobFor(a, b[i].id)
  {
    var all := a + b;
    assert forall i :: 0 <= i < |a| ==> all[i] == a[i];
    assert forall i :: 0 <= i < |b| ==> all[|a| + i] == b[i];
    forall i, j | 0 <= i < j < |b|
      ensures b[i].id != b[j].id
    {
      assert all[|a| + i].id != all[|a| + j].id;
    }
    forall i, k | 0 <= i < |b| && 0 <= k < |a|
      ensures a[k].id != b[i].id
    {
      assert all[k].id != all[|a| + i].id;
    }
  }

  lemma {:induction false} TickAllConcat(t: map<string, State>, a: seq<Job>, b: seq<Job>)
    ensures TickAll(t, a + b) == TickAll(TickAll(t, a), b)
  {
    if b == [] {
      assert a + b == a;
    } else {
      TickAllConcat(t, a, b[..|b| - 1]);
      assert (a + b)[..|a + b| - 1] == a + b[..|b| - 1];
    }
  }

  /** The tables after consecutive batches; objects were all loaded before the first. */
  ghost function RunBatches(positions: map<string, Row>, orders: seq<Order>, batches: seq<Batch>): Shared
    requires Loadable(positions, AllJobs(batches))
  {
    if batches == [] then Shared(positions, orders, [])
    else
      var front, last := batches[..|batches| - 1], batches[|batches| - 1];
      LoadableParts(positions, AllJobs(front), last.jobs);
      var before := RunBatches(positions, orders, front);
      assert forall i :: 0 <= i < |last.jobs| ==> RowFor(positions, last.jobs[i]);
      Interleave(Shared(before.positions, before.orders, ThreadsFor(positions, last.jobs)), last.turns)
  }

  /** `await Promise.allSettled(...)`: no batch starts before all of the previous one have finished. */
  ghost predicate Settled(positions: map<string, Row>, orders: seq<Order>, batches: seq<Batch>)
    requires Loadable(positions, AllJobs(batches))
  {
    batches == [] ||
    (LoadableParts(positions, AllJobs(batches[..|batches| - 1]), batches[|batches| - 1].jobs);
     Settled(positions, orders, batches[..|batches| - 1]) && AllFinished(RunBatches(positions, orders, batches)))
  }

  /** Earlier batches leave the objects of the next one up to date. */
  lemma StillLoaded(positions: map<string, Row>, orders: seq<Order>, done: seq<Job>, jobs: seq<Job>, sh: Shared)
    requires Loadable(positions, done + jobs)
    requires TableOf(sh.positions, sh.orders) == TickAll(TableOf(positions, orders), done)
    requires forall i :: 0 <= i < |jobs| ==> jobs[i].id in positions
    requires sh.threads == ThreadsFor(positions, jobs)
    ensures StartsOn(sh, jobs)
  {
    LoadableParts(positions, done, jobs);
    var t := TableOf(positions, orders);
    forall i | 0 <= i < |jobs|
      ensures JobStarts(sh, jobs[i], sh.threads[i])
    {
      assert RowFor(positions, jobs[i]);
      TickAllSpares(t, done, jobs[i].id);
      assert jobs[i].id in TableOf(sh.positions, sh.orders);
    }
  }

  /**
   * A cycle in batches of any size, each with any interleaving, leaves the
   * tables that `ProcessInBatches` promises: every position its own tick.
   */
  lemma {:induction false} BatchesEndAsSequence(positions: map<string, Row>, orders: seq<Order>, batches: seq<Batch>)
    requires Loadable(positions, AllJobs(batches)) && Settled(positions, orders, batches)
    ensures var r := RunBatches(positions, orders, batches);
            TableOf(r.positions, r.orders) == TickAll(TableOf(positions, orders), AllJobs(batches))
  {
    if batches != [] {
      var front, last := batches[..|batches| - 1], batches[|batches| - 1];
      var done := AllJobs(front);
      LoadableParts(positions, done, last.jobs);
      BatchesEndAsSequence(positions, orders, front);
      assert forall i :: 0 <= i < |last.jobs| ==> RowFor(positions, last.jobs[i]);
      var before := RunBatches(positions, orders, front);
      var sh := Shared(before.positions, before.orders, ThreadsFor(positions, last.jobs));
      StillLoaded(positions, orders, done, last.jobs, sh);
      InterleavingEndsAsSequence(sh, last.jobs, last.turns);
      TickAllConcat(TableOf(positions, orders), done, last.jobs);
    }
  }

  // ------------------------------------------------- why cycles must not overlap

  /** Two threads on one position, at the same place, with the given orders stored. */
  ghost function Twins(row: Row, pc: Pc, orders: seq<Order>): Shared
  {
    var th := Thread(pc, row, Some(90), NO_FAULTS);
    Shared(map[row.id := row], orders, [th, th])
  }

  /** Each of two threads makes one access. */
  ghost function Round(sh: Shared): Shared
  {
    Schedule(Schedule(sh, 0), 1)
  }

  lemma InterleaveRound(sh: Shared, turns: seq<nat>)
    ensures Interleave(sh, turns + [0, 1]) == Round(Interleave(sh, turns))
  {
    assert (turns + [0, 1])[..|turns| + 1] == turns + [0];
    assert (turns + [0])[..|turns|] == turns;
  }

  lemma ThreeRounds(sh: Shared)
    ensures Interleave(sh, [0, 1, 0, 1, 0, 1]) == Round(Round(Round(sh)))
  {
    InterleaveRound(sh, []);
    InterleaveRound(sh, [0, 1]);
    InterleaveRound(sh, [0, 1, 0, 1]);
    assert [] + [0, 1] == [0, 1] && [0, 1] + [0, 1] == [0, 1, 0, 1];
    assert [0, 1, 0, 1] + [0, 1] == [0, 1, 0, 1, 0, 1];
  }

  lemma TwinsLookUp(row: Row)
    requires row.status == OPEN && !row.isTrailingStop && row.stopLossPrice == Some(90)
    ensures Round(Twins(row, Trail, [])) == Twins(row, Lookup, [])
    ensures Round(Twins(row, Lookup, [])) == Twins(row, Commit, [])
  {
    assert Schedule(Twins(row, Trail, []), 0).threads[1] == Twins(row, Trail, []).threads[1];
    assert Schedule(Twins(row, Lookup, []), 0).threads[1] == Twins(row, Lookup, []).threads[1];
  }

  lemma TwinsCommit(row: Row)
    ensures var o := ExitOrder(row, row.quantity, 90); Round(Twins(row, Commit, [])).orders == [o, o]
  {
    assert Schedule(Twins(row, Commit, []), 0).threads[1] == Twins(row, Commit, []).threads[1];
  }

  /**
   * Two cycles that process the same position at once, which the running flag
   * of the job prevents: both look for an exit order before either commits
   * one, and the position is sold twice.
   */
  lemma OverlapSellsTwice(row: Row)
    requires row.status == OPEN && !row.isTrailingStop && row.stopLossPrice == Some(90)
    ensures var th, o := Started(row, Some(90), NO_FAULTS), ExitOrder(row, row.quantity, 90);
            Interleave(Shared(map[row.id := row], [], [th, th]), [0, 1, 0, 1, 0, 1]).orders == [o, o]
  {
    ThreeRounds(Twins(row, Trail, []));
    TwinsLookUp(row);
    TwinsCommit(row);
  }
}
