/**
 * The monitoring job: passes over the open positions in batches
 * (src/Automated Stop-Loss and Take-Profit System/monitor-positions.job.ts).
 * Here the positions of a batch are processed one after the other;
 * `BatchInterleaving` shows that every interleaving of their accesses to the
 * shared tables leaves the same tables.
 */
module MonitorJob {

  import opened Options
  import opened Positions
  import opened PositionServices
  import opened StopLossRuns
  import ExitLedger

  class Summary {
    var stopLossTriggered: nat
    var takeProfitTriggered: nat
    var trailingStopsUpdated: nat
    var errors: nat

    constructor ()
      ensures Counters() == Counts(0, 0, 0, 0)
    {
      stopLossTriggered, takeProfitTriggered, trailingStopsUpdated, errors := 0, 0, 0, 0;
    }

    ghost function Counters(): Counts
      reads this
    {
      Counts(stopLossTriggered, takeProfitTriggered, trailingStopsUpdated, errors)
    }

    method Count(trailed: bool, stopped: bool, profited: bool, failed: bool)
      modifies this
      ensures Counters() == AddBits(old(Counters()), trailed, stopped, profited, failed)
      ensures trailingStopsUpdated == old(trailingStopsUpdated) + (if trailed then 1 else 0)
      ensures stopLossTriggered == old(stopLossTriggered) + (if stopped then 1 else 0)
      ensures takeProfitTriggered == old(takeProfitTriggered) + (if profited then 1 else 0)
      ensures errors == old(errors) + (if failed then 1 else 0)
    {
      if trailed {
        trailingStopsUpdated := trailingStopsUpdated + 1;
      }
      if stopped {
        stopLossTriggered := stopLossTriggered + 1;
      }
      if profited {
        takeProfitTriggered := takeProfitTriggered + 1;
      }
      if failed {
        errors := errors + 1;
      }
    }
  }

  datatype Counts = Counts(stopped: nat, profited: nat, trailed: nat, failed: nat)

  function Bit(b: bool): nat
  {
    if b then 1 else 0
  }

  function AddBits(c: Counts, trailed: bool, stopped: bool, profited: bool, failed: bool): Counts
  {
    Counts(c.stopped + Bit(stopped), c.profited + Bit(profited), c.trailed + Bit(trailed), c.failed + Bit(failed))
  }

  function Add(c: Counts, r: TickResult): Counts
  {
    AddBits(c, r.trailed, r.stopped, r.profited, r.failed)
  }

  /** The counters after the given results. */
  ghost function Tally(c: Counts, results: seq<TickResult>): Counts
  {
    if results == [] then c else Add(Tally(c, results[..|results| - 1]), results[|results| - 1])
  }

  function PriceOf(prices: map<string, int>, symbol: string): Option<int>
  {
    if symbol in prices then Some(prices[symbol]) else None
  }

  // -------------------------------------------------- the tables as states

  /** Each position's row and exit orders: what the run theorems speak about. */
  ghost function TableOf(positions: map<string, Row>, orders: seq<Order>): map<string, State>
  {
    map id | id in positions :: State(positions[id], Exits(orders, id))
  }

  ghost function Table(db: Database): map<string, State>
    reads db
  {
    TableOf(db.positions, db.orders)
  }

  lemma TableAfter(positions: map<string, Row>, orders: seq<Order>, newPositions: map<string, Row>,
                   newOrders: seq<Order>, id: string)
    requires id in positions && Kept(positions, orders, newPositions, newOrders, id)
    ensures id in newPositions
    ensures TableOf(newPositions, newOrders) ==
            TableOf(positions, orders)[id := State(newPositions[id], Exits(newOrders, id))]
  {
  }

  /** What one tick of a stored position yields. */
  function ResultOf(s: State, price: Option<int>, f: Faults): TickResult
  {
    Process(World(s.row, s.row, s.exits), price, f)
  }

  lemma ResultIsTick(s: State, price: Option<int>, f: Faults)
    requires s.row.status == OPEN
    ensures var w := ResultOf(s, price, f).world; State(w.saved, w.exits) == TickState(s, price, f)
  {
  }

  /** Levels are set, so errors of the take-profit check are not caught by it. */
  predicate HasLevels(row: Row)
  {
    row.takeProfitLevels.Some? && row.takeProfitLevels.value != []
  }

  /** What a tick counts as, in terms of what it did to the position. */
  lemma TickCountsAs(s: State, e: Event)
    requires s.row.status == OPEN && e.Tick?
    ensures var r := ResultOf(s, e.price, e.faults);
            && (r.stopped <==> ExitLedger.Stops(s, e) && e.faults.stopSave.Done?)
            && (r.trailed <==> ExitLedger.Reaches(s, e) && ExitLedger.Object(s, e) != s.row)
            && (r.profited <==>
                ExitLedger.Wanted(s, e).Some? && e.faults.profitOrder.Done? && e.faults.profitSave.Done?)
            && (r.failed <==>
                || !ExitLedger.Reaches(s, e)
                || (HasLevels(s.row) && ExitLedger.Wanted(s, e).Some? &&
                    !(e.faults.profitOrder.Done? && e.faults.profitSave.Done?)))
  {
    if ExitLedger.Live(s, e) {
      ExitLedger.TrailKeeps(s, e);
      if ExitLedger.Reaches(s, e) {
        ExitLedger.StopPart(s, e);
        var stop := StopStep(ExitLedger.Trailed(s, e).world, e.price.value, e.faults);
        ProfitFlags(stop.world, e.price.value, e.faults);
      }
    }
  }

  lemma ProfitFlags(w: World, price: int, f: Faults)
    ensures var step, sale := ProfitStep(w, price, f), ProfitSale(w.row, price);
            && (step.hit <==> sale.Some? && f.profitOrder.Done? && f.profitSave.Done?)
            && (step.threw <==> HasLevels(w.row) && sale.Some? && !(f.profitOrder.Done? && f.profitSave.Done?))
  {
  }

  /** Each counter of the summary grows by the ticks it is named after. */
  lemma CountersGrow(c: Counts, r: TickResult)
    ensures var d := Add(c, r);
            && (if r.stopped then d.stopped == c.stopped + 1 else d.stopped == c.stopped)
            && (if r.profited then d.profited == c.profited + 1 else d.profited == c.profited)
            && (if r.trailed then d.trailed == c.trailed + 1 else d.trailed == c.trailed)
            && (if r.failed then d.failed == c.failed + 1 else d.failed == c.failed)
  {
  }

  /** A position object as the job has just loaded it. */
  ghost predicate Loaded(p: Position, db: Database)
    reads p, db
  {
    p.id in db.positions && db.positions[p.id] == p.AsRow() && p.status == OPEN
  }

  /** One position's share of a pass. */
  datatype Job = Job(id: string, price: Option<int>, faults: Faults)

  ghost function TickOne(t: map<string, State>, j: Job): (r: map<string, State>)
    ensures r.Keys == t.Keys
  {
    if j.id in t then t[j.id := TickState(t[j.id], j.price, j.faults)] else t
  }

  ghost function TickAll(t: map<string, State>, jobs: seq<Job>): (r: map<string, State>)
    ensures r.Keys == t.Keys
  {
    if jobs == [] then t else TickOne(TickAll(t, jobs[..|jobs| - 1]), jobs[|jobs| - 1])
  }

  ghost predicate DistinctJobs(jobs: seq<Job>)
  {
    forall i, j :: 0 <= i < j < |jobs| ==> jobs[i].id != jobs[j].id
  }

  ghost predicate NoJobFor(jobs: seq<Job>, id: string)
  {
    forall i :: 0 <= i < |jobs| ==> jobs[i].id != id
  }

  lemma {:induction false} TickAllSpares(t: map<string, State>, jobs: seq<Job>, id: string)
    requires id in t && NoJobFor(jobs, id)
    ensures TickAll(t, jobs)[id] == t[id]
  {
    if jobs != [] {
      TickAllSpares(t, jobs[..|jobs| - 1], id);
    }
  }

  /** Jobs do not disturb each other: a position ends as its own tick says. */
  lemma {:induction false} TickAllAt(t: map<string, State>, jobs: seq<Job>, i: nat)
    requires DistinctJobs(jobs) && i < |jobs| && jobs[i].id in t
    ensures TickAll(t, jobs)[jobs[i].id] == TickState(t[jobs[i].id], jobs[i].price, jobs[i].faults)
  {
    var last := |jobs| - 1;
    if i < last {
      TickAllAt(t, jobs[..last], i);
    } else {
      TickAllSpares(t, jobs[..last], jobs[i].id);
    }
  }

  lemma TickAllNext(t: map<string, State>, jobs: seq<Job>, i: nat)
    requires DistinctJobs(jobs) && i < |jobs| && jobs[i].id in t
    ensures TickAll(t, jobs[..i + 1]) == TickOne(TickAll(t, jobs[..i]), jobs[i])
    ensures TickAll(t, jobs[..i])[jobs[i].id] == t[jobs[i].id]
  {
    assert jobs[..i + 1][..i] == jobs[..i];
    TickAllSpares(t, jobs[..i], jobs[i].id);
  }

  /** A tick on the table leaves the rows of all other positions alone. */
  lemma TickOneSparesRow(positions: map<string, Row>, orders: seq<Order>, newPositions: map<string, Row>,
                         newOrders: seq<Order>, j: Job, id: string)
    requires TableOf(newPositions, newOrders) == TickOne(TableOf(positions, orders), j)
    requires id in positions && id != j.id
    ensures id in newPositions && newPositions[id] == positions[id]
  {
    var t, r := TableOf(positions, orders), TableOf(newPositions, newOrders);
    assert id in t && id in r && r[id] == t[id];
  }

  /** The results the counters are made of. */
  ghost function Results(t: map<string, State>, jobs: seq<Job>): seq<TickResult>
  {
    if jobs == [] then []
    else
      var j := jobs[|jobs| - 1];
      Results(t, jobs[..|jobs| - 1]) + if j.id in t then [ResultOf(t[j.id], j.price, j.faults)] else []
  }

  lemma ResultsNext(c: Counts, t: map<string, State>, jobs: seq<Job>, i: nat)
    requires i < |jobs| && jobs[i].id in t
    ensures Tally(c, Results(t, jobs[..i + 1])) ==
            Add(Tally(c, Results(t, jobs[..i])), ResultOf(t[jobs[i].id], jobs[i].price, jobs[i].faults))
  {
    assert jobs[..i + 1][..i] == jobs[..i];
    var front, r := Results(t, jobs[..i]), ResultOf(t[jobs[i].id], jobs[i].price, jobs[i].faults);
    assert (front + [r])[..|front|] == front;
  }

  /** Different objects that stand for different rows. */
  ghost predicate Separate(positions: seq<Position>)
  {
    forall i, j :: 0 <= i < j < |positions| ==> positions[i] != positions[j] && positions[i].id != positions[j].id
  }

  ghost predicate HasPosition(positions: seq<Position>, id: string)
  {
    exists k :: 0 <= k < |positions| && positions[k].id == id
  }

  lemma HasPositionSnoc(positions: seq<Position>, p: Position)
    ensures HasPosition(positions + [p], p.id)
    ensures forall id :: HasPosition(positions, id) ==> HasPosition(positions + [p], id)
  {
    var longer := positions + [p];
    assert longer[|positions|] == p;
    forall id | HasPosition(positions, id)
      ensures HasPosition(longer, id)
    {
      var k :| 0 <= k < |positions| && positions[k].id == id;
      assert longer[k] == positions[k];
    }
  }

  ghost function JobsFor(positions: seq<Position>, prices: map<string, int>, faults: string -> Faults): (jobs: seq<Job>)
    ensures |jobs| == |positions|
    ensures forall k :: 0 <= k < |jobs| ==>
              jobs[k] == Job(positions[k].id, PriceOf(prices, positions[k].symbol), faults(positions[k].id))
  {
    seq(|positions|, k requires 0 <= k < |positions| =>
      Job(positions[k].id, PriceOf(prices, positions[k].symbol), faults(positions[k].id)))
  }

  // ------------------------------------------------------ passes and runs

  /** What comes from outside in one pass: the price feed, and the fate of every position's writes. */
  datatype Feed = Feed(prices: map<string, int>, faults: string -> Faults)

  ghost function JobOf(s: State, id: string, feed: Feed): Job
  {
    Job(id, PriceOf(feed.prices, s.row.symbol), feed.faults(id))
  }

  /** A pass is a tick for every position; for those that are not open a tick does nothing. */
  ghost function PassTable(t: map<string, State>, feed: Feed): map<string, State>
  {
    map id | id in t :: TickState(t[id], PriceOf(feed.prices, t[id].row.symbol), feed.faults(id))
  }

  ghost function RunPasses(t: map<string, State>, feeds: seq<Feed>): map<string, State>
  {
    if feeds == [] then t else PassTable(RunPasses(t, feeds[..|feeds| - 1]), feeds[|feeds| - 1])
  }

  ghost predicate KeyedById(positions: map<string, Row>)
  {
    forall id :: id in positions ==> positions[id].id == id
  }

  ghost predicate JobsCover(t: map<string, State>, jobs: seq<Job>, feed: Feed)
  {
    && DistinctJobs(jobs)
    && (forall i :: 0 <= i < |jobs| ==> jobs[i].id in t && jobs[i] == JobOf(t[jobs[i].id], jobs[i].id, feed))
    && (forall id :: id in t && NoJobFor(jobs, id) ==> t[id].row.status != OPEN)
  }

  lemma TickAllIsPass(t: map<string, State>, jobs: seq<Job>, feed: Feed)
    requires JobsCover(t, jobs, feed)
    ensures TickAll(t, jobs) == PassTable(t, feed)
  {
    var r, p := TickAll(t, jobs), PassTable(t, feed);
    forall id | id in t
      ensures r[id] == p[id]
    {
      if NoJobFor(jobs, id) {
        TickAllSpares(t, jobs, id);
      } else {
        var i :| 0 <= i < |jobs| && jobs[i].id == id;
        TickAllAt(t, jobs, i);
      }
    }
  }

  /** Object and row still stand for the position `id` in `symbol`. */
  ghost predicate Identity(w: World, id: string, symbol: string)
  {
    w.row.id == w.saved.id == id && w.row.symbol == w.saved.symbol == symbol
  }

  lemma StepsKeepIdentity(w: World, price: int, f: Faults, id: string, symbol: string)
    requires Identity(w, id, symbol)
    ensures Identity(TrailStep(w, price, f.trailSave).world, id, symbol)
    ensures Identity(StopStep(w, price, f).world, id, symbol)
  {
  }

  lemma ProfitKeepsIdentity(w: World, price: int, f: Faults, id: string, symbol: string)
    requires Identity(w, id, symbol)
    ensures Identity(ProfitStep(w, price, f).world, id, symbol)
  {
  }

  lemma TickKeepsIdentity(s: State, price: Option<int>, f: Faults)
    ensures TickState(s, price, f).row.id == s.row.id && TickState(s, price, f).row.symbol == s.row.symbol
  {
    if s.row.status == OPEN && price.Some? && price.value > 0 {
      var w := World(s.row, s.row, s.exits);
      var trail := TrailStep(w, price.value, f.trailSave).world;
      StepsKeepIdentity(w, price.value, f, s.row.id, s.row.symbol);
      StepsKeepIdentity(trail, price.value, f, s.row.id, s.row.symbol);
      ProfitKeepsIdentity(StopStep(trail, price.value, f).world, price.value, f, s.row.id, s.row.symbol);
    }
  }

  /** The ticks one position sees over several passes. */
  ghost function TicksOf(symbol: string, id: string, feeds: seq<Feed>): seq<Event>
  {
    if feeds == [] then []
    else
      var feed := feeds[|feeds| - 1];
      TicksOf(symbol, id, feeds[..|feeds| - 1]) + [Tick(PriceOf(feed.prices, symbol), feed.faults(id))]
  }

  /** Passes over the whole table are, for each position, one run of its own ticks. */
  lemma {:induction false} PassesAreRuns(t: map<string, State>, feeds: seq<Feed>, id: string)
    requires id in t
    ensures id in RunPasses(t, feeds)
    ensures RunPasses(t, feeds)[id] == Run(t[id], TicksOf(t[id].row.symbol, id, feeds))
    ensures RunPasses(t, feeds)[id].row.symbol == t[id].row.symbol
  {
    if feeds != [] {
      var front, feed := feeds[..|feeds| - 1], feeds[|feeds| - 1];
      PassesAreRuns(t, front, id);
      var symbol, before := t[id].row.symbol, RunPasses(t, front)[id];
      var ticks, e := TicksOf(symbol, id, front), Tick(PriceOf(feed.prices, symbol), feed.faults(id));
      RunSnoc(t[id], ticks, e);
      TickKeepsIdentity(before, e.price, e.faults);
    }
  }

  lemma RunSnoc(s: State, es: seq<Event>, e: Event)
    ensures Run(s, es + [e]) == Step(Run(s, es), e)
  {
    assert (es + [e])[..|es|] == es;
  }

  /** However many passes are made and whatever fails, every position without take-profit is sold at most once. */
  lemma PassesSellOnce(t: map<string, State>, feeds: seq<Feed>, id: string)
    requires id in t && Fresh(t[id])
    ensures id in RunPasses(t, feeds) && OneExit(RunPasses(t, feeds)[id], t[id].row.quantity)
  {
    PassesAreRuns(t, feeds, id);
    StopLossSellsOnce(t[id], TicksOf(t[id].row.symbol, id, feeds));
  }

  class MonitorPositionsJob {
    const db: Database
    const stopLoss: StopLossService
    const takeProfit: TakeProfitService
    const trailingStop: TrailingStopService
    var isRunning: bool

    ghost predicate Wired()
    {
      stopLoss.db == db && takeProfit.db == db && trailingStop.db == db
    }

    constructor (db: Database)
      ensures this.db == db && Wired() && !isRunning
    {
      this.db := db;
      stopLoss := new StopLossService(db);
      takeProfit := new TakeProfitService(db);
      trailingStop := new TrailingStopService(db);
      isRunning := false;
    }

    /** The three checks of one position, in order. */
    method CheckPosition(p: Position, price: int, f: Faults)
      returns (trailed: bool, stopped: bool, profited: bool, failed: bool)
      requires Wired() && p.id in db.positions && price > 0
      modifies p, db
      ensures OthersKept(db, p.id)
      ensures TickResult(Now(p, db), trailed, stopped, profited, failed) == Process(old(Now(p, db)), Some(price), f)
    {
      trailed, stopped, profited, failed := false, false, false, false;
      if p.isTrailingStop {
        trailed, failed := trailingStop.Update(p, price, f.trailSave);
        if failed {
          return;
        }
      }
      stopped := stopLoss.CheckAndExecute(p, price, f);
      if stopped {
        return;
      }
      profited, failed := takeProfit.CheckAndExecute(p, price, f);
    }

    method ProcessPosition(p: Position, prices: map<string, int>, f: Faults, summary: Summary)
      requires Wired() && p.id in db.positions
      modifies p, db, summary
      ensures OthersKept(db, p.id)
      ensures var r := Process(old(Now(p, db)), PriceOf(prices, p.symbol), f);
              Now(p, db) == r.world && summary.Counters() == Add(old(summary.Counters()), r)
    {
      if p.symbol !in prices || prices[p.symbol] <= 0 {
        summary.Count(false, false, false, true);
        return;
      }
      var trailed, stopped, profited, failed := CheckPosition(p, prices[p.symbol], f);
      summary.Count(trailed, stopped, profited, failed);
    }

    /** A position just loaded gets exactly its own tick; every other position keeps its row and orders. */
    method ProcessLoaded(p: Position, prices: map<string, int>, f: Faults, summary: Summary)
      requires Wired() && Loaded(p, db)
      modifies p, db, summary
      ensures Table(db) == TickOne(old(Table(db)), Job(p.id, PriceOf(prices, p.symbol), f))
      ensures summary.Counters() ==
              Add(old(summary.Counters()), ResultOf(old(Table(db))[p.id], PriceOf(prices, p.symbol), f))
    {
      ghost var before := Table(db)[p.id];
      ResultIsTick(before, PriceOf(prices, p.symbol), f);
      ProcessPosition(p, prices, f, summary);
      TableAfter(old(db.positions), old(db.orders), db.positions, db.orders, p.id);
    }

    /** How far a pass has come: the first `i` jobs are done, the other positions are still as loaded. */
    ghost predicate Progress(positions: seq<Position>, t: map<string, State>, jobs: seq<Job>, i: nat,
                             summary: Summary, start: Counts)
      requires i <= |jobs| == |positions|
      reads db, summary, set k | 0 <= k < |positions| :: positions[k]
    {
      && (forall k :: 0 <= k < |jobs| ==> jobs[k].id in t)
      && Table(db) == TickAll(t, jobs[..i])
      && (forall k :: i <= k < |positions| ==> Loaded(positions[k], db))
      && summary.Counters() == Tally(start, Results(t, jobs[..i]))
    }

    method ProcessNth(positions: seq<Position>, i: nat, prices: map<string, int>, faults: string -> Faults,
                      summary: Summary, ghost t: map<string, State>, ghost jobs: seq<Job>, ghost start: Counts)
      requires Wired() && Separate(positions) && jobs == JobsFor(positions, prices, faults) && i < |positions|
      requires Progress(positions, t, jobs, i, summary, start)
      modifies positions[i], db, summary
      ensures Progress(positions, t, jobs, i + 1, summary, start)
    {
      assert DistinctJobs(jobs);
      TickAllNext(t, jobs, i);
      ResultsNext(start, t, jobs, i);
      ProcessLoaded(positions[i], prices, faults(positions[i].id), summary);
      forall k | i < k < |positions|
        ensures Loaded(positions[k], db)
      {
        TickOneSparesRow(old(db.positions), old(db.orders), db.positions, db.orders, jobs[i], positions[k].id);
      }
    }

    /** One batch: `Promise.allSettled` over a slice of the positions. */
    method ProcessBatch(positions: seq<Position>, from: nat, end: nat, prices: map<string, int>,
                        faults: string -> Faults, summary: Summary,
                        ghost t: map<string, State>, ghost jobs: seq<Job>, ghost start: Counts)
      requires Wired() && Separate(positions) && jobs == JobsFor(positions, prices, faults)
      requires from <= end <= |positions| && Progress(positions, t, jobs, from, summary, start)
      modifies set k | 0 <= k < |positions| :: positions[k], db, summary
      ensures Progress(positions, t, jobs, end, summary, start)
      decreases end - from
    {
      if from < end {
        ProcessNth(positions, from, prices, faults, summary, t, jobs, start);
        ProcessBatch(positions, from + 1, end, prices, faults, summary, t, jobs, start);
      }
    }

    /** Every loaded position gets exactly its own tick, for every batch size; the summary counts all results. */
    method ProcessInBatches(positions: seq<Position>, prices: map<string, int>, faults: string -> Faults,
                            summary: Summary, batchSize: nat)
      requires Wired() && Separate(positions) && batchSize > 0
      requires forall k :: 0 <= k < |positions| ==> Loaded(positions[k], db)
      modifies set k | 0 <= k < |positions| :: positions[k], db, summary
      ensures Table(db) == TickAll(old(Table(db)), JobsFor(positions, prices, faults))
      ensures summary.Counters() ==
              Tally(old(summary.Counters()), Results(old(Table(db)), JobsFor(positions, prices, faults)))
    {
      ghost var t, jobs, start := Table(db), JobsFor(positions, prices, faults), summary.Counters();
      var i := 0;
      while i < |positions|
        invariant 0 <= i <= |positions|
        invariant Progress(positions, t, jobs, i, summary, start)
      {
        var end := if i + batchSize <= |positions| then i + batchSize else |positions|;
        ProcessBatch(positions, i, end, prices, faults, summary, t, jobs, start);
        i := end;
      }
      assert jobs[..|positions|] == jobs;
    }

    /** `fetchOpenPositions`: fresh objects for exactly the open rows. */
    method FetchOpen(ids: seq<string>) returns (positions: seq<Position>)
      requires KeyedById(db.positions) && (forall i, j :: 0 <= i < j < |ids| ==> ids[i] != ids[j])
      requires forall i :: 0 <= i < |ids| ==> ids[i] in db.positions
      ensures Separate(positions)
      ensures forall k :: 0 <= k < |positions| ==>
                fresh(positions[k]) && Loaded(positions[k], db) && positions[k].id in ids
      ensures forall i :: 0 <= i < |ids| && db.positions[ids[i]].status == OPEN ==> HasPosition(positions, ids[i])
    {
      positions := [];
      for i := 0 to |ids|
        invariant Separate(positions)
        invariant forall k :: 0 <= k < |positions| ==>
                    fresh(positions[k]) && Loaded(positions[k], db) && positions[k].id in ids[..i]
        invariant forall n :: 0 <= n < i && db.positions[ids[n]].status == OPEN ==> HasPosition(positions, ids[n])
      {
        if db.positions[ids[i]].status == OPEN {
          var p := new Position(db.positions[ids[i]]);
          HasPositionSnoc(positions, p);
          positions := positions + [p];
        }
      }
    }

    /** `run`: a pass over the whole table, unless one is still under way. */
    method Run(ids: seq<string>, feed: Feed, summary: Summary)
      requires Wired() && KeyedById(db.positions)
      requires forall i, j :: 0 <= i < j < |ids| ==> ids[i] != ids[j]
      requires forall id :: id in db.positions <==> id in ids
      modifies this, db, summary
      ensures isRunning == old(isRunning)
      ensures Table(db) == if old(isRunning) then old(Table(db)) else PassTable(old(Table(db)), feed)
    {
      if isRunning {
        return;
      }
      isRunning := true;
      var positions := FetchOpen(ids);
      ghost var t, jobs := Table(db), JobsFor(positions, feed.prices, feed.faults);
      OpenPositionsCovered(positions, ids, feed);
      ProcessInBatches(positions, feed.prices, feed.faults, summary, 10);
      TickAllIsPass(t, jobs, feed);
      isRunning := false;
    }

    lemma OpenPositionsCovered(positions: seq<Position>, ids: seq<string>, feed: Feed)
      requires Separate(positions) && forall id :: id in db.positions <==> id in ids
      requires forall k :: 0 <= k < |positions| ==> Loaded(positions[k], db)
      requires forall i :: 0 <= i < |ids| && db.positions[ids[i]].status == OPEN ==> HasPosition(positions, ids[i])
      ensures JobsCover(Table(db), JobsFor(positions, feed.prices, feed.faults), feed)
    {
      var t, jobs := Table(db), JobsFor(positions, feed.prices, feed.faults);
      forall id | id in t && NoJobFor(jobs, id)
        ensures t[id].row.status != OPEN
      {
        var i :| 0 <= i < |ids| && ids[i] == id;
        assert forall k :: 0 <= k < |positions| ==> jobs[k].id == positions[k].id;
      }
    }

    /**
     * Passes over the life of the service: the tables end as the passes say,
     * and no position without take-profit is ever sold twice.
     */
    method Watch(ids: seq<string>, feeds: seq<Feed>, summary: Summary)
      requires Wired() && !isRunning && KeyedById(db.positions)
      requires forall i, j :: 0 <= i < j < |ids| ==> ids[i] != ids[j]
      requires forall id :: id in db.positions <==> id in ids
      modifies this, db, summary
      ensures Table(db) == RunPasses(old(Table(db)), feeds)
      ensures forall id :: id in old(Table(db)) && Fresh(old(Table(db))[id]) ==>
                id in Table(db) && OneExit(Table(db)[id], old(Table(db))[id].row.quantity)
    {
      ghost var t := Table(db);
      for n := 0 to |feeds|
        invariant !isRunning && Table(db) == RunPasses(t, feeds[..n])
        invariant KeyedById(db.positions) && forall id :: id in db.positions <==> id in ids
      {
        assert feeds[..n + 1][..n] == feeds[..n];
        PassKeepsKeys(db.positions, db.orders, feeds[n]);
        Run(ids, feeds[n], summary);
        KeysFromTable(db.positions, db.orders, ids);
      }
      assert feeds[..|feeds|] == feeds;
      forall id | id in t && Fresh(t[id])
        ensures id in Table(db) && OneExit(Table(db)[id], t[id].row.quantity)
      {
        PassesSellOnce(t, feeds, id);
      }
    }
  }

  /** The identity of rows, seen on the table. */
  ghost predicate TableKeyed(t: map<string, State>)
  {
    forall id :: id in t ==> t[id].row.id == id
  }

  lemma PassKeepsKeys(positions: map<string, Row>, orders: seq<Order>, feed: Feed)
    requires KeyedById(positions)
    ensures var t := PassTable(TableOf(positions, orders), feed); TableKeyed(t) && t.Keys == positions.Keys
  {
    var t := TableOf(positions, orders);
    forall id | id in t
      ensures TickState(t[id], PriceOf(feed.prices, t[id].row.symbol), feed.faults(id)).row.id == id
    {
      TickKeepsIdentity(t[id], PriceOf(feed.prices, t[id].row.symbol), feed.faults(id));
    }
  }

  lemma KeysFromTable(positions: map<string, Row>, orders: seq<Order>, ids: seq<string>)
    requires TableKeyed(TableOf(positions, orders))
    requires forall id :: id in TableOf(positions, orders) <==> id in ids
    ensures KeyedById(positions) && forall id :: id in positions <==> id in ids
  {
    var t := TableOf(positions, orders);
    forall id | id in positions
      ensures positions[id].id == id
    {
      assert id in t && t[id].row == positions[id];
    }
    assert t.Keys == positions.Keys;
  }
}
