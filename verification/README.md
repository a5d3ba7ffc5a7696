# Verified model of the StellarSwipe backend's core logic

A Dafny model of the parts of the backend whose correctness is not visible
from one function body, with proofs over all inputs, runs and failures.

| file | what it models |
|---|---|
| `ModuleGraph.dfy`, `ImportScan.dfy` | the module-graph script: building the import graph, the depth-first cycle detector that gates the build, the bracket scan |
| `CanonicalJson.dfy`, `JsonText.dfy` | the key ordering and the printed text of the OpenAPI artifact, with a JSON reader to read it back |
| `Positions.dfy` | positions, orders and the step functions of one monitoring tick, with an outcome for every database access |
| `PositionServices.dfy`, `MonitorJob.dfy` | the services and the job as they run: objects changed in place, rows saved, orders inserted, batches, whole passes over the table |
| `BatchInterleaving.dfy` | the positions of a batch taking turns, in any order, at one positions table and one orders table |
| `StopLossRuns.dfy`, `StopLossMachine.dfy`, `TakeProfitRuns.dfy` | what stop-loss, trailing stop and take-profit guarantee over whole runs |
| `ExitLedger.dfy` | stop-loss and take-profit on the same position: which ticks sell, which close, and what has been sold in the end |
| `Liquidity.dfy`, `Routing.dfy`, `Quotes.dfy` | DEX liquidity analysis, trade splitting and routing, quote ranking |
| `RateLimiter.dfy` | the fixed-window limiter of the activity feed |
| `ApiKeys.dfy` | verification, rotation with overlap, revocation |
| `Achievements.dfy` | streaks, counters, badges and award events, with row saves that may fail |
| `Templates.dfy` | signal templates and their placeholders |
| `Analytics.dfy` | dashboard intervals, totals and active users |
| `Seeder.dfy` | chunked SQL insertion |
| `Sorting.dfy`, `Options.dfy`, `RealFacts.dfy`, `Sequences.dfy` | the stable sort behind `Array.prototype.sort`, optional values, arithmetic and list facts |

`dafny verify dfyconfig.toml` checks everything.

## How the model reads the code

- Prices are integers in units of 1e-8 and trailing percentages integers in
  units of 0.01 %, as the decimal columns hold them. Quantities, amounts and
  scores are exact reals; `toFixed` rounds to the nearest unit and to the larger
  one on a tie (section 21.1.3.3 of ECMA-262, 2023 edition).
- A database write succeeds, is refused, or takes effect although the caller
  sees an error. Which of these happens is an input of each tick, so the run
  theorems hold for every combination of failures. Every tick reloads the row;
  the overlap guard of the job makes ticks sequential.
- Clocks, random secrets, generated ids, price feeds, the results of formulas
  and the outcome of transactions are parameters. A hash is represented by the
  secret it was made from.
- JavaScript strings compare by UTF-16 code units, and objects enumerate array
  indices first, by number. A sorted OpenAPI object is therefore not always in
  plain string order ("9" comes before "10"), but it is a normal form all the same.
- Where the code and its own words disagree the model follows the code: levels
  are tried in ascending price order although a comment says descending
  (take-profit.service.ts:55), and 30 days of holding already earn the badge
  described as "more than 30 days" (achievements.service.ts:172).

## Findings

Properties one might expect that the code does not have, each with the exact
condition under which it holds:

- A take-profit that closes after its last level, with no save lost, sells
  everything only if some level closes 100 percent (`ClosesSoldOutIff`). Two
  levels of 50 percent close the position with a quarter of it unsold
  (`TwoHalvesLeaveAQuarter`).
- After a partial take-profit a stop-loss closes the position without selling
  the rest, because its lookup finds the take-profit order; the exit price then
  is the take-profit price although the stop fired lower (`StopSellsRestIff`,
  `StopExitsAtOldestFill`, `StopAfterHalfRun`). With no save lost, a position
  closed by stop-loss was sold exactly once iff no take-profit sold anything, or
  take-profits alone sold and one closed 100 percent (`StoppedSoldWholeIff`).
- A take-profit whose order commits while the position save fails sells again.
  With levels the level is repeated (`LostSaveRepeatsLevel`, `LevelConservesIff`),
  and there is one order per level iff no tick loses its save (`NoLevelLostIff`).
  With a single target the whole quantity is sold again (`SoldTwiceRun`), and it
  is sold exactly once iff no committed order lost its save
  (`SingleTargetSoldOnceIff`).
- A stop-loss in the same situation does not sell again itself, but the sold
  position stays open. Without a take-profit it is never sold again and stays
  open iff no later tick reaches the stop with lookup and save taking effect
  (`SoldPositionStrandsIff`, `StrandedRun`). With a take-profit it is sold again
  iff some later tick sells for the take-profit (`SoldAgainIff`,
  `StoppedThenTargetRun`), and it stays open iff no tick of either kind closes
  it (`StaysOpenIff`).
- Dashboard snapshots add up to the summary only if no event falls between the
  requested end and the last interval's end (`EventCountsAgreeIff`,
  `SnapshotsExceedSummary`).
- The rate limiter lets up to 19 events through, not 10, within 60 seconds
  (`ServiceBound`, `NineteenGetThrough`). It stays within 10 over a whole run
  iff at every accepted event the current window and the events carried over
  from earlier windows leave room for it (`SlidingLimitIff`, `ServiceWithinTenIff`).
- A cheaper quote does not always score higher: it does, all else being at least
  equal, iff no quote is free (`StrictlyBetterIff`, `FreeQuoteLevelsFees`).
- A badge that was earned is not awarded when its row save fails or an earlier
  save of the same event fails (`AwardedIffLanded`, `EarnedButNotAwarded`).

## Model

| member | source | states |
|---|---|---|
| `ModuleGraph.DetectCycles` | scripts/generate-module-graph.js:91-115 | the cycle list is empty iff the graph has no directed cycle; every report is a simple cycle (first = last, consecutive edges, distinct interior); no closing edge is reported twice; every cycle of the graph contains the closing edge of some report, so deleting those edges leaves an acyclic graph; when nothing is reported a topological order exists |
| `ModuleGraph.CycleDetector.Dfs` | scripts/generate-module-graph.js:96-109 | one call of the nested search turns the shared sets and the list into exactly the value the recursive function `Visit` gives; `stack` is the set of nodes on `path` at every entry, so `indexOf` always finds its node; the recursion terminates |
| `ModuleGraph.VisitKeepsInv` | scripts/generate-module-graph.js:96-109 | every call keeps the search invariant (stack = path, a simple walk; every other visited node finished; finishing order respects all edges except reported ones), settles its node, and adds back edges only from nodes that were new |
| `ModuleGraph.SearchIsComplete` | scripts/generate-module-graph.js:91-115 | the whole search over all modules: soundness, completeness and the finishing order as a topological order when nothing is reported |
| `ModuleGraph.FinishingCutsCycles` | scripts/generate-module-graph.js:96-115 | any finishing order that covers all modules forces a reported back edge onto every directed cycle |
| `ModuleGraph.ClosesSimpleCycle` | scripts/generate-module-graph.js:97-101 | stepping from the end of a simple path back onto it closes a simple cycle whose last edge is that step |
| `ModuleGraph.IndexOf` | scripts/generate-module-graph.js:98 | the first position of a node that is on the path |
| `ModuleGraph.BuildGraph` | scripts/generate-module-graph.js:76-86 | edges are exactly the imports of all files that declare the module, nodes exactly the declared modules, each dependency listed once |
| `ModuleGraph.AddModule` | scripts/generate-module-graph.js:82-85 | one file adds its module (once) and exactly its imports, and keeps everything else |
| `ModuleGraph.AddImports` | scripts/generate-module-graph.js:83-85 | adding to a Set keeps elements distinct and yields the union |
| `ModuleGraph.ExitCode` | scripts/generate-module-graph.js:117-176 | exit code 1 iff the module files import each other in a circle, else 0 |
| `ImportScan.ArrayContent` | scripts/generate-module-graph.js:50-61 | the scan returns the unique bracket-balanced text between the opening bracket and its partner, and the empty text when the array is never closed |
| `ImportScan.NestedArrayIsClosed` | scripts/generate-module-graph.js:50-61 | for every array literal built by the grammar of nested arrays the partner bracket is its own, whatever text follows |
| `CanonicalJson.SortKeysNormalForm` | scripts/openapi/generate-openapi.ts:51-66 | two documents sort to the identical value iff they say the same up to key order at every depth; sorting twice changes nothing |
| `CanonicalJson.SortKeysPreserves` | scripts/openapi/generate-openapi.ts:55-66 | sorting changes no meaning and keeps property names unique at every depth |
| `CanonicalJson.SortKeysForgetsOrder` | scripts/openapi/generate-openapi.ts:55-66 | documents with the same meaning sort to the identical value, by induction over the document |
| `CanonicalJson.SortKeysEntries` | scripts/openapi/generate-openapi.ts:59-64 | the entries of a sorted object are the sorted values of the original entries, in JavaScript enumeration order: array indices by number, then names by code units |
| `CanonicalJson.OrderedUnique` | scripts/openapi/generate-openapi.ts:60-63 | a property list in enumeration order is determined by the set of its entries |
| `CanonicalJson.LessMeaning` | scripts/openapi/generate-openapi.ts:61 | the sort order of names: the first code unit that differs decides, and a proper prefix comes first |
| `CanonicalJson.IndexExamples` | scripts/openapi/generate-openapi.ts:63 | which names count as array indices when an object is enumerated: decimals without leading zeros up to 4294967294, by value |
| `Sorting.TiesKeepOrder` | scripts/openapi/generate-openapi.ts:60-61 | the sort is stable: elements that compare equal keep the order they had |
| `JsonText.SameTextIffSameDocument` | scripts/openapi/generate-openapi.ts:28-31 | the generated artifacts are identical iff the documents say the same: byte comparison is exact drift detection |
| `JsonText.SerializeUnambiguous` | scripts/openapi/generate-openapi.ts:51-53 | the indented JSON text of a value, followed by anything that cannot continue a number, determines the value and the rest |
| `JsonText.EscapeUnambiguous` | scripts/openapi/generate-openapi.ts:51-53 | an escaped string read up to its closing quote determines the string, for all UTF-16 content including lone surrogates |
| `JsonText.EscapeRead` | scripts/openapi/generate-openapi.ts:51-53 | a reader written from the JSON grammar gets back every string, lone surrogates included, and stops right behind its closing quote |
| `JsonText.ValueRead` | scripts/openapi/generate-openapi.ts:51-53 | the same reader gets back every value from its indented text, at any depth, and stops right behind it |
| `JsonText.ArtifactRead` | scripts/openapi/generate-openapi.ts:28-31 | reading the artifact as JSON gives the sorted document, which says what the document says |
| `JsonText.ArtifactLaidOut` | scripts/openapi/generate-openapi.ts:28-53 | the layout, as rules on the text alone: two spaces of indentation per open bracket, one element or property per line, closing brackets on lines of their own, nothing inside empty ones, one space after a colon, one final line break |
| `JsonText.EscapeForm` | scripts/openapi/generate-openapi.ts:51-53 | which characters are escaped and how: seven short escapes, other control characters and lone surrogates by number in small hexadecimal digits, everything else as it is |
| `JsonText.PairForm` | scripts/openapi/generate-openapi.ts:51-53 | a surrogate pair is printed as it stands |
| `JsonText.UnitForm` | scripts/openapi/generate-openapi.ts:51-53 | every other unit is printed by itself |
| `StopLossRuns.StopLossSellsOnce` | src/Automated Stop-Loss and Take-Profit System/stop-loss.service.ts:54-140 | for a position without take-profit, under every sequence of ticks, new stop levels and failing, refused or unacknowledged writes: at most one exit order, for the whole quantity; if closed, the exit price is that order's fill price |
| `StopLossRuns.StepKeepsOneExit` | src/Automated Stop-Loss and Take-Profit System/stop-loss.service.ts:54-140 | every single event keeps the one-exit invariant |
| `StopLossRuns.ExitsOnlyGrow` | src/Automated Stop-Loss and Take-Profit System/stop-loss.service.ts:91-132 | no later event withdraws or alters an exit order |
| `StopLossRuns.TrailingStopIsRatchet` | src/Automated Stop-Loss and Take-Profit System/trailing-stop.service.ts:30-66 | while the position is open, under any ticks and failures, the stop equals the maximum of the initial stop and the trailed value of every persisted price above entry, although not every new high is recorded; for every trailing percentage |
| `StopLossRuns.UnusablePricesIgnored` | src/Automated Stop-Loss and Take-Profit System/monitor-positions.job.ts:98-104 | ticks without a positive price leave no trace: a run equals the run without them |
| `StopLossRuns.RatchetIsMaximum` | src/Automated Stop-Loss and Take-Profit System/trailing-stop.service.ts:36-50 | the ratchet is an upper bound of the initial stop and all trailed prices above entry, and is one of them |
| `StopLossRuns.TrailingStopNeverFalls` | src/Automated Stop-Loss and Take-Profit System/trailing-stop.service.ts:46-49 | from any tick to any later one the stop does not decrease while the position is open |
| `StopLossRuns.TrailedStopIsNearest` | src/Automated Stop-Loss and Take-Profit System/trailing-stop.service.ts:44 | rounding to 8 decimals picks the nearest unit, the larger on a tie |
| `StopLossRuns.SettingStartsTrailing` | src/Automated Stop-Loss and Take-Profit System/stop-loss.service.ts:38-49 | a stop is accepted iff it lies below entry, and then seeds the trailing state (high = entry, default 5 %) |
| `StopLossRuns.StopAsRequested` | src/Automated Stop-Loss and Take-Profit System/stop-loss.service.ts:32-46 | for every request: accepted iff the position is open and the stop below entry; then trailing iff asked for, the given percentage or 5 %, the high at entry, and every other field as before |
| `StopLossRuns.FixedStopStays` | src/Automated Stop-Loss and Take-Profit System/stop-loss.service.ts:43-46 | a stop set without the trailing flag stays where it was set through every later tick, price and failure |
| `StopLossRuns.TrailsIff` | src/Automated Stop-Loss and Take-Profit System/trailing-stop.service.ts:30-52 | when the trailing update raises the stop and to what: a new high, counted from the entry price if none is recorded, whose trailed value, at 5 % unless given, exceeds the stop |
| `StopLossRuns.ClosesOnFirstCrossing` | src/Automated Stop-Loss and Take-Profit System/monitor-positions.job.ts:106-123 | the case without failures: the position closes on exactly the first tick at or below the (trailing) stop in force, at that price, with one order for the whole quantity; without such a tick it stays open unsold |
| `StopLossMachine.StopLossFollowsMachine` | src/Automated Stop-Loss and Take-Profit System/stop-loss.service.ts:54-140 | for every run of ticks and every failure the stored row and orders are those of a machine that knows only the stop in force, the fill of the one exit order and whether the position is open |
| `StopLossMachine.ClosesOnEffectiveCrossing` | src/Automated Stop-Loss and Take-Profit System/monitor-positions.job.ts:106-123 | whatever fails, the position ends closed iff some tick reached the check at or below the (trailing) stop in force and its lookup, order and save took effect; that tick alone closes it, and the exit price is the fill of the one order |
| `StopLossMachine.SoldPositionStrandsIff` | src/Automated Stop-Loss and Take-Profit System/stop-loss.service.ts:96-106 | a position without take-profit, trailing or not, whose order committed while its save failed is never sold again; over a whole run it stays open iff no tick reaches the check at or below the stop with lookup and save taking effect; when it closes, the exit price is the first order's |
| `StopLossMachine.StrandedRun` | src/Automated Stop-Loss and Take-Profit System/stop-loss.service.ts:66-89 | a run in which a sold position stays open: the save at the stop fails and the price recovers |
| `TakeProfitRuns.LevelsFollowMachine` | src/Automated Stop-Loss and Take-Profit System/take-profit.service.ts:91-129 | for every run of ticks and every failure the executed flags are a prefix of the levels in price order, quantity left and quantity sold follow the levels passed, the position closes exactly when the last level is passed, at the fill price of its last order, and every order beyond one per level stems from a committed order whose position save was lost |
| `TakeProfitRuns.NoLevelLostIff` | src/Automated Stop-Loss and Take-Profit System/take-profit.service.ts:103-116 | over a run there is no order beyond one per level passed iff no tick that reaches the next level commits its order and loses its save; then nothing was sold beyond the levels |
| `TakeProfitRuns.HitMovesMachine` | src/Automated Stop-Loss and Take-Profit System/take-profit.service.ts:96-116 | a tick that reaches the next level moves stored position and machine alike, for every outcome of its two writes |
| `TakeProfitRuns.LeftIsProduct` | src/Automated Stop-Loss and Take-Profit System/take-profit.service.ts:103-116 | what is left after n levels is the initial quantity times the product of 1 - percent/100 |
| `TakeProfitRuns.HitIsNext` | src/Automated Stop-Loss and Take-Profit System/take-profit.service.ts:92-97 | filtering, sorting and searching always hits the next level in price order, and only if the price has reached it |
| `TakeProfitRuns.PriceOrderIsPermutation` | src/Automated Stop-Loss and Take-Profit System/take-profit.service.ts:92-94 | the price order lists every level exactly once, by ascending price |
| `TakeProfitRuns.ClosesSoldOutIff` | src/Automated Stop-Loss and Take-Profit System/take-profit.service.ts:109-113 | a position closed by its last level over a run that lost no save, whatever else failed, has been sold completely iff its quantity is zero or some level closes 100 percent |
| `TakeProfitRuns.SoldWhenClosed` | src/Automated Stop-Loss and Take-Profit System/take-profit.service.ts:103-116 | whatever failed, a position closed by its last level has one order per level plus one per lost save, and sold its quantity minus what the levels leave plus what the lost saves repeated |
| `TakeProfitRuns.TwoHalvesLeaveAQuarter` | src/Automated Stop-Loss and Take-Profit System/take-profit.service.ts:103-116 | a run over two levels of 50 percent ends closed with two orders for three quarters of the quantity |
| `TakeProfitRuns.SingleTargetFollowsMachine` | src/Automated Stop-Loss and Take-Profit System/take-profit.service.ts:50-89 | a single target, for every run and every failure: one order for the whole quantity per lost save plus one if the position closed, closed at the price of the tick that saved it |
| `TakeProfitRuns.SingleTargetSoldOnceIff` | src/Automated Stop-Loss and Take-Profit System/take-profit.service.ts:60-86 | a position closed by its single target was sold exactly once iff it is empty or no committed order lost its save on the way |
| `TakeProfitRuns.NothingLostIff` | src/Automated Stop-Loss and Take-Profit System/take-profit.service.ts:60-86 | no save is lost over a run iff no tick at or above the target, with the position still open, commits its order and loses its save |
| `TakeProfitRuns.SoldTwiceRun` | src/Automated Stop-Loss and Take-Profit System/take-profit.service.ts:60-86 | a run that sells the whole quantity twice: the first save at the target is refused |
| `TakeProfitRuns.LevelConservesIff` | src/Automated Stop-Loss and Take-Profit System/take-profit.service.ts:103-116 | quantity plus sales is conserved by a level that is not the last iff nothing is sold, the order is refused, or order and position are both written |
| `TakeProfitRuns.LostSaveRepeatsLevel` | src/Automated Stop-Loss and Take-Profit System/take-profit.service.ts:131-158 | an order that commits while the position save fails leaves the row unchanged, and the next tick at this price sells the same level again |
| `TakeProfitRuns.LevelTick` | src/Automated Stop-Loss and Take-Profit System/take-profit.service.ts:91-116 | what a tick that hits a level leaves in the database for every outcome of its two writes |
| `TakeProfitRuns.StopSellsRestIff` | src/Automated Stop-Loss and Take-Profit System/stop-loss.service.ts:97-106 | whatever fails, a triggered stop-loss sells what is left iff no exit order exists yet and its own is placed (or nothing is left); it closes iff lookup, order and save take effect; after a partial take-profit it closes without selling the rest, at the price of the oldest take-profit order |
| `TakeProfitRuns.StopAfterHalfRun` | src/Automated Stop-Loss and Take-Profit System/stop-loss.service.ts:97-106 | a run that closes by stop-loss at 90 with half the quantity unsold and the exit price of the take-profit, 110 |
| `ExitLedger.TickComesTo` | src/Automated Stop-Loss and Take-Profit System/monitor-positions.job.ts:98-129 | a tick with both a stop-loss and a take-profit, for every failure: the orders it appends and the row it leaves, in terms of which check fires, sells and saves |
| `ExitLedger.StopExitsAtOldestFill` | src/Automated Stop-Loss and Take-Profit System/stop-loss.service.ts:96-106 | after any run a position closed by stop-loss carries the fill price of its oldest exit order, be it the stop's own or a take-profit's |
| `ExitLedger.SalesConserved` | src/Automated Stop-Loss and Take-Profit System/take-profit.service.ts:103-116 | conservation over every run with both services and all failures: sold plus shown on the row equals what was there plus what stop-loss orders and lost take-profit saves sold without taking it off the row; every order is one of theirs |
| `ExitLedger.OrdersComeFromTicks` | src/Automated Stop-Loss and Take-Profit System/stop-loss.service.ts:108-119 | every order a run adds is a market sell exit order of this position, requested and filled at the price of a tick of the run |
| `ExitLedger.StoppedSoldWholeIff` | src/Automated Stop-Loss and Take-Profit System/stop-loss.service.ts:97-106 | a position closed by stop-loss, no take-profit save lost and every level between 0 and 100 percent: sold exactly once iff no tick sold for a take-profit, or no tick sold for the stop and an executed level closes 100 percent |
| `ExitLedger.SoldAgainIff` | src/Automated Stop-Loss and Take-Profit System/take-profit.service.ts:131-158 | a position that has an exit order gets no further one over a run iff no tick sells for a take-profit |
| `ExitLedger.StaysOpenIff` | src/Automated Stop-Loss and Take-Profit System/stop-loss.service.ts:54-89 | an open position stays open over a run iff no tick closes it by stop-loss or by the last sale of a take-profit |
| `ExitLedger.StoppedThenTargetRun` | src/Automated Stop-Loss and Take-Profit System/take-profit.service.ts:60-80 | a run in which the stop-loss sells, its save fails, and the target then sells the whole quantity again |
| `PositionServices.TrailingStopService.Update` | src/Automated Stop-Loss and Take-Profit System/trailing-stop.service.ts:30-66 | updates object and row as the trailing step says, for every save outcome; other positions untouched |
| `PositionServices.TrailingStopService.Initialize` | src/Automated Stop-Loss and Take-Profit System/trailing-stop.service.ts:72-80 | a trailing position gets its stop from the entry price and its high set to it; others are left alone |
| `PositionServices.StopLossService.SetStopLoss` | src/Automated Stop-Loss and Take-Profit System/stop-loss.service.ts:32-52 | refused unless open and below entry; otherwise stores stop, flags, default percentage and seed high |
| `PositionServices.StopLossService.ExecuteMarketSell` | src/Automated Stop-Loss and Take-Profit System/stop-loss.service.ts:91-132 | reuses an existing exit order, else inserts one, for every transaction outcome; returns the fill price or an error |
| `PositionServices.StopLossService.CheckAndExecute` | src/Automated Stop-Loss and Take-Profit System/stop-loss.service.ts:54-89 | the stop-loss step on object, row and orders, for every failure; reports a hit only when the close was saved |
| `PositionServices.ClosePosition` | src/Automated Stop-Loss and Take-Profit System/stop-loss.service.ts:134-140 | marks the object closed with price and reason and saves it |
| `PositionServices.Database.FindExit` | src/Automated Stop-Loss and Take-Profit System/stop-loss.service.ts:98-100 | finds the oldest market sell exit order of the position, or none |
| `PositionServices.TakeProfitService.CheckMultiLevel` | src/Automated Stop-Loss and Take-Profit System/take-profit.service.ts:91-129 | marks the hit level in place, sells its share, closes or reduces the position; errors escape |
| `PositionServices.TakeProfitService.CheckAndExecute` | src/Automated Stop-Loss and Take-Profit System/take-profit.service.ts:50-89 | dispatches to levels or the single target, whose errors are caught |
| `PositionServices.TakeProfitService.ExecutePartialOrFullSell` | src/Automated Stop-Loss and Take-Profit System/take-profit.service.ts:131-165 | inserts an order for the given percentage of the quantity, without any lookup |
| `MonitorJob.MonitorPositionsJob.CheckPosition` | src/Automated Stop-Loss and Take-Profit System/monitor-positions.job.ts:106-129 | trail, then stop-loss, then take-profit, each skipped as the source skips it |
| `MonitorJob.MonitorPositionsJob.ProcessPosition` | src/Automated Stop-Loss and Take-Profit System/monitor-positions.job.ts:93-134 | one tick of one position with its counters; a missing or non-positive price only counts an error |
| `MonitorJob.TickCountsAs` | src/Automated Stop-Loss and Take-Profit System/monitor-positions.job.ts:98-133 | which counter a tick raises: stop-loss iff the stop closed with a confirmed save, take-profit iff its order and save were confirmed, trailing iff the stop was raised, errors iff the price is unusable, the trailing save failed, or a write of a multi-level take-profit failed |
| `MonitorJob.Summary.Count` | src/Automated Stop-Loss and Take-Profit System/monitor-positions.job.ts:110-131 | each flag of a tick raises the summary field of its name by one |
| `MonitorJob.CountersGrow` | src/Automated Stop-Loss and Take-Profit System/monitor-positions.job.ts:110-131 | each counter grows by exactly the ticks it is named after |
| `MonitorJob.MonitorPositionsJob.ProcessInBatches` | src/Automated Stop-Loss and Take-Profit System/monitor-positions.job.ts:79-91 | from freshly loaded open positions the position and order tables end as if each position had made exactly its own tick of the run model, for every batch size; the summary counts all results |
| `MonitorJob.MonitorPositionsJob.ProcessLoaded` | src/Automated Stop-Loss and Take-Profit System/monitor-positions.job.ts:93-134 | processing one loaded position changes its row and orders as its tick of the run model says and leaves every other row and order list alone |
| `MonitorJob.MonitorPositionsJob.FetchOpen` | src/Automated Stop-Loss and Take-Profit System/monitor-positions.job.ts:136-143 | one new object per open row, each equal to its row; no open row is missing |
| `MonitorJob.MonitorPositionsJob.Run` | src/Automated Stop-Loss and Take-Profit System/monitor-positions.job.ts:36-77 | a cycle gives every row of the table its tick and clears the running flag; while a cycle is under way a second one does nothing |
| `MonitorJob.MonitorPositionsJob.Watch` | src/Automated Stop-Loss and Take-Profit System/monitor-positions.job.ts:35-77 | after any number of cycles, prices and failures, each position without take-profit has at most one exit order in the database, for the whole quantity |
| `MonitorJob.TickAllAt` | src/Automated Stop-Loss and Take-Profit System/monitor-positions.job.ts:85-90 | jobs on different positions do not disturb each other: each ends as its own tick says |
| `MonitorJob.PassesAreRuns` | src/Automated Stop-Loss and Take-Profit System/monitor-positions.job.ts:36-77 | repeated passes over the whole table are, for each position, one run of its own ticks, so every theorem about runs holds of the database |
| `MonitorJob.PassesSellOnce` | src/Automated Stop-Loss and Take-Profit System/monitor-positions.job.ts:36-77 | over repeated passes a position without take-profit gets at most one exit order, for the whole quantity |
| `BatchInterleaving.InterleavingEndsAsSequence` | src/Automated Stop-Loss and Take-Profit System/monitor-positions.job.ts:85-91 | however the positions of a batch take turns at the one positions table and the one orders table, once all have finished the two tables are those that processing the positions one after the other leaves |
| `BatchInterleaving.BatchesEndAsSequence` | src/Automated Stop-Loss and Take-Profit System/monitor-positions.job.ts:79-91 | a cycle of consecutive batches of any size, each with any interleaving and with objects loaded before the first, leaves the tables that `ProcessInBatches` promises |
| `BatchInterleaving.SixAccessesAreATick` | src/Automated Stop-Loss and Take-Profit System/monitor-positions.job.ts:106-129 | the processing of a position, cut at its saves, its order lookup and its order commits, takes at most six accesses and leaves what its tick says, for every failure |
| `BatchInterleaving.OwnTurnsOnly` | src/Automated Stop-Loss and Take-Profit System/monitor-positions.job.ts:87-89 | under every schedule the shared tables hold for a position, alone among the threads in working on it, what its own accesses have made of it |
| `BatchInterleaving.OtherTurn` | src/Automated Stop-Loss and Take-Profit System/stop-loss.service.ts:98-122 | a save, lookup or commit for one position leaves row and exit orders of every other position as they are in the shared tables |
| `BatchInterleaving.SixTurnsFinish` | src/Automated Stop-Loss and Take-Profit System/monitor-positions.job.ts:87-89 | no schedule keeps a position from finishing once it has had six turns |
| `BatchInterleaving.OverlapSellsTwice` | src/Automated Stop-Loss and Take-Profit System/monitor-positions.job.ts:37-40 | two cycles on the same position at once, which the running flag prevents, would both find no order and both sell |
| `Liquidity.GroupByDex` | src/Create Stellar DEX Aggregator Integration/liquidity-analyzer.ts:168-176 | keys in order of first appearance; each group is the input-order selection of its exchange's pools |
| `Liquidity.DexIdsGrow` | src/Create Stellar DEX Aggregator Integration/liquidity-analyzer.ts:168-176 | exchanges keep the order of their first appearance |
| `Liquidity.PoolsOfConcat` | src/Create Stellar DEX Aggregator Integration/liquidity-analyzer.ts:168-176 | a group picks the pools of its exchange in input order |
| `Liquidity.PoolsOfOne` | src/Create Stellar DEX Aggregator Integration/liquidity-analyzer.ts:168-176 | a pool belongs to the group of its own exchange and to no other |
| `Liquidity.GroupingConserves` | src/Create Stellar DEX Aggregator Integration/liquidity-analyzer.ts:168-194 | for every additive quantity the groups together hold exactly what the pools hold |
| `Liquidity.AnalyzePools` | src/Create Stellar DEX Aggregator Integration/liquidity-analyzer.ts:32-81 | the analysis as it runs over the grouping Map equals the analysis over the pools |
| `Liquidity.ConcentrationIsIndex` | src/Create Stellar DEX Aggregator Integration/liquidity-analyzer.ts:63-67 | concentration times the squared total liquidity is the sum over the exchanges of their squared liquidity; 1 without pools, 0 without liquidity |
| `Liquidity.SharesOfExchanges` | src/Create Stellar DEX Aggregator Integration/liquidity-analyzer.ts:178-194 | each exchange's liquidity and volume shares are its percentages of the totals, zero when there is nothing to share, with its number of pools, in order of first appearance |
| `Liquidity.AnalysisFigures` | src/Create Stellar DEX Aggregator Integration/liquidity-analyzer.ts:44-81 | total liquidity and volume; a depth score of 100 from a million on and proportional below; a recommended trade of one percent; the figures for no pools |
| `Liquidity.SharesSumToHundred` | src/Create Stellar DEX Aggregator Integration/liquidity-analyzer.ts:178-194 | with positive total liquidity the shares are non-negative and add up to 100 |
| `Liquidity.ConcentrationBounds` | src/Create Stellar DEX Aggregator Integration/liquidity-analyzer.ts:59-67 | the concentration index lies between 1/n and the dominant share as a fraction, which is at most 1 |
| `Liquidity.DominantIsMaximal` | src/Create Stellar DEX Aggregator Integration/liquidity-analyzer.ts:59-61 | the dominant exchange has the largest share |
| `Liquidity.DominantIsLast` | src/Create Stellar DEX Aggregator Integration/liquidity-analyzer.ts:59-61 | among equals the last exchange is the dominant one |
| `Liquidity.PriceImpactClosedForm` | src/Create Stellar DEX Aggregator Integration/liquidity-analyzer.ts:103-111 | the constant-product computation equals 100 x / (reserveIn + x) |
| `Liquidity.PriceImpactGrows` | src/Create Stellar DEX Aggregator Integration/liquidity-analyzer.ts:103-111 | the impact lies strictly between 0 and 100 and strictly grows with the trade |
| `Liquidity.SlippageClosedForm` | src/Create Stellar DEX Aggregator Integration/liquidity-analyzer.ts:109-127 | slippage is impact plus fee in percent, the impact is reported beside it; executable below 10, a high warning from 10, a moderate one above 2, none up to 2 |
| `Liquidity.SlippageWithoutFigure` | src/Create Stellar DEX Aggregator Integration/liquidity-analyzer.ts:89-127 | a pool without reserves gives total slippage and its own warning; an empty trade into a pool gives no figure and is not executable |
| `Routing.TopPoolsAreMostLiquid` | src/Create Stellar DEX Aggregator Integration/liquidity-analyzer.ts:140-143 | the chosen pools are a prefix of the pools by liquidity: no pool behind a chosen one, chosen or not, holds more |
| `Routing.SplitConservesTrade` | src/Create Stellar DEX Aggregator Integration/liquidity-analyzer.ts:145-165 | the percentages add up to 100 and the amounts to the trade size, also when no pool holds liquidity |
| `Routing.AllocatedByLiquidity` | src/Create Stellar DEX Aggregator Integration/liquidity-analyzer.ts:150-163 | every chosen pool gets the percentage of the trade that its liquidity is of the chosen liquidity, or an equal part when there is none, and that part's amount and slippage |
| `Routing.SplitNeverWorse` | src/Create Stellar DEX Aggregator Integration/liquidity-analyzer.ts:150-163 | no pool in a split shows a higher slippage than the whole trade would have there; its figure is no number iff the pool has reserves but no liquidity of its own while the chosen pools together have some |
| `Routing.RouteWithinQuotes` | src/Create Stellar DEX Aggregator Integration/route-optimizer.service.ts:121-145 | when every chosen pool has a quote, expected output lies between smallest and largest matched quote and source amounts add up to the trade, up to half a 1e-7 unit per leg |
| `Routing.LegsFollowQuotes` | src/Create Stellar DEX Aggregator Integration/route-optimizer.service.ts:121-141 | each leg carries its pool's part of the trade and that part of the output of its exchange's quote, each to the nearest 1e-7, and zero without a quote; three pools unless requested otherwise |
| `Routing.FindQuoteIsFirst` | src/Create Stellar DEX Aggregator Integration/route-optimizer.service.ts:129 | the quote of an exchange is the first one it gave, and none iff it gave none |
| `Routing.MinimumIsDiscounted` | src/Create Stellar DEX Aggregator Integration/route-optimizer.service.ts:142-159 | the expected output is the sum of the legs, and the minimum is that less the tolerance, half a percent unless given, to the nearest unit |
| `Routing.ExpectedIsSum` | src/Create Stellar DEX Aggregator Integration/route-optimizer.service.ts:142-145 | the expected output adds up over the legs |
| `Routing.MinimumBelowExpected` | src/Create Stellar DEX Aggregator Integration/route-optimizer.service.ts:149-159 | for a tolerance between 0 and 100 the guaranteed minimum does not exceed the expected output, which is not negative |
| `Quotes.RankingIsSortedPermutation` | src/Create Stellar DEX Aggregator Integration/price-comparator.ts:50-82 | the ranking is a permutation of the quotes by descending score, ranks 1..n, scores within 0..100 and relative to extremes that cover all quotes and are each attained by one |
| `Quotes.ScoreFormula` | src/Create Stellar DEX Aggregator Integration/price-comparator.ts:57-64 | the score is the sum of 60 times the amount over the largest, 25 times the smallest fee over the fee, and 15 times the confidence over the highest, with the cases of a zero extreme |
| `Quotes.StrictlyBetterIff` | src/Create Stellar DEX Aggregator Integration/price-comparator.ts:57-64 | a quote at least as good on all three scores strictly higher iff it brings more, is more certain, or is cheaper while no quote is free |
| `Quotes.FreeQuoteLevelsFees` | src/Create Stellar DEX Aggregator Integration/price-comparator.ts:62 | next to a free quote one with a fee of half the amount scores just as high |
| `Quotes.RankedPrices` | src/Create Stellar DEX Aggregator Integration/price-comparator.ts:66-82 | the net price is the price less the fee's part of it, and the difference is its distance from the first entry's in percent of that |
| `Quotes.ScaleAttained` | src/Create Stellar DEX Aggregator Integration/price-comparator.ts:51-55 | some quote has the largest amount, some the smallest fee, some the highest confidence of the scale |
| `Quotes.DominanceRespected` | src/Create Stellar DEX Aggregator Integration/price-comparator.ts:57-64 | a quote at least as good on amount, fee and confidence never scores below the one it dominates |
| `Quotes.ScoreBounds` | src/Create Stellar DEX Aggregator Integration/price-comparator.ts:57-64 | every score lies between 0 and 100 |
| `Quotes.SelectIsFirstBest` | src/Create Stellar DEX Aggregator Integration/route-optimizer.service.ts:177-193 | the chosen quote has the highest price, the lowest fee or the shortest path, as the strategy asks, and everything ranked before it is strictly worse; balanced takes the first |
| `RateLimiter.ActivityRateLimiter.IsRateLimited` | src/Implement Activity Feed for User Actions/activity.service.ts:115-131 | decides by the key's record alone and rewrites only that record |
| `RateLimiter.ServiceBound` | src/Implement Activity Feed for User Actions/activity.service.ts:115-131 | over every run with a clock that does not go back, each window accepts at most 10 events per key and any closed 60-second interval at most 19 |
| `RateLimiter.NineteenGetThrough` | src/Implement Activity Feed for User Actions/activity.service.ts:115-131 | a run in which 19 events are accepted within 60 seconds: the bound is tight |
| `RateLimiter.SlidingLimitIff` | src/Implement Activity Feed for User Actions/activity.service.ts:115-131 | over a whole run every 60-second interval holds at most 10 accepted events iff at each accepted event the count of its window and the events carried over from earlier windows leave room for it |
| `RateLimiter.ServiceWithinTenIff` | src/Implement Activity Feed for User Actions/activity.service.ts:115-131 | the same for every key of the service, decided by that key's requests alone |
| `RateLimiter.SlidingCountAtDecision` | src/Implement Activity Feed for User Actions/activity.service.ts:119-130 | just after an accepted event, the events of the last 60 seconds are exactly the count of the record plus those carried over from earlier windows |
| `RateLimiter.NoRolloverNoExcess` | src/Implement Activity Feed for User Actions/activity.service.ts:119-122 | an interval in which no window gives way to another holds at most 10 events |
| `RateLimiter.KeysAreIndependent` | src/Implement Activity Feed for User Actions/activity.service.ts:116-130 | each key sees the limiter as if it were alone |
| `RateLimiter.KeyInjective` | src/Implement Activity Feed for User Actions/activity.service.ts:116 | different user and type pairs never share a map key |
| `RateLimiter.LimitedOnlyWhenFull` | src/Implement Activity Feed for User Actions/activity.service.ts:125-127 | an event is turned away only when ten events were accepted in its still open window |
| `RateLimiter.StepKeepsValid` | src/Implement Activity Feed for User Actions/activity.service.ts:115-131 | every decision keeps the invariant: windows lie apart, each opened by its first event, none above the limit |
| `ApiKeys.ApiKeysService.Verify` | src/api-keys/api-keys.service.ts:108-141 | the first unrevoked key that matches decides; expired overlaps of the keys looked at are cleared |
| `ApiKeys.ApiKeysService.Rotate` | src/api-keys/api-keys.service.ts:231-270 | moves the current hash to the previous one with a bounded deadline iff the user has an unrevoked key with the id; reports not found iff the user has no key with the id, and revoked iff that key is revoked; then nothing changes |
| `ApiKeys.ApiKeysService.Revoke` | src/api-keys/api-keys.service.ts:272-282 | revokes exactly the user's key and drops its overlap |
| `ApiKeys.VerifyTidies` | src/api-keys/api-keys.service.ts:113-123 | a verification drops exactly the overlaps that have ended, of the unrevoked keys up to the one that matches, and changes nothing else |
| `ApiKeys.RotationLeaves` | src/api-keys/api-keys.service.ts:255-259 | a rotation gives the user's unrevoked key the new secret, keeps the old one for at most an hour, and touches no other key or field |
| `ApiKeys.RevocationLeaves` | src/api-keys/api-keys.service.ts:272-282 | a revocation dates the user's key, drops its overlap and touches no other key or field |
| `ApiKeys.VerifyMatchesHistory` | src/api-keys/api-keys.service.ts:108-141 | over every run of rotate, revoke and verify the decision equals the one read off the history alone |
| `ApiKeys.AcceptedIffOwnHistory` | src/api-keys/api-keys.service.ts:130-140 | with secrets never issued twice: accepted iff honoured and not expired, expired iff honoured and past its date, invalid iff not honoured |
| `ApiKeys.ClearingIsInvisible` | src/api-keys/api-keys.service.ts:113-123 | dropping all earlier verifications from a run changes no later decision |
| `ApiKeys.HonouredByAge` | src/api-keys/api-keys.service.ts:124-130 | the newest secret is honoured until revocation, the one before until its deadline, older ones never |
| `ApiKeys.GrantedOverlapIsNearest` | src/api-keys/api-keys.service.ts:251-253 | among all overlaps between zero and one hour the granted one is strictly nearest to the requested one |
| `ApiKeys.DeadlineWithinAnHour` | src/api-keys/api-keys.service.ts:251-259 | a superseded secret dies at a deadline set by the rotation that replaced it: the granted overlap later, hence at most one hour |
| `ApiKeys.RevocationIsFinal` | src/api-keys/api-keys.service.ts:272-282 | after its owner revoked a key no secret of it is honoured, whatever follows |
| `Achievements.AchievementsService.EvaluateAchievement` | src/Create Achievement and Badge System/achievements.service.ts:239-291 | inactive badges are ignored, awarded rows left alone, otherwise award and event or progress; a refused save changes nothing and throws |
| `Achievements.AchievementsService.AwardBadge` | src/Create Achievement and Badge System/achievements.service.ts:297-334 | awards and sends one event unless inactive, already awarded or not saved |
| `Achievements.AchievementsService.HandleTradeExecuted` | src/Create Achievement and Badge System/achievements.service.ts:152-174 | updates streak and count, then evaluates the trade badges in order; a save that throws skips the later ones |
| `Achievements.AchievementsService.HandleSignalCreated` | src/Create Achievement and Badge System/achievements.service.ts:176-181 | counts the signal and evaluates the provider badge, for every outcome of the save |
| `Achievements.BadgesMatchHistory` | src/Create Achievement and Badge System/achievements.service.ts:152-174 | whatever saves fail: hot_streak is awarded only if the user's trades contain five consecutive profitable ones, ten_trades only if there are ten, first_trade only if there is one, and award events and awards correspond one to one; while every save goes through, these conditions also suffice |
| `Achievements.AwardedIffEarned` | src/Create Achievement and Badge System/achievements.service.ts:152-190 | while every save goes through, for every badge: awarded iff active and some event of the history earned it |
| `Achievements.AwardedIffLanded` | src/Create Achievement and Badge System/achievements.service.ts:152-190 | for every outcome of every save: awarded iff active and some event earned it whose own save and all saves before it in the same event went through |
| `Achievements.AwardedImpliesEarned` | src/Create Achievement and Badge System/achievements.service.ts:152-190 | for every outcome of every save no badge is awarded that was not earned |
| `Achievements.EarnedButNotAwarded` | src/Create Achievement and Badge System/achievements.service.ts:271-276 | a first trade whose row cannot be saved earns the badge without getting it |
| `Achievements.AwardsArePermanent` | src/Create Achievement and Badge System/achievements.service.ts:268-269 | an award, with its date, survives every later event |
| `Achievements.EvaluateEffect` | src/Create Achievement and Badge System/achievements.service.ts:239-291 | an evaluation awards its own badge, dated now, iff the threshold is met and the save works; below the threshold it stores the progress; it changes no other award, streak or counter |
| `Achievements.ProgressFullOnlyWhenMet` | src/Create Achievement and Badge System/achievements.service.ts:245-246 | a whole-number count shows 100 percent iff it has met its threshold |
| `Achievements.ProgressIsNearest` | src/Create Achievement and Badge System/achievements.service.ts:246 | the progress is the nearest whole percentage, upwards on a tie, and never above 100 |
| `Achievements.SignalsCounted` | src/Create Achievement and Badge System/achievements.service.ts:176-180 | over every run the counter of signals is the number of signals the user created, whatever saves fail |
| `Achievements.KeyTextInjective` | src/Create Achievement and Badge System/achievements.service.ts:338-340 | different users and metrics never share a counter key |
| `Templates.SignalTemplateService.GenerateSignal` | src/Implement Provider Signal Templates/signal-template.service.ts:116-175 | for every template the service can hold, accepted inputs never lead to a missing placeholder; a success is the signal the inputs deserve, field by field; not found and no access come first; a success raises the usage count by one unless that update is lost, a failure changes nothing |
| `Templates.SignalTemplateService.Create` | src/Implement Provider Signal Templates/signal-template.service.ts:39-50 | stores the template iff all placeholders of all fields are declared; the error lists the undeclared ones |
| `Templates.SignalTemplateService.Update` | src/Implement Provider Signal Templates/signal-template.service.ts:72-101 | owner only; merges the given fields; succeeds iff the merged template declares all its placeholders; bumps the version; tells missing templates from foreign ones |
| `Templates.SignalTemplateService.CloneTemplate` | src/Implement Provider Signal Templates/signal-template.service.ts:190-209 | public or own templates only; the copy is private, version 1, and keeps structure and variables |
| `Templates.SignalTemplateService.SoftDelete` | src/Implement Provider Signal Templates/signal-template.service.ts:103-108 | owner only; the template becomes inactive |
| `Templates.AcceptedInputsNeverMiss` | src/Implement Provider Signal Templates/signal-template.service.ts:127-154 | once the inputs of a consistent template are accepted no field can miss a value |
| `Templates.GeneratesIffDelivers` | src/Implement Provider Signal Templates/signal-template.service.ts:116-175 | a signal is generated iff all declared variables and a positive entry price are given, both formulas yield numbers on the sides of the entry price that the direction asks for, and it is the one with the substituted texts, those numbers, the template's id and version |
| `Templates.SaneMeansRightSides` | src/Implement Provider Signal Templates/signal-template.service.ts:286-309 | long or no direction: stop below entry below target; short: the reverse; in any mixture of small and capital letters; both positive |
| `Templates.MergeReplacesGiven` | src/Implement Provider Signal Templates/signal-template.service.ts:72-101 | an update replaces exactly the fields it gives |
| `Templates.UndeclaredListed` | src/Implement Provider Signal Templates/signal-template.service.ts:252-266 | the complaint names each placeholder that some field uses and nobody declared, once |
| `Templates.DedupeGrows` | src/Implement Provider Signal Templates/signal-template.service.ts:258 | names keep the order of their first use |
| `Templates.OutsideConcat` | src/Implement Provider Signal Templates/signal-template.service.ts:259 | the complaint keeps that order |
| `Templates.MissingOfListed` | src/Implement Provider Signal Templates/signal-template.service.ts:272-275 | the missing variables are exactly those declared and not provided |
| `Templates.MissingOfConcat` | src/Implement Provider Signal Templates/signal-template.service.ts:272-275 | they are listed in the order of declaration |
| `Templates.UndeclaredEmptyIff` | src/Implement Provider Signal Templates/signal-template.service.ts:252-266 | the check on the joined text passes iff every placeholder of every field is declared |
| `Templates.PlaceholdersOfJoin` | src/Implement Provider Signal Templates/signal-template.service.ts:256-257 | scanning the fields joined by blanks finds exactly the placeholders of the fields, in order |
| `Templates.PiecesSpellText` | src/Implement Provider Signal Templates/signal-template.service.ts:217 | the scan loses nothing: literal characters and placeholders spell the text |
| `Templates.FillFailsIff` | src/Implement Provider Signal Templates/signal-template.service.ts:213-221 | substitution fails iff some placeholder has no value, and names such a placeholder |
| `Templates.FillConcat` | src/Implement Provider Signal Templates/signal-template.service.ts:213-221 | filling two texts one after the other is filling their concatenation |
| `Templates.HoleBecomesValue` | src/Implement Provider Signal Templates/signal-template.service.ts:217-220 | a placeholder becomes its value and the text behind it goes on as if it stood alone; without a value the first such name is reported |
| `Templates.SubstituteInText` | src/Implement Provider Signal Templates/signal-template.service.ts:213-221 | plain text, a placeholder and any further text become the plain text, the value and the substituted rest |
| `Templates.ScanStep` | src/Implement Provider Signal Templates/signal-template.service.ts:217 | placeholders are found from the left: where a name in double braces starts it is taken, elsewhere one character |
| `Templates.WordEdges` | src/Implement Provider Signal Templates/signal-template.service.ts:217 | which characters a name may hold: letters, digits and the underscore, up to their neighbours in the code table |
| `Templates.FillKeepsPlainText` | src/Implement Provider Signal Templates/signal-template.service.ts:213-221 | a text without placeholders comes through unchanged |
| `Analytics.BuildIntervals` | src/analytics/analytics.service.ts:400-414 | intervals tile the time from the start without gap or overlap, each one calendar step long; they end at the first boundary at or past the end, or where the step does not advance |
| `Analytics.SnapshotsAddUp` | src/analytics/analytics.service.ts:127-135 | whatever is summed, the snapshots of a tiling add up to the tiled range |
| `Analytics.TotalOfOne` | src/analytics/analytics.service.ts:261-275 | an event counts from the start of a range up to, but not including, its end |
| `Analytics.FiguresOfOne` | src/analytics/analytics.service.ts:261-275 | what one event adds to the count, the count of its type and the revenue |
| `Analytics.EventCountsAgreeIff` | src/analytics/analytics.service.ts:259-285 | snapshot event counts add up to the range's count iff no event falls between the range's end and the last boundary |
| `Analytics.SnapshotsExceedSummary` | src/analytics/analytics.service.ts:127-135 | one event past the requested end but inside the last interval is in the snapshots and not in the summary |
| `Analytics.SummaryIffNothingBeyond` | src/analytics/analytics.service.ts:127-135 | snapshots exceed the summary by exactly what lies past the range's end |
| `Analytics.DashboardTotalsAgree` | src/analytics/analytics.service.ts:261-275 | for a range that ends on a boundary, counts, counts by type and revenue of the snapshots add up to the summary |
| `Analytics.ActiveUsersBetween` | src/analytics/analytics.service.ts:262-275 | active users of the range are at most the sum over the intervals and at least those of any interval inside the range |
| `Analytics.ActiveIff` | src/analytics/analytics.service.ts:264 | a user is active iff some event of the range carries that user |
| `Seeder.Chunk` | src/Dev-Sandbox-Env/data-seeder.ts:148-154 | the chunks concatenate back to the rows, none is empty, all but the last are full |
| `Seeder.BuildInsert` | src/Dev-Sandbox-Env/data-seeder.ts:117-146 | placeholders are numbered 1, 2, 3, ... through the statement and each refers to the cell of its row and column, the prefix included |
| `Seeder.BatchInsert` | src/Dev-Sandbox-Env/data-seeder.ts:33-81 | inserted plus skipped equals the row count and committed plus failed the chunk count, whichever chunks fail; committed statements insert exactly the rows of the committed chunks; a dry run sends nothing |
| `Seeder.AllCommitted` | src/Dev-Sandbox-Env/data-seeder.ts:58-77 | when no chunk fails, all chunks are committed and no error is counted |

## Left out

- Floating point: prices, percentages, quantities and scores are exact; rounding errors of binary arithmetic are not modelled.
- Interleavings of two verifications or two events: each is one step. Those of the positions of a batch are modelled.
- `MonitorPositionsJob.ProcessInBatches`: the method takes the positions of a batch in order; that concurrency changes nothing is shown on values by `BatchesEndAsSequence`, for the tables and not for the counters of the summary.
- `StoppedSoldWholeIff`: level percentages above 100 are excluded, as the description in set-take-profit.dto.ts:10 does although only positivity is checked; `SalesConserved` covers them, and lost saves.
- The insert of an order before its commit: invisible to other transactions, so insert and commit are one access.
- `MonitorPositionsJob.Watch`: speaks of cycles only; new stop levels between cycles are covered by `StopLossSellsOnce`.
- `pnl` figures, notification events and log output of the exit services: derived values without state.
- `MonitorPositionsJob.Run`: the price request is a parameter, and the figures `checkedPositions` and `durationMs` are not kept; a failed request leaves the tables as a cycle without prices does.
- Row saves of badges that take effect although the caller sees an error: a badge row is either saved or refused.
- The identifier regular expression and the decorator search in `parseModule`: the graph starts from the imports found per file. A module that imports itself is dropped there and so never reported.
- The Mermaid output of the module graph script.
- `JSON.stringify` on values outside JSON (undefined, functions, dates) and the decimal text of numbers, which is taken as given.
- `findArbitrageOpportunities`, the standard deviation and the optimisation score of routes: straight-line arithmetic.
- `buildSingleRoute`: hops and amounts copied from the chosen quote.
- Activity feed paging, descriptions and archiving: would only add short members.
- `evaluateFormula`: delegates to the JavaScript evaluator; its result is a parameter of `Generate`.
- The comma-separated storage of template variables, and update fields that are present but undefined.
- API key creation, usage tracking, last-used throttling and the per-hour counter: the modelled history starts from keys as created.
- `retroactivelyEvaluate` and `ensureProgressRows`: the first overwrites counters with outside figures, so streaks no longer follow the history; the second only adds empty rows.
- Civil calendar arithmetic behind `addPeriod`: any step function is allowed.
- Session averages, conversion ratios, retention and the upsert of snapshots.
- SQL text: statements are placeholder numbers and parameters; rows that `ON CONFLICT DO NOTHING` drops are still counted as inserted, as in the source.
- Subscription tiers, bridges, SSO, payments, tickets, followers, position sizing and all controllers, entities and migrations.
