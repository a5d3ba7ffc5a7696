/**
 * Achievement tracking (src/Create Achievement and Badge System/achievements.service.ts):
 * streaks and counters in memory, one progress row per user and badge, and an
 * event when a badge is awarded.
 */
module Achievements {

  import opened Options
  import opened RealFacts

  datatype Badge = FirstTrade | TenTrades | HotStreak | Provider | Popular | DiamondHands | ProfitableMonth

  /** A row belongs to one user and one badge. */
  datatype Slot = Slot(userId: string, badge: Badge)

  datatype Row = Row(progress: Option<int>, awardedAt: Option<int>)

  datatype Metric = TradeCount | SignalCount

  function MetricName(m: Metric): string
  {
    if m == TradeCount then "trade_count" else "signal_count"
  }

  datatype MetricKey = MetricKey(userId: string, metric: Metric)

  /** The text `${userId}::${metric}` under which a counter is kept. */
  function KeyText(k: MetricKey): string
  {
    k.userId + "::" + MetricName(k.metric)
  }

  /** Different counters have different texts, so the pair stands for the text below. */
  lemma KeyTextInjective(a: MetricKey, b: MetricKey)
    requires KeyText(a) == KeyText(b)
    ensures a == b
  {
    var s, t := KeyText(a), KeyText(b);
    assert s[|s| - 7] == if a.metric == TradeCount then 'e' else 'l';
    assert t[|t| - 7] == if b.metric == TradeCount then 'e' else 'l';
    assert a.userId == s[..|s| - |"::" + MetricName(a.metric)|];
    assert b.userId == t[..|t| - |"::" + MetricName(b.metric)|];
  }

  /** Everything the service remembers, and the award events it has sent. */
  datatype State = State(
    winStreaks: map<string, nat>,
    metrics: map<MetricKey, nat>,
    rows: map<Slot, Row>,
    emitted: seq<Slot>)

  const EMPTY := State(map[], map[], map[], [])

  function Get<K>(m: map<K, nat>, k: K): nat
  {
    if k in m then m[k] else 0
  }

  // ------------------------------------------------------------- evaluation

  /** `Math.min(100, Math.round(value / threshold * 100))`. */
  function Progress(value: real, threshold: real): int
    requires threshold > 0.0
  {
    var p := (value / threshold * 100.0 + 0.5).Floor;
    if p < 100 then p else 100
  }

  /** The nearest whole percentage, upwards on a tie, and never above 100. */
  lemma ProgressIsNearest(value: real, threshold: real)
    requires threshold > 0.0
    ensures var p, exact := Progress(value, threshold), value * 100.0;
            && p <= 100
            && (p < 100 ==> (p as real - 0.5) * threshold <= exact < (p as real + 0.5) * threshold)
            && (p == 100 ==> 99.5 * threshold <= exact)
  {
    var q, p := value / threshold * 100.0, Progress(value, threshold);
    var low, high := p as real - 0.5, p as real + 0.5;
    assert q * threshold == value * 100.0;
    assert low <= q && (p < 100 ==> q < high);
    Scaled(low, q, threshold);
    Scaled(q, high, threshold);
    assert p < 100 ==> q * threshold < high * threshold;
    assert p < 100 ==> value * 100.0 < high * threshold;
  }

  lemma Scaled(a: real, b: real, c: real)
    requires c > 0.0
    ensures a <= b ==> a * c <= b * c
    ensures a < b ==> a * c < b * c
  {
    assert (b - a) * c == b * c - a * c;
  }

  predicate Awarded(s: State, k: Slot)
  {
    k in s.rows && s.rows[k].awardedAt.Some?
  }

  /** The evaluation saves its row, and that save fails: the handler stops there. */
  predicate Throws(s: State, active: set<Badge>, k: Slot, saved: bool)
  {
    k.badge in active && !Awarded(s, k) && !saved
  }

  /** `evaluateAchievement`: an inactive badge is ignored, an awarded one is left alone. */
  function Evaluate(s: State, active: set<Badge>, k: Slot, value: real, threshold: real, saved: bool, now: int): State
    requires threshold > 0.0
  {
    if k.badge !in active || Awarded(s, k) || !saved then s
    else if value >= threshold then s.(rows := s.rows[k := Row(None, Some(now))], emitted := s.emitted + [k])
    else s.(rows := s.rows[k := Row(Some(Progress(value, threshold)), None)])
  }

  /** `awardBadge`: a save that fails leaves no row and sends no event. */
  function Award(s: State, active: set<Badge>, k: Slot, saved: bool, now: int): State
  {
    if k.badge !in active || Awarded(s, k) || !saved then s
    else s.(rows := s.rows[k := Row(None, Some(now))], emitted := s.emitted + [k])
  }

  /** Whether each save a trade may lead to goes through. */
  datatype Saves = Saves(first: bool, ten: bool, streak: bool, diamond: bool)

  datatype Event =
    | Trade(userId: string, profit: real, holdDays: Option<real>, saves: Saves, at: int)
    | SignalCreated(userId: string, saved: bool, at: int)
    | SignalCopied(userId: string, totalCopies: nat, saved: bool, at: int)
    | GreenMonth(userId: string, saved: bool, at: int)

  function NewStreak(s: State, userId: string, profit: real): nat
  {
    if profit > 0.0 then Get(s.winStreaks, userId) + 1 else 0
  }

  /** The bookkeeping of `handleTradeExecuted` that precedes the evaluations. */
  function RecordTrade(s: State, userId: string, profit: real): State
  {
    var key := MetricKey(userId, TradeCount);
    s.(winStreaks := s.winStreaks[userId := NewStreak(s, userId, profit)],
       metrics := s.metrics[key := Get(s.metrics, key) + 1])
  }

  /** The evaluations of a trade in order; the first save that fails ends them. */
  function HandleTrade(s: State, active: set<Badge>, e: Event): State
    requires e.Trade?
  {
    var recorded := RecordTrade(s, e.userId, e.profit);
    EvaluateFirst(recorded, active, e, Get(recorded.metrics, MetricKey(e.userId, TradeCount)),
                  NewStreak(s, e.userId, e.profit))
  }

  function EvaluateFirst(s: State, active: set<Badge>, e: Event, count: nat, streak: nat): State
    requires e.Trade?
  {
    var k := Slot(e.userId, FirstTrade);
    var r := Evaluate(s, active, k, count as real, 1.0, e.saves.first, e.at);
    if Throws(s, active, k, e.saves.first) then r else EvaluateTen(r, active, e, count, streak)
  }

  function EvaluateTen(s: State, active: set<Badge>, e: Event, count: nat, streak: nat): State
    requires e.Trade?
  {
    var k := Slot(e.userId, TenTrades);
    var r := Evaluate(s, active, k, count as real, 10.0, e.saves.ten, e.at);
    if Throws(s, active, k, e.saves.ten) then r else EvaluateStreak(r, active, e, streak)
  }

  function EvaluateStreak(s: State, active: set<Badge>, e: Event, streak: nat): State
    requires e.Trade?
  {
    var k := Slot(e.userId, HotStreak);
    var r := Evaluate(s, active, k, streak as real, 5.0, e.saves.streak, e.at);
    if Throws(s, active, k, e.saves.streak) then r else EvaluateHold(r, active, e)
  }

  function EvaluateHold(s: State, active: set<Badge>, e: Event): State
    requires e.Trade?
  {
    if e.holdDays.None? then s
    else Evaluate(s, active, Slot(e.userId, DiamondHands), e.holdDays.value, 30.0, e.saves.diamond, e.at)
  }

  function RecordSignal(s: State, userId: string): State
  {
    var key := MetricKey(userId, SignalCount);
    s.(metrics := s.metrics[key := Get(s.metrics, key) + 1])
  }

  function HandleSignal(s: State, active: set<Badge>, userId: string, saved: bool, now: int): State
  {
    var recorded := RecordSignal(s, userId);
    Evaluate(recorded, active, Slot(userId, Provider),
             Get(recorded.metrics, MetricKey(userId, SignalCount)) as real, 1.0, saved, now)
  }

  function Step(s: State, active: set<Badge>, e: Event): State
  {
    match e
    case Trade(_, _, _, _, _) => HandleTrade(s, active, e)
    case SignalCreated(u, saved, at) => HandleSignal(s, active, u, saved, at)
    case SignalCopied(u, n, saved, at) => Evaluate(s, active, Slot(u, Popular), n as real, 100.0, saved, at)
    case GreenMonth(u, saved, at) => Award(s, active, Slot(u, ProfitableMonth), saved, at)
  }

  function Run(active: set<Badge>, es: seq<Event>): State
  {
    if es == [] then EMPTY else Step(Run(active, es[..|es| - 1]), active, es[|es| - 1])
  }

  // ------------------------------------------------------------ the service

  class AchievementsService {
    const active: set<Badge>
    var winStreaks: map<string, nat>
    var metrics: map<MetricKey, nat>
    var rows: map<Slot, Row>
    ghost var emitted: seq<Slot>

    ghost function Now(): State
      reads this
    {
      State(winStreaks, metrics, rows, emitted)
    }

    constructor (active: set<Badge>)
      ensures this.active == active && Now() == EMPTY
    {
      this.active := active;
      winStreaks, metrics, rows, emitted := map[], map[], map[], [];
    }

    method EvaluateAchievement(userId: string, badge: Badge, value: real, threshold: real, saved: bool, now: int)
      returns (threw: bool)
      requires threshold > 0.0
      modifies this`rows, this`emitted
      ensures Now() == Evaluate(old(Now()), active, Slot(userId, badge), value, threshold, saved, now)
      ensures threw == Throws(old(Now()), active, Slot(userId, badge), saved)
    {
      threw := false;
      var progress := Progress(value, threshold);
      if badge !in active {
        return;
      }
      var slot := Slot(userId, badge);
      var row := if slot in rows then rows[slot] else Row(Some(progress), None);
      if row.awardedAt.Some? {
        return;
      }
      if !saved {
        return true;
      }
      if value >= threshold {
        rows := rows[slot := Row(None, Some(now))];
        emitted := emitted + [slot];
      } else {
        rows := rows[slot := Row(Some(progress), None)];
      }
    }

    method AwardBadge(userId: string, badge: Badge, saved: bool, now: int)
      modifies this`rows, this`emitted
      ensures Now() == Award(old(Now()), active, Slot(userId, badge), saved, now)
    {
      if badge !in active {
        return;
      }
      var slot := Slot(userId, badge);
      if slot in rows && rows[slot].awardedAt.Some? {
        return;
      }
      if saved {
        rows := rows[slot := Row(None, Some(now))];
        emitted := emitted + [slot];
      }
    }

    method HandleTradeExecuted(userId: string, profit: real, holdDays: Option<real>, saves: Saves, now: int)
      modifies this
      ensures Now() == HandleTrade(old(Now()), active, Trade(userId, profit, holdDays, saves, now))
    {
      var previousStreak := Get(winStreaks, userId);
      var currentStreak := if profit > 0.0 then previousStreak + 1 else 0;
      winStreaks := winStreaks[userId := currentStreak];
      var key := MetricKey(userId, TradeCount);
      var newCount := Get(metrics, key) + 1;
      metrics := metrics[key := newCount];
      assert Now() == RecordTrade(old(Now()), userId, profit);
      ghost var e := Trade(userId, profit, holdDays, saves, now);
      ghost var after := HandleTrade(old(Now()), active, e);
      assert after == EvaluateFirst(Now(), active, e, newCount, currentStreak);
      var threw := EvaluateAchievement(userId, FirstTrade, newCount as real, 1.0, saves.first, now);
      if threw {
        return;
      }
      assert after == EvaluateTen(Now(), active, e, newCount, currentStreak);
      threw := EvaluateAchievement(userId, TenTrades, newCount as real, 10.0, saves.ten, now);
      if threw {
        return;
      }
      assert after == EvaluateStreak(Now(), active, e, currentStreak);
      threw := EvaluateAchievement(userId, HotStreak, currentStreak as real, 5.0, saves.streak, now);
      if !threw && holdDays.Some? {
        threw := EvaluateAchievement(userId, DiamondHands, holdDays.value, 30.0, saves.diamond, now);
      }
    }

    method HandleSignalCreated(userId: string, saved: bool, now: int)
      modifies this
      ensures Now() == HandleSignal(old(Now()), active, userId, saved, now)
    {
      var key := MetricKey(userId, SignalCount);
      var count := Get(metrics, key) + 1;
      metrics := metrics[key := count];
      var _ := EvaluateAchievement(userId, Provider, count as real, 1.0, saved, now);
    }
  }

  // ------------------------------------------------------- awards and events

  /** Award events and awarded rows correspond one to one. */
  ghost predicate Consistent(s: State)
  {
    && (forall i, j :: 0 <= i < j < |s.emitted| ==> s.emitted[i] != s.emitted[j])
    && (forall k :: k in s.emitted <==> Awarded(s, k))
  }

  /** An evaluation awards its own badge when the threshold is met and the save works; nothing else changes. */
  lemma EvaluateEffect(s: State, active: set<Badge>, k: Slot, value: real, threshold: real, saved: bool, now: int)
    requires Consistent(s) && threshold > 0.0
    ensures var r := Evaluate(s, active, k, value, threshold, saved, now);
            && Consistent(r) && r.winStreaks == s.winStreaks && r.metrics == s.metrics
            && (forall x :: Awarded(r, x) <==>
                  Awarded(s, x) || (x == k && k.badge in active && value >= threshold && saved))
            && (forall x :: Awarded(s, x) ==> r.rows[x] == s.rows[x])
            && (k.badge in active && !Awarded(s, k) && saved ==>
                k in r.rows && r.rows[k] == if value >= threshold then Row(None, Some(now))
                                            else Row(Some(Progress(value, threshold)), None))
  {
  }

  lemma AwardEffect(s: State, active: set<Badge>, k: Slot, saved: bool, now: int)
    requires Consistent(s)
    ensures var r := Award(s, active, k, saved, now);
            && Consistent(r) && r.winStreaks == s.winStreaks && r.metrics == s.metrics
            && (forall x :: Awarded(r, x) <==> Awarded(s, x) || (x == k && k.badge in active && saved))
            && (forall x :: Awarded(s, x) ==> r.rows[x] == s.rows[x])
  {
  }

  /** Which badges an event earns, given the user's streak and counters just after it. */
  predicate Earns(e: Event, k: Slot, trades: nat, streak: nat)
  {
    && e.userId == k.userId
    && match k.badge
       case FirstTrade => e.Trade? && trades >= 1
       case TenTrades => e.Trade? && trades >= 10
       case HotStreak => e.Trade? && streak >= 5
       case DiamondHands => e.Trade? && e.holdDays.Some? && e.holdDays.value >= 30.0
       case Provider => e.SignalCreated?
       case Popular => e.SignalCopied? && e.totalCopies >= 100
       case ProfitableMonth => e.GreenMonth?
  }

  /** The evaluation of the badge is reached and its save goes through, as far as the event is concerned. */
  predicate Lands(s: State, active: set<Badge>, e: Event, k: Slot)
  {
    match e
    case Trade(u, _, _, saves, _) =>
      var ten := !Throws(s, active, Slot(u, FirstTrade), saves.first);
      var streak := ten && !Throws(s, active, Slot(u, TenTrades), saves.ten);
      var diamond := streak && !Throws(s, active, Slot(u, HotStreak), saves.streak);
      (match k.badge
       case FirstTrade => saves.first
       case TenTrades => ten && saves.ten
       case HotStreak => streak && saves.streak
       case DiamondHands => diamond && saves.diamond
       case _ => true)
    case SignalCreated(_, saved, _) => saved
    case SignalCopied(_, _, saved, _) => saved
    case GreenMonth(_, saved, _) => saved
  }

  /** What every event does: it awards what it earns and lands, and leaves other awards as they are. */
  ghost predicate Effect(s: State, active: set<Badge>, e: Event, r: State, trades: nat, streak: nat)
  {
    && Consistent(r)
    && (forall x :: Awarded(r, x) <==>
          Awarded(s, x) || (x.badge in active && Earns(e, x, trades, streak) && Lands(s, active, e, x)))
    && (forall x :: Awarded(s, x) ==> r.rows[x] == s.rows[x])
  }

  /** Awards only grow from `s` to `r`, by exactly `gained`, and streaks and counters stay. */
  ghost predicate Gains(s: State, r: State, gained: set<Slot>)
  {
    && Consistent(r) && r.winStreaks == s.winStreaks && r.metrics == s.metrics
    && (forall x :: Awarded(r, x) <==> Awarded(s, x) || x in gained)
    && (forall x :: Awarded(s, x) ==> r.rows[x] == s.rows[x])
  }

  lemma GainsCompose(s: State, m: State, r: State, first: set<Slot>, second: set<Slot>)
    requires Gains(s, m, first) && Gains(m, r, second)
    ensures Gains(s, r, first + second)
  {
  }

  /** What one evaluation gains. */
  function Gain(active: set<Badge>, k: Slot, met: bool, saved: bool): set<Slot>
  {
    if k.badge in active && met && saved then {k} else {}
  }

  lemma EvaluateGains(s: State, active: set<Badge>, k: Slot, value: real, threshold: real, saved: bool, now: int)
    requires Consistent(s) && threshold > 0.0
    ensures Gains(s, Evaluate(s, active, k, value, threshold, saved, now), Gain(active, k, value >= threshold, saved))
    ensures forall x, b :: x != k ==>
              (Throws(Evaluate(s, active, k, value, threshold, saved, now), active, x, b) <==> Throws(s, active, x, b))
  {
    EvaluateEffect(s, active, k, value, threshold, saved, now);
  }

  function HoldGain(active: set<Badge>, e: Event): set<Slot>
    requires e.Trade?
  {
    Gain(active, Slot(e.userId, DiamondHands), e.holdDays.Some? && e.holdDays.value >= 30.0, e.saves.diamond)
  }

  function StreakGain(s: State, active: set<Badge>, e: Event, streak: nat): set<Slot>
    requires e.Trade?
  {
    var k := Slot(e.userId, HotStreak);
    Gain(active, k, streak >= 5, e.saves.streak) +
    if Throws(s, active, k, e.saves.streak) then {} else HoldGain(active, e)
  }

  function TenGain(s: State, active: set<Badge>, e: Event, count: nat, streak: nat): set<Slot>
    requires e.Trade?
  {
    var k := Slot(e.userId, TenTrades);
    Gain(active, k, count >= 10, e.saves.ten) +
    if Throws(s, active, k, e.saves.ten) then {} else StreakGain(s, active, e, streak)
  }

  function FirstGain(s: State, active: set<Badge>, e: Event, count: nat, streak: nat): set<Slot>
    requires e.Trade?
  {
    var k := Slot(e.userId, FirstTrade);
    Gain(active, k, count >= 1, e.saves.first) +
    if Throws(s, active, k, e.saves.first) then {} else TenGain(s, active, e, count, streak)
  }

  lemma HoldGains(s: State, active: set<Badge>, e: Event)
    requires Consistent(s) && e.Trade?
    ensures Gains(s, EvaluateHold(s, active, e), HoldGain(active, e))
  {
    if e.holdDays.Some? {
      EvaluateGains(s, active, Slot(e.userId, DiamondHands), e.holdDays.value, 30.0, e.saves.diamond, e.at);
    }
  }

  lemma StreakGains(s: State, active: set<Badge>, e: Event, streak: nat)
    requires Consistent(s) && e.Trade?
    ensures Gains(s, EvaluateStreak(s, active, e, streak), StreakGain(s, active, e, streak))
  {
    var k := Slot(e.userId, HotStreak);
    var r := Evaluate(s, active, k, streak as real, 5.0, e.saves.streak, e.at);
    EvaluateGains(s, active, k, streak as real, 5.0, e.saves.streak, e.at);
    HoldGains(r, active, e);
    if !Throws(s, active, k, e.saves.streak) {
      GainsCompose(s, r, EvaluateHold(r, active, e), Gain(active, k, streak >= 5, e.saves.streak), HoldGain(active, e));
    }
  }

  lemma TenGains(s: State, active: set<Badge>, e: Event, count: nat, streak: nat)
    requires Consistent(s) && e.Trade?
    ensures Gains(s, EvaluateTen(s, active, e, count, streak), TenGain(s, active, e, count, streak))
  {
    var k := Slot(e.userId, TenTrades);
    var r := Evaluate(s, active, k, count as real, 10.0, e.saves.ten, e.at);
    EvaluateGains(s, active, k, count as real, 10.0, e.saves.ten, e.at);
    StreakGains(r, active, e, streak);
    if !Throws(s, active, k, e.saves.ten) {
      GainsCompose(s, r, EvaluateStreak(r, active, e, streak), Gain(active, k, count >= 10, e.saves.ten),
                   StreakGain(r, active, e, streak));
    }
  }

  lemma FirstGains(s: State, active: set<Badge>, e: Event, count: nat, streak: nat)
    requires Consistent(s) && e.Trade?
    ensures Gains(s, EvaluateFirst(s, active, e, count, streak), FirstGain(s, active, e, count, streak))
  {
    var k := Slot(e.userId, FirstTrade);
    var r := Evaluate(s, active, k, count as real, 1.0, e.saves.first, e.at);
    EvaluateGains(s, active, k, count as real, 1.0, e.saves.first, e.at);
    TenGains(r, active, e, count, streak);
    if !Throws(s, active, k, e.saves.first) {
      GainsCompose(s, r, EvaluateTen(r, active, e, count, streak), Gain(active, k, count >= 1, e.saves.first),
                   TenGain(r, active, e, count, streak));
    }
  }

  /** The gains of a trade are what it earns and lands. */
  lemma TradeGainMeaning(s: State, active: set<Badge>, e: Event, count: nat, streak: nat, x: Slot)
    requires e.Trade?
    ensures x in FirstGain(s, active, e, count, streak) <==>
            x.badge in active && Earns(e, x, count, streak) && Lands(s, active, e, x)
  {
  }

  lemma TradeEffect(s: State, active: set<Badge>, e: Event)
    requires Consistent(s) && e.Trade?
    ensures var r := Step(s, active, e);
            && r.winStreaks == RecordTrade(s, e.userId, e.profit).winStreaks
            && r.metrics == RecordTrade(s, e.userId, e.profit).metrics
            && Effect(s, active, e, r, Get(s.metrics, MetricKey(e.userId, TradeCount)) + 1,
                      NewStreak(s, e.userId, e.profit))
  {
    var s0, streak := RecordTrade(s, e.userId, e.profit), NewStreak(s, e.userId, e.profit);
    var count := Get(s0.metrics, MetricKey(e.userId, TradeCount));
    assert Consistent(s0);
    FirstGains(s0, active, e, count, streak);
    forall x
      ensures x in FirstGain(s0, active, e, count, streak) <==>
              x.badge in active && Earns(e, x, count, streak) && Lands(s, active, e, x)
    {
      TradeGainMeaning(s0, active, e, count, streak, x);
    }
  }

  lemma SignalEffect(s: State, active: set<Badge>, e: Event)
    requires Consistent(s) && e.SignalCreated?
    ensures var r := Step(s, active, e);
            && r.winStreaks == s.winStreaks && r.metrics == RecordSignal(s, e.userId).metrics
            && Effect(s, active, e, r, 0, 0)
  {
    var s0 := RecordSignal(s, e.userId);
    EvaluateEffect(s0, active, Slot(e.userId, Provider), Get(s0.metrics, MetricKey(e.userId, SignalCount)) as real,
                   1.0, e.saved, e.at);
  }

  lemma OtherEffect(s: State, active: set<Badge>, e: Event)
    requires Consistent(s) && (e.SignalCopied? || e.GreenMonth?)
    ensures var r := Step(s, active, e);
            r.winStreaks == s.winStreaks && r.metrics == s.metrics && Effect(s, active, e, r, 0, 0)
  {
    if e.SignalCopied? {
      EvaluateEffect(s, active, Slot(e.userId, Popular), e.totalCopies as real, 100.0, e.saved, e.at);
    } else {
      AwardEffect(s, active, Slot(e.userId, ProfitableMonth), e.saved, e.at);
    }
  }

  // ------------------------------------------------------------ the history

  /** The user's trades in order: was each profitable? */
  function Wins(es: seq<Event>, userId: string): seq<bool>
  {
    if es == [] then []
    else
      var front, e := Wins(es[..|es| - 1], userId), es[|es| - 1];
      if e.Trade? && e.userId == userId then front + [e.profit > 0.0] else front
  }

  function TrailingWins(ws: seq<bool>): nat
  {
    if ws == [] || !ws[|ws| - 1] then 0 else TrailingWins(ws[..|ws| - 1]) + 1
  }

  /** The badge was earned by some event of the history. */
  predicate Earned(es: seq<Event>, k: Slot)
  {
    es != [] &&
    (Earned(es[..|es| - 1], k) ||
     Earns(es[|es| - 1], k, |Wins(es, k.userId)|, TrailingWins(Wins(es, k.userId))))
  }

  /** Counters and streaks follow the history. */
  ghost predicate Tracks(s: State, es: seq<Event>)
  {
    && (forall u :: Get(s.winStreaks, u) == TrailingWins(Wins(es, u)))
    && (forall u :: Get(s.metrics, MetricKey(u, TradeCount)) == |Wins(es, u)|)
  }

  lemma TrailingWinsSnoc(ws: seq<bool>, w: bool)
    ensures TrailingWins(ws + [w]) == if w then TrailingWins(ws) + 1 else 0
  {
    assert (ws + [w])[..|ws|] == ws;
  }

  lemma WinsSnoc(es: seq<Event>, e: Event, userId: string)
    ensures Wins(es + [e], userId) ==
            Wins(es, userId) + if e.Trade? && e.userId == userId then [e.profit > 0.0] else []
  {
    assert (es + [e])[..|es|] == es;
  }

  /** The streak and the trade count after one more event. */
  lemma HistoryOneMore(es: seq<Event>, e: Event, userId: string)
    ensures var won := e.Trade? && e.userId == userId;
            && |Wins(es + [e], userId)| == |Wins(es, userId)| + (if won then 1 else 0)
            && TrailingWins(Wins(es + [e], userId)) ==
               if !won then TrailingWins(Wins(es, userId))
               else if e.profit > 0.0 then TrailingWins(Wins(es, userId)) + 1 else 0
  {
    WinsSnoc(es, e, userId);
    if e.Trade? && e.userId == userId {
      TrailingWinsSnoc(Wins(es, userId), e.profit > 0.0);
    } else {
      assert Wins(es + [e], userId) == Wins(es, userId);
    }
  }

  lemma StepTracks(s: State, active: set<Badge>, es: seq<Event>, e: Event)
    requires Consistent(s) && Tracks(s, es)
    ensures Tracks(Step(s, active, e), es + [e])
  {
    var longer, r := es + [e], Step(s, active, e);
    if e.Trade? {
      TradeEffect(s, active, e);
    } else if e.SignalCreated? {
      SignalEffect(s, active, e);
    } else {
      OtherEffect(s, active, e);
    }
    forall u
      ensures Get(r.winStreaks, u) == TrailingWins(Wins(longer, u))
      ensures Get(r.metrics, MetricKey(u, TradeCount)) == |Wins(longer, u)|
    {
      HistoryOneMore(es, e, u);
    }
  }

  /** The badge is earned by event `e`, which follows history `es`. */
  predicate EarnsAfter(es: seq<Event>, e: Event, k: Slot)
  {
    Earns(e, k, |Wins(es + [e], k.userId)|, TrailingWins(Wins(es + [e], k.userId)))
  }

  lemma TradeAwardsAt(s: State, active: set<Badge>, e: Event, k: Slot)
    requires Consistent(s) && e.Trade?
    ensures Awarded(Step(s, active, e), k) <==>
            Awarded(s, k) || (k.badge in active && Lands(s, active, e, k) &&
                              Earns(e, k, Get(s.metrics, MetricKey(e.userId, TradeCount)) + 1,
                                    NewStreak(s, e.userId, e.profit)))
  {
    TradeEffect(s, active, e);
  }

  lemma StepAwards(s: State, active: set<Badge>, es: seq<Event>, e: Event, k: Slot)
    requires Consistent(s) && Tracks(s, es)
    ensures Awarded(Step(s, active, e), k) <==>
            Awarded(s, k) || (k.badge in active && EarnsAfter(es, e, k) && Lands(s, active, e, k))
  {
    if e.Trade? {
      HistoryOneMore(es, e, k.userId);
      TradeAwardsAt(s, active, e, k);
    } else if e.SignalCreated? {
      SignalEffect(s, active, e);
    } else {
      OtherEffect(s, active, e);
    }
  }

  lemma StepConsistent(s: State, active: set<Badge>, e: Event)
    requires Consistent(s)
    ensures Consistent(Step(s, active, e))
    ensures forall k :: Awarded(s, k) ==> Awarded(Step(s, active, e), k) && Step(s, active, e).rows[k] == s.rows[k]
  {
    if e.Trade? {
      TradeEffect(s, active, e);
    } else if e.SignalCreated? {
      SignalEffect(s, active, e);
    } else {
      OtherEffect(s, active, e);
    }
  }

  lemma {:induction false} RunTracks(active: set<Badge>, es: seq<Event>)
    ensures Consistent(Run(active, es)) && Tracks(Run(active, es), es)
  {
    if es != [] {
      var front, e := es[..|es| - 1], es[|es| - 1];
      assert es == front + [e];
      RunTracks(active, front);
      StepConsistent(Run(active, front), active, e);
      StepTracks(Run(active, front), active, front, e);
    }
  }

  /** The signals a user has created. */
  function Signals(es: seq<Event>, userId: string): nat
  {
    if es == [] then 0
    else
      var e := es[|es| - 1];
      Signals(es[..|es| - 1], userId) + if e.SignalCreated? && e.userId == userId then 1 else 0
  }

  lemma StreakKeepsMetrics(s: State, active: set<Badge>, e: Event, streak: nat)
    requires e.Trade?
    ensures EvaluateStreak(s, active, e, streak).metrics == s.metrics
  {
    var r := Evaluate(s, active, Slot(e.userId, HotStreak), streak as real, 5.0, e.saves.streak, e.at);
    assert r.metrics == s.metrics && EvaluateHold(r, active, e).metrics == r.metrics;
  }

  lemma TenKeepsMetrics(s: State, active: set<Badge>, e: Event, count: nat, streak: nat)
    requires e.Trade?
    ensures EvaluateTen(s, active, e, count, streak).metrics == s.metrics
  {
    var r := Evaluate(s, active, Slot(e.userId, TenTrades), count as real, 10.0, e.saves.ten, e.at);
    StreakKeepsMetrics(r, active, e, streak);
  }

  /** Evaluations change no counter. */
  lemma TradeMetrics(s: State, active: set<Badge>, e: Event)
    requires e.Trade?
    ensures HandleTrade(s, active, e).metrics == RecordTrade(s, e.userId, e.profit).metrics
  {
    var recorded := RecordTrade(s, e.userId, e.profit);
    var count := Get(recorded.metrics, MetricKey(e.userId, TradeCount));
    var r := Evaluate(recorded, active, Slot(e.userId, FirstTrade), count as real, 1.0, e.saves.first, e.at);
    TenKeepsMetrics(r, active, e, count, NewStreak(s, e.userId, e.profit));
  }

  /** The counter of signals is the number of signals the user has created, whatever saves fail. */
  lemma {:induction false} SignalsCounted(active: set<Badge>, es: seq<Event>, userId: string)
    ensures Get(Run(active, es).metrics, MetricKey(userId, SignalCount)) == Signals(es, userId)
  {
    if es != [] {
      var before, e := Run(active, es[..|es| - 1]), es[|es| - 1];
      SignalsCounted(active, es[..|es| - 1], userId);
      if e.Trade? {
        TradeMetrics(before, active, e);
      }
    }
  }

  /** Event number `n` earns the badge and its evaluation lands. */
  ghost predicate AwardsAt(active: set<Badge>, es: seq<Event>, k: Slot, n: nat)
  {
    n < |es| && EarnsAfter(es[..n], es[n], k) && Lands(Run(active, es[..n]), active, es[n], k)
  }

  lemma AwardsInPrefix(active: set<Badge>, es: seq<Event>, k: Slot, n: nat)
    requires n < |es| - 1
    ensures AwardsAt(active, es, k, n) <==> AwardsAt(active, es[..|es| - 1], k, n)
  {
    assert es[..|es| - 1][..n] == es[..n];
  }

  ghost predicate AwardsSome(active: set<Badge>, es: seq<Event>, k: Slot)
  {
    exists n :: 0 <= n < |es| && AwardsAt(active, es, k, n)
  }

  lemma AwardsSomeSnoc(active: set<Badge>, es: seq<Event>, k: Slot)
    requires es != []
    ensures var front, e := es[..|es| - 1], es[|es| - 1];
            AwardsSome(active, es, k) <==>
            AwardsSome(active, front, k) || (EarnsAfter(front, e, k) && Lands(Run(active, front), active, e, k))
  {
    var front, last := es[..|es| - 1], |es| - 1;
    forall n | 0 <= n < last
      ensures AwardsAt(active, es, k, n) <==> AwardsAt(active, front, k, n)
    {
      AwardsInPrefix(active, es, k, n);
    }
    assert AwardsAt(active, es, k, last) <==>
           EarnsAfter(front, es[last], k) && Lands(Run(active, front), active, es[last], k);
  }

  /** Whatever saves fail, a badge is awarded iff it is active and some event earned it and landed. */
  lemma {:induction false} AwardedIffLanded(active: set<Badge>, es: seq<Event>, k: Slot)
    ensures Awarded(Run(active, es), k) <==> k.badge in active && AwardsSome(active, es, k)
  {
    if es != [] {
      var front, e := es[..|es| - 1], es[|es| - 1];
      AwardedIffLanded(active, front, k);
      AwardsSomeSnoc(active, es, k);
      RunTracks(active, front);
      StepAwards(Run(active, front), active, front, e, k);
    }
  }

  lemma {:induction false} EarnedIffSomeEvent(es: seq<Event>, k: Slot)
    ensures Earned(es, k) <==> exists n :: 0 <= n < |es| && EarnsAfter(es[..n], es[n], k)
  {
    if es != [] {
      var front, last := es[..|es| - 1], |es| - 1;
      EarnedIffSomeEvent(front, k);
      assert es == front + [es[last]];
      assert forall n :: 0 <= n < last ==> front[..n] == es[..n] && front[n] == es[n];
    }
  }

  /** An award is always earned, even when saves fail. */
  lemma AwardedImpliesEarned(active: set<Badge>, es: seq<Event>, k: Slot)
    requires Awarded(Run(active, es), k)
    ensures k.badge in active && Earned(es, k)
  {
    AwardedIffLanded(active, es, k);
    EarnedIffSomeEvent(es, k);
    var n :| 0 <= n < |es| && AwardsAt(active, es, k, n);
  }

  predicate AllSaved(e: Event)
  {
    match e
    case Trade(_, _, _, saves, _) => saves == Saves(true, true, true, true)
    case SignalCreated(_, saved, _) => saved
    case SignalCopied(_, _, saved, _) => saved
    case GreenMonth(_, saved, _) => saved
  }

  /** While every save goes through, awarded and earned are the same. */
  lemma AwardedIffEarned(active: set<Badge>, es: seq<Event>, k: Slot)
    requires forall n :: 0 <= n < |es| ==> AllSaved(es[n])
    ensures Awarded(Run(active, es), k) <==> k.badge in active && Earned(es, k)
  {
    AwardedIffLanded(active, es, k);
    EarnedIffSomeEvent(es, k);
    forall n | 0 <= n < |es|
      ensures AwardsAt(active, es, k, n) <==> EarnsAfter(es[..n], es[n], k)
    {
      assert AllSaved(es[n]);
    }
  }

  /** A first trade whose row cannot be saved earns the badge without getting it. */
  lemma EarnedButNotAwarded()
    ensures var k := Slot("u", FirstTrade);
            var es := [Trade("u", 1.0, None, Saves(false, true, true, true), 0)];
            Earned(es, k) && !Awarded(Run({FirstTrade}, es), k)
  {
    var k, e := Slot("u", FirstTrade), Trade("u", 1.0, None, Saves(false, true, true, true), 0);
    assert [e][..0] == [];
    WinsSnoc([], e, "u");
    assert [] + [e] == [e];
    assert Run({FirstTrade}, [e]) == Step(Run({FirstTrade}, []), {FirstTrade}, e);
  }

  /** Five consecutive profitable trades, anywhere in the history. */
  ghost predicate FiveInARow(ws: seq<bool>)
  {
    exists i :: 0 <= i <= |ws| - 5 && AllTrue(ws, i)
  }

  ghost predicate AllTrue(ws: seq<bool>, i: int)
    requires 0 <= i <= |ws| - 5
  {
    ws[i] && ws[i + 1] && ws[i + 2] && ws[i + 3] && ws[i + 4]
  }

  lemma {:induction false} TrailingWinsMeaning(ws: seq<bool>, n: nat)
    ensures TrailingWins(ws) >= n <==> n <= |ws| && forall i :: |ws| - n <= i < |ws| ==> ws[i]
  {
    if n > 0 && ws != [] && ws[|ws| - 1] {
      TrailingWinsMeaning(ws[..|ws| - 1], n - 1);
    }
  }

  lemma FiveInARowSnoc(ws: seq<bool>, w: bool)
    ensures FiveInARow(ws + [w]) <==> FiveInARow(ws) || TrailingWins(ws + [w]) >= 5
  {
    var longer := ws + [w];
    TrailingWinsMeaning(longer, 5);
    if FiveInARow(ws) {
      var i :| 0 <= i <= |ws| - 5 && AllTrue(ws, i);
      assert AllTrue(longer, i);
    }
    if TrailingWins(longer) >= 5 {
      assert AllTrue(longer, |longer| - 5);
    }
    if FiveInARow(longer) {
      var i :| 0 <= i <= |longer| - 5 && AllTrue(longer, i);
      if i <= |ws| - 5 {
        assert AllTrue(ws, i);
      }
    }
  }

  lemma {:induction false} StreakEarnedIff(es: seq<Event>, userId: string)
    ensures Earned(es, Slot(userId, HotStreak)) <==> FiveInARow(Wins(es, userId))
  {
    if es != [] {
      var front, e := es[..|es| - 1], es[|es| - 1];
      StreakEarnedIff(front, userId);
      if e.Trade? && e.userId == userId {
        FiveInARowSnoc(Wins(front, userId), e.profit > 0.0);
      }
    }
  }

  lemma {:induction false} CountEarnedIff(es: seq<Event>, userId: string)
    ensures Earned(es, Slot(userId, TenTrades)) <==> |Wins(es, userId)| >= 10
    ensures Earned(es, Slot(userId, FirstTrade)) <==> |Wins(es, userId)| >= 1
  {
    if es != [] {
      CountEarnedIff(es[..|es| - 1], userId);
    }
  }

  /**
   * Trade badges in terms of the user's trades alone. Whatever saves fail, no
   * badge is awarded without its trades and award events match awards one to
   * one; while every save goes through, the trades also suffice.
   */
  lemma BadgesMatchHistory(active: set<Badge>, es: seq<Event>, userId: string)
    ensures var s, ws := Run(active, es), Wins(es, userId);
            && Consistent(s)
            && (Awarded(s, Slot(userId, HotStreak)) ==> HotStreak in active && FiveInARow(ws))
            && (Awarded(s, Slot(userId, TenTrades)) ==> TenTrades in active && |ws| >= 10)
            && (Awarded(s, Slot(userId, FirstTrade)) ==> FirstTrade in active && |ws| >= 1)
    ensures (forall n :: 0 <= n < |es| ==> AllSaved(es[n])) ==>
              var s, ws := Run(active, es), Wins(es, userId);
              && (Awarded(s, Slot(userId, HotStreak)) <==> HotStreak in active && FiveInARow(ws))
              && (Awarded(s, Slot(userId, TenTrades)) <==> TenTrades in active && |ws| >= 10)
              && (Awarded(s, Slot(userId, FirstTrade)) <==> FirstTrade in active && |ws| >= 1)
  {
    StreakEarnedIff(es, userId);
    CountEarnedIff(es, userId);
    RunTracks(active, es);
    BadgeMatches(active, es, Slot(userId, HotStreak));
    BadgeMatches(active, es, Slot(userId, TenTrades));
    BadgeMatches(active, es, Slot(userId, FirstTrade));
  }

  lemma BadgeMatches(active: set<Badge>, es: seq<Event>, k: Slot)
    ensures Awarded(Run(active, es), k) ==> k.badge in active && Earned(es, k)
    ensures (forall n :: 0 <= n < |es| ==> AllSaved(es[n])) ==>
              (Awarded(Run(active, es), k) <==> k.badge in active && Earned(es, k))
  {
    if Awarded(Run(active, es), k) {
      AwardedImpliesEarned(active, es, k);
    }
    if forall n :: 0 <= n < |es| ==> AllSaved(es[n]) {
      AwardedIffEarned(active, es, k);
    }
  }

  /** An award is permanent, down to its date. */
  lemma {:induction false} AwardsArePermanent(active: set<Badge>, es: seq<Event>, n: nat, k: Slot)
    requires n <= |es| && Awarded(Run(active, es[..n]), k)
    ensures Awarded(Run(active, es), k) && Run(active, es).rows[k] == Run(active, es[..n]).rows[k]
  {
    if n == |es| {
      assert es[..n] == es;
    } else {
      var front := es[..|es| - 1];
      assert front[..n] == es[..n];
      AwardsArePermanent(active, front, n, k);
      RunTracks(active, front);
      StepConsistent(Run(active, front), active, es[|es| - 1]);
    }
  }

  /** A count of whole steps shows full progress exactly when it has met its threshold. */
  lemma ProgressFullOnlyWhenMet(value: nat, threshold: nat)
    requires 0 < threshold <= 100
    ensures Progress(value as real, threshold as real) == 100 <==> value >= threshold
  {
    var v, t, q := value as real, threshold as real, value as real / threshold as real;
    assert q * t == v;
    if value >= threshold {
      assert (q - 1.0) * t == v - t;
      NonNegativeFactor(q - 1.0, t);
      assert q * 100.0 >= 100.0;
    } else {
      assert (1.0 - q) * t == t - v;
      NonNegativeFactor(1.0 - q, t);
      NonNegativeProduct(1.0 - q, 100.0 - t);
      assert (1.0 - q) * (100.0 - t) == (1.0 - q) * 100.0 - (t - v);
      assert q * 100.0 <= 99.0;
    }
  }
}
