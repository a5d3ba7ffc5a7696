/**
 * The fixed-window rate limiter of the activity feed
 * (src/Implement Activity Feed for User Actions/activity.service.ts,
 * `isRateLimited`). Times are milliseconds.
 */
module RateLimiter {

  import opened Options

  const WINDOW := 60000
  const LIMIT := 10

  datatype Record = Record(count: nat, windowStart: int)

  /** One decision for one key: the new record, and whether the event is turned away. */
  datatype Decision = Decision(record: Record, limited: bool)

  function Decide(record: Option<Record>, now: int): Decision
  {
    if record.None? || now - record.value.windowStart > WINDOW then Decision(Record(1, now), false)
    else if record.value.count >= LIMIT then Decision(record.value, true)
    else Decision(Record(record.value.count + 1, record.value.windowStart), false)
  }

  // ------------------------------------------------------------ the service

  /** The map key `${userId}:${type}`. */
  function Key(userId: string, kind: string): string
  {
    userId + ":" + kind
  }

  class ActivityRateLimiter {
    var records: map<string, Record>

    constructor ()
      ensures records == map[]
    {
      records := map[];
    }

    method IsRateLimited(userId: string, kind: string, now: int) returns (limited: bool)
      modifies this
      ensures var key := Key(userId, kind);
              var d := Decide(Lookup(old(records), key), now);
              limited == d.limited && records == old(records)[key := d.record]
    {
      var key := Key(userId, kind);
      if key !in records || now - records[key].windowStart > WINDOW {
        records := records[key := Record(1, now)];
        return false;
      }
      var record := records[key];
      if record.count >= LIMIT {
        assert records[key := record] == records;
        return true;
      }
      records := records[key := record.(count := record.count + 1)];
      limited := false;
    }
  }

  function Lookup(records: map<string, Record>, key: string): Option<Record>
  {
    if key in records then Some(records[key]) else None
  }

  /** Activity types are fixed names without a colon, so no two pairs share a key. */
  ghost predicate NoColon(s: string)
  {
    forall i :: 0 <= i < |s| ==> s[i] != ':'
  }

  lemma {:induction false} KeyInjective(u1: string, k1: string, u2: string, k2: string)
    requires NoColon(k1) && NoColon(k2) && Key(u1, k1) == Key(u2, k2)
    ensures u1 == u2 && k1 == k2
    decreases |k1|
  {
    KeyLast(u1, k1);
    KeyLast(u2, k2);
    if k1 != [] {
      KeyInjective(u1, k1[..|k1| - 1], u2, k2[..|k2| - 1]);
      assert k1 == k1[..|k1| - 1] + [k1[|k1| - 1]] && k2 == k2[..|k2| - 1] + [k2[|k2| - 1]];
    }
  }

  lemma KeyLast(u: string, k: string)
    ensures var key := Key(u, k);
            && key[|key| - 1] == (if k == [] then ':' else k[|k| - 1])
            && key[..|key| - 1] == if k == [] then u else Key(u, k[..|k| - 1])
  {
  }

  // ------------------------------------------------------- runs of one key

  /** An accepted event, with the start of the window it was counted in. */
  datatype Accepted = Accepted(time: int, window: int)

  datatype Run = Run(record: Option<Record>, log: seq<Accepted>)

  function StepRun(r: Run, now: int): Run
  {
    var d := Decide(r.record, now);
    Run(Some(d.record), if d.limited then r.log else r.log + [Accepted(now, d.record.windowStart)])
  }

  /** What the limiter has accepted after seeing events at these times. */
  function RunKey(times: seq<int>): Run
  {
    if times == [] then Run(None, []) else StepRun(RunKey(times[..|times| - 1]), times[|times| - 1])
  }

  ghost predicate Nondecreasing(times: seq<int>)
  {
    forall i, j :: 0 <= i < j < |times| ==> times[i] <= times[j]
  }

  /** Ways of picking accepted events: by window, by interval, or by both. */
  datatype Pick =
    | InWindow(window: int)
    | InInterval(from: int, to: int)
    | OldIn(from: int, to: int)
    | NewIn(from: int, to: int)
    | Carried(window: int, from: int)

  predicate Picks(p: Pick, e: Accepted)
  {
    match p
    case InWindow(w) => e.window == w
    case InInterval(from, to) => from <= e.time <= to
    case OldIn(from, to) => from <= e.time <= to && e.window < from
    case NewIn(from, to) => from <= e.time <= to && e.window >= from
    case Carried(w, from) => from <= e.time && e.window < w
  }

  function CountIf(log: seq<Accepted>, p: Pick): nat
  {
    if log == [] then 0
    else CountIf(log[..|log| - 1], p) + if Picks(p, log[|log| - 1]) then 1 else 0
  }

  lemma CountSnoc(log: seq<Accepted>, e: Accepted, p: Pick)
    ensures CountIf(log + [e], p) == CountIf(log, p) + if Picks(p, e) then 1 else 0
  {
    assert (log + [e])[..|log|] == log;
  }

  lemma {:induction false} CountMonotone(log: seq<Accepted>, p: Pick, q: Pick)
    requires forall i :: 0 <= i < |log| && Picks(p, log[i]) ==> Picks(q, log[i])
    ensures CountIf(log, p) <= CountIf(log, q)
    ensures (exists i :: 0 <= i < |log| && Picks(q, log[i]) && !Picks(p, log[i])) ==> CountIf(log, p) < CountIf(log, q)
  {
    if log != [] {
      CountMonotone(log[..|log| - 1], p, q);
    }
  }

  lemma {:induction false} CountSplit(log: seq<Accepted>, p: Pick, q: Pick, r: Pick)
    requires forall i :: 0 <= i < |log| && Picks(p, log[i]) ==> Picks(q, log[i]) || Picks(r, log[i])
    ensures CountIf(log, p) <= CountIf(log, q) + CountIf(log, r)
  {
    if log != [] {
      CountSplit(log[..|log| - 1], p, q, r);
    }
  }

  lemma {:induction false} CountDisjoint(log: seq<Accepted>, p: Pick, q: Pick, r: Pick)
    requires forall i :: 0 <= i < |log| ==>
               (Picks(p, log[i]) <==> Picks(q, log[i]) || Picks(r, log[i])) && !(Picks(q, log[i]) && Picks(r, log[i]))
    ensures CountIf(log, p) == CountIf(log, q) + CountIf(log, r)
  {
    if log != [] {
      CountDisjoint(log[..|log| - 1], p, q, r);
    }
  }

  lemma {:induction false} CountNone(log: seq<Accepted>, p: Pick)
    requires forall i :: 0 <= i < |log| ==> !Picks(p, log[i])
    ensures CountIf(log, p) == 0
  {
    if log != [] {
      CountNone(log[..|log| - 1], p);
    }
  }

  // ---------------------------------------------------- the run's invariant

  /** Every accepted event lies in its window, and windows never overlap. */
  ghost predicate WindowsApart(log: seq<Accepted>)
  {
    && (forall i :: 0 <= i < |log| ==> log[i].window <= log[i].time <= log[i].window + WINDOW)
    && (forall i, j :: 0 <= i < |log| && 0 <= j < |log| && log[i].window < log[j].window ==>
          log[i].window + WINDOW < log[j].window)
  }

  /** A window was opened by an event accepted at its very start. */
  ghost predicate Opened(log: seq<Accepted>, w: int)
  {
    Accepted(w, w) in log
  }

  ghost predicate AllOpened(log: seq<Accepted>)
  {
    forall i :: 0 <= i < |log| ==> Opened(log, log[i].window)
  }

  ghost predicate WindowsBounded(log: seq<Accepted>)
  {
    forall w :: CountIf(log, InWindow(w)) <= LIMIT
  }

  ghost predicate NoLaterWindow(log: seq<Accepted>, w: int)
  {
    forall i :: 0 <= i < |log| ==> log[i].window <= w
  }

  ghost predicate NoLaterTime(log: seq<Accepted>, now: int)
  {
    forall i :: 0 <= i < |log| ==> log[i].time <= now
  }

  ghost predicate Valid(r: Run, now: int)
  {
    && WindowsApart(r.log) && AllOpened(r.log) && WindowsBounded(r.log) && NoLaterTime(r.log, now)
    && match r.record
       case None => r.log == []
       case Some(record) =>
         && record.windowStart <= now && record.count == CountIf(r.log, InWindow(record.windowStart))
         && Opened(r.log, record.windowStart) && NoLaterWindow(r.log, record.windowStart)
  }

  lemma TimesSnoc(log: seq<Accepted>, e: Accepted, before: int)
    requires NoLaterTime(log, before) && before <= e.time
    ensures NoLaterTime(log + [e], e.time)
  {
  }

  lemma ApartSnoc(log: seq<Accepted>, e: Accepted)
    requires WindowsApart(log) && e.window <= e.time <= e.window + WINDOW
    requires forall i :: 0 <= i < |log| ==> log[i].window == e.window || log[i].window + WINDOW < e.window
    ensures WindowsApart(log + [e]) && NoLaterWindow(log + [e], e.window)
  {
  }

  lemma OpenedSnoc(log: seq<Accepted>, e: Accepted)
    requires AllOpened(log) && (Opened(log, e.window) || e.time == e.window)
    ensures AllOpened(log + [e]) && Opened(log + [e], e.window)
  {
    var longer := log + [e];
    assert longer[|log|] == e;
    forall i | 0 <= i < |longer|
      ensures Opened(longer, longer[i].window)
    {
      assert i < |log| ==> Opened(log, log[i].window);
    }
  }

  lemma BoundedSnoc(log: seq<Accepted>, e: Accepted)
    requires WindowsBounded(log) && CountIf(log, InWindow(e.window)) < LIMIT
    ensures WindowsBounded(log + [e])
    ensures CountIf(log + [e], InWindow(e.window)) == CountIf(log, InWindow(e.window)) + 1
  {
    forall w
      ensures CountIf(log + [e], InWindow(w)) <= LIMIT
    {
      CountSnoc(log, e, InWindow(w));
    }
    CountSnoc(log, e, InWindow(e.window));
  }

  lemma OthersEndBefore(log: seq<Accepted>, w: int)
    requires WindowsApart(log) && NoLaterWindow(log, w) && Opened(log, w)
    ensures forall i :: 0 <= i < |log| ==> log[i].window == w || log[i].window + WINDOW < w
  {
    var k :| 0 <= k < |log| && log[k] == Accepted(w, w);
  }

  lemma StepOpens(r: Run, now: int)
    requires r.record.None? || now - r.record.value.windowStart > WINDOW
    ensures StepRun(r, now) == Run(Some(Record(1, now)), r.log + [Accepted(now, now)])
  {
  }

  lemma StepFills(r: Run, now: int)
    requires r.record.Some? && now - r.record.value.windowStart <= WINDOW && r.record.value.count < LIMIT
    ensures var c, w := r.record.value.count, r.record.value.windowStart;
            StepRun(r, now) == Run(Some(Record(c + 1, w)), r.log + [Accepted(now, w)])
  {
  }

  lemma OpenWindowKeepsValid(r: Run, before: int, now: int)
    requires Valid(r, before) && before <= now
    requires r.record.None? || now - r.record.value.windowStart > WINDOW
    ensures Valid(StepRun(r, now), now)
  {
    var e := Accepted(now, now);
    StepOpens(r, now);
    CountNone(r.log, InWindow(now));
    TimesSnoc(r.log, e, before);
    ApartSnoc(r.log, e);
    OpenedSnoc(r.log, e);
    BoundedSnoc(r.log, e);
  }

  lemma FillWindowKeepsValid(r: Run, before: int, now: int)
    requires Valid(r, before) && before <= now
    requires r.record.Some? && now - r.record.value.windowStart <= WINDOW && r.record.value.count < LIMIT
    ensures Valid(StepRun(r, now), now)
  {
    var start := r.record.value.windowStart;
    var e := Accepted(now, start);
    StepFills(r, now);
    OthersEndBefore(r.log, start);
    TimesSnoc(r.log, e, before);
    ApartSnoc(r.log, e);
    OpenedSnoc(r.log, e);
    BoundedSnoc(r.log, e);
  }

  lemma StepKeepsValid(r: Run, before: int, now: int)
    requires Valid(r, before) && before <= now
    ensures Valid(StepRun(r, now), now)
  {
    if r.record.None? || now - r.record.value.windowStart > WINDOW {
      OpenWindowKeepsValid(r, before, now);
    } else if r.record.value.count < LIMIT {
      FillWindowKeepsValid(r, before, now);
    }
  }

  lemma ValidLater(r: Run, now: int, later: int)
    requires Valid(r, now) && now <= later
    ensures Valid(r, later)
  {
  }

  lemma {:induction false} RunIsValid(times: seq<int>, now: int)
    requires Nondecreasing(times) && (times != [] ==> times[|times| - 1] <= now)
    ensures Valid(RunKey(times), now)
  {
    if times != [] {
      var front, last := times[..|times| - 1], times[|times| - 1];
      RunIsValid(front, last);
      StepKeepsValid(RunKey(front), last, last);
      ValidLater(RunKey(times), last, now);
    }
  }

  // ------------------------------------------------------------ the bounds

  /** Events of windows opened before the interval: one window at most, and not its first event. */
  lemma OldWindowBound(r: Run, now: int, from: int)
    requires Valid(r, now)
    ensures CountIf(r.log, OldIn(from, from + WINDOW)) <= LIMIT - 1
  {
    var p := OldIn(from, from + WINDOW);
    if i :| 0 <= i < |r.log| && Picks(p, r.log[i]) {
      var w := r.log[i].window;
      assert Opened(r.log, w);
      var k :| 0 <= k < |r.log| && r.log[k] == Accepted(w, w);
      assert Picks(InWindow(w), r.log[k]) && !Picks(p, r.log[k]);
      CountMonotone(r.log, p, InWindow(w));
    } else {
      CountNone(r.log, p);
    }
  }

  /** Events of windows opened inside the interval: one window at most. */
  lemma NewWindowBound(r: Run, now: int, from: int)
    requires Valid(r, now)
    ensures CountIf(r.log, NewIn(from, from + WINDOW)) <= LIMIT
  {
    var p := NewIn(from, from + WINDOW);
    if i :| 0 <= i < |r.log| && Picks(p, r.log[i]) {
      CountMonotone(r.log, p, InWindow(r.log[i].window));
    } else {
      CountNone(r.log, p);
    }
  }

  lemma ValidBound(r: Run, now: int, from: int)
    requires Valid(r, now)
    ensures CountIf(r.log, InInterval(from, from + WINDOW)) <= 2 * LIMIT - 1
    ensures forall w :: CountIf(r.log, InWindow(w)) <= LIMIT
  {
    OldWindowBound(r, now, from);
    NewWindowBound(r, now, from);
    CountSplit(r.log, InInterval(from, from + WINDOW), OldIn(from, from + WINDOW), NewIn(from, from + WINDOW));
  }

  /** No closed interval of one window length holds more than 19 accepted events of one key. */
  lemma IntervalBound(times: seq<int>, from: int)
    requires Nondecreasing(times)
    ensures CountIf(RunKey(times).log, InInterval(from, from + WINDOW)) <= 2 * LIMIT - 1
    ensures forall w :: CountIf(RunKey(times).log, InWindow(w)) <= LIMIT
  {
    var now := if times == [] then 0 else times[|times| - 1];
    RunIsValid(times, now);
    ValidBound(RunKey(times), now, from);
  }

  /** An event is turned away only when its window is full. */
  lemma LimitedOnlyWhenFull(times: seq<int>, now: int)
    requires Nondecreasing(times) && (times != [] ==> times[|times| - 1] <= now)
    requires Decide(RunKey(times).record, now).limited
    ensures var start := RunKey(times).record.value.windowStart;
            start <= now <= start + WINDOW && CountIf(RunKey(times).log, InWindow(start)) == LIMIT
  {
    RunIsValid(times, now);
  }

  // ------------------------------------------ when ten in sixty seconds holds

  /**
   * Just after an event was accepted, the events of the last 60 seconds are
   * those of the current window and those carried over from earlier windows.
   */
  lemma SlidingCountAtDecision(r: Run, before: int, now: int)
    requires Valid(r, before) && before <= now && !Decide(r.record, now).limited
    ensures var d := Decide(r.record, now);
            CountIf(StepRun(r, now).log, InInterval(now - WINDOW, now)) ==
            d.record.count + CountIf(r.log, Carried(d.record.windowStart, now - WINDOW))
  {
    var start, after := Decide(r.record, now).record.windowStart, StepRun(r, now);
    StepKeepsValid(r, before, now);
    CountDisjoint(after.log, InInterval(now - WINDOW, now), InWindow(start), Carried(start, now - WINDOW));
    CountSnoc(r.log, Accepted(now, start), Carried(start, now - WINDOW));
  }

  /** What a caller can check beforehand: the event is turned away, or the last 60 seconds have room for it. */
  predicate HasRoom(r: Run, now: int)
  {
    var d := Decide(r.record, now);
    d.limited || d.record.count + CountIf(r.log, Carried(d.record.windowStart, now - WINDOW)) <= LIMIT
  }

  /** The events accepted in the closed interval of one window length that starts at `from`. */
  function SlidingCount(log: seq<Accepted>, from: int): nat
  {
    CountIf(log, InInterval(from, from + WINDOW))
  }

  /** No closed interval of one window length holds more than the limit. */
  ghost predicate WithinLimit(log: seq<Accepted>)
  {
    forall from :: SlidingCount(log, from) <= LIMIT
  }

  /** A new latest event matters most for the interval that ends with it. */
  lemma SlidingCountSnoc(log: seq<Accepted>, e: Accepted, from: int)
    requires NoLaterTime(log, e.time)
    ensures SlidingCount(log, from) <= SlidingCount(log + [e], from)
    ensures SlidingCount(log + [e], from) <= SlidingCount(log + [e], e.time - WINDOW) ||
            SlidingCount(log + [e], from) == SlidingCount(log, from)
  {
    CountSnoc(log, e, InInterval(from, from + WINDOW));
    if from <= e.time <= from + WINDOW {
      CountMonotone(log + [e], InInterval(from, from + WINDOW), InInterval(e.time - WINDOW, e.time));
    }
  }

  lemma SnocWithinLimitIff(log: seq<Accepted>, e: Accepted)
    requires NoLaterTime(log, e.time)
    ensures WithinLimit(log + [e]) <==> WithinLimit(log) && SlidingCount(log + [e], e.time - WINDOW) <= LIMIT
  {
    forall from
      ensures SlidingCount(log, from) <= SlidingCount(log + [e], from)
      ensures SlidingCount(log + [e], from) <= SlidingCount(log + [e], e.time - WINDOW) ||
              SlidingCount(log + [e], from) == SlidingCount(log, from)
    {
      SlidingCountSnoc(log, e, from);
    }
  }

  lemma StepWithinLimitIff(r: Run, before: int, now: int)
    requires Valid(r, before) && before <= now
    ensures WithinLimit(StepRun(r, now).log) <==> WithinLimit(r.log) && HasRoom(r, now)
  {
    var d := Decide(r.record, now);
    if !d.limited {
      SlidingCountAtDecision(r, before, now);
      SnocWithinLimitIff(r.log, Accepted(now, d.record.windowStart));
    }
  }

  ghost predicate AlwaysRoom(times: seq<int>)
  {
    forall n :: 0 <= n < |times| ==> HasRoom(RunKey(times[..n]), times[n])
  }

  lemma AlwaysRoomSnoc(times: seq<int>)
    requires times != []
    ensures var front, last := times[..|times| - 1], times[|times| - 1];
            AlwaysRoom(times) <==> AlwaysRoom(front) && HasRoom(RunKey(front), last)
  {
    var front := times[..|times| - 1];
    assert forall n :: 0 <= n < |front| ==> front[..n] == times[..n] && front[n] == times[n];
  }

  /**
   * Ten events per 60 seconds hold over a whole run iff at every accepted event
   * the current window and what earlier windows carry over leave room for it.
   */
  lemma {:induction false} SlidingLimitIff(times: seq<int>)
    requires Nondecreasing(times)
    ensures WithinLimit(RunKey(times).log) <==> AlwaysRoom(times)
  {
    if times != [] {
      var front, last := times[..|times| - 1], times[|times| - 1];
      SlidingLimitIff(front);
      RunIsValid(front, last);
      StepWithinLimitIff(RunKey(front), last, last);
      AlwaysRoomSnoc(times);
    }
  }

  /** An interval in which no window gives way to another stays within the limit. */
  lemma NoRolloverNoExcess(times: seq<int>, from: int)
    requires Nondecreasing(times)
    requires var log, p := RunKey(times).log, InInterval(from, from + WINDOW);
             forall i, j :: 0 <= i < |log| && 0 <= j < |log| && Picks(p, log[i]) && Picks(p, log[j]) ==>
               log[i].window == log[j].window
    ensures CountIf(RunKey(times).log, InInterval(from, from + WINDOW)) <= LIMIT
  {
    var log, p := RunKey(times).log, InInterval(from, from + WINDOW);
    IntervalBound(times, from);
    if i :| 0 <= i < |log| && Picks(p, log[i]) {
      CountMonotone(log, p, InWindow(log[i].window));
    } else {
      CountNone(log, p);
    }
  }

  // ------------------------------------------------------- many keys at once

  datatype Event = Event(key: string, time: int)

  datatype Outcome = Outcome(key: string, accepted: Accepted)

  datatype System = System(records: map<string, Record>, log: seq<Outcome>)

  function StepSystem(s: System, e: Event): System
  {
    var d := Decide(Lookup(s.records, e.key), e.time);
    System(s.records[e.key := d.record],
           if d.limited then s.log else s.log + [Outcome(e.key, Accepted(e.time, d.record.windowStart))])
  }

  function RunSystem(es: seq<Event>): System
  {
    if es == [] then System(map[], []) else StepSystem(RunSystem(es[..|es| - 1]), es[|es| - 1])
  }

  /** The times at which one key was asked for. */
  function TimesOf(es: seq<Event>, key: string): seq<int>
  {
    if es == [] then []
    else
      var front, e := TimesOf(es[..|es| - 1], key), es[|es| - 1];
      if e.key == key then front + [e.time] else front
  }

  function LogOf(log: seq<Outcome>, key: string): seq<Accepted>
  {
    if log == [] then []
    else
      var front, o := LogOf(log[..|log| - 1], key), log[|log| - 1];
      if o.key == key then front + [o.accepted] else front
  }

  lemma LogOfSnoc(log: seq<Outcome>, o: Outcome, key: string)
    ensures LogOf(log + [o], key) == LogOf(log, key) + if o.key == key then [o.accepted] else []
  {
    assert (log + [o])[..|log|] == log;
  }

  /** The part of the system that concerns one key. */
  function View(s: System, key: string): Run
  {
    Run(Lookup(s.records, key), LogOf(s.log, key))
  }

  lemma StepSeenByKey(s: System, e: Event, key: string)
    ensures View(StepSystem(s, e), key) == if e.key == key then StepRun(View(s, key), e.time) else View(s, key)
  {
    var d := Decide(Lookup(s.records, e.key), e.time);
    LogOfSnoc(s.log, Outcome(e.key, Accepted(e.time, d.record.windowStart)), key);
  }

  /** Keys never affect each other: each one sees the limiter as if it were alone. */
  lemma {:induction false} KeysAreIndependent(es: seq<Event>, key: string)
    ensures View(RunSystem(es), key) == RunKey(TimesOf(es, key))
  {
    if es != [] {
      var front, e := es[..|es| - 1], es[|es| - 1];
      KeysAreIndependent(front, key);
      StepSeenByKey(RunSystem(front), e, key);
      if e.key == key {
        RunKeySnoc(TimesOf(front, key), e.time);
      }
    }
  }

  lemma RunKeySnoc(times: seq<int>, now: int)
    ensures RunKey(times + [now]) == StepRun(RunKey(times), now)
  {
    assert (times + [now])[..|times|] == times;
  }

  lemma {:induction false} TimesOfOrdered(es: seq<Event>, key: string)
    requires forall i, j :: 0 <= i < j < |es| ==> es[i].time <= es[j].time
    ensures Nondecreasing(TimesOf(es, key))
    ensures es != [] ==> forall i :: 0 <= i < |TimesOf(es, key)| ==> TimesOf(es, key)[i] <= es[|es| - 1].time
  {
    if es != [] {
      TimesOfOrdered(es[..|es| - 1], key);
    }
  }

  /** For every run of the service with a clock that does not go back, per user and type. */
  lemma ServiceBound(es: seq<Event>, key: string, from: int)
    requires forall i, j :: 0 <= i < j < |es| ==> es[i].time <= es[j].time
    ensures CountIf(LogOf(RunSystem(es).log, key), InInterval(from, from + 60000)) <= 19
    ensures forall w :: CountIf(LogOf(RunSystem(es).log, key), InWindow(w)) <= 10
  {
    KeysAreIndependent(es, key);
    TimesOfOrdered(es, key);
    IntervalBound(TimesOf(es, key), from);
  }

  /** The same for every key of the service: its own requests alone decide. */
  lemma ServiceWithinTenIff(es: seq<Event>, key: string)
    requires forall i, j :: 0 <= i < j < |es| ==> es[i].time <= es[j].time
    ensures WithinLimit(LogOf(RunSystem(es).log, key)) <==> AlwaysRoom(TimesOf(es, key))
  {
    KeysAreIndependent(es, key);
    TimesOfOrdered(es, key);
    SlidingLimitIff(TimesOf(es, key));
  }

  // ------------------------------------------------------ the bound is tight

  /** `n` more events at time `t`. */
  function Again(times: seq<int>, t: int, n: nat): seq<int>
    decreases n
  {
    if n == 0 then times else Again(times + [t], t, n - 1)
  }

  function Burst(log: seq<Accepted>, e: Accepted, n: nat): seq<Accepted>
    decreases n
  {
    if n == 0 then log else Burst(log + [e], e, n - 1)
  }

  lemma OneMoreAccepted(times: seq<int>, t: int, c: nat, w: int, log: seq<Accepted>)
    requires RunKey(times) == Run(Some(Record(c, w)), log) && t - w <= WINDOW && c < LIMIT
    ensures RunKey(times + [t]) == Run(Some(Record(c + 1, w)), log + [Accepted(t, w)])
  {
    RunKeySnoc(times, t);
    StepFills(RunKey(times), t);
  }

  lemma {:induction false} BurstAccepted(times: seq<int>, t: int, n: nat, c: nat, w: int, log: seq<Accepted>)
    requires RunKey(times) == Run(Some(Record(c, w)), log) && t - w <= WINDOW && c + n <= LIMIT
    ensures RunKey(Again(times, t, n)) == Run(Some(Record(c + n, w)), Burst(log, Accepted(t, w), n))
    decreases n
  {
    if n > 0 {
      OneMoreAccepted(times, t, c, w, log);
      BurstAccepted(times + [t], t, n - 1, c + 1, w, log + [Accepted(t, w)]);
    }
  }

  lemma {:induction false} BurstCount(log: seq<Accepted>, e: Accepted, n: nat, p: Pick)
    requires Picks(p, e)
    ensures CountIf(Burst(log, e, n), p) == CountIf(log, p) + n
    decreases n
  {
    if n > 0 {
      CountSnoc(log, e, p);
      BurstCount(log + [e], e, n - 1, p);
    }
  }

  /** Nineteen events within one window length do get through: 9 late ones and the next window's 10. */
  lemma NineteenGetThrough()
    ensures var times := Again(Again([0], 60000, 9) + [60001], 60001, 9);
            CountIf(RunKey(times).log, InInterval(1, 60001)) == 19
  {
    var p := InInterval(1, 1 + WINDOW);
    RunKeySnoc([], 0);
    assert [] + [0] == [0];
    assert RunKey([0]) == Run(Some(Record(1, 0)), [Accepted(0, 0)]);
    BurstAccepted([0], WINDOW, 9, 1, 0, [Accepted(0, 0)]);
    var first := Again([0], WINDOW, 9);
    var log := Burst([Accepted(0, 0)], Accepted(WINDOW, 0), 9);
    BurstCount([Accepted(0, 0)], Accepted(WINDOW, 0), 9, p);
    CountSnoc([], Accepted(0, 0), p);
    assert [] + [Accepted(0, 0)] == [Accepted(0, 0)];
    var second := first + [WINDOW + 1];
    RunKeySnoc(first, WINDOW + 1);
    var opening := Accepted(WINDOW + 1, WINDOW + 1);
    CountSnoc(log, opening, p);
    BurstAccepted(second, WINDOW + 1, 9, 1, WINDOW + 1, log + [opening]);
    BurstCount(log + [opening], opening, 9, p);
  }
}
