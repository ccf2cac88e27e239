/** The periodic collector's worker: when it polls and exports its observers, and the timestamps that come
    out. The instants at which it reads the clock and the commands it finds are given. */
module Periodic {
  import opened Wrappers
  import opened Timer
  import opened Model
  import opened Observation

  const TWO_TO_THE_32: int := 0x1_0000_0000

  // ---------------------------------------------------------------- clocks

  /** The same moment on the monotonic and on the wall clock. */
  datatype CollectorTime = CollectorTime(instant: int, system: int)

  function At(c: CollectorTime, at: int): CollectorTime {
    CollectorTime(at, if at >= c.instant then c.system + (at - c.instant) else c.system - (c.instant - at))
  }

  /** A reading's exported timestamp: rebuilt on the grid from its number, or as recorded when alignment is
      off or the number does not fit 32 bits. */
  function AlignTs(ts: int, seqId: nat, startTs: int, period: Option<nat>): int {
    if period.None? || seqId >= TWO_TO_THE_32 then ts else startTs + period.value * seqId
  }

  // ---------------------------------------------------------------- the worker's steps

  datatype Config = Config(start: CollectorTime, poll: Duration, ship: Duration, align: bool)

  /** The calls made on one observer since it was added: the deadline it was reset to, and for each poll the
      deadline that was due and the time passed on; the first `shipped` of them had been made by the last
      export. */
  datatype Watched = Watched(since: int, startTime: int, due: seq<int>, times: seq<int>, shipped: nat)

  datatype Work = Work(observers: seq<Watched>, observeAt: int, exportAt: int)

  datatype Command = Add | Shutdown

  /** One round of the loop: the instants read before polling, after polling, after exporting, and the
      commands found, each with the two instants a shutdown reads. */
  datatype Turn = Turn(now: int, observed: int, exported: int, commands: seq<(Command, int, int)>)

  function Polled(cfg: Config, o: Watched, due: int, now: int): Watched {
    o.(due := o.due + [due], times := o.times + [At(cfg.start, now).system])
  }

  function ObserveStep(cfg: Config, w: Work, now: int, after: int): Work
    requires IsPeriod(cfg.poll)
  {
    if now < w.observeAt then w
    else
      w.(observers := seq(|w.observers|,
          i requires 0 <= i < |w.observers| => Polled(cfg, w.observers[i], w.observeAt, now)),
         observeAt := NextDeadline(cfg.start.instant, Nanos(cfg.poll), after))
  }

  function ExportStep(cfg: Config, w: Work, now: int, after: int): Work
    requires IsPeriod(cfg.ship)
  {
    if now < w.exportAt then w
    else
      w.(observers := seq(|w.observers|,
          i requires 0 <= i < |w.observers| => w.observers[i].(shipped := |w.observers[i].times|)),
         exportAt := NextDeadline(cfg.start.instant, Nanos(cfg.ship), after))
  }

  function HandleStep(cfg: Config, w: Work, c: (Command, int, int)): Work
    requires IsPeriod(cfg.ship)
  {
    match c.0
    case Add => w.(observers := w.observers + [Watched(w.observeAt, At(cfg.start, w.observeAt).system, [], [], 0)])
    case Shutdown => ExportStep(cfg, w, c.1, c.2)
  }

  /** Commands are handled up to the first shutdown. */
  function HandleAll(cfg: Config, w: Work, cs: seq<(Command, int, int)>): Work
    requires IsPeriod(cfg.ship)
    decreases |cs|
  {
    if |cs| == 0 then w
    else
      var u := HandleStep(cfg, w, cs[0]);
      if cs[0].0.Shutdown? then u else HandleAll(cfg, u, cs[1..])
  }

  predicate Stops(cs: seq<(Command, int, int)>) {
    exists i :: 0 <= i < |cs| && cs[i].0.Shutdown?
  }

  function TurnOnce(cfg: Config, w: Work, t: Turn): Work
    requires IsPeriod(cfg.poll) && IsPeriod(cfg.ship)
  {
    HandleAll(cfg, ExportStep(cfg, ObserveStep(cfg, w, t.now, t.observed), t.now, t.exported), t.commands)
  }

  /** The loop ends with the turn that finds a shutdown. */
  function Run(cfg: Config, w: Work, turns: seq<Turn>): Work
    requires IsPeriod(cfg.poll) && IsPeriod(cfg.ship)
    decreases |turns|
  {
    if |turns| == 0 then w
    else
      var u := TurnOnce(cfg, w, turns[0]);
      if Stops(turns[0].commands) then u else Run(cfg, u, turns[1..])
  }

  function Started(cfg: Config): Work {
    Work([], cfg.start.instant, cfg.start.instant)
  }

  // ---------------------------------------------------------------- what every turn keeps

  /** The clock never runs backwards, and a period from any reading of it can still be represented. */
  predicate InOrder(cfg: Config, clock: int, turns: seq<Turn>)
    decreases |turns|
  {
    |turns| > 0 ==>
      && clock <= turns[0].now <= turns[0].observed && turns[0].observed + Nanos(cfg.poll) < END_OF_TIME
      && InOrder(cfg, turns[0].observed, turns[1..])
  }

  predicate IsConfig(cfg: Config) {
    IsPeriod(cfg.poll) && IsPeriod(cfg.ship) && IsInstant(cfg.start.instant)
  }

  /** Deadlines of successive polls, on the grid and at least a period apart, starting at `since`. */
  ghost predicate OnSchedule(cfg: Config, since: int, due: seq<int>) {
    && (forall k :: 0 <= k < |due| ==> OnGrid(cfg.start.instant, Nanos(cfg.poll), due[k]))
    && (|due| > 0 ==> due[0] == since)
    && (forall k :: 0 < k < |due| ==> due[k - 1] + Nanos(cfg.poll) <= due[k])
  }

  /** The next deadline is beyond the last poll, or is the first one. */
  ghost predicate Upcoming(cfg: Config, o: Watched, observeAt: int) {
    if |o.due| == 0 || |o.times| == 0 then observeAt == o.since
    else o.due[|o.due| - 1] + Nanos(cfg.poll) <= observeAt && o.times[|o.times| - 1] < At(cfg.start, observeAt).system
  }

  /** Recorded times: never before the deadline, and each later than the one before. */
  ghost predicate WatchedOk(cfg: Config, o: Watched) {
    && |o.due| == |o.times| && o.shipped <= |o.times|
    && o.startTime == At(cfg.start, o.since).system
    && OnSchedule(cfg, o.since, o.due)
    && (forall k :: 0 <= k < |o.times| ==> At(cfg.start, o.due[k]).system <= o.times[k])
    && (forall k :: 0 < k < |o.times| ==> o.times[k - 1] < o.times[k])
  }

  ghost predicate Inv(cfg: Config, w: Work) {
    && OnGrid(cfg.start.instant, Nanos(cfg.poll), w.observeAt)
    && forall i :: 0 <= i < |w.observers| ==>
        WatchedOk(cfg, w.observers[i]) && Upcoming(cfg, w.observers[i], w.observeAt)
  }

  lemma PollKeepsWatched(cfg: Config, o: Watched, due: int, now: int, next: int)
    requires IsConfig(cfg) && WatchedOk(cfg, o) && Upcoming(cfg, o, due)
        && OnGrid(cfg.start.instant, Nanos(cfg.poll), due)
    requires due <= now < next && due + Nanos(cfg.poll) <= next
    ensures WatchedOk(cfg, Polled(cfg, o, due, now)) && Upcoming(cfg, Polled(cfg, o, due, now), next)
  {
  }

  lemma ObserveKeepsInv(cfg: Config, w: Work, now: int, after: int)
    requires IsConfig(cfg) && Inv(cfg, w) && now <= after && cfg.start.instant <= now
    requires after + Nanos(cfg.poll) < END_OF_TIME
    ensures Inv(cfg, ObserveStep(cfg, w, now, after))
  {
    if now >= w.observeAt {
      var start, period := cfg.start.instant, Nanos(cfg.poll);
      NextIsLaterIff(start, period, after);
      NextIsOnGrid(start, period, after);
      var next := NextDeadline(start, period, after);
      GridSteps(start, period, w.observeAt, next);
      forall i | 0 <= i < |w.observers|
        ensures var o := Polled(cfg, w.observers[i], w.observeAt, now); WatchedOk(cfg, o) && Upcoming(cfg, o, next)
      {
        PollKeepsWatched(cfg, w.observers[i], w.observeAt, now, next);
      }
    }
  }

  lemma ExportKeepsInv(cfg: Config, w: Work, now: int, after: int)
    requires IsConfig(cfg) && Inv(cfg, w)
    ensures Inv(cfg, ExportStep(cfg, w, now, after))
  {
  }

  lemma {:induction false} HandleAllKeepsInv(cfg: Config, w: Work, cs: seq<(Command, int, int)>)
    requires IsConfig(cfg) && Inv(cfg, w)
    ensures Inv(cfg, HandleAll(cfg, w, cs))
    decreases |cs|
  {
    if |cs| > 0 {
      if cs[0].0.Shutdown? {
        ExportKeepsInv(cfg, w, cs[0].1, cs[0].2);
      } else {
        HandleAllKeepsInv(cfg, HandleStep(cfg, w, cs[0]), cs[1..]);
      }
    }
  }

  lemma {:induction false} RunKeepsInv(cfg: Config, w: Work, clock: int, turns: seq<Turn>)
    requires IsConfig(cfg) && Inv(cfg, w) && InOrder(cfg, clock, turns) && cfg.start.instant <= clock
    ensures Inv(cfg, Run(cfg, w, turns))
    decreases |turns|
  {
    if |turns| > 0 {
      var t := turns[0];
      ObserveKeepsInv(cfg, w, t.now, t.observed);
      ExportKeepsInv(cfg, ObserveStep(cfg, w, t.now, t.observed), t.now, t.exported);
      HandleAllKeepsInv(cfg, ExportStep(cfg, ObserveStep(cfg, w, t.now, t.observed), t.now, t.exported), t.commands);
      RunKeepsInv(cfg, TurnOnce(cfg, w, t), t.observed, turns[1..]);
    }
  }

  // ---------------------------------------------------------------- timestamps

  /** The exported time of an observer's n-th poll with alignment on. */
  function Aligned(cfg: Config, o: Watched, n: nat): int
    requires n < |o.times|
  {
    AlignTs(o.times[n], n, o.startTime, Some(Nanos(cfg.poll)))
  }

  lemma {:induction false} DueIsNoEarlier(cfg: Config, o: Watched, n: nat)
    requires WatchedOk(cfg, o) && n < |o.due|
    ensures o.since + Nanos(cfg.poll) * n <= o.due[n]
    ensures o.since + Nanos(cfg.poll) * n == o.due[n] <==>
        forall k :: 0 < k <= n ==> o.due[k] == o.due[k - 1] + Nanos(cfg.poll)
  {
    if n > 0 {
      DueIsNoEarlier(cfg, o, n - 1);
      assert Nanos(cfg.poll) * n == Nanos(cfg.poll) * (n - 1) + Nanos(cfg.poll);
    }
  }

  /** After any run, for every observer and every poll of it: the aligned time is never after the recorded
      one, and, up to the 2^32nd poll, is the wall time of the poll's own deadline exactly when no tick has
      been skipped since the observer was added. */
  lemma AlignedNeverLate(cfg: Config, turns: seq<Turn>, i: nat, n: nat)
    requires IsConfig(cfg) && InOrder(cfg, cfg.start.instant, turns)
    requires var w := Run(cfg, Started(cfg), turns); i < |w.observers| && n < |w.observers[i].times|
    ensures var o := Run(cfg, Started(cfg), turns).observers[i];
            && Aligned(cfg, o, n) <= o.times[n]
            && |o.due| == |o.times|
            && (n < 0x1_0000_0000 ==>
                  (Aligned(cfg, o, n) == cfg.start.system + (o.due[n] - cfg.start.instant) <==>
                   forall k :: 0 < k <= n ==> o.due[k] == o.due[k - 1] + Nanos(cfg.poll)))
  {
    StartedInv(cfg);
    RunKeepsInv(cfg, Started(cfg), cfg.start.instant, turns);
    DueIsNoEarlier(cfg, Run(cfg, Started(cfg), turns).observers[i], n);
  }

  lemma StartedInv(cfg: Config)
    requires IsConfig(cfg)
    ensures Inv(cfg, Started(cfg))
  {
    assert cfg.start.instant == cfg.start.instant + Nanos(cfg.poll) * 0;
  }

  lemma {:induction false} TimesIncrease(cfg: Config, o: Watched, m: nat, n: nat)
    requires WatchedOk(cfg, o) && m < n < |o.times|
    ensures o.times[m] < o.times[n]
  {
    if m + 1 < n {
      TimesIncrease(cfg, o, m, n - 1);
    }
  }

  lemma AlignedPair(cfg: Config, o: Watched, m: nat, n: nat)
    requires IsConfig(cfg) && WatchedOk(cfg, o) && m < n < |o.times|
    ensures Aligned(cfg, o, m) < Aligned(cfg, o, n)
  {
    TimesIncrease(cfg, o, m, n);
    DueIsNoEarlier(cfg, o, m);
    var p := Nanos(cfg.poll);
    MulMono(p, 1, p, n - m);
    assert p * n == p * m + p * (n - m);
  }

  /** After any run, a series' exported timestamps strictly increase, also across the switch to recorded times
      once poll numbers outgrow 32 bits. */
  lemma SeriesTimesIncrease<V>(cfg: Config, turns: seq<Turn>, i: nat, readings: seq<Reading<V>>, bound: nat)
    requires IsConfig(cfg) && InOrder(cfg, cfg.start.instant, turns)
    requires var w := Run(cfg, Started(cfg), turns); i < |w.observers| && Stamped(readings, w.observers[i].times)
    requires Increasing(readings, bound)
    ensures var o := Run(cfg, Started(cfg), turns).observers[i];
            forall k, l :: 0 <= k < l < |readings| ==>
              AlignTs(readings[k].ts, readings[k].seqId, o.startTime, Some(Nanos(cfg.poll))) <
              AlignTs(readings[l].ts, readings[l].seqId, o.startTime, Some(Nanos(cfg.poll)))
  {
    StartedInv(cfg);
    RunKeepsInv(cfg, Started(cfg), cfg.start.instant, turns);
    var o := Run(cfg, Started(cfg), turns).observers[i];
    forall k, l | 0 <= k < l < |readings|
      ensures AlignTs(readings[k].ts, readings[k].seqId, o.startTime, Some(Nanos(cfg.poll))) <
              AlignTs(readings[l].ts, readings[l].seqId, o.startTime, Some(Nanos(cfg.poll)))
    {
      AlignedPair(cfg, o, readings[k].seqId, readings[l].seqId);
    }
  }

  /** For an observer of a metric, polled by the worker at the times of a run: whatever else happens to the
      metric and its observers, and for every attribute set, the exported timestamps strictly increase. */
  lemma ObserverTimesIncrease<A, V>(
    cfg: Config, turns: seq<Turn>, i: nat,
    kit: Kit<A, V>, init: A, modes: seq<Mode>, events: seq<Event<A>>, j: nat, key: seq<KeyValue>)
    requires IsConfig(cfg) && InOrder(cfg, cfg.start.instant, turns) && j < |modes|
    requires var w := Run(cfg, Started(cfg), turns);
             i < |w.observers| && PollTimes(events, j) == w.observers[i].times
    ensures var o, readings := Run(cfg, Started(cfg), turns).observers[i], Readings(kit, init, modes, events, j, key);
            forall k, l :: 0 <= k < l < |readings| ==>
              AlignTs(readings[k].ts, readings[k].seqId, o.startTime, Some(Nanos(cfg.poll))) <
              AlignTs(readings[l].ts, readings[l].seqId, o.startTime, Some(Nanos(cfg.poll)))
  {
    ReadingsAreStamped(kit, init, modes, events, j, key);
    SequenceIncreases(kit, init, modes, events, j, key);
    SeriesTimesIncrease(
      cfg, turns, i, Readings(kit, init, modes, events, j, key), TrackAfter(kit, init, modes, events, j, key).seqId);
  }

  // ---------------------------------------------------------------- shutdown

  predicate Waiting(w: Work) {
    exists i :: 0 <= i < |w.observers| && w.observers[i].shipped != |w.observers[i].times|
  }

  predicate NoShutdown(turns: seq<Turn>) {
    forall i :: 0 <= i < |turns| ==> !Stops(turns[i].commands)
  }

  lemma {:induction false} RunAppends(cfg: Config, w: Work, turns: seq<Turn>, last: Turn)
    requires IsConfig(cfg) && NoShutdown(turns)
    ensures Run(cfg, w, turns + [last]) == TurnOnce(cfg, Run(cfg, w, turns), last)
    decreases |turns|
  {
    if |turns| == 0 {
      assert turns + [last] == [last] && [last][1..] == [];
    } else {
      assert (turns + [last])[1..] == turns[1..] + [last];
      assert NoShutdown(turns[1..]) by {
        assert forall i :: 0 <= i < |turns[1..]| ==> turns[1..][i] == turns[i + 1];
      }
      RunAppends(cfg, TurnOnce(cfg, w, turns[0]), turns[1..], last);
    }
  }

  lemma {:induction false} HandledUpTo(
    cfg: Config, w: Work, before: seq<(Command, int, int)>, c: (Command, int, int), rest: seq<(Command, int, int)>)
    requires IsConfig(cfg) && !Stops(before) && c.0.Shutdown?
    ensures HandleAll(cfg, w, before + [c] + rest) == HandleStep(cfg, HandleAll(cfg, w, before), c)
    decreases |before|
  {
    var cs := before + [c] + rest;
    if |before| == 0 {
      assert cs[0] == c;
    } else {
      assert cs[0] == before[0] && cs[1..] == before[1..] + [c] + rest;
      assert !Stops(before[1..]) by {
        assert forall i :: 0 <= i < |before[1..]| ==> before[1..][i] == before[i + 1];
      }
      HandledUpTo(cfg, HandleStep(cfg, w, before[0]), before[1..], c, rest);
    }
  }

  /** The round with its commands cut off before the shutdown. */
  function CutShort(last: Turn, before: seq<(Command, int, int)>): Turn {
    last.(commands := before)
  }

  /** A run that ends in a shutdown leaves nothing waiting exactly when, at the shutdown, an export was due or
      nothing waited anyway; if none was due, it leaves everything as it was. */
  lemma ShutdownShipsIff(
    cfg: Config, turns: seq<Turn>, last: Turn, before: seq<(Command, int, int)>, now: int, after: int,
    rest: seq<(Command, int, int)>)
    requires IsConfig(cfg) && NoShutdown(turns) && !Stops(before)
    requires last.commands == before + [(Shutdown, now, after)] + rest
    ensures var w := Run(cfg, Started(cfg), turns + [CutShort(last, before)]);
            var u := Run(cfg, Started(cfg), turns + [last]);
            && (!Waiting(u) <==> now >= w.exportAt || !Waiting(w))
            && (now < w.exportAt ==> u == w)
            && |u.observers| == |w.observers|
            && forall i :: 0 <= i < |u.observers| ==> u.observers[i].times == w.observers[i].times
  {
    var v := Run(cfg, Started(cfg), turns);
    RunAppends(cfg, Started(cfg), turns, last);
    RunAppends(cfg, Started(cfg), turns, CutShort(last, before));
    var x := ExportStep(cfg, ObserveStep(cfg, v, last.now, last.observed), last.now, last.exported);
    HandledUpTo(cfg, x, before, (Shutdown, now, after), rest);
  }

  /** A concrete loss: polls every second, exports every ten. An observer added in the first round is polled
      once in the second, at one second, and the shutdown found there ships nothing. */
  lemma ShutdownLosesAPoll()
    ensures var second := 1_000_000_000;
            var cfg := Config(CollectorTime(0, 7), Duration(1, 0), Duration(10, 0), true);
            var turns := [Turn(0, 0, 0, [(Add, 0, 0)]), Turn(second, second, second, [(Shutdown, second, second)])];
            && IsConfig(cfg) && InOrder(cfg, 0, turns)
            && Run(cfg, Started(cfg), turns).observers == [Watched(second, second + 7, [second], [second + 7], 0)]
            && Waiting(Run(cfg, Started(cfg), turns))
  {
    var cfg := Config(CollectorTime(0, 7), Duration(1, 0), Duration(10, 0), true);
    var first, second := Turn(0, 0, 0, [(Add, 0, 0)]), Turn(NANOS, NANOS, NANOS, [(Shutdown, NANOS, NANOS)]);
    assert NextDeadline(0, NANOS, 0) == NANOS && NextDeadline(0, 10 * NANOS, 0) == 10 * NANOS;
    var w := TurnOnce(cfg, Started(cfg), first);
    assert w == Work([Watched(NANOS, NANOS + 7, [], [], 0)], NANOS, 10 * NANOS);
    var v := ObserveStep(cfg, w, NANOS, NANOS);
    assert v.observers[0] == Watched(NANOS, NANOS + 7, [NANOS], [NANOS + 7], 0);
    assert v.observers == [v.observers[0]] && v.exportAt == 10 * NANOS;
    var u := TurnOnce(cfg, w, second);
    assert u == HandleAll(cfg, v, second.commands) == v;
    assert u.observers == [Watched(NANOS, NANOS + 7, [NANOS], [NANOS + 7], 0)];
    assert u.observers[0].shipped != |u.observers[0].times|;
    var turns := [first, second];
    assert turns[1..] == [second] && [second][1..] == [];
    assert !Stops(first.commands);
    assert second.commands[0].0.Shutdown?;
    assert Run(cfg, Started(cfg), turns) == Run(cfg, w, [second]);
  }

  // ---------------------------------------------------------------- the worker

  predicate Reads(t: Turn) {
    && IsInstant(t.now) && IsInstant(t.observed) && IsInstant(t.exported)
    && forall i :: 0 <= i < |t.commands| ==> IsInstant(t.commands[i].1) && IsInstant(t.commands[i].2)
  }

  class Worker {
    const cfg: Config
    const observeTimer: GridTimer
    const exportTimer: GridTimer
    var observers: seq<Watched>

    ghost predicate Valid()
      reads this, observeTimer, exportTimer
    {
      && IsConfig(cfg) && observeTimer != exportTimer && observeTimer.Valid() && exportTimer.Valid()
      && observeTimer.start == exportTimer.start == cfg.start.instant
      && observeTimer.period == cfg.poll && exportTimer.period == cfg.ship
    }

    ghost function Current(): Work
      reads this, observeTimer, exportTimer
    {
      Work(observers, observeTimer.deadline, exportTimer.deadline)
    }

    constructor (cfg: Config)
      requires IsConfig(cfg)
      ensures Valid() && this.cfg == cfg && Current() == Started(cfg) && fresh(observeTimer) && fresh(exportTimer)
    {
      this.cfg := cfg;
      observeTimer := new GridTimer(cfg.start.instant, cfg.poll);
      exportTimer := new GridTimer(cfg.start.instant, cfg.ship);
      observers := [];
    }

    method MaybeObserve(now: int, after: int)
      requires Valid() && IsInstant(after)
      modifies this, observeTimer
      ensures Valid() && Current() == ObserveStep(cfg, old(Current()), now, after)
      ensures |observers| == |old(observers)| && forall i :: 0 <= i < |observers| ==>
                observers[i].times == old(observers)[i].times +
                  if now >= old(observeTimer.deadline) then [cfg.start.system + (now - cfg.start.instant)] else []
    {
      var due := observeTimer.Due(now);
      if !due {
        return;
      }
      PollAll(observeTimer.deadline, now);
      observeTimer.Advance(after);
    }

    method PollAll(due: int, now: int)
      modifies this`observers
      ensures observers == seq(|old(observers)|, i requires 0 <= i < |old(observers)| =>
                                 Polled(cfg, old(observers)[i], due, now))
    {
      for i := 0 to |observers|
        invariant |observers| == |old(observers)|
        invariant forall k :: 0 <= k < i ==> observers[k] == Polled(cfg, old(observers)[k], due, now)
        invariant forall k :: i <= k < |observers| ==> observers[k] == old(observers)[k]
      {
        observers := observers[i := Polled(cfg, observers[i], due, now)];
      }
    }

    method ShipAll()
      modifies this`observers
      ensures observers == seq(|old(observers)|, i requires 0 <= i < |old(observers)| =>
                                 old(observers)[i].(shipped := |old(observers)[i].times|))
    {
      for i := 0 to |observers|
        invariant |observers| == |old(observers)|
        invariant forall k :: 0 <= k < i ==> observers[k] == old(observers)[k].(shipped := |old(observers)[k].times|)
        invariant forall k :: i <= k < |observers| ==> observers[k] == old(observers)[k]
      {
        observers := observers[i := observers[i].(shipped := |observers[i].times|)];
      }
    }

    method MaybeExport(now: int, after: int)
      requires Valid() && IsInstant(after)
      modifies this, exportTimer
      ensures Valid() && Current() == ExportStep(cfg, old(Current()), now, after)
    {
      var due := exportTimer.Due(now);
      if !due {
        return;
      }
      ShipAll();
      exportTimer.Advance(after);
    }

    /** Returns whether the loop goes on. A new observer starts at the next deadline. */
    method Handle(c: (Command, int, int)) returns (more: bool)
      requires Valid() && IsInstant(c.2)
      modifies this, exportTimer
      ensures Valid() && Current() == HandleStep(cfg, old(Current()), c) && more == !c.0.Shutdown?
      ensures c.0.Add? ==>
                var tick := old(observeTimer.deadline);
                observers ==
                old(observers) + [Watched(tick, cfg.start.system + (tick - cfg.start.instant), [], [], 0)]
    {
      match c.0
      case Add =>
        observers := observers +
            [Watched(observeTimer.deadline, At(cfg.start, observeTimer.deadline).system, [], [], 0)];
        more := true;
      case Shutdown =>
        MaybeExport(c.1, c.2);
        more := false;
    }

    method HandleCommands(cs: seq<(Command, int, int)>) returns (more: bool)
      requires Valid() && forall i :: 0 <= i < |cs| ==> IsInstant(cs[i].2)
      modifies this, exportTimer
      ensures Valid() && Current() == HandleAll(cfg, old(Current()), cs) && more == !Stops(cs)
    {
      more := true;
      var i := 0;
      while more && i < |cs|
        invariant 0 <= i <= |cs| && Valid()
        invariant more ==> forall k :: 0 <= k < i ==> !cs[k].0.Shutdown?
        invariant !more ==> Stops(cs)
        invariant HandleAll(cfg, old(Current()), cs) == if more then HandleAll(cfg, Current(), cs[i..]) else Current()
      {
        assert cs[i..][1..] == cs[i + 1..];
        more := Handle(cs[i]);
        i := i + 1;
      }
    }

    /** The event loop, over the rounds it goes through. */
    method Block(turns: seq<Turn>)
      requires Valid() && forall i :: 0 <= i < |turns| ==> Reads(turns[i])
      modifies this, observeTimer, exportTimer
      ensures Valid() && Current() == Run(cfg, old(Current()), turns)
    {
      var more, i := true, 0;
      while more && i < |turns|
        invariant 0 <= i <= |turns| && Valid()
        invariant Run(cfg, old(Current()), turns) == if more then Run(cfg, Current(), turns[i..]) else Current()
      {
        assert turns[i..][1..] == turns[i + 1..];
        var t := turns[i];
        assert Reads(t);
        MaybeObserve(t.now, t.observed);
        MaybeExport(t.now, t.exported);
        more := HandleCommands(t.commands);
        i := i + 1;
      }
    }
  }
}
