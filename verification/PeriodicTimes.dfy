/** When observers are polled and shipped, in wall time: the worker's observers, each with its own record, against
    one log of the polls of the whole run. */
module PeriodicTimes {
  import opened Wrappers
  import opened Timer
  import opened Model
  import opened Observation
  import opened Periodic

  // ---------------------------------------------------------------- one log for the whole run

  /** A poll: the deadline that was due and the instant at which it was made. */
  datatype PollAt = PollAt(due: int, at: int)

  /** The polls made; for each observer added, how many of them came before it; how many polls there were at the last
      export; and the two deadlines. */
  datatype Log = Log(polls: seq<PollAt>, joins: seq<nat>, shipped: nat, observeAt: int, exportAt: int)

  function LogPoll(cfg: Config, g: Log, now: int, after: int): Log
    requires IsPeriod(cfg.poll)
  {
    if now >= g.observeAt then
      g.(polls := g.polls + [PollAt(g.observeAt, now)],
         observeAt := NextDeadline(cfg.start.instant, Nanos(cfg.poll), after))
    else g
  }

  function LogExport(cfg: Config, g: Log, now: int, after: int): Log
    requires IsPeriod(cfg.ship)
  {
    if now >= g.exportAt then
      g.(shipped := |g.polls|, exportAt := NextDeadline(cfg.start.instant, Nanos(cfg.ship), after))
    else g
  }

  function LogCommands(cfg: Config, g: Log, cs: seq<(Command, int, int)>): Log
    requires IsPeriod(cfg.ship)
    decreases |cs|
  {
    if |cs| == 0 then g
    else if cs[0].0.Shutdown? then LogExport(cfg, g, cs[0].1, cs[0].2)
    else LogCommands(cfg, g.(joins := g.joins + [|g.polls|]), cs[1..])
  }

  /** A round polls, exports and then handles commands. */
  function LogTurn(cfg: Config, g: Log, t: Turn): Log
    requires IsPeriod(cfg.poll) && IsPeriod(cfg.ship)
  {
    LogCommands(cfg, LogExport(cfg, LogPoll(cfg, g, t.now, t.observed), t.now, t.exported), t.commands)
  }

  function LogRun(cfg: Config, g: Log, turns: seq<Turn>): Log
    requires IsPeriod(cfg.poll) && IsPeriod(cfg.ship)
    decreases |turns|
  {
    if |turns| == 0 then g
    else if Stops(turns[0].commands) then LogTurn(cfg, g, turns[0])
    else LogRun(cfg, LogTurn(cfg, g, turns[0]), turns[1..])
  }

  function LogOf(cfg: Config, turns: seq<Turn>): Log
    requires IsPeriod(cfg.poll) && IsPeriod(cfg.ship)
  {
    LogRun(cfg, Log([], [], 0, cfg.start.instant, cfg.start.instant), turns)
  }

  // ---------------------------------------------------------------- what an observer has of it

  /** The observer joined after `m` polls. It was reset to the deadline standing then; it has been polled by every
      poll since, at the wall time of the poll's own instant; and what was there at the last export is shipped. */
  predicate Records(cfg: Config, g: Log, m: nat, o: Watched) {
    && m <= |g.polls| && |o.due| == |o.times| == |g.polls| - m
    && o.since == (if m < |g.polls| then g.polls[m].due else g.observeAt)
    && o.startTime == cfg.start.system + (o.since - cfg.start.instant)
    && (forall n :: 0 <= n < |o.times| ==>
          && o.due[n] == g.polls[m + n].due
          && o.times[n] == cfg.start.system + (g.polls[m + n].at - cfg.start.instant))
    && o.shipped == (if g.shipped < m then 0 else g.shipped - m)
  }

  predicate AllRecord(cfg: Config, g: Log, w: Work) {
    && g.shipped <= |g.polls| && g.observeAt == w.observeAt && g.exportAt == w.exportAt
    && |w.observers| == |g.joins|
    && forall i :: 0 <= i < |w.observers| ==> Records(cfg, g, g.joins[i], w.observers[i])
  }

  lemma PollIsRecorded(cfg: Config, g: Log, w: Work, now: int, after: int)
    requires IsConfig(cfg) && AllRecord(cfg, g, w)
    ensures AllRecord(cfg, LogPoll(cfg, g, now, after), ObserveStep(cfg, w, now, after))
  {
  }

  lemma ExportIsRecorded(cfg: Config, g: Log, w: Work, now: int, after: int)
    requires IsConfig(cfg) && AllRecord(cfg, g, w)
    ensures AllRecord(cfg, LogExport(cfg, g, now, after), ExportStep(cfg, w, now, after))
  {
  }

  lemma {:induction false} CommandsAreRecorded(cfg: Config, g: Log, w: Work, cs: seq<(Command, int, int)>)
    requires IsConfig(cfg) && AllRecord(cfg, g, w)
    ensures AllRecord(cfg, LogCommands(cfg, g, cs), HandleAll(cfg, w, cs))
    decreases |cs|
  {
    if |cs| > 0 {
      if cs[0].0.Shutdown? {
        ExportIsRecorded(cfg, g, w, cs[0].1, cs[0].2);
      } else {
        CommandsAreRecorded(cfg, g.(joins := g.joins + [|g.polls|]), HandleStep(cfg, w, cs[0]), cs[1..]);
      }
    }
  }

  lemma {:induction false} RunIsRecorded(cfg: Config, g: Log, w: Work, turns: seq<Turn>)
    requires IsConfig(cfg) && AllRecord(cfg, g, w)
    ensures AllRecord(cfg, LogRun(cfg, g, turns), Run(cfg, w, turns))
    decreases |turns|
  {
    if |turns| > 0 {
      var t := turns[0];
      var h, v := LogPoll(cfg, g, t.now, t.observed), ObserveStep(cfg, w, t.now, t.observed);
      PollIsRecorded(cfg, g, w, t.now, t.observed);
      ExportIsRecorded(cfg, h, v, t.now, t.exported);
      CommandsAreRecorded(cfg, LogExport(cfg, h, t.now, t.exported), ExportStep(cfg, v, t.now, t.exported), t.commands);
      if !Stops(t.commands) {
        RunIsRecorded(cfg, LogTurn(cfg, g, t), TurnOnce(cfg, w, t), turns[1..]);
      }
    }
  }

  /** In every run, whatever instants the clock shows: there is an observer for each one added; it starts at the wall
      time of the deadline standing when it was added, it has been polled by every poll since, and each of its
      recorded times is the wall time of that poll's own instant. */
  lemma ObserversRecordTheLog(cfg: Config, turns: seq<Turn>)
    requires IsConfig(cfg)
    ensures AllRecord(cfg, LogOf(cfg, turns), Run(cfg, Started(cfg), turns))
  {
    RunIsRecorded(cfg, Log([], [], 0, cfg.start.instant, cfg.start.instant), Started(cfg), turns);
  }

  // ---------------------------------------------------------------- exported timestamps

  /** The timestamp under which an observer exports a reading. */
  function ExportedTs<V>(cfg: Config, o: Watched, r: Reading<V>): int {
    AlignTs(r.ts, r.seqId, o.startTime, if cfg.align then Some(Nanos(cfg.poll)) else None)
  }

  /** For an observer of a metric that joined after `m` polls and was polled by the worker since: with alignment off,
      or past 32 bits, a reading is exported under the wall time of the poll that made it; with alignment on, under
      the wall time of the observer's first deadline plus a period for each poll since. */
  lemma ExportedTimes<A, V>(
    cfg: Config, turns: seq<Turn>, i: nat,
    kit: Kit<A, V>, init: A, modes: seq<Mode>, events: seq<Event<A>>, j: nat, key: seq<KeyValue>, r: Reading<V>)
    requires IsConfig(cfg) && j < |modes| && i < |Run(cfg, Started(cfg), turns).observers|
    requires PollTimes(events, j) == Run(cfg, Started(cfg), turns).observers[i].times
    requires r in Readings(kit, init, modes, events, j, key)
    ensures var g, o := LogOf(cfg, turns), Run(cfg, Started(cfg), turns).observers[i];
            && i < |g.joins| && g.joins[i] + r.seqId < |g.polls|
            && ExportedTs(cfg, o, r) == cfg.start.system - cfg.start.instant +
                 if cfg.align && r.seqId < 0x1_0000_0000 then o.since + Nanos(cfg.poll) * r.seqId
                 else g.polls[g.joins[i] + r.seqId].at
  {
    ObserversRecordTheLog(cfg, turns);
    ReadingsAreStamped(kit, init, modes, events, j, key);
    var readings := Readings(kit, init, modes, events, j, key);
    var k :| 0 <= k < |readings| && readings[k] == r;
  }

  /** With alignment on or off, whatever else happens to the metric, and for every attribute set, an observer's
      exported timestamps strictly increase. */
  lemma ExportedTimesIncrease<A, V>(
    cfg: Config, turns: seq<Turn>, i: nat,
    kit: Kit<A, V>, init: A, modes: seq<Mode>, events: seq<Event<A>>, j: nat, key: seq<KeyValue>)
    requires IsConfig(cfg) && InOrder(cfg, cfg.start.instant, turns) && j < |modes|
    requires var w := Run(cfg, Started(cfg), turns);
             i < |w.observers| && PollTimes(events, j) == w.observers[i].times
    ensures var o, readings := Run(cfg, Started(cfg), turns).observers[i], Readings(kit, init, modes, events, j, key);
            forall k, l :: 0 <= k < l < |readings| ==>
              ExportedTs(cfg, o, readings[k]) < ExportedTs(cfg, o, readings[l])
  {
    if cfg.align {
      ObserverTimesIncrease(cfg, turns, i, kit, init, modes, events, j, key);
    } else {
      var o, readings := Run(cfg, Started(cfg), turns).observers[i], Readings(kit, init, modes, events, j, key);
      ReadingsAreStamped(kit, init, modes, events, j, key);
      SequenceIncreases(kit, init, modes, events, j, key);
      StartedInv(cfg);
      RunKeepsInv(cfg, Started(cfg), cfg.start.instant, turns);
      forall k, l | 0 <= k < l < |readings|
        ensures ExportedTs(cfg, o, readings[k]) < ExportedTs(cfg, o, readings[l])
      {
        TimesIncrease(cfg, o, readings[k].seqId, readings[l].seqId);
      }
    }
  }

  // ---------------------------------------------------------------- the polls are the rounds

  /** Each poll was made by a round, at its first reading of the clock, with the deadline reached. */
  predicate MadeBy(turns: seq<Turn>, p: PollAt) {
    exists i :: 0 <= i < |turns| && turns[i].now == p.at && p.due <= p.at
  }

  lemma {:induction false} CommandsPollNothing(cfg: Config, g: Log, cs: seq<(Command, int, int)>)
    requires IsPeriod(cfg.ship)
    ensures LogCommands(cfg, g, cs).polls == g.polls
    decreases |cs|
  {
    if |cs| > 0 && !cs[0].0.Shutdown? {
      CommandsPollNothing(cfg, g.(joins := g.joins + [|g.polls|]), cs[1..]);
    }
  }

  lemma {:induction false} PollsAreMadeByRounds(cfg: Config, g: Log, turns: seq<Turn>)
    requires IsPeriod(cfg.poll) && IsPeriod(cfg.ship)
    ensures var polls := LogRun(cfg, g, turns).polls;
            && |g.polls| <= |polls| && polls[..|g.polls|] == g.polls
            && forall k :: |g.polls| <= k < |polls| ==> MadeBy(turns, polls[k])
    decreases |turns|
  {
    if |turns| > 0 {
      var t, h := turns[0], LogTurn(cfg, g, turns[0]);
      CommandsPollNothing(cfg, LogExport(cfg, LogPoll(cfg, g, t.now, t.observed), t.now, t.exported), t.commands);
      assert |h.polls| > |g.polls| ==> MadeBy(turns, h.polls[|g.polls|]);
      if !Stops(t.commands) {
        PollsAreMadeByRounds(cfg, h, turns[1..]);
        var polls := LogRun(cfg, h, turns[1..]).polls;
        forall k | |h.polls| <= k < |polls| ensures MadeBy(turns, polls[k]) {
          var i :| 0 <= i < |turns[1..]| && turns[1..][i].now == polls[k].at && polls[k].due <= polls[k].at;
          assert turns[i + 1] == turns[1..][i];
        }
        assert polls[..|g.polls|] == polls[..|h.polls|][..|g.polls|];
      }
    }
  }
}
