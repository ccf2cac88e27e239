/** What observers report about one attribute set, over whole runs of writes, polls and exports.

    An observer treats every attribute set alike and apart, so its state is described one set (one `key`) at
    a time: the readings waiting for export, the value last seen, and the poll counter. */
module Observation {
  import opened Wrappers
  import opened Ordering
  import opened Model
  import opened BucketRefinement
  import opened BucketRuns

  datatype Mode = Direct | Delta | Destructive

  datatype Kind = Counter | Gauge | Histogram

  datatype Reading<V> = Reading(ts: int, seqId: nat, value: V)

  /** How a cell is read, and how two readings are compared and subtracted. */
  datatype Kit<!A, !V> = Kit(current: A -> V, less: (V, V) -> bool, minus: (V, V) -> V, isInitial: V -> bool)

  /** One observer's state for one attribute set. */
  datatype Track<V> = Track(series: seq<Reading<V>>, last: Option<V>, seqId: nat)

  // ---------------------------------------------------------------- one poll

  /** What the poll's visit of the source shows for a set: the set without attributes only if touched. */
  function Shown<A, V>(kit: Kit<A, V>, p: Plain<A>, key: seq<KeyValue>): Option<V> {
    if key == [] then if p.touched then Some(kit.current(p.noAttr)) else None
    else if key in p.buckets then Some(kit.current(p.buckets[key]))
    else None
  }

  /** What gets recorded: the value, or in delta mode its difference to the last one, or the value again
      after a drop, or nothing when unchanged. */
  function Recorded<A, V(==)>(kit: Kit<A, V>, mode: Mode, last: Option<V>, current: V): Option<V> {
    if !mode.Delta? || last.None? then Some(current)
    else if last.value == current then None
    else if kit.less(last.value, current) then Some(kit.minus(current, last.value))
    else Some(current)
  }

  /** What a destructive poll records of a value it took: initial ones are skipped, but for the set without
      attributes. */
  function DrainRecords<A, V>(kit: Kit<A, V>, key: seq<KeyValue>, taken: Option<V>): Option<V> {
    if taken.Some? && key != [] && kit.isInitial(taken.value) then None else taken
  }

  function Pushed<V>(t: Track<V>, ts: int, r: Option<V>): seq<Reading<V>> {
    if r.Some? then t.series + [Reading(ts, t.seqId, r.value)] else t.series
  }

  function TrackPoll<A, V(==)>(
    kit: Kit<A, V>, mode: Mode, key: seq<KeyValue>, t: Track<V>, ts: int, shown: Option<V>): Track<V>
  {
    if mode.Destructive? then Track(Pushed(t, ts, DrainRecords(kit, key, shown)), t.last, t.seqId + 1)
    else if shown.None? then t.(seqId := t.seqId + 1)
    else
      Track(Pushed(t, ts, Recorded(kit, mode, t.last, shown.value)), if mode.Delta? then shown else t.last, t.seqId + 1)
  }

  // ---------------------------------------------------------------- runs

  /** A metric under calls from the application, polls, exports and restarts of its observers, and scrapes;
      a scrape is a poll by a fresh observer in direct mode. */
  datatype Event<!A> =
    | Do(call: Call<A>)
    | Poll(observer: nat, ts: int)
    | Export(observer: nat)
    | Restart(observer: nat)
    | Scrape

  predicate Drains<A>(modes: seq<Mode>, e: Event<A>) {
    e.Poll? && e.observer < |modes| && modes[e.observer].Destructive?
  }

  function SourceStep<A>(init: A, modes: seq<Mode>, p: Plain<A>, e: Event<A>): Plain<A> {
    if e.Do? then PlainPerform(p, init, e.call)
    else if Drains(modes, e) then PlainPerform(p, init, Call.Take)
    else p
  }

  function SourceAfter<A>(init: A, modes: seq<Mode>, events: seq<Event<A>>): Plain<A> {
    if |events| == 0 then Plain(map[], init, false)
    else SourceStep(init, modes, SourceAfter(init, modes, events[..|events| - 1]), events[|events| - 1])
  }

  function TrackStep<A, V(==)>(
    kit: Kit<A, V>, mode: Mode, source: Plain<A>, t: Track<V>, e: Event<A>, j: nat, key: seq<KeyValue>): Track<V>
  {
    match e
    case Poll(k, ts) => if k == j then TrackPoll(kit, mode, key, t, ts, Shown(kit, source, key)) else t
    case Export(k) => if k == j then t.(series := []) else t
    case Restart(k) => if k == j then Track([], None, 0) else t
    case _ => t
  }

  function TrackAfter<A, V(==)>(
    kit: Kit<A, V>, init: A, modes: seq<Mode>, events: seq<Event<A>>, j: nat, key: seq<KeyValue>): Track<V>
    requires j < |modes|
  {
    if |events| == 0 then Track([], None, 0)
    else
      var front := events[..|events| - 1];
      TrackStep(kit, modes[j], SourceAfter(init, modes, front), TrackAfter(kit, init, modes, front, j, key),
                events[|events| - 1], j, key)
  }

  // ---------------------------------------------------------------- observers do not disturb each other

  /** Writes, destructive polls, and the observer's own events: all that an observer's results depend on. */
  function Matters<A>(modes: seq<Mode>, j: nat): Event<A> -> bool {
    (e: Event<A>) => e.Do? || Drains(modes, e)
      || ((e.Poll? || e.Export? || e.Restart?) && e.observer == j)
  }

  /** Leaving out scrapes and the other observers' polls, exports and restarts changes nothing an observer
      reports, as long as the polls left out are not destructive. */
  lemma {:induction false} OthersDoNotMatter<A, V>(
    kit: Kit<A, V>, init: A, modes: seq<Mode>, events: seq<Event<A>>, j: nat, key: seq<KeyValue>)
    requires j < |modes|
    ensures SourceAfter(init, modes, Filter(Matters(modes, j), events)) == SourceAfter(init, modes, events)
    ensures TrackAfter(kit, init, modes, Filter(Matters(modes, j), events), j, key) ==
            TrackAfter(kit, init, modes, events, j, key)
  {
    if |events| > 0 {
      var front, e := events[..|events| - 1], events[|events| - 1];
      OthersDoNotMatter(kit, init, modes, front, j, key);
      var kept := Filter(Matters(modes, j), front);
      if Matters(modes, j)(e) {
        assert (kept + [e])[..|kept|] == kept;
      } else {
        assert Filter(Matters(modes, j), events) == kept;
      }
    }
  }

  // ---------------------------------------------------------------- exports lose and repeat nothing

  /** All that observer `j` has exported for the set since its last restart. */
  function Exported<A, V(==)>(
    kit: Kit<A, V>, init: A, modes: seq<Mode>, events: seq<Event<A>>, j: nat, key: seq<KeyValue>): seq<Reading<V>>
    requires j < |modes|
  {
    if |events| == 0 then []
    else
      var front := events[..|events| - 1];
      ExportedStep(Exported(kit, init, modes, front, j, key), TrackAfter(kit, init, modes, front, j, key),
          events[|events| - 1], j)
  }

  function ExportedStep<A, V>(sofar: seq<Reading<V>>, t: Track<V>, e: Event<A>, j: nat): seq<Reading<V>> {
    match e
    case Export(k) => if k == j then sofar + t.series else sofar
    case Restart(k) => if k == j then [] else sofar
    case _ => sofar
  }

  function NotExport<A>(j: nat): Event<A> -> bool {
    (e: Event<A>) => !(e.Export? && e.observer == j)
  }

  lemma {:induction false} ExportsLeaveTheSource<A>(init: A, modes: seq<Mode>, events: seq<Event<A>>, j: nat)
    ensures SourceAfter(init, modes, Filter(NotExport(j), events)) == SourceAfter(init, modes, events)
  {
    if |events| > 0 {
      var front, e := events[..|events| - 1], events[|events| - 1];
      ExportsLeaveTheSource(init, modes, front, j);
      var kept := Filter(NotExport(j), front);
      if NotExport(j)(e) {
        assert (kept + [e])[..|kept|] == kept;
      } else {
        assert Filter(NotExport(j), events) == kept;
      }
    }
  }

  /** The exports, one after the other, and what still waits are exactly what the observer would hold had it
      never exported. */
  lemma {:induction false} ExportsPartition<A, V>(
    kit: Kit<A, V>, init: A, modes: seq<Mode>, events: seq<Event<A>>, j: nat, key: seq<KeyValue>)
    requires j < |modes|
    ensures var t := TrackAfter(kit, init, modes, events, j, key);
            TrackAfter(kit, init, modes, Filter(NotExport(j), events), j, key) ==
            t.(series := Exported(kit, init, modes, events, j, key) + t.series)
  {
    if |events| > 0 {
      var front, e := events[..|events| - 1], events[|events| - 1];
      var kept := Filter(NotExport(j), front);
      ExportsPartition(kit, init, modes, front, j, key);
      ExportsLeaveTheSource(init, modes, front, j);
      if NotExport(j)(e) {
        assert (kept + [e])[..|kept|] == kept;
        HoldingBack(kit, modes[j], SourceAfter(init, modes, front),
                    TrackAfter(kit, init, modes, front, j, key), e, j, key,
                    Exported(kit, init, modes, front, j, key));
      } else {
        assert Filter(NotExport(j), events) == kept;
      }
    }
  }

  /** Readings held back only stand before the others. */
  lemma HoldingBack<A, V>(
    kit: Kit<A, V>, mode: Mode, source: Plain<A>, t: Track<V>, e: Event<A>, j: nat, key: seq<KeyValue>,
    held: seq<Reading<V>>)
    requires NotExport(j)(e)
    ensures var u := TrackStep(kit, mode, source, t, e, j, key);
            TrackStep(kit, mode, source, t.(series := held + t.series), e, j, key) ==
            u.(series := (if e == Restart(j) then [] else held) + u.series)
  {
  }

  /** Every reading kept or exported since the restart, in order. */
  function Readings<A, V(==)>(
    kit: Kit<A, V>, init: A, modes: seq<Mode>, events: seq<Event<A>>, j: nat, key: seq<KeyValue>): seq<Reading<V>>
    requires j < |modes|
  {
    Exported(kit, init, modes, events, j, key) + TrackAfter(kit, init, modes, events, j, key).series
  }

  predicate Increasing<V>(readings: seq<Reading<V>>, bound: nat) {
    && (forall i :: 0 <= i < |readings| ==> readings[i].seqId < bound)
    && (forall i, k :: 0 <= i < k < |readings| ==> readings[i].seqId < readings[k].seqId)
  }

  /** Polls since the observer's last restart. */
  function PollsOf<A>(events: seq<Event<A>>, j: nat): nat {
    if |events| == 0 then 0
    else
      var n := PollsOf(events[..|events| - 1], j);
      match events[|events| - 1]
      case Poll(k, _) => if k == j then n + 1 else n
      case Restart(k) => if k == j then 0 else n
      case _ => n
  }

  /** One event leaves an observer's readings alone, adds one at the current poll number, or, on a restart,
      starts them over. */
  lemma ReadingsGrow<A, V>(
    kit: Kit<A, V>, init: A, modes: seq<Mode>, events: seq<Event<A>>, j: nat, key: seq<KeyValue>)
    requires j < |modes| && |events| > 0
    ensures var front := events[..|events| - 1];
            var before, after := Readings(kit, init, modes, front, j, key), Readings(kit, init, modes, events, j, key);
            var t, u := TrackAfter(kit, init, modes, front, j, key), TrackAfter(kit, init, modes, events, j, key);
            GrowsTo(before, t.seqId, after, u.seqId)
  {
  }

  ghost predicate GrowsTo<V>(before: seq<Reading<V>>, seqId: nat, after: seq<Reading<V>>, next: nat) {
    || (after == before && seqId <= next)
    || after == []
    || (|after| == |before| + 1 && after[..|before|] == before && after[|before|].seqId == seqId < next)
  }

  lemma StillIncreasing<V>(before: seq<Reading<V>>, seqId: nat, after: seq<Reading<V>>, next: nat)
    requires Increasing(before, seqId) && GrowsTo(before, seqId, after, next)
    ensures Increasing(after, next)
  {
  }

  /** Across exports, one set's readings carry strictly increasing poll numbers; the counter is the number
      of polls since the restart. */
  lemma {:induction false} SequenceIncreases<A, V>(
    kit: Kit<A, V>, init: A, modes: seq<Mode>, events: seq<Event<A>>, j: nat, key: seq<KeyValue>)
    requires j < |modes|
    ensures Increasing(Readings(kit, init, modes, events, j, key), TrackAfter(kit, init, modes, events, j, key).seqId)
    ensures TrackAfter(kit, init, modes, events, j, key).seqId == PollsOf(events, j)
  {
    if |events| > 0 {
      var front := events[..|events| - 1];
      SequenceIncreases(kit, init, modes, front, j, key);
      ReadingsGrow(kit, init, modes, events, j, key);
      StillIncreasing(
        Readings(kit, init, modes, front, j, key), TrackAfter(kit, init, modes, front, j, key).seqId,
        Readings(kit, init, modes, events, j, key), TrackAfter(kit, init, modes, events, j, key).seqId);
    }
  }

  /** When the observer was polled since its last restart. */
  function PollTimes<A>(events: seq<Event<A>>, j: nat): seq<int> {
    if |events| == 0 then []
    else
      var times := PollTimes(events[..|events| - 1], j);
      match events[|events| - 1]
      case Poll(k, ts) => if k == j then times + [ts] else times
      case Restart(k) => if k == j then [] else times
      case _ => times
  }

  predicate Stamped<V>(readings: seq<Reading<V>>, times: seq<int>) {
    forall i :: 0 <= i < |readings| ==> readings[i].seqId < |times| && readings[i].ts == times[readings[i].seqId]
  }

  /** A reading numbered n carries the time of the n-th poll since the restart. */
  lemma {:induction false} ReadingsAreStamped<A, V>(
    kit: Kit<A, V>, init: A, modes: seq<Mode>, events: seq<Event<A>>, j: nat, key: seq<KeyValue>)
    requires j < |modes|
    ensures Stamped(Readings(kit, init, modes, events, j, key), PollTimes(events, j))
    ensures TrackAfter(kit, init, modes, events, j, key).seqId == |PollTimes(events, j)|
  {
    if |events| > 0 {
      ReadingsAreStamped(kit, init, modes, events[..|events| - 1], j, key);
      ReadingsKeepStamps(kit, init, modes, events, j, key);
    }
  }

  lemma ReadingsKeepStamps<A, V>(
    kit: Kit<A, V>, init: A, modes: seq<Mode>, events: seq<Event<A>>, j: nat, key: seq<KeyValue>)
    requires j < |modes| && |events| > 0
    requires var front := events[..|events| - 1];
             && Stamped(Readings(kit, init, modes, front, j, key), PollTimes(front, j))
             && TrackAfter(kit, init, modes, front, j, key).seqId == |PollTimes(front, j)|
    ensures Stamped(Readings(kit, init, modes, events, j, key), PollTimes(events, j))
    ensures TrackAfter(kit, init, modes, events, j, key).seqId == |PollTimes(events, j)|
  {
    var front, e := events[..|events| - 1], events[|events| - 1];
    var before, after := Readings(kit, init, modes, front, j, key), Readings(kit, init, modes, events, j, key);
    match e
    case Poll(k, ts) =>
      assert k == j ==> after == before || (|after| == |before| + 1 && after[..|before|] == before);
    case Export(k) => assert after == before;
    case _ =>
  }

  // ---------------------------------------------------------------- deltas

  function Values<V>(readings: seq<Reading<V>>): seq<V> {
    seq(|readings|, i requires 0 <= i < |readings| => readings[i].value)
  }

  /** The values the observer's polls have shown for the set since its restart. */
  function Seen<A, V>(
    kit: Kit<A, V>, init: A, modes: seq<Mode>, events: seq<Event<A>>, j: nat, key: seq<KeyValue>): seq<V>
  {
    if |events| == 0 then []
    else
      var front := events[..|events| - 1];
      SeenStep(Seen(kit, init, modes, front, j, key), Shown(kit, SourceAfter(init, modes, front), key),
          events[|events| - 1], j)
  }

  function SeenStep<A, V>(sofar: seq<V>, shown: Option<V>, e: Event<A>, j: nat): seq<V> {
    match e
    case Poll(k, _) => if k == j && shown.Some? then sofar + [shown.value] else sofar
    case Restart(k) => if k == j then [] else sofar
    case _ => sofar
  }

  function LastOf<V>(seen: seq<V>): Option<V> {
    if |seen| == 0 then None else Some(seen[|seen| - 1])
  }

  /** What delta mode makes of a list of values. */
  function Deltas<A, V(==)>(kit: Kit<A, V>, seen: seq<V>): seq<V> {
    if |seen| == 0 then []
    else
      var n := |seen| - 1;
      var r := Recorded(kit, Delta, LastOf(seen[..n]), seen[n]);
      Deltas(kit, seen[..n]) + if r.Some? then [r.value] else []
  }

  /** A delta observer's readings, exported or waiting, are the deltas of the values its polls have seen. */
  lemma {:induction false} DeltasAreReported<A, V>(
    kit: Kit<A, V>, init: A, modes: seq<Mode>, events: seq<Event<A>>, j: nat, key: seq<KeyValue>)
    requires j < |modes| && modes[j].Delta?
    ensures Values(Readings(kit, init, modes, events, j, key)) == Deltas(kit, Seen(kit, init, modes, events, j, key))
    ensures TrackAfter(kit, init, modes, events, j, key).last == LastOf(Seen(kit, init, modes, events, j, key))
  {
    if |events| > 0 {
      var front := events[..|events| - 1];
      DeltasAreReported(kit, init, modes, front, j, key);
      DeltaStep(kit, SourceAfter(init, modes, front), TrackAfter(kit, init, modes, front, j, key),
                Exported(kit, init, modes, front, j, key), Seen(kit, init, modes, front, j, key),
                events[|events| - 1], j, key);
    }
  }

  lemma DeltaStep<A, V>(
    kit: Kit<A, V>, source: Plain<A>, t: Track<V>, sent: seq<Reading<V>>, seen: seq<V>, e: Event<A>, j: nat,
    key: seq<KeyValue>)
    requires Values(sent + t.series) == Deltas(kit, seen) && t.last == LastOf(seen)
    ensures var u, more := TrackStep(kit, Delta, source, t, e, j, key), SeenStep(seen, Shown(kit, source, key), e, j);
            Values(ExportedStep(sent, t, e, j) + u.series) == Deltas(kit, more) && u.last == LastOf(more)
  {
    var shown := Shown(kit, source, key);
    if shown.Some? {
      DeltasPush(kit, seen, shown.value);
    }
  }

  lemma DeltasPush<A, V>(kit: Kit<A, V>, seen: seq<V>, v: V)
    ensures Deltas(kit, seen + [v]) ==
            Deltas(kit, seen) + var r := Recorded(kit, Delta, LastOf(seen), v); if r.Some? then [r.value] else []
    ensures LastOf(seen + [v]) == Some(v)
  {
    assert (seen + [v])[..|seen|] == seen;
  }

  /** A direct observer reports exactly the values its polls have seen. */
  lemma {:induction false} DirectReportsWhatItSees<A, V>(
    kit: Kit<A, V>, init: A, modes: seq<Mode>, events: seq<Event<A>>, j: nat, key: seq<KeyValue>)
    requires j < |modes| && modes[j].Direct?
    ensures Values(Readings(kit, init, modes, events, j, key)) == Seen(kit, init, modes, events, j, key)
  {
    if |events| > 0 {
      DirectReportsWhatItSees(kit, init, modes, events[..|events| - 1], j, key);
    }
  }

  // ---------------------------------------------------------------- destructive readings

  /** What a destructive poll finds to report of a set: of the set without attributes its value whenever it has been
      touched, initial or not; of any other set its value unless that is initial. */
  function Found<A, V>(kit: Kit<A, V>, p: Plain<A>, key: seq<KeyValue>, ts: int, seqId: nat): seq<Reading<V>> {
    if key == [] then if p.touched then [Reading(ts, seqId, kit.current(p.noAttr))] else []
    else if key in p.buckets && !kit.isInitial(kit.current(p.buckets[key])) then
      [Reading(ts, seqId, kit.current(p.buckets[key]))]
    else []
  }

  /** What an observer's polls found since its last restart, with the times and numbers of the polls. */
  function AllFound<A, V>(
    kit: Kit<A, V>, init: A, modes: seq<Mode>, events: seq<Event<A>>, j: nat, key: seq<KeyValue>): seq<Reading<V>>
  {
    if |events| == 0 then []
    else
      var front := events[..|events| - 1];
      var sofar := AllFound(kit, init, modes, front, j, key);
      match events[|events| - 1]
      case Poll(k, ts) =>
        if k == j then sofar + Found(kit, SourceAfter(init, modes, front), key, ts, PollsOf(front, j)) else sofar
      case Restart(k) => if k == j then [] else sofar
      case _ => sofar
  }

  lemma PollAddsFound<A, V>(kit: Kit<A, V>, p: Plain<A>, key: seq<KeyValue>, t: Track<V>, ts: int)
    ensures TrackPoll(kit, Destructive, key, t, ts, Shown(kit, p, key)).series ==
            t.series + Found(kit, p, key, ts, t.seqId)
  {
  }

  /** A destructive observer's readings, exported or waiting, are exactly what its polls found. */
  lemma {:induction false} DestructiveReportsWhatItFinds<A, V>(
    kit: Kit<A, V>, init: A, modes: seq<Mode>, events: seq<Event<A>>, j: nat, key: seq<KeyValue>)
    requires j < |modes| && modes[j].Destructive?
    ensures Readings(kit, init, modes, events, j, key) == AllFound(kit, init, modes, events, j, key)
  {
    if |events| > 0 {
      var front := events[..|events| - 1];
      DestructiveReportsWhatItFinds(kit, init, modes, front, j, key);
      SequenceIncreases(kit, init, modes, front, j, key);
      var e := events[|events| - 1];
      if e.Poll? && e.observer == j {
        PollAddsFound(
          kit, SourceAfter(init, modes, front), key, TrackAfter(kit, init, modes, front, j, key), e.ts);
      }
    }
  }

  // ---------------------------------------------------------------- when the set without attributes is touched

  /** The event puts the bucket without attributes back to its first state. */
  predicate Wipes<A>(init: A, modes: seq<Mode>, events: seq<Event<A>>, l: nat)
    requires l < |events|
  {
    var e := events[l];
    || Drains(modes, e)
    || (e.Do? && (e.call.Clear? || e.call.Take?))
    || (e.Do? && e.call.Visit? && !e.call.keep([], SourceAfter(init, modes, events[..l]).noAttr))
  }

  predicate NotedAt<A>(events: seq<Event<A>>, k: nat) {
    k < |events| && events[k].Do? && events[k].call.Record? && events[k].call.attrs == []
  }

  predicate QuietAfter<A>(init: A, modes: seq<Mode>, events: seq<Event<A>>, k: nat) {
    forall l :: k < l < |events| ==> !Wipes(init, modes, events, l)
  }

  ghost predicate NotedSince<A>(init: A, modes: seq<Mode>, events: seq<Event<A>>) {
    exists k: nat :: NotedAt(events, k) && QuietAfter(init, modes, events, k)
  }

  /** In every run the set without attributes counts as touched exactly when something has been recorded for it
      since it was last taken, cleared or evicted; resets and lookups do not touch it. */
  lemma {:induction false} TouchedIffNoted<A>(init: A, modes: seq<Mode>, events: seq<Event<A>>)
    ensures SourceAfter(init, modes, events).touched <==> NotedSince(init, modes, events)
  {
    if |events| > 0 {
      var front, n := events[..|events| - 1], |events| - 1;
      TouchedIffNoted(init, modes, front);
      forall l | 0 <= l < n ensures Wipes(init, modes, front, l) <==> Wipes(init, modes, events, l) {
        assert front[..l] == events[..l];
      }
      if NotedSince(init, modes, front) && !Wipes(init, modes, events, n) {
        var k: nat :| NotedAt(front, k) && QuietAfter(init, modes, front, k);
        assert NotedAt(events, k) && QuietAfter(init, modes, events, k);
      }
      if NotedSince(init, modes, events) {
        var k: nat :| NotedAt(events, k) && QuietAfter(init, modes, events, k);
        assert k < n ==> NotedAt(front, k) && QuietAfter(init, modes, front, k) && !Wipes(init, modes, events, n);
      }
      if NotedAt(events, n) {
        assert QuietAfter(init, modes, events, n);
      }
    }
  }
}
