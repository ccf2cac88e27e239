/** Where every write to an attribute set ends up: reported by a destructive poll, returned by a reset, or
    still in the live cell. Cells are known by their logs of writes since they were last initial. */
module Accounting {
  import opened Wrappers
  import opened Histogram
  import opened HistogramDelta
  import opened Ordering
  import opened Model
  import opened BucketTables
  import opened BucketRefinement
  import opened BucketRuns
  import opened Observation
  import opened DeltaReports

  datatype Deed =
    | Note(attrs: seq<KeyValue>, w: Write)
    | PutBack(attrs: seq<KeyValue>)
    | Ask(attrs: seq<KeyValue>)
    | Polled(observer: nat, ts: int)
    | Shipped(observer: nat)
    | Restarted(observer: nat)
    | Scraped

  function Appending(w: Write): seq<Write> -> seq<Write> {
    (log: seq<Write>) => log + [w]
  }

  function AsEvent(d: Deed): Event<seq<Write>> {
    match d
    case Note(attrs, w) => Do(Call.Record(attrs, Appending(w)))
    case PutBack(attrs) => Do(Call.Reset(attrs))
    case Ask(attrs) => Do(Call.Get(attrs))
    case Polled(j, ts) => Poll(j, ts)
    case Shipped(j) => Export(j)
    case Restarted(j) => Restart(j)
    case Scraped => Scrape
  }

  function AsEvents(ds: seq<Deed>): seq<Event<seq<Write>>> {
    seq(|ds|, i requires 0 <= i < |ds| => AsEvent(ds[i]))
  }

  function Source(modes: seq<Mode>, ds: seq<Deed>): Plain<seq<Write>> {
    SourceAfter([], modes, AsEvents(ds))
  }

  lemma EventsFront(ds: seq<Deed>)
    requires |ds| > 0
    ensures AsEvents(ds)[..|ds| - 1] == AsEvents(ds[..|ds| - 1])
  {
  }

  /** The writes to a set standing in its cell. */
  function Held(p: Plain<seq<Write>>, key: seq<KeyValue>): seq<Write> {
    if key == [] then p.noAttr else if key in p.buckets then p.buckets[key] else []
  }

  function Live(modes: seq<Mode>, ds: seq<Deed>, key: seq<KeyValue>): seq<Write> {
    Held(Source(modes, ds), key)
  }

  /** All writes to a set, in order. */
  function WritesTo(ds: seq<Deed>, key: seq<KeyValue>): seq<Write> {
    if |ds| == 0 then []
    else
      var d := ds[|ds| - 1];
      WritesTo(ds[..|ds| - 1], key) + if d.Note? && CanonOf(d.attrs) == key then [d.w] else []
  }

  predicate DrainedBy(modes: seq<Mode>, d: Deed) {
    d.Polled? && d.observer < |modes| && modes[d.observer].Destructive?
  }

  /** The deed empties the set's cell. */
  predicate Empties(modes: seq<Mode>, d: Deed, key: seq<KeyValue>) {
    DrainedBy(modes, d) || (d.PutBack? && CanonOf(d.attrs) == key)
  }

  /** What one deed does to one set's cell. */
  lemma HeldStep(modes: seq<Mode>, p: Plain<seq<Write>>, d: Deed, key: seq<KeyValue>)
    ensures Held(SourceStep([], modes, p, AsEvent(d)), key) ==
            if Empties(modes, d, key) then []
            else if d.Note? && CanonOf(d.attrs) == key then Held(p, key) + [d.w]
            else Held(p, key)
  {
    if d.Note? || d.PutBack? {
      CanonFacts(d.attrs);
    }
  }

  /** The set without attributes is touched whenever its cell holds anything. */
  lemma {:induction false} UntouchedIsInitial(modes: seq<Mode>, ds: seq<Deed>)
    ensures !Source(modes, ds).touched ==> Source(modes, ds).noAttr == []
  {
    if |ds| > 0 {
      EventsFront(ds);
      UntouchedIsInitial(modes, ds[..|ds| - 1]);
    }
  }

  lemma LiveStep(modes: seq<Mode>, ds: seq<Deed>, key: seq<KeyValue>)
    requires |ds| > 0
    ensures var d := ds[|ds| - 1];
            Live(modes, ds, key) ==
            if Empties(modes, d, key) then []
            else if d.Note? && CanonOf(d.attrs) == key then Live(modes, ds[..|ds| - 1], key) + [d.w]
            else Live(modes, ds[..|ds| - 1], key)
  {
    EventsFront(ds);
    HeldStep(modes, Source(modes, ds[..|ds| - 1]), ds[|ds| - 1], key);
  }

  // ---------------------------------------------------------------- every write is in one portion

  /** What destructive polls and resets took out of the set's cell, portion by portion. */
  function Portions(modes: seq<Mode>, ds: seq<Deed>, key: seq<KeyValue>): seq<seq<Write>> {
    if |ds| == 0 then []
    else
      var front := ds[..|ds| - 1];
      Portions(modes, front, key) + if Empties(modes, ds[|ds| - 1], key) then [Live(modes, front, key)] else []
  }

  function Join(logs: seq<seq<Write>>): seq<Write> {
    if |logs| == 0 then [] else Join(logs[..|logs| - 1]) + logs[|logs| - 1]
  }

  lemma JoinPush(logs: seq<seq<Write>>, log: seq<Write>)
    ensures Join(logs + [log]) == Join(logs) + log
  {
    assert (logs + [log])[..|logs|] == logs;
  }

  /** The portions taken, one after the other, and then the live cell, are exactly the writes to the set. */
  lemma {:induction false} PortionsPartition(modes: seq<Mode>, ds: seq<Deed>, key: seq<KeyValue>)
    ensures Join(Portions(modes, ds, key)) + Live(modes, ds, key) == WritesTo(ds, key)
  {
    if |ds| > 0 {
      var front := ds[..|ds| - 1];
      PortionsPartition(modes, front, key);
      LiveStep(modes, ds, key);
      var taken, log, d := Portions(modes, front, key), Live(modes, front, key), ds[|ds| - 1];
      if Empties(modes, d, key) {
        JoinPush(taken, log);
        assert WritesTo(front, key) + [] == WritesTo(front, key);
      } else {
        assert Portions(modes, ds, key) == taken;
        var more := if d.Note? && CanonOf(d.attrs) == key then [d.w] else [];
        assert Join(taken) + (log + more) == Join(taken) + log + more;
      }
    }
  }

  // ---------------------------------------------------------------- what was reported or returned

  /** The value a deed gives away: what a destructive poll records of the set, or what a reset returns. */
  function Gives<V>(
    kit: Kit<seq<Write>, V>, modes: seq<Mode>, p: Plain<seq<Write>>, d: Deed, key: seq<KeyValue>): Option<V>
  {
    if DrainedBy(modes, d) then DrainRecords(kit, key, Shown(kit, p, key))
    else if d.PutBack? && CanonOf(d.attrs) == key then
      var reply := PlainReply(p, [], Call.Reset(d.attrs));
      if reply.Was? then Some(kit.current(reply.value)) else None
    else None
  }

  function Given<V>(
    kit: Kit<seq<Write>, V>, modes: seq<Mode>, ds: seq<Deed>, key: seq<KeyValue>, polls: bool): seq<V>
  {
    if |ds| == 0 then []
    else
      var front, d := ds[..|ds| - 1], ds[|ds| - 1];
      var g := Gives(kit, modes, Source(modes, front), d, key);
      Given(kit, modes, front, key, polls) + if g.Some? && DrainedBy(modes, d) == polls then [g.value] else []
  }

  /** The values destructive polls have recorded of the set. */
  function Reported<V>(kit: Kit<seq<Write>, V>, modes: seq<Mode>, ds: seq<Deed>, key: seq<KeyValue>): seq<V> {
    Given(kit, modes, ds, key, true)
  }

  /** The values resets of the set have returned. */
  function Returned<V>(kit: Kit<seq<Write>, V>, modes: seq<Mode>, ds: seq<Deed>, key: seq<KeyValue>): seq<V> {
    Given(kit, modes, ds, key, false)
  }

  /** Only an empty value is not given away when a cell is emptied. */
  lemma GivesItsHoldings<V>(
    kit: Kit<seq<Write>, V>, modes: seq<Mode>, p: Plain<seq<Write>>, d: Deed, key: seq<KeyValue>)
    requires Empties(modes, d, key) && (!p.touched ==> p.noAttr == [])
    ensures var g := Gives(kit, modes, p, d, key);
            && (g.Some? ==> g.value == kit.current(Held(p, key)))
            && (g.None? ==> Held(p, key) == [] || kit.isInitial(kit.current(Held(p, key))))
  {
    if d.PutBack? {
      CanonFacts(d.attrs);
    }
  }

  // ---------------------------------------------------------------- histograms

  function NotEmpty(logs: seq<seq<Write>>): seq<seq<Write>> {
    Filter((log: seq<Write>) => log != [], logs)
  }

  predicate NoResets(ds: seq<Deed>) {
    forall i :: 0 <= i < |ds| ==> !ds[i].PutBack?
  }

  lemma {:induction false} TouchedIffHolding(modes: seq<Mode>, ds: seq<Deed>)
    requires NoResets(ds)
    ensures Source(modes, ds).touched <==> Source(modes, ds).noAttr != []
  {
    if |ds| > 0 {
      EventsFront(ds);
      TouchedIffHolding(modes, ds[..|ds| - 1]);
    }
  }

  lemma LiveIsCountable(modes: seq<Mode>, ds: seq<Deed>, key: seq<KeyValue>)
    requires Countable(WritesTo(ds, key))
    ensures Countable(Live(modes, ds, key))
  {
    PortionsPartition(modes, ds, key);
    AddsInParts(Join(Portions(modes, ds, key)), Live(modes, ds, key));
  }

  /** Conservation for histograms of adds: the snapshots reported are the histograms of the portions taken,
      none missing but the empty ones; and the portions with the live cell are exactly the writes. */
  lemma {:induction false} HistogramConservation(
    lo: int, b: seq<int>, modes: seq<Mode>, ds: seq<Deed>, key: seq<KeyValue>)
    requires NoResets(ds) && Countable(WritesTo(ds, key))
    ensures Reported(HistogramKit(lo, b), modes, ds, key) == Snapshots(lo, b, NotEmpty(Portions(modes, ds, key)))
    ensures Join(Portions(modes, ds, key)) + Live(modes, ds, key) == WritesTo(ds, key)
  {
    PortionsPartition(modes, ds, key);
    if |ds| > 0 {
      var front, d, kit := ds[..|ds| - 1], ds[|ds| - 1], HistogramKit(lo, b);
      AddsInParts(WritesTo(front, key), if d.Note? && CanonOf(d.attrs) == key then [d.w] else []);
      HistogramConservation(lo, b, modes, front, key);
      LiveIsCountable(modes, front, key);
      var log := Live(modes, front, key);
      if DrainedBy(modes, d) {
        TouchedIffHolding(modes, front);
        AddsDoNotWrap(lo, b, log);
        assert Gives(kit, modes, Source(modes, front), d, key) ==
               if log == [] then None else Some(SnapshotOf(lo, b, log));
        PortionPush(lo, b, Portions(modes, front, key), log);
      } else {
        assert Portions(modes, ds, key) == Portions(modes, front, key);
      }
    }
  }

  lemma PortionPush(lo: int, b: seq<int>, logs: seq<seq<Write>>, log: seq<Write>)
    ensures Snapshots(lo, b, NotEmpty(logs + [log])) ==
            Snapshots(lo, b, NotEmpty(logs)) + if log == [] then [] else [SnapshotOf(lo, b, log)]
  {
    assert (logs + [log])[..|logs|] == logs;
  }

  // ---------------------------------------------------------------- what is given is what gets exported

  predicate OnlyDrainer(modes: seq<Mode>, j: nat) {
    j < |modes| && forall k :: 0 <= k < |modes| ==> (modes[k].Destructive? <==> k == j)
  }

  predicate NoRestarts(ds: seq<Deed>, j: nat) {
    forall i :: 0 <= i < |ds| ==> ds[i] != Restarted(j)
  }

  /** The values that the destructive polls of one observer have recorded of the set. */
  function ReportedBy<V>(
    kit: Kit<seq<Write>, V>, modes: seq<Mode>, ds: seq<Deed>, key: seq<KeyValue>, j: nat): seq<V>
  {
    if |ds| == 0 then []
    else
      var front, d := ds[..|ds| - 1], ds[|ds| - 1];
      var g := Gives(kit, modes, Source(modes, front), d, key);
      ReportedBy(kit, modes, front, key, j) +
      if g.Some? && DrainedBy(modes, d) && d.observer == j then [g.value] else []
  }

  /** What a destructive observer's polls report is exactly its readings, exported or waiting, whatever else
      happens to the metric, other destructive observers included. */
  lemma {:induction false} DrainerHoldsWhatItReports<V>(
    kit: Kit<seq<Write>, V>, modes: seq<Mode>, ds: seq<Deed>, j: nat, key: seq<KeyValue>)
    requires j < |modes| && modes[j].Destructive? && NoRestarts(ds, j)
    ensures Values(Readings(kit, [], modes, AsEvents(ds), j, key)) == ReportedBy(kit, modes, ds, key, j)
  {
    if |ds| > 0 {
      DrainerHoldsWhatItReports(kit, modes, ds[..|ds| - 1], j, key);
      ReadingsStep(kit, modes, ds, j, key);
    }
  }

  lemma ReadingsStep<V>(kit: Kit<seq<Write>, V>, modes: seq<Mode>, ds: seq<Deed>, j: nat, key: seq<KeyValue>)
    requires j < |modes| && modes[j].Destructive? && NoRestarts(ds, j) && |ds| > 0
    ensures var front, d := ds[..|ds| - 1], ds[|ds| - 1];
            var g := Gives(kit, modes, Source(modes, front), d, key);
            Values(Readings(kit, [], modes, AsEvents(ds), j, key)) ==
            Values(Readings(kit, [], modes, AsEvents(front), j, key)) +
              if g.Some? && DrainedBy(modes, d) && d.observer == j then [g.value] else []
  {
    EventsFront(ds);
    assert ds[|ds| - 1] != Restarted(j);
  }

  /** A lone destructive observer reports all that is reported. */
  lemma {:induction false} OneReportsAll<V>(
    kit: Kit<seq<Write>, V>, modes: seq<Mode>, ds: seq<Deed>, j: nat, key: seq<KeyValue>)
    requires OnlyDrainer(modes, j)
    ensures ReportedBy(kit, modes, ds, key, j) == Reported(kit, modes, ds, key)
  {
    if |ds| > 0 {
      OneReportsAll(kit, modes, ds[..|ds| - 1], j, key);
    }
  }

  /** With one destructive observer, what destructive polls report is exactly that observer's readings. */
  lemma DrainerHoldsWhatIsReported<V>(
    kit: Kit<seq<Write>, V>, modes: seq<Mode>, ds: seq<Deed>, j: nat, key: seq<KeyValue>)
    requires OnlyDrainer(modes, j) && NoRestarts(ds, j)
    ensures Values(Readings(kit, [], modes, AsEvents(ds), j, key)) == Reported(kit, modes, ds, key)
  {
    DrainerHoldsWhatItReports(kit, modes, ds, j, key);
    OneReportsAll(kit, modes, ds, j, key);
  }

  // ---------------------------------------------------------------- deltas of a histogram over a run

  predicate NoDrainers(modes: seq<Mode>) {
    forall k :: 0 <= k < |modes| ==> !modes[k].Destructive?
  }

  /** Without destructive polls and resets, the cell holds every write. */
  lemma {:induction false} NothingTaken(modes: seq<Mode>, ds: seq<Deed>, key: seq<KeyValue>)
    requires NoDrainers(modes) && NoResets(ds)
    ensures Portions(modes, ds, key) == [] && Live(modes, ds, key) == WritesTo(ds, key)
  {
    if |ds| > 0 {
      NothingTaken(modes, ds[..|ds| - 1], key);
    }
    PortionsPartition(modes, ds, key);
  }

  /** All writes made to a set by the time of each poll that showed it, since the observer's restart. */
  function WritesByPoll(modes: seq<Mode>, ds: seq<Deed>, j: nat, key: seq<KeyValue>): seq<seq<Write>> {
    if |ds| == 0 then []
    else
      var front, d := ds[..|ds| - 1], ds[|ds| - 1];
      if d == Restarted(j) then []
      else if d.Polled? && d.observer == j && Exists(Source(modes, front), key) then
        WritesByPoll(modes, front, j, key) + [WritesTo(front, key)]
      else WritesByPoll(modes, front, j, key)
  }

  predicate Exists(p: Plain<seq<Write>>, key: seq<KeyValue>) {
    if key == [] then p.touched else key in p.buckets
  }

  lemma {:induction false} PollsSeeAllWrites(
    lo: int, b: seq<int>, modes: seq<Mode>, ds: seq<Deed>, j: nat, key: seq<KeyValue>)
    requires NoDrainers(modes) && NoResets(ds)
    ensures Seen(HistogramKit(lo, b), [], modes, AsEvents(ds), j, key) ==
        Snapshots(lo, b, WritesByPoll(modes, ds, j, key))
  {
    if |ds| > 0 {
      PollsSeeAllWrites(lo, b, modes, ds[..|ds| - 1], j, key);
      OneMoreDeed(lo, b, modes, ds, j, key);
    }
  }

  lemma ShownIsAllWrites(lo: int, b: seq<int>, modes: seq<Mode>, ds: seq<Deed>, key: seq<KeyValue>)
    requires NoDrainers(modes) && NoResets(ds)
    ensures Shown(HistogramKit(lo, b), Source(modes, ds), key) ==
            if Exists(Source(modes, ds), key) then Some(SnapshotOf(lo, b, WritesTo(ds, key))) else None
  {
    NothingTaken(modes, ds, key);
  }

  lemma OneMoreDeed(lo: int, b: seq<int>, modes: seq<Mode>, ds: seq<Deed>, j: nat, key: seq<KeyValue>)
    requires NoDrainers(modes) && NoResets(ds) && |ds| > 0
    requires var front := ds[..|ds| - 1];
             Seen(HistogramKit(lo, b), [], modes, AsEvents(front), j, key) ==
                 Snapshots(lo, b, WritesByPoll(modes, front, j, key))
    ensures Seen(HistogramKit(lo, b), [], modes, AsEvents(ds), j, key) ==
        Snapshots(lo, b, WritesByPoll(modes, ds, j, key))
  {
    var front, d, kit := ds[..|ds| - 1], ds[|ds| - 1], HistogramKit(lo, b);
    var logs := WritesByPoll(modes, front, j, key);
    SeenFront(kit, modes, ds, j, key);
    ShownIsAllWrites(lo, b, modes, front, key);
    SnapshotsPush(lo, b, logs, WritesTo(front, key));
    assert WritesByPoll(modes, ds, j, key) ==
           if d == Restarted(j) then []
           else if d.Polled? && d.observer == j && Exists(Source(modes, front), key) then logs + [WritesTo(front, key)]
           else logs;
  }

  lemma SeenFront<V>(kit: Kit<seq<Write>, V>, modes: seq<Mode>, ds: seq<Deed>, j: nat, key: seq<KeyValue>)
    requires |ds| > 0
    ensures var front, d := ds[..|ds| - 1], ds[|ds| - 1];
            Seen(kit, [], modes, AsEvents(ds), j, key) ==
            SeenStep(Seen(kit, [], modes, AsEvents(front), j, key), Shown(kit, Source(modes, front), key),
                     AsEvent(d), j)
  {
    EventsFront(ds);
  }

  lemma SnapshotsPush(lo: int, b: seq<int>, logs: seq<seq<Write>>, log: seq<Write>)
    ensures Snapshots(lo, b, logs + [log]) == Snapshots(lo, b, logs) + [SnapshotOf(lo, b, log)]
  {
  }

  lemma {:induction false} PollsAreAChain(modes: seq<Mode>, ds: seq<Deed>, j: nat, key: seq<KeyValue>)
    ensures Chain(WritesByPoll(modes, ds, j, key))
    ensures forall i :: 0 <= i < |WritesByPoll(modes, ds, j, key)| ==>
        IsPrefix(WritesByPoll(modes, ds, j, key)[i], WritesTo(ds, key))
  {
    if |ds| > 0 {
      PollsAreAChain(modes, ds[..|ds| - 1], j, key);
      assert IsPrefix(WritesTo(ds[..|ds| - 1], key), WritesTo(ds, key));
    }
  }

  /** In every run that only adds, a delta observer of a histogram reports for each poll exactly the histogram
      of the values added since the poll before: counts, count and sum. */
  lemma HistogramDeltasAreExact(lo: int, b: seq<int>, modes: seq<Mode>, ds: seq<Deed>, j: nat, key: seq<KeyValue>)
    requires j < |modes| && modes[j].Delta? && NoDrainers(modes) && NoResets(ds) && Countable(WritesTo(ds, key))
    ensures Chain(WritesByPoll(modes, ds, j, key))
    ensures Values(Readings(HistogramKit(lo, b), [], modes, AsEvents(ds), j, key)) ==
            AddedInBetween(lo, b, WritesByPoll(modes, ds, j, key))
  {
    var logs := WritesByPoll(modes, ds, j, key);
    PollsAreAChain(modes, ds, j, key);
    PollsSeeAllWrites(lo, b, modes, ds, j, key);
    DeltasAreReported(HistogramKit(lo, b), [], modes, AsEvents(ds), j, key);
    forall i | 0 <= i < |logs| ensures Countable(logs[i]) {
      assert WritesTo(ds, key) == logs[i] + WritesTo(ds, key)[|logs[i]|..];
      AddsInParts(logs[i], WritesTo(ds, key)[|logs[i]|..]);
    }
    HistogramDeltas(lo, b, logs);
  }
}
