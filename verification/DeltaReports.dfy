/** What the deltas reported for a counter and for a histogram add up to. */
module DeltaReports {
  import opened Wrappers
  import opened Measure
  import opened Histogram
  import opened HistogramDelta
  import opened Model
  import opened BucketRefinement
  import opened Observation

  // ---------------------------------------------------------------- unsigned scalars telescope

  /** A 64-bit cell with least value `lo`: compared and subtracted as it stands. */
  function ScalarKit<A>(lo: int, current: A -> int): Kit<A, int> {
    Kit(current, (x: int, y: int) => x < y, (x: int, y: int) => Wrap(lo, x - y), (x: int) => x == 0)
  }

  function Sum(vs: seq<int>): int {
    if |vs| == 0 then 0 else Sum(vs[..|vs| - 1]) + vs[|vs| - 1]
  }

  lemma SumPush(vs: seq<int>, x: int)
    ensures Sum(vs + [x]) == Sum(vs) + x
  {
    assert (vs + [x])[..|vs|] == vs;
  }

  /** The values standing just before each drop. */
  function BeforeDrops(seen: seq<int>): seq<int> {
    if |seen| < 2 then []
    else
      var n := |seen| - 1;
      BeforeDrops(seen[..n]) + if seen[n] < seen[n - 1] then [seen[n - 1]] else []
  }

  predicate Unsigned(vs: seq<int>) {
    forall i :: 0 <= i < |vs| ==> 0 <= vs[i] < TWO_TO_THE_64
  }

  predicate NeverDrops(seen: seq<int>) {
    forall i :: 0 < i < |seen| ==> seen[i - 1] <= seen[i]
  }

  /** The deltas sum to the last value plus the values lost sight of at each drop. */
  lemma {:induction false} DeltasTelescope<A>(current: A -> int, seen: seq<int>)
    requires Unsigned(seen)
    ensures Sum(Deltas(ScalarKit(0, current), seen)) ==
            (if |seen| == 0 then 0 else seen[|seen| - 1]) + Sum(BeforeDrops(seen))
  {
    if |seen| > 0 {
      var n := |seen| - 1;
      DeltasTelescope(current, seen[..n]);
      OneDelta(current, seen);
      if n > 0 && seen[n] < seen[n - 1] {
        SumPush(BeforeDrops(seen[..n]), seen[n - 1]);
      } else {
        assert BeforeDrops(seen[..n]) + [] == BeforeDrops(seen[..n]);
      }
    }
  }

  /** What the last value adds to the sum of deltas. */
  lemma OneDelta<A>(current: A -> int, seen: seq<int>)
    requires Unsigned(seen) && |seen| > 0
    ensures var n := |seen| - 1;
            Sum(Deltas(ScalarKit(0, current), seen)) == Sum(Deltas(ScalarKit(0, current), seen[..n])) +
              if n > 0 && seen[n - 1] <= seen[n] then seen[n] - seen[n - 1] else seen[n]
  {
    var n := |seen| - 1;
    var front := Deltas(ScalarKit(0, current), seen[..n]);
    ScalarRecorded(current, LastOf(seen[..n]), seen[n]);
    var r := Recorded(ScalarKit(0, current), Delta, LastOf(seen[..n]), seen[n]);
    if r.Some? {
      SumPush(front, r.value);
    } else {
      assert front + [] == front;
    }
  }

  lemma ScalarRecorded<A>(current: A -> int, last: Option<int>, v: int)
    requires 0 <= v < TWO_TO_THE_64 && (last.Some? ==> 0 <= last.value < TWO_TO_THE_64)
    ensures Recorded(ScalarKit(0, current), Delta, last, v) ==
            if last.None? || v < last.value then Some(v) else if v == last.value then None else Some(v - last.value)
  {
  }

  /** They sum to the last value exactly when it never drops. */
  lemma DeltasSumToTheLast<A>(current: A -> int, seen: seq<int>)
    requires Unsigned(seen) && |seen| > 0
    ensures Sum(Deltas(ScalarKit(0, current), seen)) == seen[|seen| - 1] <==> NeverDrops(seen)
  {
    DeltasTelescope(current, seen);
    NoDropsNoLoss(seen);
  }

  lemma {:induction false} NoDropsNoLoss(seen: seq<int>)
    requires Unsigned(seen)
    ensures Sum(BeforeDrops(seen)) >= 0
    ensures Sum(BeforeDrops(seen)) == 0 <==> NeverDrops(seen)
  {
    if |seen| >= 2 {
      var n := |seen| - 1;
      NoDropsNoLoss(seen[..n]);
      if seen[n] < seen[n - 1] {
        SumPush(BeforeDrops(seen[..n]), seen[n - 1]);
      } else {
        assert BeforeDrops(seen) == BeforeDrops(seen[..n]);
        assert NeverDrops(seen[..n]) ==> NeverDrops(seen);
      }
    }
  }

  predicate OfMeasure(lo: int, vs: seq<int>) {
    forall i :: 0 <= i < |vs| ==> lo <= vs[i] < lo + 0x1_0000_0000_0000_0000
  }

  /** What one more value adds: its difference to the last one, or itself after a drop. */
  function Step(last: Option<int>, v: int): int {
    if last.None? || v < last.value then v else v - last.value
  }

  lemma OneDeltaOfMeasure<A>(lo: int, current: A -> int, last: Option<int>, v: int) returns (laps: int)
    requires lo <= v < lo + 0x1_0000_0000_0000_0000
    ensures var r := Recorded(ScalarKit(lo, current), Delta, last, v);
            && (r.Some? ==> lo <= r.value < lo + 0x1_0000_0000_0000_0000)
            && (if r.Some? then r.value else 0) == Step(last, v) + laps * 0x1_0000_0000_0000_0000
  {
    laps := 0;
    if last.Some? && last.value < v {
      laps := -Laps(lo, v - last.value);
    }
  }

  lemma SumMaybePush(vs: seq<int>, r: Option<int>)
    ensures Sum(vs + if r.Some? then [r.value] else []) == Sum(vs) + if r.Some? then r.value else 0
  {
    if r.Some? {
      SumPush(vs, r.value);
    } else {
      assert vs + [] == vs;
    }
  }

  lemma DropsStep(seen: seq<int>)
    requires |seen| > 0
    ensures var n := |seen| - 1;
            Sum(BeforeDrops(seen)) ==
            Sum(BeforeDrops(seen[..n])) + if n > 0 && seen[n] < seen[n - 1] then seen[n - 1] else 0
  {
    var n := |seen| - 1;
    if n > 0 {
      SumMaybePush(BeforeDrops(seen[..n]), if seen[n] < seen[n - 1] then Some(seen[n - 1]) else None);
    }
  }

  /** Of any measure, signed ones included, the deltas are again values of the measure, and they telescope up to a
      multiple of 2^64. */
  lemma {:induction false} DeltasStayInTheMeasure<A>(lo: int, current: A -> int, seen: seq<int>) returns (laps: int)
    requires OfMeasure(lo, seen)
    ensures OfMeasure(lo, Deltas(ScalarKit(lo, current), seen))
    ensures Sum(Deltas(ScalarKit(lo, current), seen)) ==
            (if |seen| == 0 then 0 else seen[|seen| - 1]) + Sum(BeforeDrops(seen)) + laps * 0x1_0000_0000_0000_0000
  {
    if |seen| == 0 {
      laps := 0;
    } else {
      var n := |seen| - 1;
      laps := DeltasStayInTheMeasure(lo, current, seen[..n]);
      var more := OneDeltaOfMeasure(lo, current, LastOf(seen[..n]), seen[n]);
      DropsStep(seen);
      SumMaybePush(Deltas(ScalarKit(lo, current), seen[..n]),
                   Recorded(ScalarKit(lo, current), Delta, LastOf(seen[..n]), seen[n]));
      laps := laps + more;
    }
  }

  /** In a whole run: what a delta observer of a counter has reported for a set since its restart. */
  lemma CounterDeltasTelescope<A>(
    current: A -> int, init: A, modes: seq<Mode>, events: seq<Event<A>>, j: nat, key: seq<KeyValue>)
    requires j < |modes| && modes[j].Delta? && forall a :: 0 <= current(a) < TWO_TO_THE_64
    ensures var kit := ScalarKit(0, current);
            var seen := Seen(kit, init, modes, events, j, key);
            Sum(Values(Readings(kit, init, modes, events, j, key))) ==
            (if |seen| == 0 then 0 else seen[|seen| - 1]) + Sum(BeforeDrops(seen))
  {
    DeltasAreReported(ScalarKit(0, current), init, modes, events, j, key);
    SeenIsOfMeasure(0, current, init, modes, events, j, key);
    var seen := Seen(ScalarKit(0, current), init, modes, events, j, key);
    DeltasTelescope(current, seen);
    assert Values(Readings(ScalarKit(0, current), init, modes, events, j, key)) == Deltas(ScalarKit(0, current), seen);
  }

  /** The same of any measure: every delta reported is a value of it, and they telescope up to a multiple of 2^64. */
  lemma MeasureDeltasTelescope<A>(
    lo: int, current: A -> int, init: A, modes: seq<Mode>, events: seq<Event<A>>, j: nat, key: seq<KeyValue>)
      returns (laps: int)
    requires j < |modes| && modes[j].Delta? && forall a :: lo <= current(a) < lo + 0x1_0000_0000_0000_0000
    ensures var kit := ScalarKit(lo, current);
            var seen := Seen(kit, init, modes, events, j, key);
            var deltas := Values(Readings(kit, init, modes, events, j, key));
            && OfMeasure(lo, deltas)
            && Sum(deltas) ==
               (if |seen| == 0 then 0 else seen[|seen| - 1]) + Sum(BeforeDrops(seen)) + laps * 0x1_0000_0000_0000_0000
  {
    DeltasAreReported(ScalarKit(lo, current), init, modes, events, j, key);
    SeenIsOfMeasure(lo, current, init, modes, events, j, key);
    laps := DeltasStayInTheMeasure(lo, current, Seen(ScalarKit(lo, current), init, modes, events, j, key));
  }

  lemma {:induction false} SeenIsOfMeasure<A>(
    lo: int, current: A -> int, init: A, modes: seq<Mode>, events: seq<Event<A>>, j: nat, key: seq<KeyValue>)
    requires forall a :: lo <= current(a) < lo + 0x1_0000_0000_0000_0000
    ensures OfMeasure(lo, Seen(ScalarKit(lo, current), init, modes, events, j, key))
  {
    if |events| > 0 {
      SeenIsOfMeasure(lo, current, init, modes, events[..|events| - 1], j, key);
      ShownIsOfMeasure(lo, current, SourceAfter(init, modes, events[..|events| - 1]), key);
    }
  }

  lemma ShownIsOfMeasure<A>(lo: int, current: A -> int, p: Plain<A>, key: seq<KeyValue>)
    requires forall a :: lo <= current(a) < lo + 0x1_0000_0000_0000_0000
    ensures var shown := Shown(ScalarKit(lo, current), p, key);
            shown.Some? ==> lo <= shown.value < lo + 0x1_0000_0000_0000_0000
  {
    assert ScalarKit(0, current).current == current;
  }

  // ---------------------------------------------------------------- histograms

  /** A histogram cell is known by its log of writes. */
  function HistogramKit(lo: int, b: seq<int>): Kit<seq<Write>, Snapshot> {
    Kit((log: seq<Write>) => SnapshotOf(lo, b, log), (x: Snapshot, y: Snapshot) => HistogramDelta.Less(x, y),
        (x: Snapshot, y: Snapshot) => Minus(lo, x, y), (s: Snapshot) => IsInitial(s))
  }

  predicate IsPrefix(xs: seq<Write>, ys: seq<Write>) {
    |xs| <= |ys| && ys[..|xs|] == xs
  }

  predicate Chain(logs: seq<seq<Write>>) {
    forall i :: 0 < i < |logs| ==> IsPrefix(logs[i - 1], logs[i])
  }

  function Snapshots(lo: int, b: seq<int>, logs: seq<seq<Write>>): seq<Snapshot> {
    seq(|logs|, i requires 0 <= i < |logs| => SnapshotOf(lo, b, logs[i]))
  }

  /** The histograms of what was added between one log and the next: the first in full, the others without
      extrema, and nothing where nothing was added. */
  function AddedInBetween(lo: int, b: seq<int>, logs: seq<seq<Write>>): seq<Snapshot>
    requires Chain(logs)
  {
    if |logs| == 0 then []
    else if |logs| == 1 then [SnapshotOf(lo, b, logs[0])]
    else
      var n := |logs| - 1;
      var added := logs[n][|logs[n - 1]|..];
      AddedInBetween(lo, b, logs[..n]) + if added == [] then [] else [WithoutExtrema(SnapshotOf(lo, b, added))]
  }

  lemma {:induction false} HistogramDeltas(lo: int, b: seq<int>, logs: seq<seq<Write>>)
    requires Chain(logs) && forall i :: 0 <= i < |logs| ==> Countable(logs[i])
    ensures Deltas(HistogramKit(lo, b), Snapshots(lo, b, logs)) == AddedInBetween(lo, b, logs)
  {
    if |logs| > 0 {
      var n := |logs| - 1;
      var seen := Snapshots(lo, b, logs);
      HistogramDeltas(lo, b, logs[..n]);
      assert seen[..n] == Snapshots(lo, b, logs[..n]);
      if n > 0 {
        assert IsPrefix(logs[n - 1], logs[n]);
        OneHistogramDelta(lo, b, logs[n - 1], logs[n]);
      } else {
        assert logs == [logs[0]] && seen[..0] == [];
      }
    }
  }

  /** Between two polls: nothing, or the histogram of what was added. */
  lemma OneHistogramDelta(lo: int, b: seq<int>, earlier: seq<Write>, later: seq<Write>)
    requires IsPrefix(earlier, later) && Countable(earlier) && Countable(later)
    ensures var added := later[|earlier|..];
            Recorded(HistogramKit(lo, b), Delta, Some(SnapshotOf(lo, b, earlier)), SnapshotOf(lo, b, later)) ==
            if added == [] then None else Some(WithoutExtrema(SnapshotOf(lo, b, added)))
  {
    var added := later[|earlier|..];
    assert later == earlier + added;
    DeltaIsExact(lo, b, earlier, added);
    UnchangedOrGreater(lo, b, earlier, added);
  }
}
