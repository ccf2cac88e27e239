/** Nothing a histogram counts is lost but what is known to be: for the count, the sum and every bucket, what the
    live generation holds, what takes returned and the exact loss add up to everything written. */
module HistogramConservation {
  import opened Measure
  import opened Histogram
  import opened HistogramProtocol
  import opened HistogramSafety
  import opened HistogramTheorems

  datatype Quantity = TheCount | TheSum | InBucket(i: nat)

  predicate IsQuantity(sh: Shape, q: Quantity) {
    q.InBucket? ==> q.i <= |sh.boundaries|
  }

  /** The least value of the cell that holds the quantity. */
  function Base(sh: Shape, q: Quantity): int {
    if q.TheSum? then sh.lo else 0
  }

  /** What one write contributes. */
  function Share(sh: Shape, q: Quantity, w: Write): int {
    match q
    case TheCount => Sign(w)
    case TheSum => Sign(w) * w.value
    case InBucket(i) => if BucketIndex(sh.boundaries, w.value) == i then Sign(w) else 0
  }

  function Amount(sh: Shape, q: Quantity, log: seq<Write>): int {
    match q
    case TheCount => Net(log)
    case TheSum => NetSum(log)
    case InBucket(i) => NetIn(sh.boundaries, log, i)
  }

  function InState(sh: Shape, q: Quantity, s: State): int
    requires IsQuantity(sh, q) && |s.bucketCounts| == |sh.boundaries| + 1
  {
    match q
    case TheCount => s.count
    case TheSum => s.sum
    case InBucket(i) => s.bucketCounts[i]
  }

  /** A snapshot of another shape shows nothing; none is ever returned. */
  function InSnapshot(sh: Shape, q: Quantity, s: Snapshot): int {
    match q
    case TheCount => s.count
    case TheSum => s.sum
    case InBucket(i) => if i < |s.bucketCounts| then s.bucketCounts[i] else 0
  }

  lemma AmountAppend(sh: Shape, q: Quantity, log: seq<Write>, w: Write)
    ensures Amount(sh, q, log + [w]) == Amount(sh, q, log) + Share(sh, q, w)
  {
    assert (log + [w])[..|log + [w]| - 1] == log;
  }

  lemma ExpectedHolds(sh: Shape, q: Quantity, log: seq<Write>)
    requires IsQuantity(sh, q)
    ensures InState(sh, q, Expected(sh.lo, sh.boundaries, log)) == Wrap(Base(sh, q), Amount(sh, q, log))
    ensures InSnapshot(sh, q, SnapshotOf(sh.lo, sh.boundaries, log)) == Wrap(Base(sh, q), Amount(sh, q, log))
  {
  }

  // ---------------------------------------------------------------- sets of writes

  /** What the writes of the operations in `seen` come to. */
  function AmountIn(sh: Shape, q: Quantity, ops: seq<Op>, seen: set<nat>): int {
    if |ops| == 0 then 0
    else
      var n := |ops| - 1;
      AmountIn(sh, q, ops[..n], seen) + if n in seen && ops[n].Writer? then Share(sh, q, ops[n].write) else 0
  }

  lemma {:induction false} AmountInIsAmount(sh: Shape, q: Quantity, ops: seq<Op>, seen: set<nat>)
    ensures AmountIn(sh, q, ops, seen) == Amount(sh, q, WritesOf(ops, seen))
  {
    if |ops| > 0 {
      var n := |ops| - 1;
      AmountInIsAmount(sh, q, ops[..n], seen);
      var front := WritesOf(ops[..n], seen);
      if n in seen && ops[n].Writer? {
        AmountAppend(sh, q, front, ops[n].write);
      } else {
        assert WritesOf(ops, seen) == front;
      }
    }
  }

  lemma {:induction false} AmountOfUnion(sh: Shape, q: Quantity, ops: seq<Op>, a: set<nat>, b: set<nat>)
    requires a !! b
    ensures AmountIn(sh, q, ops, a + b) == AmountIn(sh, q, ops, a) + AmountIn(sh, q, ops, b)
  {
    if |ops| > 0 {
      AmountOfUnion(sh, q, ops[..|ops| - 1], a, b);
    }
  }

  lemma {:induction false} AmountOfNone(sh: Shape, q: Quantity, ops: seq<Op>)
    ensures AmountIn(sh, q, ops, {}) == 0
  {
    if |ops| > 0 {
      AmountOfNone(sh, q, ops[..|ops| - 1]);
    }
  }

  // ---------------------------------------------------------------- what takes returned

  /** The quantity in the snapshots that the takers among the first `n` operations returned. */
  function Taken(sh: Shape, q: Quantity, s: Sys, n: nat): int
    requires n <= |s.ops|
  {
    if n == 0 then 0
    else
      var op := s.ops[n - 1];
      Taken(sh, q, s, n - 1) + if op.Reader? && op.taking && op.rp.Returned? then InSnapshot(sh, q, op.rp.snap) else 0
  }

  predicate Reports(op: Op) {
    op.Reader? && op.taking && op.rp.Returned?
  }

  /** What the writes they saw come to. */
  function SeenByTakers(sh: Shape, q: Quantity, s: Sys, n: nat): int
    requires n <= |s.ops|
  {
    if n == 0 then 0
    else
      var op := s.ops[n - 1];
      SeenByTakers(sh, q, s, n - 1) + if Reports(op) then AmountIn(sh, q, s.ops, op.rp.seen) else 0
  }

  lemma OneTake(sh: Shape, q: Quantity, s: Sys, j: nat) returns (laps: int)
    requires ValidCells(sh, s) && ValidRefs(s) && Inv(sh, s) && j < |s.ops| && Reports(s.ops[j]) && IsQuantity(sh, q)
    ensures AmountIn(sh, q, s.ops, s.ops[j].rp.seen) == InSnapshot(sh, q, s.ops[j].rp.snap) + laps * TWO_TO_THE_64
  {
    var seen := s.ops[j].rp.seen;
    ReturnedIsExact(sh, s, j);
    AmountInIsAmount(sh, q, s.ops, seen);
    ExpectedHolds(sh, q, WritesOf(s.ops, seen));
    laps := Laps(Base(sh, q), AmountIn(sh, q, s.ops, seen));
  }

  /** A take returns what it saw, up to whole laps. */
  lemma {:induction false} TakenIsSeen(sh: Shape, q: Quantity, s: Sys, n: nat) returns (laps: int)
    requires ValidCells(sh, s) && ValidRefs(s) && Inv(sh, s) && n <= |s.ops| && IsQuantity(sh, q)
    ensures SeenByTakers(sh, q, s, n) == Taken(sh, q, s, n) + laps * TWO_TO_THE_64
  {
    laps := 0;
    if n > 0 {
      laps := TakenIsSeen(sh, q, s, n - 1);
      if Reports(s.ops[n - 1]) {
        var more := OneTake(sh, q, s, n - 1);
        laps := laps + more;
      }
    }
  }

  /** The operation adds to what is reported what it saw, if it is a take. */
  predicate AddsWhatItSaw(sh: Shape, q: Quantity, s: Sys, n: nat)
    requires 0 < n <= |s.ops|
  {
    AmountIn(sh, q, s.ops, Reported(s, n)) == AmountIn(sh, q, s.ops, Reported(s, n - 1)) +
      if Reports(s.ops[n - 1]) then AmountIn(sh, q, s.ops, s.ops[n - 1].rp.seen) else 0
  }

  lemma {:induction false} ReportedIsSeen(sh: Shape, q: Quantity, s: Sys, n: nat)
    requires n <= |s.ops| && forall k :: 0 < k <= n ==> AddsWhatItSaw(sh, q, s, k)
    ensures AmountIn(sh, q, s.ops, Reported(s, n)) == SeenByTakers(sh, q, s, n)
  {
    if n == 0 {
      NoneReported(sh, q, s);
    } else {
      ReportedIsSeen(sh, q, s, n - 1);
      assert AddsWhatItSaw(sh, q, s, n);
    }
  }

  /** No write is seen by two takers. */
  lemma AllReportedIsSeen(sh: Shape, q: Quantity, s: Sys)
    requires ValidCells(sh, s) && ValidRefs(s) && Inv(sh, s) && OneTakerEach(s)
    ensures AmountIn(sh, q, s.ops, Reported(s, |s.ops|)) == SeenByTakers(sh, q, s, |s.ops|)
  {
    forall k | 0 < k <= |s.ops| ensures AddsWhatItSaw(sh, q, s, k) {
      OneMoreOp(sh, q, s, k);
    }
    ReportedIsSeen(sh, q, s, |s.ops|);
  }

  lemma NoneReported(sh: Shape, q: Quantity, s: Sys)
    ensures AmountIn(sh, q, s.ops, Reported(s, 0)) == 0
  {
    AmountOfNone(sh, q, s.ops);
    assert Reported(s, 0) == {};
  }

  lemma OneMoreOp(sh: Shape, q: Quantity, s: Sys, n: nat)
    requires ValidCells(sh, s) && ValidRefs(s) && Inv(sh, s) && OneTakerEach(s) && 0 < n <= |s.ops|
    ensures AddsWhatItSaw(sh, q, s, n)
  {
    if Reports(s.ops[n - 1]) {
      ReportedStep(sh, s, n);
      AmountOfUnion(sh, q, s.ops, Reported(s, n - 1), s.ops[n - 1].rp.seen);
    } else {
      NothingReported(s, n);
    }
  }

  lemma NothingReported(s: Sys, n: nat)
    requires 0 < n <= |s.ops|
    requires var op := s.ops[n - 1]; !(op.Reader? && op.taking && op.rp.Returned?)
    ensures Reported(s, n) == Reported(s, n - 1)
  {
  }

  lemma ReportedStep(sh: Shape, s: Sys, n: nat)
    requires ValidCells(sh, s) && ValidRefs(s) && Inv(sh, s) && OneTakerEach(s) && 0 < n <= |s.ops|
    requires var op := s.ops[n - 1]; op.Reader? && op.taking && op.rp.Returned?
    ensures Reported(s, n) == Reported(s, n - 1) + s.ops[n - 1].rp.seen
    ensures Reported(s, n - 1) !! s.ops[n - 1].rp.seen
  {
    var op := s.ops[n - 1];
    ReturnedIsExact(sh, s, n - 1);
    ReportedPush(s, n);
    forall i | i in Reported(s, n - 1) ensures i !in op.rp.seen {
      ReportedOnce(sh, s, n - 1, i);
      var j :| 0 <= j < n - 1 && TakerOf(s.ops[j], s.ops[i].wp.gen);
      assert !TakerOf(op, s.ops[i].wp.gen);
    }
  }

  lemma ReportedPush(s: Sys, n: nat)
    requires 0 < n <= |s.ops|
    requires var op := s.ops[n - 1]; op.Reader? && op.taking && op.rp.Returned?
    ensures Reported(s, n) == Reported(s, n - 1) + s.ops[n - 1].rp.seen
  {
  }

  // ---------------------------------------------------------------- the main result

  lemma LiveHolds(sh: Shape, q: Quantity, s: Sys) returns (laps: int)
    requires ValidCells(sh, s) && ValidRefs(s) && Inv(sh, s) && AllOver(s) && IsQuantity(sh, q)
    ensures AmountIn(sh, q, s.ops, FinishedSet(s.ops, Live(s))) ==
            InState(sh, q, s.gens[Live(s)].state) + laps * TWO_TO_THE_64
  {
    LiveIsQuiet(sh, s);
    var finished := FinishedSet(s.ops, Live(s));
    AmountInIsAmount(sh, q, s.ops, finished);
    ExpectedHolds(sh, q, WritesOf(s.ops, finished));
    laps := Laps(Base(sh, q), AmountIn(sh, q, s.ops, finished));
  }

  lemma WritesAddUp(sh: Shape, q: Quantity, s: Sys)
    requires ValidCells(sh, s) && ValidRefs(s) && Inv(sh, s) && OneTakerEach(s) && AllOver(s)
    ensures AmountIn(sh, q, s.ops, Writers(s)) ==
            AmountIn(sh, q, s.ops, FinishedSet(s.ops, Live(s))) + AmountIn(sh, q, s.ops, Reported(s, |s.ops|))
            + AmountIn(sh, q, s.ops, Lost(s))
  {
    var live, reported := FinishedSet(s.ops, Live(s)), Reported(s, |s.ops|);
    Partition(sh, s);
    AmountOfUnion(sh, q, s.ops, live, reported);
    AmountOfUnion(sh, q, s.ops, live + reported, Lost(s));
  }

  /** When every operation is over, for the count, the sum and each bucket: what was written is what the live
      cell holds, plus what takes returned, plus the exactly known loss, up to a multiple of 2^64. */
  lemma CellsAreConserved(sh: Shape, q: Quantity, actions: seq<Action>) returns (laps: int)
    requires AllOver(Run(sh, actions)) && IsQuantity(sh, q)
    ensures var s := Run(sh, actions);
            AmountIn(sh, q, s.ops, Writers(s)) ==
            InState(sh, q, s.gens[Live(s)].state) + Taken(sh, q, s, |s.ops|) + AmountIn(sh, q, s.ops, Lost(s))
            + laps * TWO_TO_THE_64
  {
    var s := Run(sh, actions);
    RunKeepsInv(sh, actions);
    RunKeepsTakers(sh, actions);
    WritesAddUp(sh, q, s);
    AllReportedIsSeen(sh, q, s);
    var taken := TakenIsSeen(sh, q, s, |s.ops|);
    var live := LiveHolds(sh, q, s);
    laps := taken + live;
  }

  lemma LiveIsQuiet(sh: Shape, s: Sys)
    requires ValidCells(sh, s) && ValidRefs(s) && Inv(sh, s) && AllOver(s)
    ensures s.gens[Live(s)].state == Expected(sh.lo, sh.boundaries, WritesOf(s.ops, FinishedSet(s.ops, Live(s))))
  {
    assert CountersOk(s, Live(s));
    assert StartedSet(s.ops, Live(s)) == FinishedSet(s.ops, Live(s));
    QuietCellsAreExpected(sh, s, Live(s));
  }
}
