/** What callers of the histogram may rely on, over every interleaving. */
module HistogramTheorems {
  import opened Measure
  import opened Sequences
  import opened Histogram
  import opened HistogramProtocol
  import opened HistogramSafety

  // ---------------------------------------------------------------- a returned snapshot is one instant

  /** The instant of a read: the step at which its successful load of `start` happened. */
  lemma {:induction false} ReadHasAnInstant(sh: Shape, actions: seq<Action>, j: nat) returns (k: nat)
    requires j < |Run(sh, actions).ops| && Run(sh, actions).ops[j].Reader?
    requires var rp := Run(sh, actions).ops[j].rp; rp.Reading? || rp.Returned?
    ensures k < |actions| && actions[k] == Advance(j) && j < |Run(sh, actions[..k]).ops|
    ensures var s, rp := Run(sh, actions[..k]), Run(sh, actions).ops[j].rp;
            && s.ops[j].Reader? && s.ops[j].rp.LoadedEnd? && s.ops[j].rp.gen == rp.gen
            && s.gens[rp.gen].start == rp.start == s.ops[j].rp.end
            && FinishedSet(s.ops, rp.gen) == rp.seen
  {
    var n := |actions| - 1;
    var s := Run(sh, actions[..n]);
    if actions[n] == Advance(j) && s.ops[j].rp.LoadedEnd? {
      k := n;
    } else {
      k := ReadHasAnInstant(sh, actions[..n], j);
      assert actions[..n][..k] == actions[..k];
    }
  }

  /** Every snapshot any read or take returns, in any run, is exactly the content of its generation at
      one instant of the run. At that instant no writer was between its two bumps, so the content is the
      effect of whole writes only: those finished by then, none of the others. */
  lemma SnapshotIsOneInstant(sh: Shape, actions: seq<Action>, j: nat) returns (k: nat)
    requires j < |Run(sh, actions).ops| && Run(sh, actions).ops[j].Reader? && Run(sh, actions).ops[j].rp.Returned?
    ensures k < |actions| && actions[k] == Advance(j)
    ensures var s, rp := Run(sh, actions[..k]), Run(sh, actions).ops[j].rp;
            && rp.gen < |s.gens|
            && rp.snap == ToSnapshot(sh.boundaries, s.gens[rp.gen].state)
            && rp.snap == SnapshotOf(sh.lo, sh.boundaries, WritesOf(s.ops, FinishedSet(s.ops, rp.gen)))
            && StartedSet(s.ops, rp.gen) == FinishedSet(s.ops, rp.gen)
  {
    var rp := Run(sh, actions).ops[j].rp;
    k := ReadHasAnInstant(sh, actions, j);
    var s := Run(sh, actions[..k]);
    RunKeepsInv(sh, actions);
    RunKeepsInv(sh, actions[..k]);
    assert OpOk(sh, Run(sh, actions), Run(sh, actions).ops[j]);
    LoadStartIsQuiet(sh, s, j);
    assert CountersOk(s, rp.gen);
    EqualCountersMeanQuiet(s, rp.gen);
    WritesOfRun(sh, actions, k, rp.seen);
    QuietCellsAreExpected(sh, s, rp.gen);
  }

  /** While no writer is inside, the cells of a generation are exactly its finished writes. */
  lemma QuietCellsAreExpected(sh: Shape, s: Sys, g: nat)
    requires ValidCells(sh, s) && ValidRefs(s) && Inv(sh, s) && g < |s.gens| && s.gens[g].start == s.gens[g].end
    ensures s.gens[g].state == Expected(sh.lo, sh.boundaries, WritesOf(s.ops, FinishedSet(s.ops, g)))
  {
    assert CellsOk(sh, s, g) && CountersOk(s, g);
    EqualCountersMeanQuiet(s, g);
    var seen := FinishedSet(s.ops, g);
    forall i | 0 <= i < |s.ops| ensures Performed(sh, s.ops[i], g) ==
      if i in seen && s.ops[i].Writer? then Program(sh, s.ops[i].write) else []
    {
      assert OpOk(sh, s, s.ops[i]);
    }
    forall c | Has(sh, c)
      ensures Load(s.gens[g].state, c) == Load(Expected(sh.lo, sh.boundaries, WritesOf(s.ops, seen)), c)
    {
      OwedIsExpected(sh, s.ops, g, seen, c);
    }
    StatesEqual(sh, s.gens[g].state, Expected(sh.lo, sh.boundaries, WritesOf(s.ops, seen)));
  }

  lemma WritesOfStep(sh: Shape, s: Sys, a: Action, seen: set<nat>)
    requires ValidCells(sh, s) && ValidRefs(s) && forall i :: i in seen ==> i < |s.ops|
    ensures |s.ops| <= |Step(sh, s, a).ops| && WritesOf(Step(sh, s, a).ops, seen) == WritesOf(s.ops, seen)
  {
    var t := Step(sh, s, a);
    if !a.Advance? {
      WritesOfExtend(s.ops, t.ops[|s.ops|], seen);
    } else if a.op < |s.ops| {
      WritesOfUpdate(s.ops, a.op, t.ops[a.op], seen);
      assert t.ops == s.ops[a.op := t.ops[a.op]];
    }
  }

  /** Operations are only ever appended, and their writes never change. */
  lemma {:induction false} WritesOfRun(sh: Shape, actions: seq<Action>, k: nat, seen: set<nat>)
    requires k <= |actions| && forall i :: i in seen ==> i < |Run(sh, actions[..k]).ops|
    ensures |Run(sh, actions[..k]).ops| <= |Run(sh, actions).ops|
    ensures WritesOf(Run(sh, actions).ops, seen) == WritesOf(Run(sh, actions[..k]).ops, seen)
  {
    if k == |actions| {
      assert actions[..k] == actions;
    } else {
      var n := |actions| - 1;
      var s := Run(sh, actions[..n]);
      PrefixOfPrefix(actions, n, k);
      WritesOfRun(sh, actions[..n], k, seen);
      assert forall i :: i in seen ==> i < |s.ops|;
      WritesOfStep(sh, s, actions[n], seen);
      assert Run(sh, actions) == Step(sh, s, actions[n]);
    }
  }

  /** The sums a snapshot promises: its bucket counts add up to its count modulo 2^64, and its count and
      sum are the wrapped totals of one and the same set of writes. */
  lemma SnapshotTotalsAgree(sh: Shape, actions: seq<Action>, j: nat)
    requires j < |Run(sh, actions).ops| && Run(sh, actions).ops[j].Reader? && Run(sh, actions).ops[j].rp.Returned?
    ensures TotalsAgree(sh, Run(sh, actions).ops[j].rp.snap,
        WritesOf(Run(sh, actions).ops, Run(sh, actions).ops[j].rp.seen))
  {
    RunKeepsInv(sh, actions);
    var s := Run(sh, actions);
    ReturnedIsExact(sh, s, j);
    BucketCountsSumToCount(sh.lo, sh.boundaries, WritesOf(s.ops, s.ops[j].rp.seen));
  }

  predicate TotalsAgree(sh: Shape, snap: Snapshot, log: seq<Write>) {
    && Congruent(Total(snap.bucketCounts), snap.count)
    && snap.count == Wrap(0, Net(log))
    && snap.sum == Wrap(sh.lo, NetSum(log))
  }

  lemma {:induction false} WritesOfMembers(ops: seq<Op>, seen: set<nat>, w: Write)
    requires forall i :: i in seen ==> i < |ops| && ops[i].Writer?
    ensures w in WritesOf(ops, seen) <==> exists i :: i in seen && ops[i].write == w
  {
    if |ops| > 0 {
      var n := |ops| - 1;
      var front := set i | i in seen && i < n;
      WritesOfSubset(ops[..n], seen, front);
      WritesOfMembers(ops[..n], front, w);
      assert forall i :: i in seen <==> i in front || (i == n && n in seen);
      assert forall i :: i in front ==> ops[..n][i] == ops[i];
    }
  }

  lemma {:induction false} WritesOfSubset(ops: seq<Op>, seen: set<nat>, within: set<nat>)
    requires forall i :: i in within <==> i in seen && i < |ops|
    ensures WritesOf(ops, seen) == WritesOf(ops, within)
  {
    if |ops| > 0 {
      var n := |ops| - 1;
      WritesOfSubset(ops[..n], seen, set i | i in seen && i < n);
      WritesOfSubset(ops[..n], within, set i | i in seen && i < n);
    }
  }

  /** The operation is an add among those a read reports. */
  predicate AddSeen(ops: seq<Op>, seen: set<nat>, v: int) {
    exists i :: i in seen && i < |ops| && ops[i].Writer? && ops[i].write == Write.Add(v)
  }

  /** The extrema of every returned snapshot are the least and the greatest value added by the writes it reports:
      both are there exactly while its count is not zero, both were added, and nothing added lies outside. */
  lemma SnapshotExtremaAgree(sh: Shape, actions: seq<Action>, j: nat)
    requires j < |Run(sh, actions).ops| && Run(sh, actions).ops[j].Reader? && Run(sh, actions).ops[j].rp.Returned?
    requires forall v :: AddSeen(Run(sh, actions).ops, Run(sh, actions).ops[j].rp.seen, v) ==>
               sh.lo <= v < sh.lo + 0x1_0000_0000_0000_0000
    ensures var ops := Run(sh, actions).ops;
            var snap, seen := ops[j].rp.snap, ops[j].rp.seen;
            && (snap.min.None? <==> snap.count == 0) && (snap.max.None? <==> snap.count == 0)
            && (snap.count != 0 ==> forall v :: AddSeen(ops, seen, v) ==> snap.min.value <= v <= snap.max.value)
            && (snap.count != 0 && (exists v :: AddSeen(ops, seen, v)) ==>
                  AddSeen(ops, seen, snap.min.value) && AddSeen(ops, seen, snap.max.value))
  {
    RunKeepsInv(sh, actions);
    var s := Run(sh, actions);
    var seen := s.ops[j].rp.seen;
    ReturnedIsExact(sh, s, j);
    var log := WritesOf(s.ops, seen);
    forall v ensures Adds(log, v) <==> AddSeen(s.ops, seen, v) {
      WritesOfMembers(s.ops, seen, Write.Add(v));
    }
    ExtremaAreOfTheAdds(sh.lo, sh.boundaries, log);
  }

  lemma ReturnedIsExact(sh: Shape, s: Sys, j: nat)
    requires ValidCells(sh, s) && ValidRefs(s) && Inv(sh, s)
    requires j < |s.ops| && s.ops[j].Reader? && s.ops[j].rp.Returned?
    ensures SeenExactly(s.ops, s.ops[j].rp.gen, s.ops[j].rp.start, s.ops[j].rp.seen)
    ensures s.ops[j].rp.snap == SnapshotOf(sh.lo, sh.boundaries, WritesOf(s.ops, s.ops[j].rp.seen))
  {
    assert OpOk(sh, s, s.ops[j]);
  }

  // ---------------------------------------------------------------- generations

  predicate TakerOf(op: Op, g: nat) {
    op.Reader? && op.taking && !op.rp.Asked? && op.rp.gen == g
  }

  predicate Retired(ops: seq<Op>, g: nat) {
    exists i :: 0 <= i < |ops| && TakerOf(ops[i], g)
  }

  /** Each retired generation was retired by exactly one taker; the live one by none. */
  ghost predicate OneTakerEach(s: Sys)
    requires ValidRefs(s)
  {
    && (forall g: nat :: g < Live(s) <==> Retired(s.ops, g))
    && (forall i, j, g: nat ::
          0 <= i < |s.ops| && 0 <= j < |s.ops| && TakerOf(s.ops[i], g) && TakerOf(s.ops[j], g) ==> i == j)
  }

  /** A step that swaps no pointer leaves every operation the taker it was. */
  lemma TakersUnchanged(s: Sys, t: Sys)
    requires ValidRefs(s) && ValidRefs(t) && OneTakerEach(s)
    requires |t.gens| == |s.gens| && |s.ops| <= |t.ops|
    requires forall i, g: nat :: 0 <= i < |s.ops| ==> (TakerOf(t.ops[i], g) <==> TakerOf(s.ops[i], g))
    requires forall i, g: nat :: |s.ops| <= i < |t.ops| ==> !TakerOf(t.ops[i], g)
    ensures OneTakerEach(t)
  {
    forall g: nat ensures Retired(t.ops, g) <==> Retired(s.ops, g) {
      if Retired(s.ops, g) {
        var i :| 0 <= i < |s.ops| && TakerOf(s.ops[i], g);
        assert TakerOf(t.ops[i], g);
      }
    }
  }

  lemma SwapMakesOneTaker(s: Sys, t: Sys, j: nat)
    requires ValidRefs(s) && ValidRefs(t) && OneTakerEach(s) && j < |s.ops|
    requires s.ops[j].Reader? && s.ops[j].taking && s.ops[j].rp.Asked?
    requires |t.gens| == |s.gens| + 1 && t.ops == s.ops[j := s.ops[j].(rp := Trying(Live(s)))]
    ensures OneTakerEach(t)
  {
    forall g: nat ensures g < Live(t) <==> Retired(t.ops, g) {
      if g < Live(s) {
        assert Retired(s.ops, g);
        var i :| 0 <= i < |s.ops| && TakerOf(s.ops[i], g);
        assert TakerOf(t.ops[i], g);
      } else if g == Live(s) {
        assert TakerOf(t.ops[j], g);
      } else {
        assert !Retired(s.ops, g);
        assert forall i :: 0 <= i < |t.ops| && TakerOf(t.ops[i], g) ==> TakerOf(s.ops[i], g);
      }
    }
    assert !Retired(s.ops, Live(s));
  }

  lemma StepKeepsTakers(sh: Shape, s: Sys, a: Action)
    requires ValidCells(sh, s) && ValidRefs(s) && OneTakerEach(s)
    ensures OneTakerEach(Step(sh, s, a))
  {
    var t := Step(sh, s, a);
    if a.Advance? && a.op < |s.ops| && s.ops[a.op].Reader? && s.ops[a.op].taking && s.ops[a.op].rp.Asked? {
      SwapMakesOneTaker(s, t, a.op);
    } else {
      TakersUnchanged(s, t);
    }
  }

  lemma {:induction false} RunKeepsTakers(sh: Shape, actions: seq<Action>)
    ensures OneTakerEach(Run(sh, actions))
  {
    if |actions| > 0 {
      RunKeepsTakers(sh, actions[..|actions| - 1]);
      StepKeepsTakers(sh, Run(sh, actions[..|actions| - 1]), actions[|actions| - 1]);
    }
  }

  /** The exact loss of a take: of the writes that finished in the generation it retired, it reports
      those whose bump of `start` preceded its successful load of `start`, and no others. */
  lemma TakeReportsExactly(sh: Shape, actions: seq<Action>, j: nat, i: nat)
    requires j < |Run(sh, actions).ops| && Run(sh, actions).ops[j].Reader? && Run(sh, actions).ops[j].rp.Returned?
    requires i < |Run(sh, actions).ops| && FinishedIn(Run(sh, actions).ops[i], Run(sh, actions).ops[j].rp.gen)
    ensures var ops := Run(sh, actions).ops; i in ops[j].rp.seen <==> ops[i].wp.ticket < ops[j].rp.start
  {
    RunKeepsInv(sh, actions);
    assert OpOk(sh, Run(sh, actions), Run(sh, actions).ops[j]);
  }

  predicate AllOver(s: Sys) {
    forall i :: 0 <= i < |s.ops| ==> if s.ops[i].Writer? then s.ops[i].wp.Finished? else s.ops[i].rp.Returned?
  }

  /** The writes that pinned a generation before it was retired and entered it after its taker had read. */
  function Lost(s: Sys): set<nat> {
    set i, j | 0 <= i < |s.ops| && 0 <= j < |s.ops| && s.ops[i].Writer? && s.ops[i].wp.Finished?
            && TakerOf(s.ops[j], s.ops[i].wp.gen) && s.ops[j].rp.Returned?
                && s.ops[j].rp.start <= s.ops[i].wp.ticket :: i
  }

  /** The writes reported by the takers among the first `n` operations. */
  function Reported(s: Sys, n: nat): set<nat>
    requires n <= |s.ops|
  {
    set i, j | 0 <= j < n && s.ops[j].Reader? && s.ops[j].taking && s.ops[j].rp.Returned? && i in s.ops[j].rp.seen :: i
  }

  function Writers(s: Sys): set<nat> {
    set i | 0 <= i < |s.ops| && s.ops[i].Writer?
  }

  /** Once every operation is over, each write is in exactly one place: still in the live generation,
      reported by a take, or lost. */
  lemma EveryWriteIsInOnePlace(sh: Shape, actions: seq<Action>)
    requires AllOver(Run(sh, actions))
    ensures var s := Run(sh, actions);
            && Writers(s) == FinishedSet(s.ops, Live(s)) + Reported(s, |s.ops|) + Lost(s)
            && FinishedSet(s.ops, Live(s)) !! Reported(s, |s.ops|) !! Lost(s)
  {
    RunKeepsInv(sh, actions);
    RunKeepsTakers(sh, actions);
    Partition(sh, Run(sh, actions));
  }

  lemma Partition(sh: Shape, s: Sys)
    requires ValidCells(sh, s) && ValidRefs(s) && Inv(sh, s) && OneTakerEach(s) && AllOver(s)
    ensures Writers(s) == FinishedSet(s.ops, Live(s)) + Reported(s, |s.ops|) + Lost(s)
    ensures FinishedSet(s.ops, Live(s)) !! Reported(s, |s.ops|) !! Lost(s)
  {
    forall i | i in Writers(s) ensures i in FinishedSet(s.ops, Live(s)) + Reported(s, |s.ops|) + Lost(s) {
      if s.ops[i].wp.gen != Live(s) {
        WriteOfRetired(sh, s, i);
      }
    }
    forall i | i in Reported(s, |s.ops|) ensures i in Writers(s) && i !in FinishedSet(s.ops, Live(s)) && i !in Lost(s) {
      ReportedOnce(sh, s, |s.ops|, i);
    }
    forall i | i in Lost(s) ensures i in Writers(s) && i !in FinishedSet(s.ops, Live(s)) {
      var j :| 0 <= j < |s.ops| && TakerOf(s.ops[j], s.ops[i].wp.gen);
      assert Retired(s.ops, s.ops[i].wp.gen);
    }
  }

  lemma WriteOfRetired(sh: Shape, s: Sys, i: nat)
    requires ValidCells(sh, s) && ValidRefs(s) && Inv(sh, s) && OneTakerEach(s) && AllOver(s)
    requires i in Writers(s) && s.ops[i].wp.gen != Live(s)
    ensures i in Reported(s, |s.ops|) || i in Lost(s)
  {
    assert Retired(s.ops, s.ops[i].wp.gen);
    var j :| 0 <= j < |s.ops| && TakerOf(s.ops[j], s.ops[i].wp.gen);
    ReturnedIsExact(sh, s, j);
  }

  /** A reported write finished in the generation of its reporter, and the reporter saw its ticket. */
  lemma ReportedOnce(sh: Shape, s: Sys, n: nat, i: nat)
    requires ValidCells(sh, s) && ValidRefs(s) && Inv(sh, s) && OneTakerEach(s) && n <= |s.ops| && i in Reported(s, n)
    ensures i < |s.ops| && s.ops[i].Writer? && s.ops[i].wp.Finished? && s.ops[i].wp.gen < Live(s) && i !in Lost(s)
    ensures exists j :: 0 <= j < n && TakerOf(s.ops[j], s.ops[i].wp.gen)
  {
    var j :| 0 <= j < n && s.ops[j].Reader? && s.ops[j].taking && s.ops[j].rp.Returned? && i in s.ops[j].rp.seen;
    ReturnedIsExact(sh, s, j);
    assert TakerOf(s.ops[j], s.ops[i].wp.gen);
    assert Retired(s.ops, s.ops[i].wp.gen);
  }
}
