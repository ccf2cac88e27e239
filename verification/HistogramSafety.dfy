/** What every interleaving of the histogram's protocol keeps, and what that gives a returned snapshot. */
module HistogramSafety {
  import opened Measure
  import opened Histogram
  import opened HistogramProtocol

  // ---------------------------------------------------------------- the writes a set of operations made

  /** The writes of the operations in `seen`, in the order the operations were started. */
  function WritesOf(ops: seq<Op>, seen: set<nat>): seq<Write> {
    if |ops| == 0 then []
    else
      var n := |ops| - 1;
      WritesOf(ops[..n], seen) + if n in seen && ops[n].Writer? then [ops[n].write] else []
  }

  lemma FoldTake(sh: Shape, c: Cell, x: int, es: seq<Effect>, k: nat)
    requires k < |es|
    ensures Fold(sh, c, x, es[..k + 1]) ==
            if es[k].cell == c then Combine(sh, c, Fold(sh, c, x, es[..k]), es[k].arg) else Fold(sh, c, x, es[..k])
  {
    assert es[..k + 1][..k] == es[..k];
  }

  /** A write's updates touch the sum, its own bucket and the count once each, and min and max only when adding. */
  lemma FoldProgram(sh: Shape, c: Cell, x: int, w: Write)
    ensures Fold(sh, c, x, Program(sh, w)) ==
            match c
            case Count => Combine(sh, c, x, Sign(w))
            case Slot(i) => if i == BucketIndex(sh.boundaries, w.value) then Combine(sh, c, x, Sign(w)) else x
            case Sum => Combine(sh, c, x, Sign(w) * w.value)
            case Min => if w.Add? then Lesser(x, w.value) else x
            case Max => if w.Add? then Greater(x, w.value) else x
  {
    var p := Program(sh, w);
    FoldTake(sh, c, x, p, 0);
    FoldTake(sh, c, x, p, 1);
    FoldTake(sh, c, x, p, 2);
    if w.Add? {
      FoldTake(sh, c, x, p, 3);
      FoldTake(sh, c, x, p, 4);
    }
    assert p[..|p|] == p && p[..0] == [];
  }

  lemma ExpectedStep(sh: Shape, log: seq<Write>, w: Write, c: Cell)
    requires Has(sh, c)
    ensures var x := Load(Expected(sh.lo, sh.boundaries, log), c);
            Load(Expected(sh.lo, sh.boundaries, log + [w]), c) ==
            match c
            case Count => Combine(sh, c, x, Sign(w))
            case Slot(i) => if i == BucketIndex(sh.boundaries, w.value) then Combine(sh, c, x, Sign(w)) else x
            case Sum => Combine(sh, c, x, Sign(w) * w.value)
            case Min => if w.Add? then Lesser(x, w.value) else x
            case Max => if w.Add? then Greater(x, w.value) else x
  {
    assert (log + [w])[..|log + [w]| - 1] == log;
    match c
    case Count => WrapAccumulates(0, Net(log), Sign(w));
    case Slot(i) => WrapAccumulates(0, NetIn(sh.boundaries, log, i), Sign(w));
    case Sum => WrapAccumulates(sh.lo, NetSum(log), Sign(w) * w.value);
    case Min =>
    case Max =>
  }

  lemma {:induction false} FoldAppend(sh: Shape, c: Cell, x: int, es: seq<Effect>, fs: seq<Effect>)
    ensures Fold(sh, c, x, es + fs) == Fold(sh, c, Fold(sh, c, x, es), fs)
  {
    if |fs| == 0 {
      assert es + fs == es;
    } else {
      FoldAppend(sh, c, x, es, fs[..|fs| - 1]);
      assert (es + fs)[..|es + fs| - 1] == es + fs[..|fs| - 1];
    }
  }

  /** When the started writers of a generation are exactly the finished writers `seen`, each cell holds
      what those writes add up to. */
  lemma {:induction false} OwedIsExpected(sh: Shape, ops: seq<Op>, g: nat, seen: set<nat>, c: Cell)
    requires Has(sh, c)
    requires forall i :: 0 <= i < |ops| ==>
      Performed(sh, ops[i], g) == if i in seen && ops[i].Writer? then Program(sh, ops[i].write) else []
    ensures Owed(sh, ops, g, c) == Load(Expected(sh.lo, sh.boundaries, WritesOf(ops, seen)), c)
  {
    if |ops| == 0 {
      assert Chunks(sh, ops, g) == [];
    } else {
      var n := |ops| - 1;
      OwedIsExpected(sh, ops[..n], g, seen, c);
      OwedLast(sh, ops, g, c);
      if n in seen && ops[n].Writer? {
        FoldProgram(sh, c, Owed(sh, ops[..n], g, c), ops[n].write);
        ExpectedStep(sh, WritesOf(ops[..n], seen), ops[n].write, c);
      } else {
        assert WritesOf(ops, seen) == WritesOf(ops[..n], seen);
      }
    }
  }

  lemma OwedLast(sh: Shape, ops: seq<Op>, g: nat, c: Cell)
    requires Has(sh, c) && |ops| > 0
    ensures Owed(sh, ops, g, c) == Fold(sh, c, Owed(sh, ops[..|ops| - 1], g, c), Performed(sh, ops[|ops| - 1], g))
  {
    var n := |ops| - 1;
    assert Chunks(sh, ops, g)[..n] == Chunks(sh, ops[..n], g);
    FoldAppend(sh, c, Load(Fresh(sh), c), Flatten(Chunks(sh, ops[..n], g)), Performed(sh, ops[n], g));
  }

  // ---------------------------------------------------------------- the invariant

  function StartedSet(ops: seq<Op>, g: nat): set<nat> {
    set i | 0 <= i < |ops| && StartedIn(ops[i], g)
  }

  /** `seen` is exactly the writes whose bump of `start` came before the reader's load of `start`, and
      every one of them has finished. */
  predicate SeenExactly(ops: seq<Op>, g: nat, start: nat, seen: set<nat>) {
    && (forall i :: 0 <= i < |ops| && i in seen ==> FinishedIn(ops[i], g) && ops[i].wp.ticket < start)
    && (forall i :: 0 <= i < |ops| && StartedIn(ops[i], g) && ops[i].wp.ticket < start ==> i in seen)
    && (forall i :: i in seen ==> i < |ops|)
  }

  predicate Agrees(sh: Shape, st: State, vals: seq<int>)
    requires |st.bucketCounts| == |sh.boundaries| + 1
  {
    var n := |sh.boundaries| + 1;
    && (|vals| > 0 ==> vals[0] == st.count)
    && (forall k :: 1 <= k < |vals| && k <= n ==> vals[k] == st.bucketCounts[k - 1])
    && (|vals| > n + 1 ==> vals[n + 1] == st.sum)
    && (|vals| > n + 2 ==> vals[n + 2] == st.min)
    && (|vals| > n + 3 ==> vals[n + 3] == st.max)
  }

  predicate LoadsSoFar(sh: Shape, vals: seq<int>) {
    |vals| <= |sh.boundaries| + if |vals| > 0 && vals[0] == 0 then 3 else 5
  }

  ghost predicate CellsOk(sh: Shape, s: Sys, g: nat)
    requires ValidCells(sh, s) && g < |s.gens|
  {
    forall c | Has(sh, c) :: Load(s.gens[g].state, c) == Owed(sh, s.ops, g, c)
  }

  predicate CountersOk(s: Sys, g: nat)
    requires g < |s.gens|
  {
    s.gens[g].start == |StartedSet(s.ops, g)| && s.gens[g].end == |FinishedSet(s.ops, g)|
  }

  predicate OpOk(sh: Shape, s: Sys, op: Op)
    requires ValidCells(sh, s)
    requires op.Writer? && !op.wp.Called? ==> op.wp.gen < |s.gens|
    requires op.Reader? && !op.rp.Asked? ==> op.rp.gen < |s.gens|
  {
    match op
    case Writer(w, wp) =>
      && (wp.Inside? ==> wp.done <= |Program(sh, w)| && wp.ticket < s.gens[wp.gen].start)
      && (wp.Finished? ==> wp.ticket < s.gens[wp.gen].start)
    case Reader(_, rp) =>
      && (rp.LoadedEnd? ==> rp.end <= s.gens[rp.gen].end)
      && (rp.Reading? ==>
            && rp.start <= s.gens[rp.gen].start
            && SeenExactly(s.ops, rp.gen, rp.start, rp.seen)
            && LoadsSoFar(sh, rp.vals)
            && (s.gens[rp.gen].start == rp.start ==>
                  s.gens[rp.gen].end == rp.start && Agrees(sh, s.gens[rp.gen].state, rp.vals)))
      && (rp.Returned? ==>
            && rp.start <= s.gens[rp.gen].start
            && SeenExactly(s.ops, rp.gen, rp.start, rp.seen)
            && rp.snap == SnapshotOf(sh.lo, sh.boundaries, WritesOf(s.ops, rp.seen)))
  }

  ghost predicate Inv(sh: Shape, s: Sys)
    requires ValidCells(sh, s) && ValidRefs(s)
  {
    && (forall g :: 0 <= g < |s.gens| ==> CellsOk(sh, s, g))
    && (forall g :: 0 <= g < |s.gens| ==> CountersOk(s, g))
    && (forall i :: 0 <= i < |s.ops| ==> OpOk(sh, s, s.ops[i]))
  }

  // ---------------------------------------------------------------- the counters

  lemma SubsetOfEqualSize<T>(a: set<T>, b: set<T>)
    requires a <= b && |a| == |b|
    ensures a == b
  {
    assert b == a + (b - a);
    assert |b| == |a| + |b - a|;
    assert b - a == {};
  }

  lemma SizeWithout<T>(s: set<T>, x: T)
    ensures |s| == |s - {x}| + if x in s then 1 else 0
  {
    if x !in s {
      assert s - {x} == s;
    }
  }

  lemma FinishedAtMostStarted(ops: seq<Op>, g: nat)
    ensures FinishedSet(ops, g) <= StartedSet(ops, g)
    ensures |FinishedSet(ops, g)| <= |StartedSet(ops, g)|
  {
    var f, t := FinishedSet(ops, g), StartedSet(ops, g);
    assert t == f + (t - f);
  }

  /** Equal counters mean that no writer is between its two bumps. */
  lemma EqualCountersMeanQuiet(s: Sys, g: nat)
    requires g < |s.gens| && CountersOk(s, g) && s.gens[g].start == s.gens[g].end
    ensures FinishedSet(s.ops, g) == StartedSet(s.ops, g)
    ensures forall i :: 0 <= i < |s.ops| && StartedIn(s.ops[i], g) ==> FinishedIn(s.ops[i], g)
  {
    FinishedAtMostStarted(s.ops, g);
    SubsetOfEqualSize(FinishedSet(s.ops, g), StartedSet(s.ops, g));
    forall i | 0 <= i < |s.ops| && StartedIn(s.ops[i], g) ensures FinishedIn(s.ops[i], g) {
      assert i in StartedSet(s.ops, g);
    }
  }

  lemma CountersAfter(ops: seq<Op>, j: nat, op: Op, g: nat)
    requires j < |ops|
    ensures |StartedSet(ops[j := op], g)| ==
            |StartedSet(ops, g)| + (if StartedIn(op, g) then 1 else 0) - (if StartedIn(ops[j], g) then 1 else 0)
    ensures |FinishedSet(ops[j := op], g)| ==
            |FinishedSet(ops, g)| + (if FinishedIn(op, g) then 1 else 0) - (if FinishedIn(ops[j], g) then 1 else 0)
  {
    var ops' := ops[j := op];
    assert StartedSet(ops', g) - {j} == StartedSet(ops, g) - {j};
    assert FinishedSet(ops', g) - {j} == FinishedSet(ops, g) - {j};
    SizeWithout(StartedSet(ops', g), j);
    SizeWithout(StartedSet(ops, g), j);
    SizeWithout(FinishedSet(ops', g), j);
    SizeWithout(FinishedSet(ops, g), j);
  }

  // ---------------------------------------------------------------- what one operation's step does to the others

  predicate Started(op: Op) {
    op.Writer? && (op.wp.Inside? || op.wp.Finished?)
  }

  /** The step from `was` to `op` neither loses nor rewrites history: the write stays, a ticket once
      drawn stays, a finished write stays finished. */
  predicate Continues(was: Op, op: Op) {
    && was.Writer? == op.Writer?
    && (was.Writer? ==>
          && was.write == op.write
          && (Started(was) ==> Started(op) && was.wp.gen == op.wp.gen && was.wp.ticket == op.wp.ticket)
          && (was.wp.Finished? ==> op.wp.Finished?))
  }

  lemma {:induction false} WritesOfUpdate(ops: seq<Op>, j: nat, op: Op, seen: set<nat>)
    requires j < |ops| && op.Writer? == ops[j].Writer? && (op.Writer? ==> op.write == ops[j].write)
    ensures WritesOf(ops[j := op], seen) == WritesOf(ops, seen)
  {
    var n := |ops| - 1;
    if j == n {
      assert ops[j := op][..n] == ops[..n];
    } else {
      assert ops[j := op][..n] == ops[..n][j := op];
      WritesOfUpdate(ops[..n], j, op, seen);
    }
  }

  lemma SeenExactlyUpdate(ops: seq<Op>, j: nat, op: Op, g: nat, start: nat, seen: set<nat>)
    requires j < |ops| && Continues(ops[j], op)
    requires SeenExactly(ops, g, start, seen)
    requires StartedIn(op, g) && !StartedIn(ops[j], g) ==> start <= op.wp.ticket
    ensures SeenExactly(ops[j := op], g, start, seen)
  {
  }

  /** How generations may change under a step that pins, bumps or updates: only grow. */
  predicate GensGrow(s: Sys, t: Sys) {
    && |s.gens| <= |t.gens|
    && (forall g :: 0 <= g < |s.gens| ==> s.gens[g].start <= t.gens[g].start && s.gens[g].end <= t.gens[g].end)
  }

  /** The other operations stay as they should be. A reader that still hopes to succeed (`start`
      unchanged) must see its cells and `end` unchanged too. */
  lemma OthersOk(sh: Shape, s: Sys, t: Sys, j: nat, op: Op, i: nat)
    requires ValidCells(sh, s) && ValidRefs(s) && ValidCells(sh, t) && ValidRefs(t)
    requires j < |s.ops| && t.ops == s.ops[j := op] && Continues(s.ops[j], op)
    requires i < |s.ops| && OpOk(sh, s, s.ops[i])
    requires GensGrow(s, t)
    requires Started(op) && !Started(s.ops[j]) ==> op.wp.gen < |s.gens| && op.wp.ticket == s.gens[op.wp.gen].start
    requires forall g :: 0 <= g < |s.gens| && s.gens[g].start == s.gens[g].end && t.gens[g].start == s.gens[g].start ==>
      t.gens[g] == s.gens[g]
    ensures OpOk(sh, t, s.ops[i])
  {
    var o := s.ops[i];
    if o.Reader? && (o.rp.Reading? || o.rp.Returned?) {
      SeenExactlyUpdate(s.ops, j, op, o.rp.gen, o.rp.start, o.rp.seen);
      WritesOfUpdate(s.ops, j, op, o.rp.seen);
    }
  }

  // ---------------------------------------------------------------- each kind of step keeps the invariant

  /** A step of one operation that leaves every generation alone, given that its own new phase is right. */
  lemma QuietStepKeepsInv(sh: Shape, s: Sys, j: nat, op: Op, t: Sys)
    requires ValidCells(sh, s) && ValidRefs(s) && Inv(sh, s) && j < |s.ops|
    requires !Started(op) && !Started(s.ops[j]) && Continues(s.ops[j], op)
    requires t == s.(ops := s.ops[j := op]) && ValidRefs(t)
    requires OpOk(sh, t, t.ops[j])
    ensures Inv(sh, t)
  {
    forall g | 0 <= g < |t.gens| ensures CellsOk(sh, t, g) && CountersOk(t, g) {
      assert CellsOk(sh, s, g) && CountersOk(s, g);
      OwedUnchanged(sh, s.ops, g, j, op);
      CountersAfter(s.ops, j, op, g);
    }
    forall i | 0 <= i < |t.ops| ensures OpOk(sh, t, t.ops[i]) {
      if i != j {
        OthersOk(sh, s, t, j, op, i);
      }
    }
  }

  lemma WritesOfExtend(ops: seq<Op>, op: Op, seen: set<nat>)
    requires |ops| !in seen || !op.Writer?
    ensures WritesOf(ops + [op], seen) == WritesOf(ops, seen)
  {
    assert (ops + [op])[..|ops + [op]| - 1] == ops;
  }

  lemma OwedExtend(sh: Shape, ops: seq<Op>, op: Op, g: nat)
    requires !Started(op)
    ensures forall c | Has(sh, c) :: Owed(sh, ops + [op], g, c) == Owed(sh, ops, g, c)
  {
    var longer := Chunks(sh, ops + [op], g);
    assert longer[..|longer| - 1] == Chunks(sh, ops, g);
    assert longer[|longer| - 1] == [];
    assert Flatten(longer) == Flatten(Chunks(sh, ops, g));
  }

  lemma CallKeepsOp(sh: Shape, s: Sys, t: Sys, op: Op, i: nat)
    requires ValidCells(sh, s) && ValidRefs(s) && i < |s.ops| && OpOk(sh, s, s.ops[i])
    requires t == s.(ops := s.ops + [op]) && !Started(op)
    ensures OpOk(sh, t, s.ops[i])
  {
    var o := s.ops[i];
    if o.Reader? && o.rp.Returned? {
      WritesOfExtend(s.ops, op, o.rp.seen);
    }
  }

  lemma CallKeepsInv(sh: Shape, s: Sys, op: Op, t: Sys)
    requires ValidCells(sh, s) && ValidRefs(s) && Inv(sh, s)
    requires op.Writer? ==> op.wp.Called?
    requires op.Reader? ==> op.rp.Asked?
    requires t == s.(ops := s.ops + [op])
    ensures ValidRefs(t) && Inv(sh, t)
  {
    forall g | 0 <= g < |t.gens| ensures CellsOk(sh, t, g) && CountersOk(t, g) {
      assert CellsOk(sh, s, g) && CountersOk(s, g);
      OwedExtend(sh, s.ops, op, g);
      assert StartedSet(t.ops, g) == StartedSet(s.ops, g) && FinishedSet(t.ops, g) == FinishedSet(s.ops, g);
    }
    assert ValidRefs(t);
    forall i | 0 <= i < |t.ops| ensures OpOk(sh, t, t.ops[i]) {
      if i < |s.ops| {
        CallKeepsOp(sh, s, t, op, i);
      }
    }
  }

  lemma BumpStartKeepsInv(sh: Shape, s: Sys, j: nat)
    requires ValidCells(sh, s) && ValidRefs(s) && Inv(sh, s) && j < |s.ops|
    requires s.ops[j].Writer? && s.ops[j].wp.Pinned?
    ensures Inv(sh, StepWriter(sh, s, j))
  {
    var t := StepWriter(sh, s, j);
    var op := t.ops[j];
    forall g | 0 <= g < |t.gens| ensures CellsOk(sh, t, g) && CountersOk(t, g) {
      assert CellsOk(sh, s, g) && CountersOk(s, g);
      OwedUnchanged(sh, s.ops, g, j, op);
      CountersAfter(s.ops, j, op, g);
    }
    forall i | 0 <= i < |t.ops| ensures OpOk(sh, t, t.ops[i]) {
      if i != j {
        OthersOk(sh, s, t, j, op, i);
      }
    }
  }

  lemma BumpEndKeepsInv(sh: Shape, s: Sys, j: nat)
    requires ValidCells(sh, s) && ValidRefs(s) && Inv(sh, s) && j < |s.ops|
    requires s.ops[j].Writer? && s.ops[j].wp.Inside? && s.ops[j].wp.done >= |Program(sh, s.ops[j].write)|
    ensures Inv(sh, StepWriter(sh, s, j))
  {
    var t := StepWriter(sh, s, j);
    var op := t.ops[j];
    assert OpOk(sh, s, s.ops[j]);
    NotQuietWhileInside(s, j);
    forall g | 0 <= g < |t.gens| ensures CellsOk(sh, t, g) && CountersOk(t, g) {
      assert CellsOk(sh, s, g) && CountersOk(s, g);
      OwedUnchanged(sh, s.ops, g, j, op);
      CountersAfter(s.ops, j, op, g);
    }
    forall i | 0 <= i < |t.ops| ensures OpOk(sh, t, t.ops[i]) {
      if i != j {
        OthersOk(sh, s, t, j, op, i);
      }
    }
  }

  lemma NotQuietWhileInside(s: Sys, j: nat)
    requires ValidRefs(s) && j < |s.ops| && s.ops[j].Writer? && s.ops[j].wp.Inside?
    requires CountersOk(s, s.ops[j].wp.gen)
    ensures s.gens[s.ops[j].wp.gen].start != s.gens[s.ops[j].wp.gen].end
  {
    var g := s.ops[j].wp.gen;
    if s.gens[g].start == s.gens[g].end {
      EqualCountersMeanQuiet(s, g);
      assert StartedIn(s.ops[j], g);
    }
  }

  lemma UpdateKeepsInv(sh: Shape, s: Sys, j: nat)
    requires ValidCells(sh, s) && ValidRefs(s) && Inv(sh, s) && j < |s.ops|
    requires s.ops[j].Writer? && s.ops[j].wp.Inside? && s.ops[j].wp.done < |Program(sh, s.ops[j].write)|
    ensures Inv(sh, StepWriter(sh, s, j))
  {
    var t := StepWriter(sh, s, j);
    var op := t.ops[j];
    assert OpOk(sh, s, s.ops[j]);
    NotQuietWhileInside(s, j);
    forall g | 0 <= g < |t.gens| ensures CellsOk(sh, t, g) && CountersOk(t, g) {
      CountersAfter(s.ops, j, op, g);
      assert CountersOk(s, g);
      UpdateKeepsCells(sh, s, j, g);
    }
    forall i | 0 <= i < |t.ops| ensures OpOk(sh, t, t.ops[i]) {
      if i != j {
        OthersOk(sh, s, t, j, op, i);
      }
    }
  }

  lemma UpdateKeepsCells(sh: Shape, s: Sys, j: nat, g: nat)
    requires ValidCells(sh, s) && ValidRefs(s) && j < |s.ops| && g < |s.gens| && CellsOk(sh, s, g)
    requires s.ops[j].Writer? && s.ops[j].wp.Inside? && s.ops[j].wp.done < |Program(sh, s.ops[j].write)|
    ensures CellsOk(sh, StepWriter(sh, s, j), g)
  {
    var t := StepWriter(sh, s, j);
    var p, k := Program(sh, s.ops[j].write), s.ops[j].wp.done;
    if g == s.ops[j].wp.gen {
      assert p[..k + 1] == p[..k] + [p[k]];
      forall c | Has(sh, c) ensures Load(t.gens[g].state, c) == Owed(sh, t.ops, g, c) {
        OwedAppend(sh, s.ops, g, j, t.ops[j], p[k], c);
      }
    } else {
      OwedUnchanged(sh, s.ops, g, j, t.ops[j]);
    }
  }

  lemma SwapKeepsInv(sh: Shape, s: Sys, t: Sys)
    requires ValidCells(sh, s) && ValidRefs(s) && Inv(sh, s)
    requires t == s.(gens := s.gens + [Gen(0, 0, Fresh(sh))])
    ensures ValidCells(sh, t) && ValidRefs(t) && Inv(sh, t)
  {
    forall g | 0 <= g < |t.gens| ensures CellsOk(sh, t, g) && CountersOk(t, g) {
      if g < |s.gens| {
        assert CellsOk(sh, s, g) && CountersOk(s, g);
      } else {
        assert StartedSet(t.ops, g) == {} && FinishedSet(t.ops, g) == {};
        NothingOwed(sh, s.ops, g);
      }
    }
    forall i | 0 <= i < |t.ops| ensures OpOk(sh, t, t.ops[i]) {
      assert OpOk(sh, s, s.ops[i]);
    }
  }

  lemma {:induction false} NothingOwed(sh: Shape, ops: seq<Op>, g: nat)
    requires forall i :: 0 <= i < |ops| ==> !StartedIn(ops[i], g)
    ensures Flatten(Chunks(sh, ops, g)) == []
  {
    if |ops| > 0 {
      NothingOwed(sh, ops[..|ops| - 1], g);
      assert Chunks(sh, ops, g)[..|ops| - 1] == Chunks(sh, ops[..|ops| - 1], g);
    }
  }

  /** The heart of the protocol. `end` was loaded first, so if `start` now equals it, `end` has caught up
      with `start`: no writer is inside, and every writer that started has finished. */
  lemma LoadStartIsQuiet(sh: Shape, s: Sys, j: nat)
    requires ValidCells(sh, s) && ValidRefs(s) && Inv(sh, s) && j < |s.ops|
    requires s.ops[j].Reader? && s.ops[j].rp.LoadedEnd? && s.gens[s.ops[j].rp.gen].start == s.ops[j].rp.end
    ensures var g := s.ops[j].rp.gen;
            s.gens[g].end == s.gens[g].start && SeenExactly(s.ops, g, s.gens[g].start, FinishedSet(s.ops, g))
  {
    var g := s.ops[j].rp.gen;
    assert CountersOk(s, g) && OpOk(sh, s, s.ops[j]);
    FinishedAtMostStarted(s.ops, g);
    EqualCountersMeanQuiet(s, g);
    forall i | 0 <= i < |s.ops| && FinishedIn(s.ops[i], g) ensures s.ops[i].wp.ticket < s.gens[g].start {
      assert OpOk(sh, s, s.ops[i]);
    }
  }

  lemma LoadCellAgrees(sh: Shape, st: State, vals: seq<int>)
    requires |st.bucketCounts| == |sh.boundaries| + 1
    requires Agrees(sh, st, vals) && LoadsSoFar(sh, vals) && NextLoad(sh, vals).Some?
    ensures Agrees(sh, st, vals + [Load(st, NextLoad(sh, vals).value)])
  {
  }

  /** With `start` unchanged, the loaded values are the cells, and the cells are the writes in `seen`. */
  lemma SuccessfulReadIsExact(sh: Shape, s: Sys, j: nat)
    requires ValidCells(sh, s) && ValidRefs(s) && Inv(sh, s) && j < |s.ops|
    requires s.ops[j].Reader? && s.ops[j].rp.Reading? && NextLoad(sh, s.ops[j].rp.vals).None?
    requires s.gens[s.ops[j].rp.gen].start == s.ops[j].rp.start
    ensures Assemble(sh, s.ops[j].rp.vals) == SnapshotOf(sh.lo, sh.boundaries, WritesOf(s.ops, s.ops[j].rp.seen))
  {
    var rp := s.ops[j].rp;
    var st := s.gens[rp.gen].state;
    assert OpOk(sh, s, s.ops[j]) && CellsOk(sh, s, rp.gen) && CountersOk(s, rp.gen);
    EqualCountersMeanQuiet(s, rp.gen);
    var log := WritesOf(s.ops, rp.seen);
    forall i | 0 <= i < |s.ops| ensures Performed(sh, s.ops[i], rp.gen) ==
      if i in rp.seen && s.ops[i].Writer? then Program(sh, s.ops[i].write) else []
    {
      assert OpOk(sh, s, s.ops[i]);
    }
    forall c | Has(sh, c) ensures Load(st, c) == Load(Expected(sh.lo, sh.boundaries, log), c) {
      OwedIsExpected(sh, s.ops, rp.gen, rp.seen, c);
    }
    StatesEqual(sh, st, Expected(sh.lo, sh.boundaries, log));
    AssembleIsSnapshot(sh, st, rp.vals);
  }

  lemma StatesEqual(sh: Shape, a: State, b: State)
    requires |a.bucketCounts| == |sh.boundaries| + 1 == |b.bucketCounts|
    requires forall c | Has(sh, c) :: Load(a, c) == Load(b, c)
    ensures a == b
  {
    forall i | 0 <= i < |a.bucketCounts| ensures a.bucketCounts[i] == b.bucketCounts[i] {
      assert Has(sh, Slot(i)) && Load(a, Slot(i)) == Load(b, Slot(i));
    }
    assert Has(sh, Count) && Has(sh, Sum) && Has(sh, Min) && Has(sh, Max);
    assert Load(a, Count) == Load(b, Count) && Load(a, Sum) == Load(b, Sum);
    assert Load(a, Min) == Load(b, Min) && Load(a, Max) == Load(b, Max);
    assert a.bucketCounts == b.bucketCounts;
  }

  lemma AssembleIsSnapshot(sh: Shape, st: State, vals: seq<int>)
    requires |st.bucketCounts| == |sh.boundaries| + 1
    requires Agrees(sh, st, vals) && LoadsSoFar(sh, vals) && NextLoad(sh, vals).None?
    ensures Assemble(sh, vals) == ToSnapshot(sh.boundaries, st)
  {
    assert vals[1..|sh.boundaries| + 2] == st.bucketCounts;
  }

  lemma AskingKeepsInv(sh: Shape, s: Sys, j: nat)
    requires ValidCells(sh, s) && ValidRefs(s) && Inv(sh, s) && j < |s.ops| && s.ops[j].Reader? && s.ops[j].rp.Asked?
    ensures Inv(sh, StepReader(sh, s, j))
  {
    var op := s.ops[j];
    assert OpOk(sh, s, op);
    var pinned := s.(ops := s.ops[j := op.(rp := Trying(Live(s)))]);
    QuietStepKeepsInv(sh, s, j, pinned.ops[j], pinned);
    if op.taking {
      SwapKeepsInv(sh, pinned, StepReader(sh, s, j));
    }
  }

  lemma LoadingStartKeepsInv(sh: Shape, s: Sys, j: nat)
    requires ValidCells(sh, s) && ValidRefs(s) && Inv(sh, s) && j < |s.ops| && s.ops[j].Reader?
        && s.ops[j].rp.LoadedEnd?
    ensures Inv(sh, StepReader(sh, s, j))
  {
    var t, g, e := StepReader(sh, s, j), s.ops[j].rp.gen, s.ops[j].rp.end;
    assert OpOk(sh, s, s.ops[j]);
    if s.gens[g].start == e {
      LoadStartIsQuiet(sh, s, j);
      SeenExactlyUpdate(s.ops, j, t.ops[j], g, e, FinishedSet(s.ops, g));
    }
    QuietStepKeepsInv(sh, s, j, t.ops[j], t);
  }

  lemma LoadingCellsKeepsInv(sh: Shape, s: Sys, j: nat)
    requires ValidCells(sh, s) && ValidRefs(s) && Inv(sh, s) && j < |s.ops| && s.ops[j].Reader? && s.ops[j].rp.Reading?
    ensures Inv(sh, StepReader(sh, s, j))
  {
    var t, rp := StepReader(sh, s, j), s.ops[j].rp;
    assert OpOk(sh, s, s.ops[j]);
    SeenExactlyUpdate(s.ops, j, t.ops[j], rp.gen, rp.start, rp.seen);
    WritesOfUpdate(s.ops, j, t.ops[j], rp.seen);
    if NextLoad(sh, rp.vals).Some? {
      if s.gens[rp.gen].start == rp.start {
        LoadCellAgrees(sh, s.gens[rp.gen].state, rp.vals);
      }
    } else if s.gens[rp.gen].start == rp.start {
      SuccessfulReadIsExact(sh, s, j);
    }
    QuietStepKeepsInv(sh, s, j, t.ops[j], t);
  }

  lemma ReaderStepKeepsInv(sh: Shape, s: Sys, j: nat)
    requires ValidCells(sh, s) && ValidRefs(s) && Inv(sh, s) && j < |s.ops| && s.ops[j].Reader?
    ensures Inv(sh, StepReader(sh, s, j))
  {
    var t := StepReader(sh, s, j);
    assert OpOk(sh, s, s.ops[j]);
    match s.ops[j].rp
    case Asked => AskingKeepsInv(sh, s, j);
    case Trying(_) => QuietStepKeepsInv(sh, s, j, t.ops[j], t);
    case LoadedEnd(_, _) => LoadingStartKeepsInv(sh, s, j);
    case Reading(_, _, _, _) => LoadingCellsKeepsInv(sh, s, j);
    case Returned(_, _, _, _) =>
  }

  lemma StepKeepsInv(sh: Shape, s: Sys, a: Action)
    requires ValidCells(sh, s) && ValidRefs(s) && Inv(sh, s)
    ensures Inv(sh, Step(sh, s, a))
  {
    var t := Step(sh, s, a);
    if !a.Advance? {
      CallKeepsInv(sh, s, t.ops[|s.ops|], t);
    } else if a.op < |s.ops| {
      var j := a.op;
      if s.ops[j].Reader? {
        ReaderStepKeepsInv(sh, s, j);
      } else if s.ops[j].wp.Called? {
        QuietStepKeepsInv(sh, s, j, t.ops[j], t);
      } else if s.ops[j].wp.Pinned? {
        BumpStartKeepsInv(sh, s, j);
      } else if s.ops[j].wp.Inside? && s.ops[j].wp.done < |Program(sh, s.ops[j].write)| {
        UpdateKeepsInv(sh, s, j);
      } else if s.ops[j].wp.Inside? {
        BumpEndKeepsInv(sh, s, j);
      }
    }
  }

  /** Every reachable state, whatever the interleaving. */
  lemma {:induction false} RunKeepsInv(sh: Shape, actions: seq<Action>)
    ensures Inv(sh, Run(sh, actions))
  {
    if |actions| == 0 {
      assert StartedSet([], 0) == {} && FinishedSet([], 0) == {};
      NothingOwed(sh, [], 0);
    } else {
      RunKeepsInv(sh, actions[..|actions| - 1]);
      StepKeepsInv(sh, Run(sh, actions[..|actions| - 1]), actions[|actions| - 1]);
    }
  }
}
