/** The histogram's lock-free protocol, one atomic operation per step.

    Any number of operations run at once, each an entry of `ops`; a run is any sequence of actions,
    so every interleaving is covered. An action either starts a new operation or lets one perform its
    next atomic operation. `gens` are the states the pointer has ever named; the last one is live. */
module HistogramProtocol {
  import opened Wrappers
  import opened Measure
  import opened Histogram

  // ---------------------------------------------------------------- cells and atomic updates

  datatype Cell = Count | Slot(index: nat) | Sum | Min | Max

  /** One atomic read-modify-write. */
  datatype Effect = Effect(cell: Cell, arg: int)

  /** What never changes: the measure's least value and the boundaries. */
  datatype Shape = Shape(lo: int, boundaries: seq<int>)

  predicate Has(sh: Shape, c: Cell) {
    c.Slot? ==> c.index <= |sh.boundaries|
  }

  function Combine(sh: Shape, c: Cell, x: int, arg: int): int {
    match c
    case Count => Wrap(0, x + arg)
    case Slot(_) => Wrap(0, x + arg)
    case Sum => Wrap(sh.lo, x + arg)
    case Min => Lesser(x, arg)
    case Max => Greater(x, arg)
  }

  function Load(s: State, c: Cell): int
    requires c.Slot? ==> c.index < |s.bucketCounts|
  {
    match c
    case Count => s.count
    case Slot(i) => s.bucketCounts[i]
    case Sum => s.sum
    case Min => s.min
    case Max => s.max
  }

  function Apply(sh: Shape, s: State, e: Effect): State
    requires e.cell.Slot? ==> e.cell.index < |s.bucketCounts|
  {
    var v := Combine(sh, e.cell, Load(s, e.cell), e.arg);
    match e.cell
    case Count => s.(count := v)
    case Slot(i) => s.(bucketCounts := s.bucketCounts[i := v])
    case Sum => s.(sum := v)
    case Min => s.(min := v)
    case Max => s.(max := v)
  }

  function Fresh(sh: Shape): State {
    State(seq(|sh.boundaries| + 1, _ => 0), Wrap(sh.lo, 0), Hi(sh.lo), sh.lo, 0)
  }

  /** The atomic updates of one write, in program order. */
  function Program(sh: Shape, w: Write): (p: seq<Effect>)
    ensures forall k :: 0 <= k < |p| ==> Has(sh, p[k].cell)
  {
    var i := BucketIndex(sh.boundaries, w.value);
    match w
    case Add(v) => [Effect(Sum, v), Effect(Min, v), Effect(Max, v), Effect(Slot(i), 1), Effect(Count, 1)]
    case Sub(v) => [Effect(Sum, -v), Effect(Slot(i), -1), Effect(Count, -1)]
  }

  // ---------------------------------------------------------------- operations

  /** A writer loads the pointer, bumps `start` (`ticket` is what the bump returned), performs `done`
      of its updates, and bumps `end`. */
  datatype WriterPhase =
    | Called
    | Pinned(gen: nat)
    | Inside(gen: nat, ticket: nat, done: nat)
    | Finished(gen: nat, ticket: nat)

  /** A reader pins a generation (a taker by swapping in a fresh one), loads `end`, then `start`, then
      the cells one by one, then `start` again. `seen` is a history variable: the writers that had
      finished in this generation when `start` was loaded. */
  datatype ReaderPhase =
    | Asked
    | Trying(gen: nat)
    | LoadedEnd(gen: nat, end: nat)
    | Reading(gen: nat, start: nat, seen: set<nat>, vals: seq<int>)
    | Returned(gen: nat, start: nat, seen: set<nat>, snap: Snapshot)

  datatype Op =
    | Writer(write: Write, wp: WriterPhase)
    | Reader(taking: bool, rp: ReaderPhase)

  datatype Gen = Gen(start: nat, end: nat, state: State)

  datatype Sys = Sys(gens: seq<Gen>, ops: seq<Op>)

  datatype Action = Write(w: Write) | Snap | Take | Advance(op: nat)

  function Live(s: Sys): int {
    |s.gens| - 1
  }

  predicate StartedIn(op: Op, g: nat) {
    op.Writer? && ((op.wp.Inside? && op.wp.gen == g) || (op.wp.Finished? && op.wp.gen == g))
  }

  predicate FinishedIn(op: Op, g: nat) {
    op.Writer? && op.wp.Finished? && op.wp.gen == g
  }

  function FinishedSet(ops: seq<Op>, g: nat): set<nat> {
    set i | 0 <= i < |ops| && FinishedIn(ops[i], g)
  }

  /** The order in which `State::snapshot` loads cells; min and max only when the count was not zero. */
  function NextLoad(sh: Shape, vals: seq<int>): Option<Cell> {
    var n := |sh.boundaries| + 1;
    if |vals| == 0 then Some(Count)
    else if |vals| <= n then Some(Slot(|vals| - 1))
    else if |vals| == n + 1 then Some(Sum)
    else if vals[0] == 0 then None
    else if |vals| == n + 2 then Some(Min)
    else if |vals| == n + 3 then Some(Max)
    else None
  }

  /** Assembles the loaded values; total, so that a reader's step is defined in every state. */
  function Assemble(sh: Shape, vals: seq<int>): Snapshot {
    var n := |sh.boundaries| + 1;
    if |vals| < n + 2 then Snapshot(sh.boundaries, [], 0, 0, None, None)
    else Snapshot(sh.boundaries, vals[1..n + 1], vals[0], vals[n + 1],
                  if |vals| == n + 4 then Some(vals[n + 2]) else None,
                  if |vals| == n + 4 then Some(vals[n + 3]) else None)
  }

  // ---------------------------------------------------------------- one atomic step

  predicate ValidCells(sh: Shape, s: Sys) {
    forall g :: 0 <= g < |s.gens| ==> |s.gens[g].state.bucketCounts| == |sh.boundaries| + 1
  }

  predicate ValidRefs(s: Sys) {
    && |s.gens| > 0
    && forall i :: 0 <= i < |s.ops| ==>
      match s.ops[i]
      case Writer(_, wp) => !wp.Called? ==> wp.gen < |s.gens|
      case Reader(_, rp) => !rp.Asked? ==> rp.gen < |s.gens|
  }

  function StepWriter(sh: Shape, s: Sys, j: nat): (t: Sys)
    requires ValidCells(sh, s) && ValidRefs(s) && j < |s.ops| && s.ops[j].Writer?
  {
    var op := s.ops[j];
    match op.wp
    case Called => s.(ops := s.ops[j := op.(wp := Pinned(Live(s)))])
    case Pinned(g) =>
      var gen := s.gens[g];
      s.(gens := s.gens[g := gen.(start := gen.start + 1)], ops := s.ops[j := op.(wp := Inside(g, gen.start, 0))])
    case Inside(g, ticket, k) =>
      var gen := s.gens[g];
      var p := Program(sh, op.write);
      if k < |p| then
        s.(gens := s.gens[g := gen.(state := Apply(sh, gen.state, p[k]))],
           ops := s.ops[j := op.(wp := Inside(g, ticket, k + 1))])
      else
        s.(gens := s.gens[g := gen.(end := gen.end + 1)], ops := s.ops[j := op.(wp := Finished(g, ticket))])
    case Finished(_, _) => s
  }

  function StepReader(sh: Shape, s: Sys, j: nat): (t: Sys)
    requires ValidCells(sh, s) && ValidRefs(s) && j < |s.ops| && s.ops[j].Reader?
  {
    var op := s.ops[j];
    match op.rp
    case Asked =>
      var pinned := s.ops[j := op.(rp := Trying(Live(s)))];
      if op.taking then Sys(s.gens + [Gen(0, 0, Fresh(sh))], pinned) else s.(ops := pinned)
    case Trying(g) => s.(ops := s.ops[j := op.(rp := LoadedEnd(g, s.gens[g].end))])
    case LoadedEnd(g, e) =>
      var start := s.gens[g].start;
      s.(ops := s.ops[j := op.(rp := if start == e then Reading(g, start, FinishedSet(s.ops, g), []) else Trying(g))])
    case Reading(g, start, seen, vals) =>
      var next := NextLoad(sh, vals);
      var rp :=
        if next.Some? then Reading(g, start, seen, vals + [Load(s.gens[g].state, next.value)])
        else if s.gens[g].start == start then Returned(g, start, seen, Assemble(sh, vals))
        else Trying(g);
      s.(ops := s.ops[j := op.(rp := rp)])
    case Returned(_, _, _, _) => s
  }

  /** Performs one action; advancing an operation that is absent or over changes nothing. */
  function Step(sh: Shape, s: Sys, a: Action): (t: Sys)
    requires ValidCells(sh, s) && ValidRefs(s)
    ensures ValidCells(sh, t) && ValidRefs(t)
  {
    match a
    case Write(w) => s.(ops := s.ops + [Writer(w, Called)])
    case Snap => s.(ops := s.ops + [Reader(false, Asked)])
    case Take => s.(ops := s.ops + [Reader(true, Asked)])
    case Advance(j) =>
      if j >= |s.ops| then s
      else if s.ops[j].Writer? then StepWriter(sh, s, j)
      else StepReader(sh, s, j)
  }

  function Run(sh: Shape, actions: seq<Action>): (s: Sys)
    ensures ValidCells(sh, s) && ValidRefs(s)
  {
    if |actions| == 0 then Sys([Gen(0, 0, Fresh(sh))], [])
    else Step(sh, Run(sh, actions[..|actions| - 1]), actions[|actions| - 1])
  }

  // ---------------------------------------------------------------- updates commute

  function Fold(sh: Shape, c: Cell, x: int, es: seq<Effect>): int {
    if |es| == 0 then x
    else
      var e := es[|es| - 1];
      var y := Fold(sh, c, x, es[..|es| - 1]);
      if e.cell == c then Combine(sh, c, y, e.arg) else y
  }

  lemma CombineCommutes(sh: Shape, c: Cell, x: int, a: int, b: int)
    ensures Combine(sh, c, Combine(sh, c, x, a), b) == Combine(sh, c, Combine(sh, c, x, b), a)
  {
    var lo := if c.Sum? then sh.lo else 0;
    WrapAccumulates(lo, x + a, b);
    WrapAccumulates(lo, x + b, a);
    assert x + a + b == x + b + a;
  }

  /** A late update to the middle of the trail has the same effect as one appended to it. */
  lemma {:induction false} FoldInsert(sh: Shape, c: Cell, x: int, front: seq<Effect>, e: Effect, back: seq<Effect>)
    ensures Fold(sh, c, x, front + [e] + back) ==
            if e.cell == c then Combine(sh, c, Fold(sh, c, x, front + back), e.arg) else Fold(sh, c, x, front + back)
  {
    if |back| == 0 {
      assert front + [e] + back == front + [e] && front + back == front;
    } else {
      var init, last := back[..|back| - 1], back[|back| - 1];
      FoldInsert(sh, c, x, front, e, init);
      assert (front + [e] + back)[..|front + [e] + back| - 1] == front + [e] + init;
      assert (front + back)[..|front + back| - 1] == front + init;
      if e.cell == c && last.cell == c {
        CombineCommutes(sh, c, Fold(sh, c, x, front + init), e.arg, last.arg);
      }
    }
  }

  /** The updates operation `op` has performed on generation `g` so far. */
  function Performed(sh: Shape, op: Op, g: nat): seq<Effect> {
    if op.Writer? && op.wp.Inside? && op.wp.gen == g && op.wp.done <= |Program(sh, op.write)| then
      Program(sh, op.write)[..op.wp.done]
    else if FinishedIn(op, g) then Program(sh, op.write)
    else []
  }

  function Flatten(chunks: seq<seq<Effect>>): seq<Effect> {
    if |chunks| == 0 then [] else Flatten(chunks[..|chunks| - 1]) + chunks[|chunks| - 1]
  }

  lemma {:induction false} FlattenUpdate(chunks: seq<seq<Effect>>, j: nat, chunk: seq<Effect>)
    returns (front: seq<Effect>, back: seq<Effect>)
    requires j < |chunks|
    ensures Flatten(chunks) == front + chunks[j] + back
    ensures Flatten(chunks[j := chunk]) == front + chunk + back
  {
    var init, last := chunks[..|chunks| - 1], chunks[|chunks| - 1];
    if j == |chunks| - 1 {
      front, back := Flatten(init), [];
      assert chunks[j := chunk][..|chunks| - 1] == init;
      assert front + chunks[j] + back == front + chunks[j] && front + chunk + back == front + chunk;
    } else {
      var back0;
      front, back0 := FlattenUpdate(init, j, chunk);
      back := back0 + last;
      assert chunks[j := chunk][..|chunks| - 1] == init[j := chunk];
      assert front + chunks[j] + back == front + chunks[j] + back0 + last;
      assert front + chunk + back == front + chunk + back0 + last;
    }
  }

  /** Every update performed on generation `g`, grouped by operation. */
  function Chunks(sh: Shape, ops: seq<Op>, g: nat): (r: seq<seq<Effect>>)
    ensures |r| == |ops|
  {
    seq(|ops|, i requires 0 <= i < |ops| => Performed(sh, ops[i], g))
  }

  /** The value cell `c` of generation `g` must hold, given what each operation has performed. */
  function Owed(sh: Shape, ops: seq<Op>, g: nat, c: Cell): int
    requires Has(sh, c)
  {
    Fold(sh, c, Load(Fresh(sh), c), Flatten(Chunks(sh, ops, g)))
  }

  lemma FoldExtend(sh: Shape, c: Cell, x: int, front: seq<Effect>, chunk: seq<Effect>, e: Effect, back: seq<Effect>)
    ensures Fold(sh, c, x, front + (chunk + [e]) + back) ==
            if e.cell == c then Combine(sh, c, Fold(sh, c, x, front + chunk + back), e.arg)
            else Fold(sh, c, x, front + chunk + back)
  {
    FoldInsert(sh, c, x, front + chunk, e, back);
    assert front + (chunk + [e]) + back == front + chunk + [e] + back;
  }

  lemma ChunksUpdate(sh: Shape, ops: seq<Op>, g: nat, j: nat, op: Op)
    requires j < |ops|
    ensures Chunks(sh, ops[j := op], g) == Chunks(sh, ops, g)[j := Performed(sh, op, g)]
  {
  }

  /** Performing one more update moves exactly one cell of one generation's fold. */
  lemma OwedAppend(sh: Shape, ops: seq<Op>, g: nat, j: nat, op: Op, e: Effect, c: Cell)
    requires j < |ops| && Has(sh, c)
    requires Performed(sh, op, g) == Performed(sh, ops[j], g) + [e]
    ensures Owed(sh, ops[j := op], g, c) ==
            if e.cell == c then Combine(sh, c, Owed(sh, ops, g, c), e.arg) else Owed(sh, ops, g, c)
  {
    ChunksUpdate(sh, ops, g, j, op);
    var front, back := FlattenUpdate(Chunks(sh, ops, g), j, Performed(sh, op, g));
    FoldExtend(sh, c, Load(Fresh(sh), c), front, Performed(sh, ops[j], g), e, back);
  }

  lemma OwedUnchanged(sh: Shape, ops: seq<Op>, g: nat, j: nat, op: Op)
    requires j < |ops|
    requires Performed(sh, op, g) == Performed(sh, ops[j], g)
    ensures forall c | Has(sh, c) :: Owed(sh, ops[j := op], g, c) == Owed(sh, ops, g, c)
  {
    ChunksUpdate(sh, ops, g, j, op);
    assert Chunks(sh, ops[j := op], g) == Chunks(sh, ops, g);
  }
}
