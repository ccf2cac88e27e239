/** The atomic float: a compare-exchange loop over one cell of bits, at one atomic operation per step.
    Any number of calls run at once and a run is any sequence of actions, including compare-exchanges
    that fail although the cell holds the expected bits. */
module AtomicFloat {

  /** Bit patterns, as far as the code can tell them apart: `rank` is the number a pattern stands for,
      `tag` distinguishes patterns of one number (the two zeroes) and `payload` the NaNs. */
  datatype Float = NaN(payload: nat) | Num(rank: int, tag: nat)

  /** What a call does to the cell: the pure function handed to the loop, or an unconditional swap. */
  datatype Call = Update(f: Float -> Float) | Swap(value: Float)

  /** `seen` is the loop's local copy of the bits. */
  datatype Phase = Called | Looping(seen: Float) | Over(result: Float)

  /** `after` is a history variable: the calls that were over when this one was made. */
  datatype Op = Op(call: Call, phase: Phase, after: set<nat>)

  datatype Sys = Sys(bits: Float, ops: seq<Op>)

  datatype Action = Make(call: Call) | Advance(op: nat, spurious: bool)

  function OverSet(ops: seq<Op>): set<nat> {
    set i | 0 <= i < |ops| && ops[i].phase.Over?
  }

  ghost function StepOp(s: Sys, j: nat, spurious: bool): Sys
    requires j < |s.ops|
  {
    var op := s.ops[j];
    match op.phase
    case Over(_) => s
    case Called =>
      if op.call.Swap? then Sys(op.call.value, s.ops[j := op.(phase := Over(s.bits))])
      else s.(ops := s.ops[j := op.(phase := Looping(s.bits))])
    case Looping(cur) =>
      if op.call.Swap? then s
      else
        var next := op.call.f(cur);
        if next == cur then s.(ops := s.ops[j := op.(phase := Over(cur))])
        else if !spurious && s.bits == cur then Sys(next, s.ops[j := op.(phase := Over(cur))])
        else s.(ops := s.ops[j := op.(phase := Looping(s.bits))])
  }

  ghost function Step(s: Sys, a: Action): Sys {
    match a
    case Make(call) => s.(ops := s.ops + [Op(call, Called, OverSet(s.ops))])
    case Advance(j, spurious) => if j < |s.ops| then StepOp(s, j, spurious) else s
  }

  ghost function Run(init: Float, actions: seq<Action>): Sys {
    if |actions| == 0 then Sys(init, [])
    else Step(Run(init, actions[..|actions| - 1]), actions[|actions| - 1])
  }

  // ---------------------------------------------------------------- sequential orders

  function Effect(call: Call, x: Float): Float {
    match call
    case Update(f) => f(x)
    case Swap(v) => v
  }

  /** The cell after performing the calls named by `order`, one at a time. */
  function Sequential(init: Float, ops: seq<Op>, order: seq<nat>): Float
    requires forall k :: 0 <= k < |order| ==> order[k] < |ops|
  {
    if |order| == 0 then init
    else Effect(ops[order[|order| - 1]].call, Sequential(init, ops, order[..|order| - 1]))
  }

  /** Position `p` of the order explains a call that read `v` and was made after `after`. */
  predicate Explains(init: Float, ops: seq<Op>, order: seq<nat>, p: nat, v: Float, after: set<nat>)
    requires forall k :: 0 <= k < |order| ==> order[k] < |ops|
  {
    p <= |order| && Sequential(init, ops, order[..p]) == v && forall a :: a in after ==> a in order[..p]
  }

  /** The call at position `k` read what it would have read in the sequential run, after all it followed. */
  predicate CallExplained(init: Float, ops: seq<Op>, order: seq<nat>, k: nat)
    requires forall l :: 0 <= l < |order| ==> order[l] < |ops|
    requires k < |order| && ops[order[k]].phase.Over?
  {
    Explains(init, ops, order, k, ops[order[k]].phase.result, ops[order[k]].after)
  }

  /** `order` names each finished call once, ends in the cell's bits, gives every call the value it read,
      and keeps any two calls that did not overlap in the order they happened. */
  ghost predicate Linearizes(init: Float, s: Sys, order: seq<nat>) {
    && (forall k :: 0 <= k < |order| ==> order[k] < |s.ops| && s.ops[order[k]].phase.Over?)
    && (forall k, l :: 0 <= k < l < |order| ==> order[k] != order[l])
    && (forall i :: 0 <= i < |s.ops| && s.ops[i].phase.Over? ==> i in order)
    && Sequential(init, s.ops, order) == s.bits
    && (forall k :: 0 <= k < |order| ==> CallExplained(init, s.ops, order, k))
  }

  /** Calls still looping are explained too, so that they can still return early. */
  ghost predicate LoopersExplained(init: Float, s: Sys, order: seq<nat>)
    requires forall k :: 0 <= k < |order| ==> order[k] < |s.ops|
  {
    && (forall i :: 0 <= i < |s.ops| ==> LooperExplained(init, s.ops, order, s.ops[i]))
    && (forall i, a :: 0 <= i < |s.ops| && a in s.ops[i].after ==> a in order)
  }

  // ---------------------------------------------------------------- how a step changes a sequential order

  ghost predicate SameCalls(ops: seq<Op>, ops': seq<Op>) {
    |ops| <= |ops'| && forall i :: 0 <= i < |ops| ==> ops'[i].call == ops[i].call
  }

  lemma {:induction false} SequentialSame(init: Float, ops: seq<Op>, ops': seq<Op>, order: seq<nat>)
    requires forall k :: 0 <= k < |order| ==> order[k] < |ops|
    requires SameCalls(ops, ops')
    ensures Sequential(init, ops', order) == Sequential(init, ops, order)
  {
    if |order| > 0 {
      SequentialSame(init, ops, ops', order[..|order| - 1]);
    }
  }

  lemma ExplainsSame(init: Float, ops: seq<Op>, ops': seq<Op>, order: seq<nat>, p: nat, v: Float, after: set<nat>)
    requires forall k :: 0 <= k < |order| ==> order[k] < |ops|
    requires SameCalls(ops, ops') && Explains(init, ops, order, p, v, after)
    ensures Explains(init, ops', order, p, v, after)
  {
    SequentialSame(init, ops, ops', order[..p]);
  }

  function Inserted(order: seq<nat>, p: nat, i: nat): seq<nat>
    requires p <= |order|
  {
    order[..p] + [i] + order[p..]
  }

  /** Inserting a call that changes nothing where it stands changes nothing later either. */
  lemma {:induction false} InsertNoop(init: Float, ops: seq<Op>, order: seq<nat>, p: nat, i: nat, r: nat)
    requires forall k :: 0 <= k < |order| ==> order[k] < |ops|
    requires i < |ops| && p <= r <= |order|
    requires Effect(ops[i].call, Sequential(init, ops, order[..p])) == Sequential(init, ops, order[..p])
    ensures Sequential(init, ops, Inserted(order, p, i)[..r + 1]) == Sequential(init, ops, order[..r])
  {
    var longer := Inserted(order, p, i);
    if r == p {
      assert longer[..p + 1][..p] == order[..p];
    } else {
      InsertNoop(init, ops, order, p, i, r - 1);
      assert longer[..r + 1][..r] == longer[..r];
      assert order[..r][..r - 1] == order[..r - 1];
      assert longer[r] == order[r - 1];
    }
  }

  lemma InsertKeepsExplanations(
    init: Float, ops: seq<Op>, order: seq<nat>, p: nat, i: nat, q: nat, v: Float, after: set<nat>)
    requires forall k :: 0 <= k < |order| ==> order[k] < |ops|
    requires i < |ops| && p <= |order| && Explains(init, ops, order, q, v, after)
    requires Effect(ops[i].call, Sequential(init, ops, order[..p])) == Sequential(init, ops, order[..p])
    ensures Explains(init, ops, Inserted(order, p, i), if q < p then q else q + 1, v, after)
  {
    var longer := Inserted(order, p, i);
    if q < p {
      assert longer[..q] == order[..q];
    } else {
      InsertNoop(init, ops, order, p, i, q);
      forall a | a in after ensures a in longer[..q + 1] {
        var k :| 0 <= k < q && order[..q][k] == a;
        assert longer[..q + 1][if k < p then k else k + 1] == a;
      }
    }
  }

  // ---------------------------------------------------------------- each kind of step

  ghost predicate Good(init: Float, s: Sys, order: seq<nat>) {
    Linearizes(init, s, order) && LoopersExplained(init, s, order)
  }

  /** Operations that did not finish in this step keep their explanations, and so does the whole order. */
  lemma KeepFinished(init: Float, s: Sys, t: Sys, order: seq<nat>)
    requires Linearizes(init, s, order) && SameCalls(s.ops, t.ops) && t.bits == s.bits
    requires forall i :: 0 <= i < |s.ops| && s.ops[i].phase.Over? ==> t.ops[i] == s.ops[i]
    requires forall i :: 0 <= i < |t.ops| && t.ops[i].phase.Over? ==> i < |s.ops| && s.ops[i].phase.Over?
    ensures Linearizes(init, t, order)
  {
    SequentialSame(init, s.ops, t.ops, order);
    forall k | 0 <= k < |order| ensures CallExplained(init, t.ops, order, k) {
      assert CallExplained(init, s.ops, order, k);
      ExplainsSame(init, s.ops, t.ops, order, k, s.ops[order[k]].phase.result, s.ops[order[k]].after);
    }
  }

  ghost predicate LooperExplained(init: Float, ops: seq<Op>, order: seq<nat>, op: Op)
    requires forall k :: 0 <= k < |order| ==> order[k] < |ops|
  {
    op.phase.Looping? ==> exists p :: Explains(init, ops, order, p, op.phase.seen, op.after)
  }

  lemma KeepLooper(init: Float, ops: seq<Op>, ops': seq<Op>, order: seq<nat>, op: Op)
    requires forall k :: 0 <= k < |order| ==> order[k] < |ops|
    requires SameCalls(ops, ops') && LooperExplained(init, ops, order, op)
    ensures LooperExplained(init, ops', order, op)
  {
    if op.phase.Looping? {
      var p :| Explains(init, ops, order, p, op.phase.seen, op.after);
      ExplainsSame(init, ops, ops', order, p, op.phase.seen, op.after);
    }
  }

  lemma MakeStep(init: Float, s: Sys, call: Call, order: seq<nat>)
    requires Good(init, s, order)
    ensures Good(init, Step(s, Make(call)), order)
  {
    var t := Step(s, Make(call));
    KeepFinished(init, s, t, order);
    forall i | 0 <= i < |t.ops| ensures LooperExplained(init, t.ops, order, t.ops[i]) {
      if i < |s.ops| {
        KeepLooper(init, s.ops, t.ops, order, s.ops[i]);
      }
    }
  }

  /** Loading the bits, first or again after a failed exchange: the end of the order explains them. */
  lemma LoadStep(init: Float, s: Sys, t: Sys, j: nat, order: seq<nat>)
    requires Good(init, s, order) && j < |s.ops| && !s.ops[j].phase.Over?
    requires t == s.(ops := s.ops[j := s.ops[j].(phase := Looping(s.bits))])
    ensures Good(init, t, order)
  {
    KeepFinished(init, s, t, order);
    forall i | 0 <= i < |t.ops| ensures LooperExplained(init, t.ops, order, t.ops[i]) {
      if i == j {
        assert order[..|order|] == order;
        assert Explains(init, t.ops, order, |order|, s.bits, t.ops[j].after);
      } else {
        KeepLooper(init, s.ops, t.ops, order, s.ops[i]);
      }
    }
  }

  /** The call `j` ends with `result` read and leaves the cell at `t.bits`. It may be inserted at `p`, where
      the value it read stood: at the end, writing its result, or earlier, if it writes nothing. */
  ghost predicate MayEndAt(init: Float, s: Sys, t: Sys, j: nat, p: nat, result: Float, order: seq<nat>) {
    && j < |s.ops| && !s.ops[j].phase.Over?
    && t.ops == s.ops[j := s.ops[j].(phase := Over(result))]
    && (forall k :: 0 <= k < |order| ==> order[k] < |s.ops|)
    && Explains(init, s.ops, order, p, result, s.ops[j].after)
    && if p == |order| then t.bits == Effect(s.ops[j].call, s.bits)
       else t.bits == s.bits && Effect(s.ops[j].call, result) == result
  }

  lemma FinishStep(init: Float, s: Sys, t: Sys, j: nat, p: nat, result: Float, order: seq<nat>)
    requires Good(init, s, order) && MayEndAt(init, s, t, j, p, result, order)
    ensures Good(init, t, Inserted(order, p, j))
  {
    FinishedMembers(init, s, t, j, p, result, order);
    FinishKeepsOrder(init, s, t, j, p, result, order);
    FinishKeepsLoopers(init, s, t, j, p, result, order);
  }

  /** The calls of the longer order, and that it names each finished call once. */
  lemma FinishedMembers(init: Float, s: Sys, t: Sys, j: nat, p: nat, result: Float, order: seq<nat>)
    requires Linearizes(init, s, order) && MayEndAt(init, s, t, j, p, result, order)
    ensures var longer := Inserted(order, p, j);
            && (forall k :: 0 <= k < |longer| ==> longer[k] < |t.ops| && t.ops[longer[k]].phase.Over?)
            && (forall k, l :: 0 <= k < l < |longer| ==> longer[k] != longer[l])
            && (forall i :: 0 <= i < |t.ops| && t.ops[i].phase.Over? ==> i in longer)
            && (forall x :: x in longer <==> x in order || x == j)
  {
    var longer := Inserted(order, p, j);
    assert j !in order;
    InsertedMembers(order, p, j);
    forall k | 0 <= k < |longer| ensures longer[k] < |t.ops| && t.ops[longer[k]].phase.Over? {
      assert longer[k] in longer;
    }
  }

  lemma FinishKeepsOrder(init: Float, s: Sys, t: Sys, j: nat, p: nat, result: Float, order: seq<nat>)
    requires Linearizes(init, s, order) && MayEndAt(init, s, t, j, p, result, order)
    ensures Linearizes(init, t, Inserted(order, p, j))
  {
    var longer := Inserted(order, p, j);
    FinishedMembers(init, s, t, j, p, result, order);
    FinishedValue(init, s, t, j, p, result, order);
    forall k | 0 <= k < |longer| ensures CallExplained(init, t.ops, longer, k) {
      AllFinishedExplained(init, s, t, j, p, result, order, k);
    }
  }

  lemma FinishKeepsLoopers(init: Float, s: Sys, t: Sys, j: nat, p: nat, result: Float, order: seq<nat>)
    requires Good(init, s, order) && MayEndAt(init, s, t, j, p, result, order)
    requires forall k :: 0 <= k < |Inserted(order, p, j)| ==> Inserted(order, p, j)[k] < |t.ops|
    requires forall x :: x in Inserted(order, p, j) <==> x in order || x == j
    ensures LoopersExplained(init, t, Inserted(order, p, j))
  {
    forall i | 0 <= i < |t.ops| ensures LooperExplained(init, t.ops, Inserted(order, p, j), t.ops[i]) {
      AllLoopersExplained(init, s, t, j, p, result, order, i);
    }
  }

  lemma InsertedMembers(order: seq<nat>, p: nat, i: nat)
    requires p <= |order| && i !in order
    requires forall k, l :: 0 <= k < l < |order| ==> order[k] != order[l]
    ensures forall k, l :: 0 <= k < l < |order| + 1 ==> Inserted(order, p, i)[k] != Inserted(order, p, i)[l]
    ensures forall x :: x in Inserted(order, p, i) <==> x in order || x == i
  {
    var longer := Inserted(order, p, i);
    assert order == order[..p] + order[p..];
  }

  lemma FinishedValue(init: Float, s: Sys, t: Sys, j: nat, p: nat, result: Float, order: seq<nat>)
    requires MayEndAt(init, s, t, j, p, result, order) && Sequential(init, s.ops, order) == s.bits
    ensures Sequential(init, t.ops, Inserted(order, p, j)) == t.bits
  {
    SequentialSame(init, s.ops, t.ops, Inserted(order, p, j));
    if p == |order| {
      AppendedValue(init, s.ops, order, j);
    } else {
      InsertedValue(init, s.ops, order, p, j);
    }
  }

  lemma AppendedValue(init: Float, ops: seq<Op>, order: seq<nat>, j: nat)
    requires j < |ops| && forall k :: 0 <= k < |order| ==> order[k] < |ops|
    ensures Sequential(init, ops, Inserted(order, |order|, j)) == Effect(ops[j].call, Sequential(init, ops, order))
  {
    assert Inserted(order, |order|, j) == order + [j];
    assert (order + [j])[..|order|] == order;
  }

  lemma InsertedValue(init: Float, ops: seq<Op>, order: seq<nat>, p: nat, j: nat)
    requires j < |ops| && p <= |order| && forall k :: 0 <= k < |order| ==> order[k] < |ops|
    requires Effect(ops[j].call, Sequential(init, ops, order[..p])) == Sequential(init, ops, order[..p])
    ensures Sequential(init, ops, Inserted(order, p, j)) == Sequential(init, ops, order)
  {
    InsertNoop(init, ops, order, p, j, |order|);
    assert order[..|order|] == order && Inserted(order, p, j)[..|order| + 1] == Inserted(order, p, j);
  }

  lemma ShiftedExplains(
    init: Float, s: Sys, t: Sys, j: nat, p: nat, result: Float, order: seq<nat>, q: nat, v: Float, after: set<nat>)
    requires MayEndAt(init, s, t, j, p, result, order) && Explains(init, s.ops, order, q, v, after)
    ensures Explains(init, t.ops, Inserted(order, p, j), if q < p || p == |order| then q else q + 1, v, after)
  {
    var longer := Inserted(order, p, j);
    if p == |order| {
      assert longer[..q] == order[..q];
    } else {
      InsertKeepsExplanations(init, s.ops, order, p, j, q, v, after);
    }
    ExplainsSame(init, s.ops, t.ops, longer, if q < p || p == |order| then q else q + 1, v, after);
  }

  lemma FinisherExplained(init: Float, s: Sys, t: Sys, j: nat, p: nat, result: Float, order: seq<nat>)
    requires MayEndAt(init, s, t, j, p, result, order)
    ensures Explains(init, t.ops, Inserted(order, p, j), p, result, s.ops[j].after)
  {
    assert Inserted(order, p, j)[..p] == order[..p];
    SequentialSame(init, s.ops, t.ops, order[..p]);
  }

  lemma FinishedExplains(init: Float, s: Sys, t: Sys, j: nat, p: nat, result: Float, order: seq<nat>, q: nat)
    requires MayEndAt(init, s, t, j, p, result, order) && q < |order|
    requires s.ops[order[q]].phase.Over?
    requires Explains(init, s.ops, order, q, s.ops[order[q]].phase.result, s.ops[order[q]].after)
    ensures var k := if q < p then q else q + 1;
            && Inserted(order, p, j)[k] == order[q]
            && Explains(init, t.ops, Inserted(order, p, j), k, t.ops[order[q]].phase.result, t.ops[order[q]].after)
  {
    var op := s.ops[order[q]];
    assert t.ops[order[q]] == op;
    ShiftedExplains(init, s, t, j, p, result, order, q, op.phase.result, op.after);
  }

  lemma AllFinishedExplained(init: Float, s: Sys, t: Sys, j: nat, p: nat, result: Float, order: seq<nat>, k: nat)
    requires Linearizes(init, s, order) && MayEndAt(init, s, t, j, p, result, order) && k < |order| + 1
    ensures t.ops[Inserted(order, p, j)[k]].phase.Over? && CallExplained(init, t.ops, Inserted(order, p, j), k)
  {
    if k == p {
      FinisherExplained(init, s, t, j, p, result, order);
    } else {
      var q := if k < p then k else k - 1;
      assert CallExplained(init, s.ops, order, q);
      FinishedExplains(init, s, t, j, p, result, order, q);
    }
  }

  lemma AllLoopersExplained(init: Float, s: Sys, t: Sys, j: nat, p: nat, result: Float, order: seq<nat>, i: nat)
    requires Good(init, s, order) && MayEndAt(init, s, t, j, p, result, order) && i < |s.ops|
    ensures LooperExplained(init, t.ops, Inserted(order, p, j), t.ops[i])
  {
    var op := s.ops[i];
    if i != j && op.phase.Looping? {
      assert LooperExplained(init, s.ops, order, op);
      var q :| Explains(init, s.ops, order, q, op.phase.seen, op.after);
      ShiftedExplains(init, s, t, j, p, result, order, q, op.phase.seen, op.after);
    }
  }

  lemma StepLinearizes(init: Float, s: Sys, a: Action, order: seq<nat>) returns (order': seq<nat>)
    requires Good(init, s, order)
    ensures Good(init, Step(s, a), order')
  {
    order' := order;
    var t := Step(s, a);
    if a.Make? {
      MakeStep(init, s, a.call, order);
    } else if a.op < |s.ops| && !s.ops[a.op].phase.Over? {
      var j, op := a.op, s.ops[a.op];
      assert order[..|order|] == order;
      if op.call.Swap? {
        if op.phase.Called? {
          order' := Inserted(order, |order|, j);
          FinishStep(init, s, t, j, |order|, s.bits, order);
        }
      } else if op.phase.Called? {
        LoadStep(init, s, t, j, order);
      } else if op.call.f(op.phase.seen) == op.phase.seen {
        assert LooperExplained(init, s.ops, order, op);
        var p :| Explains(init, s.ops, order, p, op.phase.seen, op.after);
        order' := Inserted(order, p, j);
        FinishStep(init, s, t, j, p, op.phase.seen, order);
      } else if !a.spurious && s.bits == op.phase.seen {
        order' := Inserted(order, |order|, j);
        FinishStep(init, s, t, j, |order|, s.bits, order);
      } else {
        LoadStep(init, s, t, j, order);
      }
    }
  }

  /** Every run is linearizable: there is one sequential order of the finished calls, each performed once,
      that ends in the cell's bits, hands every call the value it read, and never swaps two calls that
      did not overlap. Spurious failures, values that change and come back, and early returns included. */
  lemma {:induction false} RunLinearizes(init: Float, actions: seq<Action>) returns (order: seq<nat>)
    ensures Good(init, Run(init, actions), order)
  {
    order := [];
    if |actions| > 0 {
      order := RunLinearizes(init, actions[..|actions| - 1]);
      order := StepLinearizes(init, Run(init, actions[..|actions| - 1]), actions[|actions| - 1], order);
    }
  }

  // ---------------------------------------------------------------- concurrent minimum and maximum

  /** The functions `fetch_min` and `fetch_max` hand to the loop; a NaN argument is ignored. */
  function MinWith(value: Float): Float -> Float {
    (cur: Float) => if value.NaN? then cur else if cur.NaN? || value.rank < cur.rank then value else cur
  }

  function MaxWith(value: Float): Float -> Float {
    (cur: Float) => if value.NaN? then cur else if cur.NaN? || cur.rank < value.rank then value else cur
  }

  /** The call at index `i` of a run was `fetch_min` (or `fetch_max`) of `vals[i]`. */
  ghost predicate AllMin(ops: seq<Op>, vals: seq<Float>) {
    |vals| == |ops| && forall i :: 0 <= i < |ops| ==> ops[i].call == Update(MinWith(vals[i]))
  }

  ghost predicate AllMax(ops: seq<Op>, vals: seq<Float>) {
    |vals| == |ops| && forall i :: 0 <= i < |ops| ==> ops[i].call == Update(MaxWith(vals[i]))
  }

  /** The numbers a cell has been offered: the initial one and every argument named by `order`. */
  predicate Offered(init: Float, vals: seq<Float>, order: seq<nat>, x: Float)
    requires forall k :: 0 <= k < |order| ==> order[k] < |vals|
  {
    x == init || exists k :: 0 <= k < |order| && x == vals[order[k]]
  }

  ghost predicate IsExtremum(init: Float, vals: seq<Float>, order: seq<nat>, r: Float, least: bool)
    requires forall k :: 0 <= k < |order| ==> order[k] < |vals|
  {
    && Offered(init, vals, order, r)
    && (forall x | Offered(init, vals, order, x) && x.Num? ::
          r.Num? && if least then r.rank <= x.rank else x.rank <= r.rank)
  }

  lemma {:induction false} SequentialMin(init: Float, ops: seq<Op>, vals: seq<Float>, order: seq<nat>)
    requires AllMin(ops, vals) && forall k :: 0 <= k < |order| ==> order[k] < |ops|
    ensures IsExtremum(init, vals, order, Sequential(init, ops, order), true)
  {
    if |order| > 0 {
      var front, last := order[..|order| - 1], order[|order| - 1];
      SequentialMin(init, ops, vals, front);
      OfferedStep(init, vals, order);
      assert ops[last].call == Update(MinWith(vals[last]));
    }
  }

  lemma {:induction false} SequentialMax(init: Float, ops: seq<Op>, vals: seq<Float>, order: seq<nat>)
    requires AllMax(ops, vals) && forall k :: 0 <= k < |order| ==> order[k] < |ops|
    ensures IsExtremum(init, vals, order, Sequential(init, ops, order), false)
  {
    if |order| > 0 {
      var front, last := order[..|order| - 1], order[|order| - 1];
      SequentialMax(init, ops, vals, front);
      OfferedStep(init, vals, order);
      assert ops[last].call == Update(MaxWith(vals[last]));
    }
  }

  lemma OfferedStep(init: Float, vals: seq<Float>, order: seq<nat>)
    requires |order| > 0 && forall k :: 0 <= k < |order| ==> order[k] < |vals|
    ensures forall x :: Offered(init, vals, order, x) <==>
      Offered(init, vals, order[..|order| - 1], x) || x == vals[order[|order| - 1]]
  {
    var front := order[..|order| - 1];
    forall x ensures Offered(init, vals, order, x) <==> Offered(init, vals, front, x) || x == vals[order[|order| - 1]] {
      if k :| 0 <= k < |front| && x == vals[front[k]] {
        assert order[k] == front[k];
      }
      if k :| 0 <= k < |order| && x == vals[order[k]] {
        if k < |front| {
          assert front[k] == order[k];
        }
      }
    }
  }

  /** Concurrent `fetch_min` calls, however they interleave, leave the least number among the initial
      value and the arguments of the calls that are over; a NaN survives only if no number was offered. */
  lemma ConcurrentMin(init: Float, actions: seq<Action>, vals: seq<Float>) returns (order: seq<nat>)
    requires AllMin(Run(init, actions).ops, vals)
    ensures Linearizes(init, Run(init, actions), order)
    ensures IsExtremum(init, vals, order, Run(init, actions).bits, true)
  {
    order := RunLinearizes(init, actions);
    SequentialMin(init, Run(init, actions).ops, vals, order);
  }

  lemma ConcurrentMax(init: Float, actions: seq<Action>, vals: seq<Float>) returns (order: seq<nat>)
    requires AllMax(Run(init, actions).ops, vals)
    ensures Linearizes(init, Run(init, actions), order)
    ensures IsExtremum(init, vals, order, Run(init, actions).bits, false)
  {
    order := RunLinearizes(init, actions);
    SequentialMax(init, Run(init, actions).ops, vals, order);
  }
}
