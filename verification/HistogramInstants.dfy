/** When a write meets a take: the order of their actions in the run decides whether the write is reported or
    lost. */
module HistogramInstants {
  import opened Sequences
  import opened HistogramProtocol
  import opened HistogramSafety
  import opened HistogramTheorems

  // ---------------------------------------------------------------- what lasts

  /** The same operation, at least as far on. */
  predicate Later(before: Op, after: Op) {
    && before.Writer? == after.Writer?
    && (before.Writer? && !before.wp.Called? ==> !after.wp.Called? && after.wp.gen == before.wp.gen)
    && (before.Writer? && (before.wp.Inside? || before.wp.Finished?) ==> after.wp.Inside? || after.wp.Finished?)
    && (before.Reader? && !before.rp.Asked? ==> !after.rp.Asked?)
  }

  predicate AllLater(s: Sys, t: Sys) {
    && |s.gens| <= |t.gens| && |s.ops| <= |t.ops|
    && forall i :: 0 <= i < |s.ops| ==> Later(s.ops[i], t.ops[i])
  }

  lemma StepIsLater(sh: Shape, s: Sys, a: Action)
    requires ValidCells(sh, s) && ValidRefs(s)
    ensures AllLater(s, Step(sh, s, a))
  {
  }

  lemma {:induction false} RunIsLater(sh: Shape, actions: seq<Action>, m: nat)
    requires m <= |actions|
    ensures AllLater(Run(sh, actions[..m]), Run(sh, actions))
  {
    if m == |actions| {
      assert actions[..m] == actions;
    } else {
      var n := |actions| - 1;
      PrefixOfPrefix(actions, n, m);
      RunIsLater(sh, actions[..n], m);
      StepIsLater(sh, Run(sh, actions[..n]), actions[n]);
    }
  }

  lemma PrefixIsLater(sh: Shape, actions: seq<Action>, m: nat, n: nat)
    requires m <= n <= |actions|
    ensures AllLater(Run(sh, actions[..m]), Run(sh, actions[..n]))
  {
    RunIsLater(sh, actions[..n], m);
    PrefixOfPrefix(actions, n, m);
  }

  // ---------------------------------------------------------------- the instants of a write and of a take

  /** At step `p` writer `i` loads the pointer, which names generation `g`. */
  predicate PinsAt(sh: Shape, actions: seq<Action>, i: nat, g: nat, p: nat) {
    && p < |actions| && actions[p] == Advance(i)
    && var s := Run(sh, actions[..p]);
       i < |s.ops| && s.ops[i].Writer? && s.ops[i].wp.Called? && Live(s) == g
  }

  /** At step `b` writer `i` bumps `start` of generation `g`. */
  predicate BumpsAt(sh: Shape, actions: seq<Action>, i: nat, g: nat, b: nat) {
    && b < |actions| && actions[b] == Advance(i)
    && var s := Run(sh, actions[..b]);
       i < |s.ops| && s.ops[i].Writer? && s.ops[i].wp == Pinned(g)
  }

  /** At step `h` taker `j` swaps generation `g` for a fresh one. */
  predicate SwapsAt(sh: Shape, actions: seq<Action>, j: nat, g: nat, h: nat) {
    && h < |actions| && actions[h] == Advance(j)
    && var s := Run(sh, actions[..h]);
       j < |s.ops| && s.ops[j] == Reader(true, Asked) && Live(s) == g
  }

  /** At step `k` reader `j` loads `start` of generation `g` and finds what it had loaded as `end`; its read
      goes on to succeed. */
  predicate LoadsAt(sh: Shape, actions: seq<Action>, j: nat, g: nat, k: nat) {
    && k < |actions| && actions[k] == Advance(j)
    && var s := Run(sh, actions[..k]);
       && j < |s.ops| && s.ops[j].Reader? && s.ops[j].rp.LoadedEnd? && s.ops[j].rp.gen == g < |s.gens|
       && s.gens[g].start == s.ops[j].rp.end
  }

  predicate PinnedTo(s: Sys, i: nat, g: nat) {
    i < |s.ops| && s.ops[i].Writer? && !s.ops[i].wp.Called? && s.ops[i].wp.gen == g
  }

  predicate HasStarted(s: Sys, i: nat, g: nat) {
    i < |s.ops| && StartedIn(s.ops[i], g)
  }

  /** A writer is pinned by its own load of the pointer, and starts by its own bump. */
  lemma OnlyItsOwnStep(sh: Shape, s: Sys, a: Action, i: nat, g: nat)
    requires ValidCells(sh, s) && ValidRefs(s)
    ensures PinnedTo(Step(sh, s, a), i, g) && !PinnedTo(s, i, g) ==>
              a == Advance(i) && i < |s.ops| && s.ops[i].Writer? && s.ops[i].wp.Called? && Live(s) == g
    ensures HasStarted(Step(sh, s, a), i, g) && !HasStarted(s, i, g) ==>
              a == Advance(i) && i < |s.ops| && s.ops[i].Writer? && s.ops[i].wp == Pinned(g)
  {
  }

  lemma {:induction false} PinInstant(sh: Shape, actions: seq<Action>, i: nat, g: nat) returns (p: nat)
    requires PinnedTo(Run(sh, actions), i, g)
    ensures PinsAt(sh, actions, i, g, p)
  {
    var n := |actions| - 1;
    OnlyItsOwnStep(sh, Run(sh, actions[..n]), actions[n], i, g);
    if PinnedTo(Run(sh, actions[..n]), i, g) {
      p := PinInstant(sh, actions[..n], i, g);
      PrefixOfPrefix(actions, n, p);
    } else {
      p := n;
    }
  }

  lemma {:induction false} BumpInstant(sh: Shape, actions: seq<Action>, i: nat, g: nat) returns (b: nat)
    requires HasStarted(Run(sh, actions), i, g)
    ensures BumpsAt(sh, actions, i, g, b)
  {
    var n := |actions| - 1;
    OnlyItsOwnStep(sh, Run(sh, actions[..n]), actions[n], i, g);
    if HasStarted(Run(sh, actions[..n]), i, g) {
      b := BumpInstant(sh, actions[..n], i, g);
      PrefixOfPrefix(actions, n, b);
    } else {
      b := n;
    }
  }

  lemma {:induction false} SwapInstant(sh: Shape, actions: seq<Action>, j: nat, g: nat) returns (h: nat)
    requires var s := Run(sh, actions); j < |s.ops| && TakerOf(s.ops[j], g)
    ensures SwapsAt(sh, actions, j, g, h)
  {
    var n := |actions| - 1;
    var s := Run(sh, actions[..n]);
    if actions[n] == Advance(j) && j < |s.ops| && s.ops[j].Reader? && s.ops[j].rp.Asked? {
      h := n;
    } else {
      h := SwapInstant(sh, actions[..n], j, g);
      PrefixOfPrefix(actions, n, h);
    }
  }

  // ---------------------------------------------------------------- their order

  /** A writer has started at an instant exactly when its bump came before. */
  lemma StartedIffBumped(sh: Shape, actions: seq<Action>, i: nat, g: nat, b: nat, m: nat)
    requires BumpsAt(sh, actions, i, g, b) && m <= |actions|
    ensures var s := Run(sh, actions[..m]); b < m <==> i < |s.ops| && StartedIn(s.ops[i], g)
  {
    if b < m {
      assert actions[..b + 1][..b] == actions[..b];
      PrefixIsLater(sh, actions, b + 1, m);
      PrefixIsLater(sh, actions, b, m);
    } else {
      PrefixIsLater(sh, actions, m, b);
    }
  }

  /** A pointer is loaded before it is swapped. */
  lemma PinsBeforeSwap(sh: Shape, actions: seq<Action>, i: nat, j: nat, g: nat, p: nat, h: nat)
    requires PinsAt(sh, actions, i, g, p) && SwapsAt(sh, actions, j, g, h)
    ensures p < h
  {
    var s := Run(sh, actions[..h]);
    if h < p {
      assert actions[..h + 1][..h] == actions[..h];
      assert Live(Run(sh, actions[..h + 1])) == g + 1;
      PrefixIsLater(sh, actions, h + 1, p);
    }
  }

  lemma SwapsBeforeLoad(sh: Shape, actions: seq<Action>, j: nat, g: nat, h: nat, k: nat)
    requires SwapsAt(sh, actions, j, g, h) && LoadsAt(sh, actions, j, g, k)
    ensures h < k
  {
    if k <= h {
      PrefixIsLater(sh, actions, k, h);
    }
  }

  lemma PinsBeforeBump(sh: Shape, actions: seq<Action>, i: nat, g: nat, p: nat, b: nat)
    requires PinsAt(sh, actions, i, g, p) && BumpsAt(sh, actions, i, g, b)
    ensures p < b
  {
    if b <= p {
      PrefixIsLater(sh, actions, b, p);
    }
  }

  /** The instant of a read's successful load of `start`: what the read reports are the writes started by then. */
  lemma LoadInstant(sh: Shape, actions: seq<Action>, j: nat) returns (k: nat)
    requires j < |Run(sh, actions).ops| && Run(sh, actions).ops[j].Reader? && Run(sh, actions).ops[j].rp.Returned?
    ensures LoadsAt(sh, actions, j, Run(sh, actions).ops[j].rp.gen, k)
    ensures var rp, s := Run(sh, actions).ops[j].rp, Run(sh, actions[..k]);
            rp.seen == StartedSet(s.ops, rp.gen)
  {
    var rp := Run(sh, actions).ops[j].rp;
    k := ReadHasAnInstant(sh, actions, j);
    var s := Run(sh, actions[..k]);
    RunKeepsInv(sh, actions[..k]);
    assert OpOk(sh, s, s.ops[j]);
    LoadStartIsQuiet(sh, s, j);
    assert CountersOk(s, rp.gen);
    EqualCountersMeanQuiet(s, rp.gen);
  }

  // ---------------------------------------------------------------- the main result

  /** A finished write of a generation and the take that retired it: the write loaded the pointer before the
      swap; it is reported exactly when it bumped `start` before the take's successful load of `start`, and lost
      exactly when it bumped it after. */
  lemma LostIffLate(sh: Shape, actions: seq<Action>, i: nat, j: nat) returns (pin: nat, bump: nat, swap: nat, load: nat)
    requires var ops := Run(sh, actions).ops;
             && i < |ops| && ops[i].Writer? && ops[i].wp.Finished?
             && j < |ops| && TakerOf(ops[j], ops[i].wp.gen) && ops[j].rp.Returned?
    ensures var s := Run(sh, actions);
            var g := s.ops[i].wp.gen;
            && PinsAt(sh, actions, i, g, pin) && BumpsAt(sh, actions, i, g, bump)
            && SwapsAt(sh, actions, j, g, swap) && LoadsAt(sh, actions, j, g, load)
            && pin < bump && pin < swap < load
            && (i in s.ops[j].rp.seen <==> bump < load)
            && (i in Lost(s) <==> load < bump)
  {
    var s := Run(sh, actions);
    var g := s.ops[i].wp.gen;
    pin := PinInstant(sh, actions, i, g);
    bump := BumpInstant(sh, actions, i, g);
    swap := SwapInstant(sh, actions, j, g);
    load := LoadInstant(sh, actions, j);
    PinsBeforeBump(sh, actions, i, g, pin, bump);
    PinsBeforeSwap(sh, actions, i, j, g, pin, swap);
    SwapsBeforeLoad(sh, actions, j, g, swap, load);
    StartedIffBumped(sh, actions, i, g, bump, load);
    LostIffUnseen(sh, actions, i, j);
    assert bump != load;
  }

  /** A finished write of a retired generation is lost exactly when its taker did not see it. */
  lemma LostIffUnseen(sh: Shape, actions: seq<Action>, i: nat, j: nat)
    requires var ops := Run(sh, actions).ops;
             && i < |ops| && ops[i].Writer? && ops[i].wp.Finished?
             && j < |ops| && TakerOf(ops[j], ops[i].wp.gen) && ops[j].rp.Returned?
    ensures i in Lost(Run(sh, actions)) <==> i !in Run(sh, actions).ops[j].rp.seen
  {
    RunKeepsTakers(sh, actions);
    TakeReportsExactly(sh, actions, j, i);
  }
}
