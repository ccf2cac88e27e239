/** The bucket map under concurrent callers: `get_or_create` takes its two locks one after the other, while
    clearing, taking and evicting hold the canonical lock and nest the alias lock inside it.

    Who holds a lock is read off the operations' phases. A run is any sequence of actions; an operation
    whose lock is taken by another simply does not move. */
module BucketLocks {
  import opened Wrappers
  import opened Ordering
  import opened Model
  import opened BucketTables
  import opened BucketDraining

  datatype Table = Canonical | Alias

  datatype CreatorPhase =
    | Look(k: nat)
    | Reading(k: nat)
    | WantCanon
    | HoldCanon
    | WantAlias(bucket: nat)
    | HoldAlias(bucket: nat)
    | Created(bucket: nat)

  /** Clearing and taking go through `NeedAliases`; evicting visits entry by entry. */
  datatype DrainerPhase =
    | WantTable
    | HoldTable
    | NeedAliases(buckets: set<nat>)
    | HoldBoth(buckets: set<nat>)
    | Visiting(i: nat)
    | NeedAliasesFor(i: nat)
    | HoldBothFor(i: nat)
    | Removing(i: nat)
    | DropTable
    | Drained

  datatype Op =
    | Creator(attrs: seq<KeyValue>, cp: CreatorPhase)
    | Drainer(evicting: bool, dp: DrainerPhase)

  /** History: a call filed a bucket in the canonical table, put an alias in the alias table, or a drain or
      eviction disposed of the aliases of some buckets. */
  datatype Event = Filed(op: nat, bucket: nat) | Put(op: nat, key: AliasKey, bucket: nat) | Gone(buckets: set<nat>)

  datatype Sys<A> = Sys(t: Tables<A>, ops: seq<Op>, log: seq<Event>)

  /** `verdict` is what an eviction's callback says about the entry it is shown. */
  datatype Action = Create(attrs: seq<KeyValue>) | Drain(evicting: bool) | Advance(op: nat, verdict: bool)

  /** The lookups of `get_bucket`, in order. */
  function Lookups(attrs: seq<KeyValue>): seq<Table> {
    if |attrs| <= 1 then [Canonical] else if Sorted(PairLe, attrs) then [Canonical, Alias] else [Alias, Canonical]
  }

  // ---------------------------------------------------------------- locks

  predicate Writes(op: Op, table: Table) {
    match op
    case Creator(_, cp) => if table.Canonical? then cp.HoldCanon? else cp.HoldAlias?
    case Drainer(_, dp) =>
      if table.Canonical? then !dp.WantTable? && !dp.Drained? else dp.HoldBoth? || dp.HoldBothFor?
  }

  predicate Reads(op: Op, table: Table) {
    op.Creator? && op.cp.Reading? && op.cp.k < |Lookups(op.attrs)| && Lookups(op.attrs)[op.cp.k] == table
  }

  predicate FreeToWrite(ops: seq<Op>, table: Table) {
    forall i :: 0 <= i < |ops| ==> !Writes(ops[i], table) && !Reads(ops[i], table)
  }

  predicate FreeToRead(ops: seq<Op>, table: Table) {
    forall i :: 0 <= i < |ops| ==> !Writes(ops[i], table)
  }

  predicate Over(op: Op) {
    (op.Creator? && op.cp.Created?) || (op.Drainer? && op.dp.Drained?)
  }

  // ---------------------------------------------------------------- one step

  function Buckets(c: seq<CanonEntry>): set<nat> {
    set e | e in c :: e.bucket
  }

  function Lookup<A>(hs: Hasher, t: Tables<A>, attrs: seq<KeyValue>, table: Table): Option<nat> {
    if table.Canonical? then LookupCanon(t, hs.table(Print(hs, attrs)), attrs) else LookupDup(hs, t, Print(hs, attrs))
  }

  function With<A>(s: Sys<A>, j: nat, op: Op): Sys<A>
    requires j < |s.ops|
  {
    s.(ops := s.ops[j := op])
  }

  function StepCreator<A>(hs: Hasher, init: A, s: Sys<A>, j: nat): Sys<A>
    requires j < |s.ops| && s.ops[j].Creator?
  {
    var op := s.ops[j];
    var lookups, alias := Lookups(op.attrs), AliasOf(hs, op.attrs);
    match op.cp
    case Look(k) =>
      if k >= |lookups| then With(s, j, op.(cp := WantCanon))
      else if FreeToRead(s.ops, lookups[k]) then With(s, j, op.(cp := Reading(k)))
      else s
    case Reading(k) =>
      if k >= |lookups| then With(s, j, op.(cp := WantCanon))
      else
        var found := Lookup(hs, s.t, op.attrs, lookups[k]);
        With(s, j, op.(cp := if found.Some? then Created(found.value) else Look(k + 1)))
    case WantCanon => if FreeToWrite(s.ops, Canonical) then With(s, j, op.(cp := HoldCanon)) else s
    case HoldCanon =>
      var (u, b) := InsertCanon(s.t, init, CanonOf(op.attrs), CanonHash(hs, op.attrs), alias);
      Sys(u, s.ops[j := op.(cp := if alias.Some? then WantAlias(b) else Created(b))], s.log + [Filed(j, b)])
    case WantAlias(b) => if FreeToWrite(s.ops, Alias) then With(s, j, op.(cp := HoldAlias(b))) else s
    case HoldAlias(b) =>
      var key := AliasKey(Print(hs, op.attrs), op.attrs);
      var log := if FindAlias(s.t.aliases, hs.table(key.fp), key.fp).None? then s.log + [Put(j, key, b)] else s.log;
      Sys(InsertDup(hs, s.t, key, b), s.ops[j := op.(cp := Created(b))], log)
    case Created(_) => s
  }

  function WithoutEntry<A>(t: Tables<A>, i: nat): Tables<A>
    requires i < |t.canonical|
  {
    t.(canonical := t.canonical[..i] + t.canonical[i + 1..])
  }

  function StepDrainer<A>(hs: Hasher, s: Sys<A>, j: nat, verdict: bool): Sys<A>
    requires j < |s.ops| && s.ops[j].Drainer?
  {
    var op, t := s.ops[j], s.t;
    match op.dp
    case WantTable => if FreeToWrite(s.ops, Canonical) then With(s, j, op.(dp := HoldTable)) else s
    case HoldTable =>
      if op.evicting then With(s, j, op.(dp := Visiting(0)))
      else s.(t := t.(canonical := []), ops := s.ops[j := op.(dp := NeedAliases(Buckets(t.canonical)))])
    case NeedAliases(bs) => if FreeToWrite(s.ops, Alias) then With(s, j, op.(dp := HoldBoth(bs))) else s
    case HoldBoth(bs) => Sys(t.(aliases := []), s.ops[j := op.(dp := DropTable)], s.log + [Gone(bs)])
    case Visiting(i) =>
      if i >= |t.canonical| then With(s, j, op.(dp := DropTable))
      else if verdict then With(s, j, op.(dp := Visiting(i + 1)))
      else if |t.canonical[i].aliases| == 0 then
        Sys(WithoutEntry(t, i), s.ops, s.log + [Gone({t.canonical[i].bucket})])
      else With(s, j, op.(dp := NeedAliasesFor(i)))
    case NeedAliasesFor(i) => if FreeToWrite(s.ops, Alias) then With(s, j, op.(dp := HoldBothFor(i))) else s
    case HoldBothFor(i) =>
      if i >= |t.canonical| then With(s, j, op.(dp := Visiting(i)))
      else
        Sys(t.(aliases := RemoveAliases(hs, t.aliases, t.canonical[i].aliases)),
            s.ops[j := op.(dp := Removing(i))], s.log + [Gone({t.canonical[i].bucket})])
    case Removing(i) =>
      if i >= |t.canonical| then With(s, j, op.(dp := Visiting(i)))
      else s.(t := WithoutEntry(t, i), ops := s.ops[j := op.(dp := Visiting(i))])
    case DropTable => With(s, j, op.(dp := Drained))
    case Drained => s
  }

  function Step<A>(hs: Hasher, init: A, s: Sys<A>, a: Action): Sys<A> {
    match a
    case Create(attrs) => s.(ops := s.ops + [Creator(attrs, if |attrs| == 0 then Created(0) else Look(0))])
    case Drain(evicting) => s.(ops := s.ops + [Drainer(evicting, WantTable)])
    case Advance(j, verdict) =>
      if j >= |s.ops| then s
      else if s.ops[j].Creator? then StepCreator(hs, init, s, j)
      else StepDrainer(hs, s, j, verdict)
  }

  function Run<A>(hs: Hasher, init: A, actions: seq<Action>): Sys<A> {
    if |actions| == 0 then Sys(Tables([], [], [init], false, 0), [], [])
    else Step(hs, init, Run(hs, init, actions[..|actions| - 1]), actions[|actions| - 1])
  }

  // ---------------------------------------------------------------- mutual exclusion and absence of deadlock

  /** A writer excludes every other holder of the same lock. */
  predicate Exclusive(ops: seq<Op>) {
    forall i, j, table :: 0 <= i < |ops| && 0 <= j < |ops| && i != j && Writes(ops[i], table) ==>
      !Writes(ops[j], table) && !Reads(ops[j], table)
  }

  /** Holding a lock after a step means having held it before or having found it free. */
  predicate Acquires(ops: seq<Op>, before: Op, after: Op) {
    forall table ::
      && (Writes(after, table) ==> Writes(before, table) || FreeToWrite(ops, table))
      && (Reads(after, table) ==> Reads(before, table) || FreeToRead(ops, table))
  }

  lemma StepMovesOne<A>(hs: Hasher, init: A, s: Sys<A>, j: nat, verdict: bool)
    requires j < |s.ops|
    ensures var ops := Step(hs, init, s, Advance(j, verdict)).ops;
            |ops| == |s.ops| && ops == s.ops[j := ops[j]] && Acquires(s.ops, s.ops[j], ops[j])
  {
    if s.ops[j].Creator? {
      CreatorMovesOne(hs, init, s, j);
    } else {
      DrainerMovesOne(hs, s, j, verdict);
    }
  }

  lemma CreatorMovesOne<A>(hs: Hasher, init: A, s: Sys<A>, j: nat)
    requires j < |s.ops| && s.ops[j].Creator?
    ensures var ops := StepCreator(hs, init, s, j).ops;
            |ops| == |s.ops| && ops == s.ops[j := ops[j]] && Acquires(s.ops, s.ops[j], ops[j])
  {
    match s.ops[j].cp
    case Look(k) =>
    case Reading(k) =>
    case HoldAlias(_) =>
    case _ =>
  }

  lemma DrainerMovesOne<A>(hs: Hasher, s: Sys<A>, j: nat, verdict: bool)
    requires j < |s.ops| && s.ops[j].Drainer?
    ensures var ops := StepDrainer(hs, s, j, verdict).ops;
            |ops| == |s.ops| && ops == s.ops[j := ops[j]] && Acquires(s.ops, s.ops[j], ops[j])
  {
  }

  lemma StepKeepsExclusive<A>(hs: Hasher, init: A, s: Sys<A>, a: Action)
    requires Exclusive(s.ops)
    ensures Exclusive(Step(hs, init, s, a).ops)
  {
    if a.Advance? && a.op < |s.ops| {
      var ops := Step(hs, init, s, a).ops;
      StepMovesOne(hs, init, s, a.op, a.verdict);
      forall i, k, table | 0 <= i < |ops| && 0 <= k < |ops| && i != k && Writes(ops[i], table)
        ensures !Writes(ops[k], table) && !Reads(ops[k], table)
      {
        assert Writes(s.ops[i], table) || FreeToWrite(s.ops, table);
      }
    }
  }

  lemma {:induction false} RunKeepsExclusive<A>(hs: Hasher, init: A, actions: seq<Action>)
    ensures Exclusive(Run(hs, init, actions).ops)
  {
    if |actions| > 0 {
      RunKeepsExclusive(hs, init, actions[..|actions| - 1]);
      StepKeepsExclusive(hs, init, Run(hs, init, actions[..|actions| - 1]), actions[|actions| - 1]);
    }
  }

  /** Scheduling `j` next changes its phase. */
  ghost predicate CanMove<A>(hs: Hasher, init: A, s: Sys<A>, j: nat)
    requires j < |s.ops|
  {
    exists verdict: bool :: j < |Step(hs, init, s, Advance(j, verdict)).ops|
        && Step(hs, init, s, Advance(j, verdict)).ops[j] != s.ops[j]
  }

  /** The lock an operation is about to take, and whether it takes it for writing. */
  function Wants(op: Op): Option<(Table, bool)> {
    match op
    case Creator(attrs, Look(k)) => if k < |Lookups(attrs)| then Some((Lookups(attrs)[k], false)) else None
    case Creator(_, WantCanon) => Some((Canonical, true))
    case Creator(_, WantAlias(_)) => Some((Alias, true))
    case Drainer(_, WantTable) => Some((Canonical, true))
    case Drainer(_, NeedAliases(_)) => Some((Alias, true))
    case Drainer(_, NeedAliasesFor(_)) => Some((Alias, true))
    case _ => None
  }

  predicate Granted(ops: seq<Op>, want: Option<(Table, bool)>) {
    want.Some? ==> if want.value.1 then FreeToWrite(ops, want.value.0) else FreeToRead(ops, want.value.0)
  }

  lemma GrantedMoves<A>(hs: Hasher, init: A, s: Sys<A>, j: nat)
    requires j < |s.ops| && !Over(s.ops[j]) && Granted(s.ops, Wants(s.ops[j]))
    ensures CanMove(hs, init, s, j)
  {
    var u := Step(hs, init, s, Advance(j, true));
    assert u.ops[j] != s.ops[j];
  }

  /** While anything is unfinished, something can move: the alias lock is only ever waited for by holders of
      the canonical lock or of none, and its own holders wait for nothing. */
  lemma NoDeadlock<A>(hs: Hasher, init: A, s: Sys<A>, j: nat) returns (mover: nat)
    requires j < |s.ops| && !Over(s.ops[j])
    ensures mover < |s.ops| && !Over(s.ops[mover]) && CanMove(hs, init, s, mover)
  {
    if i :| 0 <= i < |s.ops| && (Writes(s.ops[i], Alias) || Reads(s.ops[i], Alias) || Reads(s.ops[i], Canonical)) {
      mover := i;
    } else if i :| 0 <= i < |s.ops| && Writes(s.ops[i], Canonical) {
      assert FreeToWrite(s.ops, Alias);
      mover := i;
    } else {
      assert FreeToWrite(s.ops, Alias) && FreeToWrite(s.ops, Canonical);
      assert FreeToRead(s.ops, Alias) && FreeToRead(s.ops, Canonical);
      mover := j;
    }
    GrantedMoves(hs, init, s, mover);
  }

  // ---------------------------------------------------------------- where a stale alias comes from

  ghost predicate GoneBetween(log: seq<Event>, p: nat, r: nat, b: nat) {
    exists q :: p < q < r && q < |log| && GoneAt(log, q, b)
  }

  ghost predicate GoneAt(log: seq<Event>, q: nat, b: nat) {
    q < |log| && log[q].Gone? && b in log[q].buckets
  }

  ghost predicate Listed(canonical: seq<CanonEntry>, key: AliasKey, b: nat) {
    exists i :: 0 <= i < |canonical| && canonical[i].bucket == b && key in canonical[i].aliases
  }

  ghost predicate ClearsOf(op: Op, b: nat) {
    op.Drainer? && ((op.dp.NeedAliases? && b in op.dp.buckets) || (op.dp.HoldBoth? && b in op.dp.buckets))
  }

  /** A drain has carried the bucket off and has yet to empty the alias table. */
  ghost predicate BeingCleared(ops: seq<Op>, b: nat) {
    exists j :: 0 <= j < |ops| && ClearsOf(ops[j], b)
  }

  ghost predicate RemovesOf(canonical: seq<CanonEntry>, op: Op, b: nat) {
    op.Drainer? && op.dp.Removing? && op.dp.i < |canonical| && canonical[op.dp.i].bucket == b
  }

  /** An eviction has removed the bucket's aliases and has yet to remove its entry. */
  ghost predicate BeingRemoved(canonical: seq<CanonEntry>, ops: seq<Op>, b: nat) {
    exists j :: 0 <= j < |ops| && RemovesOf(canonical, ops[j], b)
  }

  /** An alias of `b` that still answers to a canonical entry, or soon will be cleared with it. */
  ghost predicate Live<A>(s: Sys<A>, key: AliasKey, b: nat) {
    (Listed(s.t.canonical, key, b) || BeingCleared(s.ops, b)) && !BeingRemoved(s.t.canonical, s.ops, b)
  }

  ghost predicate Story<A>(s: Sys<A>, a: AliasEntry, op: nat, p: nat, r: nat) {
    && p < r < |s.log|
    && s.log[p] == Filed(op, a.bucket)
    && s.log[r] == Put(op, a.key, a.bucket)
    && (GoneBetween(s.log, p, r, a.bucket) || Live(s, a.key, a.bucket))
  }

  ghost predicate AliasExplained<A>(s: Sys<A>, a: AliasEntry) {
    exists op, p, r :: Story(s, a, op, p, r)
  }

  function KeyOf(hs: Hasher, op: Op): AliasKey
    requires op.Creator?
  {
    AliasKey(Print(hs, op.attrs), op.attrs)
  }

  ghost predicate Pending<A>(s: Sys<A>, key: AliasKey, b: nat, op: nat, p: nat) {
    && p < |s.log| && s.log[p] == Filed(op, b)
    && (GoneBetween(s.log, p, |s.log|, b) || Live(s, key, b))
  }

  predicate Midway(op: Op) {
    op.Creator? && (op.cp.WantAlias? || op.cp.HoldAlias?)
  }

  /** A call between its two critical sections. */
  ghost predicate CreatorExplained<A>(hs: Hasher, s: Sys<A>, j: nat)
    requires j < |s.ops|
  {
    Midway(s.ops[j]) ==> exists p :: Pending(s, KeyOf(hs, s.ops[j]), s.ops[j].cp.bucket, j, p)
  }

  /** Buckets are handed out once. */
  ghost predicate BucketsApart(canonical: seq<CanonEntry>, cells: nat) {
    && (forall i :: 0 <= i < |canonical| ==> canonical[i].bucket < cells)
    && (forall i, j :: 0 <= i < j < |canonical| ==> canonical[i].bucket != canonical[j].bucket)
  }

  ghost predicate Inv<A>(hs: Hasher, s: Sys<A>) {
    && Exclusive(s.ops)
    && Consistent(hs, s.t.aliases)
    && BucketsApart(s.t.canonical, |s.t.cells|)
    && (forall a :: a in s.t.aliases ==> AliasExplained(s, a))
    && (forall j :: 0 <= j < |s.ops| ==> CreatorExplained(hs, s, j))
  }

  // ---------------------------------------------------------------- carrying the explanations along

  /** The step disposed of the buckets in `gone`, recording it if there are any, and of no others. */
  ghost predicate Hands<A>(s: Sys<A>, u: Sys<A>, gone: set<nat>) {
    && |s.log| <= |u.log| && u.log[..|s.log|] == s.log
    && (gone != {} ==> |u.log| == |s.log| + 1 && u.log[|s.log|] == Gone(gone))
    && (forall key, b :: b !in gone && Live(s, key, b) ==> Live(u, key, b))
  }

  lemma GoneLasts(log: seq<Event>, more: seq<Event>, p: nat, r: nat, b: nat)
    requires |log| <= |more| && more[..|log|] == log && GoneBetween(log, p, r, b)
    ensures GoneBetween(more, p, r, b)
  {
    var q :| p < q < r && q < |log| && GoneAt(log, q, b);
    assert more[q] == more[..|log|][q];
    assert GoneAt(more, q, b);
  }

  lemma PendingLasts<A>(s: Sys<A>, u: Sys<A>, gone: set<nat>, key: AliasKey, b: nat, op: nat, p: nat)
    requires Hands(s, u, gone) && Pending(s, key, b, op, p)
    ensures Pending(u, key, b, op, p)
  {
    assert u.log[p] == u.log[..|s.log|][p];
    if GoneBetween(s.log, p, |s.log|, b) {
      GoneLasts(s.log, u.log, p, |s.log|, b);
      var q :| p < q < |s.log| && q < |u.log| && GoneAt(u.log, q, b);
    } else if b in gone {
      assert GoneAt(u.log, |s.log|, b);
    }
  }

  lemma AliasLasts<A>(s: Sys<A>, u: Sys<A>, gone: set<nat>, a: AliasEntry)
    requires Hands(s, u, gone) && AliasExplained(s, a)
    requires a.bucket in gone ==> !Live(s, a.key, a.bucket)
    ensures AliasExplained(u, a)
  {
    var op: nat, p: nat, r: nat :| Story(s, a, op, p, r);
    assert p < r;
    assert r < |s.log|;
    assert |s.log| <= |u.log|;
    assert u.log[p] == u.log[..|s.log|][p] && u.log[r] == u.log[..|s.log|][r];
    if GoneBetween(s.log, p, r, a.bucket) {
      GoneLasts(s.log, u.log, p, r, a.bucket);
    }
    assert Story(u, a, op, p, r);
  }

  /** Operation `j` moved to `op`, and nothing else about the operations changed. */
  ghost predicate Moved<A>(s: Sys<A>, u: Sys<A>, j: nat, op: Op) {
    j < |s.ops| && u.ops == s.ops[j := op]
  }

  lemma LiveLasts<A>(s: Sys<A>, u: Sys<A>, j: nat, op: Op, key: AliasKey, b: nat)
    requires Moved(s, u, j, op) && Live(s, key, b)
    requires Listed(s.t.canonical, key, b) ==> Listed(u.t.canonical, key, b) || ClearsOf(op, b)
    requires ClearsOf(s.ops[j], b) ==> ClearsOf(op, b)
    requires !RemovesOf(u.t.canonical, op, b)
    requires u.t.canonical == s.t.canonical || forall i :: 0 <= i < |s.ops| && i != j ==>
        !RemovesOf(u.t.canonical, s.ops[i], b)
    ensures Live(u, key, b)
  {
    if i :| 0 <= i < |s.ops| && ClearsOf(s.ops[i], b) {
      assert ClearsOf(u.ops[i], b);
    }
    assert ClearsOf(op, b) ==> ClearsOf(u.ops[j], b);
    forall i | 0 <= i < |u.ops| ensures !RemovesOf(u.t.canonical, u.ops[i], b) {
      assert !RemovesOf(s.t.canonical, s.ops[i], b);
    }
  }

  /** The holder of the canonical lock is alone in the phases that hold it. */
  lemma OthersIdle<A>(s: Sys<A>, j: nat, b: nat)
    requires Exclusive(s.ops) && j < |s.ops| && Writes(s.ops[j], Canonical)
    ensures forall i :: 0 <= i < |s.ops| && i != j ==> !ClearsOf(s.ops[i], b)
    ensures forall i, c :: 0 <= i < |s.ops| && i != j ==> !RemovesOf(c, s.ops[i], b)
  {
    forall i | 0 <= i < |s.ops| && i != j
      ensures !ClearsOf(s.ops[i], b) && !(s.ops[i].Drainer? && s.ops[i].dp.Removing?)
    {
      assert !Writes(s.ops[i], Canonical);
    }
  }

  ghost predicate SameCall(before: Op, after: Op) {
    Midway(before) && Midway(after) && after.attrs == before.attrs && after.cp.bucket == before.cp.bucket
  }

  lemma Carry<A>(hs: Hasher, s: Sys<A>, u: Sys<A>, j: nat, op: Op, gone: set<nat>)
    requires Inv(hs, s) && Moved(s, u, j, op) && Hands(s, u, gone)
    requires Exclusive(u.ops) && Consistent(hs, u.t.aliases) && BucketsApart(u.t.canonical, |u.t.cells|)
    requires forall a :: a in u.t.aliases ==>
      AliasExplained(u, a) || (a in s.t.aliases && (a.bucket in gone ==> !Live(s, a.key, a.bucket)))
    requires Midway(op) ==> CreatorExplained(hs, u, j) || SameCall(s.ops[j], op)
    ensures Inv(hs, u)
  {
    forall a | a in u.t.aliases ensures AliasExplained(u, a) {
      if !AliasExplained(u, a) {
        AliasLasts(s, u, gone, a);
      }
    }
    forall i: nat | i < |u.ops| ensures CreatorExplained(hs, u, i) {
      if Midway(u.ops[i]) && !(i == j && CreatorExplained(hs, u, j)) {
        CallLasts(hs, s, u, i, gone);
      }
    }
  }

  lemma CallLasts<A>(hs: Hasher, s: Sys<A>, u: Sys<A>, i: nat, gone: set<nat>)
    requires Hands(s, u, gone) && i < |s.ops| <= |u.ops|
    requires Midway(u.ops[i]) && SameCall(s.ops[i], u.ops[i]) && CreatorExplained(hs, s, i)
    ensures CreatorExplained(hs, u, i)
  {
    var b, key := s.ops[i].cp.bucket, KeyOf(hs, s.ops[i]);
    var p: nat :| Pending(s, key, b, i, p);
    PendingLasts(s, u, gone, key, b, i, p);
    assert Pending(u, KeyOf(hs, u.ops[i]), u.ops[i].cp.bucket, i, p);
  }

  // ---------------------------------------------------------------- each kind of step

  /** Taking a lock, looking up, finishing: the tables stay as they are. */
  lemma QuietStep<A>(hs: Hasher, s: Sys<A>, u: Sys<A>, j: nat, op: Op)
    requires Inv(hs, s) && Moved(s, u, j, op) && Exclusive(u.ops) && u.t == s.t && u.log == s.log
    requires Midway(op) ==> SameCall(s.ops[j], op)
    requires forall b :: (ClearsOf(s.ops[j], b) ==> ClearsOf(op, b)) && !RemovesOf(u.t.canonical, op, b)
    ensures Inv(hs, u)
  {
    forall key, b | Live(s, key, b) ensures Live(u, key, b) {
      LiveLasts(s, u, j, op, key, b);
    }
    Carry(hs, s, u, j, op, {});
  }

  lemma FilingStep<A>(hs: Hasher, init: A, s: Sys<A>, j: nat)
    requires Inv(hs, s) && j < |s.ops| && s.ops[j].Creator? && s.ops[j].cp.HoldCanon?
    requires Exclusive(StepCreator(hs, init, s, j).ops)
    ensures Inv(hs, StepCreator(hs, init, s, j))
  {
    var u := StepCreator(hs, init, s, j);
    var attrs := s.ops[j].attrs;
    var b := InsertCanon(s.t, init, CanonOf(attrs), CanonHash(hs, attrs), AliasOf(hs, attrs)).1;
    InsertCanonListing(s.t, init, CanonOf(attrs), CanonHash(hs, attrs), AliasOf(hs, attrs));
    forall key, c | Live(s, key, c) ensures Live(u, key, c) {
      OthersIdle(s, j, c);
      LiveLasts(s, u, j, u.ops[j], key, c);
    }
    if Midway(u.ops[j]) {
      OthersIdle(s, j, b);
      assert Live(u, KeyOf(hs, u.ops[j]), b);
      assert Pending(u, KeyOf(hs, u.ops[j]), b, j, |s.log|);
    }
    Carry(hs, s, u, j, u.ops[j], {});
  }

  lemma InsertCanonListing<A>(t: Tables<A>, init: A, attrs: seq<KeyValue>, hash: int, alias: Option<AliasKey>)
    requires BucketsApart(t.canonical, |t.cells|)
    ensures var (u, b) := InsertCanon(t, init, attrs, hash, alias);
            && BucketsApart(u.canonical, |u.cells|)
            && u.aliases == t.aliases
            && (alias.Some? ==> Listed(u.canonical, alias.value, b))
            && forall key, c :: Listed(t.canonical, key, c) ==> Listed(u.canonical, key, c)
  {
    var (u, b) := InsertCanon(t, init, attrs, hash, alias);
    forall key, c | Listed(t.canonical, key, c) ensures Listed(u.canonical, key, c) {
      var i :| 0 <= i < |t.canonical| && t.canonical[i].bucket == c && key in t.canonical[i].aliases;
      assert u.canonical[i].bucket == c && key in u.canonical[i].aliases;
    }
    if alias.Some? {
      match FindCanon(t.canonical, hash, attrs)
      case Some(i) => assert u.canonical[i].bucket == b && alias.value in u.canonical[i].aliases;
      case None => assert u.canonical[|t.canonical|].bucket == b && alias.value in u.canonical[|t.canonical|].aliases;
    }
  }

  lemma PuttingStep<A>(hs: Hasher, init: A, s: Sys<A>, j: nat)
    requires Inv(hs, s) && j < |s.ops| && s.ops[j].Creator? && s.ops[j].cp.HoldAlias?
    requires Exclusive(StepCreator(hs, init, s, j).ops)
    ensures Inv(hs, StepCreator(hs, init, s, j))
  {
    var u, key, b := StepCreator(hs, init, s, j), KeyOf(hs, s.ops[j]), s.ops[j].cp.bucket;
    forall key, c | Live(s, key, c) ensures Live(u, key, c) {
      LiveLasts(s, u, j, u.ops[j], key, c);
    }
    if u.t.aliases != s.t.aliases {
      assert CreatorExplained(hs, s, j);
      var p: nat :| Pending(s, key, b, j, p);
      var a := AliasEntry(hs.table(key.fp), key, b);
      assert u.t.aliases == s.t.aliases + [a];
      if GoneBetween(s.log, p, |s.log|, b) {
        GoneLasts(s.log, u.log, p, |s.log|, b);
      }
      assert Story(u, a, j, p, |s.log|);
    }
    Carry(hs, s, u, j, u.ops[j], {});
  }

  /** Carrying the canonical table off: every bucket listed there is now being cleared. */
  lemma ClearingStep<A>(hs: Hasher, s: Sys<A>, j: nat, verdict: bool)
    requires Inv(hs, s) && j < |s.ops| && s.ops[j].Drainer? && s.ops[j].dp.HoldTable? && !s.ops[j].evicting
    requires Exclusive(StepDrainer(hs, s, j, verdict).ops)
    ensures Inv(hs, StepDrainer(hs, s, j, verdict))
  {
    var u := StepDrainer(hs, s, j, verdict);
    forall key, c | Live(s, key, c) ensures Live(u, key, c) {
      OthersIdle(s, j, c);
      LiveLasts(s, u, j, u.ops[j], key, c);
    }
    Carry(hs, s, u, j, u.ops[j], {});
  }

  lemma EmptyingStep<A>(hs: Hasher, s: Sys<A>, j: nat, verdict: bool)
    requires Inv(hs, s) && j < |s.ops| && s.ops[j].Drainer? && s.ops[j].dp.HoldBoth?
    requires Exclusive(StepDrainer(hs, s, j, verdict).ops)
    ensures Inv(hs, StepDrainer(hs, s, j, verdict))
  {
    var u, bs := StepDrainer(hs, s, j, verdict), s.ops[j].dp.buckets;
    forall key, c | c !in bs && Live(s, key, c) ensures Live(u, key, c) {
      LiveLasts(s, u, j, u.ops[j], key, c);
    }
    Carry(hs, s, u, j, u.ops[j], bs);
  }

  /** Removing an entry leaves every other entry listed. */
  lemma WithoutEntryListing<A>(t: Tables<A>, i: nat)
    requires i < |t.canonical| && BucketsApart(t.canonical, |t.cells|)
    ensures BucketsApart(WithoutEntry(t, i).canonical, |t.cells|)
    ensures forall key, b :: b != t.canonical[i].bucket && Listed(t.canonical, key, b) ==>
              Listed(WithoutEntry(t, i).canonical, key, b)
  {
    var u := WithoutEntry(t, i);
    forall key, b | b != t.canonical[i].bucket && Listed(t.canonical, key, b) ensures Listed(u.canonical, key, b) {
      var k :| 0 <= k < |t.canonical| && t.canonical[k].bucket == b && key in t.canonical[k].aliases;
      var l := if k < i then k else k - 1;
      assert u.canonical[l] == t.canonical[k];
    }
  }

  lemma ListedHere(canonical: seq<CanonEntry>, cells: nat, i: nat, key: AliasKey)
    requires BucketsApart(canonical, cells) && i < |canonical|
    ensures Listed(canonical, key, canonical[i].bucket) ==> key in canonical[i].aliases
  {
  }

  /** An entry without aliases is removed at once; nothing in the alias table was live for it. */
  lemma DroppingStep<A>(hs: Hasher, s: Sys<A>, j: nat, verdict: bool)
    requires Inv(hs, s) && j < |s.ops| && s.ops[j].Drainer? && s.ops[j].dp.Visiting?
    requires s.ops[j].dp.i < |s.t.canonical| && !verdict && |s.t.canonical[s.ops[j].dp.i].aliases| == 0
    requires Exclusive(StepDrainer(hs, s, j, verdict).ops)
    ensures Inv(hs, StepDrainer(hs, s, j, verdict))
  {
    var u, i := StepDrainer(hs, s, j, verdict), s.ops[j].dp.i;
    var b := s.t.canonical[i].bucket;
    WithoutEntryListing(s.t, i);
    forall key, c | c != b && Live(s, key, c) ensures Live(u, key, c) {
      OthersIdle(s, j, c);
      LiveLasts(s, u, j, s.ops[j], key, c);
    }
    forall key ensures !Live(s, key, b) {
      OthersIdle(s, j, b);
      ListedHere(s.t.canonical, |s.t.cells|, i, key);
    }
    Carry(hs, s, u, j, s.ops[j], {b});
  }

  lemma RemovedAliases(hs: Hasher, table: seq<AliasEntry>, keys: seq<AliasKey>)
    requires Consistent(hs, table)
    ensures Consistent(hs, RemoveAliases(hs, table, keys))
    ensures forall a :: a in RemoveAliases(hs, table, keys) ==> a in table && a.key !in keys
  {
    RemoveAliasesIsFilter(hs, table, keys);
    FilterMembers(NotPrinted(FpsOf(keys)), table);
    FilterKeepsConsistent(hs, NotPrinted(FpsOf(keys)), table);
  }

  /** The entry's aliases go; every alias of its bucket still in the table is a stale one. */
  lemma UnlistingStep<A>(hs: Hasher, s: Sys<A>, j: nat, verdict: bool)
    requires Inv(hs, s) && j < |s.ops| && s.ops[j].Drainer? && s.ops[j].dp.HoldBothFor?
    requires s.ops[j].dp.i < |s.t.canonical|
    requires Exclusive(StepDrainer(hs, s, j, verdict).ops)
    ensures Inv(hs, StepDrainer(hs, s, j, verdict))
  {
    var u, i := StepDrainer(hs, s, j, verdict), s.ops[j].dp.i;
    var e := s.t.canonical[i];
    forall key, c | c != e.bucket && Live(s, key, c) ensures Live(u, key, c) {
      OthersIdle(s, j, c);
      LiveLasts(s, u, j, u.ops[j], key, c);
    }
    RemovedAliases(hs, s.t.aliases, e.aliases);
    forall a | a in u.t.aliases && a.bucket == e.bucket ensures !Live(s, a.key, a.bucket) {
      OthersIdle(s, j, e.bucket);
      ListedHere(s.t.canonical, |s.t.cells|, i, a.key);
    }
    Carry(hs, s, u, j, u.ops[j], {e.bucket});
  }

  lemma RemovingStep<A>(hs: Hasher, s: Sys<A>, j: nat, verdict: bool)
    requires Inv(hs, s) && j < |s.ops| && s.ops[j].Drainer? && s.ops[j].dp.Removing?
    requires s.ops[j].dp.i < |s.t.canonical|
    requires Exclusive(StepDrainer(hs, s, j, verdict).ops)
    ensures Inv(hs, StepDrainer(hs, s, j, verdict))
  {
    var u, i := StepDrainer(hs, s, j, verdict), s.ops[j].dp.i;
    var b := s.t.canonical[i].bucket;
    WithoutEntryListing(s.t, i);
    assert RemovesOf(s.t.canonical, s.ops[j], b);
    forall key, c | Live(s, key, c) ensures Live(u, key, c) {
      OthersIdle(s, j, c);
      assert c != b;
      LiveLasts(s, u, j, u.ops[j], key, c);
    }
    Carry(hs, s, u, j, u.ops[j], {});
  }

  lemma CreatorKeepsInv<A>(hs: Hasher, init: A, s: Sys<A>, j: nat)
    requires Inv(hs, s) && j < |s.ops| && s.ops[j].Creator?
    requires Exclusive(StepCreator(hs, init, s, j).ops)
    ensures Inv(hs, StepCreator(hs, init, s, j))
  {
    var u := StepCreator(hs, init, s, j);
    match s.ops[j].cp
    case HoldCanon => FilingStep(hs, init, s, j);
    case HoldAlias(_) => PuttingStep(hs, init, s, j);
    case _ => QuietStep(hs, s, u, j, u.ops[j]);
  }

  lemma DrainerKeepsInv<A>(hs: Hasher, s: Sys<A>, j: nat, verdict: bool)
    requires Inv(hs, s) && j < |s.ops| && s.ops[j].Drainer?
    requires Exclusive(StepDrainer(hs, s, j, verdict).ops)
    ensures Inv(hs, StepDrainer(hs, s, j, verdict))
  {
    var op, u := s.ops[j], StepDrainer(hs, s, j, verdict);
    if op.dp.HoldTable? && !op.evicting {
      ClearingStep(hs, s, j, verdict);
    } else if op.dp.HoldBoth? {
      EmptyingStep(hs, s, j, verdict);
    } else if op.dp.Visiting? && op.dp.i < |s.t.canonical| && !verdict && |s.t.canonical[op.dp.i].aliases| == 0 {
      DroppingStep(hs, s, j, verdict);
    } else if op.dp.HoldBothFor? && op.dp.i < |s.t.canonical| {
      UnlistingStep(hs, s, j, verdict);
    } else if op.dp.Removing? && op.dp.i < |s.t.canonical| {
      RemovingStep(hs, s, j, verdict);
    } else {
      QuietStep(hs, s, u, j, u.ops[j]);
    }
  }

  lemma ArrivalKeepsInv<A>(hs: Hasher, s: Sys<A>, op: Op)
    requires Inv(hs, s) && !Midway(op)
    requires forall b :: !ClearsOf(op, b) && !RemovesOf(s.t.canonical, op, b)
    requires Exclusive(s.ops + [op])
    ensures Inv(hs, s.(ops := s.ops + [op]))
  {
    var u := s.(ops := s.ops + [op]);
    forall key, b | Live(s, key, b) ensures Live(u, key, b) {
      forall i | 0 <= i < |u.ops| ensures !RemovesOf(u.t.canonical, u.ops[i], b) {
        assert i < |s.ops| ==> !RemovesOf(s.t.canonical, s.ops[i], b);
      }
      if i :| 0 <= i < |s.ops| && ClearsOf(s.ops[i], b) {
        assert ClearsOf(u.ops[i], b);
      }
    }
    forall a | a in u.t.aliases ensures AliasExplained(u, a) {
      AliasLasts(s, u, {}, a);
    }
    forall i: nat | i < |u.ops| ensures CreatorExplained(hs, u, i) {
      if Midway(u.ops[i]) {
        CallLasts(hs, s, u, i, {});
      }
    }
  }

  lemma StepKeepsInv<A>(hs: Hasher, init: A, s: Sys<A>, a: Action)
    requires Inv(hs, s)
    ensures Inv(hs, Step(hs, init, s, a))
  {
    StepKeepsExclusive(hs, init, s, a);
    match a
    case Create(attrs) => ArrivalKeepsInv(hs, s, Creator(attrs, if |attrs| == 0 then Created(0) else Look(0)));
    case Drain(evicting) => ArrivalKeepsInv(hs, s, Drainer(evicting, WantTable));
    case Advance(j, verdict) =>
      if j < |s.ops| {
        if s.ops[j].Creator? {
          CreatorKeepsInv(hs, init, s, j);
        } else {
          DrainerKeepsInv(hs, s, j, verdict);
        }
      }
  }

  lemma {:induction false} RunKeepsInv<A>(hs: Hasher, init: A, actions: seq<Action>)
    ensures Inv(hs, Run(hs, init, actions))
  {
    if |actions| > 0 {
      RunKeepsInv(hs, init, actions[..|actions| - 1]);
      StepKeepsInv(hs, init, Run(hs, init, actions[..|actions| - 1]), actions[|actions| - 1]);
    }
  }

  // ---------------------------------------------------------------- it does happen

  /** Extends a run by one action. */
  lemma Next<A>(hs: Hasher, init: A, s: Sys<A>, actions: seq<Action>, a: Action) returns (u: Sys<A>, more: seq<Action>)
    requires s == Run(hs, init, actions)
    ensures u == Step(hs, init, s, a) && u == Run(hs, init, more)
  {
    u, more := Step(hs, init, s, a), actions + [a];
    assert more[..|actions|] == actions;
  }

  /** An unsorted pair is looked up in both tables, in vain. */
  lemma LooksInVain<A>(hs: Hasher, init: A, attrs: seq<KeyValue>) returns (s: Sys<A>, actions: seq<Action>)
    requires |attrs| == 2 && !Sorted(PairLe, attrs)
    ensures s == Run(hs, init, actions) && s.t == Tables([], [], [init], false, 0) && s.ops == [Creator(attrs, Look(2))]
  {
    var go := Advance(0, true);
    s, actions := Next(hs, init, Run(hs, init, []), [], Create(attrs));
    s, actions := Next(hs, init, s, actions, go);
    assert s.ops == [Creator(attrs, Reading(0))];
    s, actions := Next(hs, init, s, actions, go);
    assert s.ops == [Creator(attrs, Look(1))];
    s, actions := Next(hs, init, s, actions, go);
    assert s.ops == [Creator(attrs, Reading(1))];
    s, actions := Next(hs, init, s, actions, go);
  }

  lemma FilesItsBucket<A>(hs: Hasher, init: A, attrs: seq<KeyValue>) returns (s: Sys<A>, actions: seq<Action>)
    requires |attrs| == 2 && !Sorted(PairLe, attrs) && CanonOf(attrs) != attrs
    ensures s == Run(hs, init, actions) && s.ops == [Creator(attrs, WantAlias(1))]
  {
    var go := Advance(0, true);
    s, actions := LooksInVain(hs, init, attrs);
    s, actions := Next(hs, init, s, actions, go);
    assert s.ops == [Creator(attrs, WantCanon)];
    s, actions := Next(hs, init, s, actions, go);
    assert s.ops == [Creator(attrs, HoldCanon)];
    s, actions := Next(hs, init, s, actions, go);
  }

  lemma LosesItsBucket<A>(hs: Hasher, init: A, attrs: seq<KeyValue>)
    returns (s: Sys<A>, actions: seq<Action>, buckets: set<nat>)
    requires |attrs| == 2 && !Sorted(PairLe, attrs) && CanonOf(attrs) != attrs
    ensures s == Run(hs, init, actions) && s.t.canonical == []
    ensures s.ops == [Creator(attrs, WantAlias(1)), Drainer(false, NeedAliases(buckets))]
  {
    var drain := Advance(1, true);
    s, actions := FilesItsBucket(hs, init, attrs);
    s, actions := Next(hs, init, s, actions, Drain(false));
    s, actions := Next(hs, init, s, actions, drain);
    assert s.ops == [Creator(attrs, WantAlias(1)), Drainer(false, HoldTable)];
    buckets := Buckets(s.t.canonical);
    s, actions := Next(hs, init, s, actions, drain);
  }

  /** A clear goes through while a call stands between its two critical sections. */
  lemma IsOvertaken<A>(hs: Hasher, init: A, attrs: seq<KeyValue>) returns (s: Sys<A>, actions: seq<Action>)
    requires |attrs| == 2 && !Sorted(PairLe, attrs) && CanonOf(attrs) != attrs
    ensures s == Run(hs, init, actions) && s.ops == [Creator(attrs, WantAlias(1)), Drainer(false, Drained)]
    ensures s.t.canonical == [] && s.t.aliases == []
  {
    var drain := Advance(1, true);
    var buckets: set<nat>;
    s, actions, buckets := LosesItsBucket(hs, init, attrs);
    s, actions := Next(hs, init, s, actions, drain);
    assert s.ops == [Creator(attrs, WantAlias(1)), Drainer(false, HoldBoth(buckets))];
    s, actions := Next(hs, init, s, actions, drain);
    assert s.ops == [Creator(attrs, WantAlias(1)), Drainer(false, DropTable)];
    s, actions := Next(hs, init, s, actions, drain);
  }

  /** The call resumes: from then on the alias answers with a bucket that no visit or take will see. */
  lemma StaleAliasHappens<A>(hs: Hasher, init: A, attrs: seq<KeyValue>) returns (s: Sys<A>, actions: seq<Action>)
    requires |attrs| == 2 && !Sorted(PairLe, attrs)
    ensures s == Run(hs, init, actions) && forall i :: 0 <= i < |s.ops| ==> Over(s.ops[i])
    ensures s.t.canonical == [] && GetBucket(hs, s.t, attrs) == Some(1)
  {
    AttributeOrderIsTotal();
    CanonIsTheSet(PairLe, attrs, attrs);
    s, actions := IsOvertaken(hs, init, attrs);
    s, actions := Next(hs, init, s, actions, Advance(0, true));
    assert s.ops == [Creator(attrs, HoldAlias(1)), Drainer(false, Drained)];
    s, actions := Next(hs, init, s, actions, Advance(0, true));
    assert s.ops == [Creator(attrs, Created(1)), Drainer(false, Drained)];
    assert s.t.aliases == [AliasEntry(hs.table(Print(hs, attrs)), AliasKey(Print(hs, attrs), attrs), 1)];
    assert FindAlias(s.t.aliases, hs.table(Print(hs, attrs)), Print(hs, attrs)) == Some(0);
  }
}
