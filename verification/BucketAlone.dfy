/** A call that nobody interrupts: split at its lock regions it does what the undivided call does. */
module BucketAlone {
  import opened Model
  import opened BucketTables
  import opened BucketLocks

  // ---------------------------------------------------------------- running one call

  /** What the eviction's callback says of the entry being visited. */
  function Verdict<A>(s: Sys<A>, j: nat, keep: (seq<KeyValue>, A) -> bool): bool
    requires j < |s.ops|
  {
    var op := s.ops[j];
    && op.Drainer? && op.dp.Visiting? && op.dp.i < |s.t.canonical|
    && s.t.canonical[op.dp.i].bucket < |s.t.cells|
    && keep(s.t.canonical[op.dp.i].attrs, s.t.cells[s.t.canonical[op.dp.i].bucket])
  }

  /** One step of the call. */
  function Mover<A>(hs: Hasher, init: A, j: nat, keep: (seq<KeyValue>, A) -> bool): Sys<A> -> Sys<A> {
    (s: Sys<A>) => if j < |s.ops| then Step(hs, init, s, Advance(j, Verdict(s, j, keep))) else s
  }

  function Repeat<S>(step: S -> S, s: S, n: nat): S
    decreases n
  {
    if n == 0 then s else Repeat(step, step(s), n - 1)
  }

  lemma {:induction false} RepeatOn<S>(step: S -> S, s: S, m: nat, n: nat)
    ensures Repeat(step, s, m + n) == Repeat(step, Repeat(step, s, m), n)
    decreases m
  {
    if m > 0 {
      RepeatOn(step, step(s), m - 1, n);
    }
  }

  /** The call makes `n` steps in a row. */
  function Advances<A>(
    hs: Hasher, init: A, s: Sys<A>, j: nat, keep: (seq<KeyValue>, A) -> bool, n: nat): Sys<A>
  {
    Repeat(Mover(hs, init, j, keep), s, n)
  }

  /** None of these calls holds a lock. */
  predicate Quiet(ops: seq<Op>) {
    forall i, table :: 0 <= i < |ops| ==> !Writes(ops[i], table) && !Reads(ops[i], table)
  }

  function Beside<A>(t: Tables<A>, idle: seq<Op>, op: Op, log: seq<Event>): Sys<A> {
    Sys(t, idle + [op], log)
  }

  /** From one state of the call, with the others idle, it gets to another in `n` steps. */
  ghost predicate Gets<A>(
    hs: Hasher, init: A, idle: seq<Op>, keep: (seq<KeyValue>, A) -> bool, s: Sys<A>, u: Sys<A>, n: nat)
  {
    Advances(hs, init, s, |idle|, keep, n) == u
  }

  lemma GetsOn<A>(
    hs: Hasher, init: A, idle: seq<Op>, keep: (seq<KeyValue>, A) -> bool, s: Sys<A>, u: Sys<A>, v: Sys<A>, m: nat,
    n: nat)
    requires Gets(hs, init, idle, keep, s, u, m) && Gets(hs, init, idle, keep, u, v, n)
    ensures Gets(hs, init, idle, keep, s, v, m + n)
  {
    RepeatOn(Mover(hs, init, |idle|, keep), s, m, n);
  }

  lemma StepOnce<A>(
    hs: Hasher, init: A, t: Tables<A>, idle: seq<Op>, op: Op, log: seq<Event>,
    keep: (seq<KeyValue>, A) -> bool, u: Tables<A>, next: Op, more: seq<Event>)
    requires Quiet(idle) && (op.Creator? <==> next.Creator?)
    requires var s, j := Beside(t, idle, op, log), |idle|;
             (if op.Creator? then StepCreator(hs, init, s, j) else StepDrainer(hs, s, j, Verdict(s, j, keep))) ==
             Sys(u, s.ops[j := next], more)
    ensures Gets(hs, init, idle, keep, Beside(t, idle, op, log), Beside(u, idle, next, more), 1)
  {
    var s, j := Beside(t, idle, op, log), |idle|;
    assert s.ops[j := next] == idle + [next];
    assert Mover(hs, init, j, keep)(s) == Beside(u, idle, next, more);
    assert Repeat(Mover(hs, init, j, keep), Beside(u, idle, next, more), 0) == Beside(u, idle, next, more);
  }

  lemma Free(idle: seq<Op>, op: Op, table: Table)
    requires Quiet(idle) && !Writes(op, table)
    ensures FreeToRead(idle + [op], table)
    ensures !Reads(op, table) ==> FreeToWrite(idle + [op], table)
  {
  }

  // ---------------------------------------------------------------- finding or creating

  /** The lookups find what the undivided lookup finds, or get to the point of wanting the lock. */
  lemma LooksUp<A>(
    hs: Hasher, init: A, idle: seq<Op>, keep: (seq<KeyValue>, A) -> bool, t: Tables<A>, attrs: seq<KeyValue>,
    log: seq<Event>) returns (n: nat)
    requires Quiet(idle) && |attrs| > 0
    ensures var found := GetBucket(hs, t, attrs);
            Gets(hs, init, idle, keep, Beside(t, idle, Creator(attrs, Look(0)), log),
                 Beside(t, idle, Creator(attrs, if found.Some? then Created(found.value) else WantCanon), log), n)
  {
    var lookups := Lookups(attrs);
    n := LooksIn(hs, init, idle, keep, t, attrs, log, 0);
    if Lookup(hs, t, attrs, lookups[0]).None? {
      if |lookups| > 1 {
        var more := LooksIn(hs, init, idle, keep, t, attrs, log, 1);
        GetsOn(hs, init, idle, keep, Beside(t, idle, Creator(attrs, Look(0)), log),
               Beside(t, idle, Creator(attrs, Look(1)), log),
               Beside(t, idle, Creator(attrs, AfterLook(hs, t, attrs, 1)), log), n, more);
        n := n + more;
      }
      if |lookups| == 1 || Lookup(hs, t, attrs, lookups[1]).None? {
        var op := Creator(attrs, Look(|lookups|));
        StepOnce(hs, init, t, idle, op, log, keep, t, Creator(attrs, WantCanon), log);
        GetsOn(hs, init, idle, keep, Beside(t, idle, Creator(attrs, Look(0)), log), Beside(t, idle, op, log),
               Beside(t, idle, Creator(attrs, WantCanon), log), n, 1);
        n := n + 1;
      }
    }
  }

  function AfterLook<A>(hs: Hasher, t: Tables<A>, attrs: seq<KeyValue>, k: nat): CreatorPhase
    requires k < |Lookups(attrs)|
  {
    var found := Lookup(hs, t, attrs, Lookups(attrs)[k]);
    if found.Some? then Created(found.value) else Look(k + 1)
  }

  lemma LooksIn<A>(
    hs: Hasher, init: A, idle: seq<Op>, keep: (seq<KeyValue>, A) -> bool, t: Tables<A>, attrs: seq<KeyValue>,
    log: seq<Event>, k: nat) returns (n: nat)
    requires Quiet(idle) && k < |Lookups(attrs)|
    ensures Gets(hs, init, idle, keep, Beside(t, idle, Creator(attrs, Look(k)), log),
                 Beside(t, idle, Creator(attrs, AfterLook(hs, t, attrs, k)), log), n)
  {
    var look, reading := Creator(attrs, Look(k)), Creator(attrs, Reading(k));
    Free(idle, look, Lookups(attrs)[k]);
    StepOnce(hs, init, t, idle, look, log, keep, t, reading, log);
    StepOnce(hs, init, t, idle, reading, log, keep, t, Creator(attrs, AfterLook(hs, t, attrs, k)), log);
    GetsOn(hs, init, idle, keep, Beside(t, idle, look, log), Beside(t, idle, reading, log),
           Beside(t, idle, Creator(attrs, AfterLook(hs, t, attrs, k)), log), 1, 1);
    n := 2;
  }

  /** The tables and the bucket are those of the undivided call. */
  ghost predicate Made<A>(hs: Hasher, init: A, idle: seq<Op>, t: Tables<A>, attrs: seq<KeyValue>, v: Sys<A>) {
    var (u, b) := GetOrCreate(hs, t, init, attrs);
    v.t == u && v.ops == idle + [Creator(attrs, Created(b))]
  }

  /** From wanting the lock on, the call files what the undivided call files. */
  lemma Files<A>(
    hs: Hasher, init: A, idle: seq<Op>, keep: (seq<KeyValue>, A) -> bool, t: Tables<A>, attrs: seq<KeyValue>,
    log: seq<Event>) returns (n: nat, v: Sys<A>)
    requires Quiet(idle) && |attrs| > 0 && GetBucket(hs, t, attrs).None?
    ensures Gets(hs, init, idle, keep, Beside(t, idle, Creator(attrs, WantCanon), log), v, n)
    ensures Made(hs, init, idle, t, attrs, v)
  {
    var want, hold := Creator(attrs, WantCanon), Creator(attrs, HoldCanon);
    var alias := AliasOf(hs, attrs);
    var (t1, b) := InsertCanon(t, init, CanonOf(attrs), CanonHash(hs, attrs), alias);
    var filed := log + [Filed(|idle|, b)];
    Free(idle, want, Canonical);
    StepOnce(hs, init, t, idle, want, log, keep, t, hold, log);
    var next := Creator(attrs, if alias.Some? then WantAlias(b) else Created(b));
    StepOnce(hs, init, t, idle, hold, log, keep, t1, next, filed);
    GetsOn(hs, init, idle, keep,
           Beside(t, idle, want, log), Beside(t, idle, hold, log), Beside(t1, idle, next, filed), 1, 1);
    n, v := 2, Beside(t1, idle, next, filed);
    if alias.Some? {
      var more := FilesAlias(hs, init, idle, keep, t1, attrs, filed, b);
      v := Beside(InsertDup(hs, t1, alias.value, b), idle, Creator(attrs, Created(b)), more);
      GetsOn(hs, init, idle, keep, Beside(t, idle, want, log), Beside(t1, idle, next, filed), v, 2, 2);
      n := 4;
    }
  }

  lemma FilesAlias<A>(
    hs: Hasher, init: A, idle: seq<Op>, keep: (seq<KeyValue>, A) -> bool, t: Tables<A>, attrs: seq<KeyValue>,
    log: seq<Event>, b: nat) returns (more: seq<Event>)
    requires Quiet(idle) && AliasOf(hs, attrs).Some?
    ensures Gets(hs, init, idle, keep, Beside(t, idle, Creator(attrs, WantAlias(b)), log),
                 Beside(InsertDup(hs, t, AliasOf(hs, attrs).value, b), idle, Creator(attrs, Created(b)), more), 2)
  {
    var want, hold := Creator(attrs, WantAlias(b)), Creator(attrs, HoldAlias(b));
    var key := AliasKey(Print(hs, attrs), attrs);
    Free(idle, want, Alias);
    StepOnce(hs, init, t, idle, want, log, keep, t, hold, log);
    more := if FindAlias(t.aliases, hs.table(key.fp), key.fp).None? then log + [Put(|idle|, key, b)] else log;
    StepOnce(hs, init, t, idle, hold, log, keep, InsertDup(hs, t, key, b), Creator(attrs, Created(b)), more);
    GetsOn(hs, init, idle, keep, Beside(t, idle, want, log), Beside(t, idle, hold, log),
           Beside(InsertDup(hs, t, key, b), idle, Creator(attrs, Created(b)), more), 1, 1);
  }

  /** Uninterrupted, a call that finds or creates leaves the tables and gets the bucket that the undivided call
      does. */
  lemma CreatesAsOne<A>(hs: Hasher, init: A, s: Sys<A>, attrs: seq<KeyValue>, keep: (seq<KeyValue>, A) -> bool)
      returns (n: nat, u: Sys<A>)
    requires Quiet(s.ops)
    ensures u == Advances(hs, init, Step(hs, init, s, Create(attrs)), |s.ops|, keep, n)
    ensures Made(hs, init, s.ops, s.t, attrs, u)
  {
    if |attrs| == 0 {
      n, u := 0, Step(hs, init, s, Create(attrs));
    } else {
      n, u := LooksThenFiles(hs, init, s.ops, keep, s.t, attrs, s.log);
    }
  }

  lemma LooksThenFiles<A>(
    hs: Hasher, init: A, idle: seq<Op>, keep: (seq<KeyValue>, A) -> bool, t: Tables<A>, attrs: seq<KeyValue>,
    log: seq<Event>) returns (n: nat, v: Sys<A>)
    requires Quiet(idle) && |attrs| > 0
    ensures Gets(hs, init, idle, keep, Beside(t, idle, Creator(attrs, Look(0)), log), v, n)
    ensures Made(hs, init, idle, t, attrs, v)
  {
    var first, found := Beside(t, idle, Creator(attrs, Look(0)), log), GetBucket(hs, t, attrs);
    n := LooksUp(hs, init, idle, keep, t, attrs, log);
    if found.Some? {
      v := Beside(t, idle, Creator(attrs, Created(found.value)), log);
    } else {
      var m;
      m, v := Files(hs, init, idle, keep, t, attrs, log);
      GetsOn(hs, init, idle, keep, first, Beside(t, idle, Creator(attrs, WantCanon), log), v, n, m);
      n := n + m;
    }
  }

  // ---------------------------------------------------------------- clearing

  /** Uninterrupted, clearing or taking leaves both tables empty. */
  lemma ClearsAsOne<A>(hs: Hasher, init: A, s: Sys<A>, keep: (seq<KeyValue>, A) -> bool) returns (u: Sys<A>)
    requires Quiet(s.ops)
    ensures u == Advances(hs, init, Step(hs, init, s, Drain(false)), |s.ops|, keep, 5)
    ensures u.t == s.t.(canonical := [], aliases := []) && u.ops == s.ops + [Drainer(false, Drained)]
  {
    var idle, t, log := s.ops, s.t, s.log;
    var bs := Buckets(t.canonical);
    var want, hold, need := Drainer(false, WantTable), Drainer(false, HoldTable), Drainer(false, NeedAliases(bs));
    var both, drop, over := Drainer(false, HoldBoth(bs)), Drainer(false, DropTable), Drainer(false, Drained);
    var t1 := t.(canonical := []);
    var t2 := t1.(aliases := []);
    var more := log + [Gone(bs)];
    assert Step(hs, init, s, Drain(false)) == Beside(t, idle, want, log);
    Free(idle, want, Canonical);
    StepOnce(hs, init, t, idle, want, log, keep, t, hold, log);
    StepOnce(hs, init, t, idle, hold, log, keep, t1, need, log);
    Free(idle, need, Alias);
    StepOnce(hs, init, t1, idle, need, log, keep, t1, both, log);
    StepOnce(hs, init, t1, idle, both, log, keep, t2, drop, more);
    StepOnce(hs, init, t2, idle, drop, more, keep, t2, over, more);
    GetsOn(hs, init, idle, keep,
           Beside(t, idle, want, log), Beside(t, idle, hold, log), Beside(t1, idle, need, log), 1, 1);
    GetsOn(hs, init, idle, keep,
           Beside(t, idle, want, log), Beside(t1, idle, need, log), Beside(t1, idle, both, log), 2, 1);
    GetsOn(hs, init, idle, keep,
           Beside(t, idle, want, log), Beside(t1, idle, both, log), Beside(t2, idle, drop, more), 3, 1);
    GetsOn(hs, init, idle, keep,
           Beside(t, idle, want, log), Beside(t2, idle, drop, more), Beside(t2, idle, over, more), 4, 1);
    u := Beside(t2, idle, over, more);
  }

  // ---------------------------------------------------------------- evicting

  predicate InCells<A>(t: Tables<A>) {
    forall i :: 0 <= i < |t.canonical| ==> t.canonical[i].bucket < |t.cells|
  }

  /** The tables once the first `m` entries have been visited. */
  function After<A>(hs: Hasher, t: Tables<A>, keep: (seq<KeyValue>, A) -> bool, m: nat): Tables<A>
    requires InCells(t) && m <= |t.canonical|
  {
    var (kept, aliases) := Retain(hs, t, keep, m);
    t.(canonical := kept + t.canonical[m..], aliases := aliases)
  }

  /** Where the visit then stands. */
  function Place<A>(hs: Hasher, t: Tables<A>, keep: (seq<KeyValue>, A) -> bool, m: nat): Op
    requires InCells(t) && m <= |t.canonical|
  {
    Drainer(true, Visiting(|Retain(hs, t, keep, m).0|))
  }

  /** One more entry is visited: kept, or removed with its aliases. */
  lemma VisitsOne<A>(
    hs: Hasher, init: A, idle: seq<Op>, keep: (seq<KeyValue>, A) -> bool, t: Tables<A>, m: nat, log: seq<Event>)
      returns (n: nat, more: seq<Event>)
    requires Quiet(idle) && InCells(t) && m < |t.canonical|
    ensures Gets(hs, init, idle, keep, Beside(After(hs, t, keep, m), idle, Place(hs, t, keep, m), log),
                 Beside(After(hs, t, keep, m + 1), idle, Place(hs, t, keep, m + 1), more), n)
  {
    var u, v := After(hs, t, keep, m), After(hs, t, keep, m + 1);
    var op, next := Place(hs, t, keep, m), Place(hs, t, keep, m + 1);
    var i, e := op.dp.i, t.canonical[m];
    assert u.canonical[i] == e;
    if keep(e.attrs, t.cells[e.bucket]) {
      assert v.canonical == u.canonical;
      StepOnce(hs, init, u, idle, op, log, keep, v, next, log);
      n, more := 1, log;
    } else {
      assert WithoutEntry(u, i).canonical == v.canonical;
      more := log + [Gone({e.bucket})];
      if |e.aliases| == 0 {
        StepOnce(hs, init, u, idle, op, log, keep, v, next, more);
        n := 1;
      } else {
        n := RemovesOne(hs, init, idle, keep, u, i, log, v);
      }
    }
  }

  lemma RemovesOne<A>(
    hs: Hasher, init: A, idle: seq<Op>, keep: (seq<KeyValue>, A) -> bool, u: Tables<A>, i: nat, log: seq<Event>,
    v: Tables<A>) returns (n: nat)
    requires Quiet(idle) && i < |u.canonical| && |u.canonical[i].aliases| > 0 && u.canonical[i].bucket < |u.cells|
    requires !keep(u.canonical[i].attrs, u.cells[u.canonical[i].bucket])
    requires v == WithoutEntry(u, i).(aliases := RemoveAliases(hs, u.aliases, u.canonical[i].aliases))
    ensures Gets(hs, init, idle, keep, Beside(u, idle, Drainer(true, Visiting(i)), log),
                 Beside(v, idle, Drainer(true, Visiting(i)), log + [Gone({u.canonical[i].bucket})]), n)
  {
    var more := log + [Gone({u.canonical[i].bucket})];
    var visit, need := Drainer(true, Visiting(i)), Drainer(true, NeedAliasesFor(i));
    var both, remove := Drainer(true, HoldBothFor(i)), Drainer(true, Removing(i));
    var w := u.(aliases := RemoveAliases(hs, u.aliases, u.canonical[i].aliases));
    StepOnce(hs, init, u, idle, visit, log, keep, u, need, log);
    Free(idle, need, Alias);
    StepOnce(hs, init, u, idle, need, log, keep, u, both, log);
    StepOnce(hs, init, u, idle, both, log, keep, w, remove, more);
    StepOnce(hs, init, w, idle, remove, more, keep, v, visit, more);
    GetsOn(hs, init, idle, keep,
           Beside(u, idle, visit, log), Beside(u, idle, need, log), Beside(u, idle, both, log), 1, 1);
    GetsOn(hs, init, idle, keep,
           Beside(u, idle, visit, log), Beside(u, idle, both, log), Beside(w, idle, remove, more), 2, 1);
    GetsOn(hs, init, idle, keep,
           Beside(u, idle, visit, log), Beside(w, idle, remove, more), Beside(v, idle, visit, more), 3, 1);
    n := 4;
  }

  lemma {:induction false} VisitsAll<A>(
    hs: Hasher, init: A, idle: seq<Op>, keep: (seq<KeyValue>, A) -> bool, t: Tables<A>, m: nat, log: seq<Event>)
      returns (n: nat, more: seq<Event>)
    requires Quiet(idle) && InCells(t) && m <= |t.canonical|
    ensures Gets(hs, init, idle, keep, Beside(After(hs, t, keep, 0), idle, Place(hs, t, keep, 0), log),
                 Beside(After(hs, t, keep, m), idle, Place(hs, t, keep, m), more), n)
    decreases m
  {
    if m == 0 {
      n, more := 0, log;
    } else {
      n, more := VisitsAll(hs, init, idle, keep, t, m - 1, log);
      var k, last := VisitsOne(hs, init, idle, keep, t, m - 1, more);
      GetsOn(hs, init, idle, keep, Beside(After(hs, t, keep, 0), idle, Place(hs, t, keep, 0), log),
             Beside(After(hs, t, keep, m - 1), idle, Place(hs, t, keep, m - 1), more),
             Beside(After(hs, t, keep, m), idle, Place(hs, t, keep, m), last), n, k);
      n, more := n + k, last;
    }
  }

  lemma StartsVisit<A>(
    hs: Hasher, init: A, idle: seq<Op>, keep: (seq<KeyValue>, A) -> bool, t: Tables<A>, log: seq<Event>)
    requires Quiet(idle)
    ensures Gets(hs, init, idle, keep, Beside(t, idle, Drainer(true, WantTable), log),
                 Beside(t, idle, Drainer(true, Visiting(0)), log), 2)
  {
    var want, hold, visit := Drainer(true, WantTable), Drainer(true, HoldTable), Drainer(true, Visiting(0));
    Free(idle, want, Canonical);
    StepOnce(hs, init, t, idle, want, log, keep, t, hold, log);
    StepOnce(hs, init, t, idle, hold, log, keep, t, visit, log);
    GetsOn(hs, init, idle, keep,
           Beside(t, idle, want, log), Beside(t, idle, hold, log), Beside(t, idle, visit, log), 1, 1);
  }

  lemma EndsVisit<A>(
    hs: Hasher, init: A, idle: seq<Op>, keep: (seq<KeyValue>, A) -> bool, t: Tables<A>, i: nat, log: seq<Event>)
    requires Quiet(idle) && i == |t.canonical|
    ensures Gets(hs, init, idle, keep, Beside(t, idle, Drainer(true, Visiting(i)), log),
                 Beside(t, idle, Drainer(true, Drained), log), 2)
  {
    var visit, drop, over := Drainer(true, Visiting(i)), Drainer(true, DropTable), Drainer(true, Drained);
    StepOnce(hs, init, t, idle, visit, log, keep, t, drop, log);
    StepOnce(hs, init, t, idle, drop, log, keep, t, over, log);
    GetsOn(hs, init, idle, keep,
           Beside(t, idle, visit, log), Beside(t, idle, drop, log), Beside(t, idle, over, log), 1, 1);
  }

  /** Uninterrupted, an eviction leaves the tables that the undivided visit leaves. */
  lemma EvictsAsOne<A>(hs: Hasher, init: A, s: Sys<A>, keep: (seq<KeyValue>, A) -> bool) returns (n: nat, u: Sys<A>)
    requires Quiet(s.ops) && InCells(s.t)
    ensures u == Advances(hs, init, Step(hs, init, s, Drain(true)), |s.ops|, keep, n)
    ensures var (kept, aliases) := Retain(hs, s.t, keep, |s.t.canonical|);
            u.t == s.t.(canonical := kept, aliases := aliases) && u.ops == s.ops + [Drainer(true, Drained)]
  {
    var idle, t, log, len := s.ops, s.t, s.log, |s.t.canonical|;
    var first := Beside(t, idle, Drainer(true, WantTable), log);
    var start := Beside(t, idle, Drainer(true, Visiting(0)), log);
    StartsVisit(hs, init, idle, keep, t, log);
    assert After(hs, t, keep, 0).canonical == t.canonical;
    var k, more := VisitsAll(hs, init, idle, keep, t, len, log);
    var v := After(hs, t, keep, len);
    var visited := Beside(v, idle, Place(hs, t, keep, len), more);
    assert v.canonical == Retain(hs, t, keep, len).0;
    EndsVisit(hs, init, idle, keep, v, |v.canonical|, more);
    u := Beside(v, idle, Drainer(true, Drained), more);
    GetsOn(hs, init, idle, keep, first, start, visited, 2, k);
    GetsOn(hs, init, idle, keep, first, visited, u, 2 + k, 2);
    n := 4 + k;
  }
}
