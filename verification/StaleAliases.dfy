/** Which aliases are stale: exactly those whose bucket has been disposed of, and how they came to be filed. */
module StaleAliases {
  import opened Wrappers
  import opened Model
  import opened BucketTables
  import opened BucketLocks

  ghost predicate Has(canonical: seq<CanonEntry>, b: nat) {
    exists i :: 0 <= i < |canonical| && canonical[i].bucket == b
  }

  /** Handed out once and no longer canonical, or about to be removed. */
  ghost predicate Disposed<A>(s: Sys<A>, b: nat) {
    b < |s.t.cells| && (!Has(s.t.canonical, b) || BeingRemoved(s.t.canonical, s.ops, b))
  }

  ghost predicate ClearsOnlyAbsent<A>(s: Sys<A>, op: Op) {
    forall b: nat :: ClearsOf(op, b) ==> b < |s.t.cells| && !Has(s.t.canonical, b)
  }

  /** What the log records as gone is disposed of, and what a drain has carried off is no longer canonical. */
  ghost predicate Kept<A>(s: Sys<A>) {
    && (forall q: nat, b: nat :: GoneAt(s.log, q, b) ==> Disposed(s, b))
    && (forall j :: 0 <= j < |s.ops| ==> ClearsOnlyAbsent(s, s.ops[j]))
  }

  /** A bucket once handed out and then absent stays absent: buckets are never handed out again. */
  ghost predicate AbsentStays<A>(s: Sys<A>, u: Sys<A>) {
    forall b: nat :: b < |s.t.cells| && !Has(s.t.canonical, b) ==> b < |u.t.cells| && !Has(u.t.canonical, b)
  }

  /** The step's own record, if it leaves one, is true after it. */
  ghost predicate RecordsTruly<A>(s: Sys<A>, u: Sys<A>) {
    || u.log == s.log
    || (|u.log| == |s.log| + 1 && u.log[..|s.log|] == s.log
        && forall b: nat :: GoneAt(u.log, |s.log|, b) ==> Disposed(u, b))
  }

  lemma StepKeepsKept<A>(s: Sys<A>, u: Sys<A>, j: nat, op: Op)
    requires Kept(s) && Moved(s, u, j, op) && AbsentStays(s, u) && RecordsTruly(s, u)
    requires forall b: nat :: Disposed(s, b) ==> Disposed(u, b)
    requires ClearsOnlyAbsent(u, op)
    ensures Kept(u)
  {
    forall q: nat, b | GoneAt(u.log, q, b) ensures Disposed(u, b) {
      if q < |s.log| {
        assert u.log[q] == u.log[..|s.log|][q];
        assert GoneAt(s.log, q, b);
      }
    }
    forall i | 0 <= i < |u.ops| ensures ClearsOnlyAbsent(u, u.ops[i]) {
      assert i != j ==> ClearsOnlyAbsent(s, s.ops[i]);
    }
  }

  // ---------------------------------------------------------------- each kind of step

  /** The canonical table is left alone, and an entry being removed is still being removed. */
  lemma TableLeftAlone<A>(s: Sys<A>, u: Sys<A>, j: nat, op: Op)
    requires Kept(s) && Moved(s, u, j, op) && RecordsTruly(s, u)
    requires u.t.canonical == s.t.canonical && u.t.cells == s.t.cells
    requires forall b: nat :: RemovesOf(s.t.canonical, s.ops[j], b) ==> RemovesOf(s.t.canonical, op, b)
    requires forall b: nat :: ClearsOf(op, b) ==> ClearsOf(s.ops[j], b)
    ensures Kept(u)
  {
    forall b: nat | Disposed(s, b) ensures Disposed(u, b) {
      if i :| 0 <= i < |s.ops| && RemovesOf(s.t.canonical, s.ops[i], b) {
        assert RemovesOf(u.t.canonical, u.ops[i], b);
      }
    }
    assert ClearsOnlyAbsent(s, s.ops[j]);
    StepKeepsKept(s, u, j, op);
  }

  /** The holder of the canonical lock changes the table: nobody else is removing anything meanwhile. */
  lemma TableChanged<A>(s: Sys<A>, u: Sys<A>, j: nat, op: Op)
    requires Kept(s) && Moved(s, u, j, op) && AbsentStays(s, u) && RecordsTruly(s, u)
    requires Exclusive(s.ops) && Writes(s.ops[j], Canonical)
    requires forall b: nat :: b < |s.t.cells| && RemovesOf(s.t.canonical, s.ops[j], b) ==> Disposed(u, b)
    requires ClearsOnlyAbsent(u, op)
    ensures Kept(u)
  {
    forall b: nat | Disposed(s, b) ensures Disposed(u, b) {
      OthersIdle(s, j, b);
    }
    StepKeepsKept(s, u, j, op);
  }

  lemma FilingKeepsKept<A>(hs: Hasher, init: A, s: Sys<A>, j: nat)
    requires Kept(s) && Exclusive(s.ops) && j < |s.ops| && s.ops[j].Creator? && s.ops[j].cp.HoldCanon?
    ensures Kept(StepCreator(hs, init, s, j))
  {
    var u, attrs := StepCreator(hs, init, s, j), s.ops[j].attrs;
    FilingKeepsAbsent(s.t, init, CanonOf(attrs), CanonHash(hs, attrs), AliasOf(hs, attrs));
    TableChanged(s, u, j, u.ops[j]);
  }

  lemma FilingKeepsAbsent<A>(t: Tables<A>, init: A, attrs: seq<KeyValue>, hash: int, alias: Option<AliasKey>)
    ensures var u := InsertCanon(t, init, attrs, hash, alias).0;
            forall b: nat :: b < |t.cells| && !Has(t.canonical, b) ==> b < |u.cells| && !Has(u.canonical, b)
  {
    var u := InsertCanon(t, init, attrs, hash, alias).0;
    forall i | 0 <= i < |u.canonical|
      ensures u.canonical[i].bucket == |t.cells| || Has(t.canonical, u.canonical[i].bucket)
    {
      if i < |t.canonical| {
        assert t.canonical[i].bucket == u.canonical[i].bucket;
      }
    }
  }

  lemma ClearingKeepsKept<A>(hs: Hasher, s: Sys<A>, j: nat, verdict: bool)
    requires Kept(s) && Exclusive(s.ops) && BucketsApart(s.t.canonical, |s.t.cells|)
    requires j < |s.ops| && s.ops[j].Drainer? && s.ops[j].dp.HoldTable? && !s.ops[j].evicting
    ensures Kept(StepDrainer(hs, s, j, verdict))
  {
    var u := StepDrainer(hs, s, j, verdict);
    forall b: nat | ClearsOf(u.ops[j], b) ensures b < |u.t.cells| && !Has(u.t.canonical, b) {
      var e :| e in s.t.canonical && e.bucket == b;
    }
    TableChanged(s, u, j, u.ops[j]);
  }

  /** Removing an entry leaves its bucket absent, and every absent bucket absent. */
  lemma WithoutEntryAbsent<A>(t: Tables<A>, i: nat)
    requires i < |t.canonical| && BucketsApart(t.canonical, |t.cells|)
    ensures var u := WithoutEntry(t, i);
            && !Has(u.canonical, t.canonical[i].bucket)
            && forall b: nat :: !Has(t.canonical, b) ==> !Has(u.canonical, b)
  {
    var u := WithoutEntry(t, i);
    forall k | 0 <= k < |u.canonical|
      ensures Has(t.canonical, u.canonical[k].bucket) && u.canonical[k].bucket != t.canonical[i].bucket
    {
      assert u.canonical[k] == t.canonical[if k < i then k else k + 1];
    }
  }

  lemma DroppingKeepsKept<A>(hs: Hasher, s: Sys<A>, j: nat, verdict: bool)
    requires Kept(s) && Exclusive(s.ops) && BucketsApart(s.t.canonical, |s.t.cells|)
    requires j < |s.ops| && s.ops[j].Drainer? && s.ops[j].dp.Visiting? && s.ops[j].dp.i < |s.t.canonical|
    requires !verdict && |s.t.canonical[s.ops[j].dp.i].aliases| == 0
    ensures Kept(StepDrainer(hs, s, j, verdict))
  {
    var u := StepDrainer(hs, s, j, verdict);
    WithoutEntryAbsent(s.t, s.ops[j].dp.i);
    TableChanged(s, u, j, s.ops[j]);
  }

  lemma UnlistingKeepsKept<A>(hs: Hasher, s: Sys<A>, j: nat, verdict: bool)
    requires Kept(s) && BucketsApart(s.t.canonical, |s.t.cells|)
    requires j < |s.ops| && s.ops[j].Drainer? && s.ops[j].dp.HoldBothFor? && s.ops[j].dp.i < |s.t.canonical|
    ensures Kept(StepDrainer(hs, s, j, verdict))
  {
    var u, i := StepDrainer(hs, s, j, verdict), s.ops[j].dp.i;
    assert RemovesOf(u.t.canonical, u.ops[j], s.t.canonical[i].bucket);
    TableLeftAlone(s, u, j, u.ops[j]);
  }

  lemma RemovingKeepsKept<A>(hs: Hasher, s: Sys<A>, j: nat, verdict: bool)
    requires Kept(s) && Exclusive(s.ops) && BucketsApart(s.t.canonical, |s.t.cells|)
    requires j < |s.ops| && s.ops[j].Drainer? && s.ops[j].dp.Removing? && s.ops[j].dp.i < |s.t.canonical|
    ensures Kept(StepDrainer(hs, s, j, verdict))
  {
    var u := StepDrainer(hs, s, j, verdict);
    WithoutEntryAbsent(s.t, s.ops[j].dp.i);
    TableChanged(s, u, j, u.ops[j]);
  }

  /** The drain disposes of buckets that have left the canonical table before. */
  lemma EmptyingKeepsKept<A>(hs: Hasher, s: Sys<A>, j: nat, verdict: bool)
    requires Kept(s) && j < |s.ops| && s.ops[j].Drainer? && s.ops[j].dp.HoldBoth?
    ensures Kept(StepDrainer(hs, s, j, verdict))
  {
    var u := StepDrainer(hs, s, j, verdict);
    forall b: nat | GoneAt(u.log, |s.log|, b) ensures Disposed(u, b) {
      assert ClearsOnlyAbsent(s, s.ops[j]) && ClearsOf(s.ops[j], b);
    }
    TableLeftAlone(s, u, j, u.ops[j]);
  }

  // ---------------------------------------------------------------- every reachable state

  lemma CreatorKeepsKept<A>(hs: Hasher, init: A, s: Sys<A>, j: nat)
    requires Kept(s) && Inv(hs, s) && j < |s.ops| && s.ops[j].Creator?
    ensures Kept(StepCreator(hs, init, s, j))
  {
    if s.ops[j].cp.HoldCanon? {
      FilingKeepsKept(hs, init, s, j);
    } else {
      var u := StepCreator(hs, init, s, j);
      TableLeftAlone(s, u, j, u.ops[j]);
    }
  }

  lemma DrainerKeepsKept<A>(hs: Hasher, s: Sys<A>, j: nat, verdict: bool)
    requires Kept(s) && Inv(hs, s) && j < |s.ops| && s.ops[j].Drainer?
    ensures Kept(StepDrainer(hs, s, j, verdict))
  {
    var op, u := s.ops[j], StepDrainer(hs, s, j, verdict);
    if op.dp.HoldTable? && !op.evicting {
      ClearingKeepsKept(hs, s, j, verdict);
    } else if op.dp.HoldBoth? {
      EmptyingKeepsKept(hs, s, j, verdict);
    } else if op.dp.Visiting? && op.dp.i < |s.t.canonical| && !verdict && |s.t.canonical[op.dp.i].aliases| == 0 {
      DroppingKeepsKept(hs, s, j, verdict);
    } else if op.dp.HoldBothFor? && op.dp.i < |s.t.canonical| {
      UnlistingKeepsKept(hs, s, j, verdict);
    } else if op.dp.Removing? && op.dp.i < |s.t.canonical| {
      RemovingKeepsKept(hs, s, j, verdict);
    } else {
      TableLeftAlone(s, u, j, u.ops[j]);
    }
  }

  lemma ArrivalKeepsKept<A>(s: Sys<A>, op: Op)
    requires Kept(s) && forall b: nat :: !ClearsOf(op, b)
    ensures Kept(s.(ops := s.ops + [op]))
  {
    var u := s.(ops := s.ops + [op]);
    forall b: nat | Disposed(s, b) ensures Disposed(u, b) {
      if i :| 0 <= i < |s.ops| && RemovesOf(s.t.canonical, s.ops[i], b) {
        assert RemovesOf(u.t.canonical, u.ops[i], b);
      }
    }
    forall i | 0 <= i < |u.ops| ensures ClearsOnlyAbsent(u, u.ops[i]) {
      assert i < |s.ops| ==> ClearsOnlyAbsent(s, s.ops[i]);
    }
  }

  lemma {:induction false} RunKeepsKept<A>(hs: Hasher, init: A, actions: seq<Action>)
    ensures Kept(Run(hs, init, actions))
  {
    if |actions| > 0 {
      var s, a := Run(hs, init, actions[..|actions| - 1]), actions[|actions| - 1];
      RunKeepsKept(hs, init, actions[..|actions| - 1]);
      RunKeepsInv(hs, init, actions[..|actions| - 1]);
      match a
      case Create(attrs) => ArrivalKeepsKept(s, Creator(attrs, if |attrs| == 0 then Created(0) else Look(0)));
      case Drain(evicting) => ArrivalKeepsKept(s, Drainer(evicting, WantTable));
      case Advance(j, verdict) =>
        if j < |s.ops| && s.ops[j].Creator? {
          CreatorKeepsKept(hs, init, s, j);
        } else if j < |s.ops| {
          DrainerKeepsKept(hs, s, j, verdict);
        }
    }
  }

  // ---------------------------------------------------------------- the main result

  ghost predicate WasDisposedOf<A>(s: Sys<A>, b: nat) {
    exists q: nat :: GoneAt(s.log, q, b)
  }

  /** The bucket was filed by `op`, disposed of, and only then given the alias by `op`. */
  ghost predicate Overtaken(log: seq<Event>, a: AliasEntry, op: nat, filed: nat, gone: nat, put: nat) {
    && filed < gone < put < |log|
    && log[filed] == Filed(op, a.bucket) && GoneAt(log, gone, a.bucket) && log[put] == Put(op, a.key, a.bucket)
  }

  /** While nobody holds the canonical lock for writing, a filed alias's bucket is no longer canonical exactly
      when a clear, take or eviction has disposed of it; and then the alias comes from a call that filed the
      bucket before, and put the alias after, that disposal. */
  lemma StaleIffDisposedOf<A>(hs: Hasher, init: A, actions: seq<Action>, a: AliasEntry)
      returns (op: nat, filed: nat, gone: nat, put: nat)
    requires var s := Run(hs, init, actions); a in s.t.aliases && FreeToRead(s.ops, Canonical)
    ensures var s := Run(hs, init, actions);
            && (a.bucket !in Buckets(s.t.canonical) <==> WasDisposedOf(s, a.bucket))
            && (a.bucket !in Buckets(s.t.canonical) ==> Overtaken(s.log, a, op, filed, gone, put))
  {
    var s := Run(hs, init, actions);
    op, filed, gone, put := 0, 0, 0, 0;
    if a.bucket !in Buckets(s.t.canonical) {
      op, filed, gone, put := StaleAliasStory(hs, init, actions, a);
    }
    if WasDisposedOf(s, a.bucket) {
      RunKeepsKept(hs, init, actions);
      assert Disposed(s, a.bucket);
      NoneRemoving(s, a.bucket);
      AbsentIsNoBucket(s.t.canonical, a.bucket);
    }
  }

  lemma NoneRemoving<A>(s: Sys<A>, b: nat)
    requires FreeToRead(s.ops, Canonical)
    ensures !BeingRemoved(s.t.canonical, s.ops, b)
  {
    forall i | 0 <= i < |s.ops| ensures !RemovesOf(s.t.canonical, s.ops[i], b) {
      assert !Writes(s.ops[i], Canonical);
    }
  }

  lemma AbsentIsNoBucket(canonical: seq<CanonEntry>, b: nat)
    requires !Has(canonical, b)
    ensures b !in Buckets(canonical)
  {
  }

  /** A stale alias was overtaken. */
  lemma StaleAliasStory<A>(hs: Hasher, init: A, actions: seq<Action>, a: AliasEntry)
      returns (op: nat, filed: nat, gone: nat, put: nat)
    requires var s := Run(hs, init, actions);
             a in s.t.aliases && FreeToRead(s.ops, Canonical) && a.bucket !in Buckets(s.t.canonical)
    ensures Overtaken(Run(hs, init, actions).log, a, op, filed, gone, put)
  {
    var s := Run(hs, init, actions);
    RunKeepsInv(hs, init, actions);
    var o: nat, p: nat, r: nat :| Story(s, a, o, p, r);
    NotLive(s, a.key, a.bucket);
    var q: nat :| p < q < r && q < |s.log| && GoneAt(s.log, q, a.bucket);
    op, filed, gone, put := o, p, q, r;
  }

  lemma NotLive<A>(s: Sys<A>, key: AliasKey, b: nat)
    requires FreeToRead(s.ops, Canonical) && b !in Buckets(s.t.canonical)
    ensures !Live(s, key, b)
  {
    forall i | 0 <= i < |s.ops| ensures !ClearsOf(s.ops[i], b) {
      assert !Writes(s.ops[i], Canonical);
    }
    forall i | 0 <= i < |s.t.canonical| ensures s.t.canonical[i].bucket != b {
      assert s.t.canonical[i] in s.t.canonical;
    }
  }
}
