/** Clearing, taking and visiting the bucket map: what is removed, and that nothing else is. */
module BucketDraining {
  import opened Ordering
  import opened Sequences
  import opened Model
  import opened Fingerprint
  import opened BucketTables
  import opened BucketRefinement

  // ---------------------------------------------------------------- removing aliases

  predicate Consistent(hs: Hasher, table: seq<AliasEntry>) {
    && (forall k :: 0 <= k < |table| ==> table[k].hash == hs.table(table[k].key.fp))
    && (forall k, l :: 0 <= k < l < |table| ==> table[k].key.fp != table[l].key.fp)
  }

  function NotPrinted(fps: set<Fp>): AliasEntry -> bool {
    (a: AliasEntry) => a.key.fp !in fps
  }

  function NotOf(buckets: set<nat>): AliasEntry -> bool {
    (a: AliasEntry) => a.bucket !in buckets
  }

  function FpsOf(keys: seq<AliasKey>): set<Fp> {
    set k | k in keys :: k.fp
  }

  lemma FilterKeepsConsistent(hs: Hasher, p: AliasEntry -> bool, table: seq<AliasEntry>)
    requires Consistent(hs, table)
    ensures Consistent(hs, Filter(p, table))
  {
    FilterMembers(p, table);
    forall k | 0 <= k < |Filter(p, table)| ensures Filter(p, table)[k].hash == hs.table(Filter(p, table)[k].key.fp) {
      assert Filter(p, table)[k] in table;
    }
    forall k, l | 0 <= k < l < |Filter(p, table)| ensures Filter(p, table)[k].key.fp != Filter(p, table)[l].key.fp {
      var i, j := FilterKeepsOrder(p, table, k, l);
    }
  }

  lemma RemoveAliasIsFilter(hs: Hasher, table: seq<AliasEntry>, key: AliasKey)
    requires Consistent(hs, table)
    ensures RemoveAlias(hs, table, key) == Filter(NotPrinted({key.fp}), table)
  {
    match FindAlias(table, hs.table(key.fp), key.fp)
    case Some(i) =>
      forall j | 0 <= j < |table| && j != i ensures table[j].key.fp != key.fp {
        if j < i {
        } else {
        }
      }
      FilterDropsOne(NotPrinted({key.fp}), table, i);
    case None => FilterAll(NotPrinted({key.fp}), table);
  }

  lemma {:induction false} RemoveAliasesIsFilter(hs: Hasher, table: seq<AliasEntry>, keys: seq<AliasKey>)
    requires Consistent(hs, table)
    ensures RemoveAliases(hs, table, keys) == Filter(NotPrinted(FpsOf(keys)), table)
  {
    if |keys| == 0 {
      FilterAll(NotPrinted(FpsOf(keys)), table);
    } else {
      var init, last := keys[..|keys| - 1], keys[|keys| - 1];
      RemoveAliasesIsFilter(hs, table, init);
      FilterKeepsConsistent(hs, NotPrinted(FpsOf(init)), table);
      RemoveAliasIsFilter(hs, Filter(NotPrinted(FpsOf(init)), table), last);
      assert keys == init + [last];
      assert FpsOf(keys) == FpsOf(init) + {last.fp};
      FilterTwice(NotPrinted(FpsOf(init)), NotPrinted({last.fp}), NotPrinted(FpsOf(keys)), table);
    }
  }

  // ---------------------------------------------------------------- retaining entries

  function Keeps<A>(cells: seq<A>, keep: (seq<KeyValue>, A) -> bool): CanonEntry -> bool {
    (e: CanonEntry) => e.bucket < |cells| && keep(e.attrs, cells[e.bucket])
  }

  function Evicted<A>(cells: seq<A>, keep: (seq<KeyValue>, A) -> bool, c: seq<CanonEntry>): set<nat> {
    set e | e in c && !Keeps(cells, keep)(e) :: e.bucket
  }

  lemma OwnedIsListed<A>(hs: Hasher, lists: set<seq<KeyValue>>, t: Tables<A>, e: CanonEntry, a: AliasEntry)
    requires CanonTableOk(hs, |t.cells|, t.canonical) && AliasOk(hs, lists, t.canonical, a)
    requires e in t.canonical && a.bucket == e.bucket
    ensures a.key in e.aliases
  {
    var o :| 0 <= o < |t.canonical| && Owns(t.canonical[o], a);
    var i :| 0 <= i < |t.canonical| && t.canonical[i] == e;
    assert i == o;
  }

  lemma ListedIsOwned(aliases: seq<AliasEntry>, e: CanonEntry, a: AliasEntry)
    requires forall k, l :: 0 <= k < l < |aliases| ==> aliases[k].key.fp != aliases[l].key.fp
    requires EntryListingOk(aliases, e) && a in aliases && a.key.fp in FpsOf(e.aliases)
    ensures a.bucket == e.bucket
  {
    var key :| key in e.aliases && key.fp == a.key.fp;
    var m :| 0 <= m < |e.aliases| && e.aliases[m] == key;
    assert ListedOk(aliases, e.bucket, e.aliases[m]);
    var l :| 0 <= l < |aliases| && aliases[l].key == key && aliases[l].bucket == e.bucket;
    var k :| 0 <= k < |aliases| && aliases[k] == a;
    assert l == k;
  }

  /** An alias belongs to an entry's bucket exactly when the entry lists its fingerprint. */
  lemma ListedIffOwned<A>(hs: Hasher, lists: set<seq<KeyValue>>, t: Tables<A>, e: CanonEntry, a: AliasEntry)
    requires Valid(hs, lists, t) && e in t.canonical && a in t.aliases
    ensures a.bucket == e.bucket <==> a.key.fp in FpsOf(e.aliases)
  {
    var k :| 0 <= k < |t.aliases| && t.aliases[k] == a;
    assert AliasOk(hs, lists, t.canonical, t.aliases[k]);
    var i :| 0 <= i < |t.canonical| && t.canonical[i] == e;
    assert EntryListingOk(t.aliases, t.canonical[i]);
    if a.bucket == e.bucket {
      OwnedIsListed(hs, lists, t, e, a);
    } else if a.key.fp in FpsOf(e.aliases) {
      ListedIsOwned(t.aliases, e, a);
    }
  }

  lemma EvictedStep<A>(cells: seq<A>, keep: (seq<KeyValue>, A) -> bool, c: seq<CanonEntry>, e: CanonEntry)
    ensures Evicted(cells, keep, c + [e]) == Evicted(cells, keep, c) + if Keeps(cells, keep)(e) then {} else {e.bucket}
    ensures Filter(Keeps(cells, keep), c + [e]) ==
        Filter(Keeps(cells, keep), c) + if Keeps(cells, keep)(e) then [e] else []
  {
    assert (c + [e])[..|c|] == c;
  }

  /** After the visitor has been through a prefix of the table: the entries it kept, and the aliases of
      every bucket but the evicted ones. */
  ghost predicate Retained<A>(hs: Hasher, t: Tables<A>, keep: (seq<KeyValue>, A) -> bool, n: nat, c: seq<CanonEntry>)
    requires InRange(t) && n <= |t.canonical|
  {
    && Retain(hs, t, keep, n).0 == Filter(Keeps(t.cells, keep), c)
    && Retain(hs, t, keep, n).1 == Filter(NotOf(Evicted(t.cells, keep, c)), t.aliases)
  }

  /** Going through one more entry keeps the description true. */
  ghost predicate RetainsNext<A>(hs: Hasher, t: Tables<A>, keep: (seq<KeyValue>, A) -> bool, n: nat)
    requires InRange(t) && n < |t.canonical|
  {
    Retained(hs, t, keep, n, t.canonical[..n]) ==> Retained(hs, t, keep, n + 1, t.canonical[..n + 1])
  }

  lemma {:induction false} RetainedUpTo<A>(hs: Hasher, t: Tables<A>, keep: (seq<KeyValue>, A) -> bool, n: nat)
    requires InRange(t) && n <= |t.canonical| && Retained(hs, t, keep, 0, t.canonical[..0])
    requires forall k :: 0 <= k < n ==> RetainsNext(hs, t, keep, k)
    ensures Retained(hs, t, keep, n, t.canonical[..n])
  {
    if n > 0 {
      RetainedUpTo(hs, t, keep, n - 1);
      assert RetainsNext(hs, t, keep, n - 1);
    }
  }

  lemma NothingRetained<A>(hs: Hasher, t: Tables<A>, keep: (seq<KeyValue>, A) -> bool)
    requires InRange(t)
    ensures Retained(hs, t, keep, 0, t.canonical[..0])
  {
    assert t.canonical[..0] == [];
    assert Evicted(t.cells, keep, []) == {};
    FilterAll(NotOf({}), t.aliases);
  }

  lemma RetainIsFilter<A>(
    hs: Hasher, lists: set<seq<KeyValue>>, t: Tables<A>, keep: (seq<KeyValue>, A) -> bool, n: nat)
    requires Valid(hs, lists, t) && InRange(t) && n <= |t.canonical|
    ensures Retained(hs, t, keep, n, t.canonical[..n])
  {
    NothingRetained(hs, t, keep);
    forall k | 0 <= k < n ensures RetainsNext(hs, t, keep, k) {
      if Retained(hs, t, keep, k, t.canonical[..k]) {
        RetainMore(hs, lists, t, keep, k, t.canonical[..k]);
        PrefixPush(t.canonical, k);
      }
    }
    RetainedUpTo(hs, t, keep, n);
  }

  lemma RetainMore<A>(
    hs: Hasher, lists: set<seq<KeyValue>>, t: Tables<A>, keep: (seq<KeyValue>, A) -> bool, n: nat, c: seq<CanonEntry>)
    requires Valid(hs, lists, t) && InRange(t) && n < |t.canonical| && Retained(hs, t, keep, n, c)
    ensures Retained(hs, t, keep, n + 1, c + [t.canonical[n]])
  {
    EvictedStep(t.cells, keep, c, t.canonical[n]);
    RetainStep(hs, lists, t, keep, n, c);
  }

  lemma RetainStep<A>(
    hs: Hasher, lists: set<seq<KeyValue>>, t: Tables<A>, keep: (seq<KeyValue>, A) -> bool, n: nat, c: seq<CanonEntry>)
    requires Valid(hs, lists, t) && InRange(t) && n < |t.canonical| && Retained(hs, t, keep, n, c)
    ensures var e := t.canonical[n];
            && Retain(hs, t, keep, n + 1).0 == Retain(hs, t, keep, n).0 + (if Keeps(t.cells, keep)(e) then [e] else [])
            && Retain(hs, t, keep, n + 1).1 ==
               Filter(NotOf(Evicted(t.cells, keep, c) + if Keeps(t.cells, keep)(e) then {} else {e.bucket}), t.aliases)
  {
    var e, gone := t.canonical[n], Evicted(t.cells, keep, c);
    if Keeps(t.cells, keep)(e) {
      assert gone + {} == gone;
    } else {
      EvictOne(hs, lists, t, n, gone);
    }
  }

  lemma ValidConsistent<A>(hs: Hasher, lists: set<seq<KeyValue>>, t: Tables<A>)
    requires Valid(hs, lists, t)
    ensures Consistent(hs, t.aliases)
  {
    forall k | 0 <= k < |t.aliases| ensures t.aliases[k].hash == hs.table(t.aliases[k].key.fp) {
      assert AliasOk(hs, lists, t.canonical, t.aliases[k]);
    }
  }

  lemma EvictOne<A>(hs: Hasher, lists: set<seq<KeyValue>>, t: Tables<A>, i: nat, gone: set<nat>)
    requires Valid(hs, lists, t) && i < |t.canonical|
    ensures RemoveAliases(hs, Filter(NotOf(gone), t.aliases), t.canonical[i].aliases) ==
            Filter(NotOf(gone + {t.canonical[i].bucket}), t.aliases)
  {
    var e := t.canonical[i];
    ValidConsistent(hs, lists, t);
    FilterKeepsConsistent(hs, NotOf(gone), t.aliases);
    RemoveAliasesIsFilter(hs, Filter(NotOf(gone), t.aliases), e.aliases);
    forall a | a in t.aliases
      ensures NotOf(gone + {e.bucket})(a) == (NotOf(gone)(a) && NotPrinted(FpsOf(e.aliases))(a))
    {
      ListedIffOwned(hs, lists, t, e, a);
    }
    FilterTwice(NotOf(gone), NotPrinted(FpsOf(e.aliases)), NotOf(gone + {e.bucket}), t.aliases);
  }

  // ---------------------------------------------------------------- the tables after a visit are consistent

  function KeptEntries<A>(t: Tables<A>, keep: (seq<KeyValue>, A) -> bool): seq<CanonEntry> {
    Filter(Keeps(t.cells, keep), t.canonical)
  }

  function KeptAliases<A>(t: Tables<A>, keep: (seq<KeyValue>, A) -> bool): seq<AliasEntry> {
    Filter(NotOf(Evicted(t.cells, keep, t.canonical)), t.aliases)
  }

  lemma KeptCanon<A>(hs: Hasher, t: Tables<A>, keep: (seq<KeyValue>, A) -> bool)
    requires CanonTableOk(hs, |t.cells|, t.canonical)
    ensures CanonTableOk(hs, |t.cells|, KeptEntries(t, keep)) && |KeptEntries(t, keep)| <= |t.canonical|
  {
    var kept := KeptEntries(t, keep);
    FilterMembers(Keeps(t.cells, keep), t.canonical);
    forall i | 0 <= i < |kept| ensures CanonOk(hs, |t.cells|, kept[i]) {
      var k := FilterSource(Keeps(t.cells, keep), t.canonical, i);
      assert CanonOk(hs, |t.cells|, t.canonical[k]);
    }
    forall i, j | 0 <= i < j < |kept| ensures kept[i].attrs != kept[j].attrs && kept[i].bucket != kept[j].bucket {
      var k, l := FilterKeepsOrder(Keeps(t.cells, keep), t.canonical, i, j);
    }
  }

  lemma KeptIsNotEvicted<A>(hs: Hasher, t: Tables<A>, keep: (seq<KeyValue>, A) -> bool, e: CanonEntry)
    requires CanonTableOk(hs, |t.cells|, t.canonical) && e in t.canonical
    ensures e in KeptEntries(t, keep) <==> e.bucket !in Evicted(t.cells, keep, t.canonical)
  {
    FilterMembers(Keeps(t.cells, keep), t.canonical);
    forall o | o in t.canonical && o.bucket == e.bucket ensures o == e {
      var i :| 0 <= i < |t.canonical| && t.canonical[i] == e;
      var j :| 0 <= j < |t.canonical| && t.canonical[j] == o;
      assert i == j;
    }
  }

  lemma KeptAliasOwned<A>(
    hs: Hasher, lists: set<seq<KeyValue>>, t: Tables<A>, keep: (seq<KeyValue>, A) -> bool, a: AliasEntry)
    requires CanonTableOk(hs, |t.cells|, t.canonical) && AliasOk(hs, lists, t.canonical, a)
    requires a.bucket !in Evicted(t.cells, keep, t.canonical)
    ensures AliasOk(hs, lists, KeptEntries(t, keep), a)
  {
    var i :| 0 <= i < |t.canonical| && Owns(t.canonical[i], a);
    KeptIsNotEvicted(hs, t, keep, t.canonical[i]);
    var kept := KeptEntries(t, keep);
    var k :| 0 <= k < |kept| && kept[k] == t.canonical[i];
    assert Owns(kept[k], a);
  }

  lemma KeptAliasTable<A>(hs: Hasher, lists: set<seq<KeyValue>>, t: Tables<A>, keep: (seq<KeyValue>, A) -> bool)
    requires Valid(hs, lists, t)
    ensures AliasTableOk(hs, lists, KeptEntries(t, keep), KeptAliases(t, keep))
  {
    var p, aliases := NotOf(Evicted(t.cells, keep, t.canonical)), KeptAliases(t, keep);
    FilterMembers(p, t.aliases);
    forall k | 0 <= k < |aliases| ensures AliasOk(hs, lists, KeptEntries(t, keep), aliases[k]) {
      var l := FilterSource(p, t.aliases, k);
      assert aliases[k] in aliases && AliasOk(hs, lists, t.canonical, t.aliases[l]);
      KeptAliasOwned(hs, lists, t, keep, aliases[k]);
    }
    ValidConsistent(hs, lists, t);
    FilterKeepsConsistent(hs, p, t.aliases);
  }

  lemma KeptListing<A>(hs: Hasher, lists: set<seq<KeyValue>>, t: Tables<A>, keep: (seq<KeyValue>, A) -> bool)
    requires Valid(hs, lists, t)
    ensures ListingOk(KeptEntries(t, keep), KeptAliases(t, keep))
  {
    var kept, aliases := KeptEntries(t, keep), KeptAliases(t, keep);
    FilterMembers(Keeps(t.cells, keep), t.canonical);
    FilterMembers(NotOf(Evicted(t.cells, keep, t.canonical)), t.aliases);
    forall i | 0 <= i < |kept| ensures EntryListingOk(aliases, kept[i]) {
      var e := kept[i];
      assert e in kept;
      KeptIsNotEvicted(hs, t, keep, e);
      KeptEntryListing(t, keep, e);
    }
  }

  lemma KeptEntryListing<A>(t: Tables<A>, keep: (seq<KeyValue>, A) -> bool, e: CanonEntry)
    requires ListingOk(t.canonical, t.aliases) && e in t.canonical
    requires e.bucket !in Evicted(t.cells, keep, t.canonical)
    ensures EntryListingOk(KeptAliases(t, keep), e)
  {
    var aliases := KeptAliases(t, keep);
    var i :| 0 <= i < |t.canonical| && t.canonical[i] == e;
    assert EntryListingOk(t.aliases, t.canonical[i]);
    FilterMembers(NotOf(Evicted(t.cells, keep, t.canonical)), t.aliases);
    forall k | 0 <= k < |e.aliases| ensures ListedOk(aliases, e.bucket, e.aliases[k]) {
      assert ListedOk(t.aliases, e.bucket, e.aliases[k]);
      var l :| 0 <= l < |t.aliases| && t.aliases[l].key == e.aliases[k] && t.aliases[l].bucket == e.bucket;
      assert t.aliases[l] in aliases;
      var m :| 0 <= m < |aliases| && aliases[m] == t.aliases[l];
    }
  }

  // ---------------------------------------------------------------- draining, against the plain map

  /** The buckets a callback accepts. */
  function Accepted<A>(m: map<seq<KeyValue>, A>, keep: (seq<KeyValue>, A) -> bool): (r: map<seq<KeyValue>, A>)
    ensures forall k :: k in r <==> k in m && keep(k, m[k])
    ensures forall k | k in r :: r[k] == m[k]
  {
    map k | k in m && keep(k, m[k]) :: m[k]
  }

  function PlainVisit<A>(p: Plain<A>, init: A, keep: (seq<KeyValue>, A) -> bool): Plain<A> {
    var gone := p.touched && !keep([], p.noAttr);
    Plain(Accepted(p.buckets, keep),
          if gone then init else p.noAttr, p.touched && !gone)
  }

  /** A visit removes exactly the buckets its callback rejects, each with exactly its own aliases, and
      takes exactly their number off `count`, which therefore never goes below zero. */
  lemma VisitRefines<A>(hs: Hasher, lists: set<seq<KeyValue>>, t: Tables<A>, init: A, keep: (seq<KeyValue>, A) -> bool)
    requires Valid(hs, lists, t)
    ensures InRange(t) && WriteOk(hs, lists, t, Visit(hs, t, init, keep), PlainVisit(Abs(t), init, keep))
    ensures Visit(hs, t, init, keep).canonical == KeptEntries(t, keep)
    ensures Visit(hs, t, init, keep).aliases == KeptAliases(t, keep)
    ensures 0 <= Visit(hs, t, init, keep).count
  {
    ValidInRange(hs, lists, t);
    RetainIsFilter(hs, lists, t, keep, |t.canonical|);
    assert t.canonical[..|t.canonical|] == t.canonical;
    KeptCanon(hs, t, keep);
    KeptAliasTable(hs, lists, t, keep);
    KeptListing(hs, lists, t, keep);
    var u := t.(canonical := KeptEntries(t, keep), aliases := KeptAliases(t, keep),
                count := t.count - (|t.canonical| - |KeptEntries(t, keep)|));
    assert Valid(hs, lists, u);
    ValidInRange(hs, lists, u);
    KeptAbs(hs, lists, t, keep, u);
    if t.touched && !keep([], t.cells[0]) {
      NoAttrUpdateSpec(hs, lists, u, init, false);
    }
  }

  lemma KeptKey<A>(
    hs: Hasher, lists: set<seq<KeyValue>>, t: Tables<A>, keep: (seq<KeyValue>, A) -> bool, k: seq<KeyValue>)
    requires Valid(hs, lists, t) && InRange(t) && k in Keys(KeptEntries(t, keep))
    ensures k in Keys(t.canonical) && BucketAt(KeptEntries(t, keep), k) == BucketAt(t.canonical, k)
    ensures keep(k, t.cells[BucketAt(t.canonical, k)])
  {
    var i := FilterSource(Keeps(t.cells, keep), t.canonical, IndexOf(KeptEntries(t, keep), k));
    FilterMembers(Keeps(t.cells, keep), t.canonical);
    assert t.canonical[i] in KeptEntries(t, keep);
    EntryIsBucketAt(hs, lists, t, i);
  }

  lemma KeptKeyBack<A>(t: Tables<A>, keep: (seq<KeyValue>, A) -> bool, k: seq<KeyValue>)
    requires InRange(t) && k in Keys(t.canonical) && keep(k, t.cells[BucketAt(t.canonical, k)])
    ensures k in Keys(KeptEntries(t, keep))
  {
    var kept, e := KeptEntries(t, keep), t.canonical[IndexOf(t.canonical, k)];
    FilterMembers(Keeps(t.cells, keep), t.canonical);
    assert e in kept;
    var i: int :| 0 <= i < |kept| && kept[i] == e;
    assert kept[i].attrs in Keys(kept);
  }

  lemma KeptAbs<A>(hs: Hasher, lists: set<seq<KeyValue>>, t: Tables<A>, keep: (seq<KeyValue>, A) -> bool, u: Tables<A>)
    requires Valid(hs, lists, t) && InRange(t) && InRange(u)
    requires u.canonical == KeptEntries(t, keep) && u.cells == t.cells
    ensures Abs(u).buckets == Accepted(Abs(t).buckets, keep)
  {
    var kept := Accepted(Abs(t).buckets, keep);
    forall k ensures k in kept <==> k in Keys(u.canonical) {
      if k in kept {
        KeptKeyBack(t, keep, k);
      }
      if k in Keys(u.canonical) {
        KeptKey(hs, lists, t, keep, k);
      }
    }
    forall k | k in kept ensures kept[k] == u.cells[BucketAt(u.canonical, k)] {
      KeptKey(hs, lists, t, keep, k);
    }
    AbsIs(u, kept);
  }

  /** Clearing and taking both leave an empty map; only clearing resets the counter. */
  lemma DrainRefines<A>(hs: Hasher, lists: set<seq<KeyValue>>, t: Tables<A>, init: A)
    requires Valid(hs, lists, t)
    ensures Valid(hs, lists, Clear(t, init)) && InRange(Clear(t, init))
    ensures Abs(Clear(t, init)) == Plain(map[], init, false)
    ensures Valid(hs, lists, Take(t, init)) && InRange(Take(t, init)) && Abs(Take(t, init)) == Plain(map[], init, false)
    ensures Clear(t, init).count == 0 && Take(t, init).count == t.count
  {
    assert Keys([]) == {};
  }
}
