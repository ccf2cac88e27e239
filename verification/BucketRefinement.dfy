/** The two tables behave as one plain map from attribute set to bucket, over every run of calls. */
module BucketRefinement {
  import opened Wrappers
  import opened Ordering
  import opened Model
  import opened Fingerprint
  import opened BucketTables

  // ---------------------------------------------------------------- the plain map

  /** Keyed by canonical form, which stands for the attribute set; the empty set is kept apart. */
  datatype Plain<A> = Plain(buckets: map<seq<KeyValue>, A>, noAttr: A, touched: bool)

  function Keys(c: seq<CanonEntry>): set<seq<KeyValue>> {
    set i | 0 <= i < |c| :: c[i].attrs
  }

  ghost function IndexOf(c: seq<CanonEntry>, key: seq<KeyValue>): (i: nat)
    requires key in Keys(c)
    ensures i < |c| && c[i].attrs == key
  {
    var i: nat :| i < |c| && c[i].attrs == key; i
  }

  ghost function BucketAt(c: seq<CanonEntry>, key: seq<KeyValue>): nat
    requires key in Keys(c)
  {
    c[IndexOf(c, key)].bucket
  }

  predicate InRange<A>(t: Tables<A>) {
    |t.cells| > 0 && forall i :: 0 <= i < |t.canonical| ==> t.canonical[i].bucket < |t.cells|
  }

  ghost function Abs<A>(t: Tables<A>): Plain<A>
    requires InRange(t)
  {
    Plain(map k | k in Keys(t.canonical) :: t.cells[BucketAt(t.canonical, k)], t.cells[0], t.touched)
  }

  lemma AbsIs<A>(t: Tables<A>, m: map<seq<KeyValue>, A>)
    requires InRange(t) && forall k :: k in m <==> k in Keys(t.canonical)
    requires forall k | k in m :: m[k] == t.cells[BucketAt(t.canonical, k)]
    ensures Abs(t).buckets == m
  {
  }

  lemma EntryIsBucketAt<A>(hs: Hasher, lists: set<seq<KeyValue>>, t: Tables<A>, i: nat)
    requires Valid(hs, lists, t) && i < |t.canonical|
    ensures t.canonical[i].attrs in Keys(t.canonical) && IndexOf(t.canonical, t.canonical[i].attrs) == i
    ensures BucketAt(t.canonical, t.canonical[i].attrs) == t.canonical[i].bucket
  {
    assert t.canonical[i].attrs in Keys(t.canonical);
  }

  // ---------------------------------------------------------------- canonical forms and attribute sets

  /** Two lists are filed under one key exactly when they hold the same attributes. */
  lemma SameKeyIffSameSet(a: seq<KeyValue>, b: seq<KeyValue>)
    ensures CanonOf(a) == CanonOf(b) <==> Elements(a) == Elements(b)
  {
    AttributeOrderIsTotal();
    CanonIsTheSet(PairLe, a, b);
  }

  lemma CanonFacts(attrs: seq<KeyValue>)
    ensures StrictlySorted(PairLe, CanonOf(attrs)) && Elements(CanonOf(attrs)) == Elements(attrs)
    ensures |attrs| > 0 <==> |CanonOf(attrs)| > 0
    ensures StrictlySorted(PairLe, attrs) ==> CanonOf(attrs) == attrs
    ensures |attrs| == 1 ==> CanonOf(attrs) == attrs
  {
    AttributeOrderIsTotal();
    CanonIsTheSet(PairLe, attrs, attrs);
    NoElements(attrs);
    NoElements(CanonOf(attrs));
    if StrictlySorted(PairLe, attrs) {
      CanonOfStrict(PairLe, attrs);
    }
  }

  /** The stored hash is the hash of the canonical form, also when the raw hash was reused. */
  lemma CanonHashIsExact(hs: Hasher, attrs: seq<KeyValue>)
    ensures CanonHash(hs, attrs) == hs.table(Print(hs, CanonOf(attrs)))
  {
    if |CanonOf(attrs)| == |attrs| {
      AttributeOrderIsTotal();
      SortSorts(PairLe, attrs);
      SameMembers(Sort(PairLe, attrs), attrs);
      DedupKeepsLength(Sort(PairLe, attrs));
      FingerprintIgnoresOrder(hs.one, CanonOf(attrs), attrs);
    }
  }

  lemma SameElements(a: seq<KeyValue>, b: seq<KeyValue>)
    requires multiset(a) == multiset(b)
    ensures CanonOf(a) == CanonOf(b)
  {
    SameMembers(a, b);
    assert Elements(a) == Elements(b);
    SameKeyIffSameSet(a, b);
  }

  // ---------------------------------------------------------------- lookups

  lemma LookupCanonSpec<A>(hs: Hasher, lists: set<seq<KeyValue>>, t: Tables<A>, attrs: seq<KeyValue>)
    requires Valid(hs, lists, t)
    ensures LookupCanon(t, hs.table(Print(hs, attrs)), attrs) ==
            if attrs in Keys(t.canonical) then Some(BucketAt(t.canonical, attrs)) else None
  {
    if attrs in Keys(t.canonical) {
      assert CanonOk(hs, |t.cells|, t.canonical[IndexOf(t.canonical, attrs)]);
    }
    var r := FindCanon(t.canonical, hs.table(Print(hs, attrs)), attrs);
    if r.Some? {
      EntryIsBucketAt(hs, lists, t, r.value);
    }
  }

  predicate Known(aliases: seq<AliasEntry>, fp: Fp) {
    exists k :: 0 <= k < |aliases| && aliases[k].key.fp == fp
  }

  lemma LookupDupSpec<A>(hs: Hasher, lists: set<seq<KeyValue>>, t: Tables<A>, attrs: seq<KeyValue>)
    requires Valid(hs, lists, t) && Tells(hs, lists) && attrs in lists
    ensures LookupDup(hs, t, Print(hs, attrs)).Some? <==> Known(t.aliases, Print(hs, attrs))
    ensures Known(t.aliases, Print(hs, attrs)) ==>
      && CanonOf(attrs) in Keys(t.canonical)
      && LookupDup(hs, t, Print(hs, attrs)) == Some(BucketAt(t.canonical, CanonOf(attrs)))
  {
    var fp := Print(hs, attrs);
    if Known(t.aliases, fp) {
      var k :| 0 <= k < |t.aliases| && t.aliases[k].key.fp == fp;
      assert AliasOk(hs, lists, t.canonical, t.aliases[k]);
    }
    var r := FindAlias(t.aliases, hs.table(fp), fp);
    if r.Some? {
      var a := t.aliases[r.value];
      assert AliasOk(hs, lists, t.canonical, a);
      var i :| 0 <= i < |t.canonical| && Owns(t.canonical[i], a);
      SameElements(a.key.attrs, attrs);
      EntryIsBucketAt(hs, lists, t, i);
    }
  }

  /** Whether a lookup that creates nothing finds the list's bucket. */
  predicate Reaches<A>(hs: Hasher, t: Tables<A>, attrs: seq<KeyValue>) {
    attrs in Keys(t.canonical) || (|attrs| > 1 && Known(t.aliases, Print(hs, attrs)))
  }

  /** A lookup never finds a wrong bucket; it finds the right one exactly for the canonical list itself
      and for lists whose fingerprint is a known alias. */
  lemma GetBucketSpec<A>(hs: Hasher, lists: set<seq<KeyValue>>, t: Tables<A>, attrs: seq<KeyValue>)
    requires Valid(hs, lists, t) && Tells(hs, lists) && attrs in lists && |attrs| > 0
    ensures Reaches(hs, t, attrs) ==>
      CanonOf(attrs) in Keys(t.canonical) && GetBucket(hs, t, attrs) == Some(BucketAt(t.canonical, CanonOf(attrs)))
    ensures !Reaches(hs, t, attrs) ==> GetBucket(hs, t, attrs).None?
  {
    LookupCanonSpec(hs, lists, t, attrs);
    LookupDupSpec(hs, lists, t, attrs);
    KeysAreCanonical(hs, lists, t, attrs);
    EitherLookup(hs, t, attrs);
  }

  /** Both lookups that find something find the same bucket, so their order does not matter. */
  lemma EitherLookup<A>(hs: Hasher, t: Tables<A>, attrs: seq<KeyValue>)
    requires |attrs| > 0 && (attrs in Keys(t.canonical) ==> CanonOf(attrs) == attrs)
    requires LookupCanon(t, hs.table(Print(hs, attrs)), attrs) ==
             if attrs in Keys(t.canonical) then Some(BucketAt(t.canonical, attrs)) else None
    requires LookupDup(hs, t, Print(hs, attrs)).Some? <==> Known(t.aliases, Print(hs, attrs))
    requires Known(t.aliases, Print(hs, attrs)) ==>
      && CanonOf(attrs) in Keys(t.canonical)
      && LookupDup(hs, t, Print(hs, attrs)) == Some(BucketAt(t.canonical, CanonOf(attrs)))
    ensures Reaches(hs, t, attrs) ==>
      CanonOf(attrs) in Keys(t.canonical) && GetBucket(hs, t, attrs) == Some(BucketAt(t.canonical, CanonOf(attrs)))
    ensures !Reaches(hs, t, attrs) ==> GetBucket(hs, t, attrs).None?
  {
  }

  lemma KeysAreCanonical<A>(hs: Hasher, lists: set<seq<KeyValue>>, t: Tables<A>, attrs: seq<KeyValue>)
    requires Valid(hs, lists, t)
    ensures attrs in Keys(t.canonical) ==> CanonOf(attrs) == attrs
  {
    if attrs in Keys(t.canonical) {
      assert CanonOk(hs, |t.cells|, t.canonical[IndexOf(t.canonical, attrs)]);
      CanonFacts(attrs);
    }
  }

  // ---------------------------------------------------------------- creating a bucket

  function WithEntry<A>(hs: Hasher, t: Tables<A>, init: A, key: seq<KeyValue>): Tables<A> {
    t.(canonical := t.canonical + [CanonEntry(hs.table(Print(hs, key)), key, |t.cells|, [])],
       cells := t.cells + [init], count := t.count + 1)
  }

  function WithAlias<A>(hs: Hasher, t: Tables<A>, i: nat, key: AliasKey): Tables<A>
    requires i < |t.canonical|
  {
    var e := t.canonical[i];
    t.(canonical := t.canonical[i := e.(aliases := e.aliases + [key])],
       aliases := t.aliases + [AliasEntry(hs.table(key.fp), key, e.bucket)])
  }

  lemma WithEntryValid<A>(hs: Hasher, lists: set<seq<KeyValue>>, t: Tables<A>, init: A, key: seq<KeyValue>)
    requires Valid(hs, lists, t) && key !in Keys(t.canonical) && |key| > 0 && StrictlySorted(PairLe, key)
    ensures Valid(hs, lists, WithEntry(hs, t, init, key))
  {
    var u := WithEntry(hs, t, init, key);
    forall i | 0 <= i < |t.canonical| ensures t.canonical[i].attrs != key && CanonOk(hs, |u.cells|, t.canonical[i]) {
      assert t.canonical[i].attrs in Keys(t.canonical);
      assert CanonOk(hs, |t.cells|, t.canonical[i]);
    }
    OwnersGrow(hs, lists, t.canonical, u.canonical, t.aliases);
    assert EntryListingOk(u.aliases, u.canonical[|t.canonical|]);
  }

  /** Alias entries stay owned while entries only gain aliases or company. */
  lemma OwnersGrow(
    hs: Hasher, lists: set<seq<KeyValue>>, c: seq<CanonEntry>, d: seq<CanonEntry>, aliases: seq<AliasEntry>)
    requires AliasTableOk(hs, lists, c, aliases) && |c| <= |d|
    requires forall i :: 0 <= i < |c| ==>
        d[i].attrs == c[i].attrs && d[i].bucket == c[i].bucket && c[i].aliases <= d[i].aliases
    ensures AliasTableOk(hs, lists, d, aliases)
  {
    forall k | 0 <= k < |aliases| ensures AliasOk(hs, lists, d, aliases[k]) {
      assert AliasOk(hs, lists, c, aliases[k]);
      var i :| 0 <= i < |c| && Owns(c[i], aliases[k]);
      assert Owns(d[i], aliases[k]);
    }
  }

  predicate MayAlias<A>(hs: Hasher, lists: set<seq<KeyValue>>, t: Tables<A>, i: nat, key: AliasKey) {
    && i < |t.canonical| && t.canonical[i].attrs == CanonOf(key.attrs)
    && key.fp == Print(hs, key.attrs) && key.attrs in lists && |key.attrs| > 1 && CanonOf(key.attrs) != key.attrs
    && !Known(t.aliases, key.fp)
  }

  lemma WithAliasAliases<A>(hs: Hasher, lists: set<seq<KeyValue>>, t: Tables<A>, i0: nat, key: AliasKey)
    requires AliasTableOk(hs, lists, t.canonical, t.aliases) && MayAlias(hs, lists, t, i0, key)
    ensures var u := WithAlias(hs, t, i0, key); AliasTableOk(hs, lists, u.canonical, u.aliases)
  {
    var u := WithAlias(hs, t, i0, key);
    OwnersGrow(hs, lists, t.canonical, u.canonical, t.aliases);
    assert Owns(u.canonical[i0], u.aliases[|t.aliases|]);
    forall k | 0 <= k < |u.aliases| ensures AliasOk(hs, lists, u.canonical, u.aliases[k]) {
      if k < |t.aliases| {
        assert AliasOk(hs, lists, u.canonical, t.aliases[k]);
      }
    }
  }

  lemma ListedStaysFiled(aliases: seq<AliasEntry>, a: AliasEntry, bucket: nat, key: AliasKey)
    requires ListedOk(aliases, bucket, key)
    ensures ListedOk(aliases + [a], bucket, key)
  {
    var l :| 0 <= l < |aliases| && aliases[l].key == key && aliases[l].bucket == bucket;
    assert (aliases + [a])[l] == aliases[l];
  }

  lemma WithAliasListing<A>(hs: Hasher, lists: set<seq<KeyValue>>, t: Tables<A>, i0: nat, key: AliasKey)
    requires ListingOk(t.canonical, t.aliases) && MayAlias(hs, lists, t, i0, key)
    ensures var u := WithAlias(hs, t, i0, key); ListingOk(u.canonical, u.aliases)
  {
    var u := WithAlias(hs, t, i0, key);
    forall i | 0 <= i < |u.canonical| ensures EntryListingOk(u.aliases, u.canonical[i]) {
      var was, e := t.canonical[i], u.canonical[i];
      assert EntryListingOk(t.aliases, was);
      forall k | 0 <= k < |was.aliases| ensures was.aliases[k] != key && ListedOk(u.aliases, e.bucket, was.aliases[k]) {
        assert ListedOk(t.aliases, was.bucket, was.aliases[k]);
        ListedStaysFiled(t.aliases, u.aliases[|t.aliases|], was.bucket, was.aliases[k]);
      }
      if i == i0 {
        assert u.aliases[|t.aliases|].key == key && u.aliases[|t.aliases|].bucket == e.bucket;
        assert ListedOk(u.aliases, e.bucket, key);
      }
    }
  }

  lemma WithAliasValid<A>(hs: Hasher, lists: set<seq<KeyValue>>, t: Tables<A>, i0: nat, key: AliasKey)
    requires Valid(hs, lists, t) && MayAlias(hs, lists, t, i0, key)
    ensures Valid(hs, lists, WithAlias(hs, t, i0, key))
  {
    WithAliasAliases(hs, lists, t, i0, key);
    WithAliasListing(hs, lists, t, i0, key);
    forall i | 0 <= i < |t.canonical| ensures CanonOk(hs, |t.cells|, WithAlias(hs, t, i0, key).canonical[i]) {
      assert CanonOk(hs, |t.cells|, t.canonical[i]);
    }
  }

  /** The tables once the list's canonical form is filed. */
  function Filed<A>(hs: Hasher, t: Tables<A>, init: A, attrs: seq<KeyValue>): Tables<A> {
    if CanonOf(attrs) in Keys(t.canonical) then t else WithEntry(hs, t, init, CanonOf(attrs))
  }

  lemma FiledValid<A>(hs: Hasher, lists: set<seq<KeyValue>>, t: Tables<A>, init: A, attrs: seq<KeyValue>)
    requires Valid(hs, lists, t) && |attrs| > 0
    ensures Valid(hs, lists, Filed(hs, t, init, attrs)) && CanonOf(attrs) in Keys(Filed(hs, t, init, attrs).canonical)
    ensures CanonOf(attrs) !in Keys(t.canonical) ==>
        IndexOf(Filed(hs, t, init, attrs).canonical, CanonOf(attrs)) == |t.canonical|
  {
    CanonFacts(attrs);
    if CanonOf(attrs) !in Keys(t.canonical) {
      WithEntryValid(hs, lists, t, init, CanonOf(attrs));
      EntryIsBucketAt(hs, lists, Filed(hs, t, init, attrs), |t.canonical|);
    }
  }

  /** What `get_or_create` does when the list reaches nothing yet: file its canonical form if that is new,
      and then the list itself as an alias if it is not canonical. */
  lemma CreateUnfolds<A>(hs: Hasher, lists: set<seq<KeyValue>>, t: Tables<A>, init: A, attrs: seq<KeyValue>)
    requires Valid(hs, lists, t) && Tells(hs, lists) && attrs in lists && |attrs| > 0 && !Reaches(hs, t, attrs)
    ensures var t1 := Filed(hs, t, init, attrs);
            && CanonOf(attrs) in Keys(t1.canonical)
            && GetOrCreate(hs, t, init, attrs) ==
               (if CanonOf(attrs) == attrs then t1
                else WithAlias(hs, t1, IndexOf(t1.canonical, CanonOf(attrs)), AliasKey(Print(hs, attrs), attrs)),
                BucketAt(t1.canonical, CanonOf(attrs)))
  {
    GetBucketSpec(hs, lists, t, attrs);
    CanonHashIsExact(hs, attrs);
    CanonFacts(attrs);
    FiledValid(hs, lists, t, init, attrs);
    LookupDupSpec(hs, lists, t, attrs);
    if |attrs| == 1 {
      SingleIsNotKnown(hs, lists, t, attrs);
    }
    FoundEntry(hs, lists, t, CanonOf(attrs));
    CreatedTables(hs, t, init, attrs);
  }

  lemma CreatedTables<A>(hs: Hasher, t: Tables<A>, init: A, attrs: seq<KeyValue>)
    requires GetBucket(hs, t, attrs).None? && FindAlias(t.aliases, hs.table(Print(hs, attrs)), Print(hs, attrs)).None?
    requires CanonHash(hs, attrs) == hs.table(Print(hs, CanonOf(attrs)))
    requires FindCanon(t.canonical, hs.table(Print(hs, CanonOf(attrs))), CanonOf(attrs)) ==
             if CanonOf(attrs) in Keys(t.canonical) then Some(IndexOf(t.canonical, CanonOf(attrs))) else None
    requires CanonOf(attrs) in Keys(Filed(hs, t, init, attrs).canonical)
    requires CanonOf(attrs) !in Keys(t.canonical) ==>
        IndexOf(Filed(hs, t, init, attrs).canonical, CanonOf(attrs)) == |t.canonical|
    ensures var t1 := Filed(hs, t, init, attrs);
            GetOrCreate(hs, t, init, attrs) ==
            (if CanonOf(attrs) == attrs then t1
             else WithAlias(hs, t1, IndexOf(t1.canonical, CanonOf(attrs)), AliasKey(Print(hs, attrs), attrs)),
             BucketAt(t1.canonical, CanonOf(attrs)))
  {
    var canon, alias := CanonOf(attrs), AliasOf(hs, attrs);
    var i := IndexOf(Filed(hs, t, init, attrs).canonical, canon);
    if canon in Keys(t.canonical) {
      InsertsIntoEntry(hs, t, init, canon, CanonHash(hs, attrs), alias, i);
    } else {
      InsertsNewEntry(hs, t, init, canon, CanonHash(hs, attrs), alias);
    }
  }

  /** What `insert_canon` leaves of the canonical table, given the entry it finds. */
  lemma InsertsIntoEntry<A>(
    hs: Hasher, t: Tables<A>, init: A, canon: seq<KeyValue>, hash: int, alias: Option<AliasKey>, i: nat)
    requires i < |t.canonical| && FindCanon(t.canonical, hash, canon) == Some(i)
    ensures InsertCanon(t, init, canon, hash, alias) ==
            (if alias.Some? then t.(canonical := WithAlias(hs, t, i, alias.value).canonical) else t,
                t.canonical[i].bucket)
  {
    assert t.canonical[i].(aliases := t.canonical[i].aliases + []) == t.canonical[i];
    assert t.canonical[i := t.canonical[i]] == t.canonical;
  }

  /** And when it finds none. */
  lemma InsertsNewEntry<A>(hs: Hasher, t: Tables<A>, init: A, canon: seq<KeyValue>, hash: int, alias: Option<AliasKey>)
    requires FindCanon(t.canonical, hash, canon).None? && hash == hs.table(Print(hs, canon))
    ensures var t1 := WithEntry(hs, t, init, canon);
            InsertCanon(t, init, canon, hash, alias) ==
            (if alias.Some? then t1.(canonical := WithAlias(hs, t1, |t.canonical|, alias.value).canonical) else t1,
                |t.cells|)
  {
    var t1 := WithEntry(hs, t, init, canon);
    var e := t1.canonical[|t.canonical|];
    if alias.Some? {
      assert e.aliases + [alias.value] == [alias.value];
      assert t.canonical + [e.(aliases := [alias.value])] ==
          t1.canonical[|t.canonical| := e.(aliases := [alias.value])];
    }
  }

  lemma SingleIsNotKnown<A>(hs: Hasher, lists: set<seq<KeyValue>>, t: Tables<A>, attrs: seq<KeyValue>)
    requires Valid(hs, lists, t) && |attrs| == 1
    ensures !Known(t.aliases, Print(hs, attrs))
  {
    forall k | 0 <= k < |t.aliases| ensures t.aliases[k].key.fp != Print(hs, attrs) {
      assert AliasOk(hs, lists, t.canonical, t.aliases[k]);
    }
  }

  lemma FoundEntry<A>(hs: Hasher, lists: set<seq<KeyValue>>, t: Tables<A>, key: seq<KeyValue>)
    requires Valid(hs, lists, t)
    ensures FindCanon(t.canonical, hs.table(Print(hs, key)), key) ==
        if key in Keys(t.canonical) then Some(IndexOf(t.canonical, key)) else None
  {
    if key in Keys(t.canonical) {
      assert CanonOk(hs, |t.cells|, t.canonical[IndexOf(t.canonical, key)]);
    }
    var r := FindCanon(t.canonical, hs.table(Print(hs, key)), key);
    if r.Some? {
      EntryIsBucketAt(hs, lists, t, r.value);
    }
  }

  // ---------------------------------------------------------------- get-or-create and writing, against the plain map

  lemma ValidInRange<A>(hs: Hasher, lists: set<seq<KeyValue>>, t: Tables<A>)
    requires Valid(hs, lists, t)
    ensures InRange(t)
  {
    forall i | 0 <= i < |t.canonical| ensures t.canonical[i].bucket < |t.cells| {
      assert CanonOk(hs, |t.cells|, t.canonical[i]);
    }
  }

  /** Filing an entry or an alias moves no bucket. */
  lemma SameEntriesSameBuckets<A>(hs: Hasher, lists: set<seq<KeyValue>>, t: Tables<A>, u: Tables<A>)
    requires Valid(hs, lists, t) && Valid(hs, lists, u) && |t.canonical| <= |u.canonical|
    requires forall i :: 0 <= i < |t.canonical| ==>
      u.canonical[i].attrs == t.canonical[i].attrs && u.canonical[i].bucket == t.canonical[i].bucket
    ensures Keys(t.canonical) <= Keys(u.canonical)
    ensures forall k | k in Keys(t.canonical) :: BucketAt(u.canonical, k) == BucketAt(t.canonical, k)
  {
    forall k | k in Keys(t.canonical)
      ensures k in Keys(u.canonical) && BucketAt(u.canonical, k) == BucketAt(t.canonical, k)
    {
      var i := IndexOf(t.canonical, k);
      assert u.canonical[i].attrs == k;
      EntryIsBucketAt(hs, lists, u, i);
    }
  }

  ghost predicate Created<A>(t: Tables<A>, u: Tables<A>, b: nat, init: A, key: seq<KeyValue>) {
    && Keys(u.canonical) == Keys(t.canonical) + {key} && b == BucketAt(u.canonical, key)
    && (forall k | k in Keys(t.canonical) :: BucketAt(u.canonical, k) == BucketAt(t.canonical, k))
    && u.cells == (if key in Keys(t.canonical) then t.cells else t.cells + [init])
    && (key !in Keys(t.canonical) ==> b == |t.cells|)
    && u.touched == t.touched
    && u.count - |u.canonical| == t.count - |t.canonical|
  }

  lemma FiledCreates<A>(hs: Hasher, lists: set<seq<KeyValue>>, t: Tables<A>, init: A, attrs: seq<KeyValue>)
    requires Valid(hs, lists, t) && |attrs| > 0
    ensures var t1 := Filed(hs, t, init, attrs);
            CanonOf(attrs) in Keys(t1.canonical)
                && Created(t, t1, BucketAt(t1.canonical, CanonOf(attrs)), init, CanonOf(attrs))
  {
    var t1 := Filed(hs, t, init, attrs);
    FiledValid(hs, lists, t, init, attrs);
    SameEntriesSameBuckets(hs, lists, t, t1);
    forall k | k in Keys(t1.canonical) ensures k in Keys(t.canonical) + {CanonOf(attrs)} {
      var i := IndexOf(t1.canonical, k);
      assert i < |t.canonical| ==> t.canonical[i].attrs in Keys(t.canonical);
    }
  }

  /** `get_or_create` hands out the bucket of the list's attribute set, creating it empty if the set is new,
      and afterwards plain lookups of the same list reach it. */
  lemma GetOrCreateSpec<A>(hs: Hasher, lists: set<seq<KeyValue>>, t: Tables<A>, init: A, attrs: seq<KeyValue>)
    requires Valid(hs, lists, t) && Tells(hs, lists) && attrs in lists && |attrs| > 0
    ensures var (u, b) := GetOrCreate(hs, t, init, attrs);
            && Valid(hs, lists, u) && CanonOf(attrs) in Keys(u.canonical) && Created(t, u, b, init, CanonOf(attrs))
            && Reaches(hs, u, attrs)
  {
    GetBucketSpec(hs, lists, t, attrs);
    if !Reaches(hs, t, attrs) {
      var t1 := Filed(hs, t, init, attrs);
      FiledValid(hs, lists, t, init, attrs);
      FiledCreates(hs, lists, t, init, attrs);
      CreateUnfolds(hs, lists, t, init, attrs);
      if CanonOf(attrs) != attrs {
        AliasCreates(hs, lists, t, init, attrs);
      }
    } else {
      assert Keys(t.canonical) == Keys(t.canonical) + {CanonOf(attrs)};
    }
  }

  lemma AliasCreates<A>(hs: Hasher, lists: set<seq<KeyValue>>, t: Tables<A>, init: A, attrs: seq<KeyValue>)
    requires Valid(hs, lists, t) && attrs in lists && |attrs| > 0 && !Reaches(hs, t, attrs) && CanonOf(attrs) != attrs
    ensures var t1 := Filed(hs, t, init, attrs);
            && CanonOf(attrs) in Keys(t1.canonical)
            && var u := WithAlias(hs, t1, IndexOf(t1.canonical, CanonOf(attrs)), AliasKey(Print(hs, attrs), attrs));
               && Valid(hs, lists, u) && CanonOf(attrs) in Keys(u.canonical)
               && Created(t, u, BucketAt(t1.canonical, CanonOf(attrs)), init, CanonOf(attrs)) && Reaches(hs, u, attrs)
  {
    var t1, key := Filed(hs, t, init, attrs), AliasKey(Print(hs, attrs), attrs);
    FiledValid(hs, lists, t, init, attrs);
    FiledCreates(hs, lists, t, init, attrs);
    CanonFacts(attrs);
    var i := IndexOf(t1.canonical, CanonOf(attrs));
    WithAliasValid(hs, lists, t1, i, key);
    AliasMovesNoBucket(hs, lists, t, t1, init, i, key, CanonOf(attrs));
  }

  lemma AliasMovesNoBucket<A>(
    hs: Hasher, lists: set<seq<KeyValue>>, t: Tables<A>, t1: Tables<A>, init: A, i: nat, key: AliasKey,
    canon: seq<KeyValue>)
    requires Valid(hs, lists, t1) && i < |t1.canonical| && Valid(hs, lists, WithAlias(hs, t1, i, key))
    requires canon in Keys(t1.canonical) && Created(t, t1, BucketAt(t1.canonical, canon), init, canon)
    ensures var u := WithAlias(hs, t1, i, key);
            && canon in Keys(u.canonical) && Created(t, u, BucketAt(t1.canonical, canon), init, canon)
            && Known(u.aliases, key.fp)
  {
    AliasSameBuckets(hs, lists, t1, i, key);
    CreatedThrough(t, t1, WithAlias(hs, t1, i, key), BucketAt(t1.canonical, canon), init, canon);
    LastIsKnown(WithAlias(hs, t1, i, key).aliases);
  }

  lemma AliasSameBuckets<A>(hs: Hasher, lists: set<seq<KeyValue>>, t: Tables<A>, i: nat, key: AliasKey)
    requires Valid(hs, lists, t) && i < |t.canonical| && Valid(hs, lists, WithAlias(hs, t, i, key))
    ensures var u := WithAlias(hs, t, i, key);
            && Keys(u.canonical) == Keys(t.canonical)
            && forall k | k in Keys(t.canonical) :: BucketAt(u.canonical, k) == BucketAt(t.canonical, k)
  {
    var u := WithAlias(hs, t, i, key);
    SameEntriesSameBuckets(hs, lists, t, u);
    SameEntriesSameBuckets(hs, lists, u, t);
  }

  lemma LastIsKnown(aliases: seq<AliasEntry>)
    requires |aliases| > 0
    ensures Known(aliases, aliases[|aliases| - 1].key.fp)
  {
  }

  lemma CreatedThrough<A>(t: Tables<A>, t1: Tables<A>, u: Tables<A>, b: nat, init: A, key: seq<KeyValue>)
    requires key in Keys(t1.canonical) && Created(t, t1, b, init, key) && Keys(u.canonical) == Keys(t1.canonical)
    requires forall k | k in Keys(t1.canonical) :: BucketAt(u.canonical, k) == BucketAt(t1.canonical, k)
    requires u.cells == t1.cells && u.touched == t1.touched && u.count == t1.count && |u.canonical| == |t1.canonical|
    ensures Created(t, u, b, init, key)
  {
  }

  /** `add`, `sub` and `set` all have this shape; `touch` is false for `reset`. */
  function Write<A>(hs: Hasher, t: Tables<A>, init: A, attrs: seq<KeyValue>, f: A -> A, touch: bool): Tables<A>
    requires |t.cells| > 0
  {
    if |attrs| == 0 then t.(cells := t.cells[0 := f(t.cells[0])], touched := t.touched || touch)
    else
      var (u, b) := GetOrCreate(hs, t, init, attrs);
      if b < |u.cells| then u.(cells := u.cells[b := f(u.cells[b])]) else u
  }

  function PlainWrite<A>(p: Plain<A>, init: A, attrs: seq<KeyValue>, f: A -> A, touch: bool): Plain<A> {
    if |attrs| == 0 then p.(noAttr := f(p.noAttr), touched := p.touched || touch)
    else
      var key := CanonOf(attrs);
      p.(buckets := p.buckets[key := f(if key in p.buckets then p.buckets[key] else init)])
  }

  lemma BucketsDiffer(hs: Hasher, cells: nat, c: seq<CanonEntry>, key: seq<KeyValue>)
    requires CanonTableOk(hs, cells, c) && key in Keys(c)
    ensures 0 < BucketAt(c, key) < cells
    ensures forall k | k in Keys(c) && k != key :: BucketAt(c, k) != BucketAt(c, key)
  {
    assert CanonOk(hs, cells, c[IndexOf(c, key)]);
    forall k | k in Keys(c) && k != key ensures BucketAt(c, k) != BucketAt(c, key) {
      assert IndexOf(c, k) != IndexOf(c, key);
    }
  }

  /** Writing one bucket changes the plain map at one key. */
  lemma CellUpdateSpec<A>(hs: Hasher, lists: set<seq<KeyValue>>, u: Tables<A>, key: seq<KeyValue>, v: A)
    requires Valid(hs, lists, u) && key in Keys(u.canonical)
    ensures InRange(u) && 0 < BucketAt(u.canonical, key) < |u.cells|
    ensures var w := u.(cells := u.cells[BucketAt(u.canonical, key) := v]);
            Valid(hs, lists, w) && InRange(w) && Abs(w) == Abs(u).(buckets := Abs(u).buckets[key := v])
  {
    ValidInRange(hs, lists, u);
    BucketsDiffer(hs, |u.cells|, u.canonical, key);
    var w := u.(cells := u.cells[BucketAt(u.canonical, key) := v]);
    ValidInRange(hs, lists, w);
    AbsIs(w, Abs(u).buckets[key := v]);
  }

  ghost predicate WriteOk<A>(hs: Hasher, lists: set<seq<KeyValue>>, t: Tables<A>, u: Tables<A>, p: Plain<A>) {
    && Valid(hs, lists, u) && InRange(u) && Abs(u) == p
    && u.count - |u.canonical| == t.count - |t.canonical|
  }

  /** A write reaches the bucket of its attribute set and no other, whatever order and repetitions the
      caller's list has. */
  lemma WriteRefines<A>(
    hs: Hasher, lists: set<seq<KeyValue>>, t: Tables<A>, init: A, attrs: seq<KeyValue>, f: A -> A, touch: bool)
    requires Valid(hs, lists, t) && Tells(hs, lists) && attrs in lists
    ensures InRange(t)
    ensures WriteOk(hs, lists, t, Write(hs, t, init, attrs, f, touch), PlainWrite(Abs(t), init, attrs, f, touch))
    ensures |attrs| > 0 ==> Reaches(hs, Write(hs, t, init, attrs, f, touch), attrs)
  {
    ValidInRange(hs, lists, t);
    if |attrs| == 0 {
      NoAttrUpdateSpec(hs, lists, t, f(t.cells[0]), t.touched || touch);
    } else {
      GetOrCreateSpec(hs, lists, t, init, attrs);
      var (u, b) := GetOrCreate(hs, t, init, attrs);
      WriteCreated(hs, lists, t, u, b, init, attrs, f, touch);
    }
  }

  lemma WriteCreated<A>(hs: Hasher, lists: set<seq<KeyValue>>, t: Tables<A>, u: Tables<A>, b: nat, init: A,
                        attrs: seq<KeyValue>, f: A -> A, touch: bool)
    requires Valid(hs, lists, t) && InRange(t) && Valid(hs, lists, u) && |attrs| > 0
    requires CanonOf(attrs) in Keys(u.canonical) && Created(t, u, b, init, CanonOf(attrs))
    ensures b < |u.cells|
    ensures WriteOk(hs, lists, t, u.(cells := u.cells[b := f(u.cells[b])]), PlainWrite(Abs(t), init, attrs, f, touch))
  {
    var key := CanonOf(attrs);
    CreatedAbs(hs, lists, t, u, b, init, key);
    var v := f(u.cells[b]);
    CellUpdateSpec(hs, lists, u, key, v);
    UpdateTwice(Abs(t).buckets, key, u.cells[b], v);
  }

  lemma UpdateTwice<A>(m: map<seq<KeyValue>, A>, key: seq<KeyValue>, x: A, y: A)
    ensures m[key := x][key := y] == m[key := y]
  {
  }

  /** A bucket that was missing starts at `init`; nothing else changes. */
  lemma CreatedAbs<A>(
    hs: Hasher, lists: set<seq<KeyValue>>, t: Tables<A>, u: Tables<A>, b: nat, init: A, key: seq<KeyValue>)
    requires Valid(hs, lists, t) && Valid(hs, lists, u) && key in Keys(u.canonical) && Created(t, u, b, init, key)
    ensures InRange(t) && InRange(u) && b < |u.cells|
    ensures u.cells[b] == if key in Abs(t).buckets then Abs(t).buckets[key] else init
    ensures Abs(u) == Abs(t).(buckets := Abs(t).buckets[key := u.cells[b]])
  {
    ValidInRange(hs, lists, t);
    ValidInRange(hs, lists, u);
    AbsIs(u, Abs(t).buckets[key := u.cells[b]]);
  }

  lemma NoAttrUpdateSpec<A>(hs: Hasher, lists: set<seq<KeyValue>>, t: Tables<A>, v: A, touched: bool)
    requires Valid(hs, lists, t)
    ensures var u := t.(cells := t.cells[0 := v], touched := touched);
            && Valid(hs, lists, u) && InRange(t) && InRange(u)
            && Abs(u) == Abs(t).(noAttr := v, touched := touched)
  {
    ValidInRange(hs, lists, t);
    forall k | k in Keys(t.canonical) ensures BucketAt(t.canonical, k) != 0 {
      assert CanonOk(hs, |t.cells|, t.canonical[IndexOf(t.canonical, k)]);
    }
  }
}
