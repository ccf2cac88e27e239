/** The two tables behind a metric, as values: what each critical section of the bucket map does to them.

    A hash table is the list of its entries, found by stored hash and predicate. Buckets are shared
    references, so they live in `cells` and are named by index; bucket 0 is the one without attributes. */
module BucketTables {
  import opened Wrappers
  import opened Ordering
  import opened Model
  import opened Fingerprint

  /** How elements and fingerprints are hashed; nothing is known about either function. */
  datatype Hasher = Hasher(one: KeyValue -> bv64, table: Fp -> int)

  datatype AliasKey = AliasKey(fp: Fp, attrs: seq<KeyValue>)

  datatype CanonEntry = CanonEntry(hash: int, attrs: seq<KeyValue>, bucket: nat, aliases: seq<AliasKey>)

  datatype AliasEntry = AliasEntry(hash: int, key: AliasKey, bucket: nat)

  datatype Tables<A> = Tables(
    canonical: seq<CanonEntry>, aliases: seq<AliasEntry>, cells: seq<A>, touched: bool, count: int)

  function Print(hs: Hasher, attrs: seq<KeyValue>): Fp {
    Commutative(hs.one, attrs)
  }

  /** Sorted and deduplicated. */
  function CanonOf(attrs: seq<KeyValue>): seq<KeyValue> {
    Canon(PairLe, attrs)
  }

  // ---------------------------------------------------------------- lookups

  function FindCanon(table: seq<CanonEntry>, hash: int, attrs: seq<KeyValue>): (r: Option<nat>)
    ensures r.Some? ==> r.value < |table| && table[r.value].hash == hash && table[r.value].attrs == attrs
    ensures r.None? ==> forall i :: 0 <= i < |table| ==> !(table[i].hash == hash && table[i].attrs == attrs)
  {
    if |table| == 0 then None
    else
      var n := |table| - 1;
      if table[n].hash == hash && table[n].attrs == attrs then Some(n)
      else FindCanon(table[..n], hash, attrs)
  }

  /** An alias matches by fingerprint alone. */
  function FindAlias(table: seq<AliasEntry>, hash: int, fp: Fp): (r: Option<nat>)
    ensures r.Some? ==> r.value < |table| && table[r.value].hash == hash && table[r.value].key.fp == fp
    ensures r.None? ==> forall i :: 0 <= i < |table| ==> !(table[i].hash == hash && table[i].key.fp == fp)
  {
    if |table| == 0 then None
    else
      var n := |table| - 1;
      if table[n].hash == hash && table[n].key.fp == fp then Some(n)
      else FindAlias(table[..n], hash, fp)
  }

  function LookupCanon<A>(t: Tables<A>, hash: int, attrs: seq<KeyValue>): Option<nat> {
    match FindCanon(t.canonical, hash, attrs)
    case Some(i) => Some(t.canonical[i].bucket)
    case None => None
  }

  function LookupDup<A>(hs: Hasher, t: Tables<A>, fp: Fp): Option<nat> {
    match FindAlias(t.aliases, hs.table(fp), fp)
    case Some(i) => Some(t.aliases[i].bucket)
    case None => None
  }

  function OrElse(a: Option<nat>, b: Option<nat>): Option<nat> {
    if a.Some? then a else b
  }

  function GetBucket<A>(hs: Hasher, t: Tables<A>, attrs: seq<KeyValue>): Option<nat> {
    if |attrs| == 0 then Some(0)
    else
      var fp := Print(hs, attrs);
      var canon := LookupCanon(t, hs.table(fp), attrs);
      if |attrs| == 1 then canon
      else if Sorted(PairLe, attrs) then OrElse(canon, LookupDup(hs, t, fp))
      else OrElse(LookupDup(hs, t, fp), canon)
  }

  // ---------------------------------------------------------------- insertions

  function InsertCanon<A>(
    t: Tables<A>, init: A, attrs: seq<KeyValue>, hash: int, alias: Option<AliasKey>): (Tables<A>, nat)
  {
    var more := if alias.Some? then [alias.value] else [];
    match FindCanon(t.canonical, hash, attrs)
    case Some(i) =>
      var e := t.canonical[i];
      (t.(canonical := t.canonical[i := e.(aliases := e.aliases + more)]), e.bucket)
    case None =>
      var b := |t.cells|;
      (t.(canonical := t.canonical + [CanonEntry(hash, attrs, b, more)], cells := t.cells + [init],
          count := t.count + 1), b)
  }

  function InsertDup<A>(hs: Hasher, t: Tables<A>, key: AliasKey, bucket: nat): Tables<A> {
    if FindAlias(t.aliases, hs.table(key.fp), key.fp).Some? then t
    else t.(aliases := t.aliases + [AliasEntry(hs.table(key.fp), key, bucket)])
  }

  /** The hash `get_or_create` stores: the raw one is reused when deduplication removed nothing. */
  function CanonHash(hs: Hasher, attrs: seq<KeyValue>): int {
    if |CanonOf(attrs)| != |attrs| then hs.table(Print(hs, CanonOf(attrs))) else hs.table(Print(hs, attrs))
  }

  function AliasOf(hs: Hasher, attrs: seq<KeyValue>): Option<AliasKey> {
    if CanonOf(attrs) != attrs then Some(AliasKey(Print(hs, attrs), attrs)) else None
  }

  function GetOrCreate<A>(hs: Hasher, t: Tables<A>, init: A, attrs: seq<KeyValue>): (Tables<A>, nat) {
    match GetBucket(hs, t, attrs)
    case Some(b) => (t, b)
    case None =>
      var alias := AliasOf(hs, attrs);
      var (t1, b) := InsertCanon(t, init, CanonOf(attrs), CanonHash(hs, attrs), alias);
      (if alias.Some? then InsertDup(hs, t1, alias.value, b) else t1, b)
  }

  // ---------------------------------------------------------------- draining

  function Clear<A>(t: Tables<A>, init: A): Tables<A>
    requires |t.cells| > 0
  {
    t.(canonical := [], aliases := [], cells := t.cells[0 := init], touched := false, count := 0)
  }

  /** `take` hands the canonical table over and resets the bucket without attributes; `count` is left. */
  function Take<A>(t: Tables<A>, init: A): Tables<A>
    requires |t.cells| > 0
  {
    t.(canonical := [], aliases := [], cells := t.cells[0 := init], touched := false)
  }

  function RemoveAlias(hs: Hasher, table: seq<AliasEntry>, key: AliasKey): seq<AliasEntry> {
    match FindAlias(table, hs.table(key.fp), key.fp)
    case Some(i) => table[..i] + table[i + 1..]
    case None => table
  }

  function RemoveAliases(hs: Hasher, table: seq<AliasEntry>, keys: seq<AliasKey>): seq<AliasEntry> {
    if |keys| == 0 then table
    else RemoveAlias(hs, RemoveAliases(hs, table, keys[..|keys| - 1]), keys[|keys| - 1])
  }

  /** The entries a visitor keeps, and the alias table once the evicted entries' aliases are gone. */
  function Retain<A>(
    hs: Hasher, t: Tables<A>, keep: (seq<KeyValue>, A) -> bool, n: nat): (seq<CanonEntry>, seq<AliasEntry>)
    requires n <= |t.canonical| && forall i :: 0 <= i < |t.canonical| ==> t.canonical[i].bucket < |t.cells|
  {
    if n == 0 then ([], t.aliases)
    else
      var (kept, aliases) := Retain(hs, t, keep, n - 1);
      var e := t.canonical[n - 1];
      if keep(e.attrs, t.cells[e.bucket]) then (kept + [e], aliases) else (kept, RemoveAliases(hs, aliases, e.aliases))
  }

  function Visit<A>(hs: Hasher, t: Tables<A>, init: A, keep: (seq<KeyValue>, A) -> bool): Tables<A>
    requires |t.cells| > 0 && forall i :: 0 <= i < |t.canonical| ==> t.canonical[i].bucket < |t.cells|
  {
    var (kept, aliases) := Retain(hs, t, keep, |t.canonical|);
    var u := t.(canonical := kept, aliases := aliases, count := t.count - (|t.canonical| - |kept|));
    if t.touched && !keep([], t.cells[0]) then u.(cells := u.cells[0 := init], touched := false) else u
  }

  /** What the callback sees, in order. */
  function Visited<A>(t: Tables<A>): seq<(seq<KeyValue>, A)>
    requires |t.cells| > 0 && forall i :: 0 <= i < |t.canonical| ==> t.canonical[i].bucket < |t.cells|
  {
    seq(|t.canonical|, i requires 0 <= i < |t.canonical| => (t.canonical[i].attrs, t.cells[t.canonical[i].bucket]))
    + if t.touched then [([], t.cells[0])] else []
  }

  // ---------------------------------------------------------------- the invariant between calls

  /** The lists that reach the alias table; no two with different contents share a fingerprint. */
  ghost predicate Tells(hs: Hasher, lists: set<seq<KeyValue>>) {
    forall a, b :: a in lists && b in lists && Print(hs, a) == Print(hs, b) ==> multiset(a) == multiset(b)
  }

  predicate CanonOk(hs: Hasher, cells: nat, e: CanonEntry) {
    && |e.attrs| > 0 && StrictlySorted(PairLe, e.attrs)
    && e.hash == hs.table(Print(hs, e.attrs))
    && 0 < e.bucket < cells
  }

  /** An alias entry is listed on the live canonical entry of its bucket, which holds its canonical form. */
  predicate AliasOk(hs: Hasher, lists: set<seq<KeyValue>>, canonical: seq<CanonEntry>, a: AliasEntry) {
    && a.hash == hs.table(a.key.fp) && a.key.fp == Print(hs, a.key.attrs)
    && a.key.attrs in lists && |a.key.attrs| > 1 && CanonOf(a.key.attrs) != a.key.attrs
    && exists i :: 0 <= i < |canonical| && Owns(canonical[i], a)
  }

  predicate Owns(e: CanonEntry, a: AliasEntry) {
    e.attrs == CanonOf(a.key.attrs) && e.bucket == a.bucket && a.key in e.aliases
  }

  predicate ListedOk(aliases: seq<AliasEntry>, bucket: nat, key: AliasKey) {
    exists k :: 0 <= k < |aliases| && aliases[k].key == key && aliases[k].bucket == bucket
  }

  /** Canonical entries: each well-formed, no two for one set, no two with one bucket. */
  predicate CanonTableOk(hs: Hasher, cells: nat, canonical: seq<CanonEntry>) {
    && (forall i :: 0 <= i < |canonical| ==> CanonOk(hs, cells, canonical[i]))
    && (forall i, j :: 0 <= i < j < |canonical| ==>
          canonical[i].attrs != canonical[j].attrs && canonical[i].bucket != canonical[j].bucket)
  }

  /** Alias entries: each owned by a live canonical entry, no two with one fingerprint. */
  predicate AliasTableOk(hs: Hasher, lists: set<seq<KeyValue>>, canonical: seq<CanonEntry>, aliases: seq<AliasEntry>) {
    && (forall k :: 0 <= k < |aliases| ==> AliasOk(hs, lists, canonical, aliases[k]))
    && (forall k, l :: 0 <= k < l < |aliases| ==> aliases[k].key.fp != aliases[l].key.fp)
  }

  predicate EntryListingOk(aliases: seq<AliasEntry>, e: CanonEntry) {
    && (forall k :: 0 <= k < |e.aliases| ==> ListedOk(aliases, e.bucket, e.aliases[k]))
    && (forall k, l :: 0 <= k < l < |e.aliases| ==> e.aliases[k] != e.aliases[l])
  }

  /** Aliases listed on canonical entries: each filed in the alias table, none listed twice. */
  predicate ListingOk(canonical: seq<CanonEntry>, aliases: seq<AliasEntry>) {
    forall i :: 0 <= i < |canonical| ==> EntryListingOk(aliases, canonical[i])
  }

  predicate Valid<A>(hs: Hasher, lists: set<seq<KeyValue>>, t: Tables<A>) {
    && |t.cells| > 0
    && |t.canonical| <= t.count
    && CanonTableOk(hs, |t.cells|, t.canonical)
    && AliasTableOk(hs, lists, t.canonical, t.aliases)
    && ListingOk(t.canonical, t.aliases)
  }
}
