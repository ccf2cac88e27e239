/** When a lookup that creates nothing is right, told from the calls made rather than from the alias table. */
module BucketGets {
  import opened Ordering
  import opened Model
  import opened Fingerprint
  import opened BucketTables
  import opened BucketRefinement
  import opened BucketDraining
  import opened BucketRuns

  /** The call writes to, or resets, the list's set under the same attributes, repetitions included, in an order
      that is not canonical. */
  ghost predicate UsesAnOrder<A>(call: Call<A>, attrs: seq<KeyValue>) {
    (call.Record? || call.Reset?) && multiset(call.attrs) == multiset(attrs) && CanonOf(call.attrs) != call.attrs
  }

  /** Some call has done so since the set's bucket was last created. */
  ghost predicate UsedSinceCreated<A>(init: A, calls: seq<Call<A>>, attrs: seq<KeyValue>)
    decreases |calls|
  {
    && |calls| > 0
    && CanonOf(attrs) in PlainRun(init, calls).buckets
    && (UsesAnOrder(calls[|calls| - 1], attrs) || UsedSinceCreated(init, calls[..|calls| - 1], attrs))
  }

  // ---------------------------------------------------------------- what each call does to the known fingerprints

  lemma SamePrintIffSameMultiset(hs: Hasher, lists: set<seq<KeyValue>>, a: seq<KeyValue>, b: seq<KeyValue>)
    requires Tells(hs, lists) && a in lists && b in lists
    ensures Print(hs, a) == Print(hs, b) <==> multiset(a) == multiset(b)
  {
    if multiset(a) == multiset(b) {
      FingerprintIgnoresOrder(hs.one, a, b);
    }
  }

  lemma KnownPush(aliases: seq<AliasEntry>, a: AliasEntry, fp: Fp)
    ensures Known(aliases + [a], fp) <==> Known(aliases, fp) || a.key.fp == fp
  {
    if Known(aliases, fp) {
      var k :| 0 <= k < |aliases| && aliases[k].key.fp == fp;
      assert (aliases + [a])[k].key.fp == fp;
    }
    if a.key.fp == fp {
      assert (aliases + [a])[|aliases|].key.fp == fp;
    }
  }

  /** Creating a bucket for a list files its fingerprint unless the list is canonical, and no other. */
  lemma CreatingFiles<A>(
    hs: Hasher, lists: set<seq<KeyValue>>, t: Tables<A>, init: A, attrs: seq<KeyValue>, fp: Fp)
    requires Valid(hs, lists, t) && Tells(hs, lists) && attrs in lists && |attrs| > 0
    ensures Known(GetOrCreate(hs, t, init, attrs).0.aliases, fp) <==>
            Known(t.aliases, fp) || (CanonOf(attrs) != attrs && Print(hs, attrs) == fp)
  {
    GetBucketSpec(hs, lists, t, attrs);
    if Reaches(hs, t, attrs) {
      KeysAreCanonical(hs, lists, t, attrs);
    } else {
      var t1 := Filed(hs, t, init, attrs);
      CreateUnfolds(hs, lists, t, init, attrs);
      if CanonOf(attrs) != attrs {
        var i := IndexOf(t1.canonical, CanonOf(attrs));
        var key := AliasKey(Print(hs, attrs), attrs);
        KnownPush(t.aliases, AliasEntry(hs.table(key.fp), key, t1.canonical[i].bucket), fp);
      }
    }
  }

  lemma WritingFiles<A>(
    hs: Hasher, lists: set<seq<KeyValue>>, t: Tables<A>, init: A, attrs: seq<KeyValue>, f: A -> A, touch: bool, fp: Fp)
    requires Valid(hs, lists, t) && Tells(hs, lists) && attrs in lists
    ensures InRange(t)
    ensures Known(Write(hs, t, init, attrs, f, touch).aliases, fp) <==>
            Known(t.aliases, fp) || (CanonOf(attrs) != attrs && Print(hs, attrs) == fp)
  {
    ValidInRange(hs, lists, t);
    CanonFacts(attrs);
    if |attrs| > 0 {
      CreatingFiles(hs, lists, t, init, attrs, fp);
    }
  }

  /** A visit forgets a fingerprint exactly when it evicts the set's bucket. */
  lemma VisitingForgets<A>(
    hs: Hasher, lists: set<seq<KeyValue>>, t: Tables<A>, init: A, keep: (seq<KeyValue>, A) -> bool,
    attrs: seq<KeyValue>)
    requires Valid(hs, lists, t) && Tells(hs, lists) && attrs in lists
    ensures InRange(t)
    ensures var u := BucketTables.Visit(hs, t, init, keep);
            Known(u.aliases, Print(hs, attrs)) <==>
            Known(t.aliases, Print(hs, attrs)) && CanonOf(attrs) in Keys(u.canonical)
  {
    VisitRefines(hs, lists, t, init, keep);
    var u, fp := BucketTables.Visit(hs, t, init, keep), Print(hs, attrs);
    LookupDupSpec(hs, lists, u, attrs);
    if Known(u.aliases, fp) {
      KeptWasKnown(t, keep, fp);
    }
    if Known(t.aliases, fp) && CanonOf(attrs) in Keys(u.canonical) {
      AliasStays(hs, lists, t, keep, attrs);
    }
  }

  lemma KnownMember(aliases: seq<AliasEntry>, a: AliasEntry)
    requires a in aliases
    ensures Known(aliases, a.key.fp)
  {
    var k :| 0 <= k < |aliases| && aliases[k] == a;
  }

  lemma KeptWasKnown<A>(t: Tables<A>, keep: (seq<KeyValue>, A) -> bool, fp: Fp)
    requires Known(KeptAliases(t, keep), fp)
    ensures Known(t.aliases, fp)
  {
    var left := KeptAliases(t, keep);
    FilterMembers(NotOf(Evicted(t.cells, keep, t.canonical)), t.aliases);
    var k :| 0 <= k < |left| && left[k].key.fp == fp;
    assert left[k] in left;
    KnownMember(t.aliases, left[k]);
  }

  lemma AliasStays<A>(
    hs: Hasher, lists: set<seq<KeyValue>>, t: Tables<A>, keep: (seq<KeyValue>, A) -> bool, attrs: seq<KeyValue>)
    requires Valid(hs, lists, t) && Tells(hs, lists) && attrs in lists
    requires Known(t.aliases, Print(hs, attrs)) && CanonOf(attrs) in Keys(KeptEntries(t, keep))
    ensures Known(KeptAliases(t, keep), Print(hs, attrs))
  {
    var a, e := OwnerOf(hs, lists, t, attrs);
    KeptByName(hs, t, keep, e);
    KeptIsNotEvicted(hs, t, keep, e);
    FilterMembers(NotOf(Evicted(t.cells, keep, t.canonical)), t.aliases);
    KnownMember(KeptAliases(t, keep), a);
  }

  lemma OwnerOf<A>(hs: Hasher, lists: set<seq<KeyValue>>, t: Tables<A>, attrs: seq<KeyValue>)
      returns (a: AliasEntry, e: CanonEntry)
    requires Valid(hs, lists, t) && Tells(hs, lists) && attrs in lists && Known(t.aliases, Print(hs, attrs))
    ensures a in t.aliases && a.key.fp == Print(hs, attrs)
    ensures e in t.canonical && e.attrs == CanonOf(attrs) && e.bucket == a.bucket
  {
    var k :| 0 <= k < |t.aliases| && t.aliases[k].key.fp == Print(hs, attrs);
    a := t.aliases[k];
    assert AliasOk(hs, lists, t.canonical, a);
    var i :| 0 <= i < |t.canonical| && Owns(t.canonical[i], a);
    e := t.canonical[i];
    SameElements(a.key.attrs, attrs);
  }

  /** If an entry's set is still there, so is the entry. */
  lemma KeptByName<A>(hs: Hasher, t: Tables<A>, keep: (seq<KeyValue>, A) -> bool, e: CanonEntry)
    requires CanonTableOk(hs, |t.cells|, t.canonical) && e in t.canonical && e.attrs in Keys(KeptEntries(t, keep))
    ensures e in KeptEntries(t, keep)
  {
    var kept := KeptEntries(t, keep);
    var i :| 0 <= i < |t.canonical| && t.canonical[i] == e;
    var l := IndexOf(kept, e.attrs);
    var m := FilterSource(Keeps(t.cells, keep), t.canonical, l);
    assert m == i && kept[l] == e;
  }

  // ---------------------------------------------------------------- runs

  /** A fingerprint is filed exactly when its attributes have been used in some order that is not canonical
      since the set's bucket was created. */
  lemma {:induction false} KnownIffUsed<A>(
    hs: Hasher, lists: set<seq<KeyValue>>, init: A, calls: seq<Call<A>>, attrs: seq<KeyValue>)
    requires Tells(hs, lists) && attrs in lists && forall i :: 0 <= i < |calls| ==> Uses(lists, calls[i])
    ensures Known(Run(hs, init, calls).aliases, Print(hs, attrs)) <==> UsedSinceCreated(init, calls, attrs)
    decreases |calls|
  {
    if |calls| > 0 {
      var front, call := calls[..|calls| - 1], calls[|calls| - 1];
      KnownIffUsed(hs, lists, init, front, attrs);
      RunRefines(hs, lists, init, front);
      RunRefines(hs, lists, init, calls);
      CallKnows(hs, lists, Run(hs, init, front), init, call, attrs);
    }
  }

  lemma CallKnows<A>(hs: Hasher, lists: set<seq<KeyValue>>, t: Tables<A>, init: A, call: Call<A>, attrs: seq<KeyValue>)
    requires Valid(hs, lists, t) && InRange(t) && Tells(hs, lists) && attrs in lists && Uses(lists, call)
    ensures var u := Perform(hs, t, init, call);
            InRange(u) &&
            (Known(u.aliases, Print(hs, attrs)) <==>
             CanonOf(attrs) in Abs(u).buckets && (UsesAnOrder(call, attrs) || Known(t.aliases, Print(hs, attrs))))
  {
    CallRefines(hs, lists, t, init, call);
    var u, fp := Perform(hs, t, init, call), Print(hs, attrs);
    LookupDupSpec(hs, lists, u, attrs);
    match call
    case Record(used, f) =>
      WritingFiles(hs, lists, t, init, used, f, true, fp);
      SamePrintIffSameMultiset(hs, lists, used, attrs);
    case Reset(used) =>
      WritingFiles(hs, lists, t, init, used, Const(init), false, fp);
      SamePrintIffSameMultiset(hs, lists, used, attrs);
    case Visit(keep) => VisitingForgets(hs, lists, t, init, keep, attrs);
    case _ =>
  }

  /** After any run, `get` answers like the plain map exactly when the list is empty, its set has no bucket, the
      list is canonical, or its attributes have been written or reset in an order that is not canonical since
      the set's bucket was created. */
  lemma GetIsExactOverRuns<A>(
    hs: Hasher, lists: set<seq<KeyValue>>, init: A, calls: seq<Call<A>>, attrs: seq<KeyValue>)
    requires Tells(hs, lists) && attrs in lists && forall i :: 0 <= i < |calls| ==> Uses(lists, calls[i])
    ensures InRange(Run(hs, init, calls))
    ensures (Reply(hs, Run(hs, init, calls), init, Get(attrs)) ==
             PlainReply(PlainRun(init, calls), init, Get(attrs))) <==>
            || attrs == []
            || CanonOf(attrs) !in PlainRun(init, calls).buckets
            || CanonOf(attrs) == attrs
            || UsedSinceCreated(init, calls, attrs)
  {
    var t := Run(hs, init, calls);
    RunRefines(hs, lists, init, calls);
    KnownIffUsed(hs, lists, init, calls, attrs);
    GetIsExactIff(hs, lists, t, init, attrs);
    KeysAreCanonical(hs, lists, t, attrs);
    if |attrs| == 1 {
      CanonFacts(attrs);
    }
  }
}
