/** The bucket map itself: tables, flag and counter updated in place, each call as one step. */
module BucketMap {
  import opened Wrappers
  import opened Ordering
  import opened Model
  import opened Fingerprint
  import opened BucketTables
  import opened BucketRefinement
  import opened BucketDraining
  import opened BucketRuns

  class Map<A(0, !new)> {
    const hasher: Hasher
    const init: A

    var canonical: seq<CanonEntry>
    var aliases: seq<AliasEntry>
    var cells: seq<A>
    var noAttrTouched: bool
    var count: int

    /** The attribute lists callers use; see `Tells`. */
    ghost const lists: set<seq<KeyValue>>

    ghost function State(): Tables<A>
      reads this
    {
      Tables(canonical, aliases, cells, noAttrTouched, count)
    }

    /** The tables are consistent and the hash tells the callers' lists apart. */
    ghost predicate Ok()
      reads this
    {
      Valid(hasher, lists, State()) && InRange(State()) && Tells(hasher, lists)
    }

    /** The plain map from attribute set to value that callers see. */
    ghost function Contents(): Plain<A>
      requires Ok()
      reads this
    {
      Abs(State())
    }

    constructor (hasher: Hasher, init: A, ghost lists: set<seq<KeyValue>>)
      requires Tells(hasher, lists)
      ensures Ok() && Contents() == Plain(map[], init, false)
      ensures this.hasher == hasher && this.init == init && this.lists == lists && count == 0
    {
      this.hasher, this.init, this.lists := hasher, init, lists;
      canonical, aliases, cells, noAttrTouched, count := [], [], [init], false, 0;
      new;
      assert Keys([]) == {};
    }

    /** Finds the list's bucket without creating it; what it finds is never another set's bucket. */
    method GetBucket(attrs: seq<KeyValue>) returns (r: Option<nat>)
      requires Ok() && attrs in lists
      ensures r == BucketTables.GetBucket(hasher, State(), attrs)
      ensures |attrs| == 0 ==> r == Some(0)
      ensures |attrs| > 0 ==> (r.Some? <==> Reaches(hasher, State(), attrs))
      ensures |attrs| > 0 && r.Some? ==>
        && CanonOf(attrs) in Contents().buckets && r.value < |cells|
        && cells[r.value] == Contents().buckets[CanonOf(attrs)]
    {
      if |attrs| == 0 {
        return Some(0);
      }
      GetBucketSpec(hasher, lists, State(), attrs);
      GetValueSpec(hasher, lists, State(), attrs);
      var fp := CommutativeHash(hasher.one, attrs);
      var hash := hasher.table(fp);
      if |attrs| == 1 {
        r := LookupCanon(hash, attrs);
      } else if Sorted(PairLe, attrs) {
        r := LookupCanon(hash, attrs);
        if r.None? {
          r := LookupDup(fp);
        }
      } else {
        r := LookupDup(fp);
        if r.None? {
          r := LookupCanon(hash, attrs);
        }
      }
    }

    method LookupCanon(hash: int, attrs: seq<KeyValue>) returns (r: Option<nat>)
      ensures r == BucketTables.LookupCanon(State(), hash, attrs)
    {
      var i := FindCanon(canonical, hash, attrs);
      r := if i.Some? then Some(canonical[i.value].bucket) else None;
    }

    method LookupDup(fp: Fp) returns (r: Option<nat>)
      ensures r == BucketTables.LookupDup(hasher, State(), fp)
    {
      var i := FindAlias(aliases, hasher.table(fp), fp);
      r := if i.Some? then Some(aliases[i.value].bucket) else None;
    }

    method InsertCanon(attrs: seq<KeyValue>, hash: int, alias: Option<AliasKey>) returns (bucket: nat)
      modifies this
      ensures (State(), bucket) == BucketTables.InsertCanon(old(State()), init, attrs, hash, alias)
    {
      var more := if alias.Some? then [alias.value] else [];
      var i := FindCanon(canonical, hash, attrs);
      if i.Some? {
        var e := canonical[i.value];
        canonical := canonical[i.value := e.(aliases := e.aliases + more)];
        bucket := e.bucket;
      } else {
        bucket := |cells|;
        cells := cells + [init];
        canonical := canonical + [CanonEntry(hash, attrs, bucket, more)];
        count := count + 1;
      }
    }

    method InsertDup(key: AliasKey, bucket: nat)
      modifies this
      ensures State() == BucketTables.InsertDup(hasher, old(State()), key, bucket)
    {
      var hash := hasher.table(key.fp);
      if FindAlias(aliases, hash, key.fp).None? {
        aliases := aliases + [AliasEntry(hash, key, bucket)];
      }
    }

    /** Hands out the bucket of the list's attribute set, creating it at `init` if the set is new. */
    method GetOrCreate(attrs: seq<KeyValue>) returns (bucket: nat)
      requires Ok() && attrs in lists
      modifies this
      ensures Ok() && bucket < |cells| && (|attrs| == 0 ==> bucket == 0 && State() == old(State()))
      ensures (State(), bucket) == BucketTables.GetOrCreate(hasher, old(State()), init, attrs)
      ensures |attrs| > 0 ==> var key := CanonOf(attrs);
        && key in Keys(canonical) && bucket == BucketAt(canonical, key) && Reaches(hasher, State(), attrs)
        && cells[bucket] == (if key in old(Contents()).buckets then old(Contents()).buckets[key] else init)
        && Contents() == old(Contents()).(buckets := old(Contents()).buckets[key := cells[bucket]])
    {
      ghost var t := State();
      var found := GetBucket(attrs);
      if |attrs| > 0 {
        GetOrCreateSpec(hasher, lists, t, init, attrs);
        ghost var made := BucketTables.GetOrCreate(hasher, t, init, attrs);
        CreatedAbs(hasher, lists, t, made.0, made.1, init, CanonOf(attrs));
      }
      if found.Some? {
        return found.value;
      }
      var fp := CommutativeHash(hasher.one, attrs);
      var buf := CanonOf(attrs);
      var alias := if buf != attrs then Some(AliasKey(fp, attrs)) else None;
      var hash := hasher.table(fp);
      if |buf| != fp.len {
        var canonFp := CommutativeHash(hasher.one, buf);
        hash := hasher.table(canonFp);
      }
      bucket := InsertCanon(buf, hash, alias);
      if alias.Some? {
        InsertDup(alias.value, bucket);
      }
    }

    /** `add`, `sub` and `set`: update the bucket of the list's attribute set and no other. */
    method Record(attrs: seq<KeyValue>, f: A -> A)
      requires Ok() && attrs in lists
      modifies this
      ensures Ok() && Contents() == PlainWrite(old(Contents()), init, attrs, f, true)
      ensures State() == Perform(hasher, old(State()), init, Call.Record(attrs, f))
      ensures count - |canonical| == old(count - |canonical|)
    {
      if |attrs| == 0 {
        Update(0, f);
        noAttrTouched := true;
      } else {
        var b := GetOrCreate(attrs);
        Update(b, f);
      }
      assert State() == Write(hasher, old(State()), init, attrs, f, true);
      WriteRefines(hasher, lists, old(State()), init, attrs, f, true);
    }

    method Update(b: nat, f: A -> A)
      requires b < |cells|
      modifies this`cells
      ensures cells == old(cells)[b := f(old(cells)[b])]
    {
      cells := cells[b := f(cells[b])];
    }

    /** Puts the bucket back to its initial value and returns what it held; the flag is left alone. */
    method Reset(attrs: seq<KeyValue>) returns (was: A)
      requires Ok() && attrs in lists
      modifies this
      ensures Ok() && Contents() == PlainWrite(old(Contents()), init, attrs, Const(init), false)
      ensures State() == Perform(hasher, old(State()), init, Call.Reset(attrs))
      ensures Was(was) == PlainReply(old(Contents()), init, Call.Reset(attrs))
      ensures count - |canonical| == old(count - |canonical|)
    {
      var b := GetOrCreate(attrs);
      was := Swap(b);
      assert State() == Write(hasher, old(State()), init, attrs, Const(init), false);
      WriteRefines(hasher, lists, old(State()), init, attrs, Const(init), false);
    }

    method Swap(b: nat) returns (was: A)
      requires b < |cells|
      modifies this`cells
      ensures was == old(cells)[b] && cells == old(cells)[b := init]
    {
      was := cells[b];
      cells := cells[b := init];
    }

    /** Never a wrong value; and the plain map's answer exactly when the list reaches its bucket. */
    method Get(attrs: seq<KeyValue>) returns (r: Option<A>)
      requires Ok() && attrs in lists
      ensures r == GetValue(hasher, State(), attrs)
      ensures r.Some? ==> Looked(r) == PlainReply(Contents(), init, Call.Get(attrs))
      ensures Looked(r) == PlainReply(Contents(), init, Call.Get(attrs)) <==>
              |attrs| == 0 || CanonOf(attrs) !in Contents().buckets || Reaches(hasher, State(), attrs)
    {
      GetIsExactIff(hasher, lists, State(), init, attrs);
      var b := GetBucket(attrs);
      r := if b.Some? then Some(cells[b.value]) else None;
    }

    method Clear()
      requires Ok()
      modifies this
      ensures Ok() && Contents() == Plain(map[], init, false) && count == 0
      ensures State() == Perform(hasher, old(State()), init, Call.Clear)
    {
      DrainRefines(hasher, lists, State(), init);
      canonical := [];
      aliases := [];
      count := 0;
      cells := cells[0 := init];
      noAttrTouched := false;
    }

    /** Hands the canonical table over, together with the value of the bucket without attributes if that
        bucket was touched. */
    method Take() returns (table: seq<CanonEntry>, noAttr: Option<A>)
      requires Ok()
      modifies this
      ensures Ok() && Contents() == Plain(map[], init, false) && count == old(count)
      ensures State() == Perform(hasher, old(State()), init, Call.Take)
      ensures table == old(canonical) && |cells| == |old(cells)| && cells[1..] == old(cells)[1..]
      ensures noAttr == if old(noAttrTouched) then Some(old(cells)[0]) else None
    {
      DrainRefines(hasher, lists, State(), init);
      table := canonical;
      canonical := [];
      aliases := [];
      noAttr := if noAttrTouched then Some(cells[0]) else None;
      noAttrTouched := false;
      cells := cells[0 := init];
    }

    /** Shows every bucket to the callback, evicting those it rejects together with their aliases. */
    method VisitBucket(keep: (seq<KeyValue>, A) -> bool) returns (visited: seq<(seq<KeyValue>, A)>)
      requires Ok()
      modifies this
      ensures Ok() && Contents() == PlainVisit(old(Contents()), init, keep)
      ensures State() == BucketTables.Visit(hasher, old(State()), init, keep)
      ensures visited == Visited(old(State()))
      ensures 0 <= count && count - |canonical| == old(count - |canonical|)
    {
      visited := VisitTables(keep);
      VisitRefines(hasher, lists, old(State()), init, keep);
    }

    method VisitTables(keep: (seq<KeyValue>, A) -> bool) returns (visited: seq<(seq<KeyValue>, A)>)
      requires InRange(State())
      modifies this
      ensures State() == BucketTables.Visit(hasher, old(State()), init, keep)
      ensures visited == Visited(old(State()))
    {
      visited := Retain(keep);
      var last := VisitNoAttr(keep);
      visited := visited + last;
    }

    /** The bucket without attributes is shown only if it was touched. */
    method VisitNoAttr(keep: (seq<KeyValue>, A) -> bool) returns (visited: seq<(seq<KeyValue>, A)>)
      requires |cells| > 0
      modifies this`cells, this`noAttrTouched
      ensures visited == if old(noAttrTouched) then [([], old(cells)[0])] else []
      ensures var gone := old(noAttrTouched) && !keep([], old(cells)[0]);
              && cells == (if gone then old(cells)[0 := init] else old(cells))
              && noAttrTouched == (old(noAttrTouched) && !gone)
    {
      visited := [];
      if noAttrTouched {
        visited := [([], cells[0])];
        if !keep([], cells[0]) {
          cells := cells[0 := init];
          noAttrTouched := false;
        }
      }
    }

    /** The pass over the canonical table; evicted entries take their aliases with them. */
    method Retain(keep: (seq<KeyValue>, A) -> bool) returns (visited: seq<(seq<KeyValue>, A)>)
      requires InRange(State())
      modifies this
      ensures cells == old(cells) && noAttrTouched == old(noAttrTouched)
      ensures (canonical, aliases) == BucketTables.Retain(hasher, old(State()), keep, |old(canonical)|)
      ensures count == old(count) - (|old(canonical)| - |canonical|)
      ensures visited == Visited(old(State()))[..|old(canonical)|]
    {
      ghost var t := State();
      var kept: seq<CanonEntry> := [];
      visited := [];
      for i := 0 to |canonical|
        invariant canonical == t.canonical && cells == t.cells && noAttrTouched == t.touched && count == t.count
        invariant (kept, aliases) == BucketTables.Retain(hasher, t, keep, i) && |kept| <= i
        invariant visited == Visited(t)[..i]
      {
        var e := canonical[i];
        visited := visited + [(e.attrs, cells[e.bucket])];
        if keep(e.attrs, cells[e.bucket]) {
          kept := kept + [e];
        } else {
          RemoveListed(e.aliases);
        }
      }
      var evicted := |canonical| - |kept|;
      canonical := kept;
      if evicted > 0 {
        count := count - evicted;
      }
    }

    method RemoveListed(keys: seq<AliasKey>)
      modifies this`aliases
      ensures aliases == RemoveAliases(hasher, old(aliases), keys)
    {
      for k := 0 to |keys|
        invariant aliases == RemoveAliases(hasher, old(aliases), keys[..k])
      {
        assert keys[..k + 1][..k] == keys[..k];
        var i := FindAlias(aliases, hasher.table(keys[k].fp), keys[k].fp);
        if i.Some? {
          aliases := aliases[..i.value] + aliases[i.value + 1..];
        }
      }
      assert keys[..|keys|] == keys;
    }
  }

  /** Observing without rejecting changes nothing at all. */
  lemma VisitKeepingAll<A(!new)>(hs: Hasher, t: Tables<A>, init: A, keep: (seq<KeyValue>, A) -> bool)
    requires InRange(t)
    ensures (forall k, v :: keep(k, v)) ==> BucketTables.Visit(hs, t, init, keep) == t
  {
    if forall k, v :: keep(k, v) {
      RetainAll(hs, t, keep, |t.canonical|);
      assert t.canonical[..|t.canonical|] == t.canonical;
    }
  }

  lemma {:induction false} RetainAll<A(!new)>(hs: Hasher, t: Tables<A>, keep: (seq<KeyValue>, A) -> bool, n: nat)
    requires InRange(t) && n <= |t.canonical| && forall k, v :: keep(k, v)
    ensures Retain(hs, t, keep, n) == (t.canonical[..n], t.aliases)
  {
    if n > 0 {
      RetainAll(hs, t, keep, n - 1);
      assert t.canonical[..n] == t.canonical[..n - 1] + [t.canonical[n - 1]];
    }
  }
}
