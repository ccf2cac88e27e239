/** Whole runs of calls on a bucket map, one call at a time, against the plain map. */
module BucketRuns {
  import opened Wrappers
  import opened Ordering
  import opened Model
  import opened BucketTables
  import opened BucketRefinement
  import opened BucketDraining

  /** `Record` stands for add, sub and set, `keep` for the visitor's verdict on each bucket. */
  datatype Call<!A> =
    | Record(attrs: seq<KeyValue>, f: A -> A)
    | Reset(attrs: seq<KeyValue>)
    | Get(attrs: seq<KeyValue>)
    | Clear
    | Take
    | Visit(keep: (seq<KeyValue>, A) -> bool)

  datatype Answer<A> =
    | Nothing
    | Looked(found: Option<A>)
    | Was(value: A)
    | Drained(buckets: map<seq<KeyValue>, A>, noAttr: Option<A>)

  function Const<A>(v: A): A -> A {
    (_: A) => v
  }

  function Empty<A>(init: A): Tables<A> {
    Tables([], [], [init], false, 0)
  }

  function Perform<A>(hs: Hasher, t: Tables<A>, init: A, call: Call<A>): Tables<A>
    requires InRange(t)
  {
    match call
    case Record(attrs, f) => Write(hs, t, init, attrs, f, true)
    case Reset(attrs) => Write(hs, t, init, attrs, Const(init), false)
    case Get(_) => t
    case Clear => BucketTables.Clear(t, init)
    case Take => BucketTables.Take(t, init)
    case Visit(keep) => BucketTables.Visit(hs, t, init, keep)
  }

  function GetValue<A>(hs: Hasher, t: Tables<A>, attrs: seq<KeyValue>): Option<A> {
    match GetBucket(hs, t, attrs)
    case Some(b) => if b < |t.cells| then Some(t.cells[b]) else None
    case None => None
  }

  /** The taken table's buckets, keyed by attribute set. */
  ghost function Reply<A>(hs: Hasher, t: Tables<A>, init: A, call: Call<A>): Answer<A>
    requires InRange(t)
  {
    match call
    case Get(attrs) => Looked(GetValue(hs, t, attrs))
    case Reset(attrs) =>
      if |attrs| == 0 then Was(t.cells[0])
      else
        var (u, b) := GetOrCreate(hs, t, init, attrs);
        if b < |u.cells| then Was(u.cells[b]) else Nothing
    case Take => Drained(Abs(t).buckets, if t.touched then Some(t.cells[0]) else None)
    case _ => Nothing
  }

  function PlainPerform<A>(p: Plain<A>, init: A, call: Call<A>): Plain<A> {
    match call
    case Record(attrs, f) => PlainWrite(p, init, attrs, f, true)
    case Reset(attrs) => PlainWrite(p, init, attrs, Const(init), false)
    case Get(_) => p
    case Clear => Plain(map[], init, false)
    case Take => Plain(map[], init, false)
    case Visit(keep) => PlainVisit(p, init, keep)
  }

  function PlainReply<A>(p: Plain<A>, init: A, call: Call<A>): Answer<A> {
    match call
    case Get(attrs) =>
      Looked(if |attrs| == 0 then Some(p.noAttr)
             else if CanonOf(attrs) in p.buckets then Some(p.buckets[CanonOf(attrs)]) else None)
    case Reset(attrs) =>
      Was(if |attrs| == 0 then p.noAttr
          else if CanonOf(attrs) in p.buckets then p.buckets[CanonOf(attrs)] else init)
    case Take => Drained(p.buckets, if p.touched then Some(p.noAttr) else None)
    case _ => Nothing
  }

  predicate Uses<A>(lists: set<seq<KeyValue>>, call: Call<A>) {
    call.Record? || call.Reset? || call.Get? ==> call.attrs in lists
  }

  // ---------------------------------------------------------------- one call

  /** Each call does to the tables what it does to the plain map. */
  lemma CallRefines<A>(hs: Hasher, lists: set<seq<KeyValue>>, t: Tables<A>, init: A, call: Call<A>)
    requires Valid(hs, lists, t) && Tells(hs, lists) && Uses(lists, call)
    ensures InRange(t) && Valid(hs, lists, Perform(hs, t, init, call)) && InRange(Perform(hs, t, init, call))
    ensures Abs(Perform(hs, t, init, call)) == PlainPerform(Abs(t), init, call)
  {
    ValidInRange(hs, lists, t);
    match call
    case Record(attrs, f) => WriteRefines(hs, lists, t, init, attrs, f, true);
    case Reset(attrs) => WriteRefines(hs, lists, t, init, attrs, Const(init), false);
    case Get(_) =>
    case Clear => DrainRefines(hs, lists, t, init);
    case Take => DrainRefines(hs, lists, t, init);
    case Visit(keep) => VisitRefines(hs, lists, t, init, keep);
  }

  /** A lookup answers like the plain map exactly when the set has no bucket or the list reaches it: it is
      the canonical list, or its fingerprint has been filed since the bucket was created. */
  lemma GetIsExactIff<A>(hs: Hasher, lists: set<seq<KeyValue>>, t: Tables<A>, init: A, attrs: seq<KeyValue>)
    requires Valid(hs, lists, t) && Tells(hs, lists) && attrs in lists
    ensures InRange(t)
    ensures Reply(hs, t, init, Get(attrs)) == PlainReply(Abs(t), init, Get(attrs)) <==>
            |attrs| == 0 || CanonOf(attrs) !in Abs(t).buckets || Reaches(hs, t, attrs)
    ensures GetValue(hs, t, attrs).Some? ==> Looked(GetValue(hs, t, attrs)) == PlainReply(Abs(t), init, Get(attrs))
  {
    ValidInRange(hs, lists, t);
    if |attrs| > 0 {
      GetValueSpec(hs, lists, t, attrs);
    }
  }

  lemma GetValueSpec<A>(hs: Hasher, lists: set<seq<KeyValue>>, t: Tables<A>, attrs: seq<KeyValue>)
    requires Valid(hs, lists, t) && InRange(t) && Tells(hs, lists) && attrs in lists && |attrs| > 0
    ensures Reaches(hs, t, attrs) ==>
      CanonOf(attrs) in Abs(t).buckets && GetValue(hs, t, attrs) == Some(Abs(t).buckets[CanonOf(attrs)])
    ensures !Reaches(hs, t, attrs) ==> GetValue(hs, t, attrs).None?
  {
    GetBucketSpec(hs, lists, t, attrs);
    if Reaches(hs, t, attrs) {
      BucketsDiffer(hs, |t.cells|, t.canonical, CanonOf(attrs));
    }
  }

  /** The answers of the other calls are the plain map's, always. */
  lemma ReplyRefines<A>(hs: Hasher, lists: set<seq<KeyValue>>, t: Tables<A>, init: A, call: Call<A>)
    requires Valid(hs, lists, t) && Tells(hs, lists) && Uses(lists, call) && !call.Get?
    ensures InRange(t) && Reply(hs, t, init, call) == PlainReply(Abs(t), init, call)
  {
    ValidInRange(hs, lists, t);
    if call.Reset? && |call.attrs| > 0 {
      var (u, b) := GetOrCreate(hs, t, init, call.attrs);
      GetOrCreateSpec(hs, lists, t, init, call.attrs);
      CreatedAbs(hs, lists, t, u, b, init, CanonOf(call.attrs));
    }
  }

  /** A concrete miss: after a write under `[a, b]`, looking up `[b, a]` finds nothing, although the write
      filed the bucket of that very set. */
  lemma GetMissesAnUnseenOrder<A>(hs: Hasher, init: A, f: A -> A, a: KeyValue, b: KeyValue)
    requires PairLe(a, b) && a != b
    ensures var t := Write(hs, Empty(init), init, [a, b], f, true);
            CanonOf([b, a]) in Keys(t.canonical) && GetValue(hs, t, [b, a]).None?
  {
    var t := Write(hs, Empty(init), init, [a, b], f, true);
    OneSortedWrite(hs, init, f, a, b);
    SwappedPair(a, b);
    assert t.canonical[0].attrs == [a, b];
  }

  lemma SwappedPair(a: KeyValue, b: KeyValue)
    requires PairLe(a, b) && a != b
    ensures CanonOf([b, a]) == [a, b] && [b, a] != [a, b]
  {
    CanonFacts([a, b]);
    SameKeyIffSameSet([a, b], [b, a]);
    assert Elements([a, b]) == {a, b} && Elements([b, a]) == {a, b};
    assert [b, a][0] == b && [a, b][0] == a;
  }

  lemma OneSortedWrite<A>(hs: Hasher, init: A, f: A -> A, a: KeyValue, b: KeyValue)
    requires PairLe(a, b) && a != b
    ensures var t := Write(hs, Empty(init), init, [a, b], f, true);
            t.canonical == [CanonEntry(CanonHash(hs, [a, b]), [a, b], 1, [])] && t.aliases == []
  {
    CanonFacts([a, b]);
    assert FindCanon([], hs.table(Print(hs, [a, b])), [a, b]).None?;
  }

  // ---------------------------------------------------------------- whole runs

  ghost function Run<A>(hs: Hasher, init: A, calls: seq<Call<A>>): (t: Tables<A>)
  {
    if |calls| == 0 then Empty(init)
    else
      var t := Run(hs, init, calls[..|calls| - 1]);
      if InRange(t) then Perform(hs, t, init, calls[|calls| - 1]) else t
  }

  function PlainRun<A>(init: A, calls: seq<Call<A>>): Plain<A> {
    if |calls| == 0 then Plain(map[], init, false)
    else PlainPerform(PlainRun(init, calls[..|calls| - 1]), init, calls[|calls| - 1])
  }

  /** After any run of calls the tables are consistent and are the plain map after the same run. */
  lemma {:induction false} RunRefines<A>(hs: Hasher, lists: set<seq<KeyValue>>, init: A, calls: seq<Call<A>>)
    requires Tells(hs, lists) && forall i :: 0 <= i < |calls| ==> Uses(lists, calls[i])
    ensures Valid(hs, lists, Run(hs, init, calls)) && InRange(Run(hs, init, calls))
    ensures Abs(Run(hs, init, calls)) == PlainRun(init, calls)
  {
    if |calls| == 0 {
      assert Keys([]) == {};
    } else {
      RunRefines(hs, lists, init, calls[..|calls| - 1]);
      CallRefines(hs, lists, Run(hs, init, calls[..|calls| - 1]), init, calls[|calls| - 1]);
    }
  }

  /** How many entries `take` has carried off since the counter was last cleared. */
  ghost function CarriedOff<A>(hs: Hasher, init: A, calls: seq<Call<A>>): nat {
    if |calls| == 0 then 0
    else
      var n := |calls| - 1;
      match calls[n]
      case Clear => 0
      case Take => CarriedOff(hs, init, calls[..n]) + |Run(hs, init, calls[..n]).canonical|
      case _ => CarriedOff(hs, init, calls[..n])
  }

  /** The counter is the number of entries plus what `take` carried off; so it is never below the number of
      entries, and equal to it on runs without `take`. */
  lemma {:induction false} CountIsExact<A>(hs: Hasher, lists: set<seq<KeyValue>>, init: A, calls: seq<Call<A>>)
    requires Tells(hs, lists) && forall i :: 0 <= i < |calls| ==> Uses(lists, calls[i])
    ensures Run(hs, init, calls).count == |Run(hs, init, calls).canonical| + CarriedOff(hs, init, calls)
    ensures (forall i :: 0 <= i < |calls| ==> !calls[i].Take?) ==> CarriedOff(hs, init, calls) == 0
  {
    if |calls| > 0 {
      var n := |calls| - 1;
      CountIsExact(hs, lists, init, calls[..n]);
      RunRefines(hs, lists, init, calls[..n]);
      CallCounts(hs, lists, Run(hs, init, calls[..n]), init, calls[n]);
    }
  }

  /** What one call does to the excess of the counter over the number of entries. */
  lemma CallCounts<A>(hs: Hasher, lists: set<seq<KeyValue>>, t: Tables<A>, init: A, call: Call<A>)
    requires Valid(hs, lists, t) && InRange(t) && Tells(hs, lists) && Uses(lists, call)
    ensures var u := Perform(hs, t, init, call);
            match call
            case Clear => u.count == 0 && u.canonical == []
            case Take => u.count == t.count && u.canonical == []
            case _ => u.count - |u.canonical| == t.count - |t.canonical|
  {
    match call
    case Record(attrs, f) => WriteRefines(hs, lists, t, init, attrs, f, true);
    case Reset(attrs) => WriteRefines(hs, lists, t, init, attrs, Const(init), false);
    case Visit(keep) => VisitRefines(hs, lists, t, init, keep);
    case _ =>
  }

  /** A concrete excess: one write and a take leave the table empty and the counter above zero. */
  lemma TakeLeavesTheCount<A>(hs: Hasher, init: A, f: A -> A, a: KeyValue)
    ensures var t := Run(hs, init, [Record([a], f), Take]);
            t.canonical == [] && t.count > 0
  {
    assert [Record([a], f), Take][..1] == [Record([a], f)];
    OneWriteIsCounted(hs, init, f, a);
  }

  lemma OneWriteIsCounted<A>(hs: Hasher, init: A, f: A -> A, a: KeyValue)
    ensures InRange(Run(hs, init, [Record([a], f)])) && Run(hs, init, [Record([a], f)]).count > 0
  {
    var lists, calls := {[a]}, [Record([a], f)];
    RunRefines(hs, lists, init, calls);
    CountIsExact(hs, lists, init, calls);
    assert calls[..0] == [];
    assert PlainRun(init, calls) == PlainWrite(PlainRun(init, []), init, [a], f, true);
    var key := CanonOf([a]);
    assert key in Abs(Run(hs, init, calls)).buckets;
    var i := IndexOf(Run(hs, init, calls).canonical, key);
  }

  /** Two writers share a bucket exactly when their lists hold the same attributes: in every reachable state
      the buckets handed to two non-empty lists are the same one iff the sets are equal. */
  lemma SameBucketIffSameSet<A>(
    hs: Hasher, lists: set<seq<KeyValue>>, init: A, calls: seq<Call<A>>, a: seq<KeyValue>, b: seq<KeyValue>)
    requires Tells(hs, lists) && forall i :: 0 <= i < |calls| ==> Uses(lists, calls[i])
    requires a in lists && b in lists && |a| > 0 && |b| > 0
    ensures var (t, x) := GetOrCreate(hs, Run(hs, init, calls), init, a);
            x == GetOrCreate(hs, t, init, b).1 <==> Elements(a) == Elements(b)
  {
    RunRefines(hs, lists, init, calls);
    var s := Run(hs, init, calls);
    var (t, x) := GetOrCreate(hs, s, init, a);
    GetOrCreateSpec(hs, lists, s, init, a);
    var (u, y) := GetOrCreate(hs, t, init, b);
    GetOrCreateSpec(hs, lists, t, init, b);
    SameKeyIffSameSet(a, b);
    BucketsDiffer(hs, |u.cells|, u.canonical, CanonOf(b));
  }
}
