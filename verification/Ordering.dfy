/** Sorting and deduplication over any total preorder, and when the result is unique. */
module Ordering {

  ghost predicate TotalPreorder<T(!new)>(le: (T, T) -> bool) {
    && (forall x, y :: le(x, y) || le(y, x))
    && (forall x, y, z :: le(x, y) && le(y, z) ==> le(x, z))
  }

  ghost predicate TotalOrder<T(!new)>(le: (T, T) -> bool) {
    TotalPreorder(le) && forall x, y :: le(x, y) && le(y, x) ==> x == y
  }

  predicate Sorted<T>(le: (T, T) -> bool, s: seq<T>) {
    forall i, j :: 0 <= i < j < |s| ==> le(s[i], s[j])
  }

  /** Sorted and without repetition: the canonical form. */
  predicate StrictlySorted<T(==)>(le: (T, T) -> bool, s: seq<T>) {
    forall i, j :: 0 <= i < j < |s| ==> le(s[i], s[j]) && s[i] != s[j]
  }

  function Insert<T>(le: (T, T) -> bool, x: T, s: seq<T>): seq<T> {
    if |s| == 0 then [x]
    else if le(x, s[0]) then [x] + s
    else [s[0]] + Insert(le, x, s[1..])
  }

  function Sort<T>(le: (T, T) -> bool, s: seq<T>): seq<T> {
    if |s| == 0 then [] else Insert(le, s[0], Sort(le, s[1..]))
  }

  /** Keeps the first of every run of equal elements. */
  function Dedup<T(==)>(s: seq<T>): (r: seq<T>)
    ensures |r| <= |s|
  {
    if |s| <= 1 then s
    else if s[0] == s[1] then Dedup(s[1..])
    else [s[0]] + Dedup(s[1..])
  }

  function Elements<T(==)>(s: seq<T>): set<T> {
    set x | x in s
  }

  lemma {:induction false} InsertAdds<T>(le: (T, T) -> bool, x: T, s: seq<T>)
    ensures multiset(Insert(le, x, s)) == multiset(s) + multiset{x}
    ensures forall y :: y in Insert(le, x, s) ==> y in s || y == x
  {
    if |s| > 0 && !le(x, s[0]) {
      InsertAdds(le, x, s[1..]);
      assert s == [s[0]] + s[1..];
    }
  }

  lemma {:induction false} InsertSorts<T(!new)>(le: (T, T) -> bool, x: T, s: seq<T>)
    requires TotalPreorder(le) && Sorted(le, s)
    ensures Sorted(le, Insert(le, x, s))
  {
    if |s| > 0 {
      if le(x, s[0]) {
        assert forall y :: y in s ==> le(s[0], y);
      } else {
        InsertSorts(le, x, s[1..]);
        InsertAdds(le, x, s[1..]);
        assert forall y :: y in Insert(le, x, s[1..]) ==> le(s[0], y);
      }
    }
  }

  lemma {:induction false} SortSorts<T(!new)>(le: (T, T) -> bool, s: seq<T>)
    requires TotalPreorder(le)
    ensures Sorted(le, Sort(le, s)) && multiset(Sort(le, s)) == multiset(s)
  {
    if |s| > 0 {
      SortSorts(le, s[1..]);
      InsertSorts(le, s[0], Sort(le, s[1..]));
      InsertAdds(le, s[0], Sort(le, s[1..]));
      assert s == [s[0]] + s[1..];
    }
  }

  lemma SameMembers<T>(a: seq<T>, b: seq<T>)
    requires multiset(a) == multiset(b)
    ensures |a| == |b| && forall x :: x in a <==> x in b
  {
    assert |a| == |multiset(a)| && |b| == |multiset(b)|;
    assert forall x :: x in a <==> x in multiset(a);
    assert forall x :: x in b <==> x in multiset(b);
  }

  lemma HeadsAgree<T(!new)>(le: (T, T) -> bool, a: seq<T>, b: seq<T>)
    requires TotalPreorder(le) && Sorted(le, a) && Sorted(le, b) && |a| > 0 && |b| > 0
    requires forall x :: x in a <==> x in b
    ensures le(a[0], b[0]) && le(b[0], a[0]) && a[0] in b && b[0] in a
  {
    assert a[0] in a && b[0] in b;
    assert le(a[0], a[0]) && le(b[0], b[0]);
  }

  lemma TailMultiset<T>(a: seq<T>)
    requires |a| > 0
    ensures multiset(a[1..]) == multiset(a) - multiset{a[0]}
  {
    assert a == [a[0]] + a[1..];
  }

  /** Two sorted arrangements of the same elements are equal when the order tells those elements apart;
      so an unstable sort has one possible outcome. */
  lemma {:induction false} SortedIsUnique<T(!new)>(le: (T, T) -> bool, a: seq<T>, b: seq<T>)
    requires TotalPreorder(le) && Sorted(le, a) && Sorted(le, b) && multiset(a) == multiset(b)
    requires forall x, y :: x in a && y in a && le(x, y) && le(y, x) ==> x == y
    ensures a == b
  {
    SameMembers(a, b);
    if |a| > 0 {
      HeadsAgree(le, a, b);
      TailMultiset(a);
      TailMultiset(b);
      SortedIsUnique(le, a[1..], b[1..]);
      assert a == [a[0]] + a[1..] && b == [b[0]] + b[1..];
    }
  }

  /** Deduplicating a sorted list gives the strictly sorted list of its elements. */
  lemma {:induction false} DedupIsStrict<T(!new)>(le: (T, T) -> bool, s: seq<T>)
    requires TotalOrder(le) && Sorted(le, s)
    ensures StrictlySorted(le, Dedup(s)) && Elements(Dedup(s)) == Elements(s)
    ensures |s| > 0 ==> |Dedup(s)| > 0 && Dedup(s)[0] == s[0]
  {
    if |s| > 1 {
      var rest := Dedup(s[1..]);
      DedupIsStrict(le, s[1..]);
      assert s == [s[0]] + s[1..];
      assert Elements(s) == {s[0]} + Elements(s[1..]);
      assert forall x :: x in rest <==> x in Elements(rest);
      if s[0] != s[1] {
        forall x | x in rest ensures le(s[0], x) && x != s[0] {
          assert x in Elements(s[1..]);
          assert le(s[0], x) && le(s[1], x) by {
            assert le(s[1], s[1]);
          }
        }
        assert Elements([s[0]] + rest) == {s[0]} + Elements(rest);
      }
    }
  }

  /** If deduplication removed nothing, it changed nothing. */
  lemma {:induction false} DedupKeepsLength<T>(s: seq<T>)
    requires |Dedup(s)| == |s|
    ensures Dedup(s) == s
  {
    if |s| > 1 {
      DedupKeepsLength(s[1..]);
      assert s == [s[0]] + s[1..];
    }
  }

  lemma NoElements<T>(s: seq<T>)
    ensures Elements(s) == {} <==> |s| == 0
  {
    if |s| > 0 {
      assert s[0] in Elements(s);
    }
  }

  /** The canonical form of a set of elements is unique. */
  lemma {:induction false} StrictIsUnique<T(!new)>(le: (T, T) -> bool, a: seq<T>, b: seq<T>)
    requires TotalOrder(le) && StrictlySorted(le, a) && StrictlySorted(le, b) && Elements(a) == Elements(b)
    ensures a == b
  {
    assert forall x :: x in a <==> x in Elements(a);
    assert forall x :: x in b <==> x in Elements(b);
    NoElements(a);
    NoElements(b);
    if |a| > 0 {
      assert a[0] in b && b[0] in a;
      assert le(a[0], a[0]) && le(b[0], b[0]);
      assert le(a[0], b[0]) && le(b[0], a[0]);
      assert Elements(a[1..]) == Elements(a) - {a[0]};
      assert Elements(b[1..]) == Elements(b) - {b[0]};
      StrictIsUnique(le, a[1..], b[1..]);
    }
  }

  /** Sort, then drop repetitions. */
  function Canon<T(==)>(le: (T, T) -> bool, s: seq<T>): seq<T> {
    Dedup(Sort(le, s))
  }

  /** Two lists have the same canonical form exactly when they have the same elements. */
  lemma CanonIsTheSet<T(!new)>(le: (T, T) -> bool, a: seq<T>, b: seq<T>)
    requires TotalOrder(le)
    ensures StrictlySorted(le, Canon(le, a)) && Elements(Canon(le, a)) == Elements(a)
    ensures Canon(le, a) == Canon(le, b) <==> Elements(a) == Elements(b)
  {
    SortSorts(le, a);
    SortSorts(le, b);
    SameMembers(Sort(le, a), a);
    SameMembers(Sort(le, b), b);
    DedupIsStrict(le, Sort(le, a));
    DedupIsStrict(le, Sort(le, b));
    assert Elements(Sort(le, a)) == Elements(a) && Elements(Sort(le, b)) == Elements(b);
    if Elements(a) == Elements(b) {
      StrictIsUnique(le, Canon(le, a), Canon(le, b));
    }
  }

  lemma CanonOfStrict<T(!new)>(le: (T, T) -> bool, a: seq<T>)
    requires TotalOrder(le) && StrictlySorted(le, a)
    ensures Canon(le, a) == a
  {
    CanonIsTheSet(le, a, a);
    StrictIsUnique(le, Canon(le, a), a);
  }

  // ---------------------------------------------------------------- folds that ignore order

  function FoldAll<B, T>(step: (B, T) -> B, b: B, s: seq<T>): B {
    if |s| == 0 then b else step(FoldAll(step, b, s[..|s| - 1]), s[|s| - 1])
  }

  lemma FoldMore<B, T>(step: (B, T) -> B, b: B, s: seq<T>, i: nat)
    requires i < |s|
    ensures FoldAll(step, b, s[..i + 1]) == step(FoldAll(step, b, s[..i]), s[i])
  {
    assert s[..i + 1][..i] == s[..i];
  }

  ghost predicate Exchangeable<B(!new), T(!new)>(step: (B, T) -> B) {
    forall b, x, y :: step(step(b, x), y) == step(step(b, y), x)
  }

  lemma {:induction false} FoldMovesToEnd<B(!new), T(!new)>(step: (B, T) -> B, b: B, front: seq<T>, x: T, back: seq<T>)
    requires Exchangeable(step)
    ensures FoldAll(step, b, front + [x] + back) == step(FoldAll(step, b, front + back), x)
  {
    if |back| == 0 {
      assert front + [x] + back == front + [x] && front + back == front;
    } else {
      var init, last := back[..|back| - 1], back[|back| - 1];
      FoldMovesToEnd(step, b, front, x, init);
      assert (front + [x] + back)[..|front + [x] + back| - 1] == front + [x] + init;
      assert (front + back)[..|front + back| - 1] == front + init;
    }
  }

  lemma WithoutOne<T>(t: seq<T>, k: nat)
    requires k < |t|
    ensures t == t[..k] + [t[k]] + t[k + 1..]
    ensures multiset(t[..k] + t[k + 1..]) == multiset(t) - multiset{t[k]}
  {
    assert t == t[..k] + [t[k]] + t[k + 1..];
  }

  lemma FoldWithoutOne<B(!new), T(!new)>(step: (B, T) -> B, b: B, t: seq<T>, k: nat)
    requires Exchangeable(step) && k < |t|
    ensures FoldAll(step, b, t) == step(FoldAll(step, b, t[..k] + t[k + 1..]), t[k])
  {
    WithoutOne(t, k);
    FoldMovesToEnd(step, b, t[..k], t[k], t[k + 1..]);
  }

  lemma {:induction false} FoldIgnoresOrder<B(!new), T(!new)>(step: (B, T) -> B, b: B, s: seq<T>, t: seq<T>)
    requires Exchangeable(step) && multiset(s) == multiset(t)
    ensures FoldAll(step, b, s) == FoldAll(step, b, t)
  {
    SameMembers(s, t);
    if |s| > 0 {
      assert s[0] in t;
      var k: int :| 0 <= k < |t| && t[k] == s[0];
      WithoutOne(s, 0);
      WithoutOne(t, k);
      FoldIgnoresOrder(step, b, s[..0] + s[1..], t[..k] + t[k + 1..]);
      FoldWithoutOne(step, b, s, 0);
      FoldWithoutOne(step, b, t, k);
    }
  }

  // ---------------------------------------------------------------- filtering

  function Filter<T>(p: T -> bool, s: seq<T>): seq<T> {
    if |s| == 0 then []
    else Filter(p, s[..|s| - 1]) + if p(s[|s| - 1]) then [s[|s| - 1]] else []
  }

  lemma {:induction false} FilterMembers<T>(p: T -> bool, s: seq<T>)
    ensures forall x :: x in Filter(p, s) <==> x in s && p(x)
    ensures |Filter(p, s)| <= |s|
  {
    if |s| > 0 {
      FilterMembers(p, s[..|s| - 1]);
      assert s == s[..|s| - 1] + [s[|s| - 1]];
    }
  }

  lemma {:induction false} FilterTwice<T>(p: T -> bool, q: T -> bool, r: T -> bool, s: seq<T>)
    requires forall x :: x in s ==> r(x) == (p(x) && q(x))
    ensures Filter(q, Filter(p, s)) == Filter(r, s)
  {
    if |s| > 0 {
      var init, last := s[..|s| - 1], s[|s| - 1];
      FilterTwice(p, q, r, init);
      if p(last) {
        assert Filter(p, s)[..|Filter(p, s)| - 1] == Filter(p, init);
      } else {
        assert Filter(p, s) == Filter(p, init);
      }
    }
  }

  lemma {:induction false} FilterAll<T>(p: T -> bool, s: seq<T>)
    requires forall x :: x in s ==> p(x)
    ensures Filter(p, s) == s
  {
    if |s| > 0 {
      FilterAll(p, s[..|s| - 1]);
      assert s == s[..|s| - 1] + [s[|s| - 1]];
    }
  }

  /** Dropping the one element that fails. */
  lemma {:induction false} FilterDropsOne<T>(p: T -> bool, s: seq<T>, i: nat)
    requires i < |s| && !p(s[i]) && forall j :: 0 <= j < |s| && j != i ==> p(s[j])
    ensures Filter(p, s) == s[..i] + s[i + 1..]
  {
    var n := |s| - 1;
    if i == n {
      FilterAll(p, s[..n]);
    } else {
      FilterDropsOne(p, s[..n], i);
      assert s[i + 1..] == s[..n][i + 1..] + [s[n]];
    }
  }

  lemma {:induction false} FilterSource<T>(p: T -> bool, s: seq<T>, k: nat) returns (i: nat)
    requires k < |Filter(p, s)|
    ensures i < |s| && s[i] == Filter(p, s)[k]
  {
    var n := |s| - 1;
    i := n;
    if k < |Filter(p, s[..n])| {
      i := FilterSource(p, s[..n], k);
    }
  }

  /** What is kept keeps its order, so pairwise facts survive. */
  lemma {:induction false} FilterKeepsOrder<T>(p: T -> bool, s: seq<T>, k: nat, l: nat) returns (i: nat, j: nat)
    requires k < l < |Filter(p, s)|
    ensures i < j < |s| && s[i] == Filter(p, s)[k] && s[j] == Filter(p, s)[l]
  {
    var n := |s| - 1;
    if l < |Filter(p, s[..n])| {
      i, j := FilterKeepsOrder(p, s[..n], k, l);
    } else {
      i := FilterSource(p, s[..n], k);
      j := n;
    }
  }
}
