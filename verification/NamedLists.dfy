/** Lists of named things: sorting by name, finding a repeated name, and the map they stand for. */
module NamedLists {
  import opened Sequences
  import opened Wrappers
  import opened Ordering
  import opened Model

  datatype Named<+T> = Named(name: string, value: T)

  predicate NameLe<T>(a: Named<T>, b: Named<T>) {
    TextLe(a.name, b.name)
  }

  function SortByName<T>(s: seq<Named<T>>): seq<Named<T>> {
    Sort((a: Named<T>, b: Named<T>) => NameLe(a, b), s)
  }

  predicate Distinct<T>(s: seq<Named<T>>) {
    forall i, j :: 0 <= i < j < |s| ==> s[i].name != s[j].name
  }

  function NamesOf<T>(s: seq<Named<T>>): set<string> {
    set i | 0 <= i < |s| :: s[i].name
  }

  predicate SortedByName<T>(s: seq<Named<T>>) {
    forall i, j :: 0 <= i < j < |s| ==> NameLe(s[i], s[j])
  }

  /** The first name equal to its neighbour's. */
  function FirstRepeat<T>(s: seq<Named<T>>): Option<string> {
    if |s| < 2 then None
    else if s[0].name == s[1].name then Some(s[1].name)
    else FirstRepeat(s[1..])
  }

  function ToMap<T>(s: seq<Named<T>>): map<string, T> {
    if |s| == 0 then map[] else ToMap(s[..|s| - 1])[s[|s| - 1].name := s[|s| - 1].value]
  }

  // ---------------------------------------------------------------- sorting

  lemma DistinctCons<T>(s: seq<Named<T>>)
    requires |s| > 0
    ensures Distinct(s) <==> s[0].name !in NamesOf(s[1..]) && Distinct(s[1..])
    ensures NamesOf(s) == {s[0].name} + NamesOf(s[1..])
  {
    forall i | 0 < i < |s| ensures s[i] == s[1..][i - 1] && s[i].name in NamesOf(s[1..]) {
      assert s[1..][i - 1].name in NamesOf(s[1..]);
    }
    if s[0].name !in NamesOf(s[1..]) && Distinct(s[1..]) {
      forall i, j | 0 <= i < j < |s| ensures s[i].name != s[j].name {
      }
    }
    forall n | n in NamesOf(s) ensures n in {s[0].name} + NamesOf(s[1..]) {
    }
    forall n | n in NamesOf(s[1..]) ensures n in NamesOf(s) {
      var i :| 0 <= i < |s[1..]| && s[1..][i].name == n;
      assert s[i + 1].name == n;
    }
  }

  lemma {:induction false} InsertDistinct<T(!new)>(le: (Named<T>, Named<T>) -> bool, x: Named<T>, s: seq<Named<T>>)
    ensures NamesOf(Insert(le, x, s)) == {x.name} + NamesOf(s)
    ensures Distinct(Insert(le, x, s)) <==> x.name !in NamesOf(s) && Distinct(s)
  {
    if |s| > 0 && !le(x, s[0]) {
      InsertDistinct(le, x, s[1..]);
      DistinctCons(s);
      ConsDistinct(s[0], Insert(le, x, s[1..]));
    } else {
      ConsDistinct(x, s);
      assert |s| == 0 ==> [x] + s == [x];
    }
  }

  lemma ConsDistinct<T>(x: Named<T>, s: seq<Named<T>>)
    ensures Distinct([x] + s) <==> x.name !in NamesOf(s) && Distinct(s)
    ensures NamesOf([x] + s) == {x.name} + NamesOf(s)
  {
    DistinctCons([x] + s);
    assert ([x] + s)[1..] == s;
  }

  lemma {:induction false} SortDistinct<T(!new)>(le: (Named<T>, Named<T>) -> bool, s: seq<Named<T>>)
    ensures NamesOf(Sort(le, s)) == NamesOf(s)
    ensures Distinct(Sort(le, s)) <==> Distinct(s)
  {
    if |s| > 0 {
      SortDistinct(le, s[1..]);
      InsertDistinct(le, s[0], Sort(le, s[1..]));
      DistinctCons(s);
    }
  }

  function ValuesOf<T>(s: seq<Named<T>>): seq<T> {
    seq(|s|, i requires 0 <= i < |s| => s[i].value)
  }

  lemma ValuesCons<T>(x: Named<T>, s: seq<Named<T>>)
    ensures ValuesOf([x] + s) == [x.value] + ValuesOf(s)
  {
  }

  lemma {:induction false} InsertValues<T(!new)>(le: (Named<T>, Named<T>) -> bool, x: Named<T>, s: seq<Named<T>>)
    ensures multiset(ValuesOf(Insert(le, x, s))) == multiset(ValuesOf(s)) + multiset{x.value}
  {
    if |s| > 0 && !le(x, s[0]) {
      InsertValues(le, x, s[1..]);
      HeadAndTail(s);
      ValuesCons(s[0], s[1..]);
      ValuesCons(s[0], Insert(le, x, s[1..]));
    } else {
      assert |s| == 0 ==> [x] + s == [x];
      ValuesCons(x, s);
    }
  }

  /** Sorting by name keeps every value, as often as it stands there. */
  lemma {:induction false} SortValues<T(!new)>(le: (Named<T>, Named<T>) -> bool, s: seq<Named<T>>)
    ensures multiset(ValuesOf(Sort(le, s))) == multiset(ValuesOf(s))
  {
    if |s| > 0 {
      SortValues(le, s[1..]);
      InsertValues(le, s[0], Sort(le, s[1..]));
      HeadAndTail(s);
      ValuesCons(s[0], s[1..]);
    }
  }

  lemma NameOrder<T(!new)>()
    ensures TotalPreorder((a: Named<T>, b: Named<T>) => NameLe(a, b))
  {
    TextOrderIsTotal();
  }

  lemma SortByNameSorts<T(!new)>(s: seq<Named<T>>)
    ensures SortedByName(SortByName(s)) && multiset(SortByName(s)) == multiset(s)
    ensures |SortByName(s)| == |s| && forall x :: x in SortByName(s) <==> x in s
    ensures Distinct(SortByName(s)) <==> Distinct(s)
  {
    var le := (a: Named<T>, b: Named<T>) => NameLe(a, b);
    NameOrder<T>();
    SortSorts(le, s);
    SameMembers(Sort(le, s), s);
    SortDistinct(le, s);
    forall i, j | 0 <= i < j < |Sort(le, s)| ensures NameLe(Sort(le, s)[i], Sort(le, s)[j]) {
      assert le(Sort(le, s)[i], Sort(le, s)[j]);
    }
  }

  /** Once sorted, looking at neighbours finds every repetition. */
  lemma {:induction false} NeighboursSuffice<T(!new)>(s: seq<Named<T>>)
    requires SortedByName(s)
    ensures FirstRepeat(s).None? <==> Distinct(s)
  {
    if |s| >= 2 {
      NeighboursSuffice(s[1..]);
      if s[0].name != s[1].name && Distinct(s[1..]) {
        TextOrderIsTotal();
        forall j | 1 < j < |s| ensures s[0].name != s[j].name {
          assert NameLe(s[0], s[1]) && NameLe(s[1], s[j]);
        }
        forall i, j | 0 <= i < j < |s| ensures s[i].name != s[j].name {
          assert i > 0 ==> s[1..][i - 1].name != s[1..][j - 1].name;
        }
      }
      if Distinct(s) {
        forall i, j | 0 <= i < j < |s[1..]| ensures s[1..][i].name != s[1..][j].name {
          assert s[i + 1].name != s[j + 1].name;
        }
      }
    }
  }

  // ---------------------------------------------------------------- the map

  lemma DistinctFront<T>(s: seq<Named<T>>)
    requires |s| > 0 && Distinct(s)
    ensures Distinct(s[..|s| - 1]) && s[|s| - 1].name !in NamesOf(s[..|s| - 1])
  {
  }

  lemma {:induction false} ToMapMembers<T(!new)>(s: seq<Named<T>>)
    requires Distinct(s)
    ensures forall n, v :: n in ToMap(s) && ToMap(s)[n] == v <==> Named(n, v) in s
    ensures ToMap(s).Keys == NamesOf(s)
  {
    if |s| > 0 {
      var front, last := s[..|s| - 1], s[|s| - 1];
      DistinctFront(s);
      ToMapMembers(front);
      FrontAndLast(s);
      NamesPush(front, last);
      MapPush(ToMap(front), front, last);
    }
  }

  lemma NamesPush<T>(front: seq<Named<T>>, last: Named<T>)
    ensures NamesOf(front + [last]) == NamesOf(front) + {last.name}
  {
    var s := front + [last];
    assert s[|front|] == last;
    forall i | 0 <= i < |front| ensures s[i].name in NamesOf(s) && s[i] == front[i] {
    }
  }

  lemma MapPush<T(!new)>(m: map<string, T>, front: seq<Named<T>>, last: Named<T>)
    requires forall n, v :: n in m && m[n] == v <==> Named(n, v) in front
    requires last.name !in m
    ensures forall n, v :: n in m[last.name := last.value] && m[last.name := last.value][n] == v <==>
        Named(n, v) in front + [last]
  {
  }

  lemma {:induction false} DistinctCounts<T>(s: seq<Named<T>>, x: Named<T>)
    requires Distinct(s)
    ensures multiset(s)[x] == if x in s then 1 else 0
  {
    if |s| > 0 {
      var front, last := s[..|s| - 1], s[|s| - 1];
      DistinctFront(s);
      DistinctCounts(front, x);
      assert s == front + [last];
      assert last !in front;
    }
  }

  lemma SameMapSameContents<T(!new)>(a: seq<Named<T>>, b: seq<Named<T>>)
    requires Distinct(a) && Distinct(b) && ToMap(a) == ToMap(b)
    ensures multiset(a) == multiset(b)
  {
    ToMapMembers(a);
    ToMapMembers(b);
    forall x ensures multiset(a)[x] == multiset(b)[x] {
      DistinctCounts(a, x);
      DistinctCounts(b, x);
      assert x in a <==> x in b by {
        assert x == Named(x.name, x.value);
      }
    }
  }

  /** Lists without a repeated name are arranged alike by sorting exactly when they stand for one map. */
  lemma SortedIffSameMap<T(!new)>(a: seq<Named<T>>, b: seq<Named<T>>)
    requires Distinct(a) && Distinct(b)
    ensures SortByName(a) == SortByName(b) <==> ToMap(a) == ToMap(b)
  {
    SortByNameSorts(a);
    SortByNameSorts(b);
    if ToMap(a) == ToMap(b) {
      SameMapSameContents(a, b);
      SortedAlike(SortByName(a), SortByName(b));
    }
    if SortByName(a) == SortByName(b) {
      SameContentsSameMap(a, b);
    }
  }

  lemma SortedAlike<T(!new)>(a: seq<Named<T>>, b: seq<Named<T>>)
    requires SortedByName(a) && SortedByName(b) && multiset(a) == multiset(b) && Distinct(a)
    ensures a == b
  {
    var le := (x: Named<T>, y: Named<T>) => NameLe(x, y);
    NameOrder<T>();
    TextOrderIsTotal();
    SortedIsUnique(le, a, b);
  }

  lemma SameContentsSameMap<T(!new)>(a: seq<Named<T>>, b: seq<Named<T>>)
    requires Distinct(a) && Distinct(b) && multiset(a) == multiset(b)
    ensures ToMap(a) == ToMap(b)
  {
    ToMapMembers(a);
    ToMapMembers(b);
    SameMembers(a, b);
    forall n ensures n in ToMap(a) <==> n in ToMap(b) {
      if n in ToMap(a) {
        assert Named(n, ToMap(a)[n]) in b;
      }
      if n in ToMap(b) {
        assert Named(n, ToMap(b)[n]) in a;
      }
    }
    forall n | n in ToMap(a) ensures ToMap(a)[n] == ToMap(b)[n] {
      assert Named(n, ToMap(a)[n]) in b;
    }
  }
}
