/** Rendering a point's attributes as a label list, and why equal strings mean equal label maps. */
module PrometheusLabels {
  import opened Wrappers
  import opened Model
  import opened NamedLists
  import opened Exposition

  datatype Error =
    | EmptyMetricName
    | EmptyLabelName(metric: string)
    | LabelCollision(name: string, metric: string)
    | DuplicateSeries(labels: string, metric: string)
    | FamilyCollision(sample: string)
    | NonFiniteBoundary(metric: string)

  /** A value's text: strings as they are, the rest through their display form. */
  function TextOf(show: Value -> string, v: Value): string {
    if v.String? then v.text else show(v)
  }

  // ---------------------------------------------------------------- specification

  /** The labels of the attributes that have a value, in the order given. */
  function LabelsOf(show: Value -> string, attrs: seq<KeyValue>): seq<Label> {
    if |attrs| == 0 then []
    else
      var a := attrs[|attrs| - 1];
      LabelsOf(show, attrs[..|attrs| - 1]) +
      if a.value.Some? then [Named(SanitizeLabelName(a.key), TextOf(show, a.value.value))] else []
  }

  predicate BadKey(a: KeyValue, reserved: seq<string>) {
    a.value.Some? && (a.key == "" || SanitizeLabelName(a.key) in reserved)
  }

  predicate NoneBad(attrs: seq<KeyValue>, reserved: seq<string>) {
    forall i :: 0 <= i < |attrs| ==> !BadKey(attrs[i], reserved)
  }

  /** What a well-formed sample needs: no empty or reserved name, and no name twice. */
  predicate Renderable(attrs: seq<KeyValue>, reserved: seq<string>) {
    NoneBad(attrs, reserved) && NamesDiffer(attrs)
  }

  /** No two attributes with a value have one sanitized name. */
  predicate NamesDiffer(attrs: seq<KeyValue>) {
    forall i, j :: 0 <= i < j < |attrs| && attrs[i].value.Some? && attrs[j].value.Some? ==>
      SanitizeLabelName(attrs[i].key) != SanitizeLabelName(attrs[j].key)
  }

  /** The error for the first attribute that cannot be a label. */
  function FirstBad(metric: string, attrs: seq<KeyValue>, reserved: seq<string>): (r: Option<Error>)
    ensures r.None? <==> forall i :: 0 <= i < |attrs| ==> !BadKey(attrs[i], reserved)
  {
    if |attrs| == 0 then None
    else
      var front, a := FirstBad(metric, attrs[..|attrs| - 1], reserved), attrs[|attrs| - 1];
      if front.Some? then front
      else if a.value.None? then None
      else if a.key == "" then Some(EmptyLabelName(metric))
      else if SanitizeLabelName(a.key) in reserved then Some(LabelCollision(SanitizeLabelName(a.key), metric))
      else None
  }

  /** The label string, or the error: bad names come before repeated ones. */
  function RenderLabels(
    show: Value -> string, metric: string, attrs: seq<KeyValue>, reserved: seq<string>): Result<string, Error>
  {
    var bad, sorted := FirstBad(metric, attrs, reserved), SortByName(LabelsOf(show, attrs));
    if bad.Some? then Err(bad.value)
    else if FirstRepeat(sorted).Some? then Err(LabelCollision(FirstRepeat(sorted).value, metric))
    else Ok(PrintLabels(sorted))
  }

  // ---------------------------------------------------------------- what the string means

  lemma {:induction false} LabelNamesOk(show: Value -> string, attrs: seq<KeyValue>, reserved: seq<string>)
    requires forall i :: 0 <= i < |attrs| ==> !BadKey(attrs[i], reserved)
    ensures forall l :: l in LabelsOf(show, attrs) ==> LabelNameOk(l.name) && l.name !in reserved
  {
    if |attrs| > 0 {
      LabelNamesOk(show, attrs[..|attrs| - 1], reserved);
      if attrs[|attrs| - 1].value.Some? {
        LabelNamesAreSanitized(attrs[|attrs| - 1].key);
      }
    }
  }

  /** Some attribute with a value has `n` as its sanitized key and `t` as its text: a string is its own text, any
      other value's text is its display form. */
  ghost predicate Carries(show: Value -> string, attrs: seq<KeyValue>, n: string, t: string) {
    exists i :: 0 <= i < |attrs| && CarriesAt(show, attrs[i], n, t)
  }

  predicate CarriesAt(show: Value -> string, a: KeyValue, n: string, t: string) {
    && a.value.Some? && SanitizeLabelName(a.key) == n
    && match a.value.value
       case String(text) => t == text
       case _ => t == show(a.value.value)
  }

  lemma CarriesPush(show: Value -> string, attrs: seq<KeyValue>, n: string, t: string)
    requires |attrs| > 0
    ensures Carries(show, attrs, n, t) <==>
            Carries(show, attrs[..|attrs| - 1], n, t) || CarriesAt(show, attrs[|attrs| - 1], n, t)
  {
    var front := attrs[..|attrs| - 1];
    assert forall i :: 0 <= i < |front| ==> front[i] == attrs[i];
  }

  lemma {:induction false} LabelsCarry(show: Value -> string, attrs: seq<KeyValue>, n: string, t: string)
    ensures Named(n, t) in LabelsOf(show, attrs) <==> Carries(show, attrs, n, t)
  {
    if |attrs| > 0 {
      LabelsCarry(show, attrs[..|attrs| - 1], n, t);
      CarriesPush(show, attrs, n, t);
    }
  }

  predicate NamesIt(a: KeyValue, n: string) {
    a.value.Some? && SanitizeLabelName(a.key) == n
  }

  ghost predicate NamedBy(attrs: seq<KeyValue>, n: string) {
    exists i :: 0 <= i < |attrs| && NamesIt(attrs[i], n)
  }

  lemma NamedByPush(front: seq<KeyValue>, a: KeyValue, n: string)
    ensures NamedBy(front + [a], n) <==> NamedBy(front, n) || NamesIt(a, n)
  {
    var attrs := front + [a];
    assert forall i :: 0 <= i < |front| ==> front[i] == attrs[i];
    assert attrs[|front|] == a;
  }

  lemma {:induction false} LabelsAreNamed(show: Value -> string, attrs: seq<KeyValue>, n: string)
    ensures n in NamesOf(LabelsOf(show, attrs)) <==> NamedBy(attrs, n)
  {
    if |attrs| > 0 {
      var front, a := attrs[..|attrs| - 1], attrs[|attrs| - 1];
      LabelsAreNamed(show, front, n);
      assert attrs == front + [a];
      NamedByPush(front, a, n);
      if a.value.Some? {
        NamesPush(LabelsOf(show, front), Named(SanitizeLabelName(a.key), TextOf(show, a.value.value)));
      } else {
        assert LabelsOf(show, attrs) == LabelsOf(show, front);
      }
    }
  }

  lemma {:induction false} LabelNamesDiffer(show: Value -> string, attrs: seq<KeyValue>)
    ensures Distinct(LabelsOf(show, attrs)) <==> NamesDiffer(attrs)
  {
    if |attrs| > 0 {
      var front, a := attrs[..|attrs| - 1], attrs[|attrs| - 1];
      LabelNamesDiffer(show, front);
      assert attrs == front + [a];
      NamesDifferPush(front, a);
      if a.value.Some? {
        LabelsAreNamed(show, front, SanitizeLabelName(a.key));
        LabelsDifferPush(LabelsOf(show, front), Named(SanitizeLabelName(a.key), TextOf(show, a.value.value)));
      } else {
        assert LabelsOf(show, attrs) == LabelsOf(show, front);
      }
    }
  }

  lemma NamesDifferPush(front: seq<KeyValue>, a: KeyValue)
    ensures NamesDiffer(front + [a]) <==>
            NamesDiffer(front) && (a.value.Some? ==> !NamedBy(front, SanitizeLabelName(a.key)))
  {
    var attrs := front + [a];
    assert attrs[|front|] == a && forall i :: 0 <= i < |front| ==> front[i] == attrs[i];
    if NamesDiffer(attrs) && a.value.Some? {
      forall i | 0 <= i < |front| ensures !NamesIt(front[i], SanitizeLabelName(a.key)) {
        assert attrs[i].value.Some? ==> SanitizeLabelName(attrs[i].key) != SanitizeLabelName(attrs[|front|].key);
      }
    }
    if NamesDiffer(front) && (a.value.Some? ==> !NamedBy(front, SanitizeLabelName(a.key))) {
      forall i, j | 0 <= i < j < |attrs| && attrs[i].value.Some? && attrs[j].value.Some?
        ensures SanitizeLabelName(attrs[i].key) != SanitizeLabelName(attrs[j].key)
      {
        assert j == |front| ==> !NamesIt(front[i], SanitizeLabelName(a.key));
      }
    }
  }

  lemma LabelsDifferPush(front: seq<Label>, l: Label)
    ensures Distinct(front + [l]) <==> Distinct(front) && l.name !in NamesOf(front)
  {
    var all := front + [l];
    assert forall i :: 0 <= i < |front| ==> front[i] == all[i];
    assert all[|front|] == l;
    if Distinct(front) && l.name !in NamesOf(front) {
      forall i, j | 0 <= i < j < |all| ensures all[i].name != all[j].name {
        assert all[i] == front[i] && front[i].name in NamesOf(front);
      }
    }
  }

  /** Rendering succeeds exactly on renderable attributes. */
  lemma RendersIff(show: Value -> string, metric: string, attrs: seq<KeyValue>, reserved: seq<string>)
    ensures RenderLabels(show, metric, attrs, reserved).Ok? <==> Renderable(attrs, reserved)
  {
    SortByNameSorts(LabelsOf(show, attrs));
    NeighboursSuffice(SortByName(LabelsOf(show, attrs)));
    LabelNamesDiffer(show, attrs);
  }

  /** The string parses back to the sorted label list, whose names are well-formed, not reserved, and all
      different. */
  lemma LabelsParseBack(show: Value -> string, metric: string, attrs: seq<KeyValue>, reserved: seq<string>)
    requires RenderLabels(show, metric, attrs, reserved).Ok?
    ensures var ls := SortByName(LabelsOf(show, attrs));
            && RenderLabels(show, metric, attrs, reserved).value == PrintLabels(ls)
            && ParseLabels(PrintLabels(ls)) == Some(ls)
            && SortedByName(ls) && Distinct(ls) && Readable(ls)
            && (forall l :: l in ls ==> LabelNameOk(l.name) && l.name !in reserved)
            && multiset(ls) == multiset(LabelsOf(show, attrs))
  {
    var ls := SortByName(LabelsOf(show, attrs));
    RendersIff(show, metric, attrs, reserved);
    LabelNamesDiffer(show, attrs);
    SortByNameSorts(LabelsOf(show, attrs));
    LabelNamesOk(show, attrs, reserved);
    forall i | 0 <= i < |ls| ensures '=' !in ls[i].name {
      assert ls[i] in ls && LabelNameOk(ls[i].name);
    }
    ParseLabelsInverts(ls);
  }

  /** Two rendered strings are equal exactly when the label maps are: comparing strings finds every duplicate
      and nothing else. */
  lemma SameStringIffSameMap(
    show: Value -> string, metric: string, a: seq<KeyValue>, b: seq<KeyValue>, ra: seq<string>, rb: seq<string>)
    requires RenderLabels(show, metric, a, ra).Ok? && RenderLabels(show, metric, b, rb).Ok?
    ensures RenderLabels(show, metric, a, ra).value == RenderLabels(show, metric, b, rb).value <==>
            ToMap(LabelsOf(show, a)) == ToMap(LabelsOf(show, b))
  {
    LabelsParseBack(show, metric, a, ra);
    LabelsParseBack(show, metric, b, rb);
    RendersIff(show, metric, a, ra);
    RendersIff(show, metric, b, rb);
    LabelNamesDiffer(show, a);
    LabelNamesDiffer(show, b);
    SortedIffSameMap(LabelsOf(show, a), LabelsOf(show, b));
  }

  /** The list is the attributes' labels: those of the attributes with a value and no others, by name, each name
      once. */
  ghost predicate Describes(show: Value -> string, attrs: seq<KeyValue>, ls: seq<Label>) {
    && SortedByName(ls) && Distinct(ls)
    && forall n, t :: Named(n, t) in ls <==> Carries(show, attrs, n, t)
  }

  lemma ListDescribes(show: Value -> string, attrs: seq<KeyValue>)
    requires NamesDiffer(attrs)
    ensures Describes(show, attrs, SortByName(LabelsOf(show, attrs)))
  {
    LabelNamesDiffer(show, attrs);
    SortByNameSorts(LabelsOf(show, attrs));
    forall n, t ensures Named(n, t) in SortByName(LabelsOf(show, attrs)) <==> Carries(show, attrs, n, t) {
      LabelsCarry(show, attrs, n, t);
    }
  }

  /** The rendered string parses to the attributes' labels, keys sanitized and texts unchanged. */
  lemma LabelsSayTheAttributes(show: Value -> string, metric: string, attrs: seq<KeyValue>, reserved: seq<string>)
      returns (ls: seq<Label>)
    requires RenderLabels(show, metric, attrs, reserved).Ok?
    ensures ParseLabels(RenderLabels(show, metric, attrs, reserved).value) == Some(ls)
    ensures Describes(show, attrs, ls)
  {
    LabelsParseBack(show, metric, attrs, reserved);
    RendersIff(show, metric, attrs, reserved);
    ListDescribes(show, attrs);
    ls := SortByName(LabelsOf(show, attrs));
  }

  /** No other list is. */
  lemma DescribedOnce(show: Value -> string, attrs: seq<KeyValue>, a: seq<Label>, b: seq<Label>)
    requires Describes(show, attrs, a) && Describes(show, attrs, b)
    ensures a == b
  {
    forall x ensures multiset(a)[x] == multiset(b)[x] {
      DistinctCounts(a, x);
      DistinctCounts(b, x);
      assert x == Named(x.name, x.value);
    }
    SortedAlike(a, b);
  }

  ghost predicate SameLabels(show: Value -> string, a: seq<KeyValue>, b: seq<KeyValue>) {
    forall n, t :: Carries(show, a, n, t) <==> Carries(show, b, n, t)
  }

  /** Two rendered strings are equal exactly when the attributes carry the same labels. */
  lemma SameStringIffSameLabels(
    show: Value -> string, metric: string, a: seq<KeyValue>, b: seq<KeyValue>, ra: seq<string>, rb: seq<string>)
    requires RenderLabels(show, metric, a, ra).Ok? && RenderLabels(show, metric, b, rb).Ok?
    ensures RenderLabels(show, metric, a, ra).value == RenderLabels(show, metric, b, rb).value <==>
            SameLabels(show, a, b)
  {
    var la := LabelsSayTheAttributes(show, metric, a, ra);
    var lb := LabelsSayTheAttributes(show, metric, b, rb);
    LabelsParseBack(show, metric, a, ra);
    LabelsParseBack(show, metric, b, rb);
    if SameLabels(show, a, b) {
      DescribedOnce(show, a, la, lb);
    }
  }

  // ---------------------------------------------------------------- what an error means

  ghost predicate BadAt(attrs: seq<KeyValue>, reserved: seq<string>, i: nat) {
    && i < |attrs| && BadKey(attrs[i], reserved)
    && forall k :: 0 <= k < i ==> !BadKey(attrs[k], reserved)
  }

  lemma {:induction false} FirstBadIsFirst(metric: string, attrs: seq<KeyValue>, reserved: seq<string>) returns (i: nat)
    requires FirstBad(metric, attrs, reserved).Some?
    ensures BadAt(attrs, reserved, i)
    ensures FirstBad(metric, attrs, reserved).value ==
            if attrs[i].key == "" then EmptyLabelName(metric)
            else LabelCollision(SanitizeLabelName(attrs[i].key), metric)
  {
    var n := |attrs| - 1;
    if FirstBad(metric, attrs[..n], reserved).Some? {
      i := FirstBadIsFirst(metric, attrs[..n], reserved);
    } else {
      i := n;
      assert forall k :: 0 <= k < n ==> !BadKey(attrs[..n][k], reserved);
    }
  }

  lemma {:induction false} FirstRepeatRepeats<T(!new)>(s: seq<Named<T>>) returns (i: nat)
    requires FirstRepeat(s).Some?
    ensures i + 1 < |s| && s[i].name == s[i + 1].name == FirstRepeat(s).value
  {
    if s[0].name == s[1].name {
      i := 0;
    } else {
      i := FirstRepeatRepeats(s[1..]);
      i := i + 1;
    }
  }

  /** The first attribute at fault has the reserved name `n`. */
  ghost predicate ReservedFirst(attrs: seq<KeyValue>, reserved: seq<string>, n: string) {
    exists i: nat :: BadAt(attrs, reserved, i) && attrs[i].key != "" && NamesIt(attrs[i], n) && n in reserved
  }

  /** A failed rendering names the fault: the first attribute in order whose key is empty or whose name is reserved;
      or, if there is none, a sanitized name that two attributes share. */
  lemma ErrorNamesTheFault(show: Value -> string, metric: string, attrs: seq<KeyValue>, reserved: seq<string>)
    requires RenderLabels(show, metric, attrs, reserved).Err?
    ensures match RenderLabels(show, metric, attrs, reserved).error
            case EmptyLabelName(m) => m == metric && exists i: nat :: BadAt(attrs, reserved, i) && attrs[i].key == ""
            case LabelCollision(n, m) =>
              m == metric && (ReservedFirst(attrs, reserved, n) || (NoneBad(attrs, reserved) && SharedBy(attrs, n)))
            case _ => false
  {
    if FirstBad(metric, attrs, reserved).Some? {
      var i := FirstBadIsFirst(metric, attrs, reserved);
      assert BadAt(attrs, reserved, i);
    } else {
      var labels := LabelsOf(show, attrs);
      var i := FirstRepeatRepeats(SortByName(labels));
      SortByNameSorts(labels);
      var p, q := TwiceNamed(SortByName(labels), labels, i);
      SharedName(show, attrs, p, q);
    }
  }

  ghost predicate SharedBy(attrs: seq<KeyValue>, n: string) {
    exists i, j :: 0 <= i < j < |attrs| && NamesIt(attrs[i], n) && NamesIt(attrs[j], n)
  }

  lemma {:induction false} Twice<T(!new)>(s: seq<T>, x: T) returns (p: nat, q: nat)
    requires multiset(s)[x] >= 2
    ensures p < q < |s| && s[p] == s[q] == x
  {
    var n := |s| - 1;
    assert s == s[..n] + [s[n]];
    if s[n] == x {
      assert x in s[..n];
      p :| 0 <= p < n && s[p] == x;
      q := n;
    } else {
      p, q := Twice(s[..n], x);
    }
  }

  /** A name that stands twice in an arrangement of a list stands twice in the list. */
  lemma TwiceNamed<T(!new)>(sorted: seq<Named<T>>, labels: seq<Named<T>>, i: nat) returns (p: nat, q: nat)
    requires multiset(sorted) == multiset(labels) && i + 1 < |sorted| && sorted[i].name == sorted[i + 1].name
    ensures p < q < |labels| && labels[p].name == labels[q].name == sorted[i].name
  {
    var x, y := sorted[i], sorted[i + 1];
    if x == y {
      assert sorted == sorted[..i] + [x, x] + sorted[i + 2..];
      p, q := Twice(labels, x);
    } else {
      assert x in multiset(sorted) && y in multiset(sorted);
      p :| 0 <= p < |labels| && labels[p] == x;
      q :| 0 <= q < |labels| && labels[q] == y;
      if q < p {
        p, q := q, p;
      }
    }
  }

  lemma {:induction false} SharedName(show: Value -> string, attrs: seq<KeyValue>, p: nat, q: nat)
    requires p < q < |LabelsOf(show, attrs)| && LabelsOf(show, attrs)[p].name == LabelsOf(show, attrs)[q].name
    ensures SharedBy(attrs, LabelsOf(show, attrs)[p].name)
  {
    var n := |attrs| - 1;
    var front, labels := LabelsOf(show, attrs[..n]), LabelsOf(show, attrs);
    if q < |front| {
      SharedName(show, attrs[..n], p, q);
      var i, j :| 0 <= i < j < n && NamesIt(attrs[..n][i], labels[p].name) && NamesIt(attrs[..n][j], labels[p].name);
      assert NamesIt(attrs[i], labels[p].name) && NamesIt(attrs[j], labels[p].name);
    } else {
      LabelsAreNamed(show, attrs[..n], front[p].name);
      assert front[p].name in NamesOf(front);
      var i :| 0 <= i < n && NamesIt(attrs[..n][i], front[p].name);
      assert NamesIt(attrs[i], labels[p].name) && NamesIt(attrs[n], labels[p].name);
    }
  }

  // ---------------------------------------------------------------- the loops

  method Gather(show: Value -> string, metric: string, attrs: seq<KeyValue>, reserved: seq<string>)
      returns (r: Result<seq<Label>, Error>)
    ensures r == var bad := FirstBad(metric, attrs, reserved);
                 if bad.Some? then Err(bad.value) else Ok(LabelsOf(show, attrs))
    ensures r.Ok? <==> NoneBad(attrs, reserved)
    ensures r.Ok? ==> forall n, t :: Named(n, t) in r.value <==> Carries(show, attrs, n, t)
  {
    forall n, t ensures Named(n, t) in LabelsOf(show, attrs) <==> Carries(show, attrs, n, t) {
      LabelsCarry(show, attrs, n, t);
    }
    var labels := [];
    for i := 0 to |attrs|
      invariant labels == LabelsOf(show, attrs[..i]) && FirstBad(metric, attrs[..i], reserved).None?
    {
      assert attrs[..i + 1][..i] == attrs[..i];
      var a := attrs[i];
      if a.value.Some? {
        if a.key == "" {
          FirstBadStays(metric, attrs, reserved, i + 1);
          return Err(EmptyLabelName(metric));
        }
        var name := SanitizeLabel(a.key);
        if name in reserved {
          FirstBadStays(metric, attrs, reserved, i + 1);
          return Err(LabelCollision(name, metric));
        }
        labels := labels + [Named(name, TextOf(show, a.value.value))];
      }
    }
    assert attrs[..|attrs|] == attrs;
    r := Ok(labels);
  }

  lemma {:induction false} FirstBadStays(metric: string, attrs: seq<KeyValue>, reserved: seq<string>, n: nat)
    requires n <= |attrs| && FirstBad(metric, attrs[..n], reserved).Some?
    ensures FirstBad(metric, attrs, reserved) == FirstBad(metric, attrs[..n], reserved)
    decreases |attrs|
  {
    if n < |attrs| {
      var front := attrs[..|attrs| - 1];
      assert front[..n] == attrs[..n];
      FirstBadStays(metric, front, reserved, n);
    } else {
      assert attrs[..n] == attrs;
    }
  }

  method PrintOne(l: Label, out: string) returns (r: string)
    ensures r == out + PrintLabel(l)
  {
    r := out + l.name;
    r := r + "=\"";
    Assoc(out, l.name, "=\"");
    r := EscapeInto(l.value, true, r);
    Assoc(out, l.name + "=\"", Escape(l.value, true));
    r := r + "\"";
    Assoc(out, l.name + "=\"" + Escape(l.value, true), "\"");
  }

  method Print(labels: seq<Label>) returns (out: string)
    requires forall i :: 0 <= i < |labels| ==> labels[i].name != ""
    ensures out == PrintLabels(labels)
  {
    out := "";
    for i := 0 to |labels|
      invariant out == PrintLabels(labels[..i]) && (out == "" <==> i == 0)
    {
      PrintLabelsPush(labels[..i], labels[i]);
      assert labels[..i + 1] == labels[..i] + [labels[i]];
      if out != "" {
        out := out + ",";
      }
      out := PrintOne(labels[i], out);
    }
    assert labels[..|labels|] == labels;
  }

  method Render(show: Value -> string, metric: string, attrs: seq<KeyValue>, reserved: seq<string>)
      returns (r: Result<string, Error>)
    ensures r == RenderLabels(show, metric, attrs, reserved)
    ensures r.Ok? <==> Renderable(attrs, reserved)
    ensures r.Ok? ==> exists ls :: Describes(show, attrs, ls) && r.value == PrintLabels(ls)
  {
    RendersIff(show, metric, attrs, reserved);
    var gathered := Gather(show, metric, attrs, reserved);
    if gathered.Err? {
      return Err(gathered.error);
    }
    var sorted := SortByName(gathered.value);
    SortByNameSorts(gathered.value);
    LabelNamesOk(show, attrs, reserved);
    var repeated := FirstRepeat(sorted);
    if repeated.Some? {
      return Err(LabelCollision(repeated.value, metric));
    }
    forall i | 0 <= i < |sorted| ensures sorted[i].name != "" {
      assert sorted[i] in gathered.value;
    }
    var out := Print(sorted);
    ghost var ls := LabelsSayTheAttributes(show, metric, attrs, reserved);
    LabelsParseBack(show, metric, attrs, reserved);
    r := Ok(out);
  }
}
