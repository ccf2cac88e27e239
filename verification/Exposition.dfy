/** The text exposition format: what is printed, and a reader that takes it apart again.

    Prometheus, "Exposition formats", section "Text-based format": a sample line is a metric name, an optional
    label list in braces, and a value; label values escape backslash, double quote and line feed. */
module Exposition {
  import opened Wrappers
  import opened NamedLists

  /** A label is a name with its value. */
  type Label = Named<string>

  datatype Sample = Sample(name: string, labels: seq<Label>, value: string)

  // ---------------------------------------------------------------- names

  predicate Digit(c: char) {
    '0' <= c <= '9'
  }

  predicate Alnum(c: char) {
    Digit(c) || 'a' <= c <= 'z' || 'A' <= c <= 'Z'
  }

  /** Allowed in a label name, or, with `colon`, in a metric name. */
  predicate NameChar(c: char, colon: bool) {
    Alnum(c) || c == '_' || (colon && c == ':')
  }

  predicate NameOk(s: string, colon: bool) {
    |s| > 0 && !Digit(s[0]) && forall i :: 0 <= i < |s| ==> NameChar(s[i], colon)
  }

  /** A label name that is neither malformed nor reserved for internal use. */
  predicate LabelNameOk(s: string) {
    NameOk(s, false) && !("__" <= s)
  }

  function Cleaned(s: string, colon: bool): string {
    (if |s| > 0 && Digit(s[0]) then "_" else "") +
    seq(|s|, i requires 0 <= i < |s| => if NameChar(s[i], colon) then s[i] else '_')
  }

  function SanitizeLabelName(s: string): string {
    if "__" <= Cleaned(s, false) then "label" + Cleaned(s, false) else Cleaned(s, false)
  }

  /** A metric name becomes well-formed, and is left alone exactly when it was. */
  lemma MetricNamesAreSanitized(s: string)
    requires s != ""
    ensures NameOk(Cleaned(s, true), true)
    ensures Cleaned(s, true) == s <==> NameOk(s, true)
  {
    CleanedIsClean(s, true);
  }

  lemma CleanedIsClean(s: string, colon: bool)
    requires s != ""
    ensures NameOk(Cleaned(s, colon), colon)
    ensures Cleaned(s, colon) == s <==> NameOk(s, colon)
  {
    if Digit(s[0]) {
      assert |Cleaned(s, colon)| == |s| + 1;
    }
  }

  /** A label name becomes well-formed and free of the reserved prefix, and is left alone exactly when it was
      both. */
  lemma LabelNamesAreSanitized(s: string)
    requires s != ""
    ensures LabelNameOk(SanitizeLabelName(s))
    ensures SanitizeLabelName(s) == s <==> LabelNameOk(s)
  {
    CleanedIsClean(s, false);
    var t := Cleaned(s, false);
    if "__" <= t {
      assert ("label" + t)[0] == 'l' && ("label" + t)[1] == 'a';
      assert forall i :: 5 <= i < |t| + 5 ==> ("label" + t)[i] == t[i - 5];
      assert |t| <= |s| + 1 && |"label" + t| > |s|;
    }
  }

  /** `t` is `s` with each character outside the alphabet replaced by an underscore, and one more underscore before a
      leading digit. */
  predicate Replaces(s: string, colon: bool, t: string) {
    var more := if |s| > 0 && '0' <= s[0] <= '9' then 1 else 0;
    && |t| == |s| + more && (more == 1 ==> t[0] == '_')
    && forall i :: 0 <= i < |s| ==>
         t[more + i] ==
         if 'a' <= s[i] <= 'z' || 'A' <= s[i] <= 'Z' || '0' <= s[i] <= '9' || (s[i] == ':' && colon) then s[i] else '_'
  }

  lemma CleanedCharacters(s: string, colon: bool)
    ensures Replaces(s, colon, Cleaned(s, colon))
  {
  }

  /** What sanitizing a label name does to each character; one that would start with two underscores gets a prefix. */
  lemma SanitizedCharacters(s: string)
    ensures var t := SanitizeLabelName(s);
            || (Replaces(s, false, t) && !("__" <= t))
            || ("label__" <= t && Replaces(s, false, t[5..]))
  {
    var t := Cleaned(s, false);
    CleanedCharacters(s, false);
    if "__" <= t {
      assert ("label" + t)[5..] == t;
      assert ("label" + t)[..7] == "label__";
    }
  }

  /** The loop over the characters. */
  method Clean(name: string, colon: bool) returns (out: string)
    ensures out == Cleaned(name, colon)
  {
    out := "";
    for i := 0 to |name|
      invariant out == if i == 0 then "" else Cleaned(name, colon)[..i + if Digit(name[0]) then 1 else 0]
    {
      if i == 0 && Digit(name[i]) {
        out := out + "_";
      }
      out := out + [if NameChar(name[i], colon) then name[i] else '_'];
    }
  }

  method SanitizeMetricName(name: string) returns (out: string)
    ensures out == Cleaned(name, true)
    ensures name != "" ==> NameOk(out, true)
    ensures Replaces(name, true, out)
  {
    CleanedCharacters(name, true);
    if name != "" {
      MetricNamesAreSanitized(name);
    }
    out := Clean(name, true);
  }

  method SanitizeLabel(name: string) returns (out: string)
    ensures out == SanitizeLabelName(name)
    ensures name != "" ==> LabelNameOk(out)
    ensures (Replaces(name, false, out) && !("__" <= out)) || ("label__" <= out && Replaces(name, false, out[5..]))
  {
    SanitizedCharacters(name);
    if name != "" {
      LabelNamesAreSanitized(name);
    }
    out := Clean(name, false);
    if "__" <= out {
      out := "label" + out;
    }
  }

  // ---------------------------------------------------------------- escaping

  function EscapeChar(c: char, quote: bool): string {
    if c == '\\' then "\\\\"
    else if c == '\n' then "\\n"
    else if quote && c == '"' then "\\\""
    else [c]
  }

  /** With `quote` as in a label value, without as in help text. */
  function Escape(s: string, quote: bool): string {
    if |s| == 0 then "" else EscapeChar(s[0], quote) + Escape(s[1..], quote)
  }

  lemma {:induction false} EscapePush(s: string, c: char, quote: bool)
    ensures Escape(s + [c], quote) == Escape(s, quote) + EscapeChar(c, quote)
  {
    if |s| > 0 {
      EscapePush(s[1..], c, quote);
      assert (s + [c])[1..] == s[1..] + [c];
    }
  }

  lemma {:induction false} EscapedStaysOnTheLine(s: string, quote: bool)
    ensures '\n' !in Escape(s, quote)
  {
    if |s| > 0 {
      EscapedStaysOnTheLine(s[1..], quote);
    }
  }

  /** Text without anything to escape is printed as it is. */
  lemma {:induction false} PlainIsNotEscaped(s: string)
    requires '\\' !in s && '"' !in s && '\n' !in s
    ensures Escape(s, true) == s
  {
    if |s| > 0 {
      assert s == [s[0]] + s[1..];
      PlainIsNotEscaped(s[1..]);
    }
  }

  method EscapeInto(text: string, quote: bool, out: string) returns (r: string)
    ensures r == out + Escape(text, quote)
  {
    r := out;
    for i := 0 to |text|
      invariant r == out + Escape(text[..i], quote)
    {
      EscapePush(text[..i], text[i], quote);
      Assoc(out, Escape(text[..i], quote), EscapeChar(text[i], quote));
      assert text[..i + 1] == text[..i] + [text[i]];
      r := r + EscapeChar(text[i], quote);
    }
    assert text[..|text|] == text;
  }

  /** Reads an escaped value up to its closing quote; returns it and what follows. */
  function ReadValue(s: string): Option<(string, string)> {
    if |s| == 0 || s[0] == '\n' then None
    else if s[0] == '"' then Some(("", s[1..]))
    else if s[0] != '\\' then Prefixed(s[0], ReadValue(s[1..]))
    else if |s| < 2 then None
    else if s[1] == '\\' || s[1] == '"' then Prefixed(s[1], ReadValue(s[2..]))
    else if s[1] == 'n' then Prefixed('\n', ReadValue(s[2..]))
    else None
  }

  function Prefixed(c: char, r: Option<(string, string)>): Option<(string, string)> {
    if r.Some? then Some(([c] + r.value.0, r.value.1)) else None
  }

  lemma Assoc(a: string, b: string, c: string)
    ensures a + b + c == a + (b + c)
  {
  }

  lemma ReadEscapedChar(c: char, tail: string)
    ensures ReadValue(EscapeChar(c, true) + tail) == Prefixed(c, ReadValue(tail))
  {
    assert (EscapeChar(c, true) + tail)[|EscapeChar(c, true)|..] == tail;
  }

  lemma {:induction false} ReadValueInverts(text: string, rest: string)
    ensures ReadValue(Escape(text, true) + "\"" + rest) == Some((text, rest))
  {
    if |text| == 0 {
      assert ("\"" + rest)[1..] == rest;
    } else {
      ReadValueInverts(text[1..], rest);
      var c, tail := EscapeChar(text[0], true), Escape(text[1..], true);
      ReadEscapedChar(text[0], tail + "\"" + rest);
      Assoc(c, tail, "\"");
      Assoc(c, tail + "\"", rest);
      assert text == [text[0]] + text[1..];
    }
  }

  // ---------------------------------------------------------------- label lists

  function PrintLabel(l: Label): string {
    l.name + "=\"" + Escape(l.value, true) + "\""
  }

  function PrintLabels(ls: seq<Label>): string {
    if |ls| == 0 then ""
    else if |ls| == 1 then PrintLabel(ls[0])
    else PrintLabel(ls[0]) + "," + PrintLabels(ls[1..])
  }

  /** Reads up to, and drops, the first occurrence of `stop`. */
  function ReadUpTo(s: string, stop: char): Option<(string, string)> {
    if |s| == 0 then None
    else if s[0] == stop then Some(("", s[1..]))
    else Prefixed(s[0], ReadUpTo(s[1..], stop))
  }

  lemma {:induction false} ReadUpToInverts(s: string, stop: char, rest: string)
    requires stop !in s
    ensures ReadUpTo(s + [stop] + rest, stop) == Some((s, rest))
  {
    if |s| == 0 {
      assert ([stop] + rest)[1..] == rest;
    } else {
      ReadUpToInverts(s[1..], stop, rest);
      assert (s + [stop] + rest)[1..] == s[1..] + [stop] + rest;
      assert s == [s[0]] + s[1..];
    }
  }

  function ReadLabel(s: string): Option<(Label, string)> {
    var name := ReadUpTo(s, '=');
    if name.None? || |name.value.1| == 0 || name.value.1[0] != '"' then None
    else
      var value := ReadValue(name.value.1[1..]);
      if value.None? then None else Some((Named(name.value.0, value.value.0), value.value.1))
  }

  lemma LabelPieces(name: string, value: string, rest: string)
    ensures name + "=\"" + value + "\"" + rest == name + ['='] + ("\"" + (value + "\"" + rest))
  {
    assert name + "=\"" == name + ['='] + "\"";
    Assoc(name + ['='], "\"", value);
    Assoc(name + ['='], "\"" + value, "\"");
    Assoc(name + ['='], "\"" + value + "\"", rest);
    Assoc("\"", value, "\"");
    Assoc("\"", value + "\"", rest);
  }

  lemma ReadLabelInverts(l: Label, rest: string)
    requires '=' !in l.name
    ensures ReadLabel(PrintLabel(l) + rest) == Some((l, rest))
  {
    var value := Escape(l.value, true);
    var tail := "\"" + (value + "\"" + rest);
    ReadUpToInverts(l.name, '=', tail);
    LabelPieces(l.name, value, rest);
    assert tail[1..] == value + "\"" + rest;
    ReadValueInverts(l.value, rest);
  }

  lemma {:induction false} ReadUpToShrinks(s: string, stop: char)
    ensures ReadUpTo(s, stop).Some? ==> |ReadUpTo(s, stop).value.1| < |s|
  {
    if |s| > 0 && s[0] != stop {
      ReadUpToShrinks(s[1..], stop);
    }
  }

  lemma {:induction false} ReadValueShrinks(s: string)
    ensures ReadValue(s).Some? ==> |ReadValue(s).value.1| < |s|
  {
    if |s| > 0 && s[0] != '\n' && s[0] != '"' {
      if s[0] != '\\' {
        ReadValueShrinks(s[1..]);
      } else if |s| >= 2 {
        ReadValueShrinks(s[2..]);
      }
    }
  }

  lemma ReadLabelShrinks(s: string)
    ensures ReadLabel(s).Some? ==> |ReadLabel(s).value.1| < |s|
  {
    ReadUpToShrinks(s, '=');
    if ReadUpTo(s, '=').Some? && |ReadUpTo(s, '=').value.1| > 0 {
      ReadValueShrinks(ReadUpTo(s, '=').value.1[1..]);
    }
  }

  /** Reads labels separated by commas; returns them and what follows the last. */
  function ReadLabels(s: string): Option<(seq<Label>, string)>
    decreases |s|
  {
    ReadLabelShrinks(s);
    var first := ReadLabel(s);
    if first.None? then None
    else
      var rest := first.value.1;
      if |rest| == 0 || rest[0] != ',' then Some(([first.value.0], rest))
      else
        var more := ReadLabels(rest[1..]);
        if more.None? then None else Some(([first.value.0] + more.value.0, more.value.1))
  }

  predicate Readable(ls: seq<Label>) {
    forall i :: 0 <= i < |ls| ==> '=' !in ls[i].name
  }

  /** A printed list reads back as the list it was printed from. */
  lemma {:induction false} ReadLabelsInverts(ls: seq<Label>, rest: string)
    requires |ls| > 0 && Readable(ls) && (|rest| == 0 || rest[0] != ',')
    ensures ReadLabels(PrintLabels(ls) + rest) == Some((ls, rest))
  {
    if |ls| == 1 {
      ReadLabelInverts(ls[0], rest);
      assert ls == [ls[0]];
    } else {
      var tail := "," + (PrintLabels(ls[1..]) + rest);
      Assoc(PrintLabel(ls[0]), ",", PrintLabels(ls[1..]));
      Assoc(PrintLabel(ls[0]), "," + PrintLabels(ls[1..]), rest);
      Assoc(",", PrintLabels(ls[1..]), rest);
      ReadLabelInverts(ls[0], tail);
      assert tail[1..] == PrintLabels(ls[1..]) + rest;
      ReadLabelsInverts(ls[1..], rest);
      assert ls == [ls[0]] + ls[1..];
    }
  }

  /** A whole string as a label list. */
  function ParseLabels(s: string): Option<seq<Label>> {
    if s == "" then Some([])
    else
      var r := ReadLabels(s);
      if r.Some? && r.value.1 == "" then Some(r.value.0) else None
  }

  lemma ParseLabelsInverts(ls: seq<Label>)
    requires Readable(ls)
    ensures ParseLabels(PrintLabels(ls)) == Some(ls)
    ensures PrintLabels(ls) == "" <==> ls == []
  {
    if |ls| > 0 {
      ReadLabelsInverts(ls, "");
      assert PrintLabels(ls) + "" == PrintLabels(ls);
      assert |PrintLabel(ls[0])| > 0;
    }
  }

  /** Different lists print differently. */
  lemma PrintLabelsIsInjective(a: seq<Label>, b: seq<Label>)
    requires Readable(a) && Readable(b) && PrintLabels(a) == PrintLabels(b)
    ensures a == b
  {
    ParseLabelsInverts(a);
    ParseLabelsInverts(b);
  }

  lemma {:induction false} PrintLabelsPush(ls: seq<Label>, l: Label)
    ensures PrintLabels(ls + [l]) == PrintLabels(ls) + (if |ls| == 0 then "" else ",") + PrintLabel(l)
  {
    if |ls| > 0 {
      PrintLabelsPush(ls[1..], l);
      assert (ls + [l])[1..] == ls[1..] + [l];
    }
  }

  // ---------------------------------------------------------------- sample lines

  function Braced(labels: string): string {
    if labels == "" then "" else "{" + labels + "}"
  }

  function PrintSample(s: Sample): string {
    s.name + Braced(PrintLabels(s.labels)) + " " + s.value
  }

  /** Splits off the leading characters allowed in a metric name. */
  function ReadName(s: string): (string, string) {
    if |s| == 0 || !NameChar(s[0], true) then ("", s)
    else var (name, rest) := ReadName(s[1..]); ([s[0]] + name, rest)
  }

  lemma {:induction false} ReadNameInverts(name: string, rest: string)
    requires forall i :: 0 <= i < |name| ==> NameChar(name[i], true)
    requires |rest| > 0 && !NameChar(rest[0], true)
    ensures ReadName(name + rest) == (name, rest)
  {
    if |name| > 0 {
      ReadNameInverts(name[1..], rest);
      assert (name + rest)[1..] == name[1..] + rest;
      assert name == [name[0]] + name[1..];
    } else {
      assert name + rest == rest;
    }
  }

  function ReadSample(s: string): Option<Sample> {
    var (name, rest) := ReadName(s);
    if name == "" || |rest| == 0 then None
    else if rest[0] == ' ' then Some(Sample(name, [], rest[1..]))
    else if rest[0] != '{' then None
    else
      var labels := ReadLabels(rest[1..]);
      if labels.Some? && "} " <= labels.value.1 then Some(Sample(name, labels.value.0, labels.value.1[2..])) else None
  }

  lemma ReadSampleInverts(s: Sample)
    requires NameOk(s.name, true) && Readable(s.labels)
    ensures ReadSample(PrintSample(s)) == Some(s)
  {
    ParseLabelsInverts(s.labels);
    var rest := Braced(PrintLabels(s.labels)) + (" " + s.value);
    Assoc(s.name, Braced(PrintLabels(s.labels)), " " + s.value);
    Assoc(s.name + Braced(PrintLabels(s.labels)), " ", s.value);
    ReadNameInverts(s.name, rest);
    if s.labels == [] {
      assert rest == " " + s.value;
      assert rest[1..] == s.value;
    } else {
      BracedReads(s.labels, s.value);
    }
  }

  lemma BracedReads(ls: seq<Label>, value: string)
    requires Readable(ls) && |ls| > 0
    ensures var rest := Braced(PrintLabels(ls)) + (" " + value);
            && rest[0] == '{' && ReadLabels(rest[1..]) == Some((ls, "} " + value)) && ("} " + value)[2..] == value
  {
    ParseLabelsInverts(ls);
    ReadLabelsInverts(ls, "} " + value);
    BracesOpen(PrintLabels(ls), value);
  }

  lemma BracesOpen(labels: string, value: string)
    requires labels != ""
    ensures var rest := Braced(labels) + (" " + value);
            rest[0] == '{' && rest[1..] == labels + ("} " + value) && ("} " + value)[2..] == value
  {
    var tail := "} " + value;
    assert "}" + (" " + value) == tail;
    Assoc("{" + labels, "}", " " + value);
    Assoc("{", labels, tail);
    assert ("{" + (labels + tail))[1..] == labels + tail;
  }

  // ---------------------------------------------------------------- whole texts

  function JoinLines(lines: seq<string>): string {
    if |lines| == 0 then "" else lines[0] + "\n" + JoinLines(lines[1..])
  }

  function SplitLines(text: string): Option<seq<string>>
    decreases |text|
  {
    if text == "" then Some([])
    else
      ReadUpToShrinks(text, '\n');
      var first := ReadUpTo(text, '\n');
      if first.None? then None
      else
        var rest := SplitLines(first.value.1);
        if rest.None? then None else Some([first.value.0] + rest.value)
  }

  lemma {:induction false} SplitLinesInverts(lines: seq<string>)
    requires forall i :: 0 <= i < |lines| ==> '\n' !in lines[i]
    ensures SplitLines(JoinLines(lines)) == Some(lines)
  {
    if |lines| > 0 {
      SplitLinesInverts(lines[1..]);
      ReadUpToInverts(lines[0], '\n', JoinLines(lines[1..]));
      assert JoinLines(lines) == lines[0] + ['\n'] + JoinLines(lines[1..]);
      assert lines == [lines[0]] + lines[1..];
    }
  }

  lemma {:induction false} JoinLinesAppends(a: seq<string>, b: seq<string>)
    ensures JoinLines(a + b) == JoinLines(a) + JoinLines(b)
  {
    if |a| == 0 {
      assert a + b == b;
    } else {
      JoinLinesAppends(a[1..], b);
      assert (a + b)[1..] == a[1..] + b;
      Assoc(a[0] + "\n", JoinLines(a[1..]), JoinLines(b));
    }
  }

  /** The samples of a text: comment lines are passed over, every other line must be a sample. */
  function ReadSamples(lines: seq<string>): Option<seq<Sample>> {
    if |lines| == 0 then Some([])
    else
      var rest := ReadSamples(lines[1..]);
      if rest.None? || "#" <= lines[0] then rest
      else
        var s := ReadSample(lines[0]);
        if s.None? then None else Some([s.value] + rest.value)
  }

  function Parse(text: string): Option<seq<Sample>> {
    var lines := SplitLines(text);
    if lines.None? then None else ReadSamples(lines.value)
  }
}
