/** What the orders on texts, values and attributes are: lexicographic, and by declaration between kinds of values. */
module ModelOrder {
  import opened Model

  /** The lists agree up to `k`, where the first ends before the second or has the lesser element. */
  predicate DiffersAt<T(==)>(a: seq<T>, b: seq<T>, less: (T, T) -> bool, k: nat) {
    && k <= |a| && k < |b| && a[..k] == b[..k]
    && (k < |a| ==> less(a[k], b[k]))
  }

  ghost predicate Precedes<T>(a: seq<T>, b: seq<T>, less: (T, T) -> bool) {
    exists k: nat :: DiffersAt(a, b, less, k)
  }

  lemma PrecedesByHead<T>(a: seq<T>, b: seq<T>, less: (T, T) -> bool)
    ensures |b| == 0 ==> !Precedes(a, b, less)
    ensures |a| == 0 && |b| > 0 ==> Precedes(a, b, less)
    ensures |a| > 0 && |b| > 0 ==>
      (Precedes(a, b, less) <==> less(a[0], b[0]) || (a[0] == b[0] && Precedes(a[1..], b[1..], less)))
  {
    if |a| == 0 && |b| > 0 {
      assert DiffersAt(a, b, less, 0);
    }
    if |a| > 0 && |b| > 0 {
      if Precedes(a, b, less) {
        var k: nat :| DiffersAt(a, b, less, k);
        if k > 0 {
          assert a[0] == a[..k][0] && b[0] == b[..k][0];
          assert a[1..][..k - 1] == a[..k][1..] && b[1..][..k - 1] == b[..k][1..];
          assert DiffersAt(a[1..], b[1..], less, k - 1);
        }
      }
      if less(a[0], b[0]) {
        assert DiffersAt(a, b, less, 0);
      }
      if a[0] == b[0] && Precedes(a[1..], b[1..], less) {
        var k: nat :| DiffersAt(a[1..], b[1..], less, k);
        assert a[..k + 1] == [a[0]] + a[1..][..k] && b[..k + 1] == [b[0]] + b[1..][..k];
        assert DiffersAt(a, b, less, k + 1);
      }
    }
  }

  function CharLess(): (char, char) -> bool {
    (x: char, y: char) => x < y
  }

  function ByteLess(): (int, int) -> bool {
    (x: int, y: int) => x < y
  }

  function ValueLess(): (Value, Value) -> bool {
    (x: Value, y: Value) => CmpValue(x, y).Less?
  }

  function PairLess(): (KeyValue, KeyValue) -> bool {
    (x: KeyValue, y: KeyValue) => CmpPair(x, y).Less?
  }

  /** Texts are ordered lexicographically by their characters. */
  lemma {:induction false} TextIsLexicographic(a: string, b: string)
    ensures CmpText(a, b).Less? <==> Precedes(a, b, CharLess())
    ensures TextLe(a, b) <==> a == b || Precedes(a, b, CharLess())
  {
    PrecedesByHead(a, b, CharLess());
    TextEq(a, b);
    if |a| > 0 && |b| > 0 {
      TextIsLexicographic(a[1..], b[1..]);
    }
  }

  lemma {:induction false} BytesAreLexicographic(a: seq<int>, b: seq<int>)
    ensures CmpBytes(a, b).Less? <==> Precedes(a, b, ByteLess())
  {
    PrecedesByHead(a, b, ByteLess());
    if |a| > 0 && |b| > 0 {
      BytesAreLexicographic(a[1..], b[1..]);
    }
  }

  lemma {:induction false} ArraysAreLexicographic(a: seq<Value>, b: seq<Value>)
    ensures CmpValues(a, b).Less? <==> Precedes(a, b, ValueLess())
  {
    PrecedesByHead(a, b, ValueLess());
    if |a| > 0 && |b| > 0 {
      ValueEq(a[0], b[0]);
      ArraysAreLexicographic(a[1..], b[1..]);
    }
  }

  lemma {:induction false} PairListsAreLexicographic(a: seq<KeyValue>, b: seq<KeyValue>)
    ensures CmpPairs(a, b).Less? <==> Precedes(a, b, PairLess())
  {
    PrecedesByHead(a, b, PairLess());
    if |a| > 0 && |b| > 0 {
      PairEq(a[0], b[0]);
      PairListsAreLexicographic(a[1..], b[1..]);
    }
  }

  /** The first value is of a kind declared before the second's. */
  predicate DeclaredBefore(a: Value, b: Value) {
    match a
    case String(_) => !b.String?
    case Bool(_) => b.Int? || b.Double? || b.ArrayAny? || b.ArrayKv? || b.Bytes?
    case Int(_) => b.Double? || b.ArrayAny? || b.ArrayKv? || b.Bytes?
    case Double(_) => b.ArrayAny? || b.ArrayKv? || b.Bytes?
    case ArrayAny(_) => b.ArrayKv? || b.Bytes?
    case ArrayKv(_) => b.Bytes?
    case Bytes(_) => false
  }

  /** When one value is less than another. */
  lemma ValueOrderIs(a: Value, b: Value)
    ensures CmpValue(a, b).Less? <==>
            match (a, b)
            case (String(x), String(y)) => Precedes(x, y, CharLess())
            case (Bool(x), Bool(y)) => !x && y
            case (Int(x), Int(y)) => x < y
            case (Double(x), Double(y)) => x < y
            case (ArrayAny(x), ArrayAny(y)) => Precedes(x, y, ValueLess())
            case (ArrayKv(x), ArrayKv(y)) => Precedes(x, y, PairLess())
            case (Bytes(x), Bytes(y)) => Precedes(x, y, ByteLess())
            case _ => DeclaredBefore(a, b)
  {
    match (a, b)
    case (String(x), String(y)) => TextIsLexicographic(x, y);
    case (ArrayAny(x), ArrayAny(y)) => ArraysAreLexicographic(x, y);
    case (ArrayKv(x), ArrayKv(y)) => PairListsAreLexicographic(x, y);
    case (Bytes(x), Bytes(y)) => BytesAreLexicographic(x, y);
    case _ =>
  }

  /** When one attribute is less than another: by key, then by value, none before any. */
  lemma AttributeOrderIs(a: KeyValue, b: KeyValue)
    ensures CmpPair(a, b).Less? <==>
            || Precedes(a.key, b.key, CharLess())
            || (a.key == b.key && b.value.Some? &&
                (a.value.None? || CmpValue(a.value.value, b.value.value).Less?))
    ensures PairLe(a, b) <==> a == b || CmpPair(a, b).Less?
  {
    TextIsLexicographic(a.key, b.key);
    TextEq(a.key, b.key);
    PairEq(a, b);
  }
}
