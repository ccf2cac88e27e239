/** Attribute keys and values, with the order their derived comparison gives them. */
module Model {
  import opened Wrappers
  import opened Ordering

  datatype Cmp = Less | Equal | Greater

  function Flip(c: Cmp): Cmp {
    match c
    case Less => Greater
    case Equal => Equal
    case Greater => Less
  }

  /** The first comparison decides unless it is a tie. */
  function Then(first: Cmp, second: Cmp): Cmp {
    if first.Equal? then second else first
  }

  function CmpInt(x: int, y: int): Cmp {
    if x < y then Less else if x == y then Equal else Greater
  }

  /** Lexicographic: code point by code point, a proper prefix first. */
  function CmpText(a: string, b: string): Cmp {
    if |a| == 0 && |b| == 0 then Equal
    else if |a| == 0 then Less
    else if |b| == 0 then Greater
    else Then(CmpInt(a[0] as int, b[0] as int), CmpText(a[1..], b[1..]))
  }

  function CmpBytes(a: seq<int>, b: seq<int>): Cmp {
    if |a| == 0 && |b| == 0 then Equal
    else if |a| == 0 then Less
    else if |b| == 0 then Greater
    else Then(CmpInt(a[0], b[0]), CmpBytes(a[1..], b[1..]))
  }

  // ---------------------------------------------------------------- strings and their pointer shortcut

  /** A string by how it is held; `addr` is where a borrowed or shared text lives. */
  datatype Str = Borrowed(addr: nat, len: nat, text: string) | Owned(text: string) | Shared(addr: nat, text: string)

  predicate PtrEq(a: Str, b: Str) {
    || (a.Shared? && b.Shared? && a.addr == b.addr)
    || (a.Borrowed? && b.Borrowed? && a.addr == b.addr && a.len == b.len)
  }

  predicate StrEq(a: Str, b: Str) {
    PtrEq(a, b) || a.text == b.text
  }

  function StrCmp(a: Str, b: Str): Cmp {
    if PtrEq(a, b) then Equal else CmpText(a.text, b.text)
  }

  /** The pointer shortcut changes no answer, as long as one address holds one text. */
  lemma PtrShortcutIsSound(a: Str, b: Str)
    requires PtrEq(a, b) ==> a.text == b.text
    ensures StrEq(a, b) <==> a.text == b.text
    ensures StrCmp(a, b) == CmpText(a.text, b.text)
    ensures StrCmp(a, b) == Equal <==> StrEq(a, b)
  {
    TextEq(a.text, b.text);
  }

  // ---------------------------------------------------------------- values

  /** A double is represented by its place in `OrderedFloat`'s total order. */
  datatype Value =
    | String(text: string)
    | Bool(b: bool)
    | Int(i: int)
    | Double(place: int)
    | ArrayAny(values: seq<Value>)
    | ArrayKv(pairs: seq<KeyValue>)
    | Bytes(bytes: seq<int>)

  datatype KeyValue = KeyValue(key: string, value: Option<Value>)

  function Variant(v: Value): int {
    match v
    case String(_) => 0
    case Bool(_) => 1
    case Int(_) => 2
    case Double(_) => 3
    case ArrayAny(_) => 4
    case ArrayKv(_) => 5
    case Bytes(_) => 6
  }

  function CmpValue(a: Value, b: Value): Cmp
    decreases a
  {
    match (a, b)
    case (String(x), String(y)) => CmpText(x, y)
    case (Bool(x), Bool(y)) => CmpInt(if x then 1 else 0, if y then 1 else 0)
    case (Int(x), Int(y)) => CmpInt(x, y)
    case (Double(x), Double(y)) => CmpInt(x, y)
    case (ArrayAny(x), ArrayAny(y)) => CmpValues(x, y)
    case (ArrayKv(x), ArrayKv(y)) => CmpPairs(x, y)
    case (Bytes(x), Bytes(y)) => CmpBytes(x, y)
    case _ => CmpInt(Variant(a), Variant(b))
  }

  function CmpValues(a: seq<Value>, b: seq<Value>): Cmp
    decreases a
  {
    if |a| == 0 && |b| == 0 then Equal
    else if |a| == 0 then Less
    else if |b| == 0 then Greater
    else Then(CmpValue(a[0], b[0]), CmpValues(a[1..], b[1..]))
  }

  function CmpOption(a: Option<Value>, b: Option<Value>): Cmp
    decreases a
  {
    match (a, b)
    case (None, None) => Equal
    case (None, Some(_)) => Less
    case (Some(_), None) => Greater
    case (Some(x), Some(y)) => CmpValue(x, y)
  }

  function CmpPair(a: KeyValue, b: KeyValue): Cmp
    decreases a
  {
    Then(CmpText(a.key, b.key), CmpOption(a.value, b.value))
  }

  function CmpPairs(a: seq<KeyValue>, b: seq<KeyValue>): Cmp
    decreases a
  {
    if |a| == 0 && |b| == 0 then Equal
    else if |a| == 0 then Less
    else if |b| == 0 then Greater
    else Then(CmpPair(a[0], b[0]), CmpPairs(a[1..], b[1..]))
  }

  // ---------------------------------------------------------------- the comparison agrees with equality

  lemma {:induction false} TextEq(a: string, b: string)
    ensures CmpText(a, b) == Equal <==> a == b
  {
    if |a| > 0 && |b| > 0 {
      TextEq(a[1..], b[1..]);
      assert a == [a[0]] + a[1..] && b == [b[0]] + b[1..];
    }
  }

  lemma {:induction false} BytesEq(a: seq<int>, b: seq<int>)
    ensures CmpBytes(a, b) == Equal <==> a == b
  {
    if |a| > 0 && |b| > 0 {
      BytesEq(a[1..], b[1..]);
      assert a == [a[0]] + a[1..] && b == [b[0]] + b[1..];
    }
  }

  lemma {:induction false} ValueEq(a: Value, b: Value)
    ensures CmpValue(a, b) == Equal <==> a == b
    decreases a
  {
    match (a, b)
    case (String(x), String(y)) => TextEq(x, y);
    case (ArrayAny(x), ArrayAny(y)) => ValuesEq(x, y);
    case (ArrayKv(x), ArrayKv(y)) => PairsEq(x, y);
    case (Bytes(x), Bytes(y)) => BytesEq(x, y);
    case _ =>
  }

  lemma {:induction false} ValuesEq(a: seq<Value>, b: seq<Value>)
    ensures CmpValues(a, b) == Equal <==> a == b
    decreases a
  {
    if |a| > 0 && |b| > 0 {
      ValueEq(a[0], b[0]);
      ValuesEq(a[1..], b[1..]);
      assert a == [a[0]] + a[1..] && b == [b[0]] + b[1..];
    }
  }

  lemma {:induction false} PairEq(a: KeyValue, b: KeyValue)
    ensures CmpPair(a, b) == Equal <==> a == b
    decreases a
  {
    TextEq(a.key, b.key);
    if a.value.Some? && b.value.Some? {
      ValueEq(a.value.value, b.value.value);
    }
  }

  lemma {:induction false} PairsEq(a: seq<KeyValue>, b: seq<KeyValue>)
    ensures CmpPairs(a, b) == Equal <==> a == b
    decreases a
  {
    if |a| > 0 && |b| > 0 {
      PairEq(a[0], b[0]);
      PairsEq(a[1..], b[1..]);
      assert a == [a[0]] + a[1..] && b == [b[0]] + b[1..];
    }
  }

  // ---------------------------------------------------------------- the comparison is antisymmetric

  lemma {:induction false} TextFlip(a: string, b: string)
    ensures CmpText(b, a) == Flip(CmpText(a, b))
  {
    if |a| > 0 && |b| > 0 {
      TextFlip(a[1..], b[1..]);
    }
  }

  lemma {:induction false} BytesFlip(a: seq<int>, b: seq<int>)
    ensures CmpBytes(b, a) == Flip(CmpBytes(a, b))
  {
    if |a| > 0 && |b| > 0 {
      BytesFlip(a[1..], b[1..]);
    }
  }

  lemma {:induction false} ValueFlip(a: Value, b: Value)
    ensures CmpValue(b, a) == Flip(CmpValue(a, b))
    decreases a
  {
    match (a, b)
    case (String(x), String(y)) => TextFlip(x, y);
    case (ArrayAny(x), ArrayAny(y)) => ValuesFlip(x, y);
    case (ArrayKv(x), ArrayKv(y)) => PairsFlip(x, y);
    case (Bytes(x), Bytes(y)) => BytesFlip(x, y);
    case _ =>
  }

  lemma {:induction false} ValuesFlip(a: seq<Value>, b: seq<Value>)
    ensures CmpValues(b, a) == Flip(CmpValues(a, b))
    decreases a
  {
    if |a| > 0 && |b| > 0 {
      ValueFlip(a[0], b[0]);
      ValuesFlip(a[1..], b[1..]);
    }
  }

  lemma {:induction false} PairFlip(a: KeyValue, b: KeyValue)
    ensures CmpPair(b, a) == Flip(CmpPair(a, b))
    decreases a
  {
    TextFlip(a.key, b.key);
    if a.value.Some? && b.value.Some? {
      ValueFlip(a.value.value, b.value.value);
    }
  }

  lemma {:induction false} PairsFlip(a: seq<KeyValue>, b: seq<KeyValue>)
    ensures CmpPairs(b, a) == Flip(CmpPairs(a, b))
    decreases a
  {
    if |a| > 0 && |b| > 0 {
      PairFlip(a[0], b[0]);
      PairsFlip(a[1..], b[1..]);
    }
  }

  // ---------------------------------------------------------------- the comparison is transitive

  lemma {:induction false} TextTrans(a: string, b: string, c: string)
    requires CmpText(a, b) == Less && CmpText(b, c) == Less
    ensures CmpText(a, c) == Less
  {
    if |a| > 0 && a[0] == b[0] && b[0] == c[0] {
      TextTrans(a[1..], b[1..], c[1..]);
    }
  }

  lemma {:induction false} BytesTrans(a: seq<int>, b: seq<int>, c: seq<int>)
    requires CmpBytes(a, b) == Less && CmpBytes(b, c) == Less
    ensures CmpBytes(a, c) == Less
  {
    if |a| > 0 && a[0] == b[0] && b[0] == c[0] {
      BytesTrans(a[1..], b[1..], c[1..]);
    }
  }

  lemma {:induction false} ValueTrans(a: Value, b: Value, c: Value)
    requires CmpValue(a, b) == Less && CmpValue(b, c) == Less
    ensures CmpValue(a, c) == Less
    decreases a
  {
    match (a, b, c)
    case (String(x), String(y), String(z)) => TextTrans(x, y, z);
    case (ArrayAny(x), ArrayAny(y), ArrayAny(z)) => ValuesTrans(x, y, z);
    case (ArrayKv(x), ArrayKv(y), ArrayKv(z)) => PairsTrans(x, y, z);
    case (Bytes(x), Bytes(y), Bytes(z)) => BytesTrans(x, y, z);
    case _ =>
  }

  lemma {:induction false} ValuesTrans(a: seq<Value>, b: seq<Value>, c: seq<Value>)
    requires CmpValues(a, b) == Less && CmpValues(b, c) == Less
    ensures CmpValues(a, c) == Less
    decreases a
  {
    if |a| > 0 {
      ValueEq(a[0], b[0]);
      ValueEq(b[0], c[0]);
      if a[0] == b[0] && b[0] == c[0] {
        ValueEq(a[0], c[0]);
        ValuesTrans(a[1..], b[1..], c[1..]);
      } else if a[0] != b[0] && b[0] != c[0] {
        ValueTrans(a[0], b[0], c[0]);
      }
    }
  }

  lemma {:induction false} PairTrans(a: KeyValue, b: KeyValue, c: KeyValue)
    requires CmpPair(a, b) == Less && CmpPair(b, c) == Less
    ensures CmpPair(a, c) == Less
    decreases a
  {
    TextEq(a.key, b.key);
    TextEq(b.key, c.key);
    if a.key == b.key && b.key == c.key {
      if a.value.Some? && b.value.Some? && c.value.Some? {
        ValueTrans(a.value.value, b.value.value, c.value.value);
      }
    } else if a.key != b.key && b.key != c.key {
      TextTrans(a.key, b.key, c.key);
    }
  }

  lemma {:induction false} PairsTrans(a: seq<KeyValue>, b: seq<KeyValue>, c: seq<KeyValue>)
    requires CmpPairs(a, b) == Less && CmpPairs(b, c) == Less
    ensures CmpPairs(a, c) == Less
    decreases a
  {
    if |a| > 0 {
      PairEq(a[0], b[0]);
      PairEq(b[0], c[0]);
      if a[0] == b[0] && b[0] == c[0] {
        PairEq(a[0], c[0]);
        PairsTrans(a[1..], b[1..], c[1..]);
      } else if a[0] != b[0] && b[0] != c[0] {
        PairTrans(a[0], b[0], c[0]);
      }
    }
  }

  // ---------------------------------------------------------------- total orders

  predicate PairLe(a: KeyValue, b: KeyValue) {
    !CmpPair(a, b).Greater?
  }

  predicate TextLe(a: string, b: string) {
    !CmpText(a, b).Greater?
  }

  /** The attribute order is total and tells any two different attributes apart. */
  lemma AttributeOrderIsTotal()
    ensures TotalOrder(PairLe)
  {
    forall x, y ensures (PairLe(x, y) || PairLe(y, x)) && (PairLe(x, y) && PairLe(y, x) ==> x == y) {
      PairFlip(x, y);
      PairEq(x, y);
    }
    forall x, y, z | PairLe(x, y) && PairLe(y, z) ensures PairLe(x, z) {
      PairEq(x, y);
      PairEq(y, z);
      if x != y && y != z {
        PairTrans(x, y, z);
      }
    }
  }

  lemma TextOrderIsTotal()
    ensures TotalOrder(TextLe)
  {
    forall x, y ensures (TextLe(x, y) || TextLe(y, x)) && (TextLe(x, y) && TextLe(y, x) ==> x == y) {
      TextFlip(x, y);
      TextEq(x, y);
    }
    forall x, y, z | TextLe(x, y) && TextLe(y, z) ensures TextLe(x, z) {
      TextEq(x, y);
      TextEq(y, z);
      if x != y && y != z {
        TextTrans(x, y, z);
      }
    }
  }
}
