/** The order-independent fingerprint of an attribute list. */
module Fingerprint {
  import opened Measure
  import opened Model
  import opened Ordering

  datatype Fp = Fp(xor: bv64, sum: int, len: nat)

  function XorStep(hash: KeyValue -> bv64): (bv64, KeyValue) -> bv64 {
    (x: bv64, kv) => x ^ hash(kv)
  }

  function SumStep(weight: KeyValue -> int): (int, KeyValue) -> int {
    (s: int, kv) => Wrap(0, s + weight(kv))
  }

  function Weight(hash: KeyValue -> bv64): KeyValue -> int {
    kv => hash(kv) as int
  }

  /** The xor of the element hashes, their sum modulo 2^64, and their number. */
  function Commutative(hash: KeyValue -> bv64, attrs: seq<KeyValue>): Fp {
    Fp(FoldAll(XorStep(hash), 0, attrs), FoldAll(SumStep(Weight(hash)), 0, attrs), |attrs|)
  }

  method Xored(hash: KeyValue -> bv64, xor: bv64, kv: KeyValue) returns (r: bv64)
    ensures r == XorStep(hash)(xor, kv)
  {
    r := xor ^ hash(kv);
  }

  method Summed(hash: KeyValue -> bv64, sum: int, kv: KeyValue) returns (r: int)
    ensures r == SumStep(Weight(hash))(sum, kv)
  {
    r := Wrap(0, sum + hash(kv) as int);
  }

  /** The source's loop computes that fingerprint. */
  method CommutativeHash(hash: KeyValue -> bv64, attrs: seq<KeyValue>) returns (fp: Fp)
    ensures fp == Commutative(hash, attrs)
  {
    var xor: bv64, sum := 0, 0;
    for i := 0 to |attrs|
      invariant xor == FoldAll(XorStep(hash), 0, attrs[..i])
      invariant sum == FoldAll(SumStep(Weight(hash)), 0, attrs[..i])
    {
      FoldMore(XorStep(hash), 0, attrs, i);
      FoldMore(SumStep(Weight(hash)), 0, attrs, i);
      xor := Xored(hash, xor, attrs[i]);
      sum := Summed(hash, sum, attrs[i]);
    }
    assert attrs[..|attrs|] == attrs;
    fp := Fp(xor, sum, |attrs|);
  }

  lemma XorCommutes(x: bv64, g: bv64, h: bv64)
    ensures (x ^ g) ^ h == (x ^ h) ^ g
  {
  }

  lemma SumCommutes(s: int, m: int, n: int)
    ensures Wrap(0, Wrap(0, s + m) + n) == Wrap(0, Wrap(0, s + n) + m)
  {
    WrapAccumulates(0, s + m, n);
    WrapAccumulates(0, s + n, m);
    assert s + m + n == s + n + m;
  }

  lemma XorStepExchanges(hash: KeyValue -> bv64)
    ensures Exchangeable(XorStep(hash))
  {
    forall b: bv64, x, y ensures XorStep(hash)(XorStep(hash)(b, x), y) == XorStep(hash)(XorStep(hash)(b, y), x) {
      XorCommutes(b, hash(x), hash(y));
    }
  }

  lemma SumStepExchanges(weight: KeyValue -> int)
    ensures Exchangeable(SumStep(weight))
  {
    forall b, x, y ensures SumStep(weight)(SumStep(weight)(b, x), y) == SumStep(weight)(SumStep(weight)(b, y), x) {
      SumCommutes(b, weight(x), weight(y));
    }
  }

  /** The fingerprint depends on the elements and their multiplicities only, whatever the hash. */
  lemma FingerprintIgnoresOrder(hash: KeyValue -> bv64, a: seq<KeyValue>, b: seq<KeyValue>)
    requires multiset(a) == multiset(b)
    ensures Commutative(hash, a) == Commutative(hash, b)
  {
    SameMembers(a, b);
    XorStepExchanges(hash);
    SumStepExchanges(Weight(hash));
    FoldIgnoresOrder(XorStep(hash), 0, a, b);
    FoldIgnoresOrder(SumStep(Weight(hash)), 0, a, b);
  }

  // ---------------------------------------------------------------- what the fingerprint is made of

  /** The empty list's fingerprint is zero; one more attribute goes in by xor, by addition modulo 2^64, and by one. */
  lemma FingerprintSteps(hash: KeyValue -> bv64, a: seq<KeyValue>, kv: KeyValue)
    ensures Commutative(hash, []) == Fp(0, 0, 0)
    ensures Commutative(hash, a + [kv]).xor == Commutative(hash, a).xor ^ hash(kv)
    ensures Congruent(Commutative(hash, a + [kv]).sum, Commutative(hash, a).sum + hash(kv) as int)
    ensures 0 <= Commutative(hash, a + [kv]).sum < 0x1_0000_0000_0000_0000
    ensures Commutative(hash, a + [kv]).len == |a| + 1
  {
    assert (a + [kv])[..|a|] == a;
    XorPush(hash, a, kv);
  }

  lemma XorPush(hash: KeyValue -> bv64, a: seq<KeyValue>, kv: KeyValue)
    ensures FoldAll(XorStep(hash), 0, a + [kv]) == FoldAll(XorStep(hash), 0, a) ^ hash(kv)
  {
    assert (a + [kv])[..|a|] == a;
  }
}
