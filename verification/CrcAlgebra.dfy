/** The CRC as an algebraic object: it is linear, and a message followed by its own CRC has CRC zero. */
module CrcAlgebra {
  import opened Crc8
  import opened Iteration

  function Clocks(n: nat): bv8 -> bv8 {
    (c: bv8) => Steps(c, n)
  }

  function XorBytes(a: seq<bv8>, b: seq<bv8>): (c: seq<bv8>)
    requires |a| == |b|
    ensures |c| == |a|
  {
    Zip(Xor, a, b)
  }

  lemma XorBytesAt(a: seq<bv8>, b: seq<bv8>, i: nat)
    requires |a| == |b| && i < |a|
    ensures XorBytes(a, b)[i] == a[i] ^ b[i]
    decreases i
  {
    if i > 0 { XorBytesAt(a[1..], b[1..], i - 1); }
  }

  lemma Exchange(c: bv8, d: bv8, a: bv8, b: bv8)
    ensures (c ^ d) ^ (a ^ b) == (c ^ a) ^ (d ^ b)
  {
  }

  lemma ClocksLinear(n: nat)
    ensures Linear(Xor, Clocks(n))
  {
    forall a: bv8, b: bv8, c: bv8, d: bv8
      ensures Xor(Xor(a, b), Xor(c, d)) == Xor(Xor(a, c), Xor(b, d))
    {
      Exchange(a, b, c, d);
    }
    forall a: bv8, b: bv8 ensures Clocks(n)(Xor(a, b)) == Xor(Clocks(n)(a), Clocks(n)(b)) { StepsXor(a, b, n); }
  }

  /** The number of clocks is a variable so that the recursion in Clocks is not unrolled eight times. */
  lemma {:induction false} CrcIsFold(c: bv8, bs: seq<bv8>, n: nat)
    requires n == 8
    ensures CrcFrom(c, bs) == Fold(Xor, Clocks(n), c, bs)
    decreases |bs|
  {
    if |bs| > 0 {
      TableIsEightClocks(c ^ bs[0]);
      CrcIsFold(Steps(c ^ bs[0], n), bs[1..], n);
    }
  }

  /** Linearity, for messages of equal length. */
  lemma CrcOfXor(a: seq<bv8>, b: seq<bv8>)
    requires |a| == |b|
    ensures Crc(XorBytes(a, b)) == Crc(a) ^ Crc(b)
  {
    CrcIsFold(0, a, 8);
    CrcIsFold(0, b, 8);
    CrcIsFold(0, XorBytes(a, b), 8);
    ClocksLinear(8);
    FoldSum(Xor, Clocks(8), 0, 0, a, b);
  }

  lemma {:induction false} CrcFromConcat(c: bv8, a: seq<bv8>, b: seq<bv8>)
    ensures CrcFrom(c, a + b) == CrcFrom(CrcFrom(c, a), b)
    decreases |a|
  {
    if |a| == 0 {
      assert a + b == b;
    } else {
      assert (a + b)[1..] == a[1..] + b;
      CrcFromConcat(Crc8Tab(c ^ a[0]), a[1..], b);
    }
  }

  lemma SelfCancels(c: bv8)
    ensures CrcFrom(c, [c]) == 0
  {
    assert c ^ c == 0;
  }

  /** A message followed by its CRC has CRC zero. */
  lemma CrcOfSealed(m: seq<bv8>)
    ensures Crc(m + [Crc(m)]) == 0
  {
    CrcFromConcat(0, m, [Crc(m)]);
    SelfCancels(Crc(m));
  }
}
