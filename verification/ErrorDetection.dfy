/** Which damage to a packet the CRC check is certain to catch. */
module ErrorDetection {
  import opened Crc8
  import opened PowersOfX

  /** The CRC byte a message carries, plus the one it should carry. */
  function Syndrome(bs: seq<bv8>): bv8
    requires |bs| >= 2
  {
    bs[1] ^ Crc(bs[1 := 0])
  }

  /** The bit positions, most significant bit of byte 0 first, in which two messages differ. */
  function Flips(a: seq<bv8>, b: seq<bv8>): (f: seq<bool>)
    requires |a| == |b|
    ensures |f| == 8 * |a|
  {
    seq(8 * |a|, i requires 0 <= i < 8 * |a| => Bits(a)[i] != Bits(b)[i])
  }

  predicate InCrcByte(i: nat) {
    8 <= i < 16
  }

  /** The power of x that bit `i` of a message of `n` bits stands for. */
  function Exponent(n: nat, i: nat): nat
    requires i < n
  {
    if InCrcByte(i) then 15 - i else n + 7 - i
  }

  function Weights(n: nat): (w: seq<bv8>)
    ensures |w| == n
  {
    seq(n, i requires 0 <= i < n => Pow(Exponent(n, i)))
  }

  /** The sum of the weights of the bits set from position `i` on. */
  function Sum(f: seq<bool>, w: seq<bv8>, i: nat): bv8
    requires i <= |f| == |w|
    decreases |f| - i
  {
    if i == |f| then 0
    else
      var rest := Sum(f, w, i + 1);
      if f[i] then w[i] ^ rest else rest
  }

  function FlipSum(f: seq<bool>): bv8 {
    Sum(f, Weights(|f|), 0)
  }

  // ---------------------------------------------------------------- sums over GF(2)

  lemma {:induction false} SumXor(f: seq<bool>, g: seq<bool>, h: seq<bool>, w: seq<bv8>, i: nat)
    requires i <= |f| == |g| == |h| == |w|
    requires forall k | 0 <= k < |f| :: h[k] == (f[k] != g[k])
    ensures Sum(h, w, i) == Sum(f, w, i) ^ Sum(g, w, i)
    decreases |f| - i
  {
    if i < |f| {
      SumXor(f, g, h, w, i + 1);
    }
  }

  lemma {:induction false} SumSameWeights(f: seq<bool>, w: seq<bv8>, v: seq<bv8>, i: nat)
    requires i <= |f| == |w| == |v|
    requires forall k | i <= k < |f| && f[k] :: w[k] == v[k]
    ensures Sum(f, w, i) == Sum(f, v, i)
    decreases |f| - i
  {
    if i < |f| { SumSameWeights(f, w, v, i + 1); }
  }

  /** Leading and trailing positions without a bit contribute nothing. */
  lemma {:induction false} SumSkip(f: seq<bool>, w: seq<bv8>, i: nat, j: nat)
    requires i <= j <= |f| == |w|
    requires forall k | i <= k < j :: !f[k]
    ensures Sum(f, w, i) == Sum(f, w, j)
    decreases j - i
  {
    if i < j { SumSkip(f, w, i + 1, j); }
  }

  // ---------------------------------------------------------------- the syndrome is such a sum

  /** The weights of a message that has no CRC byte in it. */
  function PlainWeights(n: nat): (w: seq<bv8>)
    ensures |w| == n
  {
    seq(n, i requires 0 <= i < n => Pow(n + 7 - i))
  }

  lemma ShiftInOne(c: bv8)
    ensures ShiftIn(c, true) == 0x07 ^ Step(c) && ShiftIn(c, false) == Step(c)
  {
  }

  lemma StepsOfSeven(k: nat)
    ensures Steps(0x07, k) == Pow(k + 8)
  {
    PowersBelowEight(7);
    PowAdd(7, 1);
    PowAdd(8, k);
  }

  lemma ClockAndRun(c: bv8, b: bool, k: nat)
    ensures Steps(ShiftIn(c, b), k) == if b then Pow(k + 8) ^ Steps(c, k + 1) else Steps(c, k + 1)
  {
    ShiftInOne(c);
    if b {
      StepsXor(0x07, Step(c), k);
      StepsOfSeven(k);
    }
  }

  lemma XorAssoc(a: bv8, b: bv8, c: bv8)
    ensures (a ^ b) ^ c == b ^ (a ^ c)
  {
  }

  lemma {:induction false} ShiftAllIsSum(c: bv8, f: seq<bool>, i: nat)
    requires i <= |f|
    ensures ShiftAll(c, f[i..]) == Steps(c, |f| - i) ^ Sum(f, PlainWeights(|f|), i)
    decreases |f| - i
  {
    if i < |f| {
      var k := |f| - i - 1;
      assert f[i..][1..] == f[i + 1..];
      ShiftAllIsSum(ShiftIn(c, f[i]), f, i + 1);
      ClockAndRun(c, f[i], k);
      XorAssoc(Pow(k + 8), Steps(c, k + 1), Sum(f, PlainWeights(|f|), i + 1));
    }
  }

  lemma ShiftRegisterIsSum(f: seq<bool>)
    ensures ShiftAll(0, f) == Sum(f, PlainWeights(|f|), 0)
  {
    ShiftAllIsSum(0, f, 0);
    StepsKernel(0, |f|);
    assert f[0..] == f;
  }

  /** The bits of a message outside its CRC byte, and those inside. */
  function MessageBits(f: seq<bool>, inside: bool): (g: seq<bool>)
    ensures |g| == |f|
  {
    seq(|f|, i requires 0 <= i < |f| => f[i] && InCrcByte(i) == inside)
  }

  lemma BitsOutside(bs: seq<bv8>)
    requires |bs| >= 2
    ensures MessageBits(Bits(bs), false) == Bits(bs[1 := 0])
  {
  }

  lemma MessageIsSum(f: seq<bool>)
    requires forall i | 0 <= i < |f| && InCrcByte(i) :: !f[i]
    ensures ShiftAll(0, f) == Sum(f, Weights(|f|), 0)
  {
    ShiftRegisterIsSum(f);
    SumSameWeights(f, PlainWeights(|f|), Weights(|f|), 0);
  }

  /** The message part of the syndrome. */
  lemma CrcIsSum(bs: seq<bv8>)
    requires |bs| >= 2
    ensures Crc(bs[1 := 0]) == Sum(MessageBits(Bits(bs), false), Weights(8 * |bs|), 0)
  {
    BitsOutside(bs);
    TableIsShiftRegister(0, bs[1 := 0]);
    MessageIsSum(MessageBits(Bits(bs), false));
  }

  /** Clocking a sum clocks every weight. */
  lemma {:induction false} SumClockedOnce(f: seq<bool>, w: seq<bv8>, v: seq<bv8>, i: nat)
    requires i <= |f| == |w| == |v|
    requires forall k | 0 <= k < |f| :: v[k] == Step(w[k])
    ensures Step(Sum(f, w, i)) == Sum(f, v, i)
    decreases |f| - i
  {
    if i < |f| {
      SumClockedOnce(f, w, v, i + 1);
    }
  }

  lemma {:induction false} SumClocked(f: seq<bool>, w: seq<bv8>, v: seq<bv8>, m: nat)
    requires |f| == |w| == |v|
    requires forall k | 0 <= k < |f| :: v[k] == Steps(w[k], m)
    ensures Steps(Sum(f, w, 0), m) == Sum(f, v, 0)
    decreases m
  {
    if m == 0 {
      assert w == v;
    } else {
      var u := seq(|w|, k requires 0 <= k < |w| => Step(w[k]));
      SumClockedOnce(f, w, u, 0);
      SumClocked(f, u, v, m - 1);
    }
  }

  lemma {:induction false} SumWindow(f: seq<bool>, w: seq<bv8>, g: seq<bool>, v: seq<bv8>, at: nat, k: nat)
    requires |f| == |w| && |g| == |v| && k <= |g| && at + |g| <= |f|
    requires forall j | k <= j < |g| :: f[at + j] == g[j] && w[at + j] == v[j]
    requires forall i | at + |g| <= i < |f| :: !f[i]
    ensures Sum(f, w, at + k) == Sum(g, v, k)
    decreases |g| - k
  {
    if k == |g| {
      SumSkip(f, w, at + k, |f|);
    } else {
      SumWindow(f, w, g, v, at, k + 1);
    }
  }

  function ByteWeights(m: nat): (w: seq<bv8>)
    ensures |w| == m
  {
    seq(m, j requires 0 <= j < m => Pow(m - 1 - j))
  }

  /** A byte is the sum of its own bits' weights. */
  lemma ByteIsSum(b: bv8)
    ensures Sum(ByteBits(b), ByteWeights(8), 0) == b
  {
    ShiftByte(b);
    ByteIsWeighted(b, ByteBits(b), 8);
  }

  /** The width `m` of a byte is a variable so that the recursion in Steps is not unrolled eight times. */
  lemma ByteIsWeighted(b: bv8, f: seq<bool>, m: nat)
    requires |f| == m == 8 && ShiftAll(0, f) == Steps(b, m)
    ensures Sum(f, ByteWeights(m), 0) == b
  {
    var v := PlainWeights(m);
    forall j | 0 <= j < m ensures v[j] == Steps(ByteWeights(m)[j], m) { PowAdd(m - 1 - j, m); }
    SumClocked(f, ByteWeights(m), v, m);
    ShiftRegisterIsSum(f);
    StepsInjective(Sum(f, ByteWeights(m), 0), b, m);
  }

  lemma ShiftByte(b: bv8)
    ensures ShiftAll(0, ByteBits(b)) == Steps(b, 8)
  {
    ClockByte(b, b);
    TableIsEightClocks(b);
  }

  /** The weights of the CRC byte's own bits add up to the byte. */
  lemma CrcByteIsSum(bs: seq<bv8>)
    requires |bs| >= 2
    ensures bs[1] == Sum(MessageBits(Bits(bs), true), Weights(8 * |bs|), 0)
  {
    var f, w, b := MessageBits(Bits(bs), true), Weights(8 * |bs|), bs[1];
    CrcByteWindow(bs, f, w, ByteBits(b));
    SumSkip(f, w, 0, 8);
    SumWindow(f, w, ByteBits(b), ByteWeights(8), 8, 0);
    ByteIsSum(b);
  }

  /** Bits and weights inside the CRC byte, and no bits outside. */
  lemma CrcByteWindow(bs: seq<bv8>, f: seq<bool>, w: seq<bv8>, g: seq<bool>)
    requires |bs| >= 2
    requires f == MessageBits(Bits(bs), true) && w == Weights(8 * |bs|) && g == ByteBits(bs[1])
    ensures forall j | 0 <= j < 8 :: f[8 + j] == g[j] && w[8 + j] == ByteWeights(8)[j]
    ensures forall i | 0 <= i < 8 || 16 <= i < |f| :: !f[i]
  {
    forall j | 0 <= j < 8 ensures f[8 + j] == g[j] && w[8 + j] == ByteWeights(8)[j] {
      assert (8 + j) / 8 == 1 && (8 + j) % 8 == j;
    }
  }

  lemma SyndromeIsFlipSum(bs: seq<bv8>)
    requires |bs| >= 2
    ensures Syndrome(bs) == FlipSum(Bits(bs))
  {
    var f := Bits(bs);
    SumXor(MessageBits(f, true), MessageBits(f, false), f, Weights(|f|), 0);
    CrcIsSum(bs);
    CrcByteIsSum(bs);
  }

  /** The syndromes of two messages differ by the sum over the flipped bits. */
  lemma SyndromeOfDamage(a: seq<bv8>, b: seq<bv8>)
    requires |a| == |b| >= 2
    ensures Syndrome(a) ^ Syndrome(b) == FlipSum(Flips(a, b))
  {
    SyndromeIsFlipSum(a);
    SyndromeIsFlipSum(b);
    SumXor(Bits(a), Bits(b), Flips(a, b), Weights(8 * |a|), 0);
  }

  // ---------------------------------------------------------------- patterns whose sum cannot vanish

  function CountFlips(f: seq<bool>, i: nat): nat
    requires i <= |f|
    decreases |f| - i
  {
    if i == |f| then 0 else (if f[i] then 1 else 0) + CountFlips(f, i + 1)
  }

  /** 1 when an odd number of bits is set, else 0. */
  function Parity(c: bv8): bv8 {
    var a := c ^ (c >> 4);
    var b := a ^ (a >> 2);
    (b ^ (b >> 1)) & 1
  }

  lemma ParityStep(c: bv8)
    ensures Parity(Step(c)) == Parity(c)
  {
  }

  lemma {:induction false} ParityPow(c: bv8, k: nat)
    ensures Parity(Steps(c, k)) == Parity(c)
    decreases k
  {
    if k > 0 {
      ParityStep(c);
      ParityPow(Step(c), k - 1);
    }
  }

  lemma {:induction false} ParityOfSum(f: seq<bool>, w: seq<bv8>, i: nat)
    requires i <= |f| == |w|
    requires forall k | 0 <= k < |f| :: Parity(w[k]) == 1
    ensures Parity(Sum(f, w, i)) == if CountFlips(f, i) % 2 == 1 then 1 else 0
    decreases |f| - i
  {
    if i < |f| {
      ParityOfSum(f, w, i + 1);
      ParityTerm(w[i], Sum(f, w, i + 1));
    }
  }

  lemma ParityTerm(w: bv8, rest: bv8)
    requires Parity(w) == 1
    ensures Parity(w ^ rest) == 1 ^ Parity(rest)
  {
  }

  /** x + 1 divides the generator, so an odd number of flips is never a multiple of it. */
  lemma OddNeverVanishes(f: seq<bool>)
    requires CountFlips(f, 0) % 2 == 1
    ensures FlipSum(f) != 0
  {
    forall k | 0 <= k < |f| ensures Parity(Weights(|f|)[k]) == 1 {
      ParityPow(1, Exponent(|f|, k));
    }
    ParityOfSum(f, Weights(|f|), 0);
  }

  /** The first two flips, when there are exactly two. */
  lemma {:induction false} TwoFlipsSum(f: seq<bool>, w: seq<bv8>, i: nat, j: nat)
    requires i < j < |f| == |w|
    requires forall k | 0 <= k < |f| :: f[k] <==> k == i || k == j
    ensures Sum(f, w, 0) == w[i] ^ w[j]
  {
    SumSkip(f, w, 0, i);
    SumSkip(f, w, i + 1, j);
    SumSkip(f, w, j + 1, |f|);
  }

  lemma {:induction false} FirstFlip(f: seq<bool>, i: nat) returns (p: nat)
    requires i <= |f| && CountFlips(f, i) > 0
    ensures i <= p < |f| && f[p] && (forall k | i <= k < p :: !f[k])
    ensures CountFlips(f, i) == 1 + CountFlips(f, p + 1)
    decreases |f| - i
  {
    if f[i] { p := i; } else { p := FirstFlip(f, i + 1); }
  }

  lemma {:induction false} NoFlips(f: seq<bool>, i: nat)
    requires i <= |f|
    ensures CountFlips(f, i) == 0 <==> forall k | i <= k < |f| :: !f[k]
    decreases |f| - i
  {
    if i < |f| { NoFlips(f, i + 1); }
  }

  lemma {:induction false} TopClear(f: seq<bool>, w: seq<bv8>, i: nat)
    requires i <= |f| == |w|
    requires forall k | i <= k < |f| :: w[k] & 0x80 == 0
    ensures Sum(f, w, i) & 0x80 == 0
    decreases |f| - i
  {
    if i < |f| {
      TopClear(f, w, i + 1);
      TopClearXor(w[i], Sum(f, w, i + 1));
    }
  }

  lemma TopClearXor(a: bv8, b: bv8)
    requires a & 0x80 == 0 && b & 0x80 == 0
    ensures (a ^ b) & 0x80 == 0
  {
  }

  lemma TopSet(b: bv8)
    requires b & 0x80 == 0
    ensures 0x80 ^ b != 0
  {
  }

  /** A burst shorter than the generator is not a multiple of it. */
  lemma BurstNeverVanishes(f: seq<bool>, p: nat)
    requires p < |f| && f[p]
    requires forall k | 0 <= k < |f| && f[k] :: p <= k < p + 8 && !InCrcByte(k)
    ensures FlipSum(f) != 0
  {
    var n := |f|;
    var u := BurstWeights(n, p);
    BurstIsClocked(f, p, u);
    StepsKernel(Sum(f, u, 0), n - p);
    SumSkip(f, u, 0, p);
    BurstTop(n, p);
    TopClear(f, u, p + 1);
    TopSet(Sum(f, u, p + 1));
  }

  /** The weights of a burst that starts at `p`, as if the message ended with it. */
  function BurstWeights(n: nat, p: nat): (u: seq<bv8>)
    ensures |u| == n
  {
    seq(n, k requires 0 <= k < n => if p <= k < p + 8 then Pow(7 - (k - p)) else 0)
  }

  lemma BurstIsClocked(f: seq<bool>, p: nat, u: seq<bv8>)
    requires p < |f| && u == BurstWeights(|f|, p)
    requires forall k | 0 <= k < |f| && f[k] :: p <= k < p + 8 && !InCrcByte(k)
    ensures FlipSum(f) == Steps(Sum(f, u, 0), |f| - p)
  {
    var n := |f|;
    var v := seq(n, k requires 0 <= k < n => Steps(u[k], n - p));
    forall k | 0 <= k < n && f[k] ensures Weights(n)[k] == v[k] {
      PowAdd(7 - (k - p), n - p);
    }
    SumSameWeights(f, Weights(n), v, 0);
    SumClocked(f, u, v, n - p);
  }

  /** Only the first bit of a burst has a weight with the top bit set. */
  lemma BurstTop(n: nat, p: nat)
    requires p < n
    ensures BurstWeights(n, p)[p] == 0x80
    ensures forall k | p + 1 <= k < n :: BurstWeights(n, p)[k] & 0x80 == 0
  {
    PowersBelowEight(7);
    forall k | p + 1 <= k < n ensures BurstWeights(n, p)[k] & 0x80 == 0 {
      if k < p + 8 { PowersBelowEight(7 - (k - p)); }
    }
  }
}
