/** What the acceptance checks make of a well-formed packet that was damaged on the wire. */
module DamagedPackets {
  import opened Crc8
  import opened Packet
  import opened PowersOfX
  import opened ErrorDetection

  /** The bits of `p` under its CRC that arrived flipped in `d`. */
  function Damage(p: Memory, d: Memory): (f: seq<bool>)
    ensures |f| == 8 * Size(p)
  {
    Flips(Covered(p), d[..Size(p)])
  }

  lemma DamageAt(p: Memory, d: Memory, k: nat, j: nat)
    requires k < Size(p) && j < 8
    ensures Damage(p, d)[8 * k + j] == (ByteBits(p[k])[j] != ByteBits(d[k])[j])
  {
    var i := 8 * k + j;
    assert i / 8 == k && i % 8 == j;
    assert Bits(Covered(p))[i] == ByteBits(p[k])[j];
    assert Bits(d[..Size(p)])[i] == ByteBits(d[k])[j];
  }

  predicate InCountBits(i: nat) {
    2 <= i < 8
  }

  lemma SameCount(a: bv8, b: bv8)
    requires forall j | 2 <= j < 8 :: ByteBits(a)[j] == ByteBits(b)[j]
    ensures CountOf(a) == CountOf(b)
  {
    ByteBitsAt(a);
    ByteBitsAt(b);
    assert ByteBits(a)[2] == ByteBits(b)[2] && ByteBits(a)[3] == ByteBits(b)[3] && ByteBits(a)[4] == ByteBits(b)[4]
        && ByteBits(a)[5] == ByteBits(b)[5] && ByteBits(a)[6] == ByteBits(b)[6] && ByteBits(a)[7] == ByteBits(b)[7];
    assert a & 0x3F == b & 0x3F;
  }

  lemma CountIntact(p: Memory, d: Memory)
    requires forall i | 0 <= i < 8 && Damage(p, d)[i] :: !InCountBits(i)
    ensures Count(d) == Count(p)
  {
    forall j | 2 <= j < 8 ensures ByteBits(p[0])[j] == ByteBits(d[0])[j] {
      DamageAt(p, d, 0, j);
    }
    SameCount(p[0], d[0]);
  }

  lemma XorZero(a: bv8, b: bv8)
    ensures a ^ b == 0 <==> a == b
  {
  }

  lemma CrcOkIsSyndrome(m: Memory)
    ensures CrcOk(m) <==> Syndrome(Covered(m)) == 0
  {
  }

  /** With the count intact, damage to a well-formed packet goes unnoticed exactly when its
      powers of x cancel. */
  lemma UnnoticedIffSumVanishes(p: Memory, d: Memory)
    requires CrcOk(p) && Count(d) == Count(p)
    ensures CrcOk(d) <==> FlipSum(Damage(p, d)) == 0
  {
    CrcOkIsSyndrome(p);
    CrcOkIsSyndrome(d);
    SyndromeOfDamage(Covered(p), Covered(d));
  }

  /** An odd number of flips anywhere under the CRC of a well-formed read reply, count bits and
      CRC byte included, makes the read fail. */
  lemma OddDamageFailsRead(p: Memory, d: Memory, count: nat)
    requires CrcOk(p) && Count(p) == count
    requires CountFlips(Damage(p, d), 0) % 2 == 1
    ensures ReadResult(d, count) < 0
  {
    if Count(d) == Count(p) {
      UnnoticedIffSumVanishes(p, d);
      OddNeverVanishes(Damage(p, d));
    }
  }

  /** Two flipped bits that spare the count, those of the CRC byte included: undetected exactly when 127
      divides the difference of their exponents, for two message bits that is their distance. */
  lemma TwoFlips(p: Memory, d: Memory, i: nat, j: nat)
    requires CrcOk(p)
    requires i < j < 8 * Size(p)
    requires !InCountBits(i) && !InCountBits(j)
    requires forall k | 0 <= k < 8 * Size(p) :: Damage(p, d)[k] <==> k == i || k == j
    ensures CrcOk(d) <==> (Exponent(8 * Size(p), i) - Exponent(8 * Size(p), j)) % 127 == 0
    ensures !InCrcByte(i) && !InCrcByte(j) ==> (CrcOk(d) <==> (j - i) % 127 == 0)
  {
    var f, n := Damage(p, d), 8 * Size(p);
    var a, b := Exponent(n, i), Exponent(n, j);
    CountIntact(p, d);
    UnnoticedIffSumVanishes(p, d);
    TwoFlipsSum(f, Weights(n), i, j);
    XorZero(Pow(a), Pow(b));
    if a <= b {
      PowersCoincide(a, b);
      Negated(b - a);
    } else {
      PowersCoincide(b, a);
    }
  }

  lemma Negated(x: int)
    ensures x % 127 == 0 <==> (-x) % 127 == 0
  {
  }

  /** In packets of at most five registers the weights of all covered bits differ. */
  lemma ShortPacketPair(n: nat, i: nat, j: nat)
    requires i < j < n <= 112
    ensures Pow(Exponent(n, i)) != Pow(Exponent(n, j))
  {
    var a, b := Exponent(n, i), Exponent(n, j);
    if a < b { PowersCoincide(a, b); } else { PowersCoincide(b, a); }
  }

  /** At most five registers: every error of one, two or three bits that spares the count is
      detected, the CRC byte included. */
  lemma ShortPacketDistance(p: Memory, d: Memory)
    requires CrcOk(p) && Count(p) <= 5
    requires forall i | 0 <= i < 8 && Damage(p, d)[i] :: !InCountBits(i)
    requires 1 <= CountFlips(Damage(p, d), 0) <= 3
    ensures !CrcOk(d)
  {
    var f, n := Damage(p, d), 8 * Size(p);
    CountIntact(p, d);
    UnnoticedIffSumVanishes(p, d);
    if CountFlips(f, 0) == 2 {
      var i := FirstFlip(f, 0);
      var j := FirstFlip(f, i + 1);
      NoFlips(f, j + 1);
      TwoFlipsSum(f, Weights(n), i, j);
      ShortPacketPair(n, i, j);
      XorZero(Pow(Exponent(n, i)), Pow(Exponent(n, j)));
    } else {
      OddNeverVanishes(f);
    }
  }

  /** A burst: at least one flip, all of them within eight consecutive bits after the CRC byte. */
  lemma BurstDetected(p: Memory, d: Memory, at: nat)
    requires CrcOk(p) && at >= 16
    requires CountFlips(Damage(p, d), 0) > 0
    requires forall k | 0 <= k < 8 * Size(p) && Damage(p, d)[k] :: at <= k < at + 8
    ensures !CrcOk(d)
  {
    var f := Damage(p, d);
    CountIntact(p, d);
    UnnoticedIffSumVanishes(p, d);
    var first := FirstFlip(f, 0);
    BurstNeverVanishes(f, first);
  }

  lemma ByteFromBits(a: bv8, b: bv8)
    requires ByteBits(a) == ByteBits(b)
    ensures a == b
  {
    ByteIsSum(a);
    ByteIsSum(b);
  }

  /** Any corruption of exactly one covered byte that spares the count. */
  lemma OneByteDetected(p: Memory, d: Memory, k: nat)
    requires CrcOk(p) && Count(d) == Count(p)
    requires k < Size(p) && p[k] != d[k]
    requires forall i | 0 <= i < Size(p) && i != k :: p[i] == d[i]
    ensures !CrcOk(d)
  {
    var f := Damage(p, d);
    if k == 1 {
      assert Covered(p[1 := 0]) == Covered(d[1 := 0]);
    } else {
      UnnoticedIffSumVanishes(p, d);
      forall i | 0 <= i < |f| && f[i] ensures 8 * k <= i < 8 * k + 8 {
        DamageAt(p, d, i / 8, i % 8);
      }
      if forall i | 0 <= i < |f| :: !f[i] {
        forall j | 0 <= j < 8 ensures ByteBits(p[k])[j] == ByteBits(d[k])[j] {
          DamageAt(p, d, k, j);
        }
        ByteFromBits(p[k], d[k]);
      }
      NoFlips(f, 0);
      var first := FirstFlip(f, 0);
      BurstNeverVanishes(f, first);
    }
  }
}
