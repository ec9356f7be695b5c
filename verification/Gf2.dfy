/** Polynomials over GF(2) and long division by the generator: an account of the
    packet CRC that mentions neither a table nor a register. */
module Gf2 {
  import opened Crc8

  /** Coefficients from the highest power down to the constant term. */
  type Poly = seq<bool>

  /** x^8 + x^2 + x + 1 */
  const GENERATOR: Poly := [true, false, false, false, false, false, true, true, true]

  function Zeros(n: nat): (p: Poly)
    ensures |p| == n
  {
    seq(n, _ => false)
  }

  function Xor(a: Poly, b: Poly): (p: Poly)
    requires |a| == |b|
    ensures |p| == |a|
  {
    seq(|a|, i requires 0 <= i < |a| => a[i] != b[i])
  }

  function Scale(t: bool, p: Poly): (r: Poly)
    ensures |r| == |p|
  {
    if t then p else Zeros(|p|)
  }

  /** The carry-less product. */
  function Mul(q: Poly, g: Poly): (p: Poly)
    requires |g| > 0
    ensures |p| == |q| + |g| - 1
    decreases |q|
  {
    if |q| == 0 then Zeros(|g| - 1)
    else Xor(Scale(q[0], g) + Zeros(|q| - 1), [false] + Mul(q[1..], g))
  }

  /** `p` is a multiple of the generator plus `r`, and the degree of `r` is below 8. */
  ghost predicate IsRemainder(p: Poly, r: Poly) {
    && |r| == 8
    && exists q: Poly ::
         && |q| + 8 == |p|
         && p == Xor(Mul(q, GENERATOR), Zeros(|q|) + r)
  }

  /** The quotient of message * x^8, one coefficient per message bit: the bits the register feeds back. */
  function Quotient(bits: seq<bool>): (q: Poly)
    ensures |q| == |bits|
    decreases |bits|
  {
    if |bits| == 0 then []
    else
      var n := |bits| - 1;
      Quotient(bits[..n]) + [ByteBits(ShiftAll(0, bits[..n]))[0] != bits[n]]
  }

  /** One clock, coefficient by coefficient: the register moves up one place and loses `t` generators. */
  lemma ClockCoefficients(c: bv8, b: bool)
    ensures var r := ByteBits(c); var t := r[0] != b;
            ByteBits(ShiftIn(c, b)) == [r[1], r[2], r[3], r[4], r[5], r[6] != t, r[7] != t, t]
  {
    ByteBitsAt(c);
    ByteBitsAt(ShiftIn(c, b));
    ClockMasks(c, b);
  }

  /** The same for the nine coefficients the division step touches. */
  lemma ClockAt(r: Poly, r': Poly, t: bool, k: nat)
    requires |r| == 8 && 1 <= k <= 8
    requires r' == [r[1], r[2], r[3], r[4], r[5], r[6] != t, r[7] != t, t]
    ensures r'[k - 1] == ((k < 8 && r[k]) != (t && GENERATOR[k]))
  {
    if k < 5 {} else {}
  }

  lemma ClockMasks(c: bv8, b: bool)
    ensures var d := ShiftIn(c, b); var t := (c & 0x80 != 0) != b;
            && (d & 0x80 != 0) == (c & 0x40 != 0)
            && (d & 0x40 != 0) == (c & 0x20 != 0)
            && (d & 0x20 != 0) == (c & 0x10 != 0)
            && (d & 0x10 != 0) == (c & 0x08 != 0)
            && (d & 0x08 != 0) == (c & 0x04 != 0)
            && (d & 0x04 != 0) == ((c & 0x02 != 0) != t)
            && (d & 0x02 != 0) == ((c & 0x01 != 0) != t)
            && (d & 0x01 != 0) == t
  {
    if b {} else {}
  }

  lemma {:induction false} MulAppend(q: Poly, t: bool, g: Poly)
    requires |g| > 0
    ensures Mul(q + [t], g) == Xor(Mul(q, g) + [false], Zeros(|q|) + Scale(t, g))
    decreases |q|
  {
    if |q| == 0 {
      assert (q + [t])[1..] == [];
    } else {
      var n := |q|;
      assert (q + [t])[1..] == q[1..] + [t];
      MulAppend(q[1..], t, g);
      MulAppendStep(Scale(q[0], g) + Zeros(n - 1), Mul(q[1..], g), n - 1, Scale(t, g));
      assert Scale(q[0], g) + Zeros(n - 1) + [false] == Scale(q[0], g) + Zeros(n);
    }
  }

  lemma MulAppendStep(a: Poly, m: Poly, n: nat, c: Poly)
    requires |a| == |m| + 1 && |m| + 1 == n + |c|
    ensures Xor(a + [false], [false] + Xor(m + [false], Zeros(n) + c))
         == Xor(Xor(a, [false] + m) + [false], Zeros(n + 1) + c)
  {
  }

  /** Bringing down the next message bit: the quotient gains the coefficient `t`. */
  lemma DivisionStep(p: Poly, b: bool, m: Poly, r: Poly, t: bool, r': Poly)
    requires |r| == 8 && |m| == |p| + 8 && t == (r[0] != b)
    requires p + Zeros(8) == Xor(m, Zeros(|p|) + r)
    requires r' == [r[1], r[2], r[3], r[4], r[5], r[6] != t, r[7] != t, t]
    ensures p + [b] + Zeros(8) == Xor(Xor(m + [false], Zeros(|p|) + Scale(t, GENERATOR)), Zeros(|p| + 1) + r')
  {
    var n := |p|;
    var d := Xor(Xor(m + [false], Zeros(n) + Scale(t, GENERATOR)), Zeros(n + 1) + r');
    forall i | 0 <= i < n + 9 ensures (p + [b] + Zeros(8))[i] == d[i] {
      if i < n + 8 { assert (p + Zeros(8))[i] == (m[i] != (Zeros(n) + r)[i]); }
      if i > n { ClockAt(r, r', t, i - n); }
    }
  }

  /** What the next message bit does to the register, coefficient by coefficient. */
  lemma RegisterMoves(p: seq<bool>, b: bool)
    ensures var r := ByteBits(ShiftAll(0, p)); var t := r[0] != b;
            ByteBits(ShiftAll(0, p + [b])) == [r[1], r[2], r[3], r[4], r[5], r[6] != t, r[7] != t, t]
  {
    ShiftAllConcat(0, p, [b]);
    ClockCoefficients(ShiftAll(0, p), b);
  }

  lemma {:induction false} LongDivision(bits: seq<bool>)
    ensures bits + Zeros(8) ==
            Xor(Mul(Quotient(bits), GENERATOR), Zeros(|bits|) + ByteBits(ShiftAll(0, bits)))
    decreases |bits|
  {
    if |bits| == 0 {
      ByteBitsAt(0);
    } else {
      var n := |bits| - 1;
      var p, b := bits[..n], bits[n];
      var q, r, r' := Quotient(p), ByteBits(ShiftAll(0, p)), ByteBits(ShiftAll(0, bits));
      var t := r[0] != b;
      assert bits == p + [b];
      RegisterMoves(p, b);
      LongDivision(p);
      MulAppend(q, t, GENERATOR);
      DivisionStep(p, b, Mul(q, GENERATOR), r, t, r');
    }
  }

  lemma Peel(s: Poly, m: Poly, r: Poly, n: nat)
    requires n > 0 && |s| == |m| + 1 == n + |r|
    ensures var a, b := Xor(Xor(s, [false] + m), Zeros(n) + r), Xor(m, Zeros(n - 1) + r);
            a[0] == s[0] && forall i | 0 <= i < |m| :: b[i] == (s[i + 1] != a[i + 1])
  {
  }

  lemma {:induction false} DivisionUnique(q: Poly, r: Poly, q': Poly, r': Poly)
    requires |q| == |q'| && |r| == |r'| == 8
    requires Xor(Mul(q, GENERATOR), Zeros(|q|) + r) == Xor(Mul(q', GENERATOR), Zeros(|q'|) + r')
    ensures q == q' && r == r'
    decreases |q|
  {
    var n := |q|;
    if n == 0 {
      var a, a' := Xor(Mul(q, GENERATOR), Zeros(n) + r), Xor(Mul(q', GENERATOR), Zeros(n) + r');
      forall i | 0 <= i < 8 ensures r[i] == r'[i] {
        assert a[i] == a'[i];
      }
    } else {
      var m, m' := Mul(q[1..], GENERATOR), Mul(q'[1..], GENERATOR);
      Peel(Scale(q[0], GENERATOR) + Zeros(n - 1), m, r, n);
      Peel(Scale(q'[0], GENERATOR) + Zeros(n - 1), m', r', n);
      assert q[0] == q'[0];
      assert Xor(m, Zeros(n - 1) + r) == Xor(m', Zeros(n - 1) + r');
      DivisionUnique(q[1..], r, q'[1..], r');
    }
  }

  /** The packet CRC is the remainder of message * x^8 modulo x^8 + x^2 + x + 1, and
      nothing else is: for messages of every length. */
  lemma CrcIsRemainder(bs: seq<bv8>, r: Poly)
    ensures IsRemainder(Bits(bs) + Zeros(8), r) <==> r == ByteBits(Crc(bs))
  {
    var bits := Bits(bs);
    var p := bits + Zeros(8);
    LongDivision(bits);
    TableIsShiftRegister(0, bs);
    var q0, r0 := Quotient(bits), ByteBits(Crc(bs));
    assert p == Xor(Mul(q0, GENERATOR), Zeros(|q0|) + r0);
    if IsRemainder(p, r) {
      var q: Poly :| |q| + 8 == |p| && p == Xor(Mul(q, GENERATOR), Zeros(|q|) + r);
      DivisionUnique(q, r, q0, r0);
    }
  }
}
