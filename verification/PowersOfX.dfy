/** The powers of x modulo the generator, that is, the register contents a single
    message bit leaves behind. x has order 127. */
module PowersOfX {
  import opened Crc8

  function Pow(k: nat): bv8 {
    Steps(1, k)
  }

  lemma PowAdd(m: nat, n: nat)
    ensures Pow(m + n) == Steps(Pow(m), n)
  {
    StepsAdd(1, m, n);
  }

  lemma {:induction false} StepsInjective(a: bv8, b: bv8, n: nat)
    ensures Steps(a, n) == Steps(b, n) <==> a == b
    decreases n
  {
    if n > 0 {
      StepInjective(a, b);
      StepsInjective(Step(a), Step(b), n - 1);
    }
  }

  lemma PowersBelowEight(k: nat)
    requires k < 8
    ensures Pow(k) == [1, 2, 4, 8, 0x10, 0x20, 0x40, 0x80][k]
  {
    assert Pow(3) == 8;
    assert Pow(4) == Steps(8, 1) && Pow(5) == Steps(8, 2) && Pow(6) == Steps(8, 3) && Pow(7) == Steps(0x40, 1) by {
      PowAdd(3, 1);
      PowAdd(3, 2);
      PowAdd(3, 3);
      PowAdd(6, 1);
    }
  }

  lemma NextEight(k: nat, c: bv8)
    requires Pow(k) == c
    ensures Pow(k + 8) == Mul7(c) ^ Mul7((c >> 7) ^ (c >> 6))
  {
    PowAdd(k, 8);
    Steps8BranchFree(c);
  }

  lemma XToThe127()
    ensures Pow(127) == 1
  {
    NextEight(0, 0x01);
    NextEight(8, 0x07);
    NextEight(16, 0x15);
    NextEight(24, 0x6B);
    NextEight(32, 0x16);
    NextEight(40, 0x62);
    NextEight(48, 0x29);
    NextEight(56, 0xDF);
    NextEight(64, 0x13);
    NextEight(72, 0x79);
    NextEight(80, 0x68);
    NextEight(88, 0x1F);
    NextEight(96, 0x5D);
    NextEight(104, 0x94);
    NextEight(112, 0xE5);
    assert Steps(0xB5, 7) == 1 by {
      assert Steps(0xB5, 7) == Steps(Step(Step(Step(Step(0xB5)))), 3);
    }
    PowAdd(120, 7);
  }

  lemma {:induction false} PowPeriodic(d: nat, q: nat, r: nat)
    requires Pow(d) == 1
    ensures Pow(q * d + r) == Pow(r)
    decreases q
  {
    if q > 0 {
      PowPeriodic(d, q - 1, r);
      PowAdd(d, (q - 1) * d + r);
      assert d + ((q - 1) * d + r) == q * d + r;
    }
  }

  lemma DivisorsOf127(q: nat, d: nat)
    requires q * d == 127
    ensures d == 1 || d == 127
  {
  }

  /** No smaller power of x is 1: its exponent would divide the prime 127. */
  lemma {:induction false} NoSmallerOrder(d: nat)
    requires 0 < d < 127
    ensures Pow(d) != 1
    decreases d
  {
    if Pow(d) == 1 {
      var q, r := 127 / d, 127 % d;
      XToThe127();
      PowPeriodic(d, q, r);
      if r == 0 {
        DivisorsOf127(q, d);
        XIsNotOne();
      } else {
        NoSmallerOrder(r);
      }
    }
  }

  lemma XIsNotOne()
    ensures Pow(1) != 1
  {
  }

  /** x has order exactly 127. */
  lemma OrderOfX(d: nat)
    ensures Pow(d) == 1 <==> d % 127 == 0
  {
    XToThe127();
    PowPeriodic(127, d / 127, d % 127);
    if d % 127 != 0 { NoSmallerOrder(d % 127); }
  }

  /** Two powers of x coincide exactly when 127 divides the distance of their exponents. */
  lemma PowersCoincide(a: nat, b: nat)
    requires a <= b
    ensures Pow(a) == Pow(b) <==> (b - a) % 127 == 0
  {
    PowAdd(b - a, a);
    StepsInjective(Pow(b - a), 1, a);
    OrderOfX(b - a);
  }
}
