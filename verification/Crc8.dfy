/** The table-driven CRC-8 that protects every packet, the shift register it
    unrolls, and the algebra both obey: the generator is x^8 + x^2 + x + 1, the
    initial value is zero and nothing is reflected. */
module Crc8 {
  import opened Iteration

  /** The look-up table, eight entries a row as it is laid out in the protocol header. */
  function Crc8Tab(i: bv8): bv8 {
    var row := if i < 0x80 then LowerRow(i >> 3) else UpperRow(i >> 3);
    row[(i & 7) as int]
  }

  function LowerRow(r: bv8): (row: seq<bv8>)
    ensures |row| == 8
  {
    match r
    case 0x00 => [0x00, 0x07, 0x0E, 0x09, 0x1C, 0x1B, 0x12, 0x15]
    case 0x01 => [0x38, 0x3F, 0x36, 0x31, 0x24, 0x23, 0x2A, 0x2D]
    case 0x02 => [0x70, 0x77, 0x7E, 0x79, 0x6C, 0x6B, 0x62, 0x65]
    case 0x03 => [0x48, 0x4F, 0x46, 0x41, 0x54, 0x53, 0x5A, 0x5D]
    case 0x04 => [0xE0, 0xE7, 0xEE, 0xE9, 0xFC, 0xFB, 0xF2, 0xF5]
    case 0x05 => [0xD8, 0xDF, 0xD6, 0xD1, 0xC4, 0xC3, 0xCA, 0xCD]
    case 0x06 => [0x90, 0x97, 0x9E, 0x99, 0x8C, 0x8B, 0x82, 0x85]
    case 0x07 => [0xA8, 0xAF, 0xA6, 0xA1, 0xB4, 0xB3, 0xBA, 0xBD]
    case 0x08 => [0xC7, 0xC0, 0xC9, 0xCE, 0xDB, 0xDC, 0xD5, 0xD2]
    case 0x09 => [0xFF, 0xF8, 0xF1, 0xF6, 0xE3, 0xE4, 0xED, 0xEA]
    case 0x0A => [0xB7, 0xB0, 0xB9, 0xBE, 0xAB, 0xAC, 0xA5, 0xA2]
    case 0x0B => [0x8F, 0x88, 0x81, 0x86, 0x93, 0x94, 0x9D, 0x9A]
    case 0x0C => [0x27, 0x20, 0x29, 0x2E, 0x3B, 0x3C, 0x35, 0x32]
    case 0x0D => [0x1F, 0x18, 0x11, 0x16, 0x03, 0x04, 0x0D, 0x0A]
    case 0x0E => [0x57, 0x50, 0x59, 0x5E, 0x4B, 0x4C, 0x45, 0x42]
    case _ => [0x6F, 0x68, 0x61, 0x66, 0x73, 0x74, 0x7D, 0x7A]
  }

  function UpperRow(r: bv8): (row: seq<bv8>)
    ensures |row| == 8
  {
    match r
    case 0x10 => [0x89, 0x8E, 0x87, 0x80, 0x95, 0x92, 0x9B, 0x9C]
    case 0x11 => [0xB1, 0xB6, 0xBF, 0xB8, 0xAD, 0xAA, 0xA3, 0xA4]
    case 0x12 => [0xF9, 0xFE, 0xF7, 0xF0, 0xE5, 0xE2, 0xEB, 0xEC]
    case 0x13 => [0xC1, 0xC6, 0xCF, 0xC8, 0xDD, 0xDA, 0xD3, 0xD4]
    case 0x14 => [0x69, 0x6E, 0x67, 0x60, 0x75, 0x72, 0x7B, 0x7C]
    case 0x15 => [0x51, 0x56, 0x5F, 0x58, 0x4D, 0x4A, 0x43, 0x44]
    case 0x16 => [0x19, 0x1E, 0x17, 0x10, 0x05, 0x02, 0x0B, 0x0C]
    case 0x17 => [0x21, 0x26, 0x2F, 0x28, 0x3D, 0x3A, 0x33, 0x34]
    case 0x18 => [0x4E, 0x49, 0x40, 0x47, 0x52, 0x55, 0x5C, 0x5B]
    case 0x19 => [0x76, 0x71, 0x78, 0x7F, 0x6A, 0x6D, 0x64, 0x63]
    case 0x1A => [0x3E, 0x39, 0x30, 0x37, 0x22, 0x25, 0x2C, 0x2B]
    case 0x1B => [0x06, 0x01, 0x08, 0x0F, 0x1A, 0x1D, 0x14, 0x13]
    case 0x1C => [0xAE, 0xA9, 0xA0, 0xA7, 0xB2, 0xB5, 0xBC, 0xBB]
    case 0x1D => [0x96, 0x91, 0x98, 0x9F, 0x8A, 0x8D, 0x84, 0x83]
    case 0x1E => [0xDE, 0xD9, 0xD0, 0xD7, 0xC2, 0xC5, 0xCC, 0xCB]
    case _ => [0xE6, 0xE1, 0xE8, 0xEF, 0xFA, 0xFD, 0xF4, 0xF3]
  }

  /** The CRC register after `bs` went through the table, starting from `c`. */
  function CrcFrom(c: bv8, bs: seq<bv8>): bv8
    decreases |bs|
  {
    if |bs| == 0 then c else CrcFrom(Crc8Tab(c ^ bs[0]), bs[1..])
  }

  function Crc(bs: seq<bv8>): bv8 {
    CrcFrom(0, bs)
  }

  // ---------------------------------------------------------------- shift register

  /** The product with x^2 + x + 1, the generator without its leading term. */
  function Mul7(c: bv8): bv8 {
    c ^ (c << 1) ^ (c << 2)
  }

  /** One clock of the register: multiply by x, reduce modulo the generator. */
  function Step(c: bv8): bv8 {
    (c << 1) ^ Mul7(c >> 7)
  }

  function Top(b: bool): bv8 {
    if b then 0x80 else 0
  }

  /** One clock with the next message bit entering at the top. */
  function ShiftIn(c: bv8, b: bool): bv8 {
    Step(c ^ Top(b))
  }

  function ShiftAll(c: bv8, bits: seq<bool>): bv8
    decreases |bits|
  {
    if |bits| == 0 then c else ShiftAll(ShiftIn(c, bits[0]), bits[1..])
  }

  const BITS: nat := 8

  /** The `n` top bits of `t`, most significant first. */
  function TopBits(t: bv8, n: nat): (bits: seq<bool>)
    ensures |bits| == n
    decreases n
  {
    if n == 0 then [] else [t & 0x80 != 0] + TopBits(t << 1, n - 1)
  }

  function ByteBits(b: bv8): (bits: seq<bool>)
    ensures |bits| == 8
  {
    TopBits(b, BITS)
  }

  function Bits(bs: seq<bv8>): (bits: seq<bool>)
    ensures |bits| == 8 * |bs|
  {
    seq(8 * |bs|, i requires 0 <= i < 8 * |bs| => ByteBits(bs[i / 8])[i % 8])
  }

  /** The register after `n` clocks with no input. */
  function Steps(c: bv8, n: nat): bv8
    decreases n
  {
    if n == 0 then c else Steps(Step(c), n - 1)
  }

  /** The textbook form: shift, and subtract the generator when a bit falls out. */
  lemma StepSubtractsGenerator(c: bv8)
    ensures Step(c) == if c & 0x80 != 0 then (c << 1) ^ 0x07 else c << 1
  {
  }

  lemma Steps8BranchFree(c: bv8)
    ensures Steps(c, 8) == Mul7(c) ^ Mul7((c >> 7) ^ (c >> 6))
  {
    var c4 := Step(Step(Step(Step(c))));
    assert Steps(c, 8) == Steps(c4, 4);
    assert Steps(c4, 4) == Step(Step(Step(Step(c4))));
  }

  lemma StepXor(a: bv8, b: bv8)
    ensures Step(a ^ b) == Step(a) ^ Step(b)
  {
  }

  lemma StepInjective(a: bv8, b: bv8)
    ensures Step(a) == Step(b) <==> a == b
  {
    StepXor(a, b);
    assert Step(a ^ b) == 0 ==> a ^ b == 0 by { StepKernel(a ^ b); }
  }

  lemma StepKernel(c: bv8)
    ensures Step(c) == 0 <==> c == 0
  {
  }

  lemma {:induction false} StepsXor(a: bv8, b: bv8, n: nat)
    ensures Steps(a ^ b, n) == Steps(a, n) ^ Steps(b, n)
    decreases n
  {
    if n > 0 {
      StepXor(a, b);
      StepsXor(Step(a), Step(b), n - 1);
    }
  }

  lemma {:induction false} StepsKernel(c: bv8, n: nat)
    ensures Steps(c, n) == 0 <==> c == 0
    decreases n
  {
    if n > 0 {
      StepKernel(c);
      StepsKernel(Step(c), n - 1);
    }
  }

  lemma {:induction false} StepsAdd(c: bv8, m: nat, n: nat)
    ensures Steps(c, m + n) == Steps(Steps(c, m), n)
    decreases m
  {
    if m > 0 {
      StepsAdd(Step(c), m - 1, n);
    }
  }

  // ---------------------------------------------------------------- the table

  /** Entry 8r + k of the table is entry 8r plus the k-th multiple of the generator's tail. */
  function RowOf(b: bv8): seq<bv8> {
    [b, b ^ 0x07, b ^ 0x0E, b ^ 0x09, b ^ 0x1C, b ^ 0x1B, b ^ 0x12, b ^ 0x15]
  }

  lemma LowerRows(r: bv8)
    requires r < 0x10
    ensures LowerRow(r) == RowOf(LowerRow(r)[0]) && LowerRow(r)[0] == Mul7(r << 3) ^ Mul7((r >> 4) ^ (r >> 3))
  {
    match r
    case 0x00 => case 0x01 => case 0x02 => case 0x03 => case 0x04 => case 0x05 => case 0x06 => case 0x07 =>
    case 0x08 => case 0x09 => case 0x0A => case 0x0B => case 0x0C => case 0x0D => case 0x0E => case _ =>
  }

  lemma UpperRows(r: bv8)
    requires 0x10 <= r < 0x20
    ensures UpperRow(r) == RowOf(UpperRow(r)[0]) && UpperRow(r)[0] == Mul7(r << 3) ^ Mul7((r >> 4) ^ (r >> 3))
  {
    match r
    case 0x10 => case 0x11 => case 0x12 => case 0x13 => case 0x14 => case 0x15 => case 0x16 => case 0x17 =>
    case 0x18 => case 0x19 => case 0x1A => case 0x1B => case 0x1C => case 0x1D => case 0x1E => case _ =>
  }

  /** Every table entry is eight clocks of the shift register. */
  lemma TableIsEightClocks(i: bv8)
    ensures Crc8Tab(i) == Steps(i, 8)
  {
    var r, k := i >> 3, i & 7;
    Steps8BranchFree(i);
    if i < 0x80 { LowerRows(r); } else { UpperRows(r); }
    if k == 0 {} else if k == 1 {} else if k == 2 {} else if k == 3 {}
    else if k == 4 {} else if k == 5 {} else if k == 6 {} else { assert k == 7; }
  }

  // ---------------------------------------------------------------- table == shift register

  lemma ByteBitsAt(c: bv8)
    ensures ByteBits(c) == [c & 0x80 != 0, c & 0x40 != 0, c & 0x20 != 0, c & 0x10 != 0,
                            c & 0x08 != 0, c & 0x04 != 0, c & 0x02 != 0, c & 0x01 != 0]
  {
    forall k: nat | k < 8 ensures ByteBits(c)[k] == (Shl(c, k) & 0x80 != 0) {
      TopBitsAt(c, 8, k);
    }
    ShlMasks(c);
  }

  lemma {:induction false} TopBitsAt(t: bv8, n: nat, k: nat)
    requires k < n
    ensures TopBits(t, n)[k] == (Shl(t, k) & 0x80 != 0)
    decreases k
  {
    if k > 0 {
      TopBitsAt(t << 1, n - 1, k - 1);
    }
  }

  lemma ShlMasks(c: bv8)
    ensures Shl(c, 0) & 0x80 == c & 0x80 && Shl(c, 1) & 0x80 == (c & 0x40) << 1
    ensures Shl(c, 2) & 0x80 == (c & 0x20) << 2 && Shl(c, 3) & 0x80 == (c & 0x10) << 3
    ensures Shl(c, 4) & 0x80 == (c & 0x08) << 4 && Shl(c, 5) & 0x80 == (c & 0x04) << 5
    ensures Shl(c, 6) & 0x80 == (c & 0x02) << 6 && Shl(c, 7) & 0x80 == (c & 0x01) << 7
  {
    var c3 := ((c << 1) << 1) << 1;
    assert Shl(c, 4) == Shl(c3, 1) && Shl(c, 5) == Shl(c3, 2) && Shl(c, 6) == Shl(c3, 3) && Shl(c, 7) == Shl(c3, 4);
  }

  function Xor(a: bv8, b: bv8): bv8 {
    a ^ b
  }

  function TopBit(t: bv8): bool {
    t & 0x80 != 0
  }

  function Up(t: bv8): bv8 {
    t << 1
  }

  /** Clocking in the top bit of `t` turns the pending `t` into `t << 1`. */
  lemma ClockTopBit(s: bv8, t: bv8)
    ensures ShiftIn(Xor(s, t), TopBit(t)) == Xor(Step(s), Up(t))
  {
  }

  function Shl(t: bv8, n: nat): bv8
    decreases n
  {
    if n == 0 then t else Shl(t << 1, n - 1)
  }

  // The same functions as iterations, so that the induction over them need not look at bits.

  lemma {:induction false} StepsIterate(c: bv8, n: nat)
    ensures Steps(c, n) == Iterate(Step, c, n)
    decreases n
  {
    if n > 0 { StepsIterate(Step(c), n - 1); }
  }

  lemma {:induction false} ShlIterates(t: bv8, n: nat)
    ensures Shl(t, n) == Iterate(Up, t, n)
    decreases n
  {
    if n > 0 { ShlIterates(t << 1, n - 1); }
  }

  lemma {:induction false} ShiftAllFolds(c: bv8, bits: seq<bool>)
    ensures ShiftAll(c, bits) == FoldBits(ShiftIn, c, bits)
    decreases |bits|
  {
    if |bits| > 0 { ShiftAllFolds(ShiftIn(c, bits[0]), bits[1..]); }
  }

  lemma {:induction false} TopBitsAreTops(t: bv8, n: nat)
    ensures TopBits(t, n) == Tops(TopBit, Up, t, n)
    decreases n
  {
    if n > 0 { TopBitsAreTops(t << 1, n - 1); }
  }

  lemma ClockIterates(s: bv8, t: bv8, n: nat)
    ensures FoldBits(ShiftIn, s ^ t, Tops(TopBit, Up, t, n)) == Iterate(Step, s, n) ^ Iterate(Up, t, n)
  {
    XorPending();
    ClockTops(Xor, ShiftIn, Step, TopBit, Up, s, t, n);
  }

  lemma XorPending()
    ensures Pending(Xor, ShiftIn, Step, TopBit, Up)
  {
    forall a: bv8, b: bv8 { ClockTopBit(a, b); }
  }

  lemma ClockTopBits(s: bv8, t: bv8, n: nat)
    ensures ShiftAll(s ^ t, TopBits(t, n)) == Steps(s, n) ^ Shl(t, n)
  {
    ClockIterates(s, t, n);
    StepsIterate(s, n);
    ShlIterates(t, n);
    TopBitsAreTops(t, n);
    ShiftAllFolds(s ^ t, TopBits(t, n));
  }

  lemma ShlOut(b: bv8)
    ensures Shl(b, 8) == 0
  {
    var b4 := (((b << 1) << 1) << 1) << 1;
    assert Shl(b, 8) == Shl(b4, 4);
    assert (((b4 << 1) << 1) << 1) << 1 == 0;
  }

  lemma ClockByte(s: bv8, b: bv8)
    ensures ShiftAll(s ^ b, ByteBits(b)) == Crc8Tab(s)
  {
    ClockTopBits(s, b, 8);
    ShlOut(b);
    TableIsEightClocks(s);
  }

  lemma Cancel(c: bv8, b: bv8)
    ensures (c ^ b) ^ b == c
  {
  }

  lemma BitsOfHead(bs: seq<bv8>)
    requires |bs| > 0
    ensures Bits(bs) == ByteBits(bs[0]) + Bits(bs[1..])
  {
    FlatHead(ByteBits, bs, Bits(bs), Bits(bs[1..]));
  }

  /** The table-driven loop computes what the bit-by-bit register computes, for every message. */
  lemma {:induction false} TableIsShiftRegister(c: bv8, bs: seq<bv8>)
    ensures CrcFrom(c, bs) == ShiftAll(c, Bits(bs))
    decreases |bs|
  {
    if |bs| > 0 {
      ClockByte(c ^ bs[0], bs[0]);
      Cancel(c, bs[0]);
      BitsOfHead(bs);
      ShiftAllConcat(c, ByteBits(bs[0]), Bits(bs[1..]));
      TableIsShiftRegister(Crc8Tab(c ^ bs[0]), bs[1..]);
    }
  }

  lemma {:induction false} ShiftAllConcat(c: bv8, x: seq<bool>, y: seq<bool>)
    ensures ShiftAll(c, x + y) == ShiftAll(ShiftAll(c, x), y)
    decreases |x|
  {
    if |x| == 0 {
      assert x + y == y;
    } else {
      assert (x + y)[0] == x[0] && (x + y)[1..] == x[1..] + y;
      ShiftAllConcat(ShiftIn(c, x[0]), x[1..], y);
    }
  }
}
