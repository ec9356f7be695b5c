/** Bits of 16-bit words as the driver's macros set, clear and read them. */
module PinWords {

  type Pin = p: nat | p < 16

  function One(n: Pin): bv16 {
    1 << n
  }

  /** As clear_bit_m is written the complement is taken before the shift: zeros in bits 0 to n. */
  function Above(n: Pin): bv16 {
    0xFFFE << n
  }

  predicate Bit(m: bv16, n: Pin) {
    m & One(n) != 0
  }

  function SetBit(m: bv16, n: Pin): bv16 {
    m | One(n)
  }

  function ClearBit(m: bv16, n: Pin): bv16 {
    m & Above(n)
  }

  /** The clearing used for the PWM export mask: one bit only. */
  function DropBit(m: bv16, n: Pin): bv16 {
    m & !One(n)
  }

  // ---------------------------------------------------------------- bit by bit

  lemma OneMeets(n: Pin, k: Pin)
    ensures One(n) != 0
    ensures n != k ==> One(n) & One(k) == 0
  {
  }

  lemma AboveMeetsHigher(n: Pin, k: Pin)
    requires k > n
    ensures Above(n) & One(k) == One(k)
  {
  }

  lemma AboveMissesLower(n: Pin, k: Pin)
    requires k <= n
    ensures Above(n) & One(k) == 0
  {
  }

  lemma OrMask(m: bv16, a: bv16, b: bv16)
    requires a & b == 0
    ensures (m | a) & b == m & b
  {
  }

  lemma AndMask(m: bv16, a: bv16, b: bv16)
    ensures (m & a) & b == m & (a & b)
  {
  }

  lemma DropMask(m: bv16, a: bv16, b: bv16)
    requires a & b == 0
    ensures (m & !a) & b == m & b
  {
  }

  lemma SetSame(m: bv16, n: Pin)
    ensures Bit(SetBit(m, n), n)
  {
  }

  lemma SetMasked(m: bv16, n: Pin, a: bv16, b: bv16)
    requires a == One(n) && a & b == 0
    ensures SetBit(m, n) & b == m & b
  {
    OrMask(m, a, b);
  }

  lemma SetOther(m: bv16, n: Pin, k: Pin)
    requires n != k
    ensures Bit(SetBit(m, n), k) == Bit(m, k)
  {
    OneMeets(n, k);
    SetMasked(m, n, One(n), One(k));
  }

  lemma SetBitAt(m: bv16, n: Pin, k: Pin)
    ensures Bit(SetBit(m, n), k) <==> k == n || Bit(m, k)
  {
    if n == k { SetSame(m, n); } else { SetOther(m, n, k); }
  }

  lemma ClearMasked(m: bv16, n: Pin, a: bv16, b: bv16, c: bv16)
    requires a == Above(n) && a & b == c
    ensures ClearBit(m, n) & b == m & c
  {
    AndMask(m, a, b);
  }

  lemma ClearKeepsHigher(m: bv16, n: Pin, k: Pin)
    requires k > n
    ensures Bit(ClearBit(m, n), k) == Bit(m, k)
  {
    AboveMeetsHigher(n, k);
    ClearMasked(m, n, Above(n), One(k), One(k));
  }

  lemma ClearTakesLower(m: bv16, n: Pin, k: Pin)
    requires k <= n
    ensures !Bit(ClearBit(m, n), k)
  {
    AboveMissesLower(n, k);
    ClearMasked(m, n, Above(n), One(k), 0);
  }

  /** The macro clears bit n and every bit below it. */
  lemma ClearBitAt(m: bv16, n: Pin, k: Pin)
    ensures Bit(ClearBit(m, n), k) <==> k > n && Bit(m, k)
  {
    if k > n { ClearKeepsHigher(m, n, k); } else { ClearTakesLower(m, n, k); }
  }

  lemma DropSame(m: bv16, n: Pin)
    ensures !Bit(DropBit(m, n), n)
  {
  }

  lemma DropMasked(m: bv16, n: Pin, a: bv16, b: bv16)
    requires a == One(n) && a & b == 0
    ensures DropBit(m, n) & b == m & b
  {
    DropMask(m, a, b);
  }

  lemma DropOther(m: bv16, n: Pin, k: Pin)
    requires n != k
    ensures Bit(DropBit(m, n), k) == Bit(m, k)
  {
    OneMeets(n, k);
    DropMasked(m, n, One(n), One(k));
  }

  lemma DropBitAt(m: bv16, n: Pin, k: Pin)
    ensures Bit(DropBit(m, n), k) <==> k != n && Bit(m, k)
  {
    if n == k { DropSame(m, n); } else { DropOther(m, n, k); }
  }

  lemma Single(a: bv16, k: Pin)
    ensures a & One(k) == 0 || a & One(k) == One(k)
  {
  }

  lemma ShiftedOne(m: bv16, n: Pin)
    ensures (m >> n) & 1 == 1 <==> m & One(n) == One(n)
  {
  }

  lemma MaskedOne(m: bv16, n: Pin)
    ensures Bit(m, n) <==> m & One(n) == One(n)
  {
    Single(m, n);
    OneMeets(n, n);
  }

  /** Reading a bit by shifting it down and by masking it out are the same. */
  lemma ShiftedBit(m: bv16, n: Pin)
    ensures (m >> n) & 1 == 1 <==> Bit(m, n)
  {
    ShiftedOne(m, n);
    MaskedOne(m, n);
  }

  /** The pins of an export or ignore mask. */
  function Pins(m: bv16): set<Pin> {
    set k: Pin | Bit(m, k)
  }

  lemma SetPins(m: bv16, n: Pin)
    ensures Pins(SetBit(m, n)) == Pins(m) + {n}
  {
    forall k: Pin ensures Bit(SetBit(m, n), k) <==> k == n || Bit(m, k) { SetBitAt(m, n, k); }
  }

  lemma ClearPins(m: bv16, n: Pin)
    ensures Pins(ClearBit(m, n)) == set k | k in Pins(m) && k > n
  {
    forall k: Pin ensures Bit(ClearBit(m, n), k) <==> k > n && Bit(m, k) { ClearBitAt(m, n, k); }
  }

  lemma DropPins(m: bv16, n: Pin)
    ensures Pins(DropBit(m, n)) == Pins(m) - {n}
  {
    forall k: Pin ensures Bit(DropBit(m, n), k) <==> k != n && Bit(m, k) { DropBitAt(m, n, k); }
  }

  // ---------------------------------------------------------------- the word of one pin

  const ENABLE: Pin := 15
  const DIRECTION: Pin := 14
  const VALUE: Pin := 0

  /** What a pin word stands for. */
  datatype Setting = Setting(enabled: bool, input: bool, high: bool)

  const OFF: Setting := Setting(false, false, false)

  function Encode(s: Setting): bv16 {
    (if s.enabled then 0x8000 else 0) | (if s.input then 0x4000 else 0) | (if s.high then 1 else 0)
  }

  function Decode(w: bv16): Setting {
    Setting((w >> ENABLE) & 1 == 1, (w >> DIRECTION) & 1 == 1, (w >> VALUE) & 1 == 1)
  }

  /** Encodings are exactly the words with zero in the bits that have no meaning. */
  lemma EncodingRoundTrip(w: bv16, s: Setting)
    ensures Decode(Encode(s)) == s && Encode(s) & 0x3FFE == 0
    ensures w & 0x3FFE == 0 <==> Encode(Decode(w)) == w
  {
  }

  /** What each macro does to a setting. Setting the direction to output also drives the pin low. */
  lemma MacroMeanings(s: Setting)
    ensures SetBit(Encode(s), ENABLE) == Encode(s.(enabled := true))
    ensures SetBit(Encode(s), VALUE) == Encode(s.(high := true))
    ensures ClearBit(Encode(s), VALUE) == Encode(s.(high := false))
    ensures SetBit(Encode(s), DIRECTION) == Encode(s.(input := true))
    ensures ClearBit(Encode(s), DIRECTION) == Encode(s.(input := false, high := false))
  {
  }
}
