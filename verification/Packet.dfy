/** The wire packet: a count/code byte, the CRC, page, offset and up to 32 little-endian registers. */
module Packet {
  import opened Crc8
  import opened Errno

  const PKT_MAX_REGS: nat := 32
  const PKT_STRUCT_SIZE: nat := 68
  /** The struct and the memory after it that a count of 63 makes the CRC loop reach. */
  const PKT_REACH: nat := 130

  const PKT_CODE_READ: bv8 := 0x00
  const PKT_CODE_WRITE: bv8 := 0x40
  const PKT_CODE_SUCCESS: bv8 := 0x00
  const PKT_CODE_CORRUPT: bv8 := 0x40
  const PKT_CODE_ERROR: bv8 := 0x80
  const PKT_CODE_MASK: bv8 := 0xC0
  const PKT_COUNT_MASK: bv8 := 0x3F

  type Memory = m: seq<bv8> | |m| == PKT_REACH witness seq(PKT_REACH, _ => 0)

  function CountOf(countCode: bv8): (n: nat)
    ensures n < 64
  {
    (countCode & PKT_COUNT_MASK) as nat
  }

  function Count(m: Memory): nat {
    CountOf(m[0])
  }

  function Code(m: Memory): bv8 {
    m[0] & PKT_CODE_MASK
  }

  function Size(m: Memory): (n: nat)
    ensures 4 <= n <= PKT_REACH
  {
    4 + 2 * Count(m)
  }

  /** The bytes the CRC runs over; the CRC byte itself is zeroed meanwhile. */
  function Covered(m: Memory): (bs: seq<bv8>)
    ensures |bs| == Size(m)
  {
    m[..Size(m)]
  }

  predicate CrcOk(m: Memory) {
    m[1] == Crc(Covered(m[1 := 0]))
  }

  /** What a read returns for the reply in `m`: the acceptance checks in the driver's order. */
  function ReadResult(m: Memory, count: nat): int {
    if !CrcOk(m) then -EIO
    else if Code(m) == PKT_CODE_ERROR then -EINVAL
    else if Count(m) != count then -EIO
    else count
  }

  /** What a write returns: the reply's count is not looked at. */
  function WriteResult(m: Memory, count: nat): int {
    if !CrcOk(m) then -EIO
    else if Code(m) == PKT_CODE_ERROR then -EINVAL
    else count
  }

  // ---------------------------------------------------------------- registers in the packet

  function LowByte(w: bv16): bv8 {
    (w & 0xFF) as bv8
  }

  function HighByte(w: bv16): bv8 {
    (w >> 8) as bv8
  }

  function WordOf(lo: bv8, hi: bv8): bv16 {
    (lo as bv16) | ((hi as bv16) << 8)
  }

  lemma WordRoundTrip(w: bv16)
    ensures WordOf(LowByte(w), HighByte(w)) == w
  {
  }

  /** The memory image of `ws`, low byte first. */
  function WordBytes(ws: seq<bv16>): (bs: seq<bv8>)
    ensures |bs| == 2 * |ws|
  {
    seq(2 * |ws|, i requires 0 <= i < 2 * |ws| => if i % 2 == 0 then LowByte(ws[i / 2]) else HighByte(ws[i / 2]))
  }

  /** The first `n` registers of the packet. */
  function Words(m: Memory, n: nat): (ws: seq<bv16>)
    requires n < 64
    ensures |ws| == n
  {
    seq(n, i requires 0 <= i < n => WordOf(m[4 + 2 * i], m[5 + 2 * i]))
  }

  function CountByte(n: nat, code: bv8): bv8
    requires n <= PKT_MAX_REGS
  {
    (n as bv8) | code
  }

  lemma CountByteParts(n: nat, code: bv8)
    requires n <= PKT_MAX_REGS && code & PKT_COUNT_MASK == 0
    ensures CountOf(CountByte(n, code)) == n && CountByte(n, code) & PKT_CODE_MASK == code
  {
  }

  const PADDING: bv16 := 0x55AA

  /** The buffer of a write transaction just before the CRC goes in. */
  function WriteRequest(m: Memory, page: bv8, offset: bv8, ws: seq<bv16>): Memory
    requires |ws| <= PKT_MAX_REGS
  {
    [CountByte(|ws|, PKT_CODE_WRITE), m[1], page, offset]
    + WordBytes(ws + seq(PKT_MAX_REGS - |ws|, _ => PADDING))
    + m[PKT_STRUCT_SIZE..]
  }

  /** A read request leaves the registers of the previous transaction in place. */
  function ReadRequest(m: Memory, page: bv8, offset: bv8, count: nat): Memory
    requires count <= PKT_MAX_REGS
  {
    [CountByte(count, PKT_CODE_READ), m[1], page, offset] + m[4..]
  }

  /** The write request on the wire: header, registers low byte first, every register left over filled with
      0x55AA, and nothing behind the struct touched. */
  lemma WriteRequestBytes(m: Memory, page: bv8, offset: bv8, ws: seq<bv16>, i: nat)
    requires |ws| <= 32 && i < 32
    ensures var r := WriteRequest(m, page, offset, ws);
            && r[0] == (|ws| as bv8) | 0x40 && r[1] == m[1] && r[2] == page && r[3] == offset && r[68..] == m[68..]
            && (i < |ws| ==> r[4 + 2 * i] == (ws[i] & 0xFF) as bv8 && r[5 + 2 * i] == (ws[i] >> 8) as bv8)
            && (i >= |ws| ==> r[4 + 2 * i] == 0xAA && r[5 + 2 * i] == 0x55)
  {
    var all := ws + seq(PKT_MAX_REGS - |ws|, _ => PADDING);
    var r := WriteRequest(m, page, offset, ws);
    assert r[4 + 2 * i] == WordBytes(all)[2 * i] && r[5 + 2 * i] == WordBytes(all)[2 * i + 1];
    assert all[i] == if i < |ws| then ws[i] else PADDING;
  }

  /** The read request: its header, and whatever the previous transaction left in the registers. */
  lemma ReadRequestBytes(m: Memory, page: bv8, offset: bv8, count: nat)
    requires count <= 32
    ensures var r := ReadRequest(m, page, offset, count);
            r[0] == count as bv8 && r[1] == m[1] && r[2] == page && r[3] == offset && r[4..] == m[4..]
  {
  }

  /** Every reply to a read is judged: the count if its CRC, code and count are right, -EINVAL for a sound reply
      with the error code, -EIO for all others. */
  lemma ReadJudged(m: Memory, count: nat)
    ensures ReadResult(m, count) == count <==>
            m[1] == Crc(Covered(m[1 := 0])) && m[0] & 0xC0 != 0x80 && (m[0] & 0x3F) as nat == count
    ensures ReadResult(m, count) == -22 <==> m[1] == Crc(Covered(m[1 := 0])) && m[0] & 0xC0 == 0x80
    ensures ReadResult(m, count) == count || ReadResult(m, count) == -22 || ReadResult(m, count) == -5
  {
  }

  /** To a write, the same but for its count. */
  lemma WriteJudged(m: Memory, count: nat)
    ensures WriteResult(m, count) == count <==> m[1] == Crc(Covered(m[1 := 0])) && m[0] & 0xC0 != 0x80
    ensures WriteResult(m, count) == -22 <==> m[1] == Crc(Covered(m[1 := 0])) && m[0] & 0xC0 == 0x80
    ensures WriteResult(m, count) == count || WriteResult(m, count) == -22 || WriteResult(m, count) == -5
  {
  }

  function Seal(m: Memory): Memory {
    m[1 := Crc(Covered(m[1 := 0]))]
  }

  lemma SealIsValid(m: Memory)
    ensures CrcOk(Seal(m)) && Count(Seal(m)) == Count(m) && Code(Seal(m)) == Code(m)
    ensures forall i | 2 <= i < PKT_REACH :: Seal(m)[i] == m[i]
  {
    assert Seal(m)[1 := 0] == m[1 := 0];
  }

  lemma WriteRequestWord(m: Memory, page: bv8, offset: bv8, ws: seq<bv16>, i: nat)
    requires i < |ws| <= PKT_MAX_REGS
    ensures Words(WriteRequest(m, page, offset, ws), |ws|)[i] == ws[i]
  {
    var r, all := WriteRequest(m, page, offset, ws), ws + seq(PKT_MAX_REGS - |ws|, _ => PADDING);
    assert r[4 + 2 * i] == WordBytes(all)[2 * i] && r[5 + 2 * i] == WordBytes(all)[2 * i + 1];
    WordRoundTrip(ws[i]);
  }

  lemma WriteRequestCarries(m: Memory, page: bv8, offset: bv8, ws: seq<bv16>)
    requires |ws| <= PKT_MAX_REGS
    ensures var r := WriteRequest(m, page, offset, ws);
            Code(r) == PKT_CODE_WRITE && Count(r) == |ws| && r[2] == page && r[3] == offset && Words(r, |ws|) == ws
  {
    CountByteParts(|ws|, PKT_CODE_WRITE);
    forall i | 0 <= i < |ws| ensures Words(WriteRequest(m, page, offset, ws), |ws|)[i] == ws[i] {
      WriteRequestWord(m, page, offset, ws, i);
    }
  }

  lemma ReadRequestCarries(m: Memory, page: bv8, offset: bv8, count: nat)
    requires count <= PKT_MAX_REGS
    ensures var r := ReadRequest(m, page, offset, count);
            Code(r) == PKT_CODE_READ && Count(r) == count && r[2] == page && r[3] == offset
  {
  }
}
