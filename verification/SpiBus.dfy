/** The SPI transport: one shared packet buffer, a request out, a reply in, and the
    checks that decide whether the reply counts. The exchange itself is a parameter. */
module SpiBus {
  import opened Crc8
  import opened Errno
  import opened Packet

  /** What the SPI core did: either transfer may fail, and the reply may be any 68 bytes. */
  datatype Exchange =
    | SendFailed(err: int)
    | ReceiveFailed(err: int)
    | Reply(bytes: seq<bv8>)
  {
    predicate Valid() {
      match this
      case SendFailed(err) => err < 0
      case ReceiveFailed(err) => err < 0
      case Reply(bytes) => |bytes| == PKT_STRUCT_SIZE
    }
  }

  /** The buffer after the exchange of the request built in `m`. */
  function Exchanged(m: Memory, x: Exchange): Memory
    requires x.Valid()
  {
    if x.Reply? then x.bytes + m[PKT_STRUCT_SIZE..] else Seal(m)
  }

  function WriteOutcome(m: Memory, count: nat, x: Exchange): int
    requires x.Valid()
  {
    if x.Reply? then WriteResult(Exchanged(m, x), count) else x.err
  }

  function ReadOutcome(m: Memory, count: nat, x: Exchange): int
    requires x.Valid()
  {
    if x.Reply? then ReadResult(Exchanged(m, x), count) else x.err
  }

  /** The checks zero the CRC byte of a received packet and leave it so. */
  function Checked(m: Memory, x: Exchange): Memory
    requires x.Valid()
  {
    if x.Reply? then Exchanged(m, x)[1 := 0] else Exchanged(m, x)
  }

  function PageOf(address: bv16): bv8 {
    (address >> 8) as bv8
  }

  function OffsetOf(address: bv16): bv8 {
    (address & 0xFF) as bv8
  }

  /** Page and offset travel packed in one 16-bit address. */
  function Address(page: bv8, offset: bv8): bv16 {
    ((page as bv16) << 8) | (offset as bv16)
  }

  lemma AddressRoundTrip(page: bv8, offset: bv8)
    ensures PageOf(Address(page, offset)) == page && OffsetOf(Address(page, offset)) == offset
  {
  }

  /** The page is the high byte of the address, the offset the low one. */
  lemma AddressLayout(page: bv8, offset: bv8)
    ensures Address(page, offset) >> 8 == page as bv16 && Address(page, offset) & 0xFF == offset as bv16
  {
  }

  /** A transfer that fails leaves the sealed packet in the buffer, and its error is the result of write and
      read alike. */
  lemma FailedExchange(m: Memory, count: nat, x: Exchange)
    requires x.Valid() && !x.Reply?
    ensures Checked(m, x) == Exchanged(m, x) == m[1 := Crc(Covered(m[1 := 0]))]
    ensures WriteOutcome(m, count, x) == ReadOutcome(m, count, x) == x.err < 0
  {
  }

  /** A reply replaces the 68 bytes of the struct and none behind them, and is left with its CRC byte at zero. */
  lemma RepliedExchange(m: Memory, x: Exchange)
    requires x.Valid() && x.Reply?
    ensures var got := Exchanged(m, x);
            && got[..68] == x.bytes && got[68..] == m[68..]
            && Checked(m, x) == got[..1] + [0] + got[2..]
  {
  }

  /** A buffer with header, payload and padding in place is the write request. */
  lemma WriteImage(m: Memory, b: Memory, page: bv8, offset: bv8, ws: seq<bv16>)
    requires |ws| <= PKT_MAX_REGS
    requires b[0] == CountByte(|ws|, PKT_CODE_WRITE) && b[1] == m[1] && b[2] == page && b[3] == offset
    requires forall k | 0 <= k < 2 * |ws| :: b[4 + k] == WordBytes(ws)[k]
    requires forall k | 2 * |ws| <= k < 2 * PKT_MAX_REGS ::
               b[4 + k] == if k % 2 == 0 then LowByte(PADDING) else HighByte(PADDING)
    requires forall k | PKT_STRUCT_SIZE <= k < PKT_REACH :: b[k] == m[k]
    ensures b == WriteRequest(m, page, offset, ws)
  {
    var all := ws + seq(PKT_MAX_REGS - |ws|, _ => PADDING);
    forall k | 0 <= k < 2 * PKT_MAX_REGS ensures b[4 + k] == WordBytes(all)[k] {
      if k < 2 * |ws| {
        assert b[4 + k] == WordBytes(ws)[k] && all[k / 2] == ws[k / 2];
      } else {
        assert all[k / 2] == PADDING;
      }
    }
    assert b[4..PKT_STRUCT_SIZE] == WordBytes(all);
    assert b == b[..4] + b[4..PKT_STRUCT_SIZE] + b[PKT_STRUCT_SIZE..];
  }

  class Bus {
    /** The packet struct and the memory behind it. */
    const buffer: array<bv8>
    /** The packets handed to the SPI core, oldest first. */
    ghost var sent: seq<Memory>

    ghost predicate Valid()
      reads this
    {
      buffer.Length == PKT_REACH
    }

    ghost function Mem(): Memory
      requires Valid()
      reads this, buffer
    {
      buffer[..]
    }

    constructor ()
      ensures Valid() && fresh(buffer) && sent == []
    {
      buffer := new bv8[PKT_REACH];
      sent := [];
    }

    method CrcPacket() returns (c: bv8)
      requires Valid()
      ensures c == Crc(Covered(Mem()))
    {
      var end := 4 + 2 * CountOf(buffer[0]);
      var p := 0;
      c := 0;
      while p < end
        invariant 0 <= p <= end
        invariant CrcFrom(c, Mem()[p..end]) == Crc(Covered(Mem()))
      {
        assert Mem()[p..end][1..] == Mem()[p + 1..end];
        c := Crc8Tab(c ^ buffer[p]);
        p := p + 1;
      }
    }

    method WaitComplete(x: Exchange) returns (ret: int)
      requires Valid() && x.Valid()
      modifies this, buffer
      ensures Valid() && sent == old(sent) + [Seal(old(Mem()))]
      ensures Mem() == Exchanged(old(Mem()), x)
      ensures ret == if x.Reply? then 0 else x.err
    {
      buffer[1] := 0;
      assert Mem() == old(Mem())[1 := 0];
      var c := CrcPacket();
      buffer[1] := c;
      assert Mem() == Seal(old(Mem()));
      sent := sent + [Mem()];
      match x
      case SendFailed(err) => ret := err;
      case ReceiveFailed(err) => ret := err;
      case Reply(bytes) =>
        forall i | 0 <= i < PKT_STRUCT_SIZE {
          buffer[i] := bytes[i];
        }
        ret := 0;
    }

    method Write(address: bv16, data: array<bv16>, count: nat, x: Exchange) returns (result: int)
      requires Valid() && x.Valid() && count <= data.Length
      modifies this, buffer
      ensures Valid()
      ensures count > PKT_MAX_REGS ==> result == -EINVAL && sent == old(sent) && Mem() == old(Mem())
      ensures count <= PKT_MAX_REGS ==>
                var m := WriteRequest(old(Mem()), PageOf(address), OffsetOf(address), data[..count]);
                sent == old(sent) + [Seal(m)] && Mem() == Checked(m, x) && result == WriteOutcome(m, count, x)
    {
      if count > PKT_MAX_REGS {
        return -EINVAL;
      }
      BuildWrite(PageOf(address), OffsetOf(address), data, count);
      result := WaitComplete(x);
      if result == 0 {
        result := Check();
        if result == 0 {
          result := count;
        }
      }
    }

    /** Fill the shared buffer: header, payload, and padding up to the full packet. */
    method BuildWrite(page: bv8, offset: bv8, data: array<bv16>, count: nat)
      requires Valid() && count <= data.Length && count <= PKT_MAX_REGS
      modifies buffer
      ensures Mem() == WriteRequest(old(Mem()), page, offset, data[..count])
    {
      buffer[0] := CountByte(count, PKT_CODE_WRITE);
      buffer[2] := page;
      buffer[3] := offset;
      Payload(data, count);
      Pad(count);
      WriteImage(old(Mem()), Mem(), page, offset, data[..count]);
    }

    method Payload(data: array<bv16>, count: nat)
      requires Valid() && count <= data.Length && count <= PKT_MAX_REGS
      modifies buffer
      ensures forall k | 0 <= k < 4 || 4 + 2 * count <= k < PKT_REACH :: buffer[k] == old(buffer[k])
      ensures forall k | 0 <= k < 2 * count :: buffer[4 + k] == WordBytes(data[..count])[k]
    {
      forall i | 0 <= i < 2 * count {
        buffer[4 + i] := if i % 2 == 0 then LowByte(data[i / 2]) else HighByte(data[i / 2]);
      }
    }

    method Pad(count: nat)
      requires Valid() && count <= PKT_MAX_REGS
      modifies buffer
      ensures forall k | 0 <= k < 4 + 2 * count || PKT_STRUCT_SIZE <= k < PKT_REACH :: buffer[k] == old(buffer[k])
      ensures forall k | 2 * count <= k < 2 * PKT_MAX_REGS ::
                buffer[4 + k] == if k % 2 == 0 then LowByte(PADDING) else HighByte(PADDING)
    {
      var i := count;
      while i < PKT_MAX_REGS
        invariant count <= i <= PKT_MAX_REGS
        invariant forall k | 0 <= k < 4 + 2 * count || PKT_STRUCT_SIZE <= k < PKT_REACH :: buffer[k] == old(buffer[k])
        invariant forall k | 2 * count <= k < 2 * i ::
                    buffer[4 + k] == if k % 2 == 0 then LowByte(PADDING) else HighByte(PADDING)
      {
        buffer[4 + 2 * i] := LowByte(PADDING);
        buffer[5 + 2 * i] := HighByte(PADDING);
        i := i + 1;
      }
    }

    /** The tests both directions share: CRC first, then the error code. */
    method Check() returns (result: int)
      requires Valid()
      modifies buffer
      ensures Mem() == old(Mem())[1 := 0]
      ensures result == if !CrcOk(old(Mem())) then -EIO else if Code(old(Mem())) == PKT_CODE_ERROR then -EINVAL else 0
    {
      var crc := buffer[1];
      buffer[1] := 0;
      assert Mem() == old(Mem())[1 := 0];
      var c := CrcPacket();
      if crc != c {
        result := -EIO;
      } else if buffer[0] & PKT_CODE_MASK == PKT_CODE_ERROR {
        result := -EINVAL;
      } else {
        result := 0;
      }
    }

    method Read(address: bv16, data: array<bv16>, count: nat, x: Exchange) returns (result: int)
      requires Valid() && x.Valid() && count <= data.Length
      modifies this, buffer, data
      ensures Valid()
      ensures count > PKT_MAX_REGS ==> result == -EINVAL && sent == old(sent) && Mem() == old(Mem())
      ensures count <= PKT_MAX_REGS ==>
                var m := ReadRequest(old(Mem()), PageOf(address), OffsetOf(address), count);
                && sent == old(sent) + [Seal(m)] && Mem() == Checked(m, x) && result == ReadOutcome(m, count, x)
                && (result >= 0 ==> data[..] == Words(Exchanged(m, x), count) + old(data[count..]))
      ensures result < 0 ==> data[..] == old(data[..])
    {
      if count > PKT_MAX_REGS {
        return -EINVAL;
      }
      BuildRead(PageOf(address), OffsetOf(address), count);
      result := WaitComplete(x);
      if result == 0 {
        result := Check();
        if result == 0 {
          if CountOf(buffer[0]) != count {
            result := -EIO;
          } else {
            CopyOut(data, count);
            result := count;
          }
        }
      }
    }

    method BuildRead(page: bv8, offset: bv8, count: nat)
      requires Valid() && count <= PKT_MAX_REGS
      modifies buffer
      ensures Mem() == ReadRequest(old(Mem()), page, offset, count)
    {
      buffer[0] := CountByte(count, PKT_CODE_READ);
      buffer[2] := page;
      buffer[3] := offset;
    }

    method CopyOut(data: array<bv16>, count: nat)
      requires Valid() && count <= data.Length && count <= PKT_MAX_REGS
      modifies data
      ensures data[..] == Words(Mem(), count) + old(data[count..])
      ensures Mem() == old(Mem())
    {
      forall i | 0 <= i < count {
        data[i] := WordOf(buffer[4 + 2 * i], buffer[5 + 2 * i]);
      }
    }
  }
}
