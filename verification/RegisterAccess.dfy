/** Register access over the transport: what the driver sets is what it gets back, from any peer
    that answers honestly. */
module RegisterAccess {
  import opened Errno
  import opened Packet
  import opened Peer
  import PinWords
  import opened SpiBus

  // ---------------------------------------------------------------- the accessors

  method RegisterSet(bus: Bus, page: bv8, offset: bv8, values: array<bv16>, num: nat, x: Exchange) returns (ret: int)
    requires bus.Valid() && x.Valid() && num <= values.Length
    modifies bus, bus.buffer
    ensures bus.Valid()
    ensures num > PKT_MAX_REGS ==> ret == -EINVAL && bus.sent == old(bus.sent)
    ensures num <= PKT_MAX_REGS ==>
              var m := WriteRequest(old(bus.Mem()), page, offset, values[..num]);
              bus.sent == old(bus.sent) + [Seal(m)] && bus.Mem() == Checked(m, x) && ret == WriteOutcome(m, num, x)
  {
    AddressRoundTrip(page, offset);
    ret := bus.Write(Address(page, offset), values, num, x);
  }

  method RegisterGet(bus: Bus, page: bv8, offset: bv8, values: array<bv16>, num: nat, x: Exchange) returns (ret: int)
    requires bus.Valid() && x.Valid() && num <= values.Length
    modifies bus, bus.buffer, values
    ensures bus.Valid()
    ensures num > PKT_MAX_REGS ==> ret == -EINVAL && bus.sent == old(bus.sent)
    ensures num <= PKT_MAX_REGS ==>
              var m := ReadRequest(old(bus.Mem()), page, offset, num);
              && bus.sent == old(bus.sent) + [Seal(m)] && bus.Mem() == Checked(m, x) && ret == ReadOutcome(m, num, x)
              && (ret >= 0 ==> values[..] == Words(Exchanged(m, x), num) + old(values[num..]))
    ensures ret < 0 ==> values[..] == old(values[..])
  {
    AddressRoundTrip(page, offset);
    ret := bus.Read(Address(page, offset), values, num, x);
  }

  method RegisterSetByte(bus: Bus, page: bv8, offset: bv8, value: bv16, x: Exchange) returns (ret: int)
    requires bus.Valid() && x.Valid()
    modifies bus, bus.buffer
    ensures bus.Valid()
    ensures var m := WriteRequest(old(bus.Mem()), page, offset, [value]);
            bus.sent == old(bus.sent) + [Seal(m)] && bus.Mem() == Checked(m, x) && ret == WriteOutcome(m, 1, x)
  {
    var values := new bv16[1];
    values[0] := value;
    assert values[..1] == [value];
    ret := RegisterSet(bus, page, offset, values, 1, x);
  }

  function Modified(old': bv16, clear: bv16, set': bv16): bv16 {
    (old' & !clear) | set'
  }

  lemma ModifiedUnder(old': bv16, clear: bv16, set': bv16, b: bv16, m: bv16)
    requires m == Modified(old', clear, set')
    ensures m & b == ((old' & b) & !(clear & b)) | (set' & b)
  {
  }

  lemma OneBit(m: bv16, o: bv16, c: bv16, s: bv16, b: bv16)
    requires b != 0 && m == (o & !c) | s
    requires (o == 0 || o == b) && (c == 0 || c == b) && (s == 0 || s == b)
    ensures m != 0 <==> s != 0 || (o != 0 && c == 0)
  {
  }

  /** Bit by bit: set if asked to be set, or set before and not asked to be cleared. A bit in both masks
      ends up set. */
  lemma ModifiedBits(old': bv16, clear: bv16, set': bv16, k: PinWords.Pin)
    ensures PinWords.Bit(Modified(old', clear, set'), k) <==>
            PinWords.Bit(set', k) || (PinWords.Bit(old', k) && !PinWords.Bit(clear, k))
  {
    PinWords.OneMeets(k, k);
    PinWords.Single(old', k);
    PinWords.Single(clear, k);
    PinWords.Single(set', k);
    ModifiedUnder(old', clear, set', PinWords.One(k), Modified(old', clear, set'));
    OneBit(Modified(old', clear, set') & PinWords.One(k), old' & PinWords.One(k), clear & PinWords.One(k),
           set' & PinWords.One(k), PinWords.One(k));
  }

  /** Read-modify-write: `x1` is the read's exchange, `x2` the write's. No write leaves when the read fails. */
  method RegisterModify(bus: Bus, page: bv8, offset: bv8, clear: bv16, set': bv16, x1: Exchange, x2: Exchange)
    returns (ret: int)
    requires bus.Valid() && x1.Valid() && x2.Valid()
    modifies bus, bus.buffer
    ensures bus.Valid()
    ensures var m1 := ReadRequest(old(bus.Mem()), page, offset, 1);
            if ReadOutcome(m1, 1, x1) < 0 then
              ret == ReadOutcome(m1, 1, x1) && bus.sent == old(bus.sent) + [Seal(m1)]
            else
              var m2 := WriteRequest(Checked(m1, x1), page, offset,
                                     [Modified(Words(Exchanged(m1, x1), 1)[0], clear, set')]);
              ret == WriteOutcome(m2, 1, x2) && bus.sent == old(bus.sent) + [Seal(m1), Seal(m2)]
  {
    var values := new bv16[1];
    ret := RegisterGet(bus, page, offset, values, 1, x1);
    if ret < 0 {
      return;
    }
    ghost var m1 := ReadRequest(old(bus.Mem()), page, offset, 1);
    FirstWord(values[..], Words(Exchanged(m1, x1), 1));
    var value := values[0];
    value := value & !clear;
    value := value | set';
    assert value == Modified(Words(Exchanged(m1, x1), 1)[0], clear, set');
    ret := RegisterSetByte(bus, page, offset, value, x2);
    TwoSent(old(bus.sent), Seal(m1), Seal(WriteRequest(Checked(m1, x1), page, offset, [value])));
  }

  lemma TwoSent(sent: seq<Memory>, a: Memory, b: Memory)
    ensures sent + [a] + [b] == sent + [a, b]
  {
  }

  lemma FirstWord(values: seq<bv16>, ws: seq<bv16>)
    requires |values| == |ws| == 1 && exists tail :: values == ws + tail
    ensures values[0] == ws[0]
  {
  }

  // ---------------------------------------------------------------- round trips

  /** The exchange delivered the reply `a`. */
  predicate Delivers(x: Exchange, m: Memory, a: Memory) {
    x.Valid() && x.Reply? && Exchanged(m, x) == a
  }

  /** A successful write of `ws` and its effect on the peer. */
  lemma WriteReachesPeer(f: RegFile, m: Memory, page: bv8, offset: bv8, ws: seq<bv16>, x: Exchange, a: Memory)
    requires |ws| <= PKT_MAX_REGS
    requires var r := WriteRequest(m, page, offset, ws); HonestReply(f, Seal(r), a) && Delivers(x, r, a)
    ensures var r := WriteRequest(m, page, offset, ws);
            WriteOutcome(r, |ws|, x) == |ws| && PeerApply(f, Seal(r)) == Put(f, page, offset as nat, ws)
  {
    var r := WriteRequest(m, page, offset, ws);
    WriteRequestCarries(m, page, offset, ws);
    SealIsValid(r);
    assert Words(Seal(r), |ws|) == Words(r, |ws|);
  }

  lemma ReadReturnsRegisters(f: RegFile, m: Memory, page: bv8, offset: bv8, n: nat, x: Exchange, a: Memory)
    requires n <= PKT_MAX_REGS
    requires var r := ReadRequest(m, page, offset, n); HonestReply(f, Seal(r), a) && Delivers(x, r, a)
    ensures var r := ReadRequest(m, page, offset, n);
            && ReadOutcome(r, n, x) == n && PeerApply(f, Seal(r)) == f
            && Words(Exchanged(r, x), n) == Fetch(f, page, offset as nat, n)
  {
    ReadRequestCarries(m, page, offset, n);
    SealIsValid(ReadRequest(m, page, offset, n));
  }

  lemma FetchPut(f: RegFile, page: bv8, offset: nat, ws: seq<bv16>)
    ensures Fetch(Put(f, page, offset, ws), page, offset, |ws|) == ws
  {
  }

  /** Set then get: through encoding, CRC, any honest peer and decoding, on every page, offset and
      count up to 32, and whatever the shared buffer held before either call. Every other register
      keeps its value. */
  lemma SetThenGet(f: RegFile, m1: Memory, m2: Memory, page: bv8, offset: bv8, ws: seq<bv16>,
                   r1: Memory, x1: Exchange, a1: Memory, f1: RegFile, r2: Memory, x2: Exchange, a2: Memory)
    requires |ws| <= PKT_MAX_REGS
    requires r1 == WriteRequest(m1, page, offset, ws) && HonestReply(f, Seal(r1), a1) && Delivers(x1, r1, a1)
    requires f1 == PeerApply(f, Seal(r1))
    requires r2 == ReadRequest(m2, page, offset, |ws|) && HonestReply(f1, Seal(r2), a2) && Delivers(x2, r2, a2)
    ensures WriteOutcome(r1, |ws|, x1) == |ws| == ReadOutcome(r2, |ws|, x2)
    ensures Words(Exchanged(r2, x2), |ws|) == ws
    ensures PeerApply(f1, Seal(r2)) == f1
    ensures forall p: bv8, o: nat | p != page || o < offset as nat || offset as nat + |ws| <= o :: f1(p, o) == f(p, o)
  {
    WriteReachesPeer(f, m1, page, offset, ws, x1, a1);
    ReadReturnsRegisters(f1, m2, page, offset, |ws|, x2, a2);
    FetchPut(f, page, offset as nat, ws);
  }

  /** register_modify on an honest peer: exactly one register changes, bit by bit as asked. */
  lemma ModifyRefines(f: RegFile, m: Memory, page: bv8, offset: bv8, clear: bv16, set': bv16,
                      r1: Memory, x1: Exchange, a1: Memory, r2: Memory, x2: Exchange, a2: Memory, f2: RegFile)
    requires r1 == ReadRequest(m, page, offset, 1) && HonestReply(f, Seal(r1), a1) && Delivers(x1, r1, a1)
    requires r2 == WriteRequest(Checked(r1, x1), page, offset, [Modified(Words(a1, 1)[0], clear, set')])
    requires HonestReply(f, Seal(r2), a2) && Delivers(x2, r2, a2)
    requires f2 == PeerApply(PeerApply(f, Seal(r1)), Seal(r2))
    ensures ReadOutcome(r1, 1, x1) == 1 == WriteOutcome(r2, 1, x2)
    ensures f2(page, offset as nat) == Modified(f(page, offset as nat), clear, set')
    ensures forall p: bv8, o: nat | p != page || o != offset as nat :: f2(p, o) == f(p, o)
  {
    ReadReturnsRegisters(f, m, page, offset, 1, x1, a1);
    assert Words(a1, 1)[0] == Fetch(f, page, offset as nat, 1)[0];
    WriteReachesPeer(f, Checked(r1, x1), page, offset, [Modified(Words(a1, 1)[0], clear, set')], x2, a2);
  }
}
