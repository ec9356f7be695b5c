/** What a successful register call tells about the peer. The driver tests a reply for the error code
    only, so the answer to a request that arrived damaged counts as a success too. */
module ReportedSuccess {
  import opened Packet
  import opened Peer
  import opened SpiBus
  import opened RegisterAccess

  /** A request `d` that arrived damaged is not applied. The peer says so with code 0x40, the driver
      tests for 0x80: the answer makes a write look done, and with the right count a read as well, whose
      caller then gets any words the answer happens to hold. */
  lemma CorruptReplyCountsAsSuccess(f: RegFile, r: Memory, d: Memory, ws: seq<bv16>) returns (x: Exchange)
    requires !CrcOk(d) && |ws| <= PKT_MAX_REGS
    ensures x.Valid() && x.Reply? && Reacts(f, d, Rejects, Exchanged(r, x))
    ensures After(f, d, Rejects) == f == PeerApply(f, d)
    ensures WriteOutcome(r, |ws|, x) == |ws| == ReadOutcome(r, |ws|, x)
    ensures Words(Exchanged(r, x), |ws|) == ws
  {
    var w := WriteRequest(r, r[2], r[3], ws);
    WriteRequestCarries(r, r[2], r[3], ws);
    assert CountByte(|ws|, PKT_CODE_WRITE) == CountByte(|ws|, PKT_CODE_CORRUPT);
    CountByteParts(|ws|, PKT_CODE_CORRUPT);
    SealIsValid(w);
    var a := Seal(w);
    assert Words(a, |ws|) == Words(w, |ws|);
    x := Reply(a[..PKT_STRUCT_SIZE]);
    assert Exchanged(r, x) == a;
  }

  // ---------------------------------------------------------------- what the peer carries out

  /** The packet `d` makes the peer carry out this very write. */
  predicate CarriesOut(d: Memory, page: bv8, offset: bv8, ws: seq<bv16>) {
    && CrcOk(d) && Code(d) == PKT_CODE_WRITE && Count(d) == |ws|
    && d[2] == page && d[3] == offset && Words(d, Count(d)) == ws
  }

  lemma SameWord(lo: bv8, hi: bv8, lo': bv8, hi': bv8)
    requires WordOf(lo, hi) == WordOf(lo', hi')
    ensures lo == lo' && hi == hi'
  {
  }

  lemma SameHead(a: bv8, b: bv8)
    requires CountOf(a) == CountOf(b) && a & PKT_CODE_MASK == b & PKT_CODE_MASK
    ensures a == b
  {
    assert a & PKT_COUNT_MASK == b & PKT_COUNT_MASK;
  }

  lemma SamePayload(r: Memory, d: Memory, i: nat)
    requires Count(d) == Count(r) && Words(d, Count(d)) == Words(r, Count(r))
    requires 4 <= i < Size(r)
    ensures d[i] == r[i]
  {
    var k := (i - 4) / 2;
    assert Words(d, Count(d))[k] == Words(r, Count(r))[k];
    SameWord(d[4 + 2 * k], d[5 + 2 * k], r[4 + 2 * k], r[5 + 2 * k]);
  }

  lemma SameCommand(r: Memory, d: Memory, page: bv8, offset: bv8, ws: seq<bv16>)
    requires CarriesOut(r, page, offset, ws) && CarriesOut(d, page, offset, ws)
    ensures Intact(r, d)
  {
    SameHead(d[0], r[0]);
    forall i | 4 <= i < Size(r) ensures d[i] == r[i] { SamePayload(r, d, i); }
    SameCrc(r, d);
  }

  lemma SameCrc(r: Memory, d: Memory)
    requires CrcOk(r) && CrcOk(d) && Size(r) == Size(d)
    requires forall i | 0 <= i < Size(r) && i != 1 :: d[i] == r[i]
    ensures Covered(d) == Covered(r)
  {
    assert Covered(d[1 := 0]) == Covered(r[1 := 0]);
  }

  /** With no assumption on the damage, not even that the CRC shows it: the peer carries out the write
      the driver sent if and only if the request arrived intact. */
  lemma WriteCarriedOutIffIntact(m: Memory, page: bv8, offset: bv8, ws: seq<bv16>, d: Memory)
    requires |ws| <= PKT_MAX_REGS
    ensures CarriesOut(d, page, offset, ws) <==> Intact(Seal(WriteRequest(m, page, offset, ws)), d)
  {
    var r := Seal(WriteRequest(m, page, offset, ws));
    SealedWrite(m, page, offset, ws);
    if Intact(r, d) {
      CoveredParts(r, d);
    } else if CarriesOut(d, page, offset, ws) {
      SameCommand(r, d, page, offset, ws);
    }
  }

  lemma SealedWrite(m: Memory, page: bv8, offset: bv8, ws: seq<bv16>)
    requires |ws| <= PKT_MAX_REGS
    ensures CarriesOut(Seal(WriteRequest(m, page, offset, ws)), page, offset, ws)
  {
    var r := WriteRequest(m, page, offset, ws);
    WriteRequestCarries(m, page, offset, ws);
    SealIsValid(r);
    assert Words(Seal(r), |ws|) == Words(r, |ws|);
  }

  /** The packet `d` asks the peer for these very registers. */
  predicate AsksFor(d: Memory, page: bv8, offset: bv8, n: nat) {
    CrcOk(d) && Code(d) == PKT_CODE_READ && Count(d) == n && d[2] == page && d[3] == offset
  }

  predicate HeadIntact(r: Memory, d: Memory) {
    d[0] == r[0] && d[2] == r[2] && d[3] == r[3]
  }

  /** The registers in a read request mean nothing: what reaches the peer asks for what was sent if and only
      if it passes the CRC with count, code, page and offset intact. */
  lemma ReadAskedIffHeadIntact(m: Memory, page: bv8, offset: bv8, n: nat, d: Memory)
    requires n <= PKT_MAX_REGS
    ensures AsksFor(d, page, offset, n) <==> CrcOk(d) && HeadIntact(ReadRequest(m, page, offset, n), d)
  {
    var r := ReadRequest(m, page, offset, n);
    ReadRequestCarries(m, page, offset, n);
    if AsksFor(d, page, offset, n) { SameHead(d[0], r[0]); }
  }

  // ---------------------------------------------------------------- what the driver reports

  /** A write whose answer arrives unharmed is reported as done unless the peer refused it. A write so
      reported was executed as it was sent if and only if its request arrived intact, whatever the damage;
      if the CRC shows the damage, nothing else was executed either. */
  lemma WriteReport(f: RegFile, m: Memory, page: bv8, offset: bv8, ws: seq<bv16>,
                    r: Memory, d: Memory, v: Verdict, a: Memory, x: Exchange)
    requires |ws| <= PKT_MAX_REGS && r == WriteRequest(m, page, offset, ws)
    requires Reacts(f, d, v, a) && Delivers(x, r, a)
    ensures WriteOutcome(r, |ws|, x) >= 0 <==> !v.Refuses?
    ensures WriteOutcome(r, |ws|, x) >= 0 ==>
              (v.Executes? && CarriesOut(d, page, offset, ws) <==> Intact(Seal(r), d))
    ensures v.Executes? && Intact(Seal(r), d) ==> After(f, d, v) == Put(f, page, offset as nat, ws)
    ensures Arrives(Seal(r), d) && v.Executes? ==> Intact(Seal(r), d)
  {
    SealIsValid(r);
    WriteCarriedOutIffIntact(m, page, offset, ws, d);
    if Arrives(Seal(r), d) { CrcShowsDamage(Seal(r), d); }
  }

  /** The same for a read, which also checks the count. A read reported as done asked the peer for what was
      sent if and only if its request passed the CRC with its header intact, and then brings the registers
      asked for; if the CRC shows the damage, that is if and only if the request arrived intact. */
  lemma ReadReport(f: RegFile, m: Memory, page: bv8, offset: bv8, n: nat,
                   r: Memory, d: Memory, v: Verdict, a: Memory, x: Exchange)
    requires n <= PKT_MAX_REGS && r == ReadRequest(m, page, offset, n)
    requires Reacts(f, d, v, a) && Delivers(x, r, a)
    ensures ReadOutcome(r, n, x) >= 0 <==> !v.Refuses? && Count(a) == n
    ensures ReadOutcome(r, n, x) >= 0 ==>
              (v.Executes? && AsksFor(d, page, offset, n) <==> CrcOk(d) && HeadIntact(r, d))
    ensures v.Executes? && AsksFor(d, page, offset, n) ==>
              && ReadOutcome(r, n, x) == n && After(f, d, v) == f
              && Words(Exchanged(r, x), n) == Fetch(f, page, offset as nat, n)
    ensures Arrives(Seal(r), d) && ReadOutcome(r, n, x) >= 0 ==> (v.Executes? <==> Intact(Seal(r), d))
    ensures Arrives(Seal(r), d) && v.Executes? ==> AsksFor(d, page, offset, n)
  {
    SealIsValid(r);
    ReadAskedIffHeadIntact(m, page, offset, n, d);
    if Arrives(Seal(r), d) {
      CrcShowsDamage(Seal(r), d);
      if v.Executes? { IntactKeepsHead(r, d); }
    }
  }

  lemma IntactKeepsHead(r: Memory, d: Memory)
    requires Intact(Seal(r), d)
    ensures HeadIntact(r, d)
  {
    CoveredParts(Seal(r), d);
    SameHead(d[0], r[0]);
  }
}
