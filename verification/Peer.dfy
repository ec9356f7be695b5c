/** The other end of the wire: a register file, how requests reach it and what it may answer. */
module Peer {
  import opened Packet

  /** 16-bit registers by page and offset; offsets do not wrap. */
  type RegFile = (bv8, nat) -> bv16

  function Put(f: RegFile, page: bv8, offset: nat, ws: seq<bv16>): RegFile {
    (p: bv8, o: nat) => if p == page && offset <= o < offset + |ws| then ws[o - offset] else f(p, o)
  }

  function Fetch(f: RegFile, page: bv8, offset: nat, n: nat): (ws: seq<bv16>)
    ensures |ws| == n
  {
    seq(n, i requires 0 <= i < n => f(page, offset + i))
  }

  /** The register file after the peer took the request `r`; a damaged request changes nothing. */
  function PeerApply(f: RegFile, r: Memory): RegFile {
    if CrcOk(r) && Code(r) == PKT_CODE_WRITE then Put(f, r[2], r[3] as nat, Words(r, Count(r))) else f
  }

  /** A reply `a` that a peer holding `f` may give to `r`: well-formed, successful, and for a read
      it carries the registers asked for. The count of a reply to a write is left open. */
  predicate HonestReply(f: RegFile, r: Memory, a: Memory) {
    && CrcOk(a) && Code(a) == PKT_CODE_SUCCESS && Count(a) <= PKT_MAX_REGS
    && (Code(r) == PKT_CODE_READ ==>
          Count(a) == Count(r) && Words(a, Count(r)) == Fetch(f, r[2], r[3] as nat, Count(r)))
  }

  /** There is an honest answer to every request within the packet size. */
  lemma HonestReplyExists(f: RegFile, r: Memory) returns (a: Memory)
    requires Count(r) <= PKT_MAX_REGS
    ensures HonestReply(f, r, a)
  {
    var ws := Fetch(f, r[2], r[3] as nat, Count(r));
    var w := WriteRequest(r, r[2], r[3], ws);
    WriteRequestCarries(r, r[2], r[3], ws);
    CountByteParts(|ws|, PKT_CODE_SUCCESS);
    var b: Memory := w[0 := CountByte(|ws|, PKT_CODE_SUCCESS)];
    SealIsValid(b);
    a := Seal(b);
    assert Words(a, |ws|) == Words(w, |ws|);
  }

  // ---------------------------------------------------------------- damaged requests

  /** What the peer does with a packet: execute it, refuse it, or reject it for its CRC. */
  datatype Verdict = Executes | Refuses | Rejects

  /** The peer holding `f` may treat the packet `d` as `v` says and answer `a`. */
  predicate Reacts(f: RegFile, d: Memory, v: Verdict, a: Memory) {
    && CrcOk(a) && Count(a) <= PKT_MAX_REGS
    && match v
       case Executes => CrcOk(d) && HonestReply(f, d, a)
       case Refuses => CrcOk(d) && Code(a) == PKT_CODE_ERROR
       case Rejects => !CrcOk(d) && Code(a) == PKT_CODE_CORRUPT
  }

  function After(f: RegFile, d: Memory, v: Verdict): RegFile {
    if v.Executes? then PeerApply(f, d) else f
  }

  /** Every byte under the CRC arrived as it was sent. */
  predicate Intact(r: Memory, d: Memory) {
    Covered(d) == Covered(r)
  }

  /** The packet `d` is what became of `r` on the wire, and its CRC shows any damage. */
  predicate Arrives(r: Memory, d: Memory) {
    Intact(r, d) || !CrcOk(d)
  }

  lemma CoveredParts(r: Memory, d: Memory)
    requires Intact(r, d)
    ensures Count(d) == Count(r) && Code(d) == Code(r) && d[1] == r[1] && d[2] == r[2] && d[3] == r[3]
    ensures Covered(d[1 := 0]) == Covered(r[1 := 0])
    ensures Words(d, Count(d)) == Words(r, Count(r))
  {
    assert Size(d) == Size(r);
    assert forall i | 0 <= i < Size(r) :: Covered(d)[i] == d[i] && Covered(r)[i] == r[i];
    assert forall i | 0 <= i < Size(r) :: d[i] == r[i];
  }

  /** Among the packets a sealed request may become, those that pass the CRC are the intact ones. */
  lemma CrcShowsDamage(r: Memory, d: Memory)
    requires CrcOk(r) && Arrives(r, d)
    ensures CrcOk(d) <==> Intact(r, d)
  {
    if Intact(r, d) { CoveredParts(r, d); }
  }

  /** The peer makes no difference between an intact packet and the one sent. */
  lemma IntactIsSame(f: RegFile, r: Memory, d: Memory, a: Memory)
    requires CrcOk(r) && Intact(r, d)
    ensures PeerApply(f, d) == PeerApply(f, r)
    ensures HonestReply(f, d, a) <==> HonestReply(f, r, a)
  {
    CoveredParts(r, d);
  }
}
