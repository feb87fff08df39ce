/** The data PDUs of one SCSI write, as values: what the initiator sends on its own
    (`scsi_command_i`), what it sends when asked (`scsi_r2t_tx_i`), and what the
    target of the same repository does with them (`scsi_command_t`, the write-data
    case of `execute_t`, `target_transfer_data`).

    `src` is the source buffer of the command; |src| is its transfer length.
  */
module WriteSpec {

  /** The negotiated limits; 0 means "no limit" for the three lengths. */
  datatype SessionParams = SessionParams(
    maxBurst: nat, firstBurst: nat, maxSeg: nat, initialR2T: bool, immediateData: bool)

  datatype R2t = R2t(transferTag: nat, offset: nat, length: nat)

  datatype Pdu =
    | Command(final: bool, data: seq<int>)
    | DataOut(final: bool, transferTag: nat, dataSN: nat, offset: nat, data: seq<int>)

  const NO_TRANSFER_TAG := 0xffff_ffff
  const TARGET_TRANSFER_TAG := 0x1234

  function Min(a: nat, b: nat): nat { if a < b then a else b }

  /** `n` bytes, or as many as one data segment may hold. */
  function Segment(p: SessionParams, n: nat): nat {
    if p.maxSeg == 0 then n else Min(p.maxSeg, n)
  }

  // ----- what the initiator sends

  function ImmediateLength(p: SessionParams, total: nat): nat {
    if p.immediateData then Segment(p, total) else 0
  }

  /** The F bit of the command PDU of a write. */
  predicate CommandFinal(p: SessionParams, total: nat) {
    (p.immediateData && ImmediateLength(p, total) == total) || p.initialR2T
  }

  /** More unsolicited data may follow `sent` bytes. */
  predicate MaySend(p: SessionParams, total: nat, sent: nat) {
    sent < total && (p.firstBurst == 0 || sent < p.firstBurst)
  }

  function UnsolicitedLength(p: SessionParams, total: nat, sent: nat): nat
    requires MaySend(p, total, sent)
  {
    Segment(p, if p.firstBurst == 0 then total - sent else Min(p.firstBurst - sent, total - sent))
  }

  predicate UnsolicitedFinal(p: SessionParams, total: nat, sentAfter: nat) {
    sentAfter == total || sentAfter >= p.firstBurst
  }

  /** The unsolicited Data-Out PDUs that follow `sent` bytes. */
  function Unsolicited(p: SessionParams, src: seq<int>, sent: nat, sn: nat): seq<Pdu>
    decreases |src| - sent
  {
    if MaySend(p, |src|, sent) then
      var next := sent + UnsolicitedLength(p, |src|, sent);
      [DataOut(UnsolicitedFinal(p, |src|, next), NO_TRANSFER_TAG, sn, sent, src[sent..next])]
      + Unsolicited(p, src, next, sn + 1)
    else
      []
  }

  /** Everything sent for a write before any R2T is answered. */
  function CommandWire(p: SessionParams, src: seq<int>): seq<Pdu> {
    var imm := ImmediateLength(p, |src|);
    [Command(CommandFinal(p, |src|), src[..imm])]
    + (if p.initialR2T then [] else Unsolicited(p, src, imm, 0))
  }

  /** Bytes sent by then: the immediate data, then up to the first burst. */
  function SentByCommand(p: SessionParams, total: nat): nat {
    var imm := ImmediateLength(p, total);
    if p.initialR2T || !MaySend(p, total, imm) then imm
    else if p.firstBurst == 0 then total
    else Min(p.firstBurst, total)
  }

  /** The solicited Data-Out PDUs for `r`, from `sent` bytes into it. */
  function Solicited(p: SessionParams, src: seq<int>, r: R2t, sent: nat, sn: nat): seq<Pdu>
    requires r.offset + r.length <= |src|
    decreases r.length - sent
  {
    if sent < r.length then
      var next := sent + Segment(p, r.length - sent);
      [DataOut(next == r.length, r.transferTag, sn, r.offset + sent, src[r.offset + sent..r.offset + next])]
      + Solicited(p, src, r, next, sn + 1)
    else
      []
  }

  function SolicitedAll(p: SessionParams, src: seq<int>, rs: seq<R2t>): seq<Pdu>
    requires forall r :: r in rs ==> r.offset + r.length <= |src|
  {
    if rs == [] then [] else Solicited(p, src, rs[0], 0, 0) + SolicitedAll(p, src, rs[1..])
  }

  // ----- chains: PDUs that carry consecutive stretches of the source

  function Offset(u: Pdu): nat { if u.Command? then 0 else u.offset }

  /** The PDUs carry src[from..to], one after the other, without gap or overlap. */
  ghost predicate Chain(us: seq<Pdu>, src: seq<int>, from: nat, to: nat) {
    if us == [] then from == to
    else
      var next := from + |us[0].data|;
      && Offset(us[0]) == from
      && next <= |src|
      && us[0].data == src[from..next]
      && Chain(us[1..], src, next, to)
  }

  lemma {:induction false} ChainBounds(us: seq<Pdu>, src: seq<int>, from: nat, to: nat)
    requires Chain(us, src, from, to) && from <= |src|
    ensures from <= to <= |src|
  {
    if us != [] {
      ChainBounds(us[1..], src, from + |us[0].data|, to);
    }
  }

  lemma {:induction false} ChainAppend(us: seq<Pdu>, ws: seq<Pdu>, src: seq<int>, a: nat, b: nat, c: nat)
    requires Chain(us, src, a, b) && Chain(ws, src, b, c)
    ensures Chain(us + ws, src, a, c)
  {
    if us == [] {
      assert us + ws == ws;
    } else {
      assert (us + ws)[0] == us[0] && (us + ws)[1..] == us[1..] + ws;
      ChainAppend(us[1..], ws, src, a + |us[0].data|, b, c);
    }
  }

  function Payload(us: seq<Pdu>): seq<int> {
    if us == [] then [] else us[0].data + Payload(us[1..])
  }

  /** A chain's payloads, concatenated, are the stretch of the source it spans. */
  lemma {:induction false} ChainPayload(us: seq<Pdu>, src: seq<int>, from: nat, to: nat)
    requires Chain(us, src, from, to) && from <= |src|
    ensures from <= to <= |src| && Payload(us) == src[from..to]
  {
    ChainBounds(us, src, from, to);
    if us != [] {
      var next := from + |us[0].data|;
      ChainPayload(us[1..], src, next, to);
      ChainBounds(us[1..], src, next, to);
      hide Chain;
      SliceSplit(src, from, next, to);
    }
  }

  lemma {:induction false} SliceSplit<T>(s: seq<T>, a: nat, b: nat, c: nat)
    requires a <= b <= c <= |s|
    ensures s[a..c] == s[a..b] + s[b..c]
  {
  }

  lemma {:induction false} UnsolicitedChain(p: SessionParams, src: seq<int>, sent: nat, sn: nat)
    requires sent <= |src|
    ensures var end := if !MaySend(p, |src|, sent) then sent
                       else if p.firstBurst == 0 then |src| else Min(p.firstBurst, |src|);
            Chain(Unsolicited(p, src, sent, sn), src, sent, end)
    decreases |src| - sent
  {
    if MaySend(p, |src|, sent) {
      var next := sent + UnsolicitedLength(p, |src|, sent);
      UnsolicitedChain(p, src, next, sn + 1);
      var us := Unsolicited(p, src, sent, sn);
      assert us[1..] == Unsolicited(p, src, next, sn + 1);
    }
  }

  lemma {:induction false} CommandChain(p: SessionParams, src: seq<int>)
    ensures SentByCommand(p, |src|) <= |src|
    ensures Chain(CommandWire(p, src), src, 0, SentByCommand(p, |src|))
  {
    var imm := ImmediateLength(p, |src|);
    UnsolicitedChain(p, src, imm, 0);
    var us := CommandWire(p, src);
    assert us[1..] == if p.initialR2T then [] else Unsolicited(p, src, imm, 0);
  }

  lemma {:induction false} SolicitedChain(p: SessionParams, src: seq<int>, r: R2t, sent: nat, sn: nat)
    requires r.offset + r.length <= |src| && sent <= r.length
    ensures Chain(Solicited(p, src, r, sent, sn), src, r.offset + sent, r.offset + r.length)
    decreases r.length - sent
  {
    if sent < r.length {
      var next := sent + Segment(p, r.length - sent);
      SolicitedChain(p, src, r, next, sn + 1);
      var us := Solicited(p, src, r, sent, sn);
      assert us[1..] == Solicited(p, src, r, next, sn + 1);
    }
  }

  /** The R2Ts ask for [from, total), in order and without gap or overlap. */
  ghost predicate Covers(rs: seq<R2t>, from: nat, total: nat) {
    if rs == [] then from == total
    else rs[0].offset == from && rs[0].length > 0 && from + rs[0].length <= total
         && Covers(rs[1..], from + rs[0].length, total)
  }

  lemma {:induction false} CoversBounds(rs: seq<R2t>, from: nat, total: nat)
    requires Covers(rs, from, total)
    ensures from <= total
    ensures forall r :: r in rs ==> from <= r.offset && r.length > 0 && r.offset + r.length <= total
  {
    if rs != [] {
      CoversBounds(rs[1..], from + rs[0].length, total);
      assert rs == [rs[0]] + rs[1..];
    }
  }

  function Lengths(rs: seq<R2t>): nat {
    if rs == [] then 0 else rs[0].length + Lengths(rs[1..])
  }

  lemma {:induction false} CoversLengths(rs: seq<R2t>, from: nat, total: nat)
    requires Covers(rs, from, total)
    ensures from + Lengths(rs) == total
  {
    if rs != [] {
      CoversLengths(rs[1..], from + rs[0].length, total);
    }
  }

  lemma {:induction false} SolicitedAllChain(p: SessionParams, src: seq<int>, rs: seq<R2t>, from: nat)
    requires Covers(rs, from, |src|)
    requires forall r :: r in rs ==> r.offset + r.length <= |src|
    ensures Chain(SolicitedAll(p, src, rs), src, from, |src|)
  {
    if rs != [] {
      SolicitedChain(p, src, rs[0], 0, 0);
      SolicitedAllChain(p, src, rs[1..], from + rs[0].length);
      ChainAppend(Solicited(p, src, rs[0], 0, 0), SolicitedAll(p, src, rs[1..]), src,
                  from, from + rs[0].length, |src|);
    }
  }

  /** Whatever the limits and however the rest is split into R2Ts, immediate,
      unsolicited and solicited payloads together are the source buffer, in order, and
      the bytes counted on the way add up to its length. */
  lemma {:induction false} WholeBufferIsSent(p: SessionParams, src: seq<int>, rs: seq<R2t>)
    requires Covers(rs, SentByCommand(p, |src|), |src|)
    ensures forall r :: r in rs ==> r.offset + r.length <= |src|
    ensures var us := CommandWire(p, src) + SolicitedAll(p, src, rs);
            Chain(us, src, 0, |src|) && Payload(us) == src
    ensures SentByCommand(p, |src|) + Lengths(rs) == |src|
  {
    CoversLengths(rs, SentByCommand(p, |src|), |src|);
    var b := SentByCommand(p, |src|);
    CoversBounds(rs, b, |src|);
    CommandChain(p, src);
    SolicitedAllChain(p, src, rs, b);
    ChainAppend(CommandWire(p, src), SolicitedAll(p, src, rs), src, 0, b, |src|);
    ChainPayload(CommandWire(p, src) + SolicitedAll(p, src, rs), src, 0, |src|);
    assert src[0..|src|] == src;
  }
}
