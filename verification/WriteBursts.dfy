/** The discipline of a burst of Data-Out PDUs: numbering, sizes and F bits
    (RFC 3720, sections 10.3.1 and 10.7). */
module WriteBursts {
  import opened WriteSpec

  /** Data-Out PDUs numbered from `sn`, none empty, none larger than a segment. */
  ghost predicate Numbered(p: SessionParams, us: seq<Pdu>, sn: nat, tag: nat) {
    forall i :: 0 <= i < |us| ==>
      && us[i].DataOut?
      && us[i].dataSN == sn + i
      && us[i].transferTag == tag
      && us[i].data != []
      && (p.maxSeg > 0 ==> |us[i].data| <= p.maxSeg)
  }

  /** The F bit marks the last PDU and no other. */
  ghost predicate FinalMarksLast(us: seq<Pdu>) {
    forall i :: 0 <= i < |us| ==> (us[i].final <==> i == |us| - 1)
  }

  lemma {:induction false} UnsolicitedNumbered(p: SessionParams, src: seq<int>, sent: nat, sn: nat)
    ensures Numbered(p, Unsolicited(p, src, sent, sn), sn, NO_TRANSFER_TAG)
    decreases |src| - sent
  {
    if MaySend(p, |src|, sent) {
      var us := Unsolicited(p, src, sent, sn);
      var rest := Unsolicited(p, src, sent + UnsolicitedLength(p, |src|, sent), sn + 1);
      UnsolicitedNumbered(p, src, sent + UnsolicitedLength(p, |src|, sent), sn + 1);
      forall i | 1 <= i < |us| ensures us[i] == rest[i - 1] {}
    }
  }

  /** What the code sets: without a FirstBurstLength every PDU carries the F bit. */
  ghost predicate FinalsAsSet(p: SessionParams, us: seq<Pdu>) {
    if p.firstBurst == 0 then forall i :: 0 <= i < |us| ==> us[i].final
    else FinalMarksLast(us)
  }

  lemma {:induction false} UnsolicitedFinals(p: SessionParams, src: seq<int>, sent: nat, sn: nat)
    ensures FinalsAsSet(p, Unsolicited(p, src, sent, sn))
    decreases |src| - sent
  {
    if MaySend(p, |src|, sent) {
      var us := Unsolicited(p, src, sent, sn);
      var next := sent + UnsolicitedLength(p, |src|, sent);
      var rest := Unsolicited(p, src, next, sn + 1);
      UnsolicitedFinals(p, src, next, sn + 1);
      assert rest == [] <==> !MaySend(p, |src|, next);
      forall i | 1 <= i < |us| ensures us[i] == rest[i - 1] {}
    }
  }

  /** When the F bit of the unsolicited burst means what RFC 3720 says: exactly when
      there is a FirstBurstLength, or the burst is at most one PDU. */
  lemma {:induction false} FinalMarksLastIff(p: SessionParams, src: seq<int>, sent: nat, sn: nat)
    ensures var us := Unsolicited(p, src, sent, sn);
            FinalMarksLast(us) <==> p.firstBurst != 0 || |us| <= 1
  {
    UnsolicitedFinals(p, src, sent, sn);
    var us := Unsolicited(p, src, sent, sn);
    if p.firstBurst == 0 && |us| >= 2 {
      assert us[0].final && 0 != |us| - 1;
    }
  }

  /** The guard of FinalMarksLastIff, on the parameters alone: with no
      FirstBurstLength, the burst is one PDU iff one segment holds the rest. */
  lemma {:induction false} OnePduIff(p: SessionParams, src: seq<int>, sent: nat, sn: nat)
    requires p.firstBurst == 0 && sent < |src|
    ensures |Unsolicited(p, src, sent, sn)| <= 1 <==> p.maxSeg == 0 || |src| - sent <= p.maxSeg
  {
    var next := sent + UnsolicitedLength(p, |src|, sent);
    assert Unsolicited(p, src, next, sn + 1) == [] <==> next == |src|;
  }

  /** The command PDU's F bit is clear exactly when Data-Outs follow, except for two
      families of parameters: an empty write without immediate data, and immediate
      data that stops short of the buffer but reaches FirstBurstLength. */
  lemma {:induction false} CommandFinalIff(p: SessionParams, src: seq<int>)
    ensures (!CommandFinal(p, |src|) <==> |CommandWire(p, src)| > 1)
            <==> p.initialR2T
                 || (if p.immediateData then
                       ImmediateLength(p, |src|) == |src| || p.firstBurst == 0
                       || ImmediateLength(p, |src|) < p.firstBurst
                     else src != [])
  {
    var imm := ImmediateLength(p, |src|);
    assert Unsolicited(p, src, imm, 0) == [] <==> !MaySend(p, |src|, imm);
  }

  /** When R2Ts are not required first, immediate and unsolicited bytes together are
      min(FirstBurstLength, total) exactly when the immediate data is within the first
      burst. */
  lemma {:induction false} UnsolicitedTotal(p: SessionParams, src: seq<int>)
    requires !p.initialR2T && p.firstBurst > 0
    ensures |Payload(CommandWire(p, src))| == Min(p.firstBurst, |src|)
            <==> ImmediateLength(p, |src|) <= p.firstBurst
  {
    CommandChain(p, src);
    ChainPayload(CommandWire(p, src), src, 0, SentByCommand(p, |src|));
  }

  /** The answer to an R2T: numbered from 0 under its transfer tag, F on the last. */
  lemma {:induction false} SolicitedBurst(p: SessionParams, src: seq<int>, r: R2t, sent: nat, sn: nat)
    requires r.offset + r.length <= |src|
    ensures var us := Solicited(p, src, r, sent, sn);
            && Numbered(p, us, sn, r.transferTag)
            && FinalMarksLast(us)
            && (us == [] <==> sent >= r.length)
    decreases r.length - sent
  {
    if sent < r.length {
      var us := Solicited(p, src, r, sent, sn);
      var next := sent + Segment(p, r.length - sent);
      var rest := Solicited(p, src, r, next, sn + 1);
      SolicitedBurst(p, src, r, next, sn + 1);
      assert |us| == 1 + |rest|;
      forall i | 1 <= i < |us| ensures us[i] == rest[i - 1] {}
      assert us[0].final <==> rest == [];
    }
  }
}
