/** How large the pieces of a write are, and which of them the target takes. */
module WriteSizes {
  import opened Sequences
  import opened WriteSpec
  import opened WriteBursts
  import opened WriteExchange

  /** The immediate data: nothing unless it is negotiated, else as much of the buffer as
      one segment holds. */
  lemma {:induction false} ImmediateIs(p: SessionParams, src: seq<int>)
    ensures var data := CommandWire(p, src)[0].data;
            && (!p.immediateData ==> data == [])
            && (p.immediateData && (p.maxSeg == 0 || |src| <= p.maxSeg) ==> data == src)
            && (p.immediateData && 0 < p.maxSeg < |src| ==> data == src[..p.maxSeg])
  {
  }

  /** Every PDU of a burst but the last is as large as a segment may be; without a limit
      there is only one. */
  ghost predicate Filled(p: SessionParams, us: seq<Pdu>) {
    && (p.maxSeg == 0 ==> |us| <= 1)
    && (p.maxSeg > 0 ==> forall i :: 0 <= i < |us| - 1 ==> |us[i].data| == p.maxSeg)
  }

  lemma {:induction false} FilledCons(p: SessionParams, u: Pdu, rest: seq<Pdu>)
    requires Filled(p, rest) && (rest != [] ==> p.maxSeg > 0 && |u.data| == p.maxSeg)
    ensures Filled(p, [u] + rest)
  {
    var us := [u] + rest;
    assert forall i :: 1 <= i < |us| ==> us[i] == rest[i - 1];
  }

  lemma {:induction false} UnsolicitedFilled(p: SessionParams, src: seq<int>, sent: nat, sn: nat)
    ensures Filled(p, Unsolicited(p, src, sent, sn))
    decreases |src| - sent
  {
    if MaySend(p, |src|, sent) {
      var us := Unsolicited(p, src, sent, sn);
      var next := sent + UnsolicitedLength(p, |src|, sent);
      UnsolicitedFilled(p, src, next, sn + 1);
      assert Unsolicited(p, src, next, sn + 1) != [] ==> MaySend(p, |src|, next);
      FilledCons(p, us[0], Unsolicited(p, src, next, sn + 1));
    }
  }

  lemma {:induction false} SolicitedFilled(p: SessionParams, src: seq<int>, r: R2t, sent: nat, sn: nat)
    requires r.offset + r.length <= |src|
    ensures Filled(p, Solicited(p, src, r, sent, sn))
    decreases r.length - sent
  {
    if sent < r.length {
      var us := Solicited(p, src, r, sent, sn);
      var next := sent + Segment(p, r.length - sent);
      SolicitedFilled(p, src, r, next, sn + 1);
      FilledCons(p, us[0], Solicited(p, src, r, next, sn + 1));
    }
  }

  /** Every R2T but the last asks for as much as MaxBurstLength allows, under the one tag
      the target uses. */
  lemma {:induction false} AskForFilled(maxBurst: nat, offset: nat, remaining: nat)
    requires maxBurst > 0
    ensures var rs := AskFor(maxBurst, offset, remaining);
            && (rs == [] <==> remaining == 0)
            && (forall i :: 0 <= i < |rs| ==> rs[i].transferTag == 0x1234 && rs[i].offset == offset + i * maxBurst)
            && (forall i :: 0 <= i < |rs| - 1 ==> rs[i].length == maxBurst)
            && (rs != [] ==> 0 < rs[|rs| - 1].length <= maxBurst)
    decreases remaining
  {
    if remaining > 0 {
      var n := Min(remaining, maxBurst);
      var rs, rest := AskFor(maxBurst, offset, remaining), AskFor(maxBurst, offset + n, remaining - n);
      AskForFilled(maxBurst, offset + n, remaining - n);
      assert rs == [rs[0]] + rest;
      forall i | 0 < i < |rs| ensures rs[i].transferTag == 0x1234 && rs[i].offset == offset + i * maxBurst {
        assert rs[i] == rest[i - 1];
        assert i * maxBurst == maxBurst + (i - 1) * maxBurst;
      }
    }
  }

  /** What becomes of a command, whatever data comes with it.  Once it is started its data
      is at the start of the blocks, and the rest is asked for if R2Ts are required or the
      first burst is in. */
  lemma {:induction false} AcceptIs(p: SessionParams, buffer: seq<int>, data: seq<int>)
    requires p.maxBurst > 0
    ensures var a := Accept(p, buffer, data);
            && (a.Garbled? <==> |data| >= 16777216)
            && (a.Refused? <==> |data| < 16777216
                                && ((p.firstBurst > 0 && |data| > p.firstBurst)
                                    || (p.maxSeg > 0 && |data| > p.maxSeg)
                                    || (!p.immediateData && |data| > 0)))
            && (a.Overrun? ==> |data| > 65536 || |data| > |buffer|)
            && (a.Started? ==>
                  && |data| <= 65536 && |data| <= |buffer|
                  && a.target.buffer == data + buffer[|data|..] && a.target.bytes == |data|
                  && (a.target.r2tSent <==> |data| < |buffer|
                                            && (p.initialR2T || 0 < p.firstBurst <= |data|))
                  && a.target.asked
                     == if a.target.r2tSent then AskFor(p.maxBurst, |data|, |buffer| - |data|) else [])
  {
  }

  /** The target takes a Data-Out exactly when it is no larger than a segment, stays within
      the blocks and within the count of what is missing, and has the F bit if it
      completes them; then its data is in place and counted.  The first burst being in,
      it asks for all the rest, once. */
  lemma {:induction false} PlaceIff(p: SessionParams, t: Target, d: Pdu)
    requires d.DataOut? && d.data != []
    ensures Place(p, t, d).Some?
            <==> && |d.data| < 16777216 && (p.maxSeg > 0 ==> |d.data| <= p.maxSeg)
                 && d.offset + |d.data| <= |t.buffer| && t.bytes + |d.data| <= |t.buffer|
                 && (t.bytes + |d.data| == |t.buffer| ==> d.final)
    ensures Place(p, t, d).Some? ==>
              var t' := Place(p, t, d).value;
              var left := |t.buffer| - t.bytes - |d.data|;
              var asks := left > 0 && !t.r2tSent && !p.initialR2T && 0 < p.firstBurst <= t.bytes + |d.data|;
              && t'.buffer == t.buffer[..d.offset] + d.data + t.buffer[d.offset + |d.data|..]
              && t'.bytes == t.bytes + |d.data|
              && t'.r2tSent == (t.r2tSent || asks)
              && t'.asked == t.asked + (if asks then [R2t(0x1234, t.bytes + |d.data|, left)] else [])
  {
  }
}
