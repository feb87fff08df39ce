/** The initiator's half of a write (initiator.c): the methods that change the command
    and put PDUs on the wire, proved against WriteSpec and R2tSlot. */
module WriteInitiator {
  import opened Sequences
  import opened Iov
  import Socket
  import opened WriteSpec
  import WriteExchange
  import R2tSlot

  /** One SCSI command in flight: the fields of ISCSI_SCSI_CMD_T and INITIATOR_CMD_T that
      its transfer uses, and what has been written to the socket for it. */
  class WriteCommand {
    const p: SessionParams
    const mem: Memory
    const sg: array<IoVec>
    const todev: bool
    const transLen: nat
    var length: nat
    var bytesToDev: nat
    var slot: R2t
    var r2tRequest: nat
    var wire: seq<Pdu>

    ghost predicate Valid()
      reads sg
    {
      Total(sg[..]) == transLen
    }

    /** The bytes the command is to transfer. */
    ghost function Source(): (src: seq<int>)
      requires Valid()
      reads sg
      ensures |src| == transLen
    {
      Gather(mem, Flat(sg[..]))
    }

    constructor (p: SessionParams, mem: Memory, sg: array<IoVec>, todev: bool, transLen: nat)
      requires Total(sg[..]) == transLen
      ensures Valid() && fresh(this)
      ensures this.p == p && this.mem == mem && this.sg == sg && this.todev == todev && this.transLen == transLen
      ensures length == bytesToDev == r2tRequest == 0 && wire == []
    {
      this.p, this.mem, this.sg, this.todev, this.transLen := p, mem, sg, todev, transLen;
      length, bytesToDev, r2tRequest := 0, 0, 0;
      slot := R2t(0, 0, 0);
      wire := [];
    }

    /** Copy the scatter list and narrow the copy (memcpy, then `modify_iov`). */
    method Narrowed(offset: nat, count: nat) returns (ok: bool, part: seq<IoVec>)
      requires Valid()
      ensures ok <==> offset < transLen && offset + count <= transLen
      ensures ok ==> Gather(mem, Flat(part)) == Source()[offset..offset + count]
    {
      var copy := new IoVec[sg.Length](i requires 0 <= i < sg.Length reads sg => sg[i]);
      assert copy[..] == sg[..];
      assert copy[0..sg.Length] == copy[..];
      var start, n;
      ok, start, n := ModifyIov(copy, 0, sg.Length, offset, count);
      part := if ok then copy[start..start + n] else [];
    }

    /** Hand a list to the socket, on a connection that stays up: the message goes out
        exactly when the list is exactly as long, and then it is what the list describes,
        in however many writes. */
    method SocketSend(part: seq<IoVec>, count: nat) returns (ok: bool, data: seq<int>)
      ensures ok <==> Total(part) == count
      ensures ok ==> data == Gather(mem, Flat(part))
    {
      var iov := new IoVec[|part|](i requires 0 <= i < |part| => part[i]);
      assert iov[..] == part;
      var sent, at, n;
      sent, data, at, n := Socket.Send(mem, iov, count, true);
      ok := sent == count;
      if ok {
        assert |Gather(mem, Flat(part))| == count;
      }
    }

    /** `scsi_command_i`: the command PDU with its immediate data, then the unsolicited
        Data-Out PDUs. */
    method SendCommand() returns (ok: bool)
      requires Valid()
      modifies this
      ensures Valid()
      ensures ok <==> old(bytesToDev) == 0 && p.maxBurst > 0 && old(length) <= transLen
      ensures ok && todev ==> wire == old(wire) + CommandWire(p, Source())
                              && bytesToDev == SentByCommand(p, transLen)
      ensures ok && !todev ==> wire == old(wire) + [Command(p.initialR2T, [])] && bytesToDev == 0
      ensures !ok ==> wire == old(wire) && bytesToDev == old(bytesToDev)
      ensures slot == old(slot) && r2tRequest == old(r2tRequest)
    {
      if bytesToDev != 0 || p.maxBurst == 0 || length > transLen {
        return false;
      }
      SendCommandPdu();
      if todev && !p.initialR2T && bytesToDev != transLen
         && (p.firstBurst == 0 || bytesToDev < p.firstBurst)
      {
        SendUnsolicited();
      }
      ok := true;
    }

    /** The first half of `scsi_command_i`. */
    method SendCommandPdu()
      requires Valid() && bytesToDev == 0
      modifies this
      ensures slot == old(slot) && r2tRequest == old(r2tRequest)
      ensures bytesToDev == if todev then ImmediateLength(p, transLen) else 0
      ensures wire == old(wire) + [if todev then Command(CommandFinal(p, transLen), Source()[..bytesToDev])
                                   else Command(p.initialR2T, [])]
    {
      var final: bool;
      if todev && p.immediateData {
        length := if p.maxSeg != 0 then Min(p.maxSeg, transLen) else transLen;
        if length == transLen {
          final := true;
        } else if p.initialR2T {
          final := true;
        } else {
          final := false;
        }
      } else {
        length := 0;
        final := p.initialR2T;
      }
      var immediate: seq<int> := [];
      if length != 0 && p.immediateData {
        immediate := SendPart(length, 0, true);
        bytesToDev := bytesToDev + length;
      }
      wire := wire + [Command(final, immediate)];
    }

    /** The do-while loop of `scsi_command_i`. */
    method SendUnsolicited()
      requires Valid()
      requires MaySend(p, transLen, bytesToDev)
      modifies this
      ensures length == old(length) && slot == old(slot) && r2tRequest == old(r2tRequest)
      ensures wire == old(wire) + Unsolicited(p, Source(), old(bytesToDev), 0)
      ensures bytesToDev == if p.firstBurst == 0 then transLen else Min(p.firstBurst, transLen)
    {
      hide Unsolicited;
      ghost var src := Source();
      ghost var goal := wire + Unsolicited(p, src, bytesToDev, 0);
      var dataSN := 0;
      var more := true;
      while more
        invariant length == old(length) && slot == old(slot) && r2tRequest == old(r2tRequest)
        invariant bytesToDev <= transLen && more == MaySend(p, transLen, bytesToDev)
        invariant wire + Unsolicited(p, src, bytesToDev, dataSN) == goal
        invariant p.firstBurst == 0 || bytesToDev <= p.firstBurst
        decreases transLen - bytesToDev
      {
        var n := ChunkLength();
        var final := bytesToDev + n == transLen || bytesToDev + n >= p.firstBurst;
        var data := SendPart(n, bytesToDev, n != transLen);
        var pdu := DataOut(final, NO_TRANSFER_TAG, dataSN, bytesToDev, data);
        UnsolicitedStep(p, src, bytesToDev, dataSN, pdu, wire);
        wire := wire + [pdu];
        dataSN := dataSN + 1;
        bytesToDev := bytesToDev + n;
        more := bytesToDev < transLen && (bytesToDev < p.firstBurst || p.firstBurst == 0);
      }
      UnsolicitedEnd(p, src, bytesToDev, dataSN);
    }

    /** The nested choice of `data.length`; it is never 0, so the source's check for an
        empty PDU cannot fire. */
    method ChunkLength() returns (n: nat)
      requires MaySend(p, transLen, bytesToDev)
      ensures n == UnsolicitedLength(p, transLen, bytesToDev)
      ensures 0 < n <= transLen - bytesToDev
    {
      if p.maxSeg != 0 {
        if p.firstBurst != 0 {
          n := Min(Min(p.firstBurst - bytesToDev, p.maxSeg), transLen - bytesToDev);
        } else {
          n := Min(p.maxSeg, transLen - bytesToDev);
        }
      } else {
        if p.firstBurst != 0 {
          n := Min(p.firstBurst - bytesToDev, transLen - bytesToDev);
        } else {
          n := transLen - bytesToDev;
        }
      }
    }

    /** Send `n` bytes from `offset`: a narrowed copy of the scatter list when the data
        is fragmented, else the list itself. */
    method SendPart(n: nat, offset: nat, fragmented: bool) returns (data: seq<int>)
      requires Valid() && 0 < n && offset + n <= transLen
      requires !fragmented ==> n == transLen
      ensures data == Source()[offset..offset + n]
    {
      if fragmented {
        var fits, part := Narrowed(offset, n);
        var sent;
        sent, data := SocketSend(part, n);
        assert |Flat(part)| == |Gather(mem, Flat(part))| == n;
      } else {
        var sent;
        sent, data := SocketSend(sg[..], n);
      }
    }

    /** `scsi_r2t_rx_i`: remember the R2T and queue the command for an answer. */
    method R2tReceived(r: R2t) returns (ok: bool)
      modifies this`slot, this`r2tRequest
      ensures ok <==> R2tSlot.Run(R2tSlot.Slot(old(slot), old(r2tRequest)), [R2tSlot.Received(r)])
                      == R2tSlot.Served(R2tSlot.Slot(slot, r2tRequest), [])
      ensures !ok ==> R2tSlot.Run(R2tSlot.Slot(old(slot), old(r2tRequest)), [R2tSlot.Received(r)]) == R2tSlot.Broken
      ensures r2tRequest == old(r2tRequest) + 1
      ensures ok <==> old(r2tRequest) <= 1
      ensures slot == if ok then r else old(slot)
    {
      r2tRequest := r2tRequest + 1;
      if r2tRequest - 1 > 1 {
        return false;
      }
      slot := r;
      ok := true;
    }

    /** `scsi_r2t_tx_i`, then the `r2t_request--` of the tx worker.  On failure part of
        the answer may already be on the wire. */
    method R2tAnswer() returns (ok: bool)
      requires Valid() && r2tRequest > 0
      modifies this
      ensures slot == old(slot) && length == old(length)
      ensures ok <==> slot.offset + slot.length <= transLen && WriteExchange.CanAnswer(p, transLen, slot)
      ensures ok <==> slot.length > 0 && slot.offset + slot.length <= transLen
                      && !(slot.offset == 0 && slot.length < transLen && (p.maxSeg == 0 || slot.length <= p.maxSeg))
      ensures ok ==> r2tRequest == old(r2tRequest) - 1
                     && wire == old(wire) + Solicited(p, Source(), slot, 0, 0)
                     && bytesToDev == old(bytesToDev) + slot.length
      ensures !ok ==> r2tRequest == old(r2tRequest) && old(wire) <= wire
      ensures !ok && slot.offset + slot.length <= transLen ==> wire == old(wire) && bytesToDev == old(bytesToDev)
    {
      hide Solicited;
      if slot.length == 0 {
        return false;
      }
      ghost var src := Source();
      ghost var inside := slot.offset + slot.length <= transLen;
      ghost var goal := if inside then wire + Solicited(p, src, slot, 0, 0) else [];
      var done, dataSN := 0, 0;
      var more := true;
      while more
        invariant slot == old(slot) && length == old(length) && r2tRequest == old(r2tRequest)
        invariant done <= slot.length && more == (done < slot.length)
        invariant bytesToDev == old(bytesToDev) + done && old(wire) <= wire
        invariant done == 0 ==> wire == old(wire)
        invariant done > 0 ==> slot.offset + done <= transLen
        invariant done > 0 ==> Segment(p, slot.length) < slot.length || slot.offset > 0 || slot.length == transLen
        invariant inside ==> wire + Solicited(p, src, slot, done, dataSN) == goal
        decreases slot.length - done
      {
        var sent, n := AnswerOne(done, dataSN);
        if !sent { return false; }
        done := done + n;
        dataSN := dataSN + 1;
        more := done < slot.length;
      }
      if inside { SolicitedEnd(p, src, slot, done, dataSN); }
      r2tRequest := r2tRequest - 1;
      ok := true;
    }

    /** A whole write, answering R2Ts that cover the rest one after the other: the source
        buffer has gone out in order, and the count of bytes passes the check made when
        the command completes, exactly when each of the R2Ts can be answered. */
    method Write(rs: seq<R2t>) returns (ok: bool)
      requires Valid() && todev && p.maxBurst > 0 && length <= transLen
      requires bytesToDev == 0 && r2tRequest == 0 && wire == []
      requires Covers(rs, SentByCommand(p, transLen), transLen)
      modifies this
      ensures ok <==> forall r :: r in rs ==> WriteExchange.CanAnswer(p, transLen, r)
      ensures ok ==> r2tRequest == 0 && bytesToDev == transLen
      ensures ok ==> Payload(wire) == Source() && Chain(wire, Source(), 0, transLen)
      ensures !ok ==> bytesToDev < transLen
    {
      hide CommandWire, Solicited, Chain, Payload, Gather;
      ghost var src := Source();
      WholeBufferIsSent(p, src, rs);
      CoversBounds(rs, SentByCommand(p, transLen), transLen);
      WriteExchange.AnswersAllIff(p, transLen, rs, SentByCommand(p, transLen));
      ok := SendCommand();
      SolicitedSome(p, src, rs, 0);
      for i := 0 to |rs|
        invariant r2tRequest == 0 && Valid()
        invariant wire == CommandWire(p, src) + SolicitedAll(p, src, rs[..i])
        invariant bytesToDev == SentByCommand(p, transLen) + Lengths(rs[..i])
        invariant i > 0 ==> WriteExchange.CanAnswer(p, transLen, rs[0])
      {
        SolicitedSome(p, src, rs, i);
        assert rs[i] in rs;
        var received := R2tReceived(rs[i]);
        ok := R2tAnswer();
        if !ok {
          return;
        }
      }
      assert rs[..|rs|] == rs;
      ok := true;
    }

    /** One PDU of the answer. */
    method AnswerOne(done: nat, dataSN: nat) returns (sent: bool, n: nat)
      requires Valid() && done < slot.length
      modifies this`wire, this`bytesToDev
      ensures n == Segment(p, slot.length - done)
      ensures sent <==> slot.offset + done + n <= transLen
                        && (n < slot.length || slot.offset != 0 || n == transLen)
      ensures sent ==> bytesToDev == old(bytesToDev) + n && old(wire) <= wire
      ensures sent && slot.offset + slot.length <= transLen ==>
                wire + Solicited(p, Source(), slot, done + n, dataSN + 1)
                == old(wire) + Solicited(p, Source(), slot, done, dataSN)
      ensures !sent ==> wire == old(wire) && bytesToDev == old(bytesToDev)
    {
      hide Flat, Total, Gather;
      n := if p.maxSeg != 0 then Min(p.maxSeg, slot.length - done) else slot.length - done;
      var final := done + n == slot.length;
      var data;
      sent, data := SendAnswerPart(done, n);
      if sent {
        var pdu := DataOut(final, slot.transferTag, dataSN, slot.offset + done, data);
        if slot.offset + slot.length <= transLen {
          SolicitedStep(p, Source(), slot, done, dataSN, pdu, wire);
        }
        wire := wire + [pdu];
        bytesToDev := bytesToDev + n;
      }
    }

    /** The payload of one PDU of the answer: a fragment or a non-zero offset makes a
        narrowed copy of the scatter list, otherwise the whole list is handed over. */
    method SendAnswerPart(done: nat, n: nat) returns (ok: bool, data: seq<int>)
      requires Valid() && 0 < n && done + n <= slot.length
      ensures ok <==> slot.offset + done + n <= transLen
                      && (n < slot.length || slot.offset != 0 || n == transLen)
      ensures ok ==> data == Source()[slot.offset + done..slot.offset + done + n]
    {
      if n < slot.length || slot.offset != 0 {
        var part;
        data := [];
        ok, part := Narrowed(slot.offset + done, n);
        if ok {
          assert |Flat(part)| == |Gather(mem, Flat(part))| == n;
          ok, data := SocketSend(part, n);
        }
      } else {
        ok, data := SocketSend(sg[..], n);
      }
    }
  }

  /** The answers to the R2Ts so far, and to one more. */
  lemma {:induction false} SolicitedSome(p: SessionParams, src: seq<int>, rs: seq<R2t>, i: nat)
    requires i <= |rs| && forall r :: r in rs ==> r.offset + r.length <= |src|
    ensures forall r :: r in rs[..i] ==> r.offset + r.length <= |src|
    ensures i == 0 ==> SolicitedAll(p, src, rs[..i]) == [] && Lengths(rs[..i]) == 0
    ensures i < |rs| ==> forall r :: r in rs[..i + 1] ==> r.offset + r.length <= |src|
    ensures i < |rs| ==>
              rs[i].offset + rs[i].length <= |src|
              && SolicitedAll(p, src, rs[..i + 1]) == SolicitedAll(p, src, rs[..i]) + Solicited(p, src, rs[i], 0, 0)
              && Lengths(rs[..i + 1]) == Lengths(rs[..i]) + rs[i].length
    decreases |rs|
  {
    hide Solicited;
    if i < |rs| {
      assert rs[i] in rs;
      if i == 0 {
        assert rs[..1][1..] == [];
      } else {
        assert forall r :: r in rs[1..] ==> r in rs;
        SolicitedSome(p, src, rs[1..], i - 1);
        assert rs[..i][1..] == rs[1..][..i - 1] && rs[..i + 1][1..] == rs[1..][..i];
        Associates(Solicited(p, src, rs[0], 0, 0), SolicitedAll(p, src, rs[1..][..i - 1]), Solicited(p, src, rs[i], 0, 0));
      }
    }
  }

  lemma {:induction false} UnsolicitedEnd(p: SessionParams, src: seq<int>, sent: nat, sn: nat)
    requires !MaySend(p, |src|, sent)
    ensures Unsolicited(p, src, sent, sn) == []
  {
  }

  lemma {:induction false} SolicitedEnd(p: SessionParams, src: seq<int>, r: R2t, sent: nat, sn: nat)
    requires r.offset + r.length <= |src| && sent >= r.length
    ensures Solicited(p, src, r, sent, sn) == []
  {
  }

  lemma {:induction false} UnsolicitedStep(p: SessionParams, src: seq<int>, sent: nat, sn: nat, u: Pdu, wire: seq<Pdu>)
    requires MaySend(p, |src|, sent)
    requires var next := sent + UnsolicitedLength(p, |src|, sent);
             u == DataOut(UnsolicitedFinal(p, |src|, next), NO_TRANSFER_TAG, sn, sent, src[sent..next])
    ensures wire + Unsolicited(p, src, sent, sn)
            == wire + [u] + Unsolicited(p, src, sent + UnsolicitedLength(p, |src|, sent), sn + 1)
  {
    assert Unsolicited(p, src, sent, sn)
           == [u] + Unsolicited(p, src, sent + UnsolicitedLength(p, |src|, sent), sn + 1);
  }

  lemma {:induction false} SolicitedStep(p: SessionParams, src: seq<int>, r: R2t, sent: nat, sn: nat, u: Pdu, wire: seq<Pdu>)
    requires r.offset + r.length <= |src| && sent < r.length
    requires var next := sent + Segment(p, r.length - sent);
             u == DataOut(next == r.length, r.transferTag, sn, r.offset + sent, src[r.offset + sent..r.offset + next])
    ensures wire + Solicited(p, src, r, sent, sn)
            == wire + [u] + Solicited(p, src, r, sent + Segment(p, r.length - sent), sn + 1)
  {
    assert Solicited(p, src, r, sent, sn)
           == [u] + Solicited(p, src, r, sent + Segment(p, r.length - sent), sn + 1);
  }
}
