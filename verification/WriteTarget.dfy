/** The target's half of a write as code that changes state: `scsi_command_t` with
    `prepare_write`, the write-data case of `execute_t`, and `target_transfer_data`. */
module WriteTarget {
  import opened Sequences
  import opened WriteSpec
  import opened WriteExchange

  class TargetCommand {
    const p: SessionParams
    const blocks: array<int>
    var bytes: nat
    var r2tFlag: bool
    var asked: seq<R2t>

    constructor (p: SessionParams, blocks: array<int>)
      ensures this.p == p && this.blocks == blocks && bytes == 0 && !r2tFlag && asked == []
    {
      this.p, this.blocks := p, blocks;
      bytes, r2tFlag, asked := 0, false, [];
    }

    ghost function State(): Target
      reads this, blocks
    {
      Target(blocks[..], bytes, r2tFlag, asked)
    }

    /** memcpy into the blocks. */
    method Store(offset: nat, data: seq<int>)
      requires offset + |data| <= blocks.Length
      modifies blocks
      ensures blocks[..] == Splice(old(blocks[..]), offset, data)
    {
      forall i | 0 <= i < |data| {
        blocks[offset + i] := data[i];
      }
    }

    /** A command PDU arrives with its immediate data, of which its header announces
        `announced` bytes.  When the data goes beyond a buffer the source overwrites what
        follows; the model stops there. */
    method Receive(announced: nat, data: seq<int>) returns (outcome: Accepted)
      requires p.maxBurst > 0 && announced == |data| % SEGMENT
      requires bytes == 0 && !r2tFlag && asked == []
      modifies this, blocks
      ensures outcome == Accept(p, old(blocks[..]), data)
      ensures if outcome.Started? then State() == outcome.target else State() == old(State())
    {
      if |data| >= SEGMENT {
        return Garbled;
      }
      if p.firstBurst != 0 && announced > p.firstBurst {
        return Refused;
      }
      if p.maxSeg != 0 && announced > p.maxSeg {
        return Refused;
      }
      if !p.immediateData && announced != 0 {
        return Refused;
      }
      if announced > IMMEDIATE || announced > blocks.Length {
        return Overrun;
      }
      Store(0, data);
      bytes := announced;
      if blocks.Length - bytes != 0 {
        TransferData();
        assert [] + AskFor(p.maxBurst, bytes, blocks.Length - bytes)
               == AskFor(p.maxBurst, bytes, blocks.Length - bytes);
      }
      outcome := Started(Target(blocks[..], bytes, r2tFlag, asked));
    }

    /** `target_transfer_data`: ask for everything that is left when the initiator may
        not send it on its own. */
    method TransferData()
      requires p.maxBurst > 0 && bytes < blocks.Length
      modifies this`r2tFlag, this`asked
      ensures AsksAtOnce(p, bytes) ==>
                r2tFlag && asked == old(asked) + AskFor(p.maxBurst, bytes, blocks.Length - bytes)
      ensures !AsksAtOnce(p, bytes) ==> r2tFlag == old(r2tFlag) && asked == old(asked)
    {
      if p.initialR2T || (p.firstBurst != 0 && bytes >= p.firstBurst) {
        ghost var goal := asked + AskFor(p.maxBurst, bytes, blocks.Length - bytes);
        var transferred: nat, remaining: nat := 0, blocks.Length - bytes;
        while remaining != 0
          invariant transferred + remaining == blocks.Length - bytes
          invariant asked + AskFor(p.maxBurst, bytes + transferred, remaining) == goal
          invariant transferred > 0 ==> r2tFlag
        {
          var n := remaining;
          if n > p.maxBurst {
            n := p.maxBurst;
          }
          assert AskFor(p.maxBurst, bytes + transferred, remaining)
                 == [R2t(TARGET_TRANSFER_TAG, bytes + transferred, n)]
                    + AskFor(p.maxBurst, bytes + transferred + n, remaining - n);
          asked := asked + [R2t(TARGET_TRANSFER_TAG, bytes + transferred, n)];
          r2tFlag := true;
          transferred := transferred + n;
          remaining := remaining - n;
        }
        assert AskFor(p.maxBurst, bytes + transferred, 0) == [];
      }
    }

    /** A Data-Out PDU arrives. */
    method ReceiveData(d: Pdu) returns (ok: bool)
      requires d.DataOut? && d.data != []
      modifies this, blocks
      ensures Place(p, old(State()), d) == if ok then Some(State()) else None
      ensures !ok ==> State() == old(State())
    {
      if |d.data| >= SEGMENT {
        return false;
      }
      if p.maxSeg != 0 && |d.data| > p.maxSeg {
        return false;
      }
      if bytes + |d.data| > blocks.Length {
        return false;
      }
      if blocks.Length - (bytes + |d.data|) == 0 && !d.final {
        return false;
      }
      if d.offset + |d.data| > blocks.Length {
        return false;
      }
      Store(d.offset, d.data);
      bytes := bytes + |d.data|;
      if blocks.Length - bytes != 0 {
        if !r2tFlag && !p.initialR2T && p.firstBurst != 0 && bytes >= p.firstBurst {
          asked := asked + [R2t(TARGET_TRANSFER_TAG, bytes, blocks.Length - bytes)];
          r2tFlag := true;
        }
      }
      ok := true;
    }
  }
}
