/** The check of the byte counters when a command completes (`iscsi_done_i`,
    initiator.c), and what it can tell about a transfer. */
module Completion {
  import opened Lifecycle
  import WriteSpec
  import R2tSlot
  import WriteSchedule

  /** What the caller asked to have transferred. */
  datatype Wanted = Wanted(toDev: bool, fromDev: bool, transLen: nat, bidiTransLen: nat)

  /** The status a completed command has; a command that only reads is given a warning at
      most. */
  function Checked(c: Cmd, w: Wanted, status: int): int {
    if c.aborted || !c.kind.Scsi? then status
    else if w.toDev && w.fromDev then
      if c.bytesToDev == w.transLen && c.bytesFromDev == w.bidiTransLen then status else -1
    else if w.fromDev then status
    else if w.toDev then if c.bytesToDev == w.transLen then status else -1
    else if c.bytesToDev == 0 && c.bytesFromDev == 0 then status else -1
  }

  /** A SCSI command that was not aborted and comes with status 0 keeps it exactly when
      the counters are what was asked for; a command that only reads keeps any status. */
  lemma {:induction false} CheckedIff(c: Cmd, w: Wanted)
    requires c.kind.Scsi? && !c.aborted
    ensures forall status :: Checked(c, w, status) == status || Checked(c, w, status) == -1
    ensures !w.toDev && !w.fromDev ==> (Checked(c, w, 0) == 0 <==> c.bytesToDev == 0 && c.bytesFromDev == 0)
    ensures w.toDev && w.fromDev ==>
              (Checked(c, w, 0) == 0 <==> c.bytesToDev == w.transLen && c.bytesFromDev == w.bidiTransLen)
    ensures w.toDev && !w.fromDev ==> (Checked(c, w, 0) == 0 <==> c.bytesToDev == w.transLen)
    ensures !w.toDev && w.fromDev ==> forall status :: Checked(c, w, status) == status
  {
  }

  /** Commands of other kinds, and aborted ones, keep their status. */
  lemma {:induction false} NotChecked(c: Cmd, w: Wanted, status: int)
    requires c.aborted || !c.kind.Scsi?
    ensures Checked(c, w, status) == status
  {
  }

  /** The command of a write of `total` bytes that has served these ranges. */
  ghost predicate Wrote(c: Cmd, p: WriteSpec.SessionParams, total: nat, ranges: seq<WriteSpec.R2t>) {
    && c.kind.Scsi? && !c.aborted
    && c.bytesToDev == WriteSpec.SentByCommand(p, total) + WriteSpec.Lengths(ranges)
  }

  /** A write completes with status 0 exactly when the ranges served are together as long
      as the ranges asked for; which ranges they are makes no difference. */
  lemma {:induction false} WriteReportedIff(c: Cmd, p: WriteSpec.SessionParams, total: nat, es: seq<R2tSlot.Event>)
    requires WriteSpec.Covers(R2tSlot.Issued(es), WriteSpec.SentByCommand(p, total), total)
    requires R2tSlot.Run(WriteSchedule.EMPTY, es).Served?
    requires Wrote(c, p, total, R2tSlot.Run(WriteSchedule.EMPTY, es).ranges)
    ensures Checked(c, Wanted(true, false, total, 0), 0) == 0
            <==> WriteSpec.Lengths(R2tSlot.Run(WriteSchedule.EMPTY, es).ranges)
                 == WriteSpec.Lengths(R2tSlot.Issued(es))
  {
    WriteSpec.CoversLengths(R2tSlot.Issued(es), WriteSpec.SentByCommand(p, total), total);
  }

  /** A write whose R2Ts are answered one by one completes with status 0. */
  lemma {:induction false} SerialReported(c: Cmd, p: WriteSpec.SessionParams, total: nat, es: seq<R2tSlot.Event>)
    requires WriteSpec.Covers(R2tSlot.Issued(es), WriteSpec.SentByCommand(p, total), total)
    requires R2tSlot.Serial(es) && R2tSlot.Run(WriteSchedule.EMPTY, es).Served?
    requires Wrote(c, p, total, R2tSlot.Run(WriteSchedule.EMPTY, es).ranges)
    ensures Checked(c, Wanted(true, false, total, 0), 0) == 0
  {
    R2tSlot.SerialServesAll(WriteSchedule.EMPTY, es);
    WriteReportedIff(c, p, total, es);
  }

  /** Of two R2Ts that overlap, only lengths that differ are found out. */
  lemma {:induction false} OverlapReportedIff(c: Cmd, p: WriteSpec.SessionParams, total: nat, r1: WriteSpec.R2t, r2: WriteSpec.R2t)
    requires WriteSpec.Covers([r1, r2], WriteSpec.SentByCommand(p, total), total)
    requires Wrote(c, p, total, [r2, r2])
    ensures var es := [R2tSlot.Received(r1), R2tSlot.Received(r2), R2tSlot.Answered, R2tSlot.Answered];
            && R2tSlot.Run(WriteSchedule.EMPTY, es) == R2tSlot.Served(R2tSlot.Slot(r2, 0), [r2, r2])
            && (Checked(c, Wanted(true, false, total, 0), 0) == 0 <==> r1.length == r2.length)
  {
    R2tSlot.OverlapServesLast(WriteSchedule.EMPTY, r1, r2);
    WriteReportedIff(c, p, total, [R2tSlot.Received(r1), R2tSlot.Received(r2), R2tSlot.Answered, R2tSlot.Answered]);
    WriteSchedule.TwoLengths(r1, r2);
  }

  /** A read completes with status 0 whatever has arrived, even nothing. */
  lemma {:induction false} ShortReadReported(c: Cmd, transLen: nat)
    requires c.kind.Scsi? && c.bytesFromDev < transLen
    ensures Checked(c, Wanted(false, true, transLen, 0), 0) == 0
  {
  }
}
