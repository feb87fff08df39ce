/** The target's half of a write (target.c, disk-alpha.c) and the exchange between the
    two halves. */
module WriteExchange {
  import opened Sequences
  import opened WriteSpec
  import opened ByteOrder
  import PduData
  import PduCommand
  import WriteBursts

  /** A write in progress at the target: the blocks being written, the bytes it has
      counted, whether it has asked for data (`r2t_flag`) and which R2Ts it sent. */
  datatype Target = Target(buffer: seq<int>, bytes: nat, r2tSent: bool, asked: seq<R2t>)

  /** The R2Ts of the loop in `target_transfer_data`: MaxBurstLength at a time. */
  function AskFor(maxBurst: nat, offset: nat, remaining: nat): seq<R2t>
    requires maxBurst > 0
    decreases remaining
  {
    if remaining == 0 then [] else
    var n := Min(remaining, maxBurst);
    [R2t(TARGET_TRANSFER_TAG, offset, n)] + AskFor(maxBurst, offset + n, remaining - n)
  }

  predicate AsksAtOnce(p: SessionParams, bytes: nat) {
    p.initialR2T || (p.firstBurst > 0 && bytes >= p.firstBurst)
  }

  /** CONFIG_TARGET_MAX_IMMEDIATE, the size of the buffer for immediate data. */
  const IMMEDIATE := 65536

  /** The length of a data segment has 24 bits in every header. */
  const SEGMENT := 0x100_0000

  /** What becomes of a command.  `Overrun`: its data goes beyond a buffer.  `Garbled`: its
      header announces less data than follows. */
  datatype Accepted = Refused | Overrun | Garbled | Started(target: Target)

  /** `scsi_command_t`, `prepare_write` and `target_transfer_data`. */
  function Accept(p: SessionParams, buffer: seq<int>, data: seq<int>): Accepted
    requires p.maxBurst > 0
  {
    if |data| >= SEGMENT then Garbled
    else if p.firstBurst > 0 && |data| > p.firstBurst then Refused
    else if p.maxSeg > 0 && |data| > p.maxSeg then Refused
    else if !p.immediateData && data != [] then Refused
    else if |data| > IMMEDIATE || |data| > |buffer| then Overrun
    else
      var placed := Splice(buffer, 0, data);
      if |data| < |buffer| && AsksAtOnce(p, |data|) then
        Started(Target(placed, |data|, true, AskFor(p.maxBurst, |data|, |buffer| - |data|)))
      else
        Started(Target(placed, |data|, false, []))
  }

  /** The header of a command gives its data length exactly when it is below 2^24. */
  lemma {:induction false} CommandLengthTravels(h: seq<byte>, c: PduCommand.ScsiCmd)
    requires PduCommand.ScsiHeader(h, c)
    ensures PduCommand.ScsiDecap(h).Good?
    ensures PduCommand.ScsiDecap(h).value.length == c.length <==> c.length < SEGMENT
  {
    PduCommand.ScsiRoundTripIff(h, c);
  }

  /** The header of a Data-Out is accepted exactly when its data is shorter than 2^24. */
  lemma {:induction false} DataOutLengthTravels(h: seq<byte>, c: PduData.DataOut)
    requires PduData.DataOutHeader(h, c)
    ensures PduData.DataOutDecap(h).Good? <==> c.length < SEGMENT
  {
    PduData.DataOutRoundTripIff(h, c);
  }

  /** The write-data case of `execute_t`, for a PDU that carries data. */
  function Place(p: SessionParams, t: Target, d: Pdu): Option<Target>
    requires d.DataOut? && d.data != []
  {
    var total := |t.buffer|;
    var bytes := t.bytes + |d.data|;
    if |d.data| >= SEGMENT then None
    else if p.maxSeg > 0 && |d.data| > p.maxSeg then None
    else if bytes > total then None
    else if bytes == total && !d.final then None
    else if d.offset + |d.data| > total then None
    else
      var placed := Splice(t.buffer, d.offset, d.data);
      if bytes < total && !t.r2tSent && !p.initialR2T && p.firstBurst > 0 && bytes >= p.firstBurst then
        Some(Target(placed, bytes, true, t.asked + [R2t(TARGET_TRANSFER_TAG, bytes, total - bytes)]))
      else
        Some(Target(placed, bytes, t.r2tSent, t.asked))
  }

  predicate CarryData(us: seq<Pdu>) {
    forall u :: u in us ==> u.DataOut? && u.data != []
  }

  function Feed(p: SessionParams, t: Target, us: seq<Pdu>): Option<Target>
    requires CarryData(us)
    decreases |us|
  {
    if us == [] then Some(t)
    else match Place(p, t, us[0])
      case None => None
      case Some(t') => Feed(p, t', us[1..])
  }

  /** `scsi_r2t_tx_i` hands the whole scatter list to the socket when one PDU answers an
      R2T for offset 0; the socket layer refuses a list that is longer than the PDU. */
  predicate CanAnswer(p: SessionParams, total: nat, r: R2t) {
    r.length > 0 && !(r.offset == 0 && Segment(p, r.length) == r.length && r.length != total)
  }

  /** The initiator answers the R2Ts one after the other. */
  function Answered(p: SessionParams, src: seq<int>, t: Target): Option<seq<int>> {
    if exists r :: r in t.asked && (r.offset + r.length > |src| || !CanAnswer(p, |src|, r)) then None else
    SolicitedCarriesData(p, src, t.asked);
    match Feed(p, t, SolicitedAll(p, src, t.asked))
    case None => None
    case Some(t') => if t'.bytes == |src| then Some(t'.buffer) else None
  }

  /** The target after the command and the unsolicited data. */
  function AfterCommand(p: SessionParams, src: seq<int>, buffer: seq<int>): Option<Target>
    requires |buffer| == |src|
  {
    if p.maxBurst == 0 then None else
    var us := CommandWire(p, src);
    match Accept(p, buffer, us[0].data)
    case Started(t) =>
      CommandCarriesData(p, src);
      Feed(p, t, us[1..])
    case _ => None
  }

  /** One write, each R2T answered before the next is received: the target's blocks
      afterwards, if neither side gives up. */
  function Exchange(p: SessionParams, src: seq<int>, buffer: seq<int>): Option<seq<int>>
    requires |buffer| == |src|
  {
    match AfterCommand(p, src, buffer)
    case None => None
    case Some(t) => Answered(p, src, t)
  }

  /** The longest unsolicited Data-Out is the first. */
  function FirstUnsolicited(p: SessionParams, total: nat): nat {
    var imm := ImmediateLength(p, total);
    if p.initialR2T || !MaySend(p, total, imm) then 0 else UnsolicitedLength(p, total, imm)
  }

  /** The longest R2T is the first: all the rest after an unsolicited burst, otherwise
      at most MaxBurstLength. */
  function FirstR2t(p: SessionParams, total: nat): nat {
    var b := SentByCommand(p, total);
    if b >= total then 0
    else if !p.initialR2T && MaySend(p, total, ImmediateLength(p, total)) then total - b
    else Min(total - b, p.maxBurst)
  }

  /** When the target takes the command and the unsolicited data: the initiator knows a
      MaxBurstLength, and the immediate data fits the first burst and the target's
      buffer; and no Data-Out is longer than its header can say. */
  predicate CommandGuard(p: SessionParams, total: nat) {
    && p.maxBurst > 0
    && (p.firstBurst > 0 ==> ImmediateLength(p, total) <= p.firstBurst)
    && ImmediateLength(p, total) <= IMMEDIATE
    && FirstUnsolicited(p, total) < SEGMENT
  }

  /** When a write goes through: moreover no solicited Data-Out is too long, and the first
      R2T, if it is for offset 0 and less than the whole buffer, takes more than one PDU
      to answer. */
  predicate WriteGuard(p: SessionParams, total: nat) {
    && CommandGuard(p, total)
    && Segment(p, FirstR2t(p, total)) < SEGMENT
    && (p.initialR2T && !p.immediateData && p.maxBurst < total ==> 0 < p.maxSeg < p.maxBurst)
  }

  lemma {:induction false} CommandCarriesData(p: SessionParams, src: seq<int>)
    ensures CarryData(CommandWire(p, src)[1..])
  {
    var imm := ImmediateLength(p, |src|);
    var us := CommandWire(p, src)[1..];
    WriteBursts.UnsolicitedNumbered(p, src, imm, 0);
    assert us == if p.initialR2T then [] else Unsolicited(p, src, imm, 0);
  }

  lemma {:induction false} SolicitedCarriesData(p: SessionParams, src: seq<int>, rs: seq<R2t>)
    requires forall r :: r in rs ==> r.offset + r.length <= |src|
    ensures CarryData(SolicitedAll(p, src, rs))
  {
    if rs != [] {
      WriteBursts.SolicitedBurst(p, src, rs[0], 0, 0);
      SolicitedCarriesData(p, src, rs[1..]);
    }
  }

  /** The target holds src[..bytes]. */
  ghost predicate Holds(t: Target, src: seq<int>) {
    |t.buffer| == |src| && t.bytes <= |src| && t.buffer[..t.bytes] == src[..t.bytes]
  }

  /** Every PDU fits a segment and its header, and one that completes the buffer has the
      F bit. */
  ghost predicate WellFormed(p: SessionParams, us: seq<Pdu>, total: nat) {
    forall u :: u in us ==>
      && u.DataOut? && u.data != []
      && (p.maxSeg > 0 ==> |u.data| <= p.maxSeg) && |u.data| < SEGMENT
      && (u.offset + |u.data| == total ==> u.final)
  }

  /** The target will ask for the rest once the first burst is in. */
  predicate Listening(p: SessionParams, t: Target) {
    !t.r2tSent && !p.initialR2T && p.firstBurst > 0
  }

  lemma {:induction false} PlaceNext(p: SessionParams, t: Target, u: Pdu, src: seq<int>)
    requires Holds(t, src) && u.DataOut? && u.data != []
    requires (p.maxSeg > 0 ==> |u.data| <= p.maxSeg) && |u.data| < SEGMENT
    requires u.offset == t.bytes && t.bytes + |u.data| <= |src|
    requires u.data == src[t.bytes..t.bytes + |u.data|]
    requires t.bytes + |u.data| == |src| ==> u.final
    ensures var o := Place(p, t, u);
            && o.Some? && Holds(o.value, src)
            && o.value.bytes == t.bytes + |u.data|
            && (if Listening(p, t) && p.firstBurst <= o.value.bytes < |src|
                then o.value.r2tSent && o.value.asked == t.asked + [R2t(TARGET_TRANSFER_TAG, o.value.bytes, |src| - o.value.bytes)]
                else o.value.asked == t.asked && o.value.r2tSent == t.r2tSent)
  {
    var next := t.bytes + |u.data|;
    var placed := Splice(t.buffer, t.bytes, u.data);
    assert placed[..next] == t.buffer[..t.bytes] + u.data;
    assert src[..next] == src[..t.bytes] + src[t.bytes..next];
  }

  /** Feeding a chain adds its bytes; a listening target asks for the rest, once, when
      the chain ends with the first burst. */
  lemma {:induction false} FeedChain(p: SessionParams, t: Target, us: seq<Pdu>, src: seq<int>, to: nat)
    requires CarryData(us) && WellFormed(p, us, |src|)
    requires Holds(t, src) && Chain(us, src, t.bytes, to)
    requires Listening(p, t) ==> to <= p.firstBurst
    ensures var o := Feed(p, t, us);
            && o.Some? && Holds(o.value, src) && o.value.bytes == to
            && (if Listening(p, t) && us != [] && to == p.firstBurst && to < |src|
                then o.value.asked == t.asked + [R2t(TARGET_TRANSFER_TAG, to, |src| - to)] && o.value.r2tSent
                else o.value.asked == t.asked && o.value.r2tSent == t.r2tSent)
    decreases us
  {
    if us != [] {
      var next := t.bytes + |us[0].data|;
      assert us[0] in us;
      ChainBounds(us[1..], src, next, to);
      PlaceNext(p, t, us[0], src);
      if us[1..] != [] {
        assert us[1] in us && us[1..][0] == us[1];
        ChainBounds(us[1..][1..], src, next + |us[1].data|, to);
      }
      FeedChain(p, Place(p, t, us[0]).value, us[1..], src, to);
    }
  }

  /** No unsolicited PDU is longer than the first. */
  lemma {:induction false} UnsolicitedSizes(p: SessionParams, src: seq<int>, sent: nat, sn: nat)
    requires MaySend(p, |src|, sent)
    ensures forall u :: u in Unsolicited(p, src, sent, sn) ==> |u.data| <= UnsolicitedLength(p, |src|, sent)
    decreases |src| - sent
  {
    var next := sent + UnsolicitedLength(p, |src|, sent);
    if MaySend(p, |src|, next) {
      UnsolicitedSizes(p, src, next, sn + 1);
    }
  }

  lemma {:induction false} UnsolicitedWellFormed(p: SessionParams, src: seq<int>, sent: nat)
    requires sent <= |src| && (MaySend(p, |src|, sent) ==> UnsolicitedLength(p, |src|, sent) < SEGMENT)
    ensures WellFormed(p, Unsolicited(p, src, sent, 0), |src|)
  {
    WriteBursts.UnsolicitedNumbered(p, src, sent, 0);
    UnsolicitedCompletes(p, src, sent, 0);
    if MaySend(p, |src|, sent) {
      UnsolicitedSizes(p, src, sent, 0);
    }
  }

  lemma {:induction false} UnsolicitedCompletes(p: SessionParams, src: seq<int>, sent: nat, sn: nat)
    ensures forall u :: u in Unsolicited(p, src, sent, sn) ==>
              u.DataOut? && (u.offset + |u.data| == |src| ==> u.final)
    decreases |src| - sent
  {
    if MaySend(p, |src|, sent) {
      UnsolicitedCompletes(p, src, sent + UnsolicitedLength(p, |src|, sent), sn + 1);
    }
  }

  lemma {:induction false} SolicitedCompletes(p: SessionParams, src: seq<int>, r: R2t, sent: nat, sn: nat)
    requires r.offset + r.length <= |src|
    ensures forall u :: u in Solicited(p, src, r, sent, sn) ==>
              u.DataOut? && (u.offset + |u.data| == |src| ==> u.final)
    decreases r.length - sent
  {
    if sent < r.length {
      SolicitedCompletes(p, src, r, sent + Segment(p, r.length - sent), sn + 1);
    }
  }

  lemma {:induction false} SolicitedSizes(p: SessionParams, src: seq<int>, r: R2t, sent: nat, sn: nat)
    requires r.offset + r.length <= |src|
    ensures forall u :: u in Solicited(p, src, r, sent, sn) ==> |u.data| <= Segment(p, r.length)
    decreases r.length - sent
  {
    if sent < r.length {
      SolicitedSizes(p, src, r, sent + Segment(p, r.length - sent), sn + 1);
    }
  }

  lemma {:induction false} SolicitedAllWellFormed(p: SessionParams, src: seq<int>, rs: seq<R2t>)
    requires forall r :: r in rs ==> r.offset + r.length <= |src|
    requires forall r :: r in rs ==> Segment(p, r.length) < SEGMENT
    ensures WellFormed(p, SolicitedAll(p, src, rs), |src|)
  {
    if rs != [] {
      WriteBursts.SolicitedBurst(p, src, rs[0], 0, 0);
      SolicitedCompletes(p, src, rs[0], 0, 0);
      SolicitedSizes(p, src, rs[0], 0, 0);
      SolicitedAllWellFormed(p, src, rs[1..]);
    }
  }

  lemma {:induction false} AskForCovers(maxBurst: nat, offset: nat, remaining: nat)
    requires maxBurst > 0
    ensures Covers(AskFor(maxBurst, offset, remaining), offset, offset + remaining)
    ensures forall r :: r in AskFor(maxBurst, offset, remaining) ==> r.length <= Min(maxBurst, remaining)
    decreases remaining
  {
    if remaining != 0 {
      var n := Min(remaining, maxBurst);
      AskForCovers(maxBurst, offset + n, remaining - n);
      assert AskFor(maxBurst, offset, remaining)[1..] == AskFor(maxBurst, offset + n, remaining - n);
    }
  }

  lemma {:induction false} AcceptHolds(p: SessionParams, src: seq<int>, buffer: seq<int>, t0: Target)
    requires |buffer| == |src| && p.maxBurst > 0
    requires Accept(p, buffer, CommandWire(p, src)[0].data) == Started(t0)
    ensures var imm := ImmediateLength(p, |src|);
            && Holds(t0, src) && t0.bytes == imm
            && t0.r2tSent == (imm < |src| && AsksAtOnce(p, imm))
            && t0.asked == if t0.r2tSent then AskFor(p.maxBurst, imm, |src| - imm) else []
  {
    var imm := ImmediateLength(p, |src|);
    assert CommandWire(p, src)[0].data == src[..imm];
    assert Splice(buffer, 0, src[..imm])[..imm] == src[..imm];
  }

  lemma {:induction false} OneR2tCovers(from: nat, total: nat)
    requires from < total
    ensures Covers([R2t(TARGET_TRANSFER_TAG, from, total - from)], from, total)
  {
    assert [R2t(TARGET_TRANSFER_TAG, from, total - from)][1..] == [];
  }

  /** The R2Ts the target has issued after the command phase: they cover the rest, and
      the first is the longest. */
  ghost predicate Asks(p: SessionParams, total: nat, asked: seq<R2t>) {
    && Covers(asked, SentByCommand(p, total), total)
    && (forall r :: r in asked ==> r.length <= FirstR2t(p, total))
    && (asked != [] ==> asked[0].length == FirstR2t(p, total))
  }

  /** The target asked when it accepted the command, or there is nothing to ask for. */
  lemma {:induction false} AskedWithCommand(p: SessionParams, total: nat, imm: nat, asked: seq<R2t>)
    requires p.maxBurst > 0 && imm == ImmediateLength(p, total)
    requires p.initialR2T || !MaySend(p, total, imm)
    requires asked == if imm < total && AsksAtOnce(p, imm) then AskFor(p.maxBurst, imm, total - imm) else []
    ensures Asks(p, total, asked)
  {
    if imm < total {
      AskForCovers(p.maxBurst, imm, total - imm);
    }
  }

  /** The target asks after the unsolicited burst, if that was not everything. */
  lemma {:induction false} AskedAfterBurst(p: SessionParams, total: nat, imm: nat, asked: seq<R2t>)
    requires p.maxBurst > 0 && imm == ImmediateLength(p, total)
    requires !p.initialR2T && MaySend(p, total, imm)
    requires asked == if p.firstBurst > 0 && p.firstBurst < total
                      then [R2t(TARGET_TRANSFER_TAG, p.firstBurst, total - p.firstBurst)] else []
    ensures Asks(p, total, asked)
  {
    if p.firstBurst > 0 && p.firstBurst < total {
      OneR2tCovers(p.firstBurst, total);
    }
  }

  /** The target's view after the command phase: it holds everything sent, and the R2Ts it
      has issued cover exactly the rest. */
  ghost predicate CommandDone(p: SessionParams, src: seq<int>, t: Target) {
    && Holds(t, src) && t.bytes == SentByCommand(p, |src|)
    && Asks(p, |src|, t.asked) && (t.asked != [] ==> t.r2tSent)
  }

  lemma {:induction false} StartedPhase(p: SessionParams, src: seq<int>, buffer: seq<int>, t0: Target)
    requires |buffer| == |src| && CommandGuard(p, |src|)
    requires Accept(p, buffer, CommandWire(p, src)[0].data) == Started(t0)
    ensures CarryData(CommandWire(p, src)[1..])
    ensures var o := Feed(p, t0, CommandWire(p, src)[1..]);
            o.Some? && CommandDone(p, src, o.value)
  {
    AcceptHolds(p, src, buffer, t0);
    var imm := ImmediateLength(p, |src|);
    var us := CommandWire(p, src)[1..];
    assert us == if p.initialR2T then [] else Unsolicited(p, src, imm, 0);
    CommandCarriesData(p, src);
    if p.initialR2T || !MaySend(p, |src|, imm) {
      assert us == [];
      AskedWithCommand(p, |src|, imm, t0.asked);
    } else {
      UnsolicitedWellFormed(p, src, imm);
      UnsolicitedChain(p, src, imm, 0);
      FeedChain(p, t0, us, src, SentByCommand(p, |src|));
      AskedAfterBurst(p, |src|, imm, Feed(p, t0, us).value.asked);
    }
  }

  /** A first PDU that its header cannot describe is refused. */
  lemma {:induction false} TooLongRefused(p: SessionParams, t: Target, us: seq<Pdu>)
    requires CarryData(us) && us != [] && |us[0].data| >= SEGMENT
    ensures Feed(p, t, us) == None
  {
    assert us[0] in us;
  }

  /** The target gets through the command phase exactly when the guard holds. */
  lemma {:induction false} CommandPhase(p: SessionParams, src: seq<int>, buffer: seq<int>)
    requires |buffer| == |src|
    ensures var o := AfterCommand(p, src, buffer);
            (o.Some? <==> CommandGuard(p, |src|)) && (o.Some? ==> CommandDone(p, src, o.value))
  {
    if p.maxBurst > 0 {
      AcceptIff(p, src, buffer);
      match Accept(p, buffer, CommandWire(p, src)[0].data) {
        case Started(t0) =>
          CommandCarriesData(p, src);
          if FirstUnsolicited(p, |src|) < SEGMENT {
            StartedPhase(p, src, buffer, t0);
          } else {
            var imm := ImmediateLength(p, |src|);
            var us := CommandWire(p, src)[1..];
            assert us == Unsolicited(p, src, imm, 0);
            TooLongRefused(p, t0, us);
          }
        case _ =>
      }
    }
  }

  /** The R2Ts the initiator cannot answer: none, or the first one. */
  lemma {:induction false} AnswersAllIff(p: SessionParams, total: nat, rs: seq<R2t>, from: nat)
    requires Covers(rs, from, total)
    ensures (forall r :: r in rs ==> r.offset + r.length <= total && CanAnswer(p, total, r))
            <==> (rs == [] || CanAnswer(p, total, rs[0]))
  {
    CoversBounds(rs, from, total);
    if rs != [] {
      CoversBounds(rs[1..], from + rs[0].length, total);
      forall r | r in rs
        ensures r == rs[0] || r.offset > 0
      {
        assert rs == [rs[0]] + rs[1..];
      }
    }
  }

  lemma {:induction false} GuardMeansAnswers(p: SessionParams, total: nat, rs: seq<R2t>)
    requires CommandGuard(p, total) && Asks(p, total, rs)
    ensures WriteGuard(p, total)
            <==> rs == [] || (CanAnswer(p, total, rs[0]) && Segment(p, rs[0].length) < SEGMENT)
  {
    if rs != [] {
      assert rs[0].offset == SentByCommand(p, total);
      assert SentByCommand(p, total) == 0 <==> (p.initialR2T && !p.immediateData) || total == 0;
    }
  }

  lemma {:induction false} FeedAnswers(p: SessionParams, src: seq<int>, t: Target)
    requires Holds(t, src) && Covers(t.asked, t.bytes, |src|)
    requires forall r :: r in t.asked ==> r.offset + r.length <= |src| && Segment(p, r.length) < SEGMENT
    requires t.asked != [] ==> t.r2tSent
    ensures CarryData(SolicitedAll(p, src, t.asked))
    ensures var o := Feed(p, t, SolicitedAll(p, src, t.asked));
            o.Some? && o.value.bytes == |src| && o.value.buffer == src
  {
    SolicitedCarriesData(p, src, t.asked);
    SolicitedAllWellFormed(p, src, t.asked);
    SolicitedAllChain(p, src, t.asked, t.bytes);
    if t.asked != [] {
      FeedChain(p, t, SolicitedAll(p, src, t.asked), src, |src|);
    }
    assert src[..|src|] == src;
  }

  lemma {:induction false} SegmentGrows(p: SessionParams, m: nat, n: nat)
    requires m <= n
    ensures Segment(p, m) <= Segment(p, n)
  {
  }

  lemma {:induction false} AnswerPhase(p: SessionParams, src: seq<int>, t: Target)
    requires CommandGuard(p, |src|) && CommandDone(p, src, t)
    ensures Answered(p, src, t) == if WriteGuard(p, |src|) then Some(src) else None
  {
    var rs := t.asked;
    AnswersAllIff(p, |src|, rs, t.bytes);
    GuardMeansAnswers(p, |src|, rs);
    if WriteGuard(p, |src|) {
      forall r | r in rs ensures Segment(p, r.length) < SEGMENT {
        SegmentGrows(p, r.length, FirstR2t(p, |src|));
      }
      FeedAnswers(p, src, t);
    } else if CanAnswer(p, |src|, rs[0]) {
      SolicitedCarriesData(p, src, rs);
      TooLongRefused(p, t, SolicitedAll(p, src, rs));
    }
  }

  /** The target takes a command's data exactly when it is within the first burst and the
      buffer for it. */
  lemma {:induction false} AcceptIff(p: SessionParams, src: seq<int>, buffer: seq<int>)
    requires |buffer| == |src| && p.maxBurst > 0
    ensures var data := CommandWire(p, src)[0].data;
            && data == src[..ImmediateLength(p, |src|)]
            && (Accept(p, buffer, data).Started?
                <==> (p.firstBurst > 0 ==> |data| <= p.firstBurst) && |data| <= IMMEDIATE)
            && (Accept(p, buffer, data).Overrun?
                <==> (p.firstBurst > 0 ==> |data| <= p.firstBurst) && IMMEDIATE < |data| < SEGMENT)
  {
  }

  /** A write is carried through, and the target's blocks become the source buffer,
      exactly when the parameters pass the guard. */
  lemma {:induction false} ExchangeDelivers(p: SessionParams, src: seq<int>, buffer: seq<int>)
    requires |buffer| == |src|
    ensures Exchange(p, src, buffer) == if WriteGuard(p, |src|) then Some(src) else None
  {
    CommandPhase(p, src, buffer);
    if CommandGuard(p, |src|) {
      AnswerPhase(p, src, AfterCommand(p, src, buffer).value);
    }
  }

  // ----- inputs at which a write is lost

  /** A megabyte of immediate data, which the negotiated limits allow, overruns the buffer. */
  lemma {:induction false} ImmediateOverrun(src: seq<int>, buffer: seq<int>)
    requires |buffer| == |src| == 1048576
    ensures var p := SessionParams(1048576, 1048576, 1048576, false, true);
            Accept(p, buffer, CommandWire(p, src)[0].data) == Overrun && Exchange(p, src, buffer) == None
  {
    var p := SessionParams(1048576, 1048576, 1048576, false, true);
    AcceptIff(p, src, buffer);
    ExchangeDelivers(p, src, buffer);
  }

  /** Without limits 2^24 bytes go out as one Data-Out, whose header is refused. */
  lemma {:induction false} SegmentTooLong(src: seq<int>, buffer: seq<int>)
    requires |buffer| == |src| == SEGMENT
    ensures var p := SessionParams(SEGMENT, 0, 0, false, false);
            FirstUnsolicited(p, |src|) == SEGMENT && Exchange(p, src, buffer) == None
  {
    ExchangeDelivers(p := SessionParams(SEGMENT, 0, 0, false, false), src := src, buffer := buffer);
  }
}
