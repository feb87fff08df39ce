/** A write under any schedule: the initiator's two workers receive and answer R2Ts in
    whatever order, and the target places what arrives. */
module WriteSchedule {
  import opened Sequences
  import opened WriteSpec
  import opened WriteExchange
  import WriteBursts
  import opened R2tSlot

  const EMPTY := Slot(R2t(0, 0, 0), 0)

  /** The target at the end of a run in which every R2T it issued was received and every
      one received was answered, if neither side gives up. */
  function Scheduled(p: SessionParams, src: seq<int>, buffer: seq<int>, es: seq<Event>): Option<Target>
    requires |buffer| == |src|
  {
    match AfterCommand(p, src, buffer)
    case None => None
    case Some(t) =>
      if Issued(es) != t.asked then None
      else match Run(EMPTY, es)
        case Broken => None
        case Served(slot, ranges) =>
          if slot.waiting != 0 then None
          else if exists r :: r in ranges && (r.offset + r.length > |src| || !CanAnswer(p, |src|, r)) then None
          else
            SolicitedCarriesData(p, src, ranges);
            Feed(p, t, SolicitedAll(p, src, ranges))
  }

  // ----- what no PDU carries is not written

  ghost predicate Misses(us: seq<Pdu>, i: nat) {
    forall u :: u in us ==> u.DataOut? && !(u.offset <= i < u.offset + |u.data|)
  }

  lemma {:induction false} FeedMisses(p: SessionParams, t: Target, us: seq<Pdu>, i: nat)
    requires CarryData(us) && Misses(us, i) && i < |t.buffer|
    ensures Feed(p, t, us).Some? ==> |Feed(p, t, us).value.buffer| == |t.buffer|
                                     && Feed(p, t, us).value.buffer[i] == t.buffer[i]
    decreases |us|
  {
    if us != [] {
      assert us[0] in us;
      match Place(p, t, us[0]) {
        case None =>
        case Some(t') => FeedMisses(p, t', us[1..], i);
      }
    }
  }

  lemma {:induction false} ChainMisses(us: seq<Pdu>, src: seq<int>, from: nat, to: nat, i: nat)
    requires Chain(us, src, from, to) && from <= |src| && to <= i && CarryData(us)
    ensures Misses(us, i)
  {
    if us != [] {
      var next := from + |us[0].data|;
      ChainBounds(us[1..], src, next, to);
      ChainMisses(us[1..], src, next, to, i);
    }
  }

  /** Answers stay within the ranges asked for. */
  lemma {:induction false} SolicitedMisses(p: SessionParams, src: seq<int>, r: R2t, sent: nat, sn: nat, i: nat)
    requires r.offset + r.length <= |src| && !(r.offset <= i < r.offset + r.length)
    ensures Misses(Solicited(p, src, r, sent, sn), i)
    decreases r.length - sent
  {
    if sent < r.length {
      SolicitedMisses(p, src, r, sent + Segment(p, r.length - sent), sn + 1, i);
    }
  }

  lemma {:induction false} AnswersMiss(p: SessionParams, src: seq<int>, rs: seq<R2t>, i: nat)
    requires forall r :: r in rs ==> r.offset + r.length <= |src| && !(r.offset <= i < r.offset + r.length)
    ensures Misses(SolicitedAll(p, src, rs), i)
  {
    if rs != [] {
      SolicitedMisses(p, src, rs[0], 0, 0, i);
      AnswersMiss(p, src, rs[1..], i);
    }
  }

  /** What is behind the bytes sent with the command is still what it was. */
  lemma {:induction false} CommandMisses(p: SessionParams, src: seq<int>, buffer: seq<int>, i: nat)
    requires |buffer| == |src| && AfterCommand(p, src, buffer).Some? && SentByCommand(p, |src|) <= i < |src|
    ensures |AfterCommand(p, src, buffer).value.buffer| == |src|
    ensures AfterCommand(p, src, buffer).value.buffer[i] == buffer[i]
  {
    CommandPhase(p, src, buffer);
    CommandChain(p, src);
    var us := CommandWire(p, src);
    var imm := ImmediateLength(p, |src|);
    var t0 := Accept(p, buffer, us[0].data).target;
    CommandCarriesData(p, src);
    ChainBounds(us[1..], src, imm, SentByCommand(p, |src|));
    ChainMisses(us[1..], src, imm, SentByCommand(p, |src|), i);
    FeedMisses(p, t0, us[1..], i);
  }

  // ----- what a run serves

  /** Only issued ranges are served. */
  lemma {:induction false} ServedIssued(s: Slot, es: seq<Event>)
    requires Run(s, es).Served?
    ensures forall r :: r in Run(s, es).ranges ==> r in Issued(es) || (s.waiting > 0 && r == s.r2t)
    decreases |es|
  {
    if es != [] {
      if es[0].Received? {
        ServedIssued(Slot(es[0].r2t, s.waiting + 1), es[1..]);
      } else {
        ServedIssued(s.(waiting := s.waiting - 1), es[1..]);
      }
    }
  }

  lemma {:induction false} CoversApart(rs: seq<R2t>, from: nat, total: nat, a: R2t, b: R2t)
    requires Covers(rs, from, total) && a in rs && b in rs && a != b
    ensures a.offset + a.length <= b.offset || b.offset + b.length <= a.offset
  {
    var r := rs[0];
    assert rs == [r] + rs[1..];
    CoversBounds(rs[1..], from + r.length, total);
    if a != r && b != r {
      CoversApart(rs[1..], from + r.length, total, a, b);
    }
  }

  /** After a run that is not serial some byte is not what it was to be. */
  lemma {:induction false} NotSerialLoses(p: SessionParams, src: seq<int>, buffer: seq<int>, es: seq<Event>)
    requires |buffer| == |src| && forall i :: 0 <= i < |src| ==> buffer[i] != src[i]
    requires Scheduled(p, src, buffer, es).Some? && !Serial(es)
    ensures Scheduled(p, src, buffer, es).value.buffer != src
  {
    CommandPhase(p, src, buffer);
    var t := AfterCommand(p, src, buffer).value;
    var b := SentByCommand(p, |src|);
    var ranges := Run(EMPTY, es).ranges;
    var lost := OverlapLosesARange(EMPTY, es, b, |src|);
    CoversBounds(t.asked, b, |src|);
    ServedIssued(EMPTY, es);
    var i := lost.offset;
    forall r | r in ranges ensures r.offset + r.length <= |src| && !(r.offset <= i < r.offset + r.length) {
      CoversApart(t.asked, b, |src|, lost, r);
    }
    AnswersMiss(p, src, ranges, i);
    SolicitedCarriesData(p, src, ranges);
    CommandMisses(p, src, buffer, i);
    FeedMisses(p, t, SolicitedAll(p, src, ranges), i);
  }

  /** A serial run is the exchange. */
  lemma {:induction false} SerialIsExchange(p: SessionParams, src: seq<int>, buffer: seq<int>, es: seq<Event>)
    requires |buffer| == |src| && Serial(es)
    requires AfterCommand(p, src, buffer).Some? ==> Issued(es) == AfterCommand(p, src, buffer).value.asked
    ensures var o := Scheduled(p, src, buffer, es);
            Exchange(p, src, buffer) == if o.Some? && o.value.bytes == |src| then Some(o.value.buffer) else None
  {
    SerialServesAll(EMPTY, es);
  }

  /** Under any schedule that receives and answers the target's R2Ts, the blocks become
      the source, whatever they held, exactly when the parameters pass the guard and the
      schedule is serial. */
  lemma {:induction false} ScheduleDeliversIff(p: SessionParams, src: seq<int>, buffer: seq<int>, es: seq<Event>)
    requires |buffer| == |src| && forall i :: 0 <= i < |src| ==> buffer[i] != src[i]
    requires AfterCommand(p, src, buffer).Some? ==> Issued(es) == AfterCommand(p, src, buffer).value.asked
    ensures var o := Scheduled(p, src, buffer, es);
            o.Some? && o.value.bytes == |src| && o.value.buffer == src <==> WriteGuard(p, |src|) && Serial(es)
  {
    ExchangeDelivers(p, src, buffer);
    if Serial(es) {
      SerialIsExchange(p, src, buffer, es);
    } else if Scheduled(p, src, buffer, es).Some? {
      NotSerialLoses(p, src, buffer, es);
    }
  }

  // ----- the overlap that nobody notices

  /** One more answer, wherever it goes, adds its bytes. */
  lemma {:induction false} FeedBurst(p: SessionParams, t: Target, src: seq<int>, r: R2t, sent: nat, sn: nat)
    requires r.offset + r.length <= |src| == |t.buffer| && sent <= r.length && t.r2tSent
    requires Segment(p, r.length) < SEGMENT && t.bytes + (r.length - sent) <= |src|
    ensures CarryData(Solicited(p, src, r, sent, sn))
    ensures var o := Feed(p, t, Solicited(p, src, r, sent, sn));
            o.Some? && o.value.bytes == t.bytes + (r.length - sent) && o.value.r2tSent && |o.value.buffer| == |src|
    decreases r.length - sent
  {
    WriteBursts.SolicitedBurst(p, src, r, sent, sn);
    if sent < r.length {
      var us := Solicited(p, src, r, sent, sn);
      var next := sent + Segment(p, r.length - sent);
      assert us[0] in us && us[1..] == Solicited(p, src, r, next, sn + 1);
      SegmentGrows(p, r.length - sent, r.length);
      FeedBurst(p, Place(p, t, us[0]).value, src, r, next, sn + 1);
    }
  }

  lemma {:induction false} FeedAppend(p: SessionParams, t: Target, us: seq<Pdu>, ws: seq<Pdu>)
    requires CarryData(us) && CarryData(ws) && Feed(p, t, us).Some?
    ensures CarryData(us + ws) && Feed(p, t, us + ws) == Feed(p, Feed(p, t, us).value, ws)
    decreases |us|
  {
    if us == [] {
      assert us + ws == ws;
    } else {
      assert us[0] in us;
      assert (us + ws)[0] == us[0] && (us + ws)[1..] == us[1..] + ws;
      FeedAppend(p, Place(p, t, us[0]).value, us[1..], ws);
    }
  }

  /** Two R2Ts of one length, the second received before the first is answered: both ends
      count the whole transfer, and the blocks are wrong. */
  lemma {:induction false} OverlapUnnoticed(p: SessionParams, src: seq<int>, buffer: seq<int>, r1: R2t, r2: R2t)
    requires |buffer| == |src| && forall i :: 0 <= i < |src| ==> buffer[i] != src[i]
    requires WriteGuard(p, |src|) && r1.length == r2.length
    requires AfterCommand(p, src, buffer).Some? && AfterCommand(p, src, buffer).value.asked == [r1, r2]
    ensures var es := [Received(r1), Received(r2), Answered, Answered];
            var o := Scheduled(p, src, buffer, es);
            && Run(EMPTY, es).Served? && SentByCommand(p, |src|) + Lengths(Run(EMPTY, es).ranges) == |src|
            && o.Some? && o.value.bytes == |src| && o.value.buffer != src
  {
    hide Feed, Solicited, Splice, Serial;
    var es := [Received(r1), Received(r2), Answered, Answered];
    var t := AfterCommand(p, src, buffer).value;
    CounterCannotTell(EMPTY, r1, r2);
    CommandPhase(p, src, buffer);
    TwoRanges(p, |src|, r1, r2);
    assert [r1, r2][0] == r1;
    TwoBursts(p, t, src, r2);
    NotSerial(r1, r2);
    forall r | r in [r2, r2] ensures r == r2 {}
    NotSerialLoses(p, src, buffer, es);
  }

  lemma {:induction false} NotSerial(r1: R2t, r2: R2t)
    ensures !Serial([Received(r1), Received(r2), Answered, Answered])
  {
  }

  /** The second of two R2Ts for the rest. */
  lemma {:induction false} TwoRanges(p: SessionParams, total: nat, r1: R2t, r2: R2t)
    requires WriteGuard(p, total) && Asks(p, total, [r1, r2]) && r1.length == r2.length
    ensures SentByCommand(p, total) + Lengths([r2, r2]) == total
    ensures 0 < r2.offset && r2.offset + r2.length <= total && CanAnswer(p, total, r2) && Segment(p, r2.length) < SEGMENT
  {
    var b := SentByCommand(p, total);
    CoversLengths([r1, r2], b, total);
    CoversBounds([r1, r2], b, total);
    TwoLengths(r1, r2);
    assert [r1, r2][0] == r1 && [r1, r2][1] == r2;
    assert [r1, r2][1..] == [r2] && Covers([r2], b + r1.length, total);
    SegmentGrows(p, r2.length, FirstR2t(p, total));
  }

  lemma {:induction false} TwoBursts(p: SessionParams, t: Target, src: seq<int>, r: R2t)
    requires r.offset + r.length <= |src| == |t.buffer| && t.r2tSent
    requires Segment(p, r.length) < SEGMENT && t.bytes + Lengths([r, r]) == |src|
    ensures CarryData(SolicitedAll(p, src, [r, r]))
    ensures var o := Feed(p, t, SolicitedAll(p, src, [r, r])); o.Some? && o.value.bytes == |src|
  {
    hide Feed, Solicited;
    TwoLengths(r, r);
    var burst := Solicited(p, src, r, 0, 0);
    FeedBurst(p, t, src, r, 0, 0);
    FeedBurst(p, Feed(p, t, burst).value, src, r, 0, 0);
    FeedAppend(p, t, burst, burst);
    TwoAnswers(p, src, r);
  }

  lemma {:induction false} TwoLengths(r1: R2t, r2: R2t)
    ensures Lengths([r1, r2]) == r1.length + r2.length && Lengths([r2, r2]) == 2 * r2.length
  {
    assert [r1, r2][1..] == [r2] && [r2, r2][1..] == [r2] && [r2][1..] == [];
    assert Lengths([r2]) == r2.length + Lengths([]);
  }

  lemma {:induction false} TwoAnswers(p: SessionParams, src: seq<int>, r: R2t)
    requires r.offset + r.length <= |src|
    ensures SolicitedAll(p, src, [r, r]) == Solicited(p, src, r, 0, 0) + Solicited(p, src, r, 0, 0)
  {
    assert [r, r][1..] == [r] && [r][1..] == [];
    assert SolicitedAll(p, src, []) == [];
    var a := Solicited(p, src, r, 0, 0);
    assert SolicitedAll(p, src, [r]) == a + [];
    assert a + [] == a;
  }
}
