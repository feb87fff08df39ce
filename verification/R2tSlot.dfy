/** The single R2T slot of a command (`cmd->r2t`, `cmd->r2t_request`): R2Ts are received
    by one worker (`scsi_r2t_rx_i`) and answered by another (`scsi_r2t_tx_i`), in any
    interleaving. */
module R2tSlot {
  import opened WriteSpec
  import WriteExchange

  /** `waiting` is r2t_request: how often the command is queued for an answer. */
  datatype Slot = Slot(r2t: R2t, waiting: nat)

  datatype Event = Received(r2t: R2t) | Answered

  datatype Outcome = Broken | Served(slot: Slot, ranges: seq<R2t>)

  /** A third waiting R2T breaks the session; a second one is accepted and overwrites. */
  function Run(s: Slot, es: seq<Event>): Outcome
    decreases |es|
  {
    if es == [] then Served(s, []) else
    match es[0]
    case Received(r) =>
      if s.waiting > 1 then Broken else Run(Slot(r, s.waiting + 1), es[1..])
    case Answered =>
      if s.waiting == 0 then Broken else
      match Run(s.(waiting := s.waiting - 1), es[1..])
      case Broken => Broken
      case Served(last, ranges) => Served(last, [s.r2t] + ranges)
  }

  function Issued(es: seq<Event>): seq<R2t> {
    if es == [] then [] else
    (if es[0].Received? then [es[0].r2t] else []) + Issued(es[1..])
  }

  /** How many R2Ts have come since the start, less those answered. */
  function Balance(es: seq<Event>): int {
    if es == [] then 0 else (if es[0].Received? then 1 else -1) + Balance(es[1..])
  }

  lemma {:induction false} BalanceFirst(es: seq<Event>, k: nat)
    requires es != [] && k < |es|
    ensures Balance(es[..k + 1]) == (if es[0].Received? then 1 else -1) + Balance(es[1..][..k])
  {
    assert es[..k + 1][1..] == es[1..][..k];
  }

  /** A session holds out exactly when never more than two R2Ts wait, and none is answered
      that does not. */
  lemma {:induction false} ServedIff(s: Slot, es: seq<Event>)
    requires s.waiting <= 2
    ensures Run(s, es).Served? <==> forall k :: 0 <= k <= |es| ==> 0 <= s.waiting + Balance(es[..k]) <= 2
    decreases |es|
  {
    if es == [] {
      assert forall k :: 0 <= k <= |es| ==> es[..k] == [];
    } else {
      var step := if es[0].Received? then 1 else -1;
      assert es[..1][1..] == [];
      assert Balance(es[..1]) == step && es[..0] == [];
      if 0 <= s.waiting + step <= 2 {
        var next := if es[0].Received? then Slot(es[0].r2t, s.waiting + 1) else s.(waiting := s.waiting - 1);
        ServedIff(next, es[1..]);
        forall k | 0 <= k <= |es|
          ensures s.waiting + Balance(es[..k]) == if k == 0 then s.waiting else next.waiting + Balance(es[1..][..k - 1])
        {
          if k > 0 { BalanceFirst(es, k - 1); }
        }
        if forall k :: 0 <= k <= |es| ==> 0 <= s.waiting + Balance(es[..k]) <= 2 {
          forall k | 0 <= k <= |es[1..]| ensures 0 <= next.waiting + Balance(es[1..][..k]) <= 2 {
            assert 0 <= s.waiting + Balance(es[..k + 1]) <= 2;
          }
        }
      }
    }
  }

  /** Three R2Ts received in a row break the session, whatever follows. */
  lemma {:induction false} ThirdBreaks(s: Slot, a: R2t, b: R2t, c: R2t, rest: seq<Event>)
    ensures Run(s, [Received(a), Received(b), Received(c)] + rest) == Broken
  {
    var es := [Received(a), Received(b), Received(c)] + rest;
    var fs, gs := [Received(b), Received(c)] + rest, [Received(c)] + rest;
    assert es[1..] == fs && fs[1..] == gs;
    if s.waiting <= 1 {
      assert Run(s, es) == Run(Slot(a, s.waiting + 1), fs);
      if s.waiting == 0 {
        assert Run(Slot(a, 1), fs) == Run(Slot(b, 2), gs) == Broken;
      }
    }
  }

  /** Every R2T is answered before the next is received. */
  predicate Serial(es: seq<Event>) {
    if es == [] then true
    else |es| >= 2 && es[0].Received? && es[1].Answered? && Serial(es[2..])
  }

  lemma {:induction false} SerialServesAll(s: Slot, es: seq<Event>)
    requires Serial(es) && s.waiting == 0
    ensures var o := Run(s, es);
            o.Served? && o.slot.waiting == 0 && o.ranges == Issued(es)
    decreases |es|
  {
    if es != [] {
      var r := es[0].r2t;
      var tail := es[1..];
      var rest := tail[1..];
      assert tail[0] == es[1] && rest == es[2..];
      SerialServesAll(Slot(r, 0), rest);
      assert Run(s, es) == Run(Slot(r, 1), tail);
      assert Issued(tail) == Issued(rest);
    }
  }

  /** Only what is in the slot or still to come can be answered. */
  lemma {:induction false} ServedComesFrom(s: Slot, es: seq<Event>, r: R2t)
    requires Run(s, es).Served? && r in Run(s, es).ranges
    ensures (s.waiting > 0 && r == s.r2t) || r in Issued(es)
    decreases |es|
  {
    match es[0] {
      case Received(q) =>
        ServedComesFrom(Slot(q, s.waiting + 1), es[1..], r);
      case Answered =>
        var t := s.(waiting := s.waiting - 1);
        if r in Run(t, es[1..]).ranges {
          ServedComesFrom(t, es[1..], r);
        }
    }
  }

  lemma {:induction false} CoversDistinct(rs: seq<R2t>, from: nat, total: nat)
    requires Covers(rs, from, total) && rs != []
    ensures rs[0] !in rs[1..]
  {
    CoversBounds(rs[1..], from + rs[0].length, total);
  }

  /** Unless the run is serial, some R2T is overwritten before it is answered, and its
      range is never sent. */
  lemma {:induction false} OverlapLosesARange(s: Slot, es: seq<Event>, from: nat, total: nat) returns (lost: R2t)
    requires Covers(Issued(es), from, total)
    requires s.waiting == 0 && !Serial(es)
    requires Run(s, es).Served? && Run(s, es).slot.waiting == 0
    ensures lost in Issued(es) && lost !in Run(s, es).ranges
    decreases |es|
  {
    var r := es[0].r2t;
    var s1 := Slot(r, 1);
    var es1 := es[1..];
    CoversDistinct(Issued(es), from, total);
    assert Issued(es)[1..] == Issued(es1);
    assert Run(s, es) == Run(s1, es1);
    if es1 != [] && es1[0].Received? {
      lost := r;
      var s2 := Slot(es1[0].r2t, 2);
      assert Run(s1, es1) == Run(s2, es1[1..]);
      if lost in Run(s2, es1[1..]).ranges {
        ServedComesFrom(s2, es1[1..], lost);
      }
      assert Issued(es1) == [es1[0].r2t] + Issued(es1[1..]);
    } else {
      var es2 := es1[1..];
      assert es2 == es[2..];
      assert es[1] == es1[0];
      assert Issued(es1) == Issued(es2);
      assert Covers(Issued(es)[1..], from + r.length, total);
      lost := OverlapLosesARange(Slot(r, 0), es2, from + r.length, total);
      assert lost in Issued(es1);
      assert lost != r;
    }
  }

  /** For R2Ts that cover what is left, all answered by the end: the ranges sent are
      the ranges asked for exactly when no R2T was received while another waited. */
  lemma {:induction false} AllServedIffSerial(s: Slot, es: seq<Event>, from: nat, total: nat)
    requires Covers(Issued(es), from, total)
    requires s.waiting == 0
    requires Run(s, es).Served? && Run(s, es).slot.waiting == 0
    ensures Run(s, es).ranges == Issued(es) <==> Serial(es)
  {
    if Serial(es) {
      SerialServesAll(s, es);
    } else {
      var lost := OverlapLosesARange(s, es, from, total);
    }
  }

  /** Two overlapping R2Ts are answered by sending the second range twice. */
  lemma {:induction false} OverlapServesLast(s: Slot, r1: R2t, r2: R2t)
    requires s.waiting == 0
    ensures var es := [Received(r1), Received(r2), Answered, Answered];
            Issued(es) == [r1, r2] && Run(s, es) == Served(Slot(r2, 0), [r2, r2])
  {
    var es := [Received(r1), Received(r2), Answered, Answered];
    assert es[1..] == [Received(r2), Answered, Answered];
    assert es[1..][1..] == [Answered, Answered];
    assert es[1..][1..][1..] == [Answered];
    assert es[1..][1..][1..][1..] == [];
    assert Issued([Answered]) == [] && Issued([Answered, Answered]) == [];
    var s2 := Slot(r2, 2);
    assert Run(s2.(waiting := 1), [Answered]) == Served(Slot(r2, 0), [r2]);
    assert Run(s2, [Answered, Answered]) == Served(Slot(r2, 0), [r2] + [r2]);
  }

  /** The byte counter cannot tell: when they are of one length, as many bytes are counted
      as were asked for. */
  lemma {:induction false} CounterCannotTell(s: Slot, r1: R2t, r2: R2t)
    requires s.waiting == 0 && r1.length == r2.length
    ensures var es := [Received(r1), Received(r2), Answered, Answered];
            var o := Run(s, es);
            && Issued(es) == [r1, r2]
            && o == Served(Slot(r2, 0), [r2, r2])
            && Lengths(o.ranges) == Lengths(Issued(es))
  {
    OverlapServesLast(s, r1, r2);
  }

  /** The target leaves room for such an overlap exactly when what it asks for exceeds
      MaxBurstLength. */
  lemma {:induction false} OneR2tIff(maxBurst: nat, offset: nat, remaining: nat)
    requires maxBurst > 0
    ensures |WriteExchange.AskFor(maxBurst, offset, remaining)| <= 1 <==> remaining <= maxBurst
  {
    if remaining > maxBurst {
      assert WriteExchange.AskFor(maxBurst, offset + maxBurst, remaining - maxBurst) != [];
    } else if remaining > 0 {
      assert WriteExchange.AskFor(maxBurst, offset + remaining, 0) == [];
    }
  }
}
