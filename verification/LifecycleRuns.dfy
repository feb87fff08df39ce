/** Runs from the start in which a command completes twice: the two ways a run can fail
    to be careful. */
module LifecycleRuns {
  import opened Sequences
  import opened Lifecycle
  import opened LifecycleTheorems

  lemma {:induction false} RunAppend(s: State, a: seq<Event>, m: State, b: seq<Event>, last: State)
    requires Run(s, a, m) && Run(m, b, last)
    ensures Run(s, a + b, last)
    decreases |a|
  {
    if a == [] {
      assert a + b == b;
    } else {
      assert (a + b)[0] == a[0] && (a + b)[1..] == a[1..] + b;
      RunAppend(Step(s, a[0]), a[1..], m, b, last);
    }
  }

  lemma {:induction false} RunTwo(s: State, e: Event, m: State, f: Event, last: State)
    requires Enabled(s, e) && Step(s, e) == m && Enabled(m, f) && Step(m, f) == last
    ensures Run(s, [e, f], last)
  {
    assert [e, f][1..] == [f] && [f][1..] == [];
    assert Run(last, [], last);
    assert Run(m, [f], last);
  }

  lemma {:induction false} RunOne(s: State, e: Event, last: State)
    requires Enabled(s, e) && Step(s, e) == last
    ensures Run(s, [e], last)
  {
    assert [e][1..] == [];
    assert Run(last, [], last);
  }

  /** A SCSI command with so many callbacks run, sent or not, and R2Ts waiting. */
  function Scsi(callbacks: nat, aborted: bool, txDone: bool, waiting: nat): Cmd {
    Cmd(Kind.Scsi, callbacks, false, aborted, txDone, waiting, 0, 0)
  }

  /** Take a command and send it. */
  lemma {:induction false} TakeAndSend(s: State, t: nat, rest: seq<nat>)
    requires s.fullFeature && s.sending == {} && s.queue == [t] + rest && t in s.cmds
    requires s.cmds[t].kind.Scsi? && !s.cmds[t].aborted && s.cmds[t].r2tRequest == 0
    ensures Run(s, [Take, Sent(0)],
                s.(queue := rest, hash := s.hash + {t}, cmds := s.cmds[t := s.cmds[t].(txDone := true)]))
  {
    var m := s.(queue := rest, hash := s.hash + {t}, cmds := s.cmds[t := s.cmds[t].(txDone := false)], sending := {t});
    var last := s.(queue := rest, hash := s.hash + {t}, cmds := s.cmds[t := s.cmds[t].(txDone := true)]);
    assert TakeStep(s) == m;
    assert m.cmds[t := s.cmds[t].(txDone := true)] == last.cmds;
    assert SentStep(m, t, 0) == last;
    assert Enabled(m, Sent(0));
    assert Step(m, Sent(0)) == last;
    RunTwo(s, Take, m, Sent(0), last);
  }

  // ----- the start of both runs

  const OPENING := [Enqueue(1, Kind.Scsi), LoggedIn] + [Take, Sent(0)]

  /** One write outstanding. */
  const OPENED := State([], {1}, map[1 := Scsi(0, false, true, 0)], {}, true, false)

  lemma {:induction false} Open()
    ensures Run(INIT, OPENING, OPENED)
  {
    var s := State([1], {}, map[1 := FreshCmd(Kind.Scsi)], {}, true, false);
    RunTwo(INIT, Enqueue(1, Kind.Scsi), s.(fullFeature := false), LoggedIn, s);
    TakeAndSend(s, 1, []);
    assert {} + {1} == {1};
    assert s.cmds[1 := Scsi(0, false, true, 0)] == OPENED.cmds;
    RunAppend(INIT, [Enqueue(1, Kind.Scsi), LoggedIn], s, [Take, Sent(0)], OPENED);
  }

  // ----- a response that overtakes

  /** The response to a command arrives while an R2T of its waits to be answered. */
  lemma {:induction false} OvertakingResponse()
    ensures exists es, last :: Run(INIT, es, last) && 1 in last.cmds && last.cmds[1].callbacks == 2
  {
    Open();
    var s := OPENED.(queue := [1], cmds := map[1 := Scsi(0, false, true, 1)]);
    assert OPENED.cmds[1 := Scsi(0, false, true, 1)] == s.cmds;
    RunOne(OPENED, R2t(1, false), s);
    RunAppend(INIT, OPENING, OPENED, [R2t(1, false)], s);
    WaitingInv(s);
    ResponseBeforeAnswerCompletesTwice(s, 1);
    var es := [Response(1), Take, Sent(0), Response(1)];
    var last :| Run(s, es, last) && 1 in last.cmds && last.cmds[1].callbacks == 2;
    RunAppend(INIT, OPENING + [R2t(1, false)], s, es, last);
  }

  lemma {:induction false} WaitingInv(s: State)
    requires s == OPENED.(queue := [1], cmds := map[1 := Scsi(0, false, true, 1)])
    ensures Inv(s)
  {
  }

  // ----- an abort that misses its command

  const WAITING_TWICE := State([1, 1, 2], {1}, map[1 := Scsi(0, false, true, 2), 2 := FreshCmd(Kind.Scsi)], {}, true, false)

  const MISSED := State([2, 1, 1], {1}, map[1 := Scsi(0, false, true, 2), 2 := Scsi(1, true, false, 0)], {}, true, false)

  const HASHED := State([1, 1], {1, 2}, map[1 := Scsi(0, false, true, 2), 2 := Scsi(1, true, false, 0)], {}, true, false)

  const RECOVERED := State([1, 1, 2, 1], {}, map[1 := Scsi(0, false, false, 0), 2 := Scsi(1, false, false, 0)], {}, false, false)

  /** Two R2Ts of one write wait, and another write is queued behind it. */
  lemma {:induction false} WaitTwice()
    ensures Run(OPENED, [R2t(1, false), R2t(1, false)] + [Enqueue(2, Kind.Scsi)], WAITING_TWICE)
  {
    var a := OPENED.(queue := [1], cmds := map[1 := Scsi(0, false, true, 1)]);
    var b := OPENED.(queue := [1, 1], cmds := map[1 := Scsi(0, false, true, 2)]);
    assert OPENED.cmds[1 := Scsi(0, false, true, 1)] == a.cmds;
    assert a.cmds[1 := Scsi(0, false, true, 2)] == b.cmds;
    assert [1] + [1] == [1, 1] && [1, 1] + [2] == [1, 1, 2];
    RunTwo(OPENED, R2t(1, false), a, R2t(1, false), b);
    assert b.cmds[2 := FreshCmd(Kind.Scsi)] == WAITING_TWICE.cmds;
    RunOne(b, Enqueue(2, Kind.Scsi), WAITING_TWICE);
    RunAppend(OPENED, [R2t(1, false), R2t(1, false)], b, [Enqueue(2, Kind.Scsi)], WAITING_TWICE);
  }

  /** The abort completes command 2 but leaves it queued. */
  lemma {:induction false} Miss()
    ensures Scanned([1, 1, 2], 2) == [2, 1, 1]
    ensures Run(WAITING_TWICE, [Abort(2), Take], HASHED)
  {
    var q := [1, 1, 2];
    IndexOfIs(q, 2, 2);
    IndexOfIs(q[1..], 1, 0);
    assert q[2..] + q[..2] == [2, 1, 1];
    assert AbortStep(WAITING_TWICE, 2) == MISSED by {
      assert WAITING_TWICE.hash - {2} == WAITING_TWICE.hash;
      assert WAITING_TWICE.cmds[2 := Scsi(0, true, false, 0)][2 := Scsi(1, true, false, 0)] == MISSED.cmds;
    }
    assert MISSED.queue[1..] == [1, 1];
    assert TakeStep(MISSED) == HASHED;
    RunTwo(WAITING_TWICE, Abort(2), MISSED, Take, HASHED);
  }

  /** Recovery takes it for a command that is outstanding. */
  lemma {:induction false} Recover2()
    ensures Run(HASHED, [Recover([2, 1]), LoggedIn], RECOVERED.(fullFeature := true))
  {
    var s0 := HASHED;
    DrainScsi();
    var s1 := s0.(queue := [1, 1]);
    var a := s1.(hash := {1}, queue := [1, 1, 2],
                 cmds := map[1 := Scsi(0, false, true, 2), 2 := Scsi(1, false, false, 0)]);
    var b := RECOVERED.(fullFeature := true);
    assert s1.hash - {2} == {1} && a.hash - {1} == {};
    assert s1.cmds[2 := Reset(s1.cmds[2])] == a.cmds;
    assert a.cmds[1 := Reset(a.cmds[1])] == b.cmds;
    assert [1, 1] + [2] == [1, 1, 2] && [1, 1, 2] + [1] == [1, 1, 2, 1];
    RequeueBoth(s1, a, b);
    assert RecoverStep(HASHED, [2, 1]) == RECOVERED;
    RunTwo(HASHED, Recover([2, 1]), RECOVERED, LoggedIn, b);
  }

  lemma {:induction false} RequeueBoth(s: State, a: State, b: State)
    requires !s.failed && !a.failed && |s.queue| < QUEUE_DEPTH && |a.queue| < QUEUE_DEPTH
    requires 2 in s.cmds && s.cmds[2].kind.Scsi? && 1 in a.cmds && a.cmds[1].kind.Scsi?
    requires a == s.(hash := s.hash - {2}, queue := s.queue + [2], cmds := s.cmds[2 := Reset(s.cmds[2])])
    requires b == a.(hash := a.hash - {1}, queue := a.queue + [1], cmds := a.cmds[1 := Reset(a.cmds[1])])
    ensures Requeue(s, [2, 1]) == b
  {
    assert [2, 1][1..] == [1] && [1][1..] == [];
    assert Requeue(b, []) == b;
    assert Requeue(a, [1]) == b;
  }

  lemma {:induction false} DrainScsi()
    ensures Drain(HASHED, []) == (HASHED.(queue := []), [1, 1])
  {
    var a := HASHED.(queue := [1]);
    var b := HASHED.(queue := []);
    assert [1, 1][1..] == [1] && [1][1..] == [];
    assert [] + [1] == [1] && [1] + [1] == [1, 1];
    assert Drain(b, [1, 1]) == (b, [1, 1]);
    assert Drain(a, [1]) == Drain(b, [1, 1]);
  }

  /** The next session carries it out and completes it again. */
  lemma {:induction false} CompleteAgain()
    ensures exists es, last :: Run(RECOVERED.(fullFeature := true), es, last) && 2 in last.cmds && last.cmds[2].callbacks == 2
  {
    var s := RECOVERED.(fullFeature := true);
    var once := map[1 := Scsi(0, false, true, 0), 2 := Scsi(1, false, false, 0)];
    var both := map[1 := Scsi(0, false, true, 0), 2 := Scsi(1, false, true, 0)];
    var a := s.(queue := [1, 2, 1], hash := {1}, cmds := once);
    var b := s.(queue := [2, 1], hash := {1}, cmds := once);
    var c := s.(queue := [1], hash := {1, 2}, cmds := both);
    assert {} + {1} == {1} && {1} + {1} == {1} && {1} + {2} == {1, 2};
    assert s.cmds[1 := Scsi(0, false, true, 0)] == once && once[1 := Scsi(0, false, true, 0)] == once;
    assert once[2 := Scsi(1, false, true, 0)] == both;
    assert s.queue == [1] + [1, 2, 1] && a.queue == [1] + [2, 1] && b.queue == [2] + [1];
    TakeAndSend(s, 1, [1, 2, 1]);
    TakeAndSend(a, 1, [2, 1]);
    TakeAndSend(b, 2, [1]);
    ChainThree(s, a, b, c);
  }

  lemma {:induction false} ChainThree(s: State, a: State, b: State, c: State)
    requires Run(s, [Take, Sent(0)], a) && Run(a, [Take, Sent(0)], b) && Run(b, [Take, Sent(0)], c)
    requires Enabled(c, Response(2)) && 2 in c.cmds && c.cmds[2].callbacks == 1
    ensures exists es, last :: Run(s, es, last) && 2 in last.cmds && last.cmds[2].callbacks == 2
  {
    var last := Done(c, 2);
    RunOne(c, Response(2), last);
    hide Run, Enabled;
    var turn := [Take, Sent(0)];
    RunAppend(b, turn, c, [Response(2)], last);
    RunAppend(a, turn, b, turn + [Response(2)], last);
    RunAppend(s, turn, a, turn + (turn + [Response(2)]), last);
  }

  ghost predicate Reaches(s: State, last: State) {
    exists es :: Run(s, es, last)
  }

  lemma {:induction false} ReachesOn(s: State, es: seq<Event>, m: State, last: State)
    requires Run(s, es, m) && Reaches(m, last)
    ensures Reaches(s, last)
  {
    var fs :| Run(m, fs, last);
    RunAppend(s, es, m, fs, last);
  }

  /** While two R2Ts of the first command in the queue wait, an abort of a later one
      completes it, leaves it queued, and after a recovery it completes again. */
  lemma {:induction false} MissedAbort()
    ensures exists last :: Reaches(INIT, last) && 2 in last.cmds && last.cmds[2].callbacks == 2
  {
    hide Run, Scanned, FreshCmd, Scsi;
    Open();
    WaitTwice();
    Miss();
    Recover2();
    CompleteAgain();
    var s := RECOVERED.(fullFeature := true);
    var es, last :| Run(s, es, last) && 2 in last.cmds && last.cmds[2].callbacks == 2;
    ReachesOn(HASHED, [Recover([2, 1]), LoggedIn], s, last);
    ReachesOn(WAITING_TWICE, [Abort(2), Take], HASHED, last);
    ReachesOn(OPENED, [R2t(1, false), R2t(1, false)] + [Enqueue(2, Kind.Scsi)], WAITING_TWICE, last);
    ReachesOn(INIT, OPENING, OPENED, last);
  }
}
