/** The main results about the command life cycle. */
module LifecycleTheorems {
  import opened Sequences
  import opened Lifecycle
  import opened LifecycleProofs
  import opened LifecycleSafety
  import opened LifecycleRecovery

  lemma {:induction false} KeepShorter(cmds: map<nat, Cmd>, q: seq<nat>)
    ensures |Keep(cmds, q)| <= |q|
  {
    if q != [] { KeepShorter(cmds, q[1..]); }
  }

  lemma {:induction false} AfterTwice(cmds: map<nat, Cmd>, a: set<nat>, b: set<nat>)
    requires forall t :: SessionCmd(cmds, t) ==> !(t in a && t in b)
    ensures After(After(cmds, a, {}), b, b) == After(cmds, a + b, b)
  {
  }

  lemma {:induction false} AfterKinds(cmds: map<nat, Cmd>, dead: set<nat>, again: set<nat>)
    ensures SameKinds(cmds, After(cmds, dead, again))
  {
  }

  /** No session command is both queued and outstanding, or queued twice. */
  lemma {:induction false} SessionCmdsApart(s: State, t: nat)
    requires Safe(s) && SessionCmd(s.cmds, t)
    ensures !(t in s.queue && t in s.hash) && multiset(s.queue)[t] <= 1
  {
    assert SafeCmd(s, multiset(s.queue), t);
    assert t in s.queue <==> t in multiset(s.queue);
  }

  lemma {:induction false} QueuedInCmds(s: State, t: nat)
    requires Safe(s) && (t in s.queue || t in s.hash)
    ensures t in s.cmds
  {
    assert t in s.queue <==> t in multiset(s.queue);
    assert Held(s, multiset(s.queue), t);
  }

  /** Conservation over session recovery, from any safe state, failed or not: what is
      queued or outstanding and outlives the session is queued afterwards, once for each
      time it was held; the hash is empty; session commands completed as aborted; those
      from the hash start over. */
  ghost predicate Recovered(s: State, order: seq<nat>, s': State) {
    && s' == s.(queue := s'.queue, hash := {}, sending := {}, fullFeature := false, failed := false,
                cmds := After(s.cmds, Elements(s.queue) + s.hash, s.hash))
    && multiset(s'.queue) == multiset(Keep(s.cmds, s.queue)) + multiset(Keep(s.cmds, order))
  }

  lemma {:induction false} RecoveryConserves(s: State, order: seq<nat>)
    requires Safe(s) && Enabled(s, Recover(order))
    ensures var s' := RecoverStep(s, order);
            && (s'.failed <==> |Keep(s.cmds, s.queue)| + |Keep(s.cmds, order)| > QUEUE_DEPTH)
            && (!s'.failed ==> Recovered(s, order, s'))
  {
    hide Drain, Requeue, Keep, SafeIn, After, IsSession;
    var s0 := s.(sending := {}, failed := false);
    forall t | t in s0.queue
      ensures t in s0.cmds && (SessionCmd(s0.cmds, t) ==> t !in s0.hash && multiset(s0.queue)[t] <= 1)
    {
      QueuedInCmds(s, t);
      if SessionCmd(s.cmds, t) { SessionCmdsApart(s, t); }
    }
    DrainResult(s0, []);
    var kept := Drain(s0, []).1;
    assert multiset(kept) == multiset(Keep(s.cmds, s.queue));
    MultisetMembers(kept, Keep(s.cmds, s.queue));
    KeepMembers(s.cmds, s.queue);
    KeepShorter(s.cmds, s.queue);
    var s1 := Drain(s0, []).0.(queue := kept);
    AfterKinds(s.cmds, Elements(s.queue), {});
    forall t | t in order ensures t in s1.cmds && (SessionCmd(s1.cmds, t) ==> t !in s1.queue) {
      QueuedInCmds(s, t);
    }
    RequeueResult(s1, order);
    KeepSameKinds(s.cmds, s1.cmds, order);
    assert Elements(order) == s.hash;
    forall t | SessionCmd(s.cmds, t) ensures !(t in Elements(s.queue) && t in s.hash) {
      SessionCmdsApart(s, t);
    }
    AfterTwice(s.cmds, Elements(s.queue), s.hash);
    assert s.hash - Elements(order) == {};
  }

  lemma {:induction false} RecoverKeeps(s: State, order: seq<nat>, s': State)
    requires Inv(s) && Enabled(s, Recover(order)) && Recovered(s, order, s')
    requires forall t :: t in s.queue ==> t !in s.hash
    requires |Keep(s.cmds, s.queue)| + |Keep(s.cmds, order)| <= QUEUE_DEPTH
    ensures Inv(s')
  {
    hide Keep, CmdOk, IsSession;
    var a, b := Keep(s.cmds, s.queue), Keep(s.cmds, order);
    KeepMembers(s.cmds, s.queue);
    KeepMembers(s.cmds, order);
    MultisetMembers(s'.queue, a + b);
    KeepNoDup(s.cmds, s.queue);
    KeepNoDup(s.cmds, order);
    NoDupMultiset(a);
    NoDupMultiset(b);
    NoDupMultiset(s'.queue);
    forall x ensures multiset(s'.queue)[x] <= 1 {
      assert x in a <==> x in multiset(a);
      assert x in b <==> x in multiset(b);
    }
    forall t | t in s'.cmds ensures CmdOk(s', t) {
      RecoveredCmd(s, order, s', t);
    }
    forall t | Pending(s', t) ensures t in s'.cmds {
      assert t in s.queue || t in s.hash;
      assert Pending(s, t);
    }
  }

  lemma {:induction false} RecoveredCmd(s: State, order: seq<nat>, s': State, t: nat)
    requires Inv(s) && Enabled(s, Recover(order)) && Recovered(s, order, s')
    requires forall t :: t in s.queue ==> t !in s.hash
    requires forall x :: x in s'.queue <==> (x in s.queue || x in s.hash) && !SessionCmd(s.cmds, x)
    requires t in s.cmds
    ensures CmdOk(s', t)
  {
    assert CmdOk(s, t);
  }

  /** A command both queued and outstanding ends up queued twice. */
  lemma {:induction false} OverlapDuplicates(s: State, order: seq<nat>, s': State, t: nat)
    requires Safe(s) && Enabled(s, Recover(order)) && Recovered(s, order, s')
    requires t in s.queue && t in s.hash
    ensures !NoDup(s'.queue)
  {
    if SessionCmd(s.cmds, t) { SessionCmdsApart(s, t); }
    KeepMembers(s.cmds, s.queue);
    KeepMembers(s.cmds, order);
    var a, b := Keep(s.cmds, s.queue), Keep(s.cmds, order);
    assert t in a && t in b;
    assert t in multiset(a) && t in multiset(b);
    assert multiset(s'.queue)[t] >= 2;
    NoDupMultiset(s'.queue);
  }

  lemma {:induction false} RecoverKeepsIff(s: State, order: seq<nat>)
    requires Inv(s) && Enabled(s, Recover(order))
    ensures Inv(RecoverStep(s, order)) <==> Orderly(s, Recover(order))
  {
    var s' := RecoverStep(s, order);
    InvIsSafe(s);
    RecoveryConserves(s, order);
    if !s'.failed {
      if forall t :: t in s.queue ==> t !in s.hash {
        RecoverKeeps(s, order, s');
      } else {
        var t :| t in s.queue && t in s.hash;
        OverlapDuplicates(s, order, s', t);
      }
    }
  }

  /** A step of the session keeps the invariant exactly when it is orderly. */
  lemma {:induction false} StepKeepsInvIff(s: State, e: Event)
    requires Inv(s) && Enabled(s, e)
    ensures Inv(Step(s, e)) <==> Orderly(s, e)
  {
    match e
    case Enqueue(t, k) => EnqueueKeeps(s, t, k);
    case LoggedIn =>
      forall t | t in s.cmds ensures CmdOk(s.(fullFeature := true), t) {
        assert CmdOk(s, t);
      }
      forall t | Pending(s.(fullFeature := true), t) ensures t in s.cmds {
        assert Pending(s, t);
      }
    case Take => TakeKeeps(s);
    case Sent(bytes) =>
      var t :| s.sending == {t} && t in s.cmds;
      SentKeeps(s, t, bytes);
    case DataIn(t, bytes) => DataInKeeps(s, t, bytes);
    case R2t(t, last) => R2tKeepsIff(s, t, last);
    case Response(t) => ResponseKeepsIff(s, t);
    case Abort(t) => AbortKeepsIff(s, t);
    case Recover(order) => RecoverKeepsIff(s, order);
  }

  // ----- runs

  const INIT := State([], {}, map[], {}, false, false)

  /** `es` is a run from `s` to `last`, every step possible where it happens. */
  ghost predicate Run(s: State, es: seq<Event>, last: State)
    decreases |es|
  {
    if es == [] then s == last
    else Enabled(s, es[0]) && Run(Step(s, es[0]), es[1..], last)
  }

  ghost predicate OrderlyRun(s: State, es: seq<Event>)
    decreases |es|
  {
    es == [] || (Enabled(s, es[0]) && Orderly(s, es[0]) && OrderlyRun(Step(s, es[0]), es[1..]))
  }

  lemma {:induction false} RunKeepsInv(s: State, es: seq<Event>, last: State)
    requires Inv(s) && Run(s, es, last) && OrderlyRun(s, es)
    ensures Inv(last)
    decreases |es|
  {
    if es != [] {
      StepKeepsInvIff(s, es[0]);
      RunKeepsInv(Step(s, es[0]), es[1..], last);
    }
  }

  ghost predicate CarefulRun(s: State, es: seq<Event>)
    decreases |es|
  {
    es == [] || (Enabled(s, es[0]) && Careful(s, es[0]) && CarefulRun(Step(s, es[0]), es[1..]))
  }

  lemma {:induction false} RunKeepsSafe(s: State, es: seq<Event>, last: State)
    requires Safe(s) && Run(s, es, last) && CarefulRun(s, es)
    ensures Safe(last)
    decreases |es|
  {
    if es != [] {
      StepSafeIff(s, es[0]);
      RunKeepsSafe(Step(s, es[0]), es[1..], last);
    }
  }

  /** Over every careful run, with R2Ts waiting two at a time, session errors and any
      number of recoveries from them: each command's callback runs at most once and never
      early, and a command whose callback has run is neither queued nor outstanding. */
  lemma {:induction false} AtMostOnce(es: seq<Event>, last: State, t: nat)
    requires Run(INIT, es, last) && CarefulRun(INIT, es) && t in last.cmds
    ensures last.cmds[t].callbacks <= 1 && !last.cmds[t].early
    ensures last.cmds[t].callbacks == 1 ==> t !in last.queue && t !in last.hash
  {
    assert Inv(INIT);
    InvIsSafe(INIT);
    RunKeepsSafe(INIT, es, last);
    assert SafeCmd(last, multiset(last.queue), t);
    assert t in last.queue <==> t in multiset(last.queue);
  }

  /** Over every orderly run nothing is lost: a command whose callback has not run is
      still in the session's hands, queued at most once. */
  lemma {:induction false} NothingLost(es: seq<Event>, last: State, t: nat)
    requires Run(INIT, es, last) && OrderlyRun(INIT, es) && t in last.cmds
    ensures last.cmds[t].callbacks == 0 ==> Pending(last, t)
    ensures NoDup(last.queue) && !last.failed
  {
    RunKeepsInv(INIT, es, last);
    assert CmdOk(last, t);
  }

  /** A command the tx worker starts afresh has moved no bytes: the worker's own check of
      bytes_todev cannot fail. */
  lemma {:induction false} FreshStart(s: State)
    requires Inv(s) && s.queue != []
    ensures var c := s.cmds[s.queue[0]];
            s.queue[0] in s.cmds && (c.r2tRequest == 0 ==> c.bytesToDev == 0 && c.bytesFromDev == 0)
  {
    assert Pending(s, s.queue[0]);
    assert CmdOk(s, s.queue[0]);
  }

  /** Recovery hands the next session only commands that start afresh exactly when no
      queued command was waiting to answer an R2T of the old one. */
  lemma {:induction false} FreshAfterRecoveryIff(s: State, order: seq<nat>)
    requires Inv(s) && Enabled(s, Recover(order)) && Orderly(s, Recover(order))
    ensures var s' := RecoverStep(s, order);
            (forall t :: t in s'.queue ==>
               t in s'.cmds && s'.cmds[t].r2tRequest == 0
               && s'.cmds[t].bytesToDev == 0 && s'.cmds[t].bytesFromDev == 0)
            <==> (forall t :: t in s.queue ==> s.cmds[t].r2tRequest == 0)
  {
    hide RecoverStep, Keep, Elements;
    var s' := RecoverStep(s, order);
    InvIsSafe(s);
    RecoveryConserves(s, order);
    var a, b := Keep(s.cmds, s.queue), Keep(s.cmds, order);
    KeepMembers(s.cmds, s.queue);
    KeepMembers(s.cmds, order);
    MultisetMembers(s'.queue, a + b);
    forall t | t in s'.queue
      ensures t in s'.cmds
      ensures t in s.hash ==> s'.cmds[t].r2tRequest == s'.cmds[t].bytesToDev == s'.cmds[t].bytesFromDev == 0
      ensures t in s.queue ==> s'.cmds[t] == s.cmds[t]
      ensures t in s.queue && s.cmds[t].r2tRequest == 0 ==> s.cmds[t].bytesToDev == s.cmds[t].bytesFromDev == 0
    {
      assert Pending(s, t);
      assert CmdOk(s, t);
    }
    forall t | t in s.queue
      ensures t in s'.queue || s.cmds[t].r2tRequest == 0
    {
      assert Pending(s, t);
      assert CmdOk(s, t);
    }
  }

  /** The scan of `initiator_abort` drops one entry of the command, if it finds it, and
      otherwise only rotates: what is left keeps its cyclic order. */
  lemma {:induction false} ScanIsRotation(q: seq<nat>, t: nat)
    ensures var k := IndexOf(q, t);
            var rest := if Finds(q, t) then q[..k] + q[k + 1..] else q;
            exists n :: 0 <= n <= |rest| && Scanned(q, t) == rest[n..] + rest[..n]
  {
    var k := IndexOf(q, t);
    if q == [] {
      assert Scanned(q, t) == q[0..] + q[..0];
    } else {
      var again := 1 + IndexOf(q[1..], q[0]);
      AgainIs(q, t);
      if Finds(q, t) {
        var rest := q[..k] + q[k + 1..];
        assert rest[k..] == q[k + 1..] && rest[..k] == q[..k];
        assert Scanned(q, t) == rest[k..] + rest[..k];
      } else if again < |q| {
        assert Scanned(q, t) == q[again + 1..] + q[..again + 1];
      } else {
        assert q[..1] == [q[0]];
        assert Scanned(q, t) == q[1..] + q[..1];
      }
    }
  }

  /** Without the discipline the promise is broken: a command that is answered while an
      R2T of its waits is taken up again by the tx worker and completes twice. */
  lemma {:induction false} ResponseBeforeAnswerCompletesTwice(s: State, t: nat)
    requires Inv(s) && s.fullFeature && s.sending == {} && s.queue == [t] && t in s.hash
    ensures var es := [Response(t), Take, Sent(0), Response(t)];
            exists last :: Run(s, es, last) && t in last.cmds && last.cmds[t].callbacks == 2
  {
    assert CmdOk(s, t);
    var es := [Response(t), Take, Sent(0), Response(t)];
    var s1 := Step(s, es[0]);
    var s2 := Step(s1, Take);
    assert s2.sending == {t};
    var s3 := Step(s2, Sent(0));
    var s4 := Step(s3, Response(t));
    assert es[1..] == [Take, Sent(0), Response(t)];
    assert es[1..][1..] == [Sent(0), Response(t)];
    assert es[1..][1..][1..] == [Response(t)];
    assert es[1..][1..][1..][1..] == [];
    assert Run(s4, [], s4);
    assert Run(s3, [Response(t)], s4);
    assert Run(s2, [Sent(0), Response(t)], s4);
    assert Run(s1, [Take, Sent(0), Response(t)], s4);
  }
}
