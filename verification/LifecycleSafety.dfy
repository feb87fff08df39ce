/** No callback runs twice or too early: the invariant that says so, kept also while R2Ts
    wait two at a time, after a session error, and by recovery from any such state. */
module LifecycleSafety {
  import opened Lifecycle
  import opened LifecycleProofs

  /** In the hands of the queue, `m` being what it holds, the hash or the tx worker. */
  predicate Held(s: State, m: multiset<nat>, t: nat) {
    t in m || t in s.hash || t in s.sending
  }

  ghost predicate SafeCmd(s: State, m: multiset<nat>, t: nat)
    requires t in s.cmds
  {
    var c := s.cmds[t];
    && c.callbacks <= 1 && !c.early
    && (c.callbacks == 0 ==> !c.aborted)
    && (c.callbacks == 1 ==>
          t !in m && t !in s.hash && (t in s.sending ==> c.aborted && c.kind != NopOut(false)))
    && (t in s.sending ==> (t in s.hash || c.aborted) && !c.txDone)
    && (!c.kind.Scsi? ==> m[t] <= 1 && (t in m ==> t !in s.hash && t !in s.sending))
  }

  ghost predicate SafeIn(s: State, m: multiset<nat>) {
    && |s.sending| <= 1
    && (forall t :: Held(s, m, t) ==> t in s.cmds)
    && (forall t :: t in s.cmds ==> SafeCmd(s, m, t))
  }

  /** A SCSI command may be queued twice, and queued while it is outstanding. */
  ghost predicate Safe(s: State) {
    SafeIn(s, multiset(s.queue)) && |s.queue| <= QUEUE_DEPTH
  }

  /** All that is asked: no response overtakes the answer to an R2T, and an abort is of a
      command that is not complete, is not a NOP-Out without ping being sent, and is
      found by the scan. */
  predicate Careful(s: State, e: Event) {
    match e
    case Response(t) => t !in s.queue
    case Abort(t) =>
      && t in s.cmds && s.cmds[t].callbacks == 0
      && !(t in s.sending && s.cmds[t].kind == NopOut(false))
      && t !in Scanned(s.queue, t)
    case _ => true
  }

  /** Holding less is no less safe, however the queue is arranged. */
  lemma {:induction false} LessSafe(s: State, s': State, m: multiset<nat>, m': multiset<nat>)
    requires SafeIn(s, m) && m' <= m
    requires s'.hash == s.hash && s'.cmds == s.cmds && s'.sending == s.sending
    ensures SafeIn(s', m')
  {
    forall t | t in s'.cmds ensures SafeCmd(s', m', t) {
      assert SafeCmd(s, m, t);
    }
    forall t | Held(s', m', t) ensures t in s'.cmds {
      assert Held(s, m, t);
    }
  }

  // ----- the steps of the workers

  lemma {:induction false} EnqueueSafe(s: State, t: nat, k: Kind)
    requires Safe(s) && t !in s.cmds
    ensures Safe(EnqueueStep(s, t, k))
  {
    var s' := EnqueueStep(s, t, k);
    var m, m' := multiset(s.queue), multiset(s'.queue);
    assert !Held(s, m, t);
    forall x | x in s'.cmds ensures SafeCmd(s', m', x) {
      if x != t { assert SafeCmd(s, m, x); }
    }
    forall x | Held(s', m', x) ensures x in s'.cmds {
      assert x == t || Held(s, m, x);
    }
  }

  lemma {:induction false} TakeSafe(s: State)
    requires Safe(s) && s.sending == {} && s.queue != [] && s.queue[0] in s.cmds
    ensures Safe(TakeStep(s))
  {
    var t := s.queue[0];
    var m := multiset(s.queue);
    assert s.queue == [t] + s.queue[1..];
    assert t in m;
    assert SafeCmd(s, m, t);
    if !s.fullFeature && !IsSession(s.cmds[t].kind) {
      assert multiset(s.queue[1..] + [t]) == m;
      LessSafe(s, TakeStep(s), m, m);
    } else {
      TakenSafe(s, t, s.queue[1..]);
    }
  }

  /** The head of the queue is hashed and goes to the tx worker. */
  lemma {:induction false} TakenSafe(s: State, t: nat, rest: seq<nat>)
    requires Safe(s) && s.sending == {} && s.queue == [t] + rest && t in s.cmds
    ensures Safe(s.(queue := rest, hash := s.hash + {t}, cmds := s.cmds[t := s.cmds[t].(txDone := false)], sending := {t}))
  {
    var s' := s.(queue := rest, hash := s.hash + {t}, cmds := s.cmds[t := s.cmds[t].(txDone := false)], sending := {t});
    var m, m' := multiset(s.queue), multiset(rest);
    assert m == multiset{t} + m';
    assert SafeCmd(s, m, t);
    forall x | x in s'.cmds ensures SafeCmd(s', m', x) {
      assert SafeCmd(s, m, x);
    }
    forall x | Held(s', m', x) ensures x in s'.cmds {
      assert Held(s, m, x);
    }
  }

  lemma {:induction false} SentSafe(s: State, t: nat, bytes: nat)
    requires Safe(s) && s.sending == {t} && t in s.cmds
    ensures Safe(SentStep(s, t, bytes))
  {
    var s' := SentStep(s, t, bytes);
    var m := multiset(s.queue);
    assert SafeCmd(s, m, t);
    forall x | x in s'.cmds ensures SafeCmd(s', m, x) {
      assert SafeCmd(s, m, x);
    }
    forall x | Held(s', m, x) ensures x in s'.cmds {
      assert Held(s, m, x);
    }
  }

  lemma {:induction false} DataInSafe(s: State, t: nat, bytes: nat)
    requires Safe(s) && t in s.cmds
    ensures Safe(DataInStep(s, t, bytes))
  {
    var s' := DataInStep(s, t, bytes);
    var m := multiset(s.queue);
    forall x | x in s'.cmds ensures SafeCmd(s', m, x) {
      assert SafeCmd(s, m, x);
    }
    forall x | Held(s', m, x) ensures x in s'.cmds {
      assert Held(s, m, x);
    }
  }

  /** An R2T counted, taken out of the hash if it is the last, and queued if there is room. */
  lemma {:induction false} CountedSafe(s: State, t: nat, hash: set<nat>, queued: bool, failed: bool)
    requires Safe(s) && Enabled(s, R2t(t, false)) && (hash == s.hash || hash == s.hash - {t})
    requires queued ==> |s.queue| < QUEUE_DEPTH
    ensures var c := s.cmds[t];
            Safe(s.(cmds := s.cmds[t := c.(r2tRequest := c.r2tRequest + 1)], hash := hash, failed := failed,
                    queue := if queued then s.queue + [t] else s.queue))
  {
    var c := s.cmds[t];
    var s' := s.(cmds := s.cmds[t := c.(r2tRequest := c.r2tRequest + 1)], hash := hash, failed := failed,
                 queue := if queued then s.queue + [t] else s.queue);
    var m, m' := multiset(s.queue), multiset(s'.queue);
    assert SafeCmd(s, m, t);
    forall x | x in s'.cmds ensures SafeCmd(s', m', x) {
      assert SafeCmd(s, m, x);
    }
    forall x | Held(s', m', x) ensures x in s'.cmds {
      assert x == t || Held(s, m, x);
    }
  }

  lemma {:induction false} R2tSafe(s: State, t: nat, last: bool)
    requires Safe(s) && Enabled(s, R2t(t, last))
    ensures Safe(R2tStep(s, t, last))
  {
    hide Safe;
    CountedSafe(s, t, s.hash, false, true);
    if s.cmds[t].r2tRequest <= 1 {
      var room := |s.queue| < QUEUE_DEPTH;
      CountedSafe(s, t, if last then s.hash - {t} else s.hash, room, !room);
    }
  }

  lemma {:induction false} ResponseSafeIff(s: State, t: nat)
    requires Safe(s) && Enabled(s, Response(t))
    ensures Safe(Done(s, t)) <==> Careful(s, Response(t))
  {
    var s' := Done(s, t);
    var m := multiset(s.queue);
    assert SafeCmd(s, m, t);
    assert t in s.queue <==> t in m;
    if t !in s.queue {
      forall x | x in s'.cmds ensures SafeCmd(s', m, x) {
        assert SafeCmd(s, m, x);
      }
      forall x | Held(s', m, x) ensures x in s'.cmds {
        assert Held(s, m, x);
      }
    } else {
      assert !SafeCmd(s', m, t);
    }
  }

  /** An abort, of a queue whose content is `m` together with what is set aside in `kept`. */
  lemma {:induction false} AbortSafe(s: State, t: nat, kept: multiset<nat>)
    requires t in s.cmds && SafeIn(s, multiset(s.queue) + kept)
    requires s.cmds[t].callbacks == 0 && !(t in s.sending && s.cmds[t].kind == NopOut(false))
    requires t !in Scanned(s.queue, t) && t !in kept
    ensures SafeIn(AbortStep(s, t), multiset(AbortStep(s, t).queue) + kept)
  {
    var s' := AbortStep(s, t);
    var m, m' := multiset(s.queue) + kept, multiset(s'.queue) + kept;
    ScannedMembers(s.queue, t);
    hide Scanned;
    assert s'.queue == Scanned(s.queue, t);
    assert t !in m';
    forall x | x in s'.cmds ensures SafeCmd(s', m', x) {
      assert SafeCmd(s, m, x);
      assert x != t ==> m'[x] == m[x];
    }
    forall x | Held(s', m', x) ensures x in s'.cmds {
      assert m'[x] <= m[x];
      assert Held(s, m, x);
    }
  }

  lemma {:induction false} AbortSafeIff(s: State, t: nat)
    requires Safe(s) && t in s.cmds
    ensures Safe(AbortStep(s, t)) <==> Careful(s, Abort(t))
  {
    var s' := AbortStep(s, t);
    var m := multiset(s.queue);
    assert m + multiset{} == m && multiset(s'.queue) + multiset{} == multiset(s'.queue);
    assert SafeCmd(s, m, t);
    if Careful(s, Abort(t)) {
      AbortSafe(s, t, multiset{});
    } else {
      hide Scanned;
      assert s'.queue == Scanned(s.queue, t);
      assert t in s'.queue <==> t in multiset(s'.queue);
      assert !SafeCmd(s', multiset(s'.queue), t);
    }
  }

  // ----- recovery

  /** A session command at the head of the queue is aborted. */
  lemma {:induction false} HeadAbortSafe(s: State, t: nat, rest: seq<nat>, kept: multiset<nat>)
    requires s.queue == [t] + rest && s.sending == {} && SafeIn(s, multiset(s.queue) + kept)
    requires t in s.cmds && !s.cmds[t].kind.Scsi?
    ensures var s2 := AbortStep(s.(queue := rest), t);
            SafeIn(s2, multiset(s2.queue) + kept)
  {
    var s1 := s.(queue := rest);
    var m := multiset(s.queue) + kept;
    assert multiset(s.queue) == multiset{t} + multiset(rest);
    assert SafeCmd(s, m, t) && t in m;
    assert t in rest <==> t in multiset(rest);
    ScanMissesIff(rest, t);
    LessSafe(s, s1, m, multiset(rest) + kept);
    AbortSafe(s1, t, kept);
  }

  /** The first loop, with what it has set aside. */
  lemma {:induction false} DrainSafe(s: State, kept: seq<nat>)
    requires SafeIn(s, multiset(s.queue) + multiset(kept)) && s.sending == {}
    ensures var r := Drain(s, kept);
            && SafeIn(r.0, multiset(r.1)) && r.0.queue == [] && r.0.sending == {}
            && r.0.hash <= s.hash && r.0.failed == s.failed && |r.1| <= |s.queue| + |kept|
    decreases |s.queue|
  {
    hide Scanned, SafeIn;
    if s.queue == [] {
      assert multiset(s.queue) + multiset(kept) == multiset(kept);
    } else {
      var t, rest := s.queue[0], s.queue[1..];
      var s1 := s.(queue := rest);
      var m := multiset(s.queue) + multiset(kept);
      assert s.queue == [t] + rest;
      InCmds(s, m, t);
      if IsSession(s.cmds[t].kind) {
        HeadAbortSafe(s, t, rest, multiset(kept));
        DrainSafe(AbortStep(s1, t), kept);
      } else {
        assert multiset(rest) + multiset(kept + [t]) == m;
        LessSafe(s, s1, m, m);
        DrainSafe(s1, kept + [t]);
      }
    }
  }

  lemma {:induction false} InCmds(s: State, m: multiset<nat>, t: nat)
    requires SafeIn(s, m) && (t in m || t in s.hash)
    ensures t in s.cmds
  {
    assert Held(s, m, t);
  }

  ghost predicate Outstanding(s: State, order: seq<nat>) {
    NoDup(order) && forall i :: 0 <= i < |order| ==> order[i] in s.hash
  }

  /** One turn of the third loop over a command that outlives the session. */
  lemma {:induction false} RequeueOneSafe(s: State, t: nat, queued: bool)
    requires Safe(s) && s.sending == {} && t in s.hash && t in s.cmds
    requires queued ==> |s.queue| < QUEUE_DEPTH
    ensures var s' := s.(hash := s.hash - {t}, cmds := s.cmds[t := Reset(s.cmds[t])],
                         queue := if queued then s.queue + [t] else s.queue, failed := !queued);
            Safe(s')
  {
    var s' := s.(hash := s.hash - {t}, cmds := s.cmds[t := Reset(s.cmds[t])],
                 queue := if queued then s.queue + [t] else s.queue, failed := !queued);
    var m, m' := multiset(s.queue), multiset(s'.queue);
    assert SafeCmd(s, m, t);
    forall x | x in s'.cmds ensures SafeCmd(s', m', x) {
      assert SafeCmd(s, m, x);
    }
    forall x | Held(s', m', x) ensures x in s'.cmds {
      assert x == t || Held(s, m, x);
    }
  }

  /** One turn over a session command. */
  lemma {:induction false} RequeueAbortSafe(s: State, t: nat)
    requires Safe(s) && s.sending == {} && t in s.hash && t in s.cmds && !s.cmds[t].kind.Scsi?
    ensures Safe(AbortStep(s.(hash := s.hash - {t}), t))
  {
    var s1 := s.(hash := s.hash - {t});
    var m := multiset(s.queue);
    assert SafeCmd(s, m, t);
    assert t in s.queue <==> t in m;
    ScanMissesIff(s.queue, t);
    forall x | x in s1.cmds ensures SafeCmd(s1, m, x) {
      assert SafeCmd(s, m, x);
    }
    forall x | Held(s1, m, x) ensures x in s1.cmds {
      assert Held(s, m, x);
    }
    AbortSafeIff(s1, t);
  }

  lemma {:induction false} OutstandingTail(s: State, order: seq<nat>, s': State)
    requires Outstanding(s, order) && order != [] && s'.hash == s.hash - {order[0]}
    ensures Outstanding(s', order[1..])
  {
    forall i | 0 <= i < |order[1..]| ensures order[1..][i] in s'.hash {
      assert order[1..][i] == order[i + 1] && order[0] != order[i + 1];
    }
  }

  /** The third loop, overflow included. */
  lemma {:induction false} RequeueSafe(s: State, order: seq<nat>)
    requires Safe(s) && s.sending == {} && Outstanding(s, order)
    ensures Safe(Requeue(s, order))
    decreases |order|
  {
    hide Scanned, SafeIn, Outstanding;
    if order != [] && !s.failed {
      var t := order[0];
      assert t in s.hash by { InHash(s, order); }
      InCmds(s, multiset(s.queue), t);
      var s1 := s.(hash := s.hash - {t});
      if IsSession(s.cmds[t].kind) {
        RequeueAbortSafe(s, t);
        HashAfterAbort(s1, t);
        OutstandingTail(s, order, AbortStep(s1, t));
        RequeueSafe(AbortStep(s1, t), order[1..]);
      } else {
        var room := |s.queue| < QUEUE_DEPTH;
        RequeueOneSafe(s, t, room);
        if room {
          var s2 := s1.(queue := s.queue + [t], cmds := s.cmds[t := Reset(s.cmds[t])]);
          OutstandingTail(s, order, s2);
          RequeueSafe(s2, order[1..]);
        }
      }
    }
  }

  lemma {:induction false} InHash(s: State, order: seq<nat>)
    requires Outstanding(s, order) && order != []
    ensures order[0] in s.hash
  {
  }

  lemma {:induction false} HashAfterAbort(s: State, t: nat)
    requires t in s.cmds && t !in s.hash
    ensures AbortStep(s, t).hash == s.hash && AbortStep(s, t).sending == s.sending
  {
    hide Scanned;
    assert s.hash - {t} == s.hash;
  }

  lemma {:induction false} DrainHash(s: State, kept: seq<nat>)
    requires SafeIn(s, multiset(s.queue) + multiset(kept)) && s.sending == {}
    ensures Drain(s, kept).0.hash == s.hash
    decreases |s.queue|
  {
    hide Scanned, SafeIn;
    if s.queue != [] {
      var t, rest := s.queue[0], s.queue[1..];
      var s1 := s.(queue := rest);
      var m := multiset(s.queue) + multiset(kept);
      assert s.queue == [t] + rest;
      InCmds(s, m, t);
      if IsSession(s.cmds[t].kind) {
        HeadAbortSafe(s, t, rest, multiset(kept));
        ApartFromHash(s, m, t);
        HashAfterAbort(s1, t);
        DrainHash(AbortStep(s1, t), kept);
      } else {
        assert multiset(rest) + multiset(kept + [t]) == m;
        LessSafe(s, s1, m, m);
        DrainHash(s1, kept + [t]);
      }
    }
  }

  lemma {:induction false} ApartFromHash(s: State, m: multiset<nat>, t: nat)
    requires SafeIn(s, m) && t in s.cmds && !s.cmds[t].kind.Scsi? && t in m
    ensures t !in s.hash
  {
    assert SafeCmd(s, m, t);
  }

  lemma {:induction false} RecoverSafe(s: State, order: seq<nat>)
    requires Safe(s) && Enabled(s, Recover(order))
    ensures Safe(RecoverStep(s, order))
  {
    var s0 := s.(sending := {}, failed := false);
    var m := multiset(s.queue);
    forall t | t in s0.cmds ensures SafeCmd(s0, m, t) {
      assert SafeCmd(s, m, t);
    }
    forall t | Held(s0, m, t) ensures t in s0.cmds {
      assert Held(s, m, t);
    }
    assert m + multiset([]) == m;
    DrainSafe(s0, []);
    DrainHash(s0, []);
    var (s1, kept) := Drain(s0, []);
    var s2 := s1.(queue := kept);
    LessSafe(s1, s2, multiset(kept), multiset(kept));
    RequeueSafe(s2, order);
    var s3 := Requeue(s2, order);
    LessSafe(s3, s3.(fullFeature := false), multiset(s3.queue), multiset(s3.queue));
  }

  // ----- every step, every run

  /** Every step keeps safety exactly when it is careful; recovery always does. */
  lemma {:induction false} StepSafeIff(s: State, e: Event)
    requires Safe(s) && Enabled(s, e)
    ensures Safe(Step(s, e)) <==> Careful(s, e)
  {
    hide Scanned;
    match e
    case Enqueue(t, k) => EnqueueSafe(s, t, k);
    case LoggedIn => LessSafe(s, s.(fullFeature := true), multiset(s.queue), multiset(s.queue));
    case Take => TakeSafe(s);
    case Sent(bytes) =>
      var t :| s.sending == {t} && t in s.cmds;
      SentSafe(s, t, bytes);
    case DataIn(t, bytes) => DataInSafe(s, t, bytes);
    case R2t(t, last) => R2tSafe(s, t, last);
    case Response(t) => ResponseSafeIff(s, t);
    case Abort(t) => AbortSafeIff(s, t);
    case Recover(order) => RecoverSafe(s, order);
  }

  /** The stricter invariant of the orderly runs includes this one. */
  lemma {:induction false} InvIsSafe(s: State)
    requires Inv(s)
    ensures Safe(s)
  {
    var m := multiset(s.queue);
    NoDupMultiset(s.queue);
    forall t | t in s.cmds ensures SafeCmd(s, m, t) {
      assert CmdOk(s, t);
      assert t in m <==> t in s.queue;
      if !s.cmds[t].kind.Scsi? && t in s.queue { SingleKind(s, t); }
    }
    forall t | Held(s, m, t) ensures t in s.cmds {
      assert t in m <==> t in s.queue;
      assert Pending(s, t);
    }
  }

  /** Only a SCSI command can be queued and outstanding at once. */
  lemma {:induction false} SingleKind(s: State, t: nat)
    requires Inv(s) && t in s.cmds && !s.cmds[t].kind.Scsi? && t in s.queue
    ensures t !in s.hash && t !in s.sending
  {
    assert CmdOk(s, t);
  }
}
