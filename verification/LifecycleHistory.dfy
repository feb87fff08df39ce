/** What the steps of a session do to a command, and what that comes to over a run. */
module LifecycleHistory {
  import opened Lifecycle
  import opened LifecycleSafety
  import opened LifecycleRecovery
  import opened LifecycleTheorems

  // ----- before the full-feature phase

  /** Until login is through, a SCSI command or a NOP-Out at the head of the queue goes back
      to its end; nothing of it is hashed or sent. */
  lemma {:induction false} TakeWaits(s: State)
    requires Enabled(s, Take) && !s.fullFeature
    requires s.cmds[s.queue[0]].kind.Scsi? || s.cmds[s.queue[0]].kind.NopOut?
    ensures Step(s, Take) == s.(queue := s.queue[1..] + [s.queue[0]])
  {
  }

  /** Every command that goes to the tx worker while the session is not in full-feature
      phase is one of login, text and logout. */
  ghost predicate LoginFirst(s: State, es: seq<Event>)
    decreases |es|
  {
    if es == [] then true
    else
      && Enabled(s, es[0])
      && (forall t :: t in Step(s, es[0]).sending && t !in s.sending && !s.fullFeature ==>
            t in s.cmds && (s.cmds[t].kind == Login || s.cmds[t].kind == Text || s.cmds[t].kind == Logout))
      && LoginFirst(Step(s, es[0]), es[1..])
  }

  /** Recovery sends nothing, keeps the commands and their kinds, and runs the callbacks of
      session commands only. */
  ghost predicate Inherits(s: State, s': State) {
    && s'.sending == s.sending && s'.cmds.Keys == s.cmds.Keys
    && forall t :: t in s.cmds ==>
         s'.cmds[t].kind == s.cmds[t].kind
         && (!IsSession(s.cmds[t].kind) ==> s'.cmds[t].callbacks == s.cmds[t].callbacks)
  }

  lemma {:induction false} AbortInherits(s: State, t: nat)
    requires t in s.cmds && IsSession(s.cmds[t].kind)
    ensures Inherits(s, AbortStep(s, t))
  {
    hide Scanned;
  }

  lemma {:induction false} DrainInherits(s: State, kept: seq<nat>)
    ensures Inherits(s, Drain(s, kept).0)
    decreases |s.queue|
  {
    hide AbortStep;
    if s.queue != [] {
      var t := s.queue[0];
      var s1 := s.(queue := s.queue[1..]);
      if t in s.cmds && IsSession(s.cmds[t].kind) {
        AbortInherits(s1, t);
        QueueShrinks(s1, t);
        DrainInherits(AbortStep(s1, t), kept);
      } else {
        DrainInherits(s1, kept + [t]);
      }
    }
  }

  lemma {:induction false} QueueShrinks(s: State, t: nat)
    requires t in s.cmds
    ensures |AbortStep(s, t).queue| <= |s.queue|
  {
    hide Scanned;
  }

  lemma {:induction false} RequeueInherits(s: State, order: seq<nat>)
    ensures Inherits(s, Requeue(s, order))
    decreases |order|
  {
    hide AbortStep;
    if order != [] && !s.failed {
      var t := order[0];
      var s1 := s.(hash := s.hash - {t});
      if t !in s.cmds {
        RequeueInherits(s1, order[1..]);
      } else if IsSession(s.cmds[t].kind) {
        AbortInherits(s1, t);
        RequeueInherits(AbortStep(s1, t), order[1..]);
      } else if |s.queue| < QUEUE_DEPTH {
        RequeueInherits(s1.(queue := s.queue + [t], cmds := s.cmds[t := Reset(s.cmds[t])]), order[1..]);
      }
    }
  }

  lemma {:induction false} RecoverInherits(s: State, order: seq<nat>)
    ensures Inherits(s.(sending := {}), RecoverStep(s, order))
  {
    hide Drain, Requeue;
    var s0 := s.(sending := {}, failed := false);
    DrainInherits(s0, []);
    var (s1, kept) := Drain(s0, []);
    RequeueInherits(s1.(queue := kept), order);
  }

  lemma {:induction false} NothingNewSent(s: State, e: Event)
    requires Enabled(s, e) && e != Take
    ensures forall t :: t in Step(s, e).sending ==> t in s.sending
  {
    hide Scanned, RecoverStep;
    match e
    case Recover(order) => RecoverInherits(s, order);
    case _ =>
  }

  /** Over every run, from any state: only session commands are sent before login is
      through. */
  lemma {:induction false} RunsLoginFirst(s: State, es: seq<Event>, last: State)
    requires Run(s, es, last)
    ensures LoginFirst(s, es)
    decreases |es|
  {
    if es != [] {
      if es[0] != Take {
        NothingNewSent(s, es[0]);
      }
      RunsLoginFirst(Step(s, es[0]), es[1..], last);
    }
  }

  // ----- what the other steps do

  /** What goes out is hashed and out of the queue; an aborted command is hashed only. */
  lemma {:induction false} TakeSends(s: State)
    requires Enabled(s, Take)
    requires var k := s.cmds[s.queue[0]].kind; s.fullFeature || k == Login || k == Text || k == Logout
    ensures var t := s.queue[0];
            var s' := Step(s, Take);
            && s'.queue == s.queue[1..] && s'.hash == s.hash + {t} && s'.fullFeature == s.fullFeature
            && (s.cmds[t].aborted ==> s'.sending == {} && s'.cmds == s.cmds)
            && (!s.cmds[t].aborted ==> s'.sending == {t} && s'.cmds == s.cmds[t := s.cmds[t].(txDone := false)])
  {
  }

  /** An R2T is counted; a third one waiting breaks the session; after the last one the
      command is not in the hash any more. */
  lemma {:induction false} R2tCounted(s: State, t: nat, last: bool)
    requires Enabled(s, R2t(t, last))
    ensures var s' := Step(s, R2t(t, last));
            && s'.cmds[t].r2tRequest == s.cmds[t].r2tRequest + 1
            && (s'.failed <==> s.cmds[t].r2tRequest >= 2 || |s.queue| >= 64)
            && (s.cmds[t].r2tRequest >= 2 ==> s'.queue == s.queue && s'.hash == s.hash)
            && (s.cmds[t].r2tRequest <= 1 ==>
                  (t in s'.hash <==> !last) && (forall x :: x != t ==> (x in s'.hash <==> x in s.hash)))
            && (!s'.failed ==> s'.queue == s.queue + [t])
  {
  }

  /** When a command has been sent: one R2T less to answer, its bytes counted, tx_done set;
      a NOP-Out without ping is complete instead. */
  lemma {:induction false} SentReported(s: State, t: nat, bytes: nat)
    requires Enabled(s, Sent(bytes)) && s.sending == {t}
    ensures t in s.cmds
    ensures var c, c' := s.cmds[t], Step(s, Sent(bytes)).cmds[t];
            && Step(s, Sent(bytes)).sending == {} && Step(s, Sent(bytes)).queue == s.queue
            && (c.kind == NopOut(false) && (t in s.hash || c.aborted) ==>
                  c'.callbacks == c.callbacks + 1 && t !in Step(s, Sent(bytes)).hash)
            && (c.kind == NopOut(false) && t !in s.hash && !c.aborted ==>
                  c' == c && Step(s, Sent(bytes)).hash == s.hash)
            && (c.kind != NopOut(false) ==> c'.txDone && c'.callbacks == c.callbacks && Step(s, Sent(bytes)).hash == s.hash)
            && (c.kind.Scsi? ==> c'.bytesToDev == c.bytesToDev + bytes
                                 && c'.r2tRequest == if c.r2tRequest == 0 then 0 else c.r2tRequest - 1)
  {
    var u :| s.sending == {u} && u in s.cmds && Step(s, Sent(bytes)) == SentStep(s, u, bytes);
    assert u in s.sending;
    assert u == t;
  }

  /** Data that arrives is counted, and nothing else changes. */
  lemma {:induction false} DataInCounted(s: State, t: nat, bytes: nat)
    requires Enabled(s, DataIn(t, bytes))
    ensures var c' := Step(s, DataIn(t, bytes)).cmds[t];
            && c'.bytesFromDev == s.cmds[t].bytesFromDev + bytes && c' == s.cmds[t].(bytesFromDev := c'.bytesFromDev)
            && Step(s, DataIn(t, bytes)) == s.(cmds := s.cmds[t := c'])
  {
  }

  /** A new command is queued with nothing done, unless the queue of 64 is full. */
  lemma {:induction false} EnqueuedFresh(s: State, t: nat, k: Kind)
    requires Enabled(s, Enqueue(t, k))
    ensures var s' := Step(s, Enqueue(t, k));
            if |s.queue| < 64 then
              s' == s.(queue := s.queue + [t], cmds := s.cmds[t := Cmd(k, 0, false, false, false, 0, 0, 0)])
            else s' == s
  {
  }

  /** An abort marks the command, completes it and takes it out of the hash. */
  lemma {:induction false} AbortCompletes(s: State, t: nat)
    requires Enabled(s, Abort(t))
    ensures var s' := Step(s, Abort(t));
            && s'.cmds[t].aborted && s'.cmds[t].callbacks == s.cmds[t].callbacks + 1
            && t !in s'.hash && (forall x :: x != t ==> (x in s'.hash <==> x in s.hash))
            && s'.sending == s.sending && s'.cmds.Keys == s.cmds.Keys
            && (forall x :: x in s.cmds && x != t ==> s'.cmds[x] == s.cmds[x])
  {
  }

  /** After a recovery that does not overflow: what was outstanding starts over, queued;
      session commands are aborted and complete; what was only queued is as it was. */
  lemma {:induction false} RecoveredAfresh(s: State, order: seq<nat>, t: nat)
    requires Safe(s) && Enabled(s, Recover(order)) && !Step(s, Recover(order)).failed && t in s.cmds
    ensures var c := s.cmds[t];
            var s' := Step(s, Recover(order));
            var session := c.kind == Login || c.kind == Text || c.kind == Logout;
            && t in s'.cmds && !s'.fullFeature && s'.sending == {} && s'.hash == {}
            && (!session && t in s.hash ==>
                  var c' := s'.cmds[t];
                  && t in s'.queue && c'.kind == c.kind && c'.callbacks == c.callbacks
                  && c'.r2tRequest == 0 && !c'.txDone && !c'.aborted
                  && (if c.kind.Scsi? then c'.bytesToDev == 0 && c'.bytesFromDev == 0
                      else c'.bytesToDev == c.bytesToDev && c'.bytesFromDev == c.bytesFromDev))
            && (!session && t !in s.hash ==> s'.cmds[t] == c && (t in s'.queue <==> t in s.queue))
            && (session && (t in s.queue || t in s.hash) ==>
                  t !in s'.queue && s'.cmds[t].aborted && s'.cmds[t].callbacks == c.callbacks + 1)
  {
    hide RecoverStep, Keep;
    var s' := RecoverStep(s, order);
    RecoveryConserves(s, order);
    var a, b := Keep(s.cmds, s.queue), Keep(s.cmds, order);
    KeepMembers(s.cmds, s.queue);
    KeepMembers(s.cmds, order);
    MultisetMembers(s'.queue, a + b);
    assert t in a + b <==> t in a || t in b;
  }

  // ----- how often a callback runs

  function Completions(es: seq<Event>, t: nat): nat {
    if es == [] then 0
    else (if es[0] == Response(t) || es[0] == Abort(t) then 1 else 0) + Completions(es[1..], t)
  }

  /** Answered by a response, never given up with the session. */
  predicate Answerable(k: Kind) {
    k == Kind.Scsi || k == NopOut(true)
  }

  lemma {:induction false} StepHistory(s: State, e: Event, t: nat)
    requires Enabled(s, e) && t in s.cmds && Answerable(s.cmds[t].kind)
    ensures var s' := Step(s, e);
            && t in s'.cmds && s'.cmds[t].kind == s.cmds[t].kind
            && s'.cmds[t].callbacks == s.cmds[t].callbacks + Completions([e], t)
  {
    hide Scanned, RecoverStep;
    assert [e][1..] == [];
    match e
    case Recover(order) => RecoverInherits(s, order);
    case _ =>
  }

  lemma {:induction false} NewHistory(s: State, e: Event, t: nat)
    requires Enabled(s, e) && t !in s.cmds
    ensures e != Response(t) && e != Abort(t)
    ensures t in Step(s, e).cmds ==> Step(s, e).cmds[t].callbacks == 0
  {
    hide Scanned, RecoverStep;
    match e
    case Recover(order) => RecoverInherits(s, order);
    case _ =>
  }

  /** Over every run, careful or not: the callback of a SCSI command or a ping runs exactly
      as often as a response to it, or an abort of it, has been dealt with; recoveries run
      none. */
  lemma {:induction false} CallbacksCounted(s: State, es: seq<Event>, last: State, t: nat)
    requires Run(s, es, last) && t in last.cmds && Answerable(last.cmds[t].kind)
    ensures last.cmds[t].callbacks == (if t in s.cmds then s.cmds[t].callbacks else 0) + Completions(es, t)
    decreases |es|
  {
    if es != [] {
      var s' := Step(s, es[0]);
      CallbacksCounted(s', es[1..], last, t);
      if t in s'.cmds { KindKept(s', es[1..], last, t); }
      hide Step, Run;
      assert [es[0]][1..] == [];
      if t in s.cmds {
        StepKind(s, es[0], t);
        StepHistory(s, es[0], t);
      } else {
        NewHistory(s, es[0], t);
      }
    }
  }

  lemma {:induction false} StepKind(s: State, e: Event, t: nat)
    requires Enabled(s, e) && t in s.cmds
    ensures t in Step(s, e).cmds && Step(s, e).cmds[t].kind == s.cmds[t].kind
  {
    hide Scanned, RecoverStep;
    match e
    case Recover(order) => RecoverInherits(s, order);
    case _ =>
  }

  lemma {:induction false} KindKept(s: State, es: seq<Event>, last: State, t: nat)
    requires Run(s, es, last) && t in s.cmds
    ensures t in last.cmds && last.cmds[t].kind == s.cmds[t].kind
    decreases |es|
  {
    if es != [] {
      StepKind(s, es[0], t);
      KindKept(Step(s, es[0]), es[1..], last, t);
    }
  }
}
