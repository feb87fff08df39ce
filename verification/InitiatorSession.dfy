/** The code of initiator.c that changes the tx queue, the hash and the commands, proved
    against the steps of Lifecycle. */
module InitiatorSession {
  import opened Sequences
  import opened Lifecycle
  import opened LifecycleSafety
  import opened LifecycleRecovery
  import opened LifecycleTheorems
  import opened Completion

  /** Session commands transfer nothing. */
  const NOTHING := Wanted(false, false, 0, 0)

  class Session {
    var queue: seq<nat>        // g_tx_queue
    var hash: set<nat>         // g_cmd_hash
    var cmds: map<nat, Cmd>
    var sending: set<nat>      // what the tx worker is executing
    var fullFeature: bool
    var failed: bool           // SESSION_STATE_ERROR raised inside a step

    constructor ()
      ensures St() == INIT && Inv(St())
    {
      queue, hash, cmds, sending, fullFeature, failed := [], {}, map[], {}, false, false;
    }

    ghost function St(): State
      reads this
    {
      State(queue, hash, cmds, sending, fullFeature, failed)
    }

    /** `iscsi_queue_insert` */
    method QueueInsert(t: nat) returns (ok: bool)
      modifies this`queue
      ensures ok <==> |old(queue)| < QUEUE_DEPTH
      ensures queue == if ok then old(queue) + [t] else old(queue)
    {
      ok := |queue| < QUEUE_DEPTH;
      if ok { queue := queue + [t]; }
    }

    /** `iscsi_queue_remove` */
    method QueueRemove() returns (t: nat)
      requires queue != []
      modifies this`queue
      ensures t == old(queue)[0] && queue == old(queue)[1..]
    {
      t := queue[0];
      queue := queue[1..];
    }

    /** `initiator_enqueue` */
    method EnqueueCmd(t: nat, k: Kind) returns (ok: bool)
      requires t !in cmds
      modifies this`queue, this`cmds
      ensures St() == EnqueueStep(old(St()), t, k)
      ensures ok <==> |old(queue)| < QUEUE_DEPTH
    {
      ok := QueueInsert(t);
      if ok { cmds := cmds[t := FreshCmd(k)]; }
    }

    /** `iscsi_done_i`; `given` is the status the command comes with, `status` the one its
        callback sees. */
    method DoneCmd(t: nat, wanted: Wanted, given: int) returns (ok: bool, status: int)
      requires t in cmds
      modifies this`hash, this`cmds
      ensures St() == Done(old(St()), t)
      ensures ok <==> t in old(hash) || old(cmds[t].aborted)
      ensures status == if ok then Checked(old(cmds[t]), wanted, given) else given
      ensures old(cmds[t].aborted || !cmds[t].kind.Scsi?) ==> status == given
      ensures ok && old(!cmds[t].aborted && cmds[t].kind.Scsi?) ==>
                var todev, fromdev := old(cmds[t].bytesToDev), old(cmds[t].bytesFromDev);
                && (wanted.fromDev && !wanted.toDev ==> status == given)
                && (given == 0 && wanted.toDev && wanted.fromDev ==>
                      (status == 0 <==> todev == wanted.transLen && fromdev == wanted.bidiTransLen))
                && (given == 0 && wanted.toDev && !wanted.fromDev ==> (status == 0 <==> todev == wanted.transLen))
                && (given == 0 && !wanted.toDev && !wanted.fromDev ==> (status == 0 <==> todev == 0 && fromdev == 0))
                && (status == given || status == -1)
    {
      status := given;
      var removed := t in hash;
      hash := hash - {t};
      var c := cmds[t];
      if !removed && !c.aborted {
        assert hash == old(hash);
        return false, status;
      }
      if !c.aborted && c.kind.Scsi? {
        if wanted.fromDev && wanted.toDev {
          if c.bytesToDev != wanted.transLen { status := -1; }
          if c.bytesFromDev != wanted.bidiTransLen { status := -1; }
        } else if wanted.fromDev {
          // a warning
        } else if wanted.toDev {
          if c.bytesToDev != wanted.transLen { status := -1; }
        } else {
          if c.bytesToDev != 0 { status := -1; }
          if c.bytesFromDev != 0 { status := -1; }
        }
      }
      var early := c.early || !(c.txDone || c.aborted || c.kind == NopOut(false));
      cmds := cmds[t := c.(callbacks := c.callbacks + 1, early := early)];
      ok := true;
    }

    /** `initiator_abort`: rotate through the queue until the command or the first entry
        turns up again, then complete the command. */
    method AbortCmd(t: nat, wanted: Wanted) returns (status: int, ghost dequeues: nat)
      requires t in cmds
      modifies this`queue, this`hash, this`cmds
      ensures St() == AbortStep(old(St()), t) && status == -1
      ensures dequeues <= |old(queue)| + 1
    {
      cmds := cmds[t := cmds[t].(aborted := true)];
      dequeues := ScanQueue(t);
      var ok;
      ok, status := DoneCmd(t, wanted, -1);
    }

    method ScanQueue(t: nat) returns (ghost dequeues: nat)
      modifies this`queue
      ensures queue == Scanned(old(queue), t)
      ensures dequeues <= |old(queue)| + 1
    {
      hide Scanned, IndexOf;
      ghost var q := queue;
      var start, flag := 0, false;
      dequeues := 0;
      while queue != []
        invariant dequeues <= |q| && queue == q[dequeues..] + q[..dequeues]
        invariant t !in q[..dequeues]
        invariant flag == (dequeues > 0) && (flag ==> start == q[0])
        invariant forall i :: 1 <= i < dequeues ==> q[i] != q[0]
        decreases |q| - dequeues
      {
        ghost var i := dequeues;
        var ptr := QueueRemove();
        dequeues := dequeues + 1;
        assert ptr == if i < |q| then q[i] else q[0];
        if ptr == t {
          StopAtCommand(q, t, i);
          assert queue == q[i + 1..] + q[..i];
          break;
        }
        queue := queue + [ptr];
        if flag && start == ptr {
          StopAtStart(q, t, i);
          assert i < |q| ==> queue == q[i + 1..] + q[..i + 1];
          assert i == |q| ==> queue == q[1..] + [q[0]];
          break;
        }
        if !flag {
          start := ptr;
          flag := true;
        }
        assert queue == q[i + 1..] + q[..i + 1];
      }
    }

    /** First and second loop of `session_destroy_i`. */
    method DrainQueue()
      requires CanDrain(St())
      modifies this`queue, this`hash, this`cmds
      ensures St() == Drain(old(St()), []).0.(queue := Drain(old(St()), []).1)
    {
      ghost var goal := Drain(St(), []);
      var kept: seq<nat> := [];
      while queue != []
        invariant CanDrain(St()) && Drain(St(), kept) == goal
        decreases |queue|
      {
        DrainTurn(St());
        var t := QueueRemove();
        if cmds[t].kind.Login? || cmds[t].kind.Text? || cmds[t].kind.Logout? {
          var status, dequeues := AbortCmd(t, NOTHING);
        } else {
          kept := kept + [t];
        }
      }
      queue := kept;
    }

    /** Third loop of `session_destroy_i`; `order` is the order in which the buckets of
        the hash give up their commands. */
    method RequeueHash(order: seq<nat>)
      requires forall t :: t in order ==> t in cmds
      requires !failed
      modifies this`queue, this`hash, this`cmds, this`failed
      ensures St() == Requeue(old(St()), order)
    {
      ghost var goal := Requeue(St(), order);
      var i := 0;
      while i < |order|
        invariant 0 <= i <= |order| && !failed && cmds.Keys == old(cmds.Keys)
        invariant Requeue(St(), order[i..]) == goal
      {
        var t := order[i];
        assert order[i..][0] == t && order[i..][1..] == order[i + 1..];
        hash := hash - {t};
        if cmds[t].kind.Login? || cmds[t].kind.Text? || cmds[t].kind.Logout? {
          var status, dequeues := AbortCmd(t, NOTHING);
        } else {
          cmds := cmds[t := Reset(cmds[t])];
          var ok := QueueInsert(t);
          if !ok {
            failed := true;
            return;
          }
        }
        i := i + 1;
      }
    }

    /** `session_destroy_i`, from any safe state: after an error, with commands queued
        twice, or queued and outstanding. */
    method Destroy(order: seq<nat>)
      requires Safe(St()) && Enabled(St(), Recover(order))
      modifies this
      ensures St() == RecoverStep(old(St()), order) && Safe(St())
      ensures failed <==> |Keep(old(cmds), old(queue))| + |Keep(old(cmds), order)| > QUEUE_DEPTH
      ensures !failed ==> Recovered(old(St()), order, St())
      ensures Inv(old(St())) ==> (Inv(St()) <==> Orderly(old(St()), Recover(order)))
    {
      hide Safe, SafeIn, Inv, Recovered, Drain, Requeue, Keep, CanDrain, Orderly;
      ghost var s := St();
      RecoveryConserves(s, order);
      RecoverSafe(s, order);
      if Inv(s) { RecoverKeepsIff(s, order); }
      sending := {};
      failed := false;
      RecoverReady(s, order);
      DrainQueue();
      RequeueHash(order);
      fullFeature := false;
    }

    /** The tx worker takes a command (`tx_worker_proc_i`). */
    method TakeCmd()
      requires sending == {} && queue != [] && queue[0] in cmds
      modifies this
      ensures St() == TakeStep(old(St()))
      ensures old(!fullFeature && (cmds[queue[0]].kind.Scsi? || cmds[queue[0]].kind.NopOut?)) ==>
                sending == {} && hash == old(hash) && cmds == old(cmds) && queue == old(queue[1..] + [queue[0]])
    {
      var t := QueueRemove();
      if !fullFeature && !(cmds[t].kind.Login? || cmds[t].kind.Text? || cmds[t].kind.Logout?) {
        queue := queue + [t];
        return;
      }
      if t !in hash {
        hash := hash + {t};
      }
      assert hash == old(hash) + {t};
      if cmds[t].aborted {
        return;
      }
      cmds := cmds[t := cmds[t].(txDone := false)];
      sending := {t};
    }

    /** `scsi_r2t_rx_i` */
    method R2tArrives(t: nat, last: bool)
      requires t in cmds && !failed
      modifies this
      ensures St() == R2tStep(old(St()), t, last)
      ensures old(cmds[t].r2tRequest) <= 1 && last ==> t !in hash
      ensures failed <==> old(cmds[t].r2tRequest) > 1 || |old(queue)| >= QUEUE_DEPTH
    {
      var c := cmds[t];
      cmds := cmds[t := c.(r2tRequest := c.r2tRequest + 1)];
      if c.r2tRequest > 1 {
        failed := true;
        return;
      }
      if last {
        hash := hash - {t};
      }
      var ok := QueueInsert(t);
      if !ok { failed := true; }
    }
  }

  lemma {:induction false} NotBefore(q: seq<nat>, t: nat, i: nat)
    requires i <= |q| && t !in q[..i]
    ensures forall j :: 0 <= j < i ==> q[j] != t
  {
    forall j | 0 <= j < i ensures q[j] != t {
      assert q[..i][j] == q[j];
    }
  }

  lemma {:induction false} StopAtCommand(q: seq<nat>, t: nat, i: nat)
    requires q != [] && i <= |q| && t !in q[..i]
    requires (if i < |q| then q[i] else q[0]) == t
    requires forall k :: 1 <= k < i ==> q[k] != q[0]
    ensures i < |q| && Scanned(q, t) == q[i + 1..] + q[..i]
  {
    NotBefore(q, t, i);
    IndexOfIs(q, t, i);
    var again := IndexOf(q[1..], q[0]);
    assert again < |q[1..]| ==> q[again + 1] == q[0];
  }

  lemma {:induction false} StopAtStart(q: seq<nat>, t: nat, i: nat)
    requires q != [] && 1 <= i <= |q| && t !in q[..i]
    requires (if i < |q| then q[i] else q[0]) == q[0] != t
    requires forall k :: 1 <= k < i ==> q[k] != q[0]
    ensures Scanned(q, t) == if i < |q| then q[i + 1..] + q[..i + 1] else q[1..] + [q[0]]
  {
    forall j | 0 <= j < i - 1 ensures q[1..][j] != q[0] {
      assert q[1..][j] == q[j + 1];
    }
    IndexOfIs(q[1..], q[0], i - 1);
    NotBefore(q, t, i);
  }

  /** One turn of the drain loop keeps what it needs for the next. */
  lemma {:induction false} DrainTurn(s: State)
    requires CanDrain(s) && s.queue != []
    ensures s.queue[0] in s.cmds
    ensures var s1 := s.(queue := s.queue[1..]);
            CanDrain(if SessionCmd(s.cmds, s.queue[0]) then AbortStep(s1, s.queue[0]) else s1)
  {
    var t, rest := s.queue[0], s.queue[1..];
    assert t in s.queue;
    assert s.queue == [t] + rest;
    hide AbortStep, Scanned, Keep, CanDrain;
    if SessionCmd(s.cmds, t) {
      DrainHead(s, t);
      OnceOnly(t, rest);
      AbortInDrain(s, t, rest);
      DrainOn(s, t, rest, AbortStep(s.(queue := rest), t));
    } else {
      DrainOn(s, t, rest, s.(queue := rest));
    }
  }

  lemma {:induction false} DrainHead(s: State, t: nat)
    requires CanDrain(s) && t in s.queue && SessionCmd(s.cmds, t)
    ensures t !in s.hash && multiset(s.queue)[t] <= 1
  {
  }

  /** The loops of recovery can start, and find the commands they need. */
  lemma {:induction false} RecoverReady(s: State, order: seq<nat>)
    requires Safe(s) && Enabled(s, Recover(order))
    ensures var s0 := s.(sending := {}, failed := false);
            && CanDrain(s0) && !Drain(s0, []).0.failed
            && forall t :: t in order ==> t in Drain(s0, []).0.cmds
  {
    var s0 := s.(sending := {}, failed := false);
    RecoverCanDrain(s);
    DrainResult(s0, []);
    forall t | t in order ensures t in Drain(s0, []).0.cmds {
      QueuedInCmds(s, t);
    }
  }

  lemma {:induction false} RecoverCanDrain(s: State)
    requires Safe(s)
    ensures CanDrain(s.(sending := {}, failed := false))
  {
    forall t | t in s.queue ensures t in s.cmds && (SessionCmd(s.cmds, t) ==> t !in s.hash && multiset(s.queue)[t] <= 1) {
      QueuedInCmds(s, t);
      if SessionCmd(s.cmds, t) { SessionCmdsApart(s, t); }
    }
  }
}
