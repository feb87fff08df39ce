/** Session recovery (`session_destroy_i`): which commands survive, and in what state. */
module LifecycleRecovery {
  import opened Sequences
  import opened Lifecycle
  import opened LifecycleProofs

  predicate SessionCmd(cmds: map<nat, Cmd>, t: nat) {
    t in cmds && IsSession(cmds[t].kind)
  }

  function Aborted(c: Cmd): Cmd {
    c.(aborted := true, callbacks := c.callbacks + 1)
  }

  /** The command table after recovery: the session commands of `dead` completed as
      aborted, the others of `again` put back to their initial state. */
  function After(cmds: map<nat, Cmd>, dead: set<nat>, again: set<nat>): map<nat, Cmd> {
    map t | t in cmds :: if !IsSession(cmds[t].kind) && t in again then Reset(cmds[t])
                         else if IsSession(cmds[t].kind) && t in dead then Aborted(cmds[t])
                         else cmds[t]
  }

  function Elements(q: seq<nat>): set<nat> {
    set t | t in q
  }

  predicate SameKinds(a: map<nat, Cmd>, b: map<nat, Cmd>) {
    a.Keys == b.Keys && forall t :: t in a ==> a[t].kind == b[t].kind
  }

  lemma {:induction false} KeepSameKinds(a: map<nat, Cmd>, b: map<nat, Cmd>, q: seq<nat>)
    requires SameKinds(a, b)
    ensures Keep(a, q) == Keep(b, q)
  {
    if q != [] { KeepSameKinds(a, b, q[1..]); }
  }

  lemma {:induction false} KeepAppend(cmds: map<nat, Cmd>, a: seq<nat>, b: seq<nat>)
    ensures Keep(cmds, a + b) == Keep(cmds, a) + Keep(cmds, b)
  {
    if a == [] {
      assert a + b == b;
    } else {
      assert (a + b)[1..] == a[1..] + b;
      KeepAppend(cmds, a[1..], b);
    }
  }

  lemma {:induction false} KeepMembers(cmds: map<nat, Cmd>, q: seq<nat>)
    ensures forall x :: x in Keep(cmds, q) <==> x in q && !SessionCmd(cmds, x)
  {
    if q != [] {
      KeepMembers(cmds, q[1..]);
      assert q == [q[0]] + q[1..];
    }
  }

  lemma {:induction false} KeepNoDup(cmds: map<nat, Cmd>, q: seq<nat>)
    requires NoDup(q)
    ensures NoDup(Keep(cmds, q))
  {
    if q != [] {
      var rest := Keep(cmds, q[1..]);
      KeepNoDup(cmds, q[1..]);
      KeepMembers(cmds, q[1..]);
      assert q[0] !in rest;
      forall i, j | 0 <= i < j < |Keep(cmds, q)| ensures Keep(cmds, q)[i] != Keep(cmds, q)[j] {
        if !SessionCmd(cmds, q[0]) {
          assert Keep(cmds, q) == [q[0]] + rest;
          assert Keep(cmds, q)[j] == rest[j - 1];
        }
      }
    }
  }

  lemma {:induction false} RotationKeeps(cmds: map<nat, Cmd>, q: seq<nat>, n: nat)
    requires n <= |q|
    ensures multiset(q[n..] + q[..n]) == multiset(q)
    ensures multiset(Keep(cmds, q[n..] + q[..n])) == multiset(Keep(cmds, q))
  {
    assert q == q[..n] + q[n..];
    KeepAppend(cmds, q[..n], q[n..]);
    KeepAppend(cmds, q[n..], q[..n]);
  }

  /** Aborting a command that is not queued only rotates the queue. */
  lemma {:induction false} ScannedAbsent(cmds: map<nat, Cmd>, q: seq<nat>, t: nat)
    requires t !in q
    ensures |Scanned(q, t)| == |q|
    ensures multiset(Scanned(q, t)) == multiset(q)
    ensures multiset(Keep(cmds, Scanned(q, t))) == multiset(Keep(cmds, q))
  {
    if q != [] {
      var again := 1 + IndexOf(q[1..], q[0]);
      if again < |q| {
        RotationKeeps(cmds, q, again + 1);
      } else {
        RotationKeeps(cmds, q, 1);
        assert q[..1] == [q[0]];
      }
    }
  }

  lemma {:induction false} MultisetMembers(a: seq<nat>, b: seq<nat>)
    requires multiset(a) == multiset(b)
    ensures forall x :: x in a <==> x in b
    ensures |a| == |b|
  {
    forall x ensures x in a <==> x in b {
      assert x in a <==> x in multiset(a);
      assert x in b <==> x in multiset(b);
    }
    assert |multiset(a)| == |a| && |multiset(b)| == |b|;
  }

  lemma {:induction false} PutTwice(cmds: map<nat, Cmd>, t: nat, a: Cmd, b: Cmd)
    ensures cmds[t := a][t := b] == cmds[t := b]
  {
  }

  lemma {:induction false} AbortEffect(s: State, t: nat)
    requires t in s.cmds
    ensures AbortStep(s, t) == s.(queue := Scanned(s.queue, t), hash := s.hash - {t},
                                  cmds := s.cmds[t := Aborted(s.cmds[t])])
  {
    PutTwice(s.cmds, t, s.cmds[t].(aborted := true), Aborted(s.cmds[t]));
  }

  /** An entry counted once is not met again. */
  lemma {:induction false} OnceOnly(t: nat, rest: seq<nat>)
    requires multiset([t] + rest)[t] <= 1
    ensures t !in rest
  {
    assert multiset([t] + rest) == multiset{t} + multiset(rest);
    assert t in rest <==> t in multiset(rest);
  }

  /** One turn of the first loop over a session command. */
  lemma {:induction false} AbortInDrain(s: State, t: nat, rest: seq<nat>)
    requires s.queue == [t] + rest && t !in rest
    requires SessionCmd(s.cmds, t) && t !in s.hash
    ensures var s2 := AbortStep(s.(queue := rest), t);
            && s2 == s.(queue := Scanned(rest, t), cmds := s.cmds[t := Aborted(s.cmds[t])])
            && multiset(s2.queue) == multiset(rest) && |s2.queue| == |rest|
            && (forall x :: x in s2.queue <==> x in rest)
            && multiset(Keep(s2.cmds, s2.queue)) == multiset(Keep(s.cmds, rest))
            && Keep(s.cmds, s.queue) == Keep(s.cmds, rest)
  {
    assert s.queue[1..] == rest;
    ScannedAbsent(s.cmds, rest, t);
    ScannedMembers(rest, t);
    AbortEffect(s.(queue := rest), t);
    assert s.hash - {t} == s.hash;
    var s2 := AbortStep(s.(queue := rest), t);
    KeepSameKinds(s.cmds, s2.cmds, s2.queue);
  }

  lemma {:induction false} AfterAbort(cmds: map<nat, Cmd>, t: nat, rest: set<nat>)
    requires SessionCmd(cmds, t) && t !in rest
    ensures After(cmds[t := Aborted(cmds[t])], rest, {}) == After(cmds, {t} + rest, {})
  {
  }

  lemma {:induction false} AfterSkip(cmds: map<nat, Cmd>, t: nat, rest: set<nat>)
    requires !SessionCmd(cmds, t)
    ensures After(cmds, rest, {}) == After(cmds, {t} + rest, {})
  {
  }

  /** Session commands are queued once and not outstanding at the same time; the others
      may be queued any number of times. */
  ghost predicate CanDrain(s: State) {
    && (forall t :: t in s.queue ==> t in s.cmds)
    && (forall t :: t in s.queue && SessionCmd(s.cmds, t) ==> t !in s.hash && multiset(s.queue)[t] <= 1)
  }

  /** Taking the head of the queue counts it down. */
  lemma {:induction false} CountTail(t: nat, rest: seq<nat>, x: nat)
    ensures multiset([t] + rest)[x] == multiset(rest)[x] + if x == t then 1 else 0
  {
    assert multiset([t] + rest) == multiset{t} + multiset(rest);
  }

  /** After a turn, whatever it did with the head, the loop can go on. */
  lemma {:induction false} DrainOn(s: State, t: nat, rest: seq<nat>, s2: State)
    requires CanDrain(s) && s.queue == [t] + rest
    requires multiset(s2.queue) == multiset(rest) && s2.hash <= s.hash && SameKinds(s.cmds, s2.cmds)
    ensures CanDrain(s2)
  {
    forall x | x in s2.queue
      ensures x in s2.cmds && (SessionCmd(s2.cmds, x) ==> x !in s2.hash && multiset(s2.queue)[x] <= 1)
    {
      assert x in s2.queue <==> x in multiset(s2.queue);
      assert x in rest <==> x in multiset(rest);
      assert x in s.queue;
      CountTail(t, rest, x);
    }
  }

  ghost predicate Drained(s: State, kept: seq<nat>, r: (State, seq<nat>)) {
    && r.0 == s.(queue := [], cmds := After(s.cmds, Elements(s.queue), {}))
    && multiset(r.1) == multiset(kept) + multiset(Keep(s.cmds, s.queue))
  }

  /** What the first loop leaves: the queue's other commands, and its session commands
      completed as aborted. */
  lemma {:induction false} DrainResult(s: State, kept: seq<nat>)
    requires CanDrain(s)
    ensures Drained(s, kept, Drain(s, kept))
    decreases |s.queue|, 1
  {
    if s.queue == [] {
      assert After(s.cmds, Elements(s.queue), {}) == s.cmds;
    } else {
      assert s.queue[0] in s.queue;
      assert s.queue == [s.queue[0]] + s.queue[1..];
      assert Elements(s.queue) == {s.queue[0]} + Elements(s.queue[1..]);
      if SessionCmd(s.cmds, s.queue[0]) {
        OnceOnly(s.queue[0], s.queue[1..]);
        DrainSessionCmd(s, kept, s.queue[0], s.queue[1..]);
      } else {
        DrainOther(s, kept, s.queue[0], s.queue[1..]);
      }
    }
  }

  lemma {:induction false} DrainSessionCmd(s: State, kept: seq<nat>, t: nat, rest: seq<nat>)
    requires CanDrain(s) && s.queue == [t] + rest && t !in rest && SessionCmd(s.cmds, t)
    requires Elements(s.queue) == {t} + Elements(rest)
    ensures Drained(s, kept, Drain(s, kept))
    decreases |s.queue|, 0
  {
    var s2 := AbortStep(s.(queue := rest), t);
    assert s.queue[1..] == rest;
    assert t in s.queue;
    AbortInDrain(s, t, rest);
    DrainOn(s, t, rest, s2);
    hide AbortStep, CanDrain, Keep, After;
    DrainResult(s2, kept);
    assert Elements(s2.queue) == Elements(rest);
    AfterAbort(s.cmds, t, Elements(rest));
    assert Drain(s, kept) == Drain(s2, kept);
  }

  lemma {:induction false} DrainOther(s: State, kept: seq<nat>, t: nat, rest: seq<nat>)
    requires CanDrain(s) && s.queue == [t] + rest && !SessionCmd(s.cmds, t)
    requires Elements(s.queue) == {t} + Elements(rest)
    ensures Drained(s, kept, Drain(s, kept))
    decreases |s.queue|, 0
  {
    var s2 := s.(queue := rest);
    assert s.queue[1..] == rest;
    DrainOn(s, t, rest, s2);
    DrainResult(s2, kept + [t]);
    AfterSkip(s.cmds, t, Elements(rest));
    assert Drain(s, kept) == Drain(s2, kept + [t]);
  }

  /** What the third loop leaves: everything moved from the hash to the queue, session
      commands completed as aborted, the others reset; or a failure if they do not fit. */
  ghost predicate Requeued(s: State, order: seq<nat>, s': State) {
    && (s'.failed <==> |s.queue| + |Keep(s.cmds, order)| > QUEUE_DEPTH)
    && (!s'.failed ==>
          && s' == s.(queue := s'.queue, hash := s.hash - Elements(order),
                      cmds := After(s.cmds, Elements(order), Elements(order)))
          && multiset(s'.queue) == multiset(s.queue) + multiset(Keep(s.cmds, order)))
  }

  ghost predicate CanRequeue(s: State, order: seq<nat>) {
    && NoDup(order) && !s.failed && |s.queue| <= QUEUE_DEPTH
    && forall t :: t in order ==> t in s.cmds && (SessionCmd(s.cmds, t) ==> t !in s.queue)
  }

  lemma {:induction false} RequeueResult(s: State, order: seq<nat>)
    requires CanRequeue(s, order)
    ensures Requeued(s, order, Requeue(s, order))
    decreases |order|, 1
  {
    if order == [] {
      assert After(s.cmds, Elements(order), Elements(order)) == s.cmds;
      assert s.hash - Elements(order) == s.hash;
    } else {
      assert order == [order[0]] + order[1..];
      assert order[0] in order;
      if SessionCmd(s.cmds, order[0]) {
        RequeueSessionCmd(s, order[0], order[1..]);
      } else if |s.queue| < QUEUE_DEPTH {
        RequeueOther(s, order[0], order[1..]);
      }
    }
  }

  lemma {:induction false} RequeueSessionCmd(s: State, t: nat, rest: seq<nat>)
    requires CanRequeue(s, [t] + rest) && SessionCmd(s.cmds, t)
    ensures Requeued(s, [t] + rest, Requeue(s, [t] + rest))
    decreases |rest|, 2
  {
    assert ([t] + rest)[1..] == rest && ([t] + rest)[0] in [t] + rest;
    var s2 := AbortStep(s.(hash := s.hash - {t}), t);
    AbortMoves(s, t);
    MoveOne(s, s2, t, rest);
    RequeueResult(s2, rest);
    MovedAll(s, s2, t, rest, Requeue(s2, rest));
  }

  lemma {:induction false} RequeueOther(s: State, t: nat, rest: seq<nat>)
    requires CanRequeue(s, [t] + rest) && !SessionCmd(s.cmds, t) && |s.queue| < QUEUE_DEPTH
    ensures Requeued(s, [t] + rest, Requeue(s, [t] + rest))
    decreases |rest|, 2
  {
    assert ([t] + rest)[1..] == rest && ([t] + rest)[0] in [t] + rest;
    var s2 := s.(hash := s.hash - {t}, queue := s.queue + [t], cmds := s.cmds[t := Reset(s.cmds[t])]);
    MoveOne(s, s2, t, rest);
    RequeueResult(s2, rest);
    MovedAll(s, s2, t, rest, Requeue(s2, rest));
  }

  /** One turn of the third loop, `s` before it and `s2` after. */
  ghost predicate Moved(s: State, s2: State, t: nat) {
    && t in s.cmds
    && s2.cmds == s.cmds[t := if SessionCmd(s.cmds, t) then Aborted(s.cmds[t]) else Reset(s.cmds[t])]
    && s2 == s.(queue := s2.queue, hash := s.hash - {t}, cmds := s2.cmds)
    && |s2.queue| <= QUEUE_DEPTH
    && multiset(s2.queue) == multiset(s.queue) + (if SessionCmd(s.cmds, t) then multiset{} else multiset{t})
  }

  lemma {:induction false} AbortMoves(s: State, t: nat)
    requires SessionCmd(s.cmds, t) && t !in s.queue && |s.queue| <= QUEUE_DEPTH
    ensures Moved(s, AbortStep(s.(hash := s.hash - {t}), t), t)
  {
    ScannedAbsent(s.cmds, s.queue, t);
    AbortEffect(s.(hash := s.hash - {t}), t);
    assert s.hash - {t} - {t} == s.hash - {t};
  }

  lemma {:induction false} MoveOne(s: State, s2: State, t: nat, rest: seq<nat>)
    requires CanRequeue(s, [t] + rest) && Moved(s, s2, t)
    ensures CanRequeue(s2, rest) && t !in rest
  {
    var order := [t] + rest;
    assert forall i :: 0 <= i < |rest| ==> rest[i] == order[i + 1];
    assert order[0] == t;
    forall x | x in rest ensures x in s2.cmds && x != t && (SessionCmd(s2.cmds, x) ==> x !in s2.queue) {
      assert x in order;
      assert x in s2.queue <==> x in multiset(s2.queue);
      assert x in s.queue <==> x in multiset(s.queue);
    }
  }

  lemma {:induction false} MovedAll(s: State, s2: State, t: nat, rest: seq<nat>, s': State)
    requires Moved(s, s2, t) && t !in rest && !s.failed
    requires Requeued(s2, rest, s')
    ensures Requeued(s, [t] + rest, s')
  {
    var order := [t] + rest;
    assert order[1..] == rest;
    assert SameKinds(s.cmds, s2.cmds);
    KeepSameKinds(s.cmds, s2.cmds, rest);
    assert |s2.queue| == |s.queue| + (if SessionCmd(s.cmds, t) then 0 else 1) by {
      assert |multiset(s2.queue)| == |s2.queue| && |multiset(s.queue)| == |s.queue|;
    }
    assert Elements(order) == {t} + Elements(rest);
    AfterCons(s.cmds, s2.cmds, t, Elements(rest));
    assert s.hash - {t} - Elements(rest) == s.hash - Elements(order);
  }

  lemma {:induction false} AfterCons(cmds: map<nat, Cmd>, cmds2: map<nat, Cmd>, t: nat, rest: set<nat>)
    requires t in cmds && t !in rest
    requires cmds2 == cmds[t := if SessionCmd(cmds, t) then Aborted(cmds[t]) else Reset(cmds[t])]
    ensures After(cmds2, rest, rest) == After(cmds, {t} + rest, {t} + rest)
  {
  }
}
