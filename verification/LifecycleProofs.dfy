/** Every step keeps the life-cycle invariant exactly when it is orderly, and what that
    means over whole runs. */
module LifecycleProofs {
  import opened Sequences
  import opened Lifecycle

  // ----- lists without duplicates

  lemma {:induction false} NoDupSnoc(q: seq<nat>, t: nat)
    requires NoDup(q)
    ensures NoDup(q + [t]) <==> t !in q
  {
    if t in q {
      var k :| 0 <= k < |q| && q[k] == t;
      assert (q + [t])[k] == (q + [t])[|q|];
    }
  }

  /** The scan of `initiator_abort` comes to the command before the first entry comes
      round again. */
  predicate Finds(q: seq<nat>, t: nat) {
    var k := IndexOf(q, t);
    k < |q| && (k == 0 || q[0] !in q[1..k])
  }

  lemma {:induction false} AgainIs(q: seq<nat>, t: nat)
    requires q != []
    ensures Finds(q, t) <==> IndexOf(q, t) < 1 + IndexOf(q[1..], q[0])
  {
    var k := IndexOf(q, t);
    var again := IndexOf(q[1..], q[0]);
    if 0 < k <= again {
      forall i | 0 <= i < |q[1..k]| ensures q[1..k][i] != q[0] {
        assert q[1..k][i] == q[1..][i];
      }
    } else if 0 < k && again < |q[1..]| && again + 1 < k {
      assert q[1..k][again] == q[1..][again] == q[0];
    }
  }

  lemma {:induction false} RotatedMultiset(q: seq<nat>, n: nat)
    requires n <= |q|
    ensures multiset(q[n..] + q[..n]) == multiset(q)
  {
    assert q == q[..n] + q[n..];
  }

  /** For any queue, with entries repeated or not, the scan takes one entry of the
      command if it finds it, and nothing otherwise. */
  lemma {:induction false} ScannedMultiset(q: seq<nat>, t: nat)
    ensures multiset(Scanned(q, t)) == if Finds(q, t) then multiset(q) - multiset{t} else multiset(q)
  {
    if q != [] {
      var k := IndexOf(q, t);
      var again := 1 + IndexOf(q[1..], q[0]);
      AgainIs(q, t);
      if k < again {
        AroundOne(q, k);
        assert multiset(q) == multiset(q[..k]) + multiset{t} + multiset(q[k + 1..]);
      } else if again < |q| {
        RotatedMultiset(q, again + 1);
      } else {
        RotatedMultiset(q, 1);
        assert q[..1] == [q[0]];
      }
    }
  }

  /** It misses the command, and leaves it queued, exactly when the command is queued
      twice or the first entry is queued again before it. */
  lemma {:induction false} ScanMissesIff(q: seq<nat>, t: nat)
    ensures t in Scanned(q, t)
            <==> t in q && (t in q[IndexOf(q, t) + 1..] || (IndexOf(q, t) > 0 && q[0] in q[1..IndexOf(q, t)]))
  {
    ScannedMultiset(q, t);
    var k := IndexOf(q, t);
    assert t in Scanned(q, t) <==> t in multiset(Scanned(q, t));
    if k < |q| {
      AroundOne(q, k);
      assert multiset(q) == multiset(q[..k]) + multiset{t} + multiset(q[k + 1..]);
      assert t !in multiset(q[..k]);
    }
  }

  lemma {:induction false} ScannedMembers(q: seq<nat>, t: nat)
    ensures forall x :: x != t ==> (x in Scanned(q, t) <==> x in q)
    ensures forall x :: x != t ==> multiset(Scanned(q, t))[x] == multiset(q)[x]
    ensures multiset(Scanned(q, t))[t] <= multiset(q)[t]
  {
    ScannedMultiset(q, t);
    forall x ensures x in Scanned(q, t) <==> x in multiset(Scanned(q, t)) {}
    forall x ensures x in q <==> x in multiset(q) {}
  }

  lemma {:induction false} NoDupMultiset(q: seq<nat>)
    ensures NoDup(q) <==> forall x :: multiset(q)[x] <= 1
  {
    if q != [] {
      var rest := q[1..];
      assert q == [q[0]] + rest;
      NoDupMultiset(rest);
      if NoDup(q) {
        assert q[0] !in rest;
        assert multiset(rest)[q[0]] == 0;
      } else if NoDup(rest) {
        var i, j :| 0 <= i < j < |q| && q[i] == q[j];
        assert i == 0 && q[j] == rest[j - 1];
        assert multiset(q)[q[0]] >= 2;
      } else {
        var x :| multiset(rest)[x] > 1;
        assert multiset(q)[x] > 1;
      }
    }
  }

  /** Without duplicates the scan always finds the command. */
  lemma {:induction false} ScannedNoDup(q: seq<nat>, t: nat)
    requires NoDup(q)
    ensures NoDup(Scanned(q, t)) && t !in Scanned(q, t)
  {
    ScannedMultiset(q, t);
    NoDupMultiset(q);
    NoDupMultiset(Scanned(q, t));
    ScanMissesIff(q, t);
    var k := IndexOf(q, t);
    if k < |q| {
      var after := q[k + 1..];
      forall i | 0 <= i < |after| ensures after[i] != t {
        assert after[i] == q[k + 1 + i];
      }
      if k > 0 {
        forall i | 0 <= i < |q[1..k]| ensures q[1..k][i] != q[0] {
          assert q[1..k][i] == q[i + 1];
        }
      }
    }
  }

  // ----- one lemma for each kind of step

  lemma {:induction false} EnqueueKeeps(s: State, t: nat, k: Kind)
    requires Inv(s) && t !in s.cmds
    ensures Inv(EnqueueStep(s, t, k))
  {
    var s' := EnqueueStep(s, t, k);
    assert !Pending(s, t);
    NoDupSnoc(s.queue, t);
    forall x | x in s'.cmds ensures CmdOk(s', x) {
      if x != t { assert CmdOk(s, x); }
    }
    forall x | Pending(s', x) ensures x in s'.cmds {
      assert x == t || Pending(s, x);
    }
  }

  lemma {:induction false} TakeKeeps(s: State)
    requires Inv(s) && s.sending == {} && s.queue != [] && s.queue[0] in s.cmds
    ensures Inv(TakeStep(s))
  {
    var t := s.queue[0];
    var s' := TakeStep(s);
    assert CmdOk(s, t);
    assert s.queue == [t] + s.queue[1..];
    NoDupSnoc(s.queue[1..], t);
    forall x | x in s'.cmds ensures CmdOk(s', x) {
      assert CmdOk(s, x);
    }
    forall x | Pending(s', x) ensures x in s'.cmds {
      assert Pending(s, x);
    }
  }

  lemma {:induction false} SentKeeps(s: State, t: nat, bytes: nat)
    requires Inv(s) && s.sending == {t} && t in s.cmds
    ensures Inv(SentStep(s, t, bytes))
  {
    var s' := SentStep(s, t, bytes);
    assert CmdOk(s, t);
    forall x | x in s'.cmds ensures CmdOk(s', x) {
      assert CmdOk(s, x);
    }
    forall x | Pending(s', x) ensures x in s'.cmds {
      assert Pending(s, x);
    }
  }

  lemma {:induction false} DataInKeeps(s: State, t: nat, bytes: nat)
    requires Inv(s) && t in s.hash && t in s.cmds && s.cmds[t].kind.Scsi? && s.cmds[t].txDone
    ensures Inv(DataInStep(s, t, bytes))
  {
    var s' := DataInStep(s, t, bytes);
    forall x | x in s'.cmds ensures CmdOk(s', x) {
      assert CmdOk(s, x);
    }
    forall x | Pending(s', x) ensures x in s'.cmds {
      assert Pending(s, x);
    }
  }

  lemma {:induction false} R2tKeepsIff(s: State, t: nat, last: bool)
    requires Inv(s) && Enabled(s, R2t(t, last))
    ensures Inv(R2tStep(s, t, last)) <==> Orderly(s, R2t(t, last))
  {
    var s' := R2tStep(s, t, last);
    assert CmdOk(s, t);
    NoDupSnoc(s.queue, t);
    if Orderly(s, R2t(t, last)) {
      forall x | x in s'.cmds ensures CmdOk(s', x) {
        assert CmdOk(s, x);
      }
      forall x | Pending(s', x) ensures x in s'.cmds {
        assert Pending(s, x);
      }
    } else if !s'.failed {
      assert s.cmds[t].r2tRequest == 1;
      assert !CmdOk(s', t);
    }
  }

  lemma {:induction false} ResponseKeepsIff(s: State, t: nat)
    requires Inv(s) && Enabled(s, Response(t))
    ensures Inv(Done(s, t)) <==> Orderly(s, Response(t))
  {
    var s' := Done(s, t);
    assert CmdOk(s, t);
    if t !in s.queue {
      forall x | x in s'.cmds ensures CmdOk(s', x) {
        assert CmdOk(s, x);
      }
      forall x | Pending(s', x) ensures x in s'.cmds {
        assert Pending(s, x);
      }
    } else {
      assert !CmdOk(s', t);
    }
  }

  lemma {:induction false} AbortKeepsIff(s: State, t: nat)
    requires Inv(s) && t in s.cmds
    ensures Inv(AbortStep(s, t)) <==> Orderly(s, Abort(t))
  {
    var s' := AbortStep(s, t);
    assert CmdOk(s, t);
    ScannedMembers(s.queue, t);
    ScannedNoDup(s.queue, t);
    if Orderly(s, Abort(t)) {
      forall x | x in s'.cmds ensures CmdOk(s', x) {
        assert CmdOk(s, x);
      }
      forall x | Pending(s', x) ensures x in s'.cmds {
        assert Pending(s, x);
      }
    } else {
      assert !CmdOk(s', t);
    }
  }
}
