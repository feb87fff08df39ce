/** The life of commands in one session of the initiator (initiator.c): the tx queue, the
    hash of outstanding commands, the tx and rx workers, abort, and session recovery.
    Every step is one critical section of the source; a run is any interleaving. */
module Lifecycle {
  import opened Sequences

  datatype Kind = Login | Text | Logout | Scsi | NopOut(ping: bool)

  /** The fields of INITIATOR_CMD_T the life cycle depends on.  `callbacks` counts how
      often the callback ran; `early` records that it ran before `txDone` although the
      command was neither aborted nor a NOP-Out without ping. */
  datatype Cmd = Cmd(
    kind: Kind, callbacks: nat, early: bool, aborted: bool, txDone: bool,
    r2tRequest: nat, bytesToDev: nat, bytesFromDev: nat)

  /** Commands are named by their tags.  `sending` is the command the tx worker is
      executing; `failed` marks a session error raised half-way through a step. */
  datatype State = State(
    queue: seq<nat>, hash: set<nat>, cmds: map<nat, Cmd>,
    sending: set<nat>, fullFeature: bool, failed: bool)

  const QUEUE_DEPTH := 64

  /** Login, text and logout commands belong to the session and die with it. */
  predicate IsSession(k: Kind) {
    k.Login? || k.Text? || k.Logout?
  }

  datatype Event =
    | Enqueue(tag: nat, kind: Kind)
    | LoggedIn
    | Take
    | Sent(bytes: nat)
    | DataIn(tag: nat, bytes: nat)
    | R2t(tag: nat, last: bool)
    | Response(tag: nat)
    | Abort(tag: nat)
    | Recover(order: seq<nat>)

  // ----- the steps

  /** `iscsi_done_i`: leave the hash and run the callback; a command that is neither in
      the hash nor aborted is refused. */
  function Done(s: State, t: nat): State
    requires t in s.cmds
  {
    var c := s.cmds[t];
    if t !in s.hash && !c.aborted then s
    else
      var early := c.early || !(c.txDone || c.aborted || c.kind == NopOut(false));
      s.(hash := s.hash - {t}, cmds := s.cmds[t := c.(callbacks := c.callbacks + 1, early := early)])
  }

  /** What the rotating scan of `initiator_abort` leaves in the queue.  It stops at the
      command, dropping it, or when the first entry comes round again: the command's
      successors, then its predecessors; or, when it is not queued, one rotation. */
  function Scanned(q: seq<nat>, t: nat): (r: seq<nat>)
    ensures |r| <= |q|
  {
    if q == [] then [] else
    var k := IndexOf(q, t);
    var again := 1 + IndexOf(q[1..], q[0]);
    if k < again then q[k + 1..] + q[..k]
    else if again < |q| then q[again + 1..] + q[..again + 1]
    else q[1..] + [q[0]]
  }

  /** `initiator_abort`. */
  function AbortStep(s: State, t: nat): State
    requires t in s.cmds
  {
    var s1 := s.(cmds := s.cmds[t := s.cmds[t].(aborted := true)], queue := Scanned(s.queue, t));
    Done(s1, t)
  }

  function FreshCmd(k: Kind): Cmd {
    Cmd(k, 0, false, false, false, 0, 0, 0)
  }

  /** `initiator_enqueue`; a full queue refuses the command. */
  function EnqueueStep(s: State, t: nat, k: Kind): State {
    if |s.queue| < QUEUE_DEPTH then
      s.(queue := s.queue + [t], cmds := s.cmds[t := FreshCmd(k)])
    else s
  }

  /** The tx worker takes the head of the queue (`tx_worker_proc_i`). */
  function TakeStep(s: State): State
    requires s.queue != [] && s.queue[0] in s.cmds
  {
    var t := s.queue[0];
    var c := s.cmds[t];
    if !s.fullFeature && !IsSession(c.kind) then
      s.(queue := s.queue[1..] + [t])
    else
      var s1 := s.(queue := s.queue[1..], hash := s.hash + {t});
      if c.aborted then s1
      else s1.(cmds := s1.cmds[t := c.(txDone := false)], sending := {t})
  }

  /** The tx worker has written the command, or the answer to its R2T, to the socket,
      with `bytes` of write data. */
  function SentStep(s: State, t: nat, bytes: nat): State
    requires t in s.cmds
  {
    var c := s.cmds[t];
    var c1 := if c.kind.Scsi? then
                c.(r2tRequest := if c.r2tRequest > 0 then c.r2tRequest - 1 else 0,
                   bytesToDev := c.bytesToDev + bytes)
              else c;
    var s1 := s.(sending := {}, cmds := s.cmds[t := c1]);
    if c.kind == NopOut(false) then Done(s1, t)
    else s1.(cmds := s1.cmds[t := c1.(txDone := true)])
  }

  /** `scsi_read_data_i`, as far as the counter goes. */
  function DataInStep(s: State, t: nat, bytes: nat): State
    requires t in s.cmds
  {
    var c := s.cmds[t];
    s.(cmds := s.cmds[t := c.(bytesFromDev := c.bytesFromDev + bytes)])
  }

  /** `scsi_r2t_rx_i`: the last R2T also takes the command out of the hash. */
  function R2tStep(s: State, t: nat, last: bool): State
    requires t in s.cmds
  {
    var c := s.cmds[t];
    var s1 := s.(cmds := s.cmds[t := c.(r2tRequest := c.r2tRequest + 1)]);
    if c.r2tRequest > 1 then s1.(failed := true)
    else
      var s2 := if last then s1.(hash := s1.hash - {t}) else s1;
      if |s2.queue| < QUEUE_DEPTH then s2.(queue := s2.queue + [t]) else s2.(failed := true)
  }

  /** First loop of `session_destroy_i`: empty the tx queue, aborting session commands
      and keeping the others. */
  function Drain(s: State, kept: seq<nat>): (State, seq<nat>)
    decreases |s.queue|
  {
    if s.queue == [] then (s, kept)
    else
      var t := s.queue[0];
      var s1 := s.(queue := s.queue[1..]);
      if t in s.cmds && IsSession(s.cmds[t].kind) then Drain(AbortStep(s1, t), kept)
      else Drain(s1, kept + [t])
  }

  function Reset(c: Cmd): Cmd {
    var d := c.(r2tRequest := 0, txDone := false, aborted := false);
    if c.kind.Scsi? then d.(bytesToDev := 0, bytesFromDev := 0) else d
  }

  /** Third loop of `session_destroy_i`: empty the hash, in the order its buckets give,
      aborting session commands and requeueing the others. */
  function Requeue(s: State, order: seq<nat>): State
    decreases |order|
  {
    if order == [] || s.failed then s
    else
      var t := order[0];
      var s1 := s.(hash := s.hash - {t});
      if t !in s.cmds then Requeue(s1, order[1..])
      else if IsSession(s.cmds[t].kind) then Requeue(AbortStep(s1, t), order[1..])
      else if |s.queue| < QUEUE_DEPTH then
        Requeue(s1.(queue := s.queue + [t], cmds := s.cmds[t := Reset(s.cmds[t])]), order[1..])
      else s1.(failed := true, cmds := s.cmds[t := Reset(s.cmds[t])])
  }

  /** `session_destroy_i`: the tx worker is stopped first, and the error that brought the
      session down is forgotten. */
  function RecoverStep(s: State, order: seq<nat>): State {
    var (s1, kept) := Drain(s.(sending := {}, failed := false), []);
    Requeue(s1.(queue := kept), order).(fullFeature := false)
  }

  ghost predicate NoDup(q: seq<nat>) {
    forall i, j :: 0 <= i < j < |q| ==> q[i] != q[j]
  }

  /** What the workers and the target can do in a state: fresh tags, one command at a
      time in the tx worker, and the rx worker, which ends at the first error, waiting
      for tx_done. */
  ghost predicate Enabled(s: State, e: Event) {
    match e
    case Enqueue(t, k) => t !in s.cmds
    case LoggedIn => true
    case Take => s.sending == {} && s.queue != [] && s.queue[0] in s.cmds
    case Sent(_) => exists t :: s.sending == {t} && t in s.cmds
    case DataIn(t, _) => !s.failed && t in s.hash && t in s.cmds && s.cmds[t].kind.Scsi? && s.cmds[t].txDone
    case R2t(t, _) => !s.failed && t in s.hash && t in s.cmds && s.cmds[t].kind.Scsi? && s.cmds[t].txDone
    case Response(t) => !s.failed && t in s.hash && t in s.cmds && s.cmds[t].txDone
    case Abort(t) => t in s.cmds
    case Recover(order) => NoDup(order) && forall t :: t in order <==> t in s.hash
  }

  ghost function Step(s: State, e: Event): State
    requires Enabled(s, e)
  {
    match e
    case Enqueue(t, k) => EnqueueStep(s, t, k)
    case LoggedIn => s.(fullFeature := true)
    case Take => TakeStep(s)
    case Sent(bytes) => var t :| s.sending == {t} && t in s.cmds; SentStep(s, t, bytes)
    case DataIn(t, bytes) => DataInStep(s, t, bytes)
    case R2t(t, last) => R2tStep(s, t, last)
    case Response(t) => Done(s, t)
    case Abort(t) => AbortStep(s, t)
    case Recover(order) => RecoverStep(s, order)
  }

  // ----- the invariant

  /** Somewhere in the session's hands. */
  predicate Pending(s: State, t: nat) {
    t in s.queue || t in s.hash || t in s.sending
  }

  ghost predicate CmdOk(s: State, t: nat)
    requires t in s.cmds
  {
    var c := s.cmds[t];
    && c.callbacks <= 1 && !c.early
    && (c.callbacks == 0 ==> Pending(s, t) && !c.aborted)
    && (c.callbacks == 1 ==>
          t !in s.queue && t !in s.hash && (t in s.sending ==> c.aborted && c.kind != NopOut(false)))
    && (t in s.sending ==> t !in s.queue && (t in s.hash || c.aborted) && !c.txDone)
    && (t in s.hash && t !in s.sending ==> c.txDone)
    && (t in s.queue && t in s.hash ==> c.r2tRequest == 1)
    && c.r2tRequest <= 1
    && (t in s.queue && c.r2tRequest == 0 ==> c.bytesToDev == c.bytesFromDev == 0)
    && (!c.kind.Scsi? ==> c.bytesToDev == c.bytesFromDev == 0)
    && (c.r2tRequest == 1 ==> c.kind.Scsi? && (t in s.queue || t in s.sending || c.callbacks == 1))
  }

  ghost predicate Inv(s: State) {
    && !s.failed
    && NoDup(s.queue) && |s.queue| <= QUEUE_DEPTH
    && |s.sending| <= 1
    && (forall t :: Pending(s, t) ==> t in s.cmds)
    && (forall t :: t in s.cmds ==> CmdOk(s, t))
  }

  /** The commands of a list that outlive the session. */
  function Keep(cmds: map<nat, Cmd>, q: seq<nat>): seq<nat> {
    if q == [] then []
    else (if q[0] in cmds && IsSession(cmds[q[0]].kind) then [] else [q[0]]) + Keep(cmds, q[1..])
  }

  /** The discipline under which the session behaves: one R2T at a time and room to queue
      it, no response while an R2T waits, no abort of a command that is complete or of
      a NOP-Out without ping that is being sent, and recovery only when no command is
      both queued and outstanding and all that survive fit the queue. */
  ghost predicate Orderly(s: State, e: Event) {
    match e
    case R2t(t, _) => t in s.cmds && s.cmds[t].r2tRequest == 0 && |s.queue| < QUEUE_DEPTH
    case Response(t) => t !in s.queue
    case Abort(t) => t in s.cmds && s.cmds[t].callbacks == 0 && !(t in s.sending && s.cmds[t].kind == NopOut(false))
    case Recover(order) =>
      (forall t :: t in s.queue ==> t !in s.hash)
      && |Keep(s.cmds, s.queue)| + |Keep(s.cmds, order)| <= QUEUE_DEPTH
    case _ => true
  }
}
