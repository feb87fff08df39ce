/** `iscsi_sock_msg` (util.c): a message gathered from, or scattered into, a list of
    pieces, by as many `writev` or `readv` calls as it takes.  A call may move any part of
    what is left; the list is then narrowed to the rest. */
module Socket {
  import opened Iov

  /** The sum of the piece lengths, by the loop of the source. */
  method SumLengths(iov: array<IoVec>, from: nat, to: nat) returns (total: nat)
    requires from <= to <= iov.Length
    ensures total == Total(iov[from..to])
  {
    ghost var vs := iov[from..to];
    total := 0;
    var i := from;
    while i < to
      invariant from <= i <= to && total == Total(vs[..i - from])
    {
      FlatSnoc(vs, i - from);
      total := total + iov[i].len;
      i := i + 1;
    }
    assert vs[..to - from] == vs;
  }

  /** How much a `writev` or `readv` moves: at most what is asked for, and something,
      unless there is nothing to move or the connection is not up. */
  method Moved(total: nat, up: bool) returns (rc: nat)
    ensures rc <= total && (up && total > 0 ==> rc > 0)
  {
    rc :| rc <= total && (up && total > 0 ==> rc > 0);
  }

  lemma {:induction false} GatherSlice(mem: Memory, addrs: seq<nat>, a: nat, b: nat)
    requires a <= b <= |addrs|
    ensures Gather(mem, addrs[a..b]) == Gather(mem, addrs)[a..b]
  {
  }

  /** A part moved out of what was left extends what was moved before. */
  lemma {:induction false} Extend<T>(all: seq<T>, done: nat, part: nat)
    requires done + part <= |all|
    ensures all[..done] + all[done..][..part] == all[..done + part]
    ensures all[done..][part..] == all[done + part..]
  {
  }

  lemma {:induction false} MovedPart(mem: Memory, addrs: seq<nat>, done: nat, part: nat)
    requires done + part <= |addrs|
    ensures Gather(mem, addrs)[..done] + Gather(mem, addrs[done..])[..part] == Gather(mem, addrs)[..done + part]
    ensures addrs[done..][part..] == addrs[done + part..]
  {
    var all := Gather(mem, addrs);
    GatherSlice(mem, addrs, done, |addrs|);
    assert addrs[done..|addrs|] == addrs[done..] && all[done..|addrs|] == all[done..];
    Extend(all, done, part);
    Extend(addrs, done, part);
  }

  lemma {:induction false} SliceToEnd<T>(s: seq<T>, from: nat, n: nat)
    requires from + n == |s|
    ensures s[from..from + n] == s[from..]
  {
  }

  /** The message is refused when the list is not exactly as long.  Otherwise what goes
      out is a prefix of what the list describes, nothing twice and nothing left out,
      however the writes divide it, and all of it while the connection is up.  At the end
      the pieces are put back at the place where the list has been narrowed to; that is
      where they were only if no write got past the first piece (`at` == 0). */
  method Send(mem: Memory, iov: array<IoVec>, len: nat, up: bool)
    returns (sent: int, data: seq<int>, at: nat, count: nat)
    modifies iov
    ensures sent >= -1
    ensures sent == -1 <==> Total(old(iov[..])) != len
    ensures sent == -1 ==> iov[..] == old(iov[..])
    ensures sent >= 0 ==> sent <= len && data == Gather(mem, Flat(old(iov[..])))[..sent]
    ensures sent >= 0 && up ==> sent == len
    ensures sent >= 0 ==> at + count <= iov.Length && iov[at..at + count] == old(iov[..count])
    ensures sent >= 0 && at == 0 ==> iov[..] == old(iov[..])
  {
    hide Flat, Total, Addresses, Gather;
    at, count := 0, iov.Length;
    ghost var addrs := Flat(iov[..]);
    ghost var all := Gather(mem, addrs);
    var orig := iov[..];
    assert iov[0..iov.Length] == iov[..];
    var total := SumLengths(iov, 0, iov.Length);
    if total != len {
      return -1, [], at, count;
    }
    sent, data := 0, [];
    while true
      invariant 0 <= sent <= len && at + count <= iov.Length
      invariant Flat(iov[at..at + count]) == addrs[sent..]
      invariant data == all[..sent]
      invariant sent == 0 || sent < len
      invariant forall i :: at < i < iov.Length ==> iov[i] == orig[i]
      invariant if sent == 0 then iov[..] == orig else count > 0
      decreases len - sent
    {
      total := SumLengths(iov, at, at + count);
      assert total == len - sent;
      var rc := Moved(total, up);
      if rc == 0 {
        break;
      }
      MovedPart(mem, addrs, sent, rc);
      data := data + Gather(mem, Flat(iov[at..at + count]))[..rc];
      sent := sent + rc;
      if sent == len {
        break;
      }
      at, count := Narrow(iov, at, count, rc, len - sent);
    }
    PutBack(iov, at, orig[..count]);
  }

  /** `modify_iov` on what is left of the list, of which `rc` bytes have been moved. */
  method Narrow(iov: array<IoVec>, at: nat, count: nat, rc: nat, rest: nat) returns (at': nat, count': nat)
    requires at + count <= iov.Length && 0 < rest && rc + rest == Total(iov[at..at + count])
    modifies iov
    ensures at <= at' && 0 < count' && at' + count' <= at + count
    ensures Flat(iov[at'..at' + count']) == old(Flat(iov[at..at + count]))[rc..]
    ensures forall i :: 0 <= i < iov.Length && i != at' ==> iov[i] == old(iov[i])
  {
    hide Flat, Total, Addresses;
    ghost var left := iov[at..at + count];
    var ok;
    ok, at', count' := ModifyIov(iov, at, at + count, rc, rest);
    SliceToEnd(Flat(left), rc, rest);
  }

  method PutBack(iov: array<IoVec>, at: nat, pieces: seq<IoVec>)
    requires at + |pieces| <= iov.Length
    modifies iov
    ensures iov[at..at + |pieces|] == pieces
    ensures forall i :: 0 <= i < iov.Length && !(at <= i < at + |pieces|) ==> iov[i] == old(iov[i])
  {
    forall i | 0 <= i < |pieces| {
      iov[at + i] := pieces[i];
    }
  }

  // ----- receiving

  ghost predicate Distinct(addrs: seq<nat>) {
    forall i, j :: 0 <= i < j < |addrs| ==> addrs[i] != addrs[j]
  }

  ghost predicate Within(addrs: seq<nat>, size: nat) {
    forall i :: 0 <= i < |addrs| ==> addrs[i] < size
  }

  /** `mem'` is `mem` with `data` stored at `addrs`, and nowhere else. */
  ghost predicate Written(mem: seq<int>, mem': seq<int>, addrs: seq<nat>, data: seq<int>) {
    && |mem| == |mem'| && |addrs| == |data| && Within(addrs, |mem|)
    && (forall i :: 0 <= i < |data| ==> mem'[addrs[i]] == data[i])
    && (forall a :: 0 <= a < |mem| && a !in addrs ==> mem'[a] == mem[a])
  }

  lemma {:induction false} SliceDistinct(addrs: seq<nat>, size: nat, from: nat, to: nat)
    requires Distinct(addrs) && Within(addrs, size) && from <= to <= |addrs|
    ensures Distinct(addrs[from..to]) && Within(addrs[from..to], size)
  {
  }

  /** Storing the next part keeps what was stored before. */
  lemma {:induction false} WrittenMore(m0: seq<int>, m1: seq<int>, m2: seq<int>, addrs: seq<nat>, data: seq<int>, a: nat, b: nat)
    requires Distinct(addrs) && a <= b <= |addrs| == |data|
    requires Written(m0, m1, addrs[..a], data[..a]) && Written(m1, m2, addrs[a..b], data[a..b])
    ensures Written(m0, m2, addrs[..b], data[..b])
  {
    assert forall i :: 0 <= i < a ==> addrs[..a][i] == addrs[i] && data[..a][i] == data[i];
    assert forall i :: a <= i < b ==> addrs[a..b][i - a] == addrs[i] && data[a..b][i - a] == data[i];
    forall i | 0 <= i < b ensures addrs[i] < |m0| && m2[addrs[i]] == data[i] {
      if i < a {
        assert addrs[i] !in addrs[a..b];
      }
    }
    forall x | 0 <= x < |m0| && x !in addrs[..b] ensures m2[x] == m0[x] {
      assert addrs[..b] == addrs[..a] + addrs[a..b];
    }
  }

  /** What one `readv` stores. */
  method Scatter(mem: array<int>, addrs: seq<nat>, data: seq<int>)
    requires Distinct(addrs) && Within(addrs, mem.Length) && |addrs| == |data|
    modifies mem
    ensures Written(old(mem[..]), mem[..], addrs, data)
  {
    for i := 0 to |data|
      invariant forall k :: 0 <= k < i ==> mem[addrs[k]] == data[k]
      invariant forall a :: 0 <= a < mem.Length && a !in addrs ==> mem[a] == old(mem[a])
    {
      mem[addrs[i]] := data[i];
    }
  }

  /** `data` is what the other end has sent.  However the reads divide it, what has come
      is stored where the list says, in order and nowhere else; the list is put back as by
      `Send`. */
  method Receive(mem: array<int>, iov: array<IoVec>, from: nat, to: nat, data: seq<int>, up: bool)
    returns (got: int, at: nat, count: nat)
    requires from <= to <= iov.Length
    requires Distinct(Flat(iov[from..to])) && Within(Flat(iov[from..to]), mem.Length)
    modifies mem, iov
    ensures got >= -1 && (got == -1 <==> Total(old(iov[from..to])) != |data|)
    ensures got == -1 ==> iov[..] == old(iov[..]) && mem[..] == old(mem[..])
    ensures got >= 0 ==> got <= |data| && (up ==> got == |data|)
                         && Written(old(mem[..]), mem[..], Flat(old(iov[from..to]))[..got], data[..got])
    ensures got >= 0 ==> from <= at && at + count <= to && (at < to || from == to)
    ensures got >= 0 && at == from ==> iov[..] == old(iov[..])
  {
    hide Flat, Total, Addresses, Distinct, Within, Written;
    at, count := from, to - from;
    var len := |data|;
    ghost var addrs := Flat(iov[from..to]);
    ghost var before := mem[..];
    var whole := iov[..];
    var orig := iov[from..to];
    var total := SumLengths(iov, from, to);
    if total != len {
      return -1, at, count;
    }
    got := 0;
    assert addrs[0..] == addrs;
    NothingWritten(before, addrs, data);
    while true
      invariant 0 <= got <= len && from <= at && at + count <= to
      invariant Flat(iov[at..at + count]) == addrs[got..]
      invariant Written(before, mem[..], addrs[..got], data[..got])
      invariant got == 0 || got < len
      invariant forall i :: 0 <= i < iov.Length && !(from <= i <= at) ==> iov[i] == whole[i]
      invariant if got == 0 then at == from && iov[..] == whole && count == to - from else count > 0
      decreases len - got
    {
      total := SumLengths(iov, at, at + count);
      assert total == len - got;
      var rc := Moved(total, up);
      if rc == 0 {
        break;
      }
      Extend(addrs, got, rc);
      SliceDistinct(addrs, mem.Length, got, got + rc);
      ghost var here := mem[..];
      Scatter(mem, Flat(iov[at..at + count])[..rc], data[got..got + rc]);
      assert addrs[got..][..rc] == addrs[got..got + rc];
      WrittenMore(before, here, mem[..], addrs, data, got, got + rc);
      got := got + rc;
      if got == len {
        break;
      }
      at, count := Narrow(iov, at, count, rc, len - got);
    }
    PutBack(iov, at, orig[..count]);
  }

  lemma {:induction false} NothingWritten(mem: seq<int>, addrs: seq<nat>, data: seq<int>)
    ensures Written(mem, mem, addrs[..0], data[..0])
  {
  }
}
