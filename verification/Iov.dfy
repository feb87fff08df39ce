/** Scatter/gather lists (struct iovec) and the in-place trimming of
    `modify_iov` (util.c).

    Memory is addressed by natural numbers.  The meaning of a list is the sequence
    of addresses it visits, `Flat`; trimming a list must cut exactly a slice out of
    that sequence, whatever the lengths of the pieces (zero included).
  */
module Iov {

  datatype IoVec = IoVec(base: nat, len: nat)

  type Memory = nat -> int

  function Addresses(v: IoVec): seq<nat> {
    seq(v.len, i requires 0 <= i => v.base + i)
  }

  function Flat(vs: seq<IoVec>): (addrs: seq<nat>)
    ensures |addrs| == Total(vs)
  {
    if vs == [] then [] else Addresses(vs[0]) + Flat(vs[1..])
  }

  function Total(vs: seq<IoVec>): nat {
    if vs == [] then 0 else vs[0].len + Total(vs[1..])
  }

  /** What a gathering write sends for a list of addresses. */
  function Gather(mem: Memory, addrs: seq<nat>): (data: seq<int>)
    ensures |data| == |addrs|
    ensures forall i :: 0 <= i < |addrs| ==> data[i] == mem(addrs[i])
  {
    seq(|addrs|, i requires 0 <= i < |addrs| => mem(addrs[i]))
  }

  lemma {:induction false} FlatAppend(a: seq<IoVec>, b: seq<IoVec>)
    ensures Flat(a + b) == Flat(a) + Flat(b)
    ensures Total(a + b) == Total(a) + Total(b)
  {
    if a == [] {
      assert a + b == b;
    } else {
      assert (a + b)[0] == a[0] && (a + b)[1..] == a[1..] + b;
      FlatAppend(a[1..], b);
      assert Flat(a + b) == Addresses(a[0]) + (Flat(a[1..]) + Flat(b));
    }
  }

  lemma {:induction false} FlatSnoc(vs: seq<IoVec>, k: nat)
    requires k < |vs|
    ensures Flat(vs[..k + 1]) == Flat(vs[..k]) + Addresses(vs[k])
    ensures Total(vs[..k + 1]) == Total(vs[..k]) + vs[k].len
  {
    assert vs[..k + 1] == vs[..k] + [vs[k]];
    FlatAppend(vs[..k], [vs[k]]);
    assert Flat([vs[k]]) == Addresses(vs[k]) + Flat([]);
  }

  lemma {:induction false} FlatSplit(vs: seq<IoVec>, k: nat)
    requires k <= |vs|
    ensures Flat(vs) == Flat(vs[..k]) + Flat(vs[k..])
    ensures Total(vs) == Total(vs[..k]) + Total(vs[k..])
  {
    assert vs == vs[..k] + vs[k..];
    FlatAppend(vs[..k], vs[k..]);
  }

  /** Advancing the first piece by `disp` drops `disp` addresses from the front. */
  lemma {:induction false} DropFront(vs: seq<IoVec>, disp: nat, ws: seq<IoVec>)
    requires vs != [] && disp <= vs[0].len
    requires ws != [] && ws[1..] == vs[1..]
    requires ws[0] == IoVec(vs[0].base + disp, vs[0].len - disp)
    ensures Flat(ws) == Flat(vs)[disp..]
  {
    AddressesFrom(vs[0], disp);
    assert Flat(vs) == Addresses(vs[0]) + Flat(vs[1..]);
    assert Flat(ws) == Addresses(ws[0]) + Flat(vs[1..]);
    hide *;
    DropOfSum(Addresses(vs[0]), Flat(vs[1..]), disp);
  }

  lemma {:induction false} AddressesFrom(v: IoVec, disp: nat)
    requires disp <= v.len
    ensures |Addresses(v)| == v.len
    ensures Addresses(IoVec(v.base + disp, v.len - disp)) == Addresses(v)[disp..]
  {
  }

  lemma {:induction false} AddressesTo(v: IoVec, len: nat)
    requires len <= v.len
    ensures |Addresses(v)| == v.len
    ensures Addresses(IoVec(v.base, len)) == Addresses(v)[..len]
  {
  }

  lemma {:induction false} DropOfSum<T>(a: seq<T>, b: seq<T>, k: nat)
    requires k <= |a|
    ensures (a + b)[k..] == a[k..] + b
  {
  }

  /** A list that agrees with `s` before `j` and ends in `v`. */
  lemma {:induction false} SnocSlice<T>(s: seq<T>, j: nat, v: T, t: seq<T>)
    requires j <= |s| && |t| == j + 1 && t[j] == v
    requires forall i :: 0 <= i < j ==> t[i] == s[i]
    ensures t == s[..j] + [v]
  {
  }

  lemma {:induction false} TakeThree<T>(a: seq<T>, b: seq<T>, c: seq<T>, w: nat)
    requires w <= |b|
    ensures (a + b + c)[..|a| + w] == a + b[..w]
  {
  }

  lemma {:induction false} FlatSnocVec(a: seq<IoVec>, v: IoVec)
    ensures Flat(a + [v]) == Flat(a) + Addresses(v)
  {
    FlatAppend(a, [v]);
    assert [v][1..] == [];
  }

  /** Shortening piece `k` so that the first `k + 1` pieces hold `length` bytes keeps
      the first `length` addresses. */
  lemma {:induction false} CutBack(vs: seq<IoVec>, k: nat, excess: nat, length: nat)
    requires k < |vs|
    requires Total(vs[..k]) <= length && Total(vs[..k + 1]) == length + excess
    ensures length <= Total(vs)
    ensures excess <= vs[k].len
    ensures Flat(vs[..k] + [IoVec(vs[k].base, vs[k].len - excess)]) == Flat(vs)[..length]
  {
    hide Addresses, Flat, Total;
    FlatSnoc(vs, k);
    FlatSplit(vs, k + 1);
    var w := IoVec(vs[k].base, vs[k].len - excess);
    FlatSnocVec(vs[..k], w);
    AddressesTo(vs[k], w.len);
    TakeThree(Flat(vs[..k]), Addresses(vs[k]), Flat(vs[k + 1..]), w.len);
  }

  lemma {:induction false} TotalPrefix(vs: seq<IoVec>, k: nat)
    requires k <= |vs|
    ensures Total(vs[..k]) <= Total(vs)
  {
    FlatSplit(vs, k);
  }

  /** First loop of `modify_iov`, over the pieces [from, to): the piece in which byte
      `offset` lies, and how far into it, or `to` when the list is too short. */
  method FindOffset(iov: array<IoVec>, from: nat, to: nat, offset: nat) returns (i: nat, disp: nat)
    requires from <= to <= iov.Length
    ensures from <= i <= to
    ensures i == to <==> offset >= Total(iov[from..to])
    ensures i < to ==> Total(iov[from..to][..i - from]) + disp == offset && disp < iov[i].len
  {
    ghost var vs := iov[from..to];
    var total := 0;
    disp := offset;
    i := from;
    while i < to
      invariant from <= i <= to
      invariant total == Total(vs[..i - from]) <= offset && disp == offset - total
    {
      FlatSnoc(vs, i - from);
      total := total + iov[i].len;
      if total > offset {
        TotalPrefix(vs, i - from + 1);
        return;
      }
      disp := disp - iov[i].len;
      i := i + 1;
    }
    assert vs[..to - from] == vs;
  }

  /** Second loop of `modify_iov`: the piece in which `length` bytes end, counted from
      piece `start`, and by how much it is too long. */
  method FindEnd(iov: array<IoVec>, start: nat, n: nat, length: nat) returns (j: nat, excess: nat)
    requires start <= n <= iov.Length
    ensures j <= n - start
    ensures j == n - start <==> length > Total(iov[start..n]) || start == n
    ensures j < n - start ==> Total(iov[start..n][..j]) <= length
                              && Total(iov[start..n][..j + 1]) == length + excess
  {
    ghost var ws := iov[start..n];
    var total := 0;
    j := 0;
    excess := 0;
    while j < n - start
      invariant 0 <= j <= n - start
      invariant total == Total(ws[..j])
      invariant j > 0 ==> total < length
    {
      FlatSnoc(ws, j);
      total := total + iov[start + j].len;
      if total >= length {
        TotalPrefix(ws, j + 1);
        excess := total - length;
        return;
      }
      j := j + 1;
    }
    assert ws[..n - start] == ws;
  }

  /** The first loop and store of `modify_iov`: what lies before `offset` is dropped. */
  method DropBefore(iov: array<IoVec>, from: nat, to: nat, offset: nat) returns (ok: bool, start: nat)
    requires from <= to <= iov.Length
    modifies iov
    ensures ok <==> offset < Total(old(iov[from..to]))
    ensures ok ==> from <= start < to && Flat(iov[start..to]) == Flat(old(iov[from..to]))[offset..]
    ensures forall i :: 0 <= i < iov.Length && (!ok || i != start) ==> iov[i] == old(iov[i])
  {
    hide Flat, Total, Addresses;
    ghost var vs := iov[from..to];
    var disp;
    start, disp := FindOffset(iov, from, to, offset);
    if start == to {
      return false, start;
    }
    iov[start] := IoVec(iov[start].base + disp, iov[start].len - disp);
    ghost var ws := iov[start..to];
    assert ws[1..] == vs[start - from..][1..];
    DropsSlice(vs, start - from, disp, ws, offset);
    ok := true;
  }

  /** Advancing one piece, and leaving out those before it, drops the front of the list. */
  lemma {:induction false} DropsSlice(vs: seq<IoVec>, start: nat, disp: nat, ws: seq<IoVec>, offset: nat)
    requires start < |vs| && disp <= vs[start].len && Total(vs[..start]) + disp == offset
    requires ws != [] && ws[1..] == vs[start..][1..]
    requires ws[0] == IoVec(vs[start].base + disp, vs[start].len - disp)
    ensures offset <= Total(vs) && Flat(ws) == Flat(vs)[offset..]
  {
    FlatSplit(vs, start);
    DropFront(vs[start..], disp, ws);
    assert Flat(vs[start..]) == Flat(vs)[Total(vs[..start])..];
    hide Flat, Total;
    DropDrop(Flat(vs), Total(vs[..start]), disp);
  }

  lemma {:induction false} DropDrop<T>(s: seq<T>, a: nat, b: nat)
    requires a + b <= |s|
    ensures s[a..][b..] == s[a + b..]
  {
  }

  /** The second loop and store: what lies behind `length` bytes is dropped. */
  method KeepUpTo(iov: array<IoVec>, start: nat, to: nat, length: nat) returns (ok: bool, count: nat)
    requires start < to <= iov.Length
    modifies iov
    ensures ok <==> length <= Total(old(iov[start..to]))
    ensures ok ==> 0 < count && start + count <= to
                   && Flat(iov[start..start + count]) == Flat(old(iov[start..to]))[..length]
    ensures length == Total(old(iov[start..to])) ==> iov[..] == old(iov[..])
    ensures forall i :: 0 <= i < iov.Length && !(start <= i < to) ==> iov[i] == old(iov[i])
  {
    hide Flat, Total, Addresses;
    ghost var ws := iov[start..to];
    var j, excess := FindEnd(iov, start, to, length);
    if j == to - start {
      return false, 0;
    }
    TotalPrefix(ws, j + 1);
    CutBack(ws, j, excess, length);
    assert iov[start + j] == ws[j];
    iov[start + j] := IoVec(iov[start + j].base, iov[start + j].len - excess);
    count := j + 1;
    SnocSlice(ws, j, IoVec(ws[j].base, ws[j].len - excess), iov[start..start + count]);
    ok := true;
  }

  lemma {:induction false} TakeOfDrop<T>(s: seq<T>, a: nat, n: nat)
    requires a + n <= |s|
    ensures s[a..][..n] == s[a..a + n]
  {
  }

  /** `modify_iov`: narrow the pieces [from, to) of `iov` to the bytes
      [offset, offset + length) of what they describe, in place.  On success the narrowed
      list is iov[start..start + count]; when it keeps everything behind `offset`, only its
      first piece has changed.  The two failures are the source's two `return -1`. */
  method ModifyIov(iov: array<IoVec>, from: nat, to: nat, offset: nat, length: nat)
    returns (ok: bool, start: nat, count: nat)
    requires from <= to <= iov.Length
    modifies iov
    ensures ok <==> offset < Total(old(iov[from..to])) && offset + length <= Total(old(iov[from..to]))
    ensures ok ==> from <= start && 0 < count && start + count <= to
                   && Flat(iov[start..start + count]) == Flat(old(iov[from..to]))[offset..offset + length]
    ensures ok && offset + length == Total(old(iov[from..to])) ==>
              forall i :: 0 <= i < iov.Length && i != start ==> iov[i] == old(iov[i])
  {
    hide Flat, Total, Addresses;
    ghost var addrs := Flat(iov[from..to]);
    count := 0;
    ok, start := DropBefore(iov, from, to, offset);
    if !ok {
      return;
    }
    assert Total(iov[start..to]) == |Flat(iov[start..to])|;
    ok, count := KeepUpTo(iov, start, to, length);
    if ok {
      TakeOfDrop(addrs, offset, length);
    }
  }
}
