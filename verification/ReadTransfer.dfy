/** Data-In PDUs scattered into the receive list of a read (`scsi_read_data_i`). */
module ReadTransfer {
  import opened Iov
  import opened Sequences
  import opened Socket

  function Contents(mem: seq<int>, addrs: seq<nat>): (data: seq<int>)
    requires Within(addrs, |mem|)
    ensures |data| == |addrs|
    ensures forall i :: 0 <= i < |addrs| ==> data[i] == mem[addrs[i]]
  {
    seq(|addrs|, i requires 0 <= i < |addrs| => mem[addrs[i]])
  }

  lemma {:induction false} NotInSlice(addrs: seq<nat>, k: nat, from: nat, to: nat)
    requires Distinct(addrs) && from <= to <= |addrs| && k < |addrs| && !(from <= k < to)
    ensures addrs[k] !in addrs[from..to]
  {
    var part := addrs[from..to];
    forall i | 0 <= i < |part| ensures part[i] != addrs[k] {
      assert part[i] == addrs[from + i];
    }
  }

  /** Storing `data` at the addresses addrs[offset..offset + |data|] and nowhere else
      splices it into the contents. */
  lemma {:induction false} StoreIsSplice(mem: seq<int>, mem': seq<int>, addrs: seq<nat>, offset: nat, data: seq<int>)
    requires |mem| == |mem'| && Distinct(addrs) && Within(addrs, |mem|)
    requires offset + |data| <= |addrs|
    requires Written(mem, mem', addrs[offset..offset + |data|], data)
    ensures Contents(mem', addrs) == Splice(Contents(mem, addrs), offset, data)
  {
    forall k | 0 <= k < |addrs|
      ensures Contents(mem', addrs)[k] == Splice(Contents(mem, addrs), offset, data)[k]
    {
      if offset <= k < offset + |data| {
        assert addrs[offset..offset + |data|][k - offset] == addrs[k];
      } else {
        NotInSlice(addrs, k, offset, offset + |data|);
      }
    }
  }

  // ----- whole reads

  datatype DataIn = DataIn(offset: nat, data: seq<int>, final: bool, status: bool)

  predicate InList(d: DataIn, size: nat) {
    d.offset + |d.data| <= size
  }

  /** Where the data go: a PDU as long as the whole transfer goes to the start. */
  function Placed(d: DataIn, transLen: nat): DataIn {
    if |d.data| == transLen then d.(offset := 0) else d
  }

  function PlacedAll(ds: seq<DataIn>, transLen: nat): (r: seq<DataIn>)
    ensures |r| == |ds|
    ensures forall k :: 0 <= k < |ds| ==> r[k] == Placed(ds[k], transLen)
  {
    seq(|ds|, k requires 0 <= k < |ds| => Placed(ds[k], transLen))
  }

  ghost predicate Carries(d: DataIn, sent: seq<int>) {
    InList(d, |sent|) && d.data == sent[d.offset..d.offset + |d.data|]
  }

  predicate Fit(ds: seq<DataIn>, size: nat) {
    forall k :: 0 <= k < |ds| ==> InList(ds[k], size)
  }

  /** Fold the PDUs into the buffer. */
  function Apply(buffer: seq<int>, ds: seq<DataIn>): (r: seq<int>)
    requires Fit(ds, |buffer|)
    ensures |r| == |buffer|
    decreases |ds|
  {
    if ds == [] then buffer
    else assert InList(ds[0], |buffer|); Apply(Splice(buffer, ds[0].offset, ds[0].data), ds[1..])
  }

  lemma {:induction false} ApplySnoc(buffer: seq<int>, ds: seq<DataIn>, d: DataIn)
    requires Fit(ds, |buffer|) && InList(d, |buffer|)
    ensures Fit(ds + [d], |buffer|)
    ensures Apply(buffer, ds + [d]) == Splice(Apply(buffer, ds), d.offset, d.data)
    ensures Bytes(ds + [d]) == Bytes(ds) + |d.data|
    decreases |ds|
  {
    if ds == [] {
      assert [d][1..] == [];
    } else {
      assert InList(ds[0], |buffer|);
      assert (ds + [d])[0] == ds[0] && (ds + [d])[1..] == ds[1..] + [d];
      ApplySnoc(Splice(buffer, ds[0].offset, ds[0].data), ds[1..], d);
    }
  }

  lemma {:induction false} PlacedCarries(ds: seq<DataIn>, sent: seq<int>)
    requires forall k :: 0 <= k < |ds| ==> Carries(ds[k], sent)
    ensures PlacedAll(ds, |sent|) == ds
  {
    forall k | 0 <= k < |ds| ensures Placed(ds[k], |sent|) == ds[k] {
      assert Carries(ds[k], sent);
    }
  }

  /** How many of the PDUs carry byte i. */
  function Times(ds: seq<DataIn>, i: nat): nat {
    if ds == [] then 0
    else (if ds[0].offset <= i < ds[0].offset + |ds[0].data| then 1 else 0) + Times(ds[1..], i)
  }

  function Bytes(ds: seq<DataIn>): nat {
    if ds == [] then 0 else |ds[0].data| + Bytes(ds[1..])
  }

  lemma {:induction false} AppliedByte(buffer: seq<int>, ds: seq<DataIn>, sent: seq<int>, i: nat)
    requires |buffer| == |sent| && i < |sent|
    requires forall k :: 0 <= k < |ds| ==> Carries(ds[k], sent)
    ensures Fit(ds, |buffer|)
    ensures Apply(buffer, ds)[i] == if Times(ds, i) > 0 then sent[i] else buffer[i]
    decreases |ds|
  {
    if ds != [] {
      var d := ds[0];
      assert Carries(d, sent);
      AppliedByte(Splice(buffer, d.offset, d.data), ds[1..], sent, i);
      assert Times(ds, i) > 0 && Times(ds[1..], i) == 0 ==> d.data[i - d.offset] == sent[i];
    }
  }

  /** The sum of Times(ds, i) for i < n. */
  function TimesBelow(ds: seq<DataIn>, n: nat): nat {
    if n == 0 then 0 else TimesBelow(ds, n - 1) + Times(ds, n - 1)
  }

  function Overlap(d: DataIn, n: nat): nat {
    if n <= d.offset then 0 else if n < d.offset + |d.data| then n - d.offset else |d.data|
  }

  lemma {:induction false} TimesBelowCons(ds: seq<DataIn>, n: nat)
    requires ds != []
    ensures TimesBelow(ds, n) == Overlap(ds[0], n) + TimesBelow(ds[1..], n)
  {
    if n > 0 {
      TimesBelowCons(ds, n - 1);
    }
  }

  lemma {:induction false} TimesBelowNil(n: nat)
    ensures TimesBelow([], n) == 0
  {
    if n > 0 {
      TimesBelowNil(n - 1);
    }
  }

  /** Counting bytes by PDU or by position is the same. */
  lemma {:induction false} BytesByPosition(ds: seq<DataIn>, n: nat)
    requires Fit(ds, n)
    ensures Bytes(ds) == TimesBelow(ds, n)
  {
    if ds == [] {
      TimesBelowNil(n);
    } else {
      BytesByPosition(ds[1..], n);
      TimesBelowCons(ds, n);
    }
  }

  lemma {:induction false} AtLeastOnceEach(ds: seq<DataIn>, n: nat)
    requires forall i :: 0 <= i < n ==> Times(ds, i) >= 1
    ensures TimesBelow(ds, n) >= n
    ensures TimesBelow(ds, n) == n <==> forall i :: 0 <= i < n ==> Times(ds, i) == 1
  {
    if n > 0 {
      AtLeastOnceEach(ds, n - 1);
      assert Times(ds, n - 1) >= 1;
      if TimesBelow(ds, n) == n {
        assert TimesBelow(ds, n - 1) == n - 1 && Times(ds, n - 1) == 1;
      }
    }
  }

  /** Whatever order the Data-In PDUs come in and whatever the buffer held: it ends as
      the data sent exactly when, up to bytes that were already right, every byte was
      carried; and then the byte counter equals the transfer length exactly when no
      byte was carried twice. */
  lemma {:induction false} ReadDelivers(buffer: seq<int>, ds: seq<DataIn>, sent: seq<int>)
    requires |buffer| == |sent|
    requires forall k :: 0 <= k < |ds| ==> Carries(ds[k], sent)
    ensures Fit(ds, |buffer|)
    ensures Apply(buffer, ds) == sent
            <==> forall i :: 0 <= i < |sent| ==> Times(ds, i) > 0 || buffer[i] == sent[i]
    ensures (forall i :: 0 <= i < |sent| ==> Times(ds, i) > 0) ==>
              (Bytes(ds) == |sent| <==> forall i :: 0 <= i < |sent| ==> Times(ds, i) == 1)
  {
    forall i | 0 <= i < |sent|
      ensures Apply(buffer, ds)[i] == if Times(ds, i) > 0 then sent[i] else buffer[i]
    {
      AppliedByte(buffer, ds, sent, i);
    }
    if Apply(buffer, ds) == sent {
      forall i | 0 <= i < |sent| ensures Times(ds, i) > 0 || buffer[i] == sent[i] {
        assert Apply(buffer, ds)[i] == sent[i];
      }
    }
    BytesByPosition(ds, |sent|);
    if forall i :: 0 <= i < |sent| ==> Times(ds, i) > 0 {
      AtLeastOnceEach(ds, |sent|);
    }
  }

  // ----- the command

  /** How a Data-In is dealt with: stored, with or without an error for the status that
      comes with it; refused before anything is read; its place not in the receive list; or
      the connection lost after `got` bytes. */
  datatype Outcome = Stored(ok: bool) | Refused | OutOfList | Lost(got: nat)

  /** One read in flight. */
  class ReadCommand {
    const maxSeg: nat
    const mem: array<int>
    const recv: array<IoVec>
    const transLen: nat
    ghost const list: seq<nat>   // the addresses of the receive list as the caller gave it
    var bytesFromDev: nat
    var good: bool               // status has arrived with the last PDU

    constructor (maxSeg: nat, mem: array<int>, recv: array<IoVec>, transLen: nat)
      requires Distinct(Flat(recv[..])) && Within(Flat(recv[..]), mem.Length)
      ensures this.maxSeg == maxSeg && this.mem == mem && this.recv == recv && this.transLen == transLen
      ensures Valid() && list == Flat(recv[..]) && bytesFromDev == 0 && !good
    {
      this.maxSeg, this.mem, this.recv, this.transLen := maxSeg, mem, recv, transLen;
      list := Flat(recv[..]);
      bytesFromDev, good := 0, false;
    }

    /** The receive list is as the caller gave it. */
    ghost predicate Valid()
      reads recv
    {
      Flat(recv[..]) == list && Distinct(list) && Within(list, mem.Length)
    }

    /** What has been received, in transfer order. */
    ghost function Received(): (data: seq<int>)
      requires Within(list, mem.Length)
      reads mem
      ensures |data| == |list|
    {
      Contents(mem[..], list)
    }

    /** The two-loop trim of `scsi_read_data_i` on the copy `sg` of the list.  The source
        checks neither loop for running off the end, so it does where `ok` is false. */
    method Trim(sg: array<IoVec>, offset: nat, count: nat) returns (ok: bool, from: nat, to: nat)
      modifies sg
      ensures ok <==> offset < Total(old(sg[..])) && offset + count <= Total(old(sg[..]))
      ensures ok ==> from <= to <= sg.Length
                     && Flat(sg[from..to]) == Flat(old(sg[..]))[offset..offset + count]
    {
      hide Flat, Total, Addresses;
      ghost var addrs := Flat(sg[..]);
      assert sg[0..sg.Length] == sg[..];
      to := 0;
      ok, from := DropBefore(sg, 0, sg.Length, offset);
      if !ok {
        return;
      }
      assert Total(sg[from..sg.Length]) == |Flat(sg[from..sg.Length])|;
      var n;
      ok, n := KeepUpTo(sg, from, sg.Length, count);
      if ok {
        to := from + n;
        TakeOfDrop(addrs, offset, count);
      }
    }

    /** `scsi_read_data_i` for a read with a receive list.  A PDU as long as the whole
        transfer is stored from the start of the list, whatever its offset, and through the
        list itself: one that comes in parts may leave the list moved. */
    method ReadData(d: DataIn, up: bool) returns (r: Outcome)
      requires Valid()
      modifies this, mem, recv
      ensures |d.data| != transLen ==> recv[..] == old(recv[..])
      ensures up && recv.Length == 1 ==> recv[..] == old(recv[..])
      ensures r.Refused? <==> (maxSeg != 0 && |d.data| > maxSeg) || |d.data| == transLen != |list|
      ensures r.OutOfList? <==> (maxSeg == 0 || |d.data| <= maxSeg) && |d.data| != transLen
                                && (d.offset >= |list| || d.offset + |d.data| > |list|)
      ensures r.Stored? || r.Lost? ==> InList(Placed(d, transLen), |list|)
      ensures r.Stored? ==>
                var at := if |d.data| == transLen then 0 else d.offset;
                at + |d.data| <= |list| && Received() == Splice(old(Received()), at, d.data)
      ensures r.Stored? ==> bytesFromDev == old(bytesFromDev) + |d.data|
                            && (r.ok <==> (d.status ==> d.final)) && good == (old(good) || (r.ok && d.status))
      ensures !r.Stored? ==> bytesFromDev == old(bytesFromDev) && good == old(good)
      ensures r.Refused? || r.OutOfList? ==> mem[..] == old(mem[..]) && recv[..] == old(recv[..])
      ensures r.Lost? ==> !up && r.got < |d.data|
                          && Received() == Splice(old(Received()), Placed(d, transLen).offset, d.data[..r.got])
    {
      hide Flat, Total, Addresses, Distinct, Within, Written, Splice, Contents;
      if maxSeg != 0 && |d.data| > maxSeg {
        return Refused;
      }
      var n := recv.Length;
      ghost var before := mem[..];
      var sg, from, to := recv, 0, n;
      assert recv[0..n] == recv[..];
      if |d.data| != transLen {
        sg := new IoVec[n](i requires 0 <= i < n reads recv => recv[i]);
        assert sg[..] == recv[..];
        var ok;
        ok, from, to := Trim(sg, d.offset, |d.data|);
        if !ok {
          return OutOfList;
        }
      }
      ghost var at := Placed(d, transLen).offset;
      ghost var part := Flat(sg[from..to]);
      assert |part| == |d.data| ==> part == list[at..at + |d.data|];
      if |part| == |d.data| {
        SliceDistinct(list, mem.Length, at, at + |d.data|);
      }
      assert list[0..|list|] == list;
      var got, place, count := Receive(mem, sg, from, to, d.data, up);
      if got < 0 {
        return Refused;
      }
      SliceOfSlice(list, at, |d.data|, got);
      StoreIsSplice(before, mem[..], list, at, d.data[..got]);
      if got != |d.data| {
        return Lost(got);
      }
      assert d.data[..got] == d.data;
      bytesFromDev := bytesFromDev + |d.data|;
      if d.status {
        if !d.final {
          return Stored(false);
        }
        good := true;
      }
      r := Stored(true);
    }

    /** What is stored without an error while the connection is up. */
    ghost predicate Taken(d: DataIn) {
      && (maxSeg == 0 || |d.data| <= maxSeg) && (d.status ==> d.final)
      && if |d.data| == transLen then transLen == |list| else d.offset < |list| && d.offset + |d.data| <= |list|
    }

    /** A run of Data-Ins, up to one as long as the whole transfer.  What is stored is the
        fold of the PDUs; when they carry what was sent and come in any order, the buffer
        ends as it was sent exactly when every byte was carried or right before, and the
        counter then counts the transfer exactly when no byte was carried twice. */
    method ReadAll(ds: seq<DataIn>, ghost sent: seq<int>) returns (ok: bool, n: nat)
      requires Valid()
      modifies this, mem, recv
      ensures n <= |ds| && Fit(PlacedAll(ds[..n], transLen), |list|)
      ensures Received() == Apply(old(Received()), PlacedAll(ds[..n], transLen))
      ensures bytesFromDev == old(bytesFromDev) + Bytes(PlacedAll(ds[..n], transLen))
      ensures ok <==> forall k :: 0 <= k < |ds| ==> Taken(ds[k]) && (k + 1 < |ds| ==> |ds[k].data| != transLen)
      ensures ok && |sent| == transLen == |list| && (forall k :: 0 <= k < |ds| ==> Carries(ds[k], sent)) ==>
                && (Received() == sent
                    <==> forall i :: 0 <= i < |sent| ==> Times(ds, i) > 0 || old(Received())[i] == sent[i])
                && ((forall i :: 0 <= i < |sent| ==> Times(ds, i) > 0) ==>
                      (bytesFromDev == old(bytesFromDev) + transLen
                       <==> forall i :: 0 <= i < |sent| ==> Times(ds, i) == 1))
    {
      hide Flat, Total, Distinct, Within, Splice, Contents, Apply, Bytes, Times;
      n := 0;
      ghost var first := Received();
      NothingApplied(first);
      while n < |ds|
        invariant n <= |ds| && Valid() && Fit(PlacedAll(ds[..n], transLen), |list|)
        invariant Received() == Apply(first, PlacedAll(ds[..n], transLen))
        invariant bytesFromDev == old(bytesFromDev) + Bytes(PlacedAll(ds[..n], transLen))
        invariant forall k :: 0 <= k < n ==> Taken(ds[k]) && |ds[k].data| != transLen
      {
        var r := ReadData(ds[n], true);
        if !r.Stored? {
          return false, n;
        }
        PlacedNext(first, ds, n, transLen);
        n := n + 1;
        if !r.ok {
          return false, n;
        }
        if |ds[n - 1].data| == transLen {
          break;
        }
      }
      ok := n == |ds|;
      if ok {
        assert ds[..n] == ds;
        Delivered(first, ds, sent, transLen);
      }
    }
  }

  lemma {:induction false} NothingApplied(buffer: seq<int>)
    ensures Apply(buffer, []) == buffer && Bytes([]) == 0
  {
  }

  lemma {:induction false} PlacedNext(buffer: seq<int>, ds: seq<DataIn>, n: nat, transLen: nat)
    requires n < |ds| && Fit(PlacedAll(ds[..n], transLen), |buffer|) && InList(Placed(ds[n], transLen), |buffer|)
    ensures Fit(PlacedAll(ds[..n + 1], transLen), |buffer|)
    ensures var d := Placed(ds[n], transLen);
            Apply(buffer, PlacedAll(ds[..n + 1], transLen))
            == Splice(Apply(buffer, PlacedAll(ds[..n], transLen)), d.offset, d.data)
    ensures Bytes(PlacedAll(ds[..n + 1], transLen)) == Bytes(PlacedAll(ds[..n], transLen)) + |ds[n].data|
  {
    var d := Placed(ds[n], transLen);
    ApplySnoc(buffer, PlacedAll(ds[..n], transLen), d);
    assert PlacedAll(ds[..n + 1], transLen) == PlacedAll(ds[..n], transLen) + [d];
  }

  lemma {:induction false} Delivered(buffer: seq<int>, ds: seq<DataIn>, sent: seq<int>, transLen: nat)
    requires Fit(PlacedAll(ds, transLen), |buffer|)
    ensures |sent| == transLen == |buffer| && (forall k :: 0 <= k < |ds| ==> Carries(ds[k], sent)) ==>
              && (Apply(buffer, PlacedAll(ds, transLen)) == sent
                  <==> forall i :: 0 <= i < |sent| ==> Times(ds, i) > 0 || buffer[i] == sent[i])
              && ((forall i :: 0 <= i < |sent| ==> Times(ds, i) > 0) ==>
                    (Bytes(PlacedAll(ds, transLen)) == transLen
                     <==> forall i :: 0 <= i < |sent| ==> Times(ds, i) == 1))
  {
    if |sent| == transLen == |buffer| && forall k :: 0 <= k < |ds| ==> Carries(ds[k], sent) {
      PlacedCarries(ds, sent);
      ReadDelivers(buffer, ds, sent);
    }
  }

  lemma {:induction false} SliceOfSlice<T>(s: seq<T>, at: nat, n: nat, k: nat)
    requires k <= n && at + n <= |s|
    ensures s[at..at + n][..k] == s[at..at + k]
  {
  }
}
