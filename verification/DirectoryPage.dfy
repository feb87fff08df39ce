/** One page of an OSDFS directory (osdfs.c): records `name NUL ino NUL`, packed from the
    start of the page and closed by a zero byte. */
module DirectoryPage {
  import opened ByteOrder
  import opened Sequences

  const PAGE: nat := 4096

  /** sizeof(ino_t) */
  const INO: nat := 8

  datatype Entry = Entry(name: seq<byte>, ino: nat)

  /** What the VFS hands down: a C string that is not empty and fits a page. */
  ghost predicate ValidEntry(e: Entry) {
    Name(e.name) && RecLen(e) < PAGE && e.ino < Power(INO)
  }

  ghost predicate Name(s: seq<byte>) {
    s != [] && forall i :: 0 <= i < |s| ==> s[i] != 0
  }

  function RecLen(e: Entry): nat {
    |e.name| + 2 + INO
  }

  function Record(e: Entry): (r: seq<byte>)
    ensures |r| == RecLen(e)
  {
    e.name + [0] + Bytes(e.ino, INO) + [0]
  }

  /** A record byte by byte: the name, a zero, the inode number from its low byte up, and
      another zero. */
  lemma {:induction false} RecordBytes(e: Entry, i: nat)
    requires i < RecLen(e)
    ensures Record(e)[i]
            == if i < |e.name| then e.name[i]
               else if i == |e.name| || i == |e.name| + 9 then 0
               else Shift(e.ino, i - |e.name| - 1) % 256
  {
    if |e.name| < i < |e.name| + 9 {
      ByteAt(e.ino, INO, i - |e.name| - 1);
    }
  }

  lemma {:induction false} ByteAt(n: nat, width: nat, i: nat)
    requires i < width
    ensures Bytes(n, width)[i] == Shift(n, i) % 256
  {
    if i > 0 {
      ByteAt(n / 256, width - 1, i - 1);
      assert Bytes(n, width)[1..] == Bytes(n / 256, width - 1);
    }
  }

  function Encode(es: seq<Entry>): (r: seq<byte>)
    ensures |r| == Used(es)
  {
    if es == [] then [] else Record(es[0]) + Encode(es[1..])
  }

  function Used(es: seq<Entry>): nat {
    if es == [] then 0 else RecLen(es[0]) + Used(es[1..])
  }

  /** The entries a scan of the page meets. */
  ghost predicate Holds(p: seq<byte>, es: seq<Entry>) {
    && |p| == PAGE && Used(es) < PAGE
    && p[..Used(es)] == Encode(es) && p[Used(es)] == 0
    && AllValid(es)
  }

  ghost predicate ZerosFrom(p: seq<byte>, from: nat) {
    forall i :: from <= i < |p| ==> p[i] == 0
  }

  // ----- facts about lists of records

  lemma {:induction false} EncodeAppend(a: seq<Entry>, b: seq<Entry>)
    ensures Used(a + b) == Used(a) + Used(b)
    ensures Encode(a + b) == Encode(a) + Encode(b)
  {
    hide Record, RecLen;
    if a == [] {
      assert a + b == b;
    } else {
      assert (a + b)[0] == a[0] && (a + b)[1..] == a[1..] + b;
      EncodeAppend(a[1..], b);
      assert Encode(a + b) == Record(a[0]) + (Encode(a[1..]) + Encode(b));
    }
  }

  lemma {:induction false} EncodeOne(e: Entry)
    ensures Used([e]) == RecLen(e) && Encode([e]) == Record(e)
  {
    hide Record, RecLen;
    assert [e][1..] == [];
    assert Encode([e]) == Record(e) + Encode([]);
  }

  lemma {:induction false} EncodeSplit(es: seq<Entry>, k: nat)
    requires k < |es|
    ensures Used(es) == Used(es[..k]) + RecLen(es[k]) + Used(es[k + 1..])
    ensures Encode(es) == Encode(es[..k]) + Record(es[k]) + Encode(es[k + 1..])
  {
    hide *;
    AroundOne(es, k);
    EncodeAppend(es[..k] + [es[k]], es[k + 1..]);
    EncodeAppend(es[..k], [es[k]]);
    EncodeOne(es[k]);
  }

  lemma {:induction false} UsedNext(es: seq<Entry>, k: nat)
    requires k < |es|
    ensures Used(es[..k + 1]) == Used(es[..k]) + RecLen(es[k]) <= Used(es)
  {
    hide Record, RecLen, Encode, Used;
    AroundOne(es, k);
    EncodeAppend(es[..k], [es[k]]);
    EncodeOne(es[k]);
    EncodeSplit(es, k);
  }

  /** A NUL-terminated string at position `at` of the page. */
  ghost predicate CString(p: seq<byte>, at: nat, s: seq<byte>) {
    at + |s| < |p| && p[at..at + |s|] == s && p[at + |s|] == 0
    && forall i :: 0 <= i < |s| ==> s[i] != 0
  }

  lemma {:induction false} Middle<T>(a: seq<T>, r: seq<T>, b: seq<T>, p: seq<T>)
    requires |a| + |r| + |b| <= |p| && p[..|a| + |r| + |b|] == a + r + b
    ensures p[|a|..|a| + |r|] == r
  {
    forall i | 0 <= i < |r| ensures p[|a| + i] == r[i] {
      assert p[..|a| + |r| + |b|][|a| + i] == (a + r + b)[|a| + i];
    }
  }

  lemma {:induction false} RecordParts(p: seq<byte>, at: nat, e: Entry)
    requires at + RecLen(e) <= |p| && p[at..at + RecLen(e)] == Record(e) && Name(e.name)
    ensures CString(p, at, e.name) && p[at] != 0
    ensures p[at + |e.name| + 1..at + |e.name| + 1 + INO] == Bytes(e.ino, INO)
  {
    var r := p[at..at + RecLen(e)];
    forall i | 0 <= i < |e.name| ensures p[at + i] == e.name[i] {
      assert r[i] == e.name[i];
    }
    assert r[|e.name|] == 0;
    forall i | 0 <= i < INO ensures p[at + |e.name| + 1 + i] == Bytes(e.ino, INO)[i] {
      assert r[|e.name| + 1 + i] == Bytes(e.ino, INO)[i];
    }
    assert p[at] == r[0];
  }

  /** What a scan finds when it has passed `k` records: the next one, or the end. */
  lemma {:induction false} ScanAt(p: seq<byte>, es: seq<Entry>, k: nat)
    requires Holds(p, es) && k <= |es|
    ensures var at := Used(es[..k]);
            && at < PAGE
            && (k == |es| ==> p[at] == 0)
            && (k < |es| ==>
                  && p[at] != 0 && CString(p, at, es[k].name)
                  && at + RecLen(es[k]) == Used(es[..k + 1]) < PAGE
                  && p[at..at + RecLen(es[k])] == Record(es[k])
                  && Joined(p[at + |es[k].name| + 1..at + |es[k].name| + 1 + INO]) == es[k].ino)
  {
    if k == |es| {
      assert es[..k] == es;
    } else {
      hide Record, Encode, Used, Bytes, Joined, CString;
      RecordAt(p, es, k);
      RecordParts(p, Used(es[..k]), es[k]);
      JoinedBytes(es[k].ino, INO);
    }
  }

  lemma {:induction false} RecordAt(p: seq<byte>, es: seq<Entry>, k: nat)
    requires Holds(p, es) && k < |es|
    ensures var at := Used(es[..k]);
            && ValidEntry(es[k])
            && at + RecLen(es[k]) == Used(es[..k + 1]) <= Used(es) < PAGE
            && p[at..at + RecLen(es[k])] == Record(es[k])
  {
    hide Record, Encode, Used, RecLen, ValidEntry;
    EncodeSplit(es, k);
    UsedNext(es, k);
    Middle(Encode(es[..k]), Record(es[k]), Encode(es[k + 1..]), p);
  }

  // ----- one page changed

  /** `p'` is `p` with `r` written at position `at`. */
  ghost predicate Wrote(p: seq<byte>, p': seq<byte>, at: nat, r: seq<byte>) {
    at + |r| <= |p| && p' == p[..at] + r + p[at + |r|..]
  }

  /** Writing a record right after the last one appends it. */
  lemma {:induction false} AppendsRecord(p: seq<byte>, es: seq<Entry>, e: Entry, p': seq<byte>)
    requires Holds(p, es) && ZerosFrom(p, Used(es)) && ValidEntry(e)
    requires Used(es) + RecLen(e) < PAGE && Wrote(p, p', Used(es), Record(e))
    ensures Used(es + [e]) == Used(es) + RecLen(e)
    ensures Holds(p', es + [e]) && ZerosFrom(p', Used(es) + RecLen(e))
  {
    hide Record, RecLen, Encode, Used, ValidEntry;
    EncodeAppend(es, [e]);
    EncodeOne(e);
    assert p'[..Used(es) + RecLen(e)] == p[..Used(es)] + Record(e);
  }

  /** Writing a record further on leaves what a scan meets as it was. */
  lemma {:induction false} HidesRecord(p: seq<byte>, es: seq<Entry>, at: nat, e: Entry, p': seq<byte>)
    requires Holds(p, es) && Used(es) < at && ZerosFrom(p, at)
    requires at + RecLen(e) < PAGE && Wrote(p, p', at, Record(e))
    ensures Holds(p', es) && ZerosFrom(p', at + RecLen(e))
  {
    hide Record, RecLen, Encode, Used, ValidEntry;
    assert p'[..Used(es)] == p[..Used(es)];
  }

  function WithoutAt(es: seq<Entry>, k: nat): seq<Entry>
    requires k < |es|
  {
    es[..k] + es[k + 1..]
  }

  lemma {:induction false} WithoutUsed(es: seq<Entry>, k: nat)
    requires k < |es|
    ensures Used(WithoutAt(es, k)) == Used(es) - RecLen(es[k])
    ensures Encode(WithoutAt(es, k)) == Encode(es[..k]) + Encode(es[k + 1..])
    ensures Encode(es) == Encode(es[..k]) + Record(es[k]) + Encode(es[k + 1..])
  {
    hide Record, RecLen, Encode, Used;
    EncodeSplit(es, k);
    EncodeAppend(es[..k], es[k + 1..]);
  }

  /** `p'` is `p` with `n` bytes cut out at `at` and zeros at the end. */
  ghost predicate Cut(p: seq<byte>, p': seq<byte>, at: nat, n: nat) {
    && at + n <= |p| == |p'|
    && (forall i :: 0 <= i < at ==> p'[i] == p[i])
    && (forall i :: at <= i < |p| - n ==> p'[i] == p[i + n])
    && (forall i :: |p| - n <= i < |p| ==> p'[i] == 0)
  }

  lemma {:induction false} CutMiddle(p: seq<byte>, p': seq<byte>, a: seq<byte>, r: seq<byte>, b: seq<byte>)
    requires |a| + |r| + |b| <= |p| && p[..|a| + |r| + |b|] == a + r + b
    requires Cut(p, p', |a|, |r|)
    ensures p'[..|a| + |b|] == a + b
  {
    forall i | 0 <= i < |a| + |b| ensures p'[i] == (a + b)[i] {
      var j := if i < |a| then i else i + |r|;
      assert p'[i] == p[j];
      assert p[..|a| + |r| + |b|][j] == (a + r + b)[j];
    }
  }

  lemma {:induction false} CutZeros(p: seq<byte>, p': seq<byte>, at: nat, n: nat, from: nat)
    requires Cut(p, p', at, n) && at + n <= from && ZerosFrom(p, from)
    ensures ZerosFrom(p', from - n)
  {
  }

  ghost predicate AllValid(es: seq<Entry>) {
    forall i :: 0 <= i < |es| ==> ValidEntry(es[i])
  }

  lemma {:induction false} WithoutValid(es: seq<Entry>, k: nat)
    requires AllValid(es) && k < |es|
    ensures AllValid(WithoutAt(es, k))
  {
  }

  /** Cutting out a record removes that entry and no other. */
  lemma {:induction false} RemovesRecord(p: seq<byte>, es: seq<Entry>, k: nat, p': seq<byte>)
    requires Holds(p, es) && k < |es|
    requires Cut(p, p', Used(es[..k]), RecLen(es[k]))
    ensures Holds(p', WithoutAt(es, k))
  {
    hide Record, RecLen, Encode, Used, Cut, ValidEntry, AllValid, WithoutAt;
    WithoutUsed(es, k);
    EncodeSplit(es, k);
    WithoutValid(es, k);
    CutMiddle(p, p', Encode(es[..k]), Record(es[k]), Encode(es[k + 1..]));
    CutEnd(p, p', Used(es[..k]), RecLen(es[k]), Used(es));
  }

  /** The zero that closes the records moves down with them. */
  lemma {:induction false} CutEnd(p: seq<byte>, p': seq<byte>, at: nat, n: nat, end: nat)
    requires Cut(p, p', at, n) && at + n <= end < |p| && p[end] == 0
    ensures |p'| == |p| && p'[end - n] == 0
  {
  }

  // ----- the C library on a page

  method Strlen(p: array<byte>, at: nat, ghost s: seq<byte>) returns (n: nat)
    requires CString(p[..], at, s)
    ensures n == |s|
  {
    n := 0;
    while p[at + n] != 0
      invariant n <= |s| && at + |s| < p.Length
      decreases |s| - n
    {
      assert p[at..at + |s|][n] == s[n] || n == |s|;
      n := n + 1;
    }
  }

  method Strcmp(p: array<byte>, at: nat, ghost s: seq<byte>, name: seq<byte>) returns (same: bool)
    requires CString(p[..], at, s) && Name(name)
    ensures same <==> s == name
  {
    var i := 0;
    while i < |name| && p[at + i] == name[i]
      invariant i <= |name| && i <= |s| && s[..i] == name[..i]
    {
      assert i < |s| ==> p[at..at + |s|][i] == s[i];
      i := i + 1;
    }
    same := i == |name| && p[at + i] == 0;
    assert i < |s| ==> p[at..at + |s|][i] == s[i];
  }

  /** The three stores of `entry_add`: the name, its terminator and the inode number, and
      one more zero. */
  method StoreRecord(p: array<byte>, at: nat, e: Entry)
    requires at + RecLen(e) <= p.Length
    modifies p
    ensures Wrote(old(p[..]), p[..], at, Record(e))
  {
    var ino := Bytes(e.ino, INO);
    var n := |e.name|;
    forall i | 0 <= i < n { p[at + i] := e.name[i]; }
    p[at + n] := 0;
    forall i | 0 <= i < INO { p[at + n + 1 + i] := ino[i]; }
    p[at + n + 1 + INO] := 0;
  }

  /** `memcpy(ptr, ptr+rec_len, ...)` and `memset(limit-rec_len, 0, rec_len)`; the copy
      runs from the lower addresses up. */
  method CutRecord(p: array<byte>, at: nat, n: nat)
    requires at + n <= p.Length
    modifies p
    ensures Cut(old(p[..]), p[..], at, n)
  {
    var size := p.Length;
    var i := at;
    while i < size - n
      invariant at <= i <= size - n
      invariant forall j :: at <= j < i ==> p[j] == old(p[j + n])
      invariant forall j :: 0 <= j < at || i <= j < size ==> p[j] == old(p[j])
    {
      p[i] := p[i + n];
      i := i + 1;
    }
    forall j | size - n <= j < size { p[j] := 0; }
  }
}
