/** The digest of a whole message: RFC 1321, sections 3.1 to 3.5. */
module Md5Message {
  import opened Md5Spec
  import opened ByteOrder

  const WORD := 0x1_0000_0000

  const DOUBLE := 0x1_0000_0000_0000_0000

  function Zeros(n: nat): (s: seq<byte>)
    ensures |s| == n
  {
    seq(n, i => 0)
  }

  /** The length in bits, modulo 2^64. */
  function Count(length: nat): (s: seq<byte>)
    ensures |s| == 8
  {
    Bytes(8 * length % DOUBLE, 8)
  }

  /** The least padding that leaves the length 56 modulo 64 (section 3.1), then the
      64-bit count of bits (section 3.2). */
  function Padded(m: seq<byte>): (p: seq<byte>)
    ensures |p| % 64 == 0
  {
    PaddedLength(|m|);
    m + [0x80] + Zeros((55 - |m|) % 64) + Count(|m|)
  }

  lemma {:induction false} PaddedLength(n: nat)
    ensures (n + 1 + (55 - n) % 64 + 8) % 64 == 0
  {
  }

  /** The buffer after the first `k` blocks of `m`. */
  function Hash(m: seq<byte>, k: nat): Words
    requires 64 * k <= |m|
  {
    if k == 0 then INIT else Compress(Hash(m, k - 1), m[64 * (k - 1)..64 * k])
  }

  function WordBytes(w: bv32): (s: seq<byte>)
    ensures |s| == 4
  {
    Bytes(w as nat, 4)
  }

  function Output(w: Words): (s: seq<byte>)
    ensures |s| == 16
  {
    WordBytes(w.a) + WordBytes(w.b) + WordBytes(w.c) + WordBytes(w.d)
  }

  function Digest(m: seq<byte>): (d: seq<byte>)
    ensures |d| == 16
  {
    Output(Hash(Padded(m), |Padded(m)| / 64))
  }

  // ----- facts about the definitions

  /** Later bytes do not touch the blocks already complete. */
  lemma {:induction false} HashPrefix(m: seq<byte>, d: seq<byte>, k: nat)
    requires 64 * k <= |m|
    ensures Hash(m + d, k) == Hash(m, k)
  {
    hide Compress, INIT;
    if k > 0 {
      HashPrefix(m, d, k - 1);
      assert (m + d)[64 * (k - 1)..64 * k] == m[64 * (k - 1)..64 * k];
    }
  }

  /** One more block, given as its own sequence. */
  lemma {:induction false} HashBlock(m: seq<byte>, b: seq<byte>)
    requires |m| % 64 == 0 && |b| == 64
    ensures Hash(m + b, |m| / 64 + 1) == Compress(Hash(m, |m| / 64), b)
  {
    hide Compress, INIT;
    HashPrefix(m, b, |m| / 64);
    assert (m + b)[64 * (|m| / 64)..64 * (|m| / 64 + 1)] == b;
  }

  /** A count of eight bytes is its low word followed by its high word. */
  lemma {:induction false} CountWords(n: nat)
    requires n < DOUBLE
    ensures Bytes(n, 8) == Bytes(n % WORD, 4) + Bytes(n / WORD, 4)
  {
    Shifted(n, 4);
    BytesSplit(n, 4, 4);
    LowDigits(n, 4);
    Power4();
  }

  lemma {:induction false} Shifted(n: nat, width: nat)
    requires width == 4
    ensures Shift(n, width) == n / WORD
  {
    var a := n / 256;
    var b := a / 256;
    var c := b / 256;
    assert Shift(n, 4) == Shift(a, 3) == Shift(b, 2) == Shift(c, 1) == Shift(c / 256, 0);
  }

  lemma {:induction false} Power4()
    ensures Power(4) == WORD
  {
    assert Power(4) == 256 * Power(3) == 256 * (256 * Power(2)) == 256 * (256 * (256 * Power(1)));
  }

  lemma {:induction false} Power8()
    ensures Power(8) == DOUBLE
  {
    Power4();
    assert Power(8) == 256 * Power(7) == 256 * (256 * Power(6)) == 256 * (256 * (256 * Power(5)));
  }

  lemma {:induction false} LastPart(x: seq<byte>, y: seq<byte>)
    ensures (x + y)[|x + y| - |y|..] == y
  {
  }

  lemma {:induction false} MessageFirst(m: seq<byte>)
    ensures |Padded(m)| >= |m| + 8 && Padded(m)[..|m|] == m
  {
    hide Count;
  }

  lemma {:induction false} CountLast(m: seq<byte>)
    requires 8 * |m| < DOUBLE
    ensures |Padded(m)| >= 8 && Padded(m)[|Padded(m)| - 8..] == Count(|m|)
  {
    hide Count, Zeros;
    LastPart(m + [0x80] + Zeros((55 - |m|) % 64), Count(|m|));
  }

  lemma {:induction false} CountRead(m: seq<byte>)
    requires 8 * |m| < DOUBLE
    ensures Joined(Count(|m|)) == 8 * |m|
  {
    hide Joined, Bytes, Power;
    Power8();
    JoinedBytes(8 * |m|, 8);
  }

  /** Different messages whose length in bits fits the count are padded differently,
      so nothing of the message is lost before it is digested. */
  lemma {:induction false} PaddingLosesNothing(m: seq<byte>, n: seq<byte>)
    requires 8 * |m| < DOUBLE && 8 * |n| < DOUBLE
    ensures Padded(m) == Padded(n) <==> m == n
  {
    hide Padded, Count, Joined;
    MessageFirst(m);
    MessageFirst(n);
    CountLast(m);
    CountLast(n);
    CountRead(m);
    CountRead(n);
  }
}
