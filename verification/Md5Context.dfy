/** md5.c: the streaming context, `MD5Init`, `MD5Update` and `MD5Final`. */
module Md5Context {
  import opened ByteOrder
  import opened Sequences
  import opened Md5Spec
  import opened Md5Message
  import opened Md5Transform

  // ----- what the context holds, as facts about the message so far

  /** The 64-bit byte counter, kept in two words. */
  ghost predicate Counts(low: nat, high: nat, length: nat) {
    low == length % WORD && high == length / WORD % WORD
  }

  /** `held` is the part of `m` after its last complete block. */
  ghost predicate Remainder(held: seq<byte>, m: seq<byte>) {
    |held| == |m| % 64 && |held| <= |m| && held == m[|m| - |held|..]
  }

  /** The carry from the low word of the counter to the high one. */
  lemma {:induction false} Carry(low: nat, high: nat, length: nat, n: nat)
    requires Counts(low, high, length) && n < WORD
    ensures var l := (low + n) % WORD;
            Counts(l, if l < low then (high + 1) % WORD else high, length + n)
  {
    var q := length / WORD;
    if low + n >= WORD {
      Quotient(length + n, WORD, q + 1, low + n - WORD);
      Quotient(low + n, WORD, 1, low + n - WORD);
      Next(q, high);
    } else {
      Quotient(length + n, WORD, q, low + n);
      Quotient(low + n, WORD, 0, low + n);
    }
  }

  lemma {:induction false} Next(q: nat, high: nat)
    requires high == q % WORD
    ensures (high + 1) % WORD == (q + 1) % WORD
  {
  }

  /** The low six bits of the counter say how much of the block is used. */
  lemma {:induction false} Used(low: nat, high: nat, length: nat)
    requires Counts(low, high, length)
    ensures low % 64 == length % 64
  {
  }

  /** The 64-bit count of bits, from the counter of bytes. */
  lemma {:induction false} BitCount(low: nat, high: nat, length: nat)
    requires Counts(low, high, length)
    ensures var n := 8 * length % DOUBLE;
            n % WORD == 8 * low % WORD && n / WORD == 8 * high % WORD + low / 0x2000_0000
  {
    var q := length / WORD;
    var r := q / WORD;
    var h := high / 0x2000_0000;
    var l := low / 0x2000_0000;
    var highBits := 8 * high % WORD;
    var lowBits := 8 * low % WORD;
    assert 8 * high == h * WORD + highBits;
    assert 8 * low == l * WORD + lowBits;
    assert q == r * WORD + high;
    assert length == q * WORD + low;
    assert 8 * length == (8 * r + h) * DOUBLE + (highBits + l) * WORD + lowBits;
    HighBits(high);
    Quotient(8 * length, DOUBLE, 8 * r + h, (highBits + l) * WORD + lowBits);
    Quotient((highBits + l) * WORD + lowBits, WORD, highBits + l, lowBits);
  }

  lemma {:induction false} HighBits(high: nat)
    requires high < WORD
    ensures 8 * high % WORD <= WORD - 8
  {
  }

  /** `w` is the digest of the blocks of `m`, which has no remainder. */
  ghost predicate Digested(w: Words, m: seq<byte>) {
    |m| % 64 == 0 && w == Hash(m, |m| / 64)
  }

  /** A remainder that does not fill the block simply grows. */
  lemma {:induction false} Grown(held: seq<byte>, m: seq<byte>, d: seq<byte>)
    requires Remainder(held, m) && |held| + |d| < 64
    ensures Remainder(held + d, m + d) && |held + d| == |m + d| % 64
    ensures Hash(m + d, |m + d| / 64) == Hash(m, |m| / 64)
  {
    hide Compress, INIT, Hash;
    assert |m + d| / 64 == |m| / 64;
    HashPrefix(m, d, |m| / 64);
  }

  /** Filling the block digests it. */
  lemma {:induction false} Filled(held: seq<byte>, m: seq<byte>, d: seq<byte>)
    requires Remainder(held, m) && |held| + |d| == 64
    ensures Digested(Compress(Hash(m, |m| / 64), held + d), m + d)
  {
    hide Compress, INIT;
    var n := |m| - |held|;
    assert m == m[..n] + held;
    assert m + d == m[..n] + (held + d);
    HashBlock(m[..n], held + d);
    HashPrefix(m[..n], held, n / 64);
    assert |m| / 64 == n / 64;
  }

  lemma {:induction false} DigestedBlock(w: Words, m: seq<byte>, b: seq<byte>)
    requires Digested(w, m) && |b| == 64
    ensures Digested(Compress(w, b), m + b)
  {
    hide Compress, INIT;
    HashBlock(m, b);
  }

  lemma {:induction false} TakeMore(m: seq<byte>, d: seq<byte>, p: nat, q: nat)
    requires p <= q <= |d|
    ensures m + d[..q] == m + d[..p] + d[p..q]
  {
  }

  lemma {:induction false} TakeRest(m: seq<byte>, d: seq<byte>, p: nat)
    requires p <= |d|
    ensures m + d == m + d[..p] + d[p..]
  {
  }

  /** What is left after the last complete block is held. */
  lemma {:induction false} LeftOver(w: Words, m: seq<byte>, d: seq<byte>)
    requires Digested(w, m) && |d| < 64
    ensures Remainder(d, m + d) && |d| == |m + d| % 64
    ensures w == Hash(m + d, |m + d| / 64)
  {
    hide Compress, INIT, Hash;
    Grown([], m, d);
  }

  // ----- padding

  lemma {:induction false} Grouped<T>(m: seq<T>, a: seq<T>, b: seq<T>, c: seq<T>)
    ensures m + a + b + c == m + (a + b + c)
  {
  }

  lemma {:induction false} Regrouped<T>(m: seq<T>, a: seq<T>, b: seq<T>, c: seq<T>, d: seq<T>)
    ensures m + a + (b + c) + d == m + (a + b) + (c + d)
  {
  }

  /** How many zeros are needed, from what the block already holds. */
  lemma {:induction false} ZerosNeeded(n: nat, held: nat)
    requires held == n % 64
    ensures (55 - n) % 64 == if held <= 55 then 55 - held else 119 - held
  {
  }

  lemma {:induction false} PaddedIs(m: seq<byte>, held: nat)
    requires held == |m| % 64
    ensures Padded(m) == m + [0x80] + Zeros(if held <= 55 then 55 - held else 119 - held)
                         + Count(|m|)
  {
    hide Zeros, Count;
    ZerosNeeded(|m|, held);
  }

  lemma {:induction false} ZerosSplit(a: nat, b: nat)
    ensures Zeros(a + b) == Zeros(a) + Zeros(b)
  {
  }

  lemma {:induction false} HeldLength(held: seq<byte>, m: seq<byte>)
    requires Remainder(held, m)
    ensures |held| == |m| % 64
  {
  }

  /** At most 55 bytes are held: one last block. */
  lemma {:induction false} PadOne(held: seq<byte>, m: seq<byte>, last: seq<byte>)
    requires Remainder(held, m) && |held| <= 55
    requires last == held + [0x80] + Zeros(55 - |held|) + Count(|m|)
    ensures Digested(Compress(Hash(m, |m| / 64), last), Padded(m))
  {
    hide *;
    HeldLength(held, m);
    var count := Count(|m|);
    var zeros := Zeros(55 - |held|);
    PaddedIs(m, |held|);
    Grouped(m, [0x80], zeros, count);
    Grouped(held, [0x80], zeros, count);
    Filled(held, m, [0x80] + zeros + count);
  }

  /** More than 55 bytes are held: the padding needs a block of its own. */
  lemma {:induction false} PadTwo(held: seq<byte>, m: seq<byte>, first: seq<byte>, last: seq<byte>)
    requires Remainder(held, m) && |held| > 55
    requires first == held + [0x80] + Zeros(63 - |held|)
    requires last == Zeros(56) + Count(|m|)
    ensures Digested(Compress(Compress(Hash(m, |m| / 64), first), last), Padded(m))
  {
    hide *;
    HeldLength(held, m);
    var pad := [0x80] + Zeros(63 - |held|);
    PaddedInTwo(m, |held|, pad, last);
    Associates(held, [0x80], Zeros(63 - |held|));
    Filled(held, m, pad);
    DigestedBlock(Compress(Hash(m, |m| / 64), first), m + pad, last);
  }

  lemma {:induction false} PaddedInTwo(m: seq<byte>, held: nat, pad: seq<byte>, last: seq<byte>)
    requires 55 < held == |m| % 64 && pad == [0x80] + Zeros(63 - held)
    requires last == Zeros(56) + Count(|m|)
    ensures Padded(m) == m + pad + last
  {
    hide *;
    PaddedIs(m, held);
    ZerosSplit(63 - held, 56);
    Regrouped(m, [0x80], Zeros(63 - held), Zeros(56), Count(|m|));
  }

  /** The two words written at the end of the last block are the count of bits. */
  lemma {:induction false} CountBytes(low: nat, high: nat, m: seq<byte>)
    requires Counts(low, high, |m|)
    ensures Bytes(8 * low % WORD, 4) + Bytes(8 * high % WORD + low / 0x2000_0000, 4)
         == Count(|m|)
  {
    BitCount(low, high, |m|);
    CountWords(8 * |m| % DOUBLE);
  }

  // ----- the context

  method Memcpy(dst: array<byte>, at: nat, src: seq<byte>)
    requires at + |src| <= dst.Length
    modifies dst
    ensures dst[..at + |src|] == old(dst[..at]) + src
    ensures dst[at + |src|..] == old(dst[at + |src|..])
  {
    forall i | 0 <= i < |src| {
      dst[at + i] := src[i];
    }
  }

  class Context {
    const buf: array<bv32>
    const block: array<byte>
    var low: nat
    var high: nat
    ghost var message: seq<byte>

    function State(): Words
      reads buf
      requires buf.Length == 4
    {
      Words(buf[0], buf[1], buf[2], buf[3])
    }

    /** After any updates: the complete blocks are digested, the rest is held, and the
        counter is the length modulo 2^64. */
    ghost predicate Valid()
      reads this, buf, block
    {
      && buf.Length == 4 && block.Length == 64
      && Counts(low, high, |message|)
      && Remainder(block[..|message| % 64], message)
      && State() == Hash(message, |message| / 64)
    }

    constructor ()
      ensures Valid() && message == [] && fresh(buf) && fresh(block)
    {
      buf := new bv32[4];
      block := new byte[64];
      new;
      Init();
    }

    /** `MD5Init` */
    method Init()
      requires buf.Length == 4 && block.Length == 64
      modifies this, buf
      ensures Valid() && message == []
    {
      buf[0], buf[1], buf[2], buf[3] := 0x67452301, 0xefcdab89, 0x98badcfe, 0x10325476;
      low, high := 0, 0;
      message := [];
    }

    /** `MD5Update` */
    method Update(data: seq<byte>)
      requires Valid() && |data| < WORD
      modifies this, buf, block
      ensures Valid() && message == old(message) + data
    {
      hide Compress, INIT, Hash, Counts, Remainder, Digested;
      Carry(low, high, |message|, |data|);
      Used(low, high, |message|);
      ghost var held := block[..|message| % 64];
      var t := low;
      low := (t + |data|) % WORD;
      if low < t {
        high := (high + 1) % WORD;
      }
      t := 64 - t % 64;
      ghost var before := message;
      message := before + data;
      if t > |data| {
        Memcpy(block, 64 - t, data);
        Grown(held, before, data);
        assert block[..|message| % 64] == held + data;
        return;
      }
      Memcpy(block, 64 - t, data[..t]);
      assert block[..] == held + data[..t];
      Filled(held, before, data[..t]);
      Transform(buf, block);
      var p := DigestBlocks(before, data, t);
      Memcpy(block, 0, data[p..]);
      LeftOver(State(), before + data[..p], data[p..]);
      TakeRest(before, data, p);
      assert block[..|message| % 64] == data[p..];
    }

    /** The loop of `MD5Update`, over the complete blocks from position `from` on. */
    method DigestBlocks(ghost before: seq<byte>, data: seq<byte>, from: nat) returns (p: nat)
      requires buf.Length == 4 && block.Length == 64
      requires from <= |data| && Digested(State(), before + data[..from])
      modifies buf, block
      ensures from <= p <= |data| < p + 64
      ensures Digested(State(), before + data[..p])
    {
      hide Compress, INIT, Hash, Digested;
      p := from;
      while |data| - p >= 64
        invariant from <= p <= |data|
        invariant Digested(State(), before + data[..p])
      {
        Memcpy(block, 0, data[p..p + 64]);
        assert block[..] == data[p..p + 64];
        DigestedBlock(State(), before + data[..p], data[p..p + 64]);
        TakeMore(before, data, p, p + 64);
        Transform(buf, block);
        p := p + 64;
      }
    }

    /** The two words at the end of the last block. */
    method StoreCount()
      requires block.Length == 64 && Counts(low, high, |message|)
      modifies block
      ensures block[..] == old(block[..56]) + Count(|message|)
    {
      hide Bytes, Count, Counts;
      CountBytes(low, high, message);
      Memcpy(block, 56, Bytes(8 * low % WORD, 4));
      Memcpy(block, 60, Bytes(8 * high % WORD + low / 0x2000_0000, 4));
      assert block[..] == block[..64];
      Associates(old(block[..56]), Bytes(8 * low % WORD, 4), Bytes(8 * high % WORD + low / 0x2000_0000, 4));
    }

    /** `MD5Final`. What is cleared at the end is the size of a pointer, eight bytes:
        the first two words of the buffer. */
    method Final() returns (digest: seq<byte>)
      requires Valid()
      modifies this, buf, block
      ensures digest == Digest(message) && message == old(message)
      ensures var w := Hash(Padded(message), |Padded(message)| / 64);
              buf[0] == buf[1] == 0 && buf[2] == w.c && buf[3] == w.d
    {
      hide Compress, INIT, Hash, Remainder, Bytes, Padded, Counts;
      Used(low, high, |message|);
      ghost var held := block[..|message| % 64];
      ghost var first := held + [0x80] + Zeros(63 - |held|);
      ghost var last: seq<byte>;
      ghost var tail := Count(|message|);
      var n: int := low % 64;
      block[n] := 0x80;
      var p := n + 1;
      assert block[..p] == held + [0x80];
      var count := 56 - 1 - n;
      if count < 0 {
        PadTwo(held, message, first, Zeros(56) + tail);
        Memcpy(block, p, Zeros(count + 8));
        assert block[..] == block[..64] == first;
        Transform(buf, block);
        p := 0;
        count := 56;
        last := Zeros(56);
      } else {
        last := held + [0x80] + Zeros(55 - |held|);
        PadOne(held, message, last + tail);
      }
      Memcpy(block, p, Zeros(count));
      assert block[..56] == last;
      StoreCount();
      Transform(buf, block);
      digest := Output(State());
      buf[0], buf[1] := 0, 0;
    }
  }
}
