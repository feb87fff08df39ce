/** The 48-byte header of a PDU: numbers in network byte order, stored in place
    (iscsi.c). */
module PduHeader {
  import opened ByteOrder

  const HEADER := 48

  datatype Decoded<T> = Bad | Good(value: T)

  type u8 = x: int | 0 <= x < 0x100

  type u16 = x: int | 0 <= x < 0x1_0000

  type u32 = x: int | 0 <= x < 0x1_0000_0000

  type u64 = x: int | 0 <= x < 0x1_0000_0000_0000_0000

  function Word(h: seq<byte>, at: nat): (w: u32)
    requires at + 4 <= |h|
  {
    var a: int, b: int, c: int, d: int := h[at], h[at + 1], h[at + 2], h[at + 3];
    a * 0x100_0000 + b * 0x1_0000 + c * 0x100 + d
  }

  function Half(h: seq<byte>, at: nat): (w: u16)
    requires at + 2 <= |h|
  {
    var a: int, b: int := h[at], h[at + 1];
    a * 0x100 + b
  }

  /** A word is zero when its bytes are. */
  lemma {:induction false} ZeroWord(h: seq<byte>, at: nat)
    requires at + 4 <= |h|
    ensures Word(h, at) == 0 <==> h[at] == h[at + 1] == h[at + 2] == h[at + 3] == 0
  {
  }

  /** A word is below 2^24 when its first byte is zero. */
  lemma {:induction false} TopByte(h: seq<byte>, at: nat)
    requires at + 4 <= |h|
    ensures h[at] == 0 <==> Word(h, at) < 0x100_0000
    ensures Word(h, at) / 0x100_0000 == h[at]
  {
    var a: int := h[at];
    assert Word(h, at) == a * 0x100_0000 + Word(h, at) % 0x100_0000;
  }

  /** `h'` is `h` except for the `n` bytes at `at`: other bytes, and words that do not
      meet them, are kept. */
  ghost predicate Except(h: seq<byte>, h': seq<byte>, at: nat, n: nat) {
    && |h'| == |h|
    && (forall i :: 0 <= i < |h| && !(at <= i < at + n) ==> h'[i] == h[i])
    && (forall k :: 0 <= k <= |h| - 4 && (k + 4 <= at || at + n <= k) ==> Word(h', k) == Word(h, k))
    && (forall k :: 0 <= k <= |h| - 2 && (k + 2 <= at || at + n <= k) ==> Half(h', k) == Half(h, k))
  }

  /** The kept bytes make the kept words. */
  lemma {:induction false} KeptBytes(h: seq<byte>, h': seq<byte>, at: nat, n: nat)
    requires |h'| == |h| && forall i :: 0 <= i < |h| && !(at <= i < at + n) ==> h'[i] == h[i]
    ensures Except(h, h', at, n)
  {
  }

  ghost predicate Blank(h: seq<byte>) {
    && |h| == HEADER && (forall i :: 0 <= i < |h| ==> h[i] == 0)
    && (forall k :: 0 <= k <= |h| - 4 ==> Word(h, k) == 0)
    && (forall k :: 0 <= k <= |h| - 2 ==> Half(h, k) == 0)
  }

  method Clear(h: array<byte>)
    requires h.Length == HEADER
    modifies h
    ensures Blank(h[..])
  {
    forall i | 0 <= i < HEADER { h[i] := 0; }
  }

  /** One byte. */
  method Put(h: array<byte>, at: nat, v: u8)
    requires at < h.Length
    modifies h
    ensures h[..][at] == v && Except(old(h[..]), h[..], at, 1)
  {
    h[at] := v;
    KeptBytes(old(h[..]), h[..], at, 1);
  }

  lemma {:induction false} Digits4(v: u32)
    ensures v == v / 0x100_0000 * 0x100_0000 + v / 0x1_0000 % 0x100 * 0x1_0000 + v / 0x100 % 0x100 * 0x100 + v % 0x100
  {
    assert v / 0x1_0000 == v / 0x100 / 0x100 && v / 0x100_0000 == v / 0x1_0000 / 0x100;
  }

  method PutWord(h: array<byte>, at: nat, v: u32)
    requires at + 4 <= h.Length
    modifies h
    ensures Word(h[..], at) == v && Except(old(h[..]), h[..], at, 4)
  {
    Digits4(v);
    h[at] := v / 0x100_0000;
    h[at + 1] := v / 0x1_0000 % 0x100;
    h[at + 2] := v / 0x100 % 0x100;
    h[at + 3] := v % 0x100;
    KeptBytes(old(h[..]), h[..], at, 4);
  }

  /** Two words one after the other. */
  method PutTwo(h: array<byte>, at: nat, v0: u32, v1: u32)
    requires at + 8 <= h.Length
    modifies h
    ensures Word(h[..], at) == v0 && Word(h[..], at + 4) == v1
    ensures Except(old(h[..]), h[..], at, 8)
  {
    hide Word;
    PutWord(h, at, v0);
    PutWord(h, at + 4, v1);
  }

  /** Four words one after the other. */
  method PutFour(h: array<byte>, at: nat, v0: u32, v1: u32, v2: u32, v3: u32)
    requires at + 16 <= h.Length
    modifies h
    ensures Word(h[..], at) == v0 && Word(h[..], at + 4) == v1
    ensures Word(h[..], at + 8) == v2 && Word(h[..], at + 12) == v3
    ensures Except(old(h[..]), h[..], at, 16)
  {
    hide Word;
    PutWord(h, at, v0);
    PutWord(h, at + 4, v1);
    PutWord(h, at + 8, v2);
    PutWord(h, at + 12, v3);
  }

  method PutBytes(h: array<byte>, at: nat, bytes: seq<byte>)
    requires at + |bytes| <= h.Length
    modifies h
    ensures h[..][at..at + |bytes|] == bytes && Except(old(h[..]), h[..], at, |bytes|)
  {
    forall i | 0 <= i < |bytes| { h[at + i] := bytes[i]; }
    KeptBytes(old(h[..]), h[..], at, |bytes|);
  }

  method PutHalf(h: array<byte>, at: nat, v: u16)
    requires at + 2 <= h.Length
    modifies h
    ensures Half(h[..], at) == v && Except(old(h[..]), h[..], at, 2)
  {
    h[at] := v / 0x100;
    h[at + 1] := v % 0x100;
    KeptBytes(old(h[..]), h[..], at, 2);
  }

  /** A flag at the bit of that weight. */
  function Bit(b: bool, weight: nat): nat {
    if b then weight else 0
  }

  /** `b & weight`, for a power of two. */
  function Has(b: byte, weight: nat): bool
    requires weight > 0
  {
    b / weight % 2 == 1
  }
}
