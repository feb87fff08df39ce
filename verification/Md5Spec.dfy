/** The MD5 algorithm as RFC 1321 defines it: the digest of a whole message. */
module Md5Spec {
  import opened ByteOrder

  /** The four words of the MD buffer (section 3.3). */
  datatype Words = Words(a: bv32, b: bv32, c: bv32, d: bv32)

  const INIT := Words(0x67452301, 0xefcdab89, 0x98badcfe, 0x10325476)

  // ----- section 3.4: the auxiliary functions and one operation

  function F(x: bv32, y: bv32, z: bv32): bv32 { (x & y) | (!x & z) }

  function G(x: bv32, y: bv32, z: bv32): bv32 { (x & z) | (y & !z) }

  function H(x: bv32, y: bv32, z: bv32): bv32 { x ^ y ^ z }

  function I(x: bv32, y: bv32, z: bv32): bv32 { y ^ (x | !z) }

  /** Addition of words, modulo 2^32 (section 2). */
  function Plus(v: bv32, w: bv32): bv32 { v + w }

  function RotateLeft(x: bv32, s: nat): bv32
    requires 0 < s < 32
  {
    (x << s) | (x >> (32 - s))
  }

  /** One entry of the table of section 3.4: which word of the block the operation
      uses, by how much it rotates, and its element of T, the integer part of
      4294967296 times abs(sin(i + 1)). */
  datatype Entry = Entry(k: nat, s: nat, t: bv32)

  function Row(i: nat): (e: Entry)
    ensures e.k < 16 && 0 < e.s < 32
  {
    if i < 16 then Row1(i) else if i < 32 then Row2(i - 16) else if i < 48 then Row3(i - 32) else Row4(i - 48)
  }

  function Row1(j: nat): (e: Entry)
    ensures e.k < 16 && 0 < e.s < 32
  {
    match j
    case 0 => Entry(0, 7, 0xd76aa478)
    case 1 => Entry(1, 12, 0xe8c7b756)
    case 2 => Entry(2, 17, 0x242070db)
    case 3 => Entry(3, 22, 0xc1bdceee)
    case 4 => Entry(4, 7, 0xf57c0faf)
    case 5 => Entry(5, 12, 0x4787c62a)
    case 6 => Entry(6, 17, 0xa8304613)
    case 7 => Entry(7, 22, 0xfd469501)
    case 8 => Entry(8, 7, 0x698098d8)
    case 9 => Entry(9, 12, 0x8b44f7af)
    case 10 => Entry(10, 17, 0xffff5bb1)
    case 11 => Entry(11, 22, 0x895cd7be)
    case 12 => Entry(12, 7, 0x6b901122)
    case 13 => Entry(13, 12, 0xfd987193)
    case 14 => Entry(14, 17, 0xa679438e)
    case _ => Entry(15, 22, 0x49b40821)
  }

  function Row2(j: nat): (e: Entry)
    ensures e.k < 16 && 0 < e.s < 32
  {
    match j
    case 0 => Entry(1, 5, 0xf61e2562)
    case 1 => Entry(6, 9, 0xc040b340)
    case 2 => Entry(11, 14, 0x265e5a51)
    case 3 => Entry(0, 20, 0xe9b6c7aa)
    case 4 => Entry(5, 5, 0xd62f105d)
    case 5 => Entry(10, 9, 0x02441453)
    case 6 => Entry(15, 14, 0xd8a1e681)
    case 7 => Entry(4, 20, 0xe7d3fbc8)
    case 8 => Entry(9, 5, 0x21e1cde6)
    case 9 => Entry(14, 9, 0xc33707d6)
    case 10 => Entry(3, 14, 0xf4d50d87)
    case 11 => Entry(8, 20, 0x455a14ed)
    case 12 => Entry(13, 5, 0xa9e3e905)
    case 13 => Entry(2, 9, 0xfcefa3f8)
    case 14 => Entry(7, 14, 0x676f02d9)
    case _ => Entry(12, 20, 0x8d2a4c8a)
  }

  function Row3(j: nat): (e: Entry)
    ensures e.k < 16 && 0 < e.s < 32
  {
    match j
    case 0 => Entry(5, 4, 0xfffa3942)
    case 1 => Entry(8, 11, 0x8771f681)
    case 2 => Entry(11, 16, 0x6d9d6122)
    case 3 => Entry(14, 23, 0xfde5380c)
    case 4 => Entry(1, 4, 0xa4beea44)
    case 5 => Entry(4, 11, 0x4bdecfa9)
    case 6 => Entry(7, 16, 0xf6bb4b60)
    case 7 => Entry(10, 23, 0xbebfbc70)
    case 8 => Entry(13, 4, 0x289b7ec6)
    case 9 => Entry(0, 11, 0xeaa127fa)
    case 10 => Entry(3, 16, 0xd4ef3085)
    case 11 => Entry(6, 23, 0x04881d05)
    case 12 => Entry(9, 4, 0xd9d4d039)
    case 13 => Entry(12, 11, 0xe6db99e5)
    case 14 => Entry(15, 16, 0x1fa27cf8)
    case _ => Entry(2, 23, 0xc4ac5665)
  }

  function Row4(j: nat): (e: Entry)
    ensures e.k < 16 && 0 < e.s < 32
  {
    match j
    case 0 => Entry(0, 6, 0xf4292244)
    case 1 => Entry(7, 10, 0x432aff97)
    case 2 => Entry(14, 15, 0xab9423a7)
    case 3 => Entry(5, 21, 0xfc93a039)
    case 4 => Entry(12, 6, 0x655b59c3)
    case 5 => Entry(3, 10, 0x8f0ccc92)
    case 6 => Entry(10, 15, 0xffeff47d)
    case 7 => Entry(1, 21, 0x85845dd1)
    case 8 => Entry(8, 6, 0x6fa87e4f)
    case 9 => Entry(15, 10, 0xfe2ce6e0)
    case 10 => Entry(6, 15, 0xa3014314)
    case 11 => Entry(13, 21, 0x4e0811a1)
    case 12 => Entry(4, 6, 0xf7537e82)
    case 13 => Entry(11, 10, 0xbd3af235)
    case 14 => Entry(2, 15, 0x2ad7d2bb)
    case _ => Entry(9, 21, 0xeb86d391)
  }

  function Aux(i: nat, x: bv32, y: bv32, z: bv32): bv32 {
    if i < 16 then F(x, y, z) else if i < 32 then G(x, y, z) else if i < 48 then H(x, y, z) else I(x, y, z)
  }

  /** Operation `i`: a = b + ((a + f(b, c, d) + X[k] + T[i]) <<< s); the words then
      change places for the next operation. */
  function Op(i: nat, w: Words, x: seq<bv32>): Words
    requires |x| == 16
  {
    var sum := Plus(Plus(Plus(w.a, Aux(i, w.b, w.c, w.d)), x[Row(i).k]), Row(i).t);
    var a := Plus(w.b, RotateLeft(sum, Row(i).s));
    Words(w.d, a, w.b, w.c)
  }

  /** The operations 0 to n - 1. */
  function Ops(n: nat, w: Words, x: seq<bv32>): Words
    requires |x| == 16
  {
    if n == 0 then w else Op(n - 1, Ops(n - 1, w, x), x)
  }

  function Add(v: Words, w: Words): Words {
    Words(Plus(v.a, w.a), Plus(v.b, w.b), Plus(v.c, w.c), Plus(v.d, w.d))
  }

  /** Four bytes as a word, low-order byte first (section 2). */
  function Word(b: seq<byte>): bv32
    requires |b| == 4
  {
    (b[0] as bv32) | ((b[1] as bv32) << 8) | ((b[2] as bv32) << 16) | ((b[3] as bv32) << 24)
  }

  function BlockWords(block: seq<byte>): (x: seq<bv32>)
    requires |block| == 64
    ensures |x| == 16
  {
    seq(16, i requires 0 <= i < 16 => Word(block[4 * i..4 * i + 4]))
  }

  function Compress(w: Words, block: seq<byte>): Words
    requires |block| == 64
  {
    Add(w, Ops(64, w, BlockWords(block)))
  }
}
