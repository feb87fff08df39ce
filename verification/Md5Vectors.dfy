/** The digests RFC 1321 gives in section A.5 for the empty message, for "abc" and for the
    message of 80 digits, operation by operation: whatever the tables of the 64 operations
    say, they must give these. */
module Md5Vectors {
  import opened ByteOrder
  import opened Md5Spec
  import opened Md5Message

  /** One operation: the auxiliary function, the sum before it is rotated, and the new word. */
  lemma {:induction false} Turn(start: Words, x: seq<bv32>, i: nat, a: bv32, b: bv32, c: bv32, d: bv32,
        f: bv32, sum: bv32, next: bv32)
    requires |x| == 16 && Ops(i, start, x) == Words(a, b, c, d)
    requires Aux(i, b, c, d) == f && Plus(Plus(Plus(a, f), x[Row(i).k]), Row(i).t) == sum
    requires Plus(b, RotateLeft(sum, Row(i).s)) == next
    ensures Ops(i + 1, start, x) == Words(d, next, b, c)
  {
    hide Row, Aux, Plus, RotateLeft;
  }

  // ----- from bytes to words and back

  /** Word `i` of the block at `from`, by its bytes. */
  lemma {:induction false} WordAt(p: seq<byte>, from: nat, block: seq<byte>, i: nat,
        b0: byte, b1: byte, b2: byte, b3: byte)
    requires i < 16 && from + 64 <= |p| && block == p[from..from + 64]
    requires var k := from + 4 * i; p[k] == b0 && p[k + 1] == b1 && p[k + 2] == b2 && p[k + 3] == b3
    ensures BlockWords(block)[i] == Word([b0, b1, b2, b3])
  {
    hide Word;
    assert block[4 * i..4 * i + 4] == [b0, b1, b2, b3];
  }

  lemma {:induction false} ZeroWords(p: seq<byte>, from: nat, block: seq<byte>, lo: nat, hi: nat)
    requires lo <= hi <= 16 && from + 64 <= |p| && block == p[from..from + 64]
    requires forall k :: from + 4 * lo <= k < from + 4 * hi ==> p[k] == 0
    ensures forall i :: lo <= i < hi ==> BlockWords(block)[i] == 0
  {
    hide BlockWords;
    assert Word([0, 0, 0, 0]) == 0;
    forall i | lo <= i < hi ensures BlockWords(block)[i] == 0 {
      WordAt(p, from, block, i, 0, 0, 0, 0);
    }
  }

  lemma {:induction false} ZeroBytes(width: nat)
    ensures Bytes(0, width) == Zeros(width)
  {
    if width > 0 {
      ZeroBytes(width - 1);
      assert Bytes(0, width) == [0] + Bytes(0, width - 1);
    }
  }

  /** The bytes of the 64-bit count of bits of a short message. */
  lemma {:induction false} ShortCount(length: nat, low: byte, high: byte)
    requires 8 * length == low + 0x100 * (high as int)
    ensures Count(length) == [low, high] + Zeros(6)
  {
    var n := 8 * length;
    var h: nat := high;
    Quotient(n, 256, h, low);
    Quotient(h, 256, 0, h);
    ZeroBytes(6);
    assert Bytes(n, 8) == [low] + Bytes(h, 7);
    assert Bytes(h, 7) == [high] + Bytes(0, 6);
  }

  lemma {:induction false} BytesJoined(s: seq<byte>)
    ensures Bytes(Joined(s), |s|) == s
  {
    if s != [] {
      BytesJoined(s[1..]);
      Quotient(Joined(s), 256, Joined(s[1..]), s[0]);
    }
  }

  lemma {:induction false} JoinFour(b: seq<byte>)
    requires |b| == 4
    ensures Joined(b) == b[0] + 0x100 * (b[1] as int) + 0x1_0000 * (b[2] as int) + 0x100_0000 * (b[3] as int)
  {
    assert b[1..][1..] == b[2..] && b[2..][1..] == b[3..] && b[3..][1..] == [];
    assert Joined(b[3..]) == b[3] + 256 * Joined([]);
    assert Joined(b[2..]) == b[2] + 256 * Joined(b[3..]);
    assert Joined(b[1..]) == b[1] + 256 * Joined(b[2..]);
  }

  lemma {:induction false} Outcome(w: bv32, b: seq<byte>)
    requires |b| == 4
    requires w as nat == b[0] + 0x100 * (b[1] as int) + 0x1_0000 * (b[2] as int) + 0x100_0000 * (b[3] as int)
    ensures WordBytes(w) == b
  {
    JoinFour(b);
    BytesJoined(b);
  }

  lemma {:induction false} OneBlock(m: seq<byte>, p: seq<byte>, x: seq<bv32>, w: Words)
    requires |p| == 64 && p == Padded(m) && |x| == 16 && BlockWords(p[0..64]) == x && Ops(64, INIT, x) == w
    ensures Digest(m) == Output(Add(INIT, w))
  {
    hide Ops, BlockWords, Padded, INIT, Output;
    assert Hash(p, 1) == Compress(Hash(p, 0), p[0..64]);
  }

  lemma {:induction false} TwoBlocks(m: seq<byte>, p: seq<byte>, x: seq<bv32>, v: Words, y: seq<bv32>, w: Words)
    requires |p| == 128 && p == Padded(m) && |x| == |y| == 16
    requires BlockWords(p[0..64]) == x && Ops(64, INIT, x) == v
    requires BlockWords(p[64..128]) == y && Ops(64, Add(INIT, v), y) == w
    ensures Digest(m) == Output(Add(Add(INIT, v), w))
  {
    hide Ops, BlockWords, Padded, INIT, Output, Add;
    assert Hash(p, 1) == Compress(Hash(p, 0), p[0..64]);
    assert Hash(p, 2) == Compress(Hash(p, 1), p[64..128]);
  }

  // ----- the empty message

  lemma {:induction false} EmptyBytes()
    ensures var p := Padded([]);
            && |p| == 64 && p[0] == 0x80
            && p[56] == 0x00 && p[57] == 0x00
            && (forall k :: 1 <= k < 64 && k != 56 && k != 57 ==> p[k] == 0)
  {
    hide Count;
    ShortCount(0, 0x00, 0x00);
  }

  lemma {:induction false} Part80000000()
    ensures Word([0x80, 0x00, 0x00, 0x00]) == 0x00000080
  {
  }

  const EMPTY: seq<bv32> := [
    0x00000080, 0x00000000, 0x00000000, 0x00000000, 0x00000000, 0x00000000, 0x00000000, 0x00000000,
    0x00000000, 0x00000000, 0x00000000, 0x00000000, 0x00000000, 0x00000000, 0x00000000, 0x00000000]

  lemma {:induction false} EmptyIs(x: seq<bv32>)
    requires |x| == 16
    requires x[0] == 0x00000080
    requires forall i :: 1 <= i < 16 ==> x[i] == 0
    ensures x == EMPTY
  {
  }

  lemma {:induction false} Empty0()
    ensures Ops(4, INIT, EMPTY) == Words(0xa5202774, 0x1b163203, 0xe7f06b23, 0xf59592dd)
  {
    assert Ops(0, INIT, EMPTY) == INIT;
    hide Ops;
    Turn(INIT, EMPTY, 0, 0x67452301, 0xefcdab89, 0x98badcfe, 0x10325476, 0x98badcfe, 0xd76aa4f7, 0xa5202774);
    Turn(INIT, EMPTY, 1, 0x10325476, 0xa5202774, 0xefcdab89, 0x98badcfe, 0xbd9afb8a, 0xb6950756, 0xf59592dd);
    Turn(INIT, EMPTY, 2, 0x98badcfe, 0xf59592dd, 0xa5202774, 0xefcdab89, 0xaf482b54, 0x6c23792d, 0xe7f06b23);
    Turn(INIT, EMPTY, 3, 0xefcdab89, 0xe7f06b23, 0xf59592dd, 0xa5202774, 0xe5900655, 0x971b80cc, 0x1b163203);
  }

  lemma {:induction false} Empty1()
    ensures Ops(8, INIT, EMPTY) == Words(0x32033344, 0x9bc13ce9, 0xf5b158db, 0x2f35d494)
  {
    Empty0();
    hide Ops;
    Turn(INIT, EMPTY, 4, 0xa5202774, 0x1b163203, 0xe7f06b23, 0xf59592dd, 0xe791a2df, 0x822dda02, 0x32033344);
    Turn(INIT, EMPTY, 5, 0xf59592dd, 0x32033344, 0x1b163203, 0xe7f06b23, 0xd7f27a23, 0x150fd32a, 0x2f35d494);
    Turn(INIT, EMPTY, 6, 0xe7f06b23, 0x2f35d494, 0x32033344, 0x1b163203, 0x32033207, 0xc223e33d, 0xf5b158db);
    Turn(INIT, EMPTY, 7, 0x1b163203, 0xf5b158db, 0x2f35d494, 0x32033344, 0x27337394, 0x3f903a98, 0x9bc13ce9);
  }

  lemma {:induction false} Empty2()
    ensures Ops(12, INIT, EMPTY) == Words(0x3893b991, 0x70768a29, 0xe1ef0576, 0xfce4a312)
  {
    Empty1();
    hide Ops;
    Turn(INIT, EMPTY, 8, 0x32033344, 0x9bc13ce9, 0xf5b158db, 0x2f35d494, 0xb5b5d8dd, 0x5139a4f9, 0x3893b991);
    Turn(INIT, EMPTY, 9, 0x2f35d494, 0x3893b991, 0x9bc13ce9, 0xf5b158db, 0xdda178cb, 0x981c450e, 0xfce4a312);
    Turn(INIT, EMPTY, 10, 0xf5b158db, 0xfce4a312, 0x3893b991, 0x9bc13ce9, 0x3b81bdf9, 0x31327285, 0xe1ef0576);
    Turn(INIT, EMPTY, 11, 0x9bc13ce9, 0xe1ef0576, 0xfce4a312, 0x3893b991, 0xf8f4b993, 0x1e12ce3a, 0x70768a29);
  }

  lemma {:induction false} Empty3()
    ensures Ops(16, INIT, EMPTY) == Words(0xf56c7cf1, 0xd6819c6a, 0x5aa53f75, 0x374943a7)
  {
    Empty2();
    hide Ops;
    Turn(INIT, EMPTY, 12, 0x3893b991, 0x70768a29, 0xe1ef0576, 0xfce4a312, 0xece62132, 0x9109ebe5, 0xf56c7cf1);
    Turn(INIT, EMPTY, 13, 0xfce4a312, 0xf56c7cf1, 0x70768a29, 0xe1ef0576, 0x70e70927, 0x6b641dcc, 0x374943a7);
    Turn(INIT, EMPTY, 14, 0xe1ef0576, 0x374943a7, 0xf56c7cf1, 0x70768a29, 0x757ec8a9, 0xfde711ad, 0x5aa53f75);
    Turn(INIT, EMPTY, 15, 0x70768a29, 0x5aa53f75, 0x374943a7, 0xf56c7cf1, 0xb74943a5, 0x7173d5ef, 0xd6819c6a);
  }

  lemma {:induction false} Empty4()
    ensures Ops(20, INIT, EMPTY) == Words(0x1c7d7513, 0xbd782e17, 0xc095f13a, 0x7bd57a3a)
  {
    Empty3();
    hide Ops;
    Turn(INIT, EMPTY, 16, 0xf56c7cf1, 0xd6819c6a, 0x5aa53f75, 0x374943a7, 0x5ea53c72, 0x4a2fdec5, 0x1c7d7513);
    Turn(INIT, EMPTY, 17, 0x374943a7, 0x1c7d7513, 0xd6819c6a, 0x5aa53f75, 0x9c25b51b, 0x93afac02, 0x7bd57a3a);
    Turn(INIT, EMPTY, 18, 0x5aa53f75, 0x7bd57a3a, 0x1c7d7513, 0xd6819c6a, 0x5afd793b, 0xdc011301, 0xc095f13a);
    Turn(INIT, EMPTY, 19, 0xd6819c6a, 0xc095f13a, 0x7bd57a3a, 0x1c7d7513, 0x63957b3a, 0x23cddfce, 0xbd782e17);
  }

  lemma {:induction false} Empty5()
    ensures Ops(24, INIT, EMPTY) == Words(0x3d1e3e6c, 0xe422531a, 0xeb41643e, 0x68b7b3e3)
  {
    Empty4();
    hide Ops;
    Turn(INIT, EMPTY, 20, 0x1c7d7513, 0xbd782e17, 0xc095f13a, 0x7bd57a3a, 0xb950ab12, 0xabfd3082, 0x3d1e3e6c);
    Turn(INIT, EMPTY, 21, 0x7bd57a3a, 0x3d1e3e6c, 0xbd782e17, 0xc095f13a, 0x3d7c3e2d, 0xbb95ccba, 0x68b7b3e3);
    Turn(INIT, EMPTY, 22, 0xc095f13a, 0x68b7b3e3, 0x3d1e3e6c, 0xbd782e17, 0x2836326b, 0xc16e0a26, 0xeb41643e);
    Turn(INIT, EMPTY, 23, 0xbd782e17, 0xeb41643e, 0x68b7b3e3, 0x3d1e3e6c, 0x69a1a5af, 0x0eedcf8e, 0xe422531a);
  }

  lemma {:induction false} Empty6()
    ensures Ops(28, INIT, EMPTY) == Words(0x306ec122, 0xa0572807, 0xa3c663da, 0xd28c77c2)
  {
    Empty5();
    hide Ops;
    Turn(INIT, EMPTY, 24, 0x3d1e3e6c, 0xe422531a, 0xeb41643e, 0x68b7b3e3, 0xe362571e, 0x42626370, 0x306ec122);
    Turn(INIT, EMPTY, 25, 0x68b7b3e3, 0x306ec122, 0xe422531a, 0xeb41643e, 0x24625322, 0x50510edb, 0xd28c77c2);
    Turn(INIT, EMPTY, 26, 0xeb41643e, 0xd28c77c2, 0x306ec122, 0xe422531a, 0xd04cd322, 0xb06344e7, 0xa3c663da);
    Turn(INIT, EMPTY, 27, 0xe422531a, 0xa3c663da, 0xd28c77c2, 0x306ec122, 0xe2c677c2, 0x0c42dfc9, 0xa0572807);
  }

  lemma {:induction false} Empty7()
    ensures Ops(32, INIT, EMPTY) == Words(0x13707036, 0xa2205f1f, 0x1c31c384, 0xae7813db)
  {
    Empty6();
    hide Ops;
    Turn(INIT, EMPTY, 28, 0x306ec122, 0xa0572807, 0xa3c663da, 0xd28c77c2, 0xa146201a, 0x7b98ca41, 0x13707036);
    Turn(INIT, EMPTY, 29, 0xd28c77c2, 0x13707036, 0xa0572807, 0xa3c663da, 0x03516817, 0xd2cd83d1, 0xae7813db);
    Turn(INIT, EMPTY, 30, 0xa3c663da, 0xae7813db, 0x13707036, 0xa0572807, 0xb3705033, 0xbea5b6e6, 0x1c31c384);
    Turn(INIT, EMPTY, 31, 0xa0572807, 0x1c31c384, 0xae7813db, 0x13707036, 0xbc3843cd, 0xe9b9b85e, 0xa2205f1f);
  }

  lemma {:induction false} Empty8()
    ensures Ops(36, INIT, EMPTY) == Words(0xdf63eaa1, 0x004b6669, 0x12f3e755, 0xc3689f5b)
  {
    Empty7();
    hide Ops;
    Turn(INIT, EMPTY, 32, 0x13707036, 0xa2205f1f, 0x1c31c384, 0xae7813db, 0x10698f40, 0x23d438b8, 0xdf63eaa1);
    Turn(INIT, EMPTY, 33, 0xae7813db, 0xdf63eaa1, 0xa2205f1f, 0x1c31c384, 0x6172763a, 0x975c8096, 0xc3689f5b);
    Turn(INIT, EMPTY, 34, 0x1c31c384, 0xc3689f5b, 0xdf63eaa1, 0xa2205f1f, 0xbe2b2ae5, 0x47fa4f8b, 0x12f3e755);
    Turn(INIT, EMPTY, 35, 0xa2205f1f, 0x12f3e755, 0xc3689f5b, 0xdf63eaa1, 0x0ef892af, 0xaefe29da, 0x004b6669);
  }

  lemma {:induction false} Empty9()
    ensures Ops(40, INIT, EMPTY) == Words(0x5f7a9b2e, 0xc5dc8c15, 0x91ca4cb7, 0xabc34e16)
  {
    Empty8();
    hide Ops;
    Turn(INIT, EMPTY, 36, 0xdf63eaa1, 0x004b6669, 0x12f3e755, 0xc3689f5b, 0xd1d01e67, 0x55f2f34c, 0x5f7a9b2e);
    Turn(INIT, EMPTY, 37, 0xc3689f5b, 0x5f7a9b2e, 0x004b6669, 0x12f3e755, 0x4dc21a12, 0x5d098916, 0xabc34e16);
    Turn(INIT, EMPTY, 38, 0x12f3e755, 0xabc34e16, 0x5f7a9b2e, 0x004b6669, 0xf4f2b351, 0xfea1e606, 0x91ca4cb7);
    Turn(INIT, EMPTY, 39, 0x004b6669, 0x91ca4cb7, 0xabc34e16, 0x5f7a9b2e, 0x6573998f, 0x247ebc68, 0xc5dc8c15);
  }

  lemma {:induction false} Empty10()
    ensures Ops(44, INIT, EMPTY) == Words(0x4497169d, 0x0fe32453, 0xfd95f243, 0x76fd93d4)
  {
    Empty9();
    hide Ops;
    Turn(INIT, EMPTY, 40, 0x5f7a9b2e, 0xc5dc8c15, 0x91ca4cb7, 0xabc34e16, 0xffd58eb4, 0x87eba8a8, 0x4497169d);
    Turn(INIT, EMPTY, 41, 0xabc34e16, 0x4497169d, 0xc5dc8c15, 0x91ca4cb7, 0x1081d63f, 0xa6e64ccf, 0x76fd93d4);
    Turn(INIT, EMPTY, 42, 0x91ca4cb7, 0x76fd93d4, 0x4497169d, 0xc5dc8c15, 0xf7b6095c, 0x5e6f8698, 0xfd95f243);
    Turn(INIT, EMPTY, 43, 0xc5dc8c15, 0xfd95f243, 0x76fd93d4, 0x4497169d, 0xcfff770a, 0x9a642024, 0x0fe32453);
  }

  lemma {:induction false} Empty11()
    ensures Ops(48, INIT, EMPTY) == Words(0x3f55edfd, 0xca7d2dbd, 0x68d84ea2, 0x22a31f54)
  {
    Empty10();
    hide Ops;
    Turn(INIT, EMPTY, 44, 0x4497169d, 0x0fe32453, 0xfd95f243, 0x76fd93d4, 0x848b45c4, 0xa2f72c9a, 0x3f55edfd);
    Turn(INIT, EMPTY, 45, 0x76fd93d4, 0x3f55edfd, 0x0fe32453, 0xfd95f243, 0xcd233bed, 0x2afc69a6, 0x22a31f54);
    Turn(INIT, EMPTY, 46, 0xfd95f243, 0x22a31f54, 0x3f55edfd, 0x0fe32453, 0x1215d6fa, 0x2f4e4635, 0x68d84ea2);
    Turn(INIT, EMPTY, 47, 0x0fe32453, 0x68d84ea2, 0x22a31f54, 0x3f55edfd, 0x752ebc0b, 0x49be36c3, 0xca7d2dbd);
  }

  lemma {:induction false} Empty12()
    ensures Ops(52, INIT, EMPTY) == Words(0x93aa2577, 0x561e0689, 0xcd85b8cb, 0x1688dc85)
  {
    Empty11();
    hide Ops;
    Turn(INIT, EMPTY, 48, 0x3f55edfd, 0xca7d2dbd, 0x68d84ea2, 0x22a31f54, 0xb7a5a31d, 0xeb24b3de, 0x93aa2577);
    Turn(INIT, EMPTY, 49, 0x22a31f54, 0x93aa2577, 0xca7d2dbd, 0x68d84ea2, 0x5dd298c2, 0xc3a0b7ad, 0x1688dc85);
    Turn(INIT, EMPTY, 50, 0x68d84ea2, 0x1688dc85, 0x93aa2577, 0xca7d2dbd, 0xa420fbb0, 0xb88d6df9, 0xcd85b8cb);
    Turn(INIT, EMPTY, 51, 0xca7d2dbd, 0xcd85b8cb, 0x1688dc85, 0x93aa2577, 0xfb5d264e, 0xc26df444, 0x561e0689);
  }

  lemma {:induction false} Empty13()
    ensures Ops(56, INIT, EMPTY) == Words(0x5625a114, 0x1e77fa61, 0x392ad0d0, 0x3450f42b)
  {
    Empty12();
    hide Ops;
    Turn(INIT, EMPTY, 52, 0x93aa2577, 0x561e0689, 0xcd85b8cb, 0x1688dc85, 0x32fa9f30, 0x2c001e6a, 0x5625a114);
    Turn(INIT, EMPTY, 53, 0x1688dc85, 0x5625a114, 0x561e0689, 0xcd85b8cb, 0x2061e1bd, 0xc5f78ad4, 0x3450f42b);
    Turn(INIT, EMPTY, 54, 0xcd85b8cb, 0x3450f42b, 0x5625a114, 0x561e0689, 0xebd45c6b, 0xb94a09b3, 0x392ad0d0);
    Turn(INIT, EMPTY, 55, 0x561e0689, 0x392ad0d0, 0x3450f42b, 0x5625a114, 0x8daa2ad0, 0x694c8f2a, 0x1e77fa61);
  }

  lemma {:induction false} Empty14()
    ensures Ops(60, INIT, EMPTY) == Words(0x474a9c8c, 0x30130182, 0x36594b14, 0xdfce00bc)
  {
    Empty13();
    hide Ops;
    Turn(INIT, EMPTY, 56, 0x5625a114, 0x1e77fa61, 0x392ad0d0, 0x3450f42b, 0xe6d52b25, 0xaca34a88, 0x474a9c8c);
    Turn(INIT, EMPTY, 57, 0x3450f42b, 0x474a9c8c, 0x1e77fa61, 0x392ad0d0, 0xd9a845ce, 0x0c2620d9, 0xdfce00bc);
    Turn(INIT, EMPTY, 58, 0x392ad0d0, 0xdfce00bc, 0x474a9c8c, 0x1e77fa61, 0xb8849932, 0x94b0ad16, 0x36594b14);
    Turn(INIT, EMPTY, 59, 0x1e77fa61, 0x36594b14, 0xdfce00bc, 0x474a9c8c, 0x61336bcb, 0xcdb377cd, 0x30130182);
  }

  lemma {:induction false} Empty15()
    ensures Ops(64, INIT, EMPTY) == Words(0x7246fad3, 0x14e45506, 0xff4ea3eb, 0x6e10a476)
  {
    Empty14();
    hide Ops;
    Turn(INIT, EMPTY, 60, 0x474a9c8c, 0x30130182, 0x36594b14, 0xdfce00bc, 0x066ab4d7, 0x4508cfe5, 0x7246fad3);
    Turn(INIT, EMPTY, 61, 0xdfce00bc, 0x7246fad3, 0x30130182, 0x36594b14, 0xcbf5ff79, 0x68fef26a, 0x6e10a476);
    Turn(INIT, EMPTY, 62, 0x36594b14, 0x6e10a476, 0x7246fad3, 0x30130182, 0x9dba04ac, 0xfeeb227b, 0xff4ea3eb);
    Turn(INIT, EMPTY, 63, 0x30130182, 0xff4ea3eb, 0x6e10a476, 0x7246fad3, 0x91ef0399, 0xad88d8ac, 0x14e45506);
  }

  lemma {:induction false} EmptyWords()
    ensures |Padded([])| == 64 && BlockWords(Padded([])[0..64]) == EMPTY
  {
    hide Padded, BlockWords, Word;
    Part80000000();
    EmptyBytes();
    var p := Padded([]);
    var block := p[0..64];
    WordAt(p, 0, block, 0, 0x80, 0x00, 0x00, 0x00);
    ZeroWords(p, 0, block, 1, 16);
    EmptyIs(BlockWords(block));
  }

  /** d41d8cd98f00b204e9800998ecf8427e */
  lemma {:induction false} EmptyDigest()
    ensures Digest([])
            == [0xd4, 0x1d, 0x8c, 0xd9, 0x8f, 0x00, 0xb2, 0x04, 0xe9, 0x80, 0x09, 0x98, 0xec, 0xf8, 0x42, 0x7e]
  {
    hide Ops, BlockWords, Padded, WordBytes, Digest;
    EmptyWords();
    Empty15();
    var w := Words(0x7246fad3, 0x14e45506, 0xff4ea3eb, 0x6e10a476);
    OneBlock([], Padded([]), EMPTY, w);
    Outcome(0xd98c1dd4, [0xd4, 0x1d, 0x8c, 0xd9]);
    Outcome(0x04b2008f, [0x8f, 0x00, 0xb2, 0x04]);
    Outcome(0x980980e9, [0xe9, 0x80, 0x09, 0x98]);
    Outcome(0x7e42f8ec, [0xec, 0xf8, 0x42, 0x7e]);
  }

  // ----- "abc"

  lemma {:induction false} AbcBytes()
    ensures var p := Padded([0x61, 0x62, 0x63]);
            && |p| == 64 && p[0] == 0x61 && p[1] == 0x62 && p[2] == 0x63 && p[3] == 0x80
            && p[56] == 0x18 && p[57] == 0x00
            && (forall k :: 4 <= k < 64 && k != 56 && k != 57 ==> p[k] == 0)
  {
    hide Count;
    ShortCount(3, 0x18, 0x00);
  }

  lemma {:induction false} Part61626380()
    ensures Word([0x61, 0x62, 0x63, 0x80]) == 0x80636261
  {
  }

  lemma {:induction false} Part18000000()
    ensures Word([0x18, 0x00, 0x00, 0x00]) == 0x00000018
  {
  }

  const ABC: seq<bv32> := [
    0x80636261, 0x00000000, 0x00000000, 0x00000000, 0x00000000, 0x00000000, 0x00000000, 0x00000000,
    0x00000000, 0x00000000, 0x00000000, 0x00000000, 0x00000000, 0x00000000, 0x00000018, 0x00000000]

  lemma {:induction false} AbcIs(x: seq<bv32>)
    requires |x| == 16
    requires x[0] == 0x80636261 && x[14] == 0x00000018
    requires forall i :: 1 <= i < 14 ==> x[i] == 0
    requires forall i :: 15 <= i < 16 ==> x[i] == 0
    ensures x == ABC
  {
  }

  lemma {:induction false} Abc0()
    ensures Ops(4, INIT, ABC) == Words(0xd6d117b4, 0x7ad956f2, 0x2f6fbd72, 0x344a8432)
  {
    assert Ops(0, INIT, ABC) == INIT;
    hide Ops;
    Turn(INIT, ABC, 0, 0x67452301, 0xefcdab89, 0x98badcfe, 0x10325476, 0x98badcfe, 0x57ce06d8, 0xd6d117b4);
    Turn(INIT, ABC, 1, 0x10325476, 0xd6d117b4, 0xefcdab89, 0x98badcfe, 0xceebcbca, 0xc7e5d796, 0x344a8432);
    Turn(INIT, ABC, 2, 0x98badcfe, 0x344a8432, 0xd6d117b4, 0xefcdab89, 0xdfc52fb9, 0x9ca07d92, 0x2f6fbd72);
    Turn(INIT, ABC, 3, 0xefcdab89, 0x2f6fbd72, 0x344a8432, 0xd6d117b4, 0xf4da86b6, 0xa666012d, 0x7ad956f2);
  }

  lemma {:induction false} Abc1()
    ensures Ops(8, INIT, ABC) == Words(0xc73741ef, 0x928d99f6, 0x207dc67b, 0x8bac3051)
  {
    Abc0();
    hide Ops;
    Turn(INIT, ABC, 4, 0xd6d117b4, 0x7ad956f2, 0x2f6fbd72, 0x344a8432, 0x2e4b9472, 0xfa98bbd5, 0xc73741ef);
    Turn(INIT, ABC, 5, 0x344a8432, 0xc73741ef, 0x7ad956f2, 0x2f6fbd72, 0x6a59fcf2, 0xe62c474e, 0x8bac3051);
    Turn(INIT, ABC, 6, 0x2f6fbd72, 0x8bac3051, 0xc73741ef, 0x7ad956f2, 0xf37546e3, 0xcb154a68, 0x207dc67b);
    Turn(INIT, ABC, 7, 0x7ad956f2, 0x207dc67b, 0x8bac3051, 0xc73741ef, 0xc72e01d5, 0x3f4dedc8, 0x928d99f6);
  }

  lemma {:induction false} Abc2()
    ensures Ops(12, INIT, ABC) == Words(0x854b3712, 0x5ed49596, 0x3020401c, 0x74e2f284)
  {
    Abc1();
    hide Ops;
    Turn(INIT, ABC, 8, 0xc73741ef, 0x928d99f6, 0x207dc67b, 0x8bac3051, 0x092da073, 0x39e57b3a, 0x854b3712);
    Turn(INIT, ABC, 9, 0x8bac3051, 0x854b3712, 0x928d99f6, 0x207dc67b, 0xa03dd17b, 0xb72ef97b, 0x74e2f284);
    Turn(INIT, ABC, 10, 0x207dc67b, 0x74e2f284, 0x854b3712, 0x928d99f6, 0x864f3b72, 0xa6cc5d9e, 0x3020401c);
    Turn(INIT, ABC, 11, 0x928d99f6, 0x3020401c, 0x74e2f284, 0x854b3712, 0xb56b7706, 0xd155e8ba, 0x5ed49596);
  }

  lemma {:induction false} Abc3()
    ensures Ops(16, INIT, ABC) == Words(0xdda9b9a6, 0x72aff2e0, 0xe396856b, 0xa1051895)
  {
    Abc2();
    hide Ops;
    Turn(INIT, ABC, 12, 0x854b3712, 0x5ed49596, 0x3020401c, 0x74e2f284, 0x30226214, 0x20fdaa48, 0xdda9b9a6);
    Turn(INIT, ABC, 13, 0x74e2f284, 0xdda9b9a6, 0x5ed49596, 0x3020401c, 0x7c80d19e, 0xeefc35b5, 0xa1051895);
    Turn(INIT, ABC, 14, 0x3020401c, 0xa1051895, 0xdda9b9a6, 0x5ed49596, 0xdfd19d86, 0xb66b2148, 0xe396856b);
    Turn(INIT, ABC, 15, 0x5ed49596, 0xe396856b, 0xa1051895, 0xdda9b9a6, 0xbd2d3885, 0x65b5d63c, 0x72aff2e0);
  }

  lemma {:induction false} Abc4()
    ensures Ops(20, INIT, ABC) == Words(0x3e9e9126, 0xb5b204e4, 0xe25e1652, 0x4a1d804e)
  {
    Abc3();
    hide Ops;
    Turn(INIT, ABC, 16, 0xdda9b9a6, 0x72aff2e0, 0xe396856b, 0xa1051895, 0x629795ea, 0x365f74f2, 0x3e9e9126);
    Turn(INIT, ABC, 17, 0xa1051895, 0x3e9e9126, 0x72aff2e0, 0xe396856b, 0x32bff3a2, 0x9405bf77, 0x4a1d804e);
    Turn(INIT, ABC, 18, 0xe396856b, 0x4a1d804e, 0x3e9e9126, 0x72aff2e0, 0x4e1d8146, 0x58126102, 0xe25e1652);
    Turn(INIT, ABC, 19, 0x72aff2e0, 0xe25e1652, 0x4a1d804e, 0x3e9e9126, 0x621f104a, 0x3ee92d35, 0xb5b204e4);
  }

  lemma {:induction false} Abc5()
    ensures Ops(24, INIT, ABC) == Words(0x59a8ffda, 0x47092c07, 0xabfc7920, 0x6d002f1e)
  {
    Abc4();
    hide Ops;
    Turn(INIT, ABC, 20, 0x3e9e9126, 0xb5b204e4, 0xe25e1652, 0x4a1d804e, 0xa0521654, 0xb51fb7d7, 0x59a8ffda);
    Turn(INIT, ABC, 21, 0x4a1d804e, 0x59a8ffda, 0xb5b204e4, 0xe25e1652, 0x55a816f6, 0xa209ab97, 0x6d002f1e);
    Turn(INIT, ABC, 22, 0xe25e1652, 0x6d002f1e, 0x59a8ffda, 0xb5b204e4, 0x6d08ff1e, 0x2808fbf1, 0xabfc7920);
    Turn(INIT, ABC, 23, 0xb5b204e4, 0xabfc7920, 0x6d002f1e, 0x59a8ffda, 0x2da87904, 0xcb2e79b0, 0x47092c07);
  }

  lemma {:induction false} Abc6()
    ensures Ops(28, INIT, ABC) == Words(0xb7f268cf, 0x786acb8f, 0xfe1623b1, 0x09388eff)
  {
    Abc5();
    hide Ops;
    Turn(INIT, ABC, 24, 0x59a8ffda, 0x47092c07, 0xabfc7920, 0x6d002f1e, 0xc7fc7c26, 0x438749e6, 0xb7f268cf);
    Turn(INIT, ABC, 25, 0x6d002f1e, 0xb7f268cf, 0x47092c07, 0xabfc7920, 0xe7f16c07, 0x1828a313, 0x09388eff);
    Turn(INIT, ABC, 26, 0xabfc7920, 0x09388eff, 0xb7f268cf, 0x47092c07, 0xb1fa4ccf, 0x52cbd376, 0xfe1623b1);
    Turn(INIT, ABC, 27, 0x47092c07, 0xfe1623b1, 0x09388eff, 0xb7f268cf, 0xbe1aa6b1, 0x4a7de7a5, 0x786acb8f);
  }

  lemma {:induction false} Abc7()
    ensures Ops(32, INIT, ABC) == Words(0x790a77fb, 0x726342d3, 0xa62884aa, 0x9f47e4f8)
  {
    Abc6();
    hide Ops;
    Turn(INIT, ABC, 28, 0xb7f268cf, 0x786acb8f, 0xfe1623b1, 0x09388eff, 0xfe2eab8f, 0x6004fd63, 0x790a77fb);
    Turn(INIT, ABC, 29, 0x09388eff, 0x790a77fb, 0x786acb8f, 0xfe1623b1, 0x786aebbf, 0x7e931eb6, 0x9f47e4f8);
    Turn(INIT, ABC, 30, 0xfe1623b1, 0x9f47e4f8, 0x790a77fb, 0x786acb8f, 0x1942f4f8, 0x7ec81b82, 0xa62884aa);
    Turn(INIT, ABC, 31, 0x786acb8f, 0xa62884aa, 0x9f47e4f8, 0x790a77fb, 0xa64d84aa, 0xabe29cc3, 0x726342d3);
  }

  lemma {:induction false} Abc8()
    ensures Ops(36, INIT, ABC) == Words(0xb3707ebf, 0x3b0875c7, 0x8d212ff5, 0x60127b2e)
  {
    Abc7();
    hide Ops;
    Turn(INIT, ABC, 32, 0x790a77fb, 0x726342d3, 0xa62884aa, 0x9f47e4f8, 0x4b0c2281, 0xc410d3be, 0xb3707ebf);
    Turn(INIT, ABC, 33, 0x9f47e4f8, 0xb3707ebf, 0x726342d3, 0xa62884aa, 0x673bb8c6, 0x8df5943f, 0x60127b2e);
    Turn(INIT, ABC, 34, 0xa62884aa, 0x60127b2e, 0xb3707ebf, 0x726342d3, 0xa1014742, 0xb4c72d0e, 0x8d212ff5);
    Turn(INIT, ABC, 35, 0x726342d3, 0x8d212ff5, 0x60127b2e, 0xb3707ebf, 0x5e432a64, 0xce8ba55b, 0x3b0875c7);
  }

  lemma {:induction false} Abc9()
    ensures Ops(40, INIT, ABC) == Words(0x21b117b9, 0x5a2f5ea5, 0x3575227e, 0x6e7429d5)
  {
    Abc8();
    hide Ops;
    Turn(INIT, ABC, 36, 0xb3707ebf, 0x3b0875c7, 0x8d212ff5, 0x60127b2e, 0xd63b211c, 0x2e6a8a1f, 0x21b117b9);
    Turn(INIT, ABC, 37, 0x60127b2e, 0x21b117b9, 0x3b0875c7, 0x8d212ff5, 0x97984d8b, 0x43899862, 0x6e7429d5);
    Turn(INIT, ABC, 38, 0x8d212ff5, 0x6e7429d5, 0x21b117b9, 0x3b0875c7, 0x74cd4bab, 0xf8a9c700, 0x3575227e);
    Turn(INIT, ABC, 39, 0x3b0875c7, 0x3575227e, 0x6e7429d5, 0x21b117b9, 0x7ab01c12, 0x74784e49, 0x5a2f5ea5);
  }

  lemma {:induction false} Abc10()
    ensures Ops(44, INIT, ABC) == Words(0x11de1779, 0x4c6124f4, 0x31c465ca, 0xfadcaa38)
  {
    Abc9();
    hide Ops;
    Turn(INIT, ABC, 40, 0x21b117b9, 0x5a2f5ea5, 0x3575227e, 0x6e7429d5, 0x012e550e, 0x4b7aeb8d, 0x11de1779);
    Turn(INIT, ABC, 41, 0x6e7429d5, 0x11de1779, 0x5a2f5ea5, 0x3575227e, 0x7e846ba2, 0x57fd1fd2, 0xfadcaa38);
    Turn(INIT, ABC, 42, 0x3575227e, 0xfadcaa38, 0x11de1779, 0x5a2f5ea5, 0xb12de3e4, 0xbb9236e7, 0x31c465ca);
    Turn(INIT, ABC, 43, 0x5a2f5ea5, 0x31c465ca, 0xfadcaa38, 0x11de1779, 0xdac6d88b, 0x397e5435, 0x4c6124f4);
  }

  lemma {:induction false} Abc11()
    ensures Ops(48, INIT, ABC) == Words(0x7f2e507b, 0x7beb9700, 0x8fae6399, 0x99d9679d)
  {
    Abc10();
    hide Ops;
    Turn(INIT, ABC, 44, 0x11de1779, 0x4c6124f4, 0x31c465ca, 0xfadcaa38, 0x8779eb06, 0x732cd2b8, 0x7f2e507b);
    Turn(INIT, ABC, 45, 0xfadcaa38, 0x7f2e507b, 0x4c6124f4, 0x31c465ca, 0x028b1145, 0xe4435562, 0x99d9679d);
    Turn(INIT, ABC, 46, 0x31c465ca, 0x99d9679d, 0x7f2e507b, 0x4c6124f4, 0xaa961312, 0xfbfcf5d4, 0x8fae6399);
    Turn(INIT, ABC, 47, 0x4c6124f4, 0x8fae6399, 0x99d9679d, 0x7f2e507b, 0x6959547f, 0x7a66cfd8, 0x7beb9700);
  }

  lemma {:induction false} Abc12()
    ensures Ops(52, INIT, ABC) == Words(0x7b201df8, 0x8bf025c4, 0xb298cefd, 0xf4e8e96e)
  {
    Abc11();
    hide Ops;
    Turn(INIT, ABC, 48, 0x7f2e507b, 0x7beb9700, 0x8fae6399, 0x99d9679d, 0xf041fcfb, 0xe3fcd21b, 0x7b201df8);
    Turn(INIT, ABC, 49, 0x99d9679d, 0x7b201df8, 0x7beb9700, 0x8fae6399, 0x009a0afe, 0xdd9e7232, 0xf4e8e96e);
    Turn(INIT, ABC, 50, 0x8fae6399, 0xf4e8e96e, 0x7b201df8, 0x7beb9700, 0x8fdcf407, 0xcb1f7b5f, 0xb298cefd);
    Turn(INIT, ABC, 51, 0x7beb9700, 0xb298cefd, 0xf4e8e96e, 0x7b201df8, 0x42370791, 0xbab63eca, 0x8bf025c4);
  }

  lemma {:induction false} Abc13()
    ensures Ops(56, INIT, ABC) == Words(0x06cc5e8a, 0x3bfa2c27, 0x7d632dd0, 0x5b0d97aa)
  {
    Abc12();
    hide Ops;
    Turn(INIT, ABC, 52, 0x7b201df8, 0x8bf025c4, 0xb298cefd, 0xf4e8e96e, 0x396ff928, 0x19eb70e3, 0x06cc5e8a);
    Turn(INIT, ABC, 53, 0xf4e8e96e, 0x06cc5e8a, 0x8bf025c4, 0xb298cefd, 0xc41f5a4e, 0x4815104e, 0x5b0d97aa);
    Turn(INIT, ABC, 54, 0xb298cefd, 0x5b0d97aa, 0x06cc5e8a, 0x8bf025c4, 0x79c38131, 0x2c4c44ab, 0x7d632dd0);
    Turn(INIT, ABC, 55, 0x8bf025c4, 0x7d632dd0, 0x5b0d97aa, 0x06cc5e8a, 0xa67e3a5f, 0xb7f2bdf4, 0x3bfa2c27);
  }

  lemma {:induction false} Abc14()
    ensures Ops(60, INIT, ABC) == Words(0x7f81cc35, 0x7327d604, 0x4f9dbe3f, 0x094454ab)
  {
    Abc13();
    hide Ops;
    Turn(INIT, ABC, 56, 0x06cc5e8a, 0x3bfa2c27, 0x7d632dd0, 0x5b0d97aa, 0xc29941a7, 0x390e1e80, 0x7f81cc35);
    Turn(INIT, ABC, 57, 0x5b0d97aa, 0x7f81cc35, 0x3bfa2c27, 0x7d632dd0, 0xc467f218, 0x1da270a2, 0x094454ab);
    Turn(INIT, ABC, 58, 0x7d632dd0, 0x094454ab, 0x7f81cc35, 0x3bfa2c27, 0xb2c41bce, 0xd3288cb2, 0x4f9dbe3f);
    Turn(INIT, ABC, 59, 0x3bfa2c27, 0x4f9dbe3f, 0x094454ab, 0x7f81cc35, 0xc6bbeb54, 0x50be291c, 0x7327d604);
  }

  lemma {:induction false} Abc15()
    ensures Ops(64, INIT, ABC) == Words(0x310ade8f, 0xc08226b3, 0xe484b9d8, 0x624d8cb2)
  {
    Abc14();
    hide Ops;
    Turn(INIT, ABC, 60, 0x7f81cc35, 0x7327d604, 0x4f9dbe3f, 0x094454ab, 0xb822416b, 0x2ef78c22, 0x310ade8f);
    Turn(INIT, ABC, 61, 0x094454ab, 0x310ade8f, 0x7327d604, 0x4f9dbe3f, 0xc24d09cb, 0x88cc50ab, 0x624d8cb2);
    Turn(INIT, ABC, 62, 0x4f9dbe3f, 0x624d8cb2, 0x310ade8f, 0x7327d604, 0xdfd77374, 0x5a4d046e, 0xe484b9d8);
    Turn(INIT, ABC, 63, 0x7327d604, 0xe484b9d8, 0x624d8cb2, 0x310ade8f, 0x8cb8354a, 0xeb66dedf, 0xc08226b3);
  }

  lemma {:induction false} AbcWords()
    ensures |Padded([0x61, 0x62, 0x63])| == 64 && BlockWords(Padded([0x61, 0x62, 0x63])[0..64]) == ABC
  {
    hide Padded, BlockWords, Word;
    Part18000000();
    Part61626380();
    AbcBytes();
    var p := Padded([0x61, 0x62, 0x63]);
    var block := p[0..64];
    WordAt(p, 0, block, 0, 0x61, 0x62, 0x63, 0x80);
    ZeroWords(p, 0, block, 1, 14);
    WordAt(p, 0, block, 14, 0x18, 0x00, 0x00, 0x00);
    ZeroWords(p, 0, block, 15, 16);
    AbcIs(BlockWords(block));
  }

  /** 900150983cd24fb0d6963f7d28e17f72 */
  lemma {:induction false} AbcDigest()
    ensures Digest([0x61, 0x62, 0x63])
            == [0x90, 0x01, 0x50, 0x98, 0x3c, 0xd2, 0x4f, 0xb0, 0xd6, 0x96, 0x3f, 0x7d, 0x28, 0xe1, 0x7f, 0x72]
  {
    hide Ops, BlockWords, Padded, WordBytes, Digest;
    AbcWords();
    Abc15();
    var w := Words(0x310ade8f, 0xc08226b3, 0xe484b9d8, 0x624d8cb2);
    OneBlock([0x61, 0x62, 0x63], Padded([0x61, 0x62, 0x63]), ABC, w);
    Outcome(0x98500190, [0x90, 0x01, 0x50, 0x98]);
    Outcome(0xb04fd23c, [0x3c, 0xd2, 0x4f, 0xb0]);
    Outcome(0x7d3f96d6, [0xd6, 0x96, 0x3f, 0x7d]);
    Outcome(0x727fe128, [0x28, 0xe1, 0x7f, 0x72]);
  }

  // ----- eight times the ten digits

  const DIGITS: seq<byte> := seq(80, i requires 0 <= i < 80 => 0x30 + (i + 1) % 10)

  lemma {:induction false} DigitsBytes()
    ensures var p := Padded(DIGITS);
            && |p| == 128 && p[..80] == DIGITS && p[80] == 0x80
            && p[120] == 0x80 && p[121] == 0x02
            && (forall k :: 81 <= k < 128 && k != 120 && k != 121 ==> p[k] == 0)
  {
    hide Count;
    ShortCount(80, 0x80, 0x02);
    assert |DIGITS| == 80;
  }

  lemma {:induction false} Part31323334()
    ensures Word([0x31, 0x32, 0x33, 0x34]) == 0x34333231
  {
  }

  lemma {:induction false} Part35363738()
    ensures Word([0x35, 0x36, 0x37, 0x38]) == 0x38373635
  {
  }

  lemma {:induction false} Part39303132()
    ensures Word([0x39, 0x30, 0x31, 0x32]) == 0x32313039
  {
  }

  lemma {:induction false} Part33343536()
    ensures Word([0x33, 0x34, 0x35, 0x36]) == 0x36353433
  {
  }

  lemma {:induction false} Part37383930()
    ensures Word([0x37, 0x38, 0x39, 0x30]) == 0x30393837
  {
  }

  lemma {:induction false} Part80020000()
    ensures Word([0x80, 0x02, 0x00, 0x00]) == 0x00000280
  {
  }

  /** Five words of the block hold the ten digits twice. */
  lemma {:induction false} FiveWords(p: seq<byte>, from: nat, block: seq<byte>, i: nat)
    requires |p| == 128 && p[..80] == DIGITS
    requires from <= 64 && block == p[from..from + 64] && i <= 11 && from + 4 * i <= 60
    requires (from + 4 * i) % 20 == 0
    ensures var x := BlockWords(block);
            && x[i] == 0x34333231 && x[i + 1] == 0x38373635 && x[i + 2] == 0x32313039
            && x[i + 3] == 0x36353433 && x[i + 4] == 0x30393837
  {
    hide BlockWords, Word;
    DigitAt(p, from + 4 * i);
    DigitAt(p, from + 4 * i + 10);
    Part31323334();
    Part35363738();
    Part39303132();
    Part33343536();
    Part37383930();
    WordAt(p, from, block, i, 0x31, 0x32, 0x33, 0x34);
    WordAt(p, from, block, i + 1, 0x35, 0x36, 0x37, 0x38);
    WordAt(p, from, block, i + 2, 0x39, 0x30, 0x31, 0x32);
    WordAt(p, from, block, i + 3, 0x33, 0x34, 0x35, 0x36);
    WordAt(p, from, block, i + 4, 0x37, 0x38, 0x39, 0x30);
  }

  lemma {:induction false} DigitAt(p: seq<byte>, k: nat)
    requires |p| == 128 && p[..80] == DIGITS && k % 10 == 0 && k + 10 <= 80
    ensures p[k] == 0x31 && p[k + 1] == 0x32 && p[k + 2] == 0x33 && p[k + 3] == 0x34 && p[k + 4] == 0x35
    ensures p[k + 5] == 0x36 && p[k + 6] == 0x37 && p[k + 7] == 0x38 && p[k + 8] == 0x39 && p[k + 9] == 0x30
  {
    var n := k / 10;
    assert k == 10 * n;
    forall j | 0 <= j < 10 ensures p[k + j] == Digit(j) {
      Quotient(10 * n + (j + 1), 10, if j < 9 then n else n + 1, (j + 1) % 10);
      assert p[k + j] == p[..80][k + j] == DIGITS[k + j];
    }
    hide DIGITS;
    assert Digit(0) == p[k + 0] && Digit(1) == 0x32 && Digit(2) == 0x33 && Digit(3) == 0x34 && Digit(4) == 0x35;
    assert Digit(5) == 0x36 && Digit(6) == 0x37 && Digit(7) == 0x38 && Digit(8) == 0x39 && Digit(9) == 0x30;
  }

  function Digit(j: nat): byte {
    0x30 + (j + 1) % 10
  }

  const DIGITS_1: seq<bv32> := [
    0x34333231, 0x38373635, 0x32313039, 0x36353433, 0x30393837, 0x34333231, 0x38373635, 0x32313039,
    0x36353433, 0x30393837, 0x34333231, 0x38373635, 0x32313039, 0x36353433, 0x30393837, 0x34333231]

  lemma {:induction false} DigitsFirstIs(x: seq<bv32>)
    requires |x| == 16
    requires x[0] == 0x34333231 && x[1] == 0x38373635 && x[2] == 0x32313039 && x[3] == 0x36353433
    requires x[4] == 0x30393837 && x[5] == 0x34333231 && x[6] == 0x38373635 && x[7] == 0x32313039
    requires x[8] == 0x36353433 && x[9] == 0x30393837 && x[10] == 0x34333231 && x[11] == 0x38373635
    requires x[12] == 0x32313039 && x[13] == 0x36353433 && x[14] == 0x30393837 && x[15] == 0x34333231
    ensures x == DIGITS_1
  {
  }

  lemma {:induction false} DigitsFirst0()
    ensures Ops(4, INIT, DIGITS_1) == Words(0xbeb8ff8e, 0x862797b0, 0xf8cdf95d, 0x7d989d89)
  {
    assert Ops(0, INIT, DIGITS_1) == INIT;
    hide Ops;
    Turn(INIT, DIGITS_1, 0, 0x67452301, 0xefcdab89, 0x98badcfe, 0x10325476, 0x98badcfe, 0x0b9dd6a8, 0xbeb8ff8e);
    Turn(INIT, DIGITS_1, 1, 0x10325476, 0xbeb8ff8e, 0xefcdab89, 0x98badcfe, 0xae8aabf8, 0xdfbbedf9, 0x7d989d89);
    Turn(INIT, DIGITS_1, 2, 0x98badcfe, 0x7d989d89, 0xbeb8ff8e, 0xefcdab89, 0xbeddbf88, 0xadea3d9a, 0xf8cdf95d);
    Turn(INIT, DIGITS_1, 3, 0xefcdab89, 0xf8cdf95d, 0x7d989d89, 0xbeb8ff8e, 0x7eb89f8b, 0x66794e35, 0x862797b0);
  }

  lemma {:induction false} DigitsFirst1()
    ensures Ops(8, INIT, DIGITS_1) == Words(0x8c17de9f, 0xc57e78c1, 0xe99fec1b, 0xc0f32d81)
  {
    DigitsFirst0();
    hide Ops;
    Turn(INIT, DIGITS_1, 4, 0xbeb8ff8e, 0x862797b0, 0xf8cdf95d, 0x7d989d89, 0xf99d9919, 0xde0be08d, 0x8c17de9f);
    Turn(INIT, DIGITS_1, 5, 0x7d989d89, 0x8c17de9f, 0x862797b0, 0xf8cdf95d, 0xf4cfb7d0, 0xee234db4, 0xc0f32d81);
    Turn(INIT, DIGITS_1, 6, 0xf8cdf95d, 0xc0f32d81, 0x8c17de9f, 0x862797b0, 0x86179eb1, 0x5f4d1456, 0xe99fec1b);
    Turn(INIT, DIGITS_1, 7, 0x862797b0, 0xe99fec1b, 0xc0f32d81, 0x8c17de9f, 0xc4933e85, 0x7a329b6f, 0xc57e78c1);
  }

  lemma {:induction false} DigitsFirst2()
    ensures Ops(12, INIT, DIGITS_1) == Words(0x7c0aceb7, 0xa5f36f8d, 0x5186a8ba, 0x8869d2d8)
  {
    DigitsFirst1();
    hide Ops;
    Turn(INIT, DIGITS_1, 8, 0x8c17de9f, 0xc57e78c1, 0xe99fec1b, 0xc0f32d81, 0xc19f6d01, 0xed6d18ab, 0x7c0aceb7);
    Turn(INIT, DIGITS_1, 9, 0xc0f32d81, 0x7c0aceb7, 0xc57e78c1, 0xe99fec1b, 0xc59f6889, 0x4210c5f0, 0x8869d2d8);
    Turn(INIT, DIGITS_1, 10, 0xe99fec1b, 0x8869d2d8, 0x7c0aceb7, 0xc57e78c1, 0x4d1eea91, 0x6af1648e, 0x5186a8ba);
    Turn(INIT, DIGITS_1, 11, 0xc57e78c1, 0x5186a8ba, 0x8869d2d8, 0x7c0aceb7, 0x2c08c69d, 0xb31b4d51, 0xa5f36f8d);
  }

  lemma {:induction false} DigitsFirst3()
    ensures Ops(16, INIT, DIGITS_1) == Words(0x5157e49e, 0xaf506a03, 0x27e983a0, 0xffac907e)
  {
    DigitsFirst2();
    hide Ops;
    Turn(INIT, DIGITS_1, 12, 0x7c0aceb7, 0xa5f36f8d, 0x5186a8ba, 0x8869d2d8, 0x098ab8d8, 0x2356c8ea, 0x5157e49e);
    Turn(INIT, DIGITS_1, 13, 0x8869d2d8, 0x5157e49e, 0xa5f36f8d, 0x5186a8ba, 0x01d36cac, 0xbe0ae54a, 0xffac907e);
    Turn(INIT, DIGITS_1, 14, 0x5186a8ba, 0xffac907e, 0x5157e49e, 0xa5f36f8d, 0x5157ef9f, 0x7991141e, 0x27e983a0);
    Turn(INIT, DIGITS_1, 15, 0xa5f36f8d, 0x27e983a0, 0xffac907e, 0x5157e49e, 0x77bee43e, 0x9b998e1d, 0xaf506a03);
  }

  lemma {:induction false} DigitsFirst4()
    ensures Ops(20, INIT, DIGITS_1) == Words(0x8d18e0e8, 0x04280170, 0xef223167, 0x07de0df2)
  {
    DigitsFirst3();
    hide Ops;
    Turn(INIT, DIGITS_1, 16, 0x5157e49e, 0xaf506a03, 0x27e983a0, 0xffac907e, 0xaf410382, 0x2eee43b7, 0x8d18e0e8);
    Turn(INIT, DIGITS_1, 17, 0xffac907e, 0x8d18e0e8, 0xaf506a03, 0x27e983a0, 0x8d18e8a3, 0x853d6296, 0x07de0df2);
    Turn(INIT, DIGITS_1, 18, 0x27e983a0, 0x07de0df2, 0x8d18e0e8, 0xaf506a03, 0x075888ea, 0x8dd79d10, 0xef223167);
    Turn(INIT, DIGITS_1, 19, 0xaf506a03, 0xef223167, 0x07de0df2, 0x8d18e0e8, 0x8fc62d72, 0x5d009150, 0x04280170);
  }

  lemma {:induction false} DigitsFirst5()
    ensures Ops(24, INIT, DIGITS_1) == Words(0x78929ee0, 0xad400a91, 0xb18aca50, 0x375c6c2c)
  {
    DigitsFirst4();
    hide Ops;
    Turn(INIT, DIGITS_1, 20, 0x8d18e0e8, 0x04280170, 0xef223167, 0x07de0df2, 0xec283175, 0x83a354eb, 0x78929ee0);
    Turn(INIT, DIGITS_1, 21, 0x07de0df2, 0x78929ee0, 0x04280170, 0xef223167, 0x680a1070, 0xa65f64e6, 0x375c6c2c);
    Turn(INIT, DIGITS_1, 22, 0xef223167, 0x375c6c2c, 0x78929ee0, 0x04280170, 0x7c9a9ea0, 0x7891e8b9, 0xb18aca50);
    Turn(INIT, DIGITS_1, 23, 0x04280170, 0xb18aca50, 0x375c6c2c, 0x78929ee0, 0x37ceea4c, 0x54041fbb, 0xad400a91);
  }

  lemma {:induction false} DigitsFirst6()
    ensures Ops(28, INIT, DIGITS_1) == Words(0xbb45f43f, 0xb70e35a9, 0x98ade6b5, 0xd61f8a0f)
  {
    DigitsFirst5();
    hide Ops;
    Turn(INIT, DIGITS_1, 24, 0x78929ee0, 0xad400a91, 0xb18aca50, 0x375c6c2c, 0xa5c28a50, 0x70702f4d, 0xbb45f43f);
    Turn(INIT, DIGITS_1, 25, 0x375c6c2c, 0xbb45f43f, 0xad400a91, 0xb18aca50, 0xbd40c091, 0xe80d6cca, 0xd61f8a0f);
    Turn(INIT, DIGITS_1, 26, 0xb18aca50, 0xd61f8a0f, 0xbb45f43f, 0xad400a91, 0x9605fe2f, 0x729b0a39, 0x98ade6b5);
    Turn(INIT, DIGITS_1, 27, 0xad400a91, 0x98ade6b5, 0xd61f8a0f, 0xbb45f43f, 0xdc1fee35, 0x04ef41e6, 0xb70e35a9);
  }

  lemma {:induction false} DigitsFirst7()
    ensures Ops(32, INIT, DIGITS_1) == Words(0xf8bcfbb0, 0x1bf25662, 0x99a0f1b8, 0xd760ed39)
  {
    DigitsFirst6();
    hide Ops;
    Turn(INIT, DIGITS_1, 28, 0xbb45f43f, 0xb70e35a9, 0x98ade6b5, 0xd61f8a0f, 0x9eae64b9, 0x3a0d7630, 0xf8bcfbb0);
    Turn(INIT, DIGITS_1, 29, 0xd61f8a0f, 0xf8bcfbb0, 0xb70e35a9, 0x98ade6b5, 0xbfaef3b8, 0xc4ef51f8, 0xd760ed39);
    Turn(INIT, DIGITS_1, 30, 0x98ade6b5, 0xd760ed39, 0xf8bcfbb0, 0xb70e35a9, 0xdfb0ef39, 0x11ff0900, 0x99a0f1b8);
    Turn(INIT, DIGITS_1, 31, 0xb70e35a9, 0x99a0f1b8, 0xd760ed39, 0xf8bcfbb0, 0x9fe0f5b9, 0x164aa825, 0x1bf25662);
  }

  lemma {:induction false} DigitsFirst8()
    ensures Ops(36, INIT, DIGITS_1) == Words(0x3dbd76ca, 0xe0162f49, 0xc7ed7c30, 0xfd056171)
  {
    DigitsFirst7();
    hide Ops;
    Turn(INIT, DIGITS_1, 32, 0xf8bcfbb0, 0x1bf25662, 0x99a0f1b8, 0xd760ed39, 0x55324ae3, 0x821cb206, 0x3dbd76ca);
    Turn(INIT, DIGITS_1, 33, 0xd760ed39, 0x3dbd76ca, 0x1bf25662, 0x99a0f1b8, 0xbfefd110, 0x54f7e8fd, 0xfd056171);
    Turn(INIT, DIGITS_1, 34, 0x99a0f1b8, 0xfd056171, 0x3dbd76ca, 0x1bf25662, 0xdb4a41d9, 0x1abfcae8, 0xc7ed7c30);
    Turn(INIT, DIGITS_1, 35, 0x1bf25662, 0xc7ed7c30, 0xfd056171, 0x3dbd76ca, 0x07556b8b, 0x51663230, 0xe0162f49);
  }

  lemma {:induction false} DigitsFirst9()
    ensures Ops(40, INIT, DIGITS_1) == Words(0x3b32c408, 0x1d4d6f72, 0x9ef871ad, 0x7338d8b7)
  {
    DigitsFirst8();
    hide Ops;
    Turn(INIT, DIGITS_1, 36, 0x3dbd76ca, 0xe0162f49, 0xc7ed7c30, 0xfd056171, 0xdafe3208, 0xf5b1c94b, 0x3b32c408);
    Turn(INIT, DIGITS_1, 37, 0xfd056171, 0x3b32c408, 0xe0162f49, 0xc7ed7c30, 0x1cc99771, 0x95e700c2, 0x7338d8b7);
    Turn(INIT, DIGITS_1, 38, 0xc7ed7c30, 0x7338d8b7, 0x3b32c408, 0xe0162f49, 0xa81c33f6, 0x98f62bbf, 0x9ef871ad);
    Turn(INIT, DIGITS_1, 39, 0xe0162f49, 0x9ef871ad, 0x7338d8b7, 0x3b32c408, 0xd6f26d12, 0xa9fb8afc, 0x1d4d6f72);
  }

  lemma {:induction false} DigitsFirst10()
    ensures Ops(44, INIT, DIGITS_1) == Words(0xc661460a, 0x89e3c4d7, 0xd6d5b879, 0xd2bf04c9)
  {
    DigitsFirst9();
    hide Ops;
    Turn(INIT, DIGITS_1, 40, 0x3b32c408, 0x1d4d6f72, 0x9ef871ad, 0x7338d8b7, 0xf08dc668, 0x8a913d69, 0xc661460a);
    Turn(INIT, DIGITS_1, 41, 0x7338d8b7, 0xc661460a, 0x1d4d6f72, 0x9ef871ad, 0x45d458d5, 0xd7e18bb7, 0xd2bf04c9);
    Turn(INIT, DIGITS_1, 42, 0x9ef871ad, 0xd2bf04c9, 0xc661460a, 0x1d4d6f72, 0x09932db1, 0xb3b00416, 0xd6d5b879);
    Turn(INIT, DIGITS_1, 43, 0x1d4d6f72, 0xd6d5b879, 0xd2bf04c9, 0xc661460a, 0xc20bfaba, 0x1c18bd66, 0x89e3c4d7);
  }

  lemma {:induction false} DigitsFirst11()
    ensures Ops(48, INIT, DIGITS_1) == Words(0x697032ec, 0xdb4197da, 0xefc2c171, 0xfa597bfc)
  {
    DigitsFirst10();
    hide Ops;
    Turn(INIT, DIGITS_1, 44, 0xc661460a, 0x89e3c4d7, 0xd6d5b879, 0xd2bf04c9, 0x8d897867, 0x5df8c6e1, 0x697032ec);
    Turn(INIT, DIGITS_1, 45, 0xd2bf04c9, 0x697032ec, 0x89e3c4d7, 0xd6d5b879, 0x36464e42, 0x22121d29, 0xfa597bfc);
    Turn(INIT, DIGITS_1, 46, 0xd6d5b879, 0xfa597bfc, 0x697032ec, 0x89e3c4d7, 0x1aca8dc7, 0x4575f569, 0xefc2c171);
    Turn(INIT, DIGITS_1, 47, 0x89e3c4d7, 0xefc2c171, 0xfa597bfc, 0x697032ec, 0x7ceb8861, 0xfdacd3d6, 0xdb4197da);
  }

  lemma {:induction false} DigitsFirst12()
    ensures Ops(52, INIT, DIGITS_1) == Words(0x57b91aca, 0xcaa25b01, 0x21efbd88, 0x210c9ebc)
  {
    DigitsFirst11();
    hide Ops;
    Turn(INIT, DIGITS_1, 48, 0x697032ec, 0xdb4197da, 0xefc2c171, 0xfa597bfc, 0x302556aa, 0xc1f1de0b, 0x57b91aca);
    Turn(INIT, DIGITS_1, 49, 0xfa597bfc, 0x57b91aca, 0xdb4197da, 0xefc2c171, 0x8cfca914, 0xfcb254e0, 0x210c9ebc);
    Turn(INIT, DIGITS_1, 50, 0xefc2c171, 0x210c9ebc, 0x57b91aca, 0xdb4197da, 0x7207e477, 0x3d9801c6, 0x21efbd88);
    Turn(INIT, DIGITS_1, 51, 0xdb4197da, 0x21efbd88, 0x210c9ebc, 0x57b91aca, 0x88e36301, 0x94ebcd45, 0xcaa25b01);
  }

  lemma {:induction false} DigitsFirst13()
    ensures Ops(56, INIT, DIGITS_1) == Words(0x633d3f7c, 0x7713f5df, 0xccaa1524, 0x1a4d3beb)
  {
    DigitsFirst12();
    hide Ops;
    Turn(INIT, DIGITS_1, 52, 0x57b91aca, 0xcaa25b01, 0x21efbd88, 0x210c9ebc, 0xff1cc6cb, 0xee626b91, 0x633d3f7c);
    Turn(INIT, DIGITS_1, 53, 0x210c9ebc, 0x633d3f7c, 0xcaa25b01, 0x21efbd88, 0x359f247e, 0x1bedc3ff, 0x1a4d3beb);
    Turn(INIT, DIGITS_1, 54, 0x21efbd88, 0x1a4d3beb, 0x633d3f7c, 0xcaa25b01, 0x5c608083, 0xb27364b9, 0xccaa1524);
    Turn(INIT, DIGITS_1, 55, 0xcaa25b01, 0xccaa1524, 0x1a4d3beb, 0x633d3f7c, 0xc6a7ee4c, 0x4f05dd53, 0x7713f5df);
  }

  lemma {:induction false} DigitsFirst14()
    ensures Ops(60, INIT, DIGITS_1) == Words(0x8448b430, 0x660a801d, 0x7e294727, 0x71c93463)
  {
    DigitsFirst13();
    hide Ops;
    Turn(INIT, DIGITS_1, 56, 0x633d3f7c, 0x7713f5df, 0xccaa1524, 0x1a4d3beb, 0x3b19e0fb, 0x4434d2f9, 0x8448b430);
    Turn(INIT, DIGITS_1, 57, 0x1a4d3beb, 0x8448b430, 0x7713f5df, 0xccaa1524, 0xc04e0b24, 0x0cfb6020, 0x71c93463);
    Turn(INIT, DIGITS_1, 58, 0xccaa1524, 0x71c93463, 0x8448b430, 0x7713f5df, 0x7da58a53, 0x258818c0, 0x7e294727);
    Turn(INIT, DIGITS_1, 59, 0x7713f5df, 0x7e294727, 0x71c93463, 0x8448b430, 0x0e767b8c, 0x09c7b73f, 0x660a801d);
  }

  lemma {:induction false} DigitsFirst15()
    ensures Ops(64, INIT, DIGITS_1) == Words(0x614868eb, 0xb4d33102, 0x5133129b, 0xa09f38a7)
  {
    DigitsFirst14();
    hide Ops;
    Turn(INIT, DIGITS_1, 60, 0x8448b430, 0x660a801d, 0x7e294727, 0x71c93463, 0x90178cba, 0x3becf7a3, 0x614868eb);
    Turn(INIT, DIGITS_1, 61, 0x71c93463, 0x614868eb, 0x660a801d, 0x7e294727, 0x87d478e6, 0xef0fd5b3, 0xa09f38a7);
    Turn(INIT, DIGITS_1, 62, 0x7e294727, 0xa09f38a7, 0x614868eb, 0x660a801d, 0xd8b7170c, 0xb3e96127, 0x5133129b);
    Turn(INIT, DIGITS_1, 63, 0x660a801d, 0x5133129b, 0xa09f38a7, 0x614868eb, 0x7f28af38, 0x00f33b1d, 0xb4d33102);
  }

  const DIGITS_2: seq<bv32> := [
    0x38373635, 0x32313039, 0x36353433, 0x30393837, 0x00000080, 0x00000000, 0x00000000, 0x00000000,
    0x00000000, 0x00000000, 0x00000000, 0x00000000, 0x00000000, 0x00000000, 0x00000280, 0x00000000]

  lemma {:induction false} DigitsSecondIs(x: seq<bv32>)
    requires |x| == 16
    requires x[0] == 0x38373635 && x[1] == 0x32313039 && x[2] == 0x36353433 && x[3] == 0x30393837
    requires x[4] == 0x00000080 && x[14] == 0x00000280
    requires forall i :: 5 <= i < 14 ==> x[i] == 0
    requires forall i :: 15 <= i < 16 ==> x[i] == 0
    ensures x == DIGITS_2
  {
  }

  const BETWEEN := Words(0xc88d8bec, 0xa4a0dc8b, 0xe9edef99, 0xb0d18d1d)

  lemma {:induction false} DigitsSecond0()
    ensures Ops(4, BETWEEN, DIGITS_2) == Words(0x353af7cf, 0x45e88f2c, 0x63356537, 0x3a4f735a)
  {
    assert Ops(0, BETWEEN, DIGITS_2) == BETWEEN;
    hide Ops;
    Turn(BETWEEN, DIGITS_2, 0, 0xc88d8bec, 0xa4a0dc8b, 0xe9edef99, 0xb0d18d1d, 0xb0f1cd9d, 0x89213436, 0x353af7cf);
    Turn(BETWEEN, DIGITS_2, 1, 0xb0d18d1d, 0x353af7cf, 0xa4a0dc8b, 0xe9edef99, 0xece5dc9b, 0xb8b05147, 0x3a4f735a);
    Turn(BETWEEN, DIGITS_2, 2, 0xe9edef99, 0x3a4f735a, 0x353af7cf, 0xa4a0dc8b, 0xb4aaffcb, 0xf8ee9472, 0x63356537);
    Turn(BETWEEN, DIGITS_2, 3, 0xa4a0dc8b, 0x63356537, 0x3a4f735a, 0x353af7cf, 0x360ff3da, 0xcca7d78a, 0x45e88f2c);
  }

  lemma {:induction false} DigitsSecond1()
    ensures Ops(8, BETWEEN, DIGITS_2) == Words(0x3527497e, 0x377c7d0a, 0x948347ae, 0xab92660e)
  {
    DigitsSecond0();
    hide Ops;
    Turn(BETWEEN, DIGITS_2, 4, 0x353af7cf, 0x45e88f2c, 0x63356537, 0x3a4f735a, 0x7b277576, 0xa5de7d74, 0x3527497e);
    Turn(BETWEEN, DIGITS_2, 5, 0x3a4f735a, 0x3527497e, 0x45e88f2c, 0x63356537, 0x47302d2d, 0xc90766b1, 0xab92660e);
    Turn(BETWEEN, DIGITS_2, 6, 0x63356537, 0xab92660e, 0x3527497e, 0x45e88f2c, 0x656ac92e, 0x70d07478, 0x948347ae);
    Turn(BETWEEN, DIGITS_2, 7, 0x45e88f2c, 0x948347ae, 0xab92660e, 0x3527497e, 0xa1a64e5e, 0xe4d5728b, 0x377c7d0a);
  }

  lemma {:induction false} DigitsSecond2()
    ensures Ops(12, BETWEEN, DIGITS_2) == Words(0xcc912f27, 0xb9ede40c, 0xae23894d, 0x6945a3d5)
  {
    DigitsSecond1();
    hide Ops;
    Turn(BETWEEN, DIGITS_2, 8, 0x3527497e, 0x377c7d0a, 0x948347ae, 0xab92660e, 0x9c82470e, 0x3b2a2964, 0xcc912f27);
    Turn(BETWEEN, DIGITS_2, 9, 0xab92660e, 0xcc912f27, 0x377c7d0a, 0x948347ae, 0x14126d8a, 0x4ae9cb47, 0x6945a3d5);
    Turn(BETWEEN, DIGITS_2, 10, 0x948347ae, 0x6945a3d5, 0xcc912f27, 0x377c7d0a, 0x5e397f0f, 0xf2bc226e, 0xae23894d);
    Turn(BETWEEN, DIGITS_2, 11, 0x377c7d0a, 0xae23894d, 0x6945a3d5, 0xcc912f27, 0x6891a767, 0x296afc2f, 0xb9ede40c);
  }

  lemma {:induction false} DigitsSecond3()
    ensures Ops(16, BETWEEN, DIGITS_2) == Words(0xdb4ff71c, 0x58b12eab, 0x04396a39, 0x9b6b4960)
  {
    DigitsSecond2();
    hide Ops;
    Turn(BETWEEN, DIGITS_2, 12, 0xcc912f27, 0xb9ede40c, 0xae23894d, 0x6945a3d5, 0xe82183dd, 0x2042c426, 0xdb4ff71c);
    Turn(BETWEEN, DIGITS_2, 13, 0x6945a3d5, 0xdb4ff71c, 0xb9ede40c, 0xae23894d, 0xbd6dec4d, 0x244c01b5, 0x9b6b4960);
    Turn(BETWEEN, DIGITS_2, 14, 0xae23894d, 0x9b6b4960, 0xdb4ff71c, 0xb9ede40c, 0xbbcfe50c, 0x106cb467, 0x04396a39);
    Turn(BETWEEN, DIGITS_2, 15, 0xb9ede40c, 0x04396a39, 0x9b6b4960, 0xdb4ff71c, 0xdb6fdd24, 0xdf11c951, 0x58b12eab);
  }

  lemma {:induction false} DigitsSecond4()
    ensures Ops(20, BETWEEN, DIGITS_2) == Words(0x52c00cae, 0x50f8de8c, 0xa476af6f, 0xaad2a216)
  {
    DigitsSecond3();
    hide Ops;
    Turn(BETWEEN, DIGITS_2, 16, 0xdb4ff71c, 0x58b12eab, 0x04396a39, 0x9b6b4960, 0x1c312a39, 0x1fd076f0, 0x52c00cae);
    Turn(BETWEEN, DIGITS_2, 17, 0x9b6b4960, 0x52c00cae, 0x58b12eab, 0x04396a39, 0x58800caa, 0xb42c094a, 0xaad2a216);
    Turn(BETWEEN, DIGITS_2, 18, 0x04396a39, 0xaad2a216, 0x52c00cae, 0x58b12eab, 0x0ad02206, 0x3567e690, 0xa476af6f);
    Turn(BETWEEN, DIGITS_2, 19, 0x58b12eab, 0xa476af6f, 0xaad2a216, 0x52c00cae, 0xa852ae3e, 0x22f1dac8, 0x50f8de8c);
  }

  lemma {:induction false} DigitsSecond5()
    ensures Ops(24, BETWEEN, DIGITS_2) == Words(0x0d6e6d91, 0x043cb080, 0xd5b7a850, 0x17d64195)
  {
    DigitsSecond4();
    hide Ops;
    Turn(BETWEEN, DIGITS_2, 20, 0x52c00cae, 0x50f8de8c, 0xa476af6f, 0xaad2a216, 0x04f48f6d, 0x2de3ac78, 0x0d6e6d91);
    Turn(BETWEEN, DIGITS_2, 21, 0xaad2a216, 0x0d6e6d91, 0x50f8de8c, 0xa476af6f, 0x54ee7d81, 0x020533ea, 0x17d64195);
    Turn(BETWEEN, DIGITS_2, 22, 0xa476af6f, 0x17d64195, 0x0d6e6d91, 0x50f8de8c, 0x1dd66195, 0x9aeef785, 0xd5b7a850);
    Turn(BETWEEN, DIGITS_2, 23, 0x50f8de8c, 0xd5b7a850, 0x17d64195, 0x0d6e6d91, 0x17b62814, 0x508302e8, 0x043cb080);
  }

  lemma {:induction false} DigitsSecond6()
    ensures Ops(28, BETWEEN, DIGITS_2) == Words(0x74f9377e, 0xcb00b96e, 0xe775c8ca, 0x01f2addd)
  {
    DigitsSecond5();
    hide Ops;
    Turn(BETWEEN, DIGITS_2, 24, 0x0d6e6d91, 0x043cb080, 0xd5b7a850, 0x17d64195, 0xc435a8c0, 0xf385e437, 0x74f9377e);
    Turn(BETWEEN, DIGITS_2, 25, 0x17d64195, 0x74f9377e, 0x043cb080, 0xd5b7a850, 0x54b930d0, 0x2fc67cbb, 0x01f2addd);
    Turn(BETWEEN, DIGITS_2, 26, 0xd5b7a850, 0x01f2addd, 0x74f9377e, 0x043cb080, 0x70f1a7fe, 0x6bb7960c, 0xe775c8ca);
    Turn(BETWEEN, DIGITS_2, 27, 0x043cb080, 0xe775c8ca, 0x01f2addd, 0x74f9377e, 0x657388cb, 0xaf0a4e38, 0xcb00b96e);
  }

  lemma {:induction false} DigitsSecond7()
    ensures Ops(32, BETWEEN, DIGITS_2) == Words(0x8761f38e, 0x67092c33, 0x061bc867, 0x7a516116)
  {
    DigitsSecond6();
    hide Ops;
    Turn(BETWEEN, DIGITS_2, 28, 0x74f9377e, 0xcb00b96e, 0xe775c8ca, 0x01f2addd, 0xe705e94e, 0x05e309d1, 0x8761f38e);
    Turn(BETWEEN, DIGITS_2, 29, 0x01f2addd, 0x8761f38e, 0xcb00b96e, 0xe775c8ca, 0x8f61f1ae, 0xc47977b6, 0x7a516116);
    Turn(BETWEEN, DIGITS_2, 30, 0xe775c8ca, 0x7a516116, 0x8761f38e, 0xcb00b96e, 0x4e616386, 0x9d462f29, 0x061bc867);
    Turn(BETWEEN, DIGITS_2, 31, 0xcb00b96e, 0x061bc867, 0x7a516116, 0x8761f38e, 0x7e11c016, 0xd63cc60e, 0x67092c33);
  }

  lemma {:induction false} DigitsSecond8()
    ensures Ops(36, BETWEEN, DIGITS_2) == Words(0x91044d5d, 0x2ee1e3fe, 0xc0175fa8, 0x610954eb)
  {
    DigitsSecond7();
    hide Ops;
    Turn(BETWEEN, DIGITS_2, 32, 0x8761f38e, 0x67092c33, 0x061bc867, 0x7a516116, 0x1b438542, 0xa29fb212, 0x91044d5d);
    Turn(BETWEEN, DIGITS_2, 33, 0x7a516116, 0x91044d5d, 0x67092c33, 0x061bc867, 0xf016a909, 0xf1da00a0, 0x610954eb);
    Turn(BETWEEN, DIGITS_2, 34, 0x061bc867, 0x610954eb, 0x91044d5d, 0x67092c33, 0x97043585, 0x0abd5f0e, 0xc0175fa8);
    Turn(BETWEEN, DIGITS_2, 35, 0x67092c33, 0xc0175fa8, 0x610954eb, 0x91044d5d, 0x301a461e, 0x9508acdd, 0x2ee1e3fe);
  }

  lemma {:induction false} DigitsSecond9()
    ensures Ops(40, BETWEEN, DIGITS_2) == Words(0xae26ed7d, 0xdbd1bff6, 0xff4a94dc, 0x71d8ecea)
  {
    DigitsSecond8();
    hide Ops;
    Turn(BETWEEN, DIGITS_2, 36, 0x91044d5d, 0x2ee1e3fe, 0xc0175fa8, 0x610954eb, 0x8fffe8bd, 0xf7f45097, 0xae26ed7d);
    Turn(BETWEEN, DIGITS_2, 37, 0x610954eb, 0xae26ed7d, 0x2ee1e3fe, 0xc0175fa8, 0x40d0512b, 0xedb8763f, 0x71d8ecea);
    Turn(BETWEEN, DIGITS_2, 38, 0xc0175fa8, 0x71d8ecea, 0xae26ed7d, 0x2ee1e3fe, 0xf11fe269, 0xa7f28d71, 0xff4a94dc);
    Turn(BETWEEN, DIGITS_2, 39, 0x2ee1e3fe, 0xff4a94dc, 0x71d8ecea, 0xae26ed7d, 0x20b4954b, 0x0e5635b9, 0xdbd1bff6);
  }

  lemma {:induction false} DigitsSecond10()
    ensures Ops(44, BETWEEN, DIGITS_2) == Words(0x9c350028, 0x56b3692f, 0xfacaaf06, 0x97e5da92)
  {
    DigitsSecond9();
    hide Ops;
    Turn(BETWEEN, DIGITS_2, 40, 0xae26ed7d, 0xdbd1bff6, 0xff4a94dc, 0x71d8ecea, 0x5543c7c0, 0x2c063403, 0x9c350028);
    Turn(BETWEEN, DIGITS_2, 41, 0x71d8ecea, 0x9c350028, 0xdbd1bff6, 0xff4a94dc, 0xb8ae2b02, 0x4d5f761b, 0x97e5da92);
    Turn(BETWEEN, DIGITS_2, 42, 0xff4a94dc, 0x97e5da92, 0x9c350028, 0xdbd1bff6, 0xd001654c, 0xd47462e4, 0xfacaaf06);
    Turn(BETWEEN, DIGITS_2, 43, 0xdbd1bff6, 0xfacaaf06, 0x97e5da92, 0x9c350028, 0xf11a75bc, 0xd17452b7, 0x56b3692f);
  }

  lemma {:induction false} DigitsSecond11()
    ensures Ops(48, BETWEEN, DIGITS_2) == Words(0x71123afa, 0x1df7010a, 0xe6a8a386, 0xdc9c8ddb)
  {
    DigitsSecond10();
    hide Ops;
    Turn(BETWEEN, DIGITS_2, 44, 0x9c350028, 0x56b3692f, 0xfacaaf06, 0x97e5da92, 0x3b9c1cbb, 0xb1a5ed1c, 0x71123afa);
    Turn(BETWEEN, DIGITS_2, 45, 0x97e5da92, 0x71123afa, 0x56b3692f, 0xfacaaf06, 0xdd6bfcd3, 0x5c2d714a, 0xdc9c8ddb);
    Turn(BETWEEN, DIGITS_2, 46, 0xfacaaf06, 0xdc9c8ddb, 0x71123afa, 0x56b3692f, 0xfb3dde0e, 0x15ab0a0c, 0xe6a8a386);
    Turn(BETWEEN, DIGITS_2, 47, 0x56b3692f, 0xe6a8a386, 0xdc9c8ddb, 0x71123afa, 0x4b2614a7, 0x9cbb086e, 0x1df7010a);
  }

  lemma {:induction false} DigitsSecond12()
    ensures Ops(52, BETWEEN, DIGITS_2) == Words(0xd29007e7, 0xc8797828, 0xd3248109, 0x7241a77e)
  {
    DigitsSecond11();
    hide Ops;
    Turn(BETWEEN, DIGITS_2, 48, 0x71123afa, 0x1df7010a, 0xe6a8a386, 0xdc9c8ddb, 0xd95fd0a8, 0x76d2641b, 0xd29007e7);
    Turn(BETWEEN, DIGITS_2, 49, 0xdc9c8ddb, 0xd29007e7, 0x1df7010a, 0xe6a8a386, 0xc6205ef5, 0xe5e7ec67, 0x7241a77e);
    Turn(BETWEEN, DIGITS_2, 50, 0xe6a8a386, 0x7241a77e, 0xd29007e7, 0x1df7010a, 0x20d9f818, 0xb316c1c5, 0xd3248109);
    Turn(BETWEEN, DIGITS_2, 51, 0x1df7010a, 0xd3248109, 0x7241a77e, 0xd29007e7, 0x8d2e5e67, 0xa7b8ffaa, 0xc8797828);
  }

  lemma {:induction false} DigitsSecond13()
    ensures Ops(56, BETWEEN, DIGITS_2) == Words(0x7a504abd, 0x9b31b114, 0xa290d6ce, 0x211cc65d)
  {
    DigitsSecond12();
    hide Ops;
    Turn(BETWEEN, DIGITS_2, 52, 0xd29007e7, 0xc8797828, 0xd3248109, 0x7241a77e, 0x1edbf9a0, 0x56c75b4a, 0x7a504abd);
    Turn(BETWEEN, DIGITS_2, 53, 0x7241a77e, 0x7a504abd, 0xc8797828, 0xd3248109, 0xb6a206d7, 0xe829b31e, 0x211cc65d);
    Turn(BETWEEN, DIGITS_2, 54, 0xd3248109, 0x211cc65d, 0x7a504abd, 0xc8797828, 0x4dce8d62, 0x20e302e8, 0xa290d6ce);
    Turn(BETWEEN, DIGITS_2, 55, 0xc8797828, 0xa290d6ce, 0x211cc65d, 0x7a504abd, 0x86a33193, 0x06d237c5, 0x9b31b114);
  }

  lemma {:induction false} DigitsSecond14()
    ensures Ops(60, BETWEEN, DIGITS_2) == Words(0x723fd22d, 0x4dc4f33d, 0x3d79cf74, 0xd21d6a3b)
  {
    DigitsSecond13();
    hide Ops;
    Turn(BETWEEN, DIGITS_2, 56, 0x7a504abd, 0x9b31b114, 0xa290d6ce, 0x211cc65d, 0x7d636f78, 0x675c3884, 0x723fd22d);
    Turn(BETWEEN, DIGITS_2, 57, 0x211cc65d, 0x723fd22d, 0x9b31b114, 0xa290d6ce, 0xe44e4a29, 0x0397f766, 0xd21d6a3b);
    Turn(BETWEEN, DIGITS_2, 58, 0xa290d6ce, 0xd21d6a3b, 0x723fd22d, 0x9b31b114, 0x84e0bcd6, 0xca72d6b8, 0x3d79cf74);
    Turn(BETWEEN, DIGITS_2, 59, 0x9b31b114, 0x3d79cf74, 0xd21d6a3b, 0x723fd22d, 0x6fe485cd, 0x591e4882, 0x4dc4f33d);
  }

  lemma {:induction false} DigitsSecond15()
    ensures Ops(64, BETWEEN, DIGITS_2) == Words(0xda67616b, 0xb12906a0, 0x44ec5a13, 0xc9e47a04)
  {
    DigitsSecond14();
    hide Ops;
    Turn(BETWEEN, DIGITS_2, 60, 0x723fd22d, 0x4dc4f33d, 0x3d79cf74, 0xd21d6a3b, 0x509f3889, 0xba3289b8, 0xda67616b);
    Turn(BETWEEN, DIGITS_2, 61, 0xd21d6a3b, 0xda67616b, 0x4dc4f33d, 0x3d79cf74, 0x972382d6, 0x267bdf46, 0xc9e47a04);
    Turn(BETWEEN, DIGITS_2, 62, 0x3d79cf74, 0xc9e47a04, 0xda67616b, 0x4dc4f33d, 0x21981fad, 0xc01ef60f, 0x44ec5a13);
    Turn(BETWEEN, DIGITS_2, 63, 0x4dc4f33d, 0x44ec5a13, 0xc9e47a04, 0xda67616b, 0xac18a493, 0xe5646b61, 0xb12906a0);
  }

  lemma {:induction false} DigitsFirstWords()
    ensures |Padded(DIGITS)| == 128 && BlockWords(Padded(DIGITS)[0..64]) == DIGITS_1
  {
    hide Padded, BlockWords, Word;
    Part31323334();
    Part33343536();
    Part35363738();
    Part37383930();
    Part39303132();
    DigitsBytes();
    var p := Padded(DIGITS);
    var block := p[0..64];
    DigitAt(p, 60);
    FiveWords(p, 0, block, 0);
    FiveWords(p, 0, block, 5);
    FiveWords(p, 0, block, 10);
    WordAt(p, 0, block, 15, 0x31, 0x32, 0x33, 0x34);
    DigitsFirstIs(BlockWords(block));
  }

  lemma {:induction false} DigitsSecondWords()
    ensures |Padded(DIGITS)| == 128 && BlockWords(Padded(DIGITS)[64..128]) == DIGITS_2
  {
    hide Padded, BlockWords, Word;
    Part33343536();
    Part35363738();
    Part37383930();
    Part39303132();
    Part80000000();
    Part80020000();
    DigitsBytes();
    var p := Padded(DIGITS);
    var block := p[64..128];
    DigitAt(p, 60);
    DigitAt(p, 70);
    WordAt(p, 64, block, 0, 0x35, 0x36, 0x37, 0x38);
    WordAt(p, 64, block, 1, 0x39, 0x30, 0x31, 0x32);
    WordAt(p, 64, block, 2, 0x33, 0x34, 0x35, 0x36);
    WordAt(p, 64, block, 3, 0x37, 0x38, 0x39, 0x30);
    WordAt(p, 64, block, 4, 0x80, 0x00, 0x00, 0x00);
    ZeroWords(p, 64, block, 5, 14);
    WordAt(p, 64, block, 14, 0x80, 0x02, 0x00, 0x00);
    ZeroWords(p, 64, block, 15, 16);
    DigitsSecondIs(BlockWords(block));
  }

  /** 57edf4a22be3c955ac49da2e2107b67a */
  lemma {:induction false} DigitsDigest()
    ensures Digest(DIGITS)
            == [0x57, 0xed, 0xf4, 0xa2, 0x2b, 0xe3, 0xc9, 0x55, 0xac, 0x49, 0xda, 0x2e, 0x21, 0x07, 0xb6, 0x7a]
  {
    hide Ops, BlockWords, Padded, WordBytes, Digest;
    DigitsFirstWords();
    DigitsSecondWords();
    DigitsFirst15();
    DigitsSecond15();
    var v, w := Words(0x614868eb, 0xb4d33102, 0x5133129b, 0xa09f38a7),
                Words(0xda67616b, 0xb12906a0, 0x44ec5a13, 0xc9e47a04);
    assert |DIGITS| == 80;
    assert Add(INIT, v) == BETWEEN;
    TwoBlocks(DIGITS, Padded(DIGITS), DIGITS_1, v, DIGITS_2, w);
    Outcome(0xa2f4ed57, [0x57, 0xed, 0xf4, 0xa2]);
    Outcome(0x55c9e32b, [0x2b, 0xe3, 0xc9, 0x55]);
    Outcome(0x2eda49ac, [0xac, 0x49, 0xda, 0x2e]);
    Outcome(0x7ab60721, [0x21, 0x07, 0xb6, 0x7a]);
  }
}
