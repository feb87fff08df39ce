/** md5.c: `MD5Transform` with its optimised auxiliary functions. */
module Md5Transform {
  import opened ByteOrder
  import opened Md5Spec

  function F1(x: bv32, y: bv32, z: bv32): bv32 { z ^ (x & (y ^ z)) }

  function F2(x: bv32, y: bv32, z: bv32): bv32 { F1(z, x, y) }

  function F3(x: bv32, y: bv32, z: bv32): bv32 { x ^ y ^ z }

  function F4(x: bv32, y: bv32, z: bv32): bv32 { y ^ (x | !z) }

  lemma {:induction false} Select(x: bv32, y: bv32, z: bv32)
    ensures z ^ (x & (y ^ z)) == (x & y) | (!x & z)
  {
  }

  lemma {:induction false} SelectByZ(x: bv32, y: bv32, z: bv32)
    ensures y ^ (z & (x ^ y)) == (x & z) | (y & !z)
  {
  }

  /** The optimised forms are the RFC's boolean functions. */
  lemma {:induction false} OptimisedForms(x: bv32, y: bv32, z: bv32)
    ensures F1(x, y, z) == F(x, y, z)
    ensures F2(x, y, z) == G(x, y, z)
    ensures F3(x, y, z) == H(x, y, z)
    ensures F4(x, y, z) == I(x, y, z)
  {
    FirstForm(x, y, z);
    SecondForm(x, y, z);
    hide F, G, F1, F2;
  }

  lemma {:induction false} FirstForm(x: bv32, y: bv32, z: bv32)
    ensures F1(x, y, z) == F(x, y, z)
  {
    hide Plus, RotateLeft, G, H, I, F2, F3, F4, Row, Row1, Row2, Row3, Row4;
    Select(x, y, z);
  }

  lemma {:induction false} SecondForm(x: bv32, y: bv32, z: bv32)
    ensures F2(x, y, z) == G(x, y, z)
  {
    hide Plus, RotateLeft, F, H, I, F3, F4, Row, Row1, Row2, Row3, Row4;
    SelectByZ(x, y, z);
  }

  /** The macro MD5STEP, with the value of the auxiliary function. */
  function Step(f: bv32, w: bv32, x: bv32, data: bv32, s: nat): bv32
    requires 0 < s < 32
  {
    Plus(RotateLeft(Plus(w, Plus(f, data)), s), x)
  }

  lemma {:induction false} PlusIsSum(x: bv32, y: bv32)
    ensures Plus(x, y) == x + y
  {
  }

  lemma {:induction false} PlusAssociates(x: bv32, y: bv32, z: bv32)
    ensures Plus(x, Plus(y, z)) == Plus(Plus(x, y), z)
  {
    PlusIsSum(x, y);
    PlusIsSum(y, z);
  }

  /** The code adds the word and the constant before the rest. */
  lemma {:induction false} SameSum(w: bv32, f: bv32, x: bv32, t: bv32)
    ensures Plus(w, Plus(f, Plus(x, t))) == Plus(Plus(Plus(w, f), x), t)
  {
    hide Plus;
    PlusAssociates(w, f, Plus(x, t));
    PlusAssociates(Plus(w, f), x, t);
  }

  lemma {:induction false} Commute(v: bv32, w: bv32)
    ensures Plus(v, w) == Plus(w, v)
  {
  }

  lemma {:induction false} Next1(i: nat, w: Words, x: seq<bv32>, a: bv32, b: bv32, c: bv32, d: bv32)
    requires 0 <= i < 16 && |x| == 16
    requires Ops(i, w, x) == Words(a, b, c, d)
    ensures Ops(i + 1, w, x) == Words(d, Step(F1(b, c, d), a, b, Plus(x[Row(i).k], Row(i).t), Row(i).s), b, c)
  {
    hide Plus, Row, Row1, Row2, Row3, Row4, RotateLeft, F, G, H, I, F1, F2, F3, F4;
    OptimisedForms(b, c, d);
    SameSum(a, F1(b, c, d), x[Row(i).k], Row(i).t);
    Commute(b, RotateLeft(Plus(Plus(Plus(a, F1(b, c, d)), x[Row(i).k]), Row(i).t), Row(i).s));
  }

  lemma {:induction false} Next2(i: nat, w: Words, x: seq<bv32>, a: bv32, b: bv32, c: bv32, d: bv32)
    requires 16 <= i < 32 && |x| == 16
    requires Ops(i, w, x) == Words(a, b, c, d)
    ensures Ops(i + 1, w, x) == Words(d, Step(F2(b, c, d), a, b, Plus(x[Row(i).k], Row(i).t), Row(i).s), b, c)
  {
    hide Plus, Row, Row1, Row2, Row3, Row4, RotateLeft, F, G, H, I, F1, F2, F3, F4;
    OptimisedForms(b, c, d);
    SameSum(a, F2(b, c, d), x[Row(i).k], Row(i).t);
    Commute(b, RotateLeft(Plus(Plus(Plus(a, F2(b, c, d)), x[Row(i).k]), Row(i).t), Row(i).s));
  }

  lemma {:induction false} Next3(i: nat, w: Words, x: seq<bv32>, a: bv32, b: bv32, c: bv32, d: bv32)
    requires 32 <= i < 48 && |x| == 16
    requires Ops(i, w, x) == Words(a, b, c, d)
    ensures Ops(i + 1, w, x) == Words(d, Step(F3(b, c, d), a, b, Plus(x[Row(i).k], Row(i).t), Row(i).s), b, c)
  {
    hide Plus, Row, Row1, Row2, Row3, Row4, RotateLeft, F, G, H, I, F1, F2, F3, F4;
    OptimisedForms(b, c, d);
    SameSum(a, F3(b, c, d), x[Row(i).k], Row(i).t);
    Commute(b, RotateLeft(Plus(Plus(Plus(a, F3(b, c, d)), x[Row(i).k]), Row(i).t), Row(i).s));
  }

  lemma {:induction false} Next4(i: nat, w: Words, x: seq<bv32>, a: bv32, b: bv32, c: bv32, d: bv32)
    requires 48 <= i < 64 && |x| == 16
    requires Ops(i, w, x) == Words(a, b, c, d)
    ensures Ops(i + 1, w, x) == Words(d, Step(F4(b, c, d), a, b, Plus(x[Row(i).k], Row(i).t), Row(i).s), b, c)
  {
    hide Plus, Row, Row1, Row2, Row3, Row4, RotateLeft, F, G, H, I, F1, F2, F3, F4;
    OptimisedForms(b, c, d);
    SameSum(a, F4(b, c, d), x[Row(i).k], Row(i).t);
    Commute(b, RotateLeft(Plus(Plus(Plus(a, F4(b, c, d)), x[Row(i).k]), Row(i).t), Row(i).s));
  }

  /** Steps 0 to 15 of `MD5Transform`; `w` is where the transformation started. */
  method Round1(ghost w: Words, x: seq<bv32>, v: Words) returns (u: Words)
    requires |x| == 16 && v == Ops(0, w, x)
    ensures u == Ops(16, w, x)
  {
    hide Plus, Step, Ops, Op, F1, F2, F3, F4;
    var a, b, c, d := v.a, v.b, v.c, v.d;
    Next1(0, w, x, a, b, c, d);
    a := Step(F1(b, c, d), a, b, Plus(x[0], 0xd76aa478), 7);
    Next1(1, w, x, d, a, b, c);
    d := Step(F1(a, b, c), d, a, Plus(x[1], 0xe8c7b756), 12);
    Next1(2, w, x, c, d, a, b);
    c := Step(F1(d, a, b), c, d, Plus(x[2], 0x242070db), 17);
    Next1(3, w, x, b, c, d, a);
    b := Step(F1(c, d, a), b, c, Plus(x[3], 0xc1bdceee), 22);
    Next1(4, w, x, a, b, c, d);
    a := Step(F1(b, c, d), a, b, Plus(x[4], 0xf57c0faf), 7);
    Next1(5, w, x, d, a, b, c);
    d := Step(F1(a, b, c), d, a, Plus(x[5], 0x4787c62a), 12);
    Next1(6, w, x, c, d, a, b);
    c := Step(F1(d, a, b), c, d, Plus(x[6], 0xa8304613), 17);
    Next1(7, w, x, b, c, d, a);
    b := Step(F1(c, d, a), b, c, Plus(x[7], 0xfd469501), 22);
    Next1(8, w, x, a, b, c, d);
    a := Step(F1(b, c, d), a, b, Plus(x[8], 0x698098d8), 7);
    Next1(9, w, x, d, a, b, c);
    d := Step(F1(a, b, c), d, a, Plus(x[9], 0x8b44f7af), 12);
    Next1(10, w, x, c, d, a, b);
    c := Step(F1(d, a, b), c, d, Plus(x[10], 0xffff5bb1), 17);
    Next1(11, w, x, b, c, d, a);
    b := Step(F1(c, d, a), b, c, Plus(x[11], 0x895cd7be), 22);
    Next1(12, w, x, a, b, c, d);
    a := Step(F1(b, c, d), a, b, Plus(x[12], 0x6b901122), 7);
    Next1(13, w, x, d, a, b, c);
    d := Step(F1(a, b, c), d, a, Plus(x[13], 0xfd987193), 12);
    Next1(14, w, x, c, d, a, b);
    c := Step(F1(d, a, b), c, d, Plus(x[14], 0xa679438e), 17);
    Next1(15, w, x, b, c, d, a);
    b := Step(F1(c, d, a), b, c, Plus(x[15], 0x49b40821), 22);
    u := Words(a, b, c, d);
  }

  /** Steps 16 to 31 of `MD5Transform`; `w` is where the transformation started. */
  method Round2(ghost w: Words, x: seq<bv32>, v: Words) returns (u: Words)
    requires |x| == 16 && v == Ops(16, w, x)
    ensures u == Ops(32, w, x)
  {
    hide Plus, Step, Ops, Op, F1, F2, F3, F4;
    var a, b, c, d := v.a, v.b, v.c, v.d;
    Next2(16, w, x, a, b, c, d);
    a := Step(F2(b, c, d), a, b, Plus(x[1], 0xf61e2562), 5);
    Next2(17, w, x, d, a, b, c);
    d := Step(F2(a, b, c), d, a, Plus(x[6], 0xc040b340), 9);
    Next2(18, w, x, c, d, a, b);
    c := Step(F2(d, a, b), c, d, Plus(x[11], 0x265e5a51), 14);
    Next2(19, w, x, b, c, d, a);
    b := Step(F2(c, d, a), b, c, Plus(x[0], 0xe9b6c7aa), 20);
    Next2(20, w, x, a, b, c, d);
    a := Step(F2(b, c, d), a, b, Plus(x[5], 0xd62f105d), 5);
    Next2(21, w, x, d, a, b, c);
    d := Step(F2(a, b, c), d, a, Plus(x[10], 0x02441453), 9);
    Next2(22, w, x, c, d, a, b);
    c := Step(F2(d, a, b), c, d, Plus(x[15], 0xd8a1e681), 14);
    Next2(23, w, x, b, c, d, a);
    b := Step(F2(c, d, a), b, c, Plus(x[4], 0xe7d3fbc8), 20);
    Next2(24, w, x, a, b, c, d);
    a := Step(F2(b, c, d), a, b, Plus(x[9], 0x21e1cde6), 5);
    Next2(25, w, x, d, a, b, c);
    d := Step(F2(a, b, c), d, a, Plus(x[14], 0xc33707d6), 9);
    Next2(26, w, x, c, d, a, b);
    c := Step(F2(d, a, b), c, d, Plus(x[3], 0xf4d50d87), 14);
    Next2(27, w, x, b, c, d, a);
    b := Step(F2(c, d, a), b, c, Plus(x[8], 0x455a14ed), 20);
    Next2(28, w, x, a, b, c, d);
    a := Step(F2(b, c, d), a, b, Plus(x[13], 0xa9e3e905), 5);
    Next2(29, w, x, d, a, b, c);
    d := Step(F2(a, b, c), d, a, Plus(x[2], 0xfcefa3f8), 9);
    Next2(30, w, x, c, d, a, b);
    c := Step(F2(d, a, b), c, d, Plus(x[7], 0x676f02d9), 14);
    Next2(31, w, x, b, c, d, a);
    b := Step(F2(c, d, a), b, c, Plus(x[12], 0x8d2a4c8a), 20);
    u := Words(a, b, c, d);
  }

  /** Steps 32 to 47 of `MD5Transform`; `w` is where the transformation started. */
  method Round3(ghost w: Words, x: seq<bv32>, v: Words) returns (u: Words)
    requires |x| == 16 && v == Ops(32, w, x)
    ensures u == Ops(48, w, x)
  {
    hide Plus, Step, Ops, Op, F1, F2, F3, F4;
    var a, b, c, d := v.a, v.b, v.c, v.d;
    Next3(32, w, x, a, b, c, d);
    a := Step(F3(b, c, d), a, b, Plus(x[5], 0xfffa3942), 4);
    Next3(33, w, x, d, a, b, c);
    d := Step(F3(a, b, c), d, a, Plus(x[8], 0x8771f681), 11);
    Next3(34, w, x, c, d, a, b);
    c := Step(F3(d, a, b), c, d, Plus(x[11], 0x6d9d6122), 16);
    Next3(35, w, x, b, c, d, a);
    b := Step(F3(c, d, a), b, c, Plus(x[14], 0xfde5380c), 23);
    Next3(36, w, x, a, b, c, d);
    a := Step(F3(b, c, d), a, b, Plus(x[1], 0xa4beea44), 4);
    Next3(37, w, x, d, a, b, c);
    d := Step(F3(a, b, c), d, a, Plus(x[4], 0x4bdecfa9), 11);
    Next3(38, w, x, c, d, a, b);
    c := Step(F3(d, a, b), c, d, Plus(x[7], 0xf6bb4b60), 16);
    Next3(39, w, x, b, c, d, a);
    b := Step(F3(c, d, a), b, c, Plus(x[10], 0xbebfbc70), 23);
    Next3(40, w, x, a, b, c, d);
    a := Step(F3(b, c, d), a, b, Plus(x[13], 0x289b7ec6), 4);
    Next3(41, w, x, d, a, b, c);
    d := Step(F3(a, b, c), d, a, Plus(x[0], 0xeaa127fa), 11);
    Next3(42, w, x, c, d, a, b);
    c := Step(F3(d, a, b), c, d, Plus(x[3], 0xd4ef3085), 16);
    Next3(43, w, x, b, c, d, a);
    b := Step(F3(c, d, a), b, c, Plus(x[6], 0x04881d05), 23);
    Next3(44, w, x, a, b, c, d);
    a := Step(F3(b, c, d), a, b, Plus(x[9], 0xd9d4d039), 4);
    Next3(45, w, x, d, a, b, c);
    d := Step(F3(a, b, c), d, a, Plus(x[12], 0xe6db99e5), 11);
    Next3(46, w, x, c, d, a, b);
    c := Step(F3(d, a, b), c, d, Plus(x[15], 0x1fa27cf8), 16);
    Next3(47, w, x, b, c, d, a);
    b := Step(F3(c, d, a), b, c, Plus(x[2], 0xc4ac5665), 23);
    u := Words(a, b, c, d);
  }

  /** Steps 48 to 63 of `MD5Transform`; `w` is where the transformation started. */
  method Round4(ghost w: Words, x: seq<bv32>, v: Words) returns (u: Words)
    requires |x| == 16 && v == Ops(48, w, x)
    ensures u == Ops(64, w, x)
  {
    hide Plus, Step, Ops, Op, F1, F2, F3, F4;
    var a, b, c, d := v.a, v.b, v.c, v.d;
    Next4(48, w, x, a, b, c, d);
    a := Step(F4(b, c, d), a, b, Plus(x[0], 0xf4292244), 6);
    Next4(49, w, x, d, a, b, c);
    d := Step(F4(a, b, c), d, a, Plus(x[7], 0x432aff97), 10);
    Next4(50, w, x, c, d, a, b);
    c := Step(F4(d, a, b), c, d, Plus(x[14], 0xab9423a7), 15);
    Next4(51, w, x, b, c, d, a);
    b := Step(F4(c, d, a), b, c, Plus(x[5], 0xfc93a039), 21);
    Next4(52, w, x, a, b, c, d);
    a := Step(F4(b, c, d), a, b, Plus(x[12], 0x655b59c3), 6);
    Next4(53, w, x, d, a, b, c);
    d := Step(F4(a, b, c), d, a, Plus(x[3], 0x8f0ccc92), 10);
    Next4(54, w, x, c, d, a, b);
    c := Step(F4(d, a, b), c, d, Plus(x[10], 0xffeff47d), 15);
    Next4(55, w, x, b, c, d, a);
    b := Step(F4(c, d, a), b, c, Plus(x[1], 0x85845dd1), 21);
    Next4(56, w, x, a, b, c, d);
    a := Step(F4(b, c, d), a, b, Plus(x[8], 0x6fa87e4f), 6);
    Next4(57, w, x, d, a, b, c);
    d := Step(F4(a, b, c), d, a, Plus(x[15], 0xfe2ce6e0), 10);
    Next4(58, w, x, c, d, a, b);
    c := Step(F4(d, a, b), c, d, Plus(x[6], 0xa3014314), 15);
    Next4(59, w, x, b, c, d, a);
    b := Step(F4(c, d, a), b, c, Plus(x[13], 0x4e0811a1), 21);
    Next4(60, w, x, a, b, c, d);
    a := Step(F4(b, c, d), a, b, Plus(x[4], 0xf7537e82), 6);
    Next4(61, w, x, d, a, b, c);
    d := Step(F4(a, b, c), d, a, Plus(x[11], 0xbd3af235), 10);
    Next4(62, w, x, c, d, a, b);
    c := Step(F4(d, a, b), c, d, Plus(x[2], 0x2ad7d2bb), 15);
    Next4(63, w, x, b, c, d, a);
    b := Step(F4(c, d, a), b, c, Plus(x[9], 0xeb86d391), 21);
    u := Words(a, b, c, d);
  }

  /** `MD5Transform` */
  method Transform(buf: array<bv32>, block: array<byte>)
    requires buf.Length == 4 && block.Length == 64
    modifies buf
    ensures Words(buf[0], buf[1], buf[2], buf[3])
            == old(Compress(Words(buf[0], buf[1], buf[2], buf[3]), block[..]))
  {
    hide Plus, Word, Op;
    var w := Words(buf[0], buf[1], buf[2], buf[3]);
    var x := BlockWords(block[..]);
    var u := Round1(w, x, w);
    u := Round2(w, x, u);
    u := Round3(w, x, u);
    u := Round4(w, x, u);
    buf[0] := Plus(buf[0], u.a);
    buf[1] := Plus(buf[1], u.b);
    buf[2] := Plus(buf[2], u.c);
    buf[3] := Plus(buf[3], u.d);
  }
}
