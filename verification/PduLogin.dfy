/** Login command and response headers (iscsi.c): the ISID travels as its successor, in
    a store of eight bytes of which the length then takes two. */
module PduLogin {
  import opened ByteOrder
  import opened PduHeader

  const TWO32: int := 0x1_0000_0000

  const TWO48: int := 0x1_0000_0000_0000

  const TWO64: int := 0x1_0000_0000_0000_0000

  type u48 = x: int | 0 <= x < 0x1_0000_0000_0000

  function Six(h: seq<byte>, at: nat): (w: u48)
    requires at + 6 <= |h|
  {
    var a: int, b: int := Half(h, at), Word(h, at + 2);
    a * TWO32 + b
  }

  lemma {:induction false} LowHalf(h: seq<byte>, at: nat)
    requires at + 4 <= |h|
    ensures Half(h, at + 2) == Word(h, at) % 0x1_0000
  {
    var a: int, b: int, c: int, d: int := h[at], h[at + 1], h[at + 2], h[at + 3];
    Quotient(Word(h, at), 0x1_0000, a * 0x100 + b, c * 0x100 + d);
  }

  lemma {:induction false} Low48(v: u64)
    ensures v / TWO32 % 0x1_0000 * TWO32 + v % TWO32 == v % TWO48
  {
    var high := v / TWO32;
    var q := high / 0x1_0000;
    assert v == high * TWO32 + v % TWO32;
    assert high == q * 0x1_0000 + high % 0x1_0000;
    Quotient(v, TWO48, q, high % 0x1_0000 * TWO32 + v % TWO32);
  }

  // ----- the command

  datatype LoginCmd = LoginCmd(
    transit: bool, cont: bool, csg: u8, nsg: u8, versionMax: u8, versionMin: u8, ahsLength: u8, length: u32,
    isid: u64, tsih: u16, tag: u32, cid: u16, cmdSN: u32, expStatSN: u32)

  ghost predicate LoginCmdHeader(h: seq<byte>, c: LoginCmd) {
    && |h| == HEADER
    && h[0] == 0x43
    && h[1] == Bit(c.transit, 0x80) + Bit(c.cont, 0x40) + c.csg % 4 * 4 + c.nsg % 4
    && h[2] == c.versionMax && h[3] == c.versionMin
    && h[4] == c.ahsLength && Word(h, 4) % 0x100_0000 == c.length % 0x100_0000
    && Six(h, 8) == (c.isid + 1) % TWO48 && Half(h, 14) == c.tsih
    && Word(h, 16) == c.tag && Half(h, 20) == c.cid && Half(h, 22) == 0
    && Word(h, 24) == c.cmdSN && Word(h, 28) == c.expStatSN
    && Word(h, 32) == 0 && Word(h, 36) == 0 && Word(h, 40) == 0 && Word(h, 44) == 0
  }

  /** `iscsi_login_cmd_encap`: eight bytes of ISID from byte 6 on, then four bytes of
      length from byte 4 on, then one byte of AHS length. */
  method LoginCmdEncap(h: array<byte>, c: LoginCmd)
    requires h.Length == HEADER
    modifies h
    ensures LoginCmdHeader(h[..], c)
  {
    hide Word, Half;
    Clear(h);
    Put(h, 0, 0x43);
    Put(h, 1, Bit(c.transit, 0x80) + Bit(c.cont, 0x40) + c.csg % 4 * 4 + c.nsg % 4);
    Put(h, 2, c.versionMax);
    Put(h, 3, c.versionMin);
    PutIsid(h, (c.isid + 1) % TWO64, c.length % 0x100_0000, c.ahsLength);
    PutHalf(h, 14, c.tsih);
    PutWord(h, 16, c.tag);
    PutHalf(h, 20, c.cid);
    PutWord(h, 24, c.cmdSN);
    PutWord(h, 28, c.expStatSN);
    Successor(c.isid);
  }

  lemma {:induction false} Successor(isid: u64)
    ensures (isid + 1) % TWO64 % TWO48 == (isid + 1) % TWO48
  {
  }

  /** The three stores that overlap. */
  method PutIsid(h: array<byte>, isid: u64, length: u32, ahs: u8)
    requires h.Length == HEADER && length < 0x100_0000
    modifies h
    ensures h[..][4] == ahs && Word(h[..], 4) % 0x100_0000 == length && Six(h[..], 8) == isid % TWO48
    ensures Except(old(h[..]), h[..], 4, 10)
  {
    hide Word, Half;
    PutWord(h, 6, isid / TWO32);
    LowHalf(h[..], 6);
    PutWord(h, 10, isid % TWO32);
    Low48(isid);
    PutWord(h, 4, length);
    ghost var h4 := h[..];
    Put(h, 4, ahs);
    TopByte(h4, 4);
    TopByte(h[..], 4);
    SameLowThree(h4, h[..]);
  }

  lemma {:induction false} SameLowThree(h: seq<byte>, h': seq<byte>)
    requires |h| == HEADER && Except(h, h', 4, 1)
    ensures Word(h', 4) % 0x100_0000 == Word(h, 4) % 0x100_0000
  {
    TopByte(h, 4);
    TopByte(h', 4);
  }

  /** `iscsi_login_cmd_decap` */
  function LoginCmdDecap(h: seq<byte>): Decoded<LoginCmd>
    requires |h| == HEADER
  {
    var transit := Has(h[1], 0x80);
    var csg, nsg := h[1] / 4 % 4, h[1] % 4;
    if h[0] % 0x40 != 0x03 then Bad
    else if h[1] / 16 % 4 != 0 || Half(h, 22) != 0 then Bad
    else if Word(h, 32) != 0 || Word(h, 36) != 0 || Word(h, 40) != 0 || Word(h, 44) != 0 then Bad
    else if transit && (nsg <= csg || (nsg != 0 && nsg != 1 && nsg != 3)) then Bad
    else Good(LoginCmd(transit, Has(h[1], 0x40), csg, nsg, h[2], h[3], h[4], Word(h, 4), Six(h, 8), Half(h, 14),
                       Word(h, 16), Half(h, 20), Word(h, 24), Word(h, 28)))
  }

  /** The flags and stages of the second byte come apart again. */
  lemma {:induction false} Flags(transit: bool, cont: bool, csg: nat, nsg: nat)
    requires csg < 4 && nsg < 4
    ensures var b := Bit(transit, 0x80) + Bit(cont, 0x40) + csg * 4 + nsg;
            && b < 0x100 && b / 16 % 4 == 0 && Has(b, 0x80) == transit && Has(b, 0x40) == cont
            && b / 4 % 4 == csg && b % 4 == nsg
  {
  }

  /** What arrives: the stages modulo 4, the length with the AHS length in its first
      byte, and the successor of the ISID, 48 bits of it. */
  lemma {:induction false} LoginCmdArrives(h: seq<byte>, c: LoginCmd)
    requires LoginCmdHeader(h, c)
    ensures LoginCmdDecap(h).Good? <==> (c.transit ==> c.nsg % 4 > c.csg % 4 && c.nsg % 4 != 2)
    ensures LoginCmdDecap(h).Good? ==>
              LoginCmdDecap(h).value
              == c.(csg := c.csg % 4, nsg := c.nsg % 4,
                    length := c.ahsLength * 0x100_0000 + c.length % 0x100_0000, isid := (c.isid + 1) % TWO48)
  {
    TopByte(h, 4);
    Flags(c.transit, c.cont, c.csg % 4, c.nsg % 4);
    hide Word, Half, Six, Bit, Has;
    assert Word(h, 4) == c.ahsLength * 0x100_0000 + Word(h, 4) % 0x100_0000;
  }

  // ----- the response

  datatype LoginRsp = LoginRsp(
    transit: bool, cont: bool, csg: u8, nsg: u8, versionMax: u8, versionActive: u8, ahsLength: u8, length: u32,
    isid: u64, tsih: u16, tag: u32, statSN: u32, expCmdSN: u32, maxCmdSN: u32, statusClass: u8, statusDetail: u8)

  ghost predicate LoginRspHeader(h: seq<byte>, r: LoginRsp) {
    && |h| == HEADER
    && h[0] == 0x23
    && h[1] == Bit(r.transit, 0x80) + Bit(r.cont, 0x40) + r.csg % 4 * 4 + (if r.transit then r.nsg % 4 else 0)
    && h[2] == r.versionMax && h[3] == r.versionActive
    && h[4] == r.ahsLength && Word(h, 4) % 0x100_0000 == r.length % 0x100_0000
    && Six(h, 8) == r.isid % TWO48 && Half(h, 14) == r.tsih
    && Word(h, 16) == r.tag && Word(h, 20) == 0
    && Word(h, 24) == r.statSN && Word(h, 28) == r.expCmdSN && Word(h, 32) == r.maxCmdSN
    && h[36] == r.statusClass && h[37] == r.statusDetail && h[38] == 0 && h[39] == 0
    && Word(h, 40) == 0 && Word(h, 44) == 0
  }

  /** `iscsi_login_rsp_encap` */
  method LoginRspEncap(h: array<byte>, r: LoginRsp)
    requires h.Length == HEADER
    modifies h
    ensures LoginRspHeader(h[..], r)
  {
    hide Word, Half;
    Clear(h);
    Put(h, 0, 0x23);
    Put(h, 1, Bit(r.transit, 0x80) + Bit(r.cont, 0x40) + r.csg % 4 * 4 + (if r.transit then r.nsg % 4 else 0));
    Put(h, 2, r.versionMax);
    Put(h, 3, r.versionActive);
    PutIsid(h, r.isid % TWO48, r.length % 0x100_0000, r.ahsLength);
    PutHalf(h, 14, r.tsih);
    PutWord(h, 16, r.tag);
    PutTwo(h, 24, r.statSN, r.expCmdSN);
    PutWord(h, 32, r.maxCmdSN);
    Put(h, 36, r.statusClass);
    Put(h, 37, r.statusDetail);
  }

  /** `iscsi_login_rsp_decap` */
  function LoginRspDecap(h: seq<byte>): Decoded<LoginRsp>
    requires |h| == HEADER
  {
    if h[0] % 0x40 != 0x23 then Bad
    else if h[1] / 16 % 4 != 0 || Word(h, 20) != 0 || h[38] != 0 || h[39] != 0 then Bad
    else if Word(h, 40) != 0 || Word(h, 44) != 0 then Bad
    else Good(LoginRsp(Has(h[1], 0x80), Has(h[1], 0x40), h[1] / 4 % 4, h[1] % 4, h[2], h[3], h[4], Word(h, 4),
                       (Six(h, 8) - 1) % TWO64, Half(h, 14), Word(h, 16), Word(h, 24), Word(h, 28), Word(h, 32),
                       h[36], h[37]))
  }

  lemma {:induction false} LoginRspArrives(h: seq<byte>, r: LoginRsp)
    requires LoginRspHeader(h, r)
    ensures LoginRspDecap(h)
         == Good(r.(csg := r.csg % 4, nsg := if r.transit then r.nsg % 4 else 0,
                    length := r.ahsLength * 0x100_0000 + r.length % 0x100_0000,
                    isid := (r.isid % TWO48 - 1) % TWO64))
  {
    TopByte(h, 4);
    Flags(r.transit, r.cont, r.csg % 4, if r.transit then r.nsg % 4 else 0);
    hide Word, Half, Six, Bit, Has;
    assert Word(h, 4) == r.ahsLength * 0x100_0000 + Word(h, 4) % 0x100_0000;
  }

  // ----- there and back

  lemma {:induction false} ThereAndBack(x: u64)
    ensures var y := (x + 1) % TWO48;
            var z := (y % TWO48 - 1) % TWO64;
            && (z == x <==> x < TWO48 - 1 || x == TWO64 - 1)
            && z % TWO32 == x % TWO32
  {
    var q := (x + 1) / TWO48;
    var y := (x + 1) % TWO48;
    assert x + 1 == q * TWO48 + y;
    if y > 0 {
      Quotient(y - 1, TWO64, 0, y - 1);
      assert x == q * TWO48 + (y - 1);
      SameLow(x, q, y - 1);
    } else {
      Quotient(TWO64 - 1, TWO64, 0, TWO64 - 1);
      assert (0 - 1) % TWO64 == TWO64 - 1;
      assert x == (q - 1) * TWO48 + (TWO48 - 1);
      SameLow(x, q - 1, TWO48 - 1);
    }
  }

  lemma {:induction false} SameLow(x: nat, q: nat, r: nat)
    requires x == q * TWO48 + r && r < TWO48
    ensures x % TWO32 == r % TWO32
  {
    var k := r / TWO32;
    assert r == k * TWO32 + r % TWO32;
    assert x == (q * 0x1_0000 + k) * TWO32 + r % TWO32;
    Quotient(x, TWO32, q * 0x1_0000 + k, r % TWO32);
  }

  /** The target echoes the ISID it received and gives out a handle of its own.  The
      initiator gets its ISID back exactly when its successor fits 48 bits (or the ISID
      is all ones), and the handle as it was sent; the comparison of the low 32 bits it
      makes holds for every ISID. */
  lemma {:induction false} IsidEcho(h: seq<byte>, c: LoginCmd, g: seq<byte>, r: LoginRsp)
    requires LoginCmdHeader(h, c) && LoginCmdDecap(h).Good?
    requires LoginRspHeader(g, r) && r.isid == LoginCmdDecap(h).value.isid
    ensures LoginRspDecap(g).Good?
    ensures var back := LoginRspDecap(g).value;
            && back.tsih == r.tsih
            && (back.isid == c.isid <==> c.isid < TWO48 - 1 || c.isid == TWO64 - 1)
            && back.isid % TWO32 == c.isid % TWO32
  {
    LoginCmdArrives(h, c);
    LoginRspArrives(g, r);
    ThereAndBack(c.isid);
  }
}
