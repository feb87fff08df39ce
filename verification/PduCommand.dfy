/** SCSI command, NOP and text headers (iscsi.c): exactly which values survive encoding
    and decoding. */
module PduCommand {
  import opened ByteOrder
  import opened PduHeader

  // ----- SCSI command

  datatype ScsiCmd = ScsiCmd(
    immediate: bool, final: bool, fromdev: bool, todev: bool, attr: u8, ahsLen: u8, length: u32, lun: u64,
    tag: u32, transLen: u32, cmdSN: u32, expStatSN: u32, cdb: seq<byte>)

  ghost predicate ScsiHeader(h: seq<byte>, c: ScsiCmd) {
    && |h| == HEADER && |c.cdb| == 16
    && h[0] == 0x01 + Bit(c.immediate, 0x40)
    && h[1] == Bit(c.final, 0x80) + Bit(c.fromdev, 0x40) + Bit(c.todev, 0x20) + c.attr % 8
    && h[2] == 0 && h[3] == 0
    && h[4] == c.ahsLen && Word(h, 4) % 0x100_0000 == c.length % 0x100_0000
    && h[8] == 0 && h[9] == c.lun % 0x100 && h[10] == 0 && h[11] == 0 && Word(h, 12) == 0
    && Word(h, 16) == c.tag && Word(h, 20) == c.transLen
    && Word(h, 24) == c.cmdSN && Word(h, 28) == c.expStatSN
    && h[32..48] == c.cdb
  }

  /** Storing the first byte of a word leaves the other three. */
  lemma {:induction false} LowThree(h: seq<byte>, h': seq<byte>, at: nat)
    requires at + 4 <= |h| && Except(h, h', at, 1)
    ensures Word(h', at) % 0x100_0000 == Word(h, at) % 0x100_0000
  {
    TopByte(h, at);
    TopByte(h', at);
  }

  /** `iscsi_scsi_cmd_encap`: the length is stored whole, and then its first byte is the
      AHS length. */
  method ScsiEncap(h: array<byte>, c: ScsiCmd)
    requires h.Length == HEADER && |c.cdb| == 16
    modifies h
    ensures ScsiHeader(h[..], c)
  {
    hide Word;
    Clear(h);
    Put(h, 0, 0x01 + Bit(c.immediate, 0x40));
    Put(h, 1, Bit(c.final, 0x80) + Bit(c.fromdev, 0x40) + Bit(c.todev, 0x20) + c.attr % 8);
    PutWord(h, 4, c.length);
    ghost var h4 := h[..];
    Put(h, 4, c.ahsLen);
    LowThree(h4, h[..], 4);
    Put(h, 9, c.lun % 0x100);
    PutFour(h, 16, c.tag, c.transLen, c.cmdSN, c.expStatSN);
    PutBytes(h, 32, c.cdb);
  }

  /** `iscsi_scsi_cmd_decap` */
  function ScsiDecap(h: seq<byte>): Decoded<ScsiCmd>
    requires |h| == HEADER
  {
    if h[0] % 0x40 != 0x01 then Bad
    else if h[1] / 8 % 4 != 0 || h[2] != 0 || h[3] != 0 || h[8] != 0 then Bad
    else Good(ScsiCmd(Has(h[0], 0x40), Has(h[1], 0x80), Has(h[1], 0x40), Has(h[1], 0x20), h[1] % 8, h[4],
                      Word(h, 4) % 0x100_0000, h[9], Word(h, 16), Word(h, 20), Word(h, 24), Word(h, 28), h[32..48]))
  }

  lemma {:induction false} ScsiRoundTripIff(h: seq<byte>, c: ScsiCmd)
    requires ScsiHeader(h, c)
    ensures ScsiDecap(h).Good?
    ensures ScsiDecap(h) == Good(c) <==> c.attr < 8 && c.length < 0x100_0000 && c.lun < 0x100
  {
    hide Word;
  }

  // ----- NOP-Out and NOP-In

  datatype NopOut = NopOut(
    immediate: bool, length: u32, lun: u64, tag: u32, transferTag: u32, cmdSN: u32, expStatSN: u32)

  ghost predicate NopOutHeader(h: seq<byte>, c: NopOut) {
    && |h| == HEADER
    && h[0] == Bit(c.immediate, 0x40) && h[1] == 0x80 && h[2] == 0 && h[3] == 0
    && Word(h, 4) == c.length % 0x100_0000
    && h[8] == 0 && h[9] == c.lun % 0x100 && h[10] == 0 && h[11] == 0 && Word(h, 12) == 0
    && Word(h, 16) == c.tag && Word(h, 20) == c.transferTag
    && Word(h, 24) == c.cmdSN && Word(h, 28) == c.expStatSN
    && Word(h, 32) == 0 && Word(h, 36) == 0 && Word(h, 40) == 0 && Word(h, 44) == 0
  }

  /** `iscsi_nop_out_encap` */
  method NopOutEncap(h: array<byte>, c: NopOut)
    requires h.Length == HEADER
    modifies h
    ensures NopOutHeader(h[..], c)
  {
    hide Word;
    Clear(h);
    Put(h, 0, Bit(c.immediate, 0x40));
    Put(h, 1, 0x80);
    PutWord(h, 4, c.length % 0x100_0000);
    Put(h, 9, c.lun % 0x100);
    PutFour(h, 16, c.tag, c.transferTag, c.cmdSN, c.expStatSN);
  }

  /** `iscsi_nop_out_decap` */
  function NopOutDecap(h: seq<byte>): Decoded<NopOut>
    requires |h| == HEADER
  {
    if h[0] % 0x40 != 0x00 then Bad
    else if h[1] != 0x80 || h[2] != 0 || h[3] != 0 || h[4] != 0 || h[8] != 0 then Bad
    else if Word(h, 32) != 0 || Word(h, 36) != 0 || Word(h, 40) != 0 || Word(h, 44) != 0 then Bad
    else Good(NopOut(Has(h[0], 0x40), Word(h, 4), h[9], Word(h, 16), Word(h, 20), Word(h, 24), Word(h, 28)))
  }

  lemma {:induction false} NopOutRoundTripIff(h: seq<byte>, c: NopOut)
    requires NopOutHeader(h, c)
    ensures NopOutDecap(h).Good?
    ensures NopOutDecap(h) == Good(c) <==> c.length < 0x100_0000 && c.lun < 0x100
  {
    TopByte(h, 4);
    hide Word;
  }

  datatype NopIn = NopIn(
    length: u32, lun: u64, tag: u32, transferTag: u32, statSN: u32, expCmdSN: u32, maxCmdSN: u32)

  ghost predicate NopInHeader(h: seq<byte>, c: NopIn) {
    && |h| == HEADER
    && h[0] == 0x20 && h[1] == 0x80 && h[2] == 0 && h[3] == 0
    && Word(h, 4) == c.length % 0x100_0000
    && h[8] == 0 && h[9] == c.lun % 0x100 && h[10] == 0 && h[11] == 0 && Word(h, 12) == 0
    && Word(h, 16) == c.tag && Word(h, 20) == c.transferTag
    && Word(h, 24) == c.statSN && Word(h, 28) == c.expCmdSN && Word(h, 32) == c.maxCmdSN
    && Word(h, 36) == 0 && Word(h, 40) == 0 && Word(h, 44) == 0
  }

  /** `iscsi_nop_in_encap` */
  method NopInEncap(h: array<byte>, c: NopIn)
    requires h.Length == HEADER
    modifies h
    ensures NopInHeader(h[..], c)
  {
    hide Word;
    Clear(h);
    Put(h, 0, 0x20);
    Put(h, 1, 0x80);
    PutWord(h, 4, c.length % 0x100_0000);
    Put(h, 9, c.lun % 0x100);
    PutFour(h, 16, c.tag, c.transferTag, c.statSN, c.expCmdSN);
    PutWord(h, 32, c.maxCmdSN);
  }

  /** `iscsi_nop_in_decap` */
  function NopInDecap(h: seq<byte>): Decoded<NopIn>
    requires |h| == HEADER
  {
    if h[0] % 0x40 != 0x20 || h[0] / 0x40 != 0 then Bad
    else if h[1] != 0x80 || h[2] != 0 || h[3] != 0 || h[4] != 0 || h[8] != 0 then Bad
    else if Word(h, 36) != 0 || Word(h, 40) != 0 || Word(h, 44) != 0 then Bad
    else Good(NopIn(Word(h, 4), h[9], Word(h, 16), Word(h, 20), Word(h, 24), Word(h, 28), Word(h, 32)))
  }

  lemma {:induction false} NopInRoundTripIff(h: seq<byte>, c: NopIn)
    requires NopInHeader(h, c)
    ensures NopInDecap(h).Good?
    ensures NopInDecap(h) == Good(c) <==> c.length < 0x100_0000 && c.lun < 0x100
  {
    TopByte(h, 4);
    hide Word;
  }

  // ----- text command and response

  datatype TextCmd = TextCmd(
    immediate: bool, final: bool, cont: bool, length: u32, lun: u64, tag: u32, transferTag: u32, cmdSN: u32,
    expStatSN: u32)

  ghost predicate TextCmdHeader(h: seq<byte>, c: TextCmd) {
    && |h| == HEADER
    && h[0] == 0x04 + Bit(c.immediate, 0x40) && h[1] == Bit(c.final, 0x80) + Bit(c.cont, 0x40)
    && h[2] == 0 && h[3] == 0
    && Word(h, 4) == c.length % 0x100_0000
    && h[8] == 0 && h[9] == c.lun % 0x100 && h[10] == 0 && h[11] == 0 && Word(h, 12) == 0
    && Word(h, 16) == c.tag && Word(h, 20) == c.transferTag
    && Word(h, 24) == c.cmdSN && Word(h, 28) == c.expStatSN
    && Word(h, 32) == 0 && Word(h, 36) == 0 && Word(h, 40) == 0 && Word(h, 44) == 0
  }

  /** `iscsi_text_cmd_encap` */
  method TextCmdEncap(h: array<byte>, c: TextCmd)
    requires h.Length == HEADER
    modifies h
    ensures TextCmdHeader(h[..], c)
  {
    hide Word;
    Clear(h);
    Put(h, 0, 0x04 + Bit(c.immediate, 0x40));
    Put(h, 1, Bit(c.final, 0x80) + Bit(c.cont, 0x40));
    PutWord(h, 4, c.length % 0x100_0000);
    Put(h, 9, c.lun % 0x100);
    PutFour(h, 16, c.tag, c.transferTag, c.cmdSN, c.expStatSN);
  }

  /** `iscsi_text_cmd_decap` */
  function TextCmdDecap(h: seq<byte>): Decoded<TextCmd>
    requires |h| == HEADER
  {
    if h[0] % 0x40 != 0x04 then Bad
    else if h[2] != 0 || h[3] != 0 || h[4] != 0 || Word(h, 8) != 0 || Word(h, 12) != 0 then Bad
    else if Word(h, 32) != 0 || Word(h, 36) != 0 || Word(h, 40) != 0 || Word(h, 44) != 0 then Bad
    else Good(TextCmd(Has(h[0], 0x40), Has(h[1], 0x80), Has(h[1], 0x40), Word(h, 4), h[9], Word(h, 16), Word(h, 20),
                      Word(h, 24), Word(h, 28)))
  }

  lemma {:induction false} TextCmdRoundTripIff(h: seq<byte>, c: TextCmd)
    requires TextCmdHeader(h, c)
    ensures TextCmdDecap(h).Good? <==> c.lun % 0x100 == 0
    ensures TextCmdDecap(h) == Good(c) <==> c.length < 0x100_0000 && c.lun == 0
  {
    TopByte(h, 4);
    ZeroWord(h, 8);
    hide Word;
  }

  datatype TextRsp = TextRsp(
    final: bool, cont: bool, length: u32, lun: u64, tag: u32, transferTag: u32, statSN: u32, expCmdSN: u32,
    maxCmdSN: u32)

  ghost predicate TextRspHeader(h: seq<byte>, c: TextRsp) {
    && |h| == HEADER
    && h[0] == 0x24 && h[1] == Bit(c.final, 0x80) + Bit(c.cont, 0x40) && h[2] == 0 && h[3] == 0
    && Word(h, 4) == c.length % 0x100_0000
    && h[8] == 0 && h[9] == c.lun % 0x100 && h[10] == 0 && h[11] == 0 && Word(h, 12) == 0
    && Word(h, 16) == c.tag && Word(h, 20) == c.transferTag
    && Word(h, 24) == c.statSN && Word(h, 28) == c.expCmdSN && Word(h, 32) == c.maxCmdSN
    && Word(h, 36) == 0 && Word(h, 40) == 0 && Word(h, 44) == 0
  }

  /** `iscsi_text_rsp_encap` */
  method TextRspEncap(h: array<byte>, c: TextRsp)
    requires h.Length == HEADER
    modifies h
    ensures TextRspHeader(h[..], c)
  {
    hide Word;
    Clear(h);
    Put(h, 0, 0x24);
    Put(h, 1, Bit(c.final, 0x80) + Bit(c.cont, 0x40));
    PutWord(h, 4, c.length % 0x100_0000);
    Put(h, 9, c.lun % 0x100);
    PutFour(h, 16, c.tag, c.transferTag, c.statSN, c.expCmdSN);
    PutWord(h, 32, c.maxCmdSN);
  }

  /** `iscsi_text_rsp_decap` */
  function TextRspDecap(h: seq<byte>): Decoded<TextRsp>
    requires |h| == HEADER
  {
    if h[0] % 0x40 != 0x24 then Bad
    else if h[1] % 0x40 != 0 || h[2] != 0 || h[3] != 0 || h[4] != 0 || Word(h, 8) != 0 || Word(h, 12) != 0 then Bad
    else if Word(h, 36) != 0 || Word(h, 40) != 0 || Word(h, 44) != 0 then Bad
    else Good(TextRsp(Has(h[1], 0x80), Has(h[1], 0x40), Word(h, 4), h[9], Word(h, 16), Word(h, 20), Word(h, 24),
                      Word(h, 28), Word(h, 32)))
  }

  lemma {:induction false} TextRspRoundTripIff(h: seq<byte>, c: TextRsp)
    requires TextRspHeader(h, c)
    ensures TextRspDecap(h).Good? <==> c.lun % 0x100 == 0
    ensures TextRspDecap(h) == Good(c) <==> c.length < 0x100_0000 && c.lun == 0
  {
    TopByte(h, 4);
    ZeroWord(h, 8);
    hide Word;
  }
}
