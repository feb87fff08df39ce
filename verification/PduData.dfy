/** R2T, Data-Out and Data-In headers (iscsi.c): exactly which values survive encoding
    and decoding. */
module PduData {
  import opened ByteOrder
  import opened PduHeader

  // ----- R2T

  datatype R2t = R2t(
    ahsLength: u32, lun: u64, tag: u32, transferTag: u32, statSN: u32, expCmdSN: u32, maxCmdSN: u32,
    r2tSN: u32, offset: u32, length: u32)

  ghost predicate R2tHeader(h: seq<byte>, c: R2t) {
    && |h| == HEADER
    && h[0] == 0x31 && h[1] == 0x80 && h[2] == 0 && h[3] == 0
    && Word(h, 4) == c.ahsLength % 0x100_0000
    && h[8] == 0 && h[9] == c.lun % 0x100 && h[10] == 0 && h[11] == 0 && Word(h, 12) == 0
    && Word(h, 16) == c.tag && Word(h, 20) == c.transferTag
    && Word(h, 24) == c.statSN && Word(h, 28) == c.expCmdSN && Word(h, 32) == c.maxCmdSN
    && Word(h, 36) == c.r2tSN && Word(h, 40) == c.offset && Word(h, 44) == c.length
  }

  /** `iscsi_r2t_encap` */
  method R2tEncap(h: array<byte>, c: R2t)
    requires h.Length == HEADER
    modifies h
    ensures R2tHeader(h[..], c)
  {
    hide Word;
    Clear(h);
    Put(h, 0, 0x31);
    Put(h, 1, 0x80);
    PutWord(h, 4, c.ahsLength % 0x100_0000);
    Put(h, 9, c.lun % 0x100);
    PutFour(h, 16, c.tag, c.transferTag, c.statSN, c.expCmdSN);
    PutFour(h, 32, c.maxCmdSN, c.r2tSN, c.offset, c.length);
  }

  /** `iscsi_r2t_decap` */
  function R2tDecap(h: seq<byte>): Decoded<R2t>
    requires |h| == HEADER
  {
    if h[0] % 0x40 != 0x31 then Bad
    else if h[1] % 0x80 != 0 || h[2] != 0 || h[3] != 0 then Bad
    else if Word(h, 4) != 0 || Word(h, 8) != 0 || Word(h, 12) != 0 then Bad
    else Good(R2t(Word(h, 4), h[9], Word(h, 16), Word(h, 20), Word(h, 24), Word(h, 28), Word(h, 32),
                  Word(h, 36), Word(h, 40), Word(h, 44)))
  }

  /** The LUN is checked to be zero although it is written. */
  lemma {:induction false} R2tRoundTripIff(h: seq<byte>, c: R2t)
    requires R2tHeader(h, c)
    ensures R2tDecap(h).Good? <==> c.ahsLength % 0x100_0000 == 0 && c.lun % 0x100 == 0
    ensures R2tDecap(h) == Good(c) <==> c.ahsLength == 0 && c.lun == 0
  {
    ZeroWord(h, 8);
  }

  // ----- Data-Out

  datatype DataOut = DataOut(
    final: bool, length: u32, lun: u64, tag: u32, transferTag: u32, expStatSN: u32, dataSN: u32, offset: u32)

  ghost predicate DataOutHeader(h: seq<byte>, c: DataOut) {
    && |h| == HEADER
    && h[0] == 0x05 && h[1] == Bit(c.final, 0x80) && h[2] == 0 && h[3] == 0
    && Word(h, 4) == c.length
    && h[8] == 0 && h[9] == c.lun % 0x100 && h[10] == 0 && h[11] == 0 && Word(h, 12) == 0
    && Word(h, 16) == c.tag && Word(h, 20) == c.transferTag
    && Word(h, 24) == 0 && Word(h, 28) == c.expStatSN && Word(h, 32) == 0
    && Word(h, 36) == c.dataSN && Word(h, 40) == c.offset && Word(h, 44) == 0
  }

  /** `iscsi_write_data_encap` */
  method DataOutEncap(h: array<byte>, c: DataOut)
    requires h.Length == HEADER
    modifies h
    ensures DataOutHeader(h[..], c)
  {
    hide Word;
    Clear(h);
    Put(h, 0, 0x05);
    Put(h, 1, Bit(c.final, 0x80));
    PutWord(h, 4, c.length);
    Put(h, 9, c.lun % 0x100);
    PutTwo(h, 16, c.tag, c.transferTag);
    PutWord(h, 28, c.expStatSN);
    PutTwo(h, 36, c.dataSN, c.offset);
  }

  /** `iscsi_write_data_decap` */
  function DataOutDecap(h: seq<byte>): Decoded<DataOut>
    requires |h| == HEADER
  {
    if h[0] % 0x40 != 0x05 then Bad
    else if h[1] % 0x80 != 0 || h[2] != 0 || h[3] != 0 || h[4] != 0 || h[8] != 0 then Bad
    else if Word(h, 24) != 0 || Word(h, 32) != 0 || Word(h, 44) != 0 then Bad
    else Good(DataOut(Has(h[1], 0x80), Word(h, 4), h[9], Word(h, 16), Word(h, 20), Word(h, 28), Word(h, 36),
                      Word(h, 40)))
  }

  lemma {:induction false} DataOutRoundTripIff(h: seq<byte>, c: DataOut)
    requires DataOutHeader(h, c)
    ensures DataOutDecap(h).Good? <==> c.length < 0x100_0000
    ensures DataOutDecap(h) == Good(c) <==> c.length < 0x100_0000 && c.lun < 0x100
  {
    TopByte(h, 4);
  }

  // ----- Data-In

  datatype DataIn = DataIn(
    final: bool, ack: bool, overflow: bool, underflow: bool, sBit: bool, status: u8, length: u32, lun: u64,
    tag: u32, transferTag: u32, statSN: u32, expCmdSN: u32, maxCmdSN: u32, dataSN: u32, offset: u32, resCount: u32)

  ghost predicate DataInHeader(h: seq<byte>, c: DataIn) {
    && |h| == HEADER
    && h[0] == 0x25
    && h[1] == Bit(c.final, 0x80) + Bit(c.ack, 0x40) + Bit(c.overflow, 4) + Bit(c.underflow, 2) + Bit(c.sBit, 1)
    && h[2] == 0 && h[3] == (if c.sBit then c.status else 0)
    && Word(h, 4) == c.length
    && h[8] == 0 && h[9] == c.lun % 0x100 && h[10] == 0 && h[11] == 0 && Word(h, 12) == 0
    && Word(h, 16) == c.tag && Word(h, 20) == c.transferTag
    && Word(h, 24) == (if c.sBit then c.statSN else 0)
    && Word(h, 28) == c.expCmdSN && Word(h, 32) == c.maxCmdSN
    && Word(h, 36) == c.dataSN && Word(h, 40) == c.offset
    && Word(h, 44) == (if c.sBit then c.resCount else 0)
  }

  /** `iscsi_read_data_encap` */
  method DataInEncap(h: array<byte>, c: DataIn)
    requires h.Length == HEADER
    modifies h
    ensures DataInHeader(h[..], c)
  {
    hide Word;
    Clear(h);
    Put(h, 0, 0x25);
    Put(h, 1, Bit(c.final, 0x80) + Bit(c.ack, 0x40) + Bit(c.overflow, 4) + Bit(c.underflow, 2) + Bit(c.sBit, 1));
    PutWord(h, 4, c.length);
    Put(h, 9, c.lun % 0x100);
    PutWord(h, 16, c.tag);
    PutWord(h, 20, c.transferTag);
    PutFour(h, 28, c.expCmdSN, c.maxCmdSN, c.dataSN, c.offset);
    if c.sBit {
      Put(h, 3, c.status);
      PutWord(h, 24, c.statSN);
      PutWord(h, 44, c.resCount);
    }
  }

  /** `iscsi_read_data_decap` */
  function DataInDecap(h: seq<byte>): Decoded<DataIn>
    requires |h| == HEADER
  {
    if h[0] % 0x40 != 0x25 || h[0] / 0x40 != 0 then Bad
    else if h[1] / 8 % 8 != 0 || h[2] != 0 || h[4] != 0 || Word(h, 8) != 0 || Word(h, 12) != 0 then Bad
    else Good(DataIn(Has(h[1], 0x80), Has(h[1], 0x40), Has(h[1], 4), Has(h[1], 2), Has(h[1], 1), h[3],
                     Word(h, 4), h[9], Word(h, 16), Word(h, 20), Word(h, 24), Word(h, 28), Word(h, 32), Word(h, 36),
                     Word(h, 40), Word(h, 44)))
  }

  /** Without the S bit the status, its number and the residual count do not travel. */
  lemma {:induction false} DataInRoundTripIff(h: seq<byte>, c: DataIn)
    requires DataInHeader(h, c)
    ensures DataInDecap(h).Good? <==> c.length < 0x100_0000 && c.lun % 0x100 == 0
    ensures DataInDecap(h) == Good(c)
            <==> c.length < 0x100_0000 && c.lun == 0
                 && (c.sBit || (c.status == 0 && c.statSN == 0 && c.resCount == 0))
  {
    TopByte(h, 4);
    ZeroWord(h, 8);
  }
}
