/** Decimal and hexadecimal text (util.c: `iscsi_atoi`, `HexDataToText`, `HexTextToData`;
    parameters.c: `driver_atoi` and the "%i" and "%d" it is paired with). */
module Numbers {
  import opened ByteOrder
  import opened Sequences

  predicate IsDigit(c: char) {
    '0' <= c <= '9'
  }

  function Digit(n: nat): (c: char)
    requires n < 10
    ensures IsDigit(c) && c as int - '0' as int == n
  {
    ('0' as int + n) as char
  }

  /** The value of the leading digits, `k` being what the digits before them stand for. */
  function AtoiFrom(k: nat, s: string): nat
    decreases |s|
  {
    if s == "" || !IsDigit(s[0]) then k else AtoiFrom(10 * k + (s[0] as int - '0' as int), s[1..])
  }

  function Atoi(s: string): nat {
    AtoiFrom(0, s)
  }

  function Decimal(n: nat): (s: string)
    ensures s != "" && forall i :: 0 <= i < |s| ==> IsDigit(s[i])
  {
    if n < 10 then [Digit(n)] else Decimal(n / 10) + [Digit(n % 10)]
  }

  /** Digits one after the other. */
  lemma {:induction false} AtoiSnoc(k: nat, s: string, d: nat)
    requires d < 10 && forall i :: 0 <= i < |s| ==> IsDigit(s[i])
    ensures AtoiFrom(k, s + [Digit(d)]) == 10 * AtoiFrom(k, s) + d
    decreases |s|
  {
    if s == "" {
      assert "" + [Digit(d)] == [Digit(d)];
      assert AtoiFrom(10 * k + d, [Digit(d)][1..]) == 10 * k + d;
    } else {
      assert (s + [Digit(d)])[1..] == s[1..] + [Digit(d)];
      AtoiSnoc(10 * k + (s[0] as int - '0' as int), s[1..], d);
    }
  }

  lemma {:induction false} AtoiDecimal(n: nat)
    ensures Atoi(Decimal(n)) == n
  {
    if n < 10 {
      assert AtoiFrom(n, Decimal(n)[1..]) == n;
    } else {
      AtoiDecimal(n / 10);
      AtoiSnoc(0, Decimal(n / 10), n % 10);
    }
  }

  /** `driver_atoi` */
  method DriverAtoi(s: string) returns (k: nat)
    ensures k == Atoi(s)
  {
    k := 0;
    var i := 0;
    assert s[0..] == s;
    while i < |s| && IsDigit(s[i])
      invariant 0 <= i <= |s| && AtoiFrom(k, s[i..]) == Atoi(s)
    {
      assert s[i..][1..] == s[i + 1..];
      k := 10 * k + (s[i] as int - '0' as int);
      i := i + 1;
    }
  }

  // ----- hexadecimal

  const HEX := "0123456789abcdef"

  /** `HexStringIndex`, with the upper-case letters folded onto the lower-case ones. */
  function HexValue(c: char): (r: int)
    ensures -1 <= r < 16
  {
    if '0' <= c <= '9' then c as int - '0' as int
    else if 'a' <= c <= 'f' then c as int - 'a' as int + 10
    else if 'A' <= c <= 'F' then c as int - 'A' as int + 10
    else -1
  }

  function HexDigits(data: seq<byte>): (s: string)
    ensures |s| == 2 * |data|
  {
    if data == [] then "" else [HEX[data[0] / 16], HEX[data[0] % 16]] + HexDigits(data[1..])
  }

  /** `HexDataToText`, for data that is not empty and a buffer that holds the text. */
  function HexText(data: seq<byte>): string {
    "0x" + HexDigits(data)
  }

  /** Pairs of digits, at most `room` of them. */
  function HexPairs(s: string, room: nat): Option<seq<byte>> {
    if s == "" then Some([])
    else if |s| == 1 || HexValue(s[0]) < 0 || HexValue(s[1]) < 0 || room == 0 then None
    else match HexPairs(s[2..], room - 1)
      case None => None
      case Some(rest) => Some([16 * HexValue(s[0]) + HexValue(s[1])] + rest)
  }

  /** `HexTextToData`.  Its test of the prefix is true of every text that starts with
      '0', which then loses its first two characters. */
  function HexData(text: string, room: nat): Option<seq<byte>>
    requires text != "" && (text[0] == '0' ==> |text| >= 2)
  {
    var s := if text[0] == '0' then text[2..] else text;
    var r := if |s| % 2 == 0 then HexPairs(s, room)
             else if HexValue(s[0]) < 0 || room == 0 then None
             else match HexPairs(s[1..], room - 1)
               case None => None
               case Some(rest) => Some([HexValue(s[0])] + rest);
    if r == Some([]) then None else r
  }

  lemma {:induction false} HexOfDigit(d: nat)
    requires d < 16
    ensures HexValue(HEX[d]) == d
  {
  }

  lemma {:induction false} HexFirst(data: seq<byte>, room: nat)
    requires data != []
    ensures HexPairs(HexDigits(data), room)
         == if room == 0 then None
            else match HexPairs(HexDigits(data[1..]), room - 1)
              case None => None
              case Some(rest) => Some([data[0]] + rest)
  {
    var s := HexDigits(data);
    var rest := HexDigits(data[1..]);
    assert s == [HEX[data[0] / 16], HEX[data[0] % 16]] + rest;
    assert s[2..] == rest;
    HexOfDigit(data[0] / 16);
    HexOfDigit(data[0] % 16);
    hide HexValue, HexDigits;
  }

  lemma {:induction false} HexPairsBack(data: seq<byte>, room: nat)
    ensures HexPairs(HexDigits(data), room) == if |data| <= room then Some(data) else None
  {
    if data != [] {
      HexFirst(data, room);
      assert data == [data[0]] + data[1..];
      hide HexDigits, HexPairs;
      if room > 0 {
        HexPairsBack(data[1..], room - 1);
      }
    }
  }

  /** Text written by the one function is read back by the other, exactly when there is
      something to read and room for it. */
  lemma {:induction false} HexRoundTrip(data: seq<byte>, room: nat)
    ensures HexData(HexText(data), room) == if 0 < |data| <= room then Some(data) else None
  {
    assert HexText(data)[2..] == HexDigits(data);
    HexPairsBack(data, room);
  }

  lemma {:induction false} DigitsStart(data: seq<byte>)
    requires data != []
    ensures |HexDigits(data)| == 2 * |data| && HexDigits(data)[2..] == HexDigits(data[1..])
    ensures HexDigits(data)[0] == '0' <==> data[0] < 16
  {
    HexOfDigit(data[0] / 16);
  }

  /** Digits without a prefix are read back exactly when they do not start with '0'. */
  lemma {:induction false} HexWithoutPrefix(data: seq<byte>, room: nat)
    requires 0 < |data| <= room
    ensures HexData(HexDigits(data), room) == Some(data) <==> data[0] >= 16
  {
    hide HexPairs, HexDigits, HexValue;
    DigitsStart(data);
    HexPairsBack(data, room);
    HexPairsBack(data[1..], room);
    assert |data[1..]| != |data|;
  }

  /** `HexDataToText`, into a buffer of `size` characters: it fails for no data and when
      text and NUL do not fit, and then leaves what did. */
  method HexDataToText(data: seq<byte>, size: nat) returns (ok: bool, text: string)
    ensures ok <==> data != [] && 2 * |data| + 3 <= size
    ensures ok ==> text == HexText(data)
    ensures !ok ==> text == if data == [] || size < 3 then "" else HexText(data[..(size - 3) / 2])
  {
    if data == [] || size < 3 {
      return false, "";
    }
    text := "0x";
    var room := size - 2;
    var i := 0;
    assert data[..0] == [];
    while i < |data|
      invariant 0 <= i <= |data| && room == size - 2 - 2 * i >= 1
      invariant text == HexText(data[..i])
    {
      if room < 3 {
        assert i == (size - 3) / 2;
        return false, text;
      }
      HexSnoc(data, i);
      text := text + [HEX[data[i] / 16]];
      text := text + [HEX[data[i] % 16]];
      room := room - 2;
      i := i + 1;
    }
    assert data[..i] == data;
    ok := true;
  }

  lemma {:induction false} HexSnoc(data: seq<byte>, i: nat)
    requires i < |data|
    ensures HexText(data[..i + 1]) == HexText(data[..i]) + [HEX[data[i] / 16]] + [HEX[data[i] % 16]]
  {
    assert data[..i + 1] == data[..i] + [data[i]];
    HexAppend(data[..i], data[i]);
  }

  function Pair(b: byte): string {
    [HEX[b / 16], HEX[b % 16]]
  }

  lemma {:induction false} HexCons(b: byte, data: seq<byte>)
    ensures HexDigits([b] + data) == Pair(b) + HexDigits(data)
  {
    assert ([b] + data)[1..] == data;
  }

  lemma {:induction false} HexOne(b: byte)
    ensures HexDigits([b]) == Pair(b) && HexDigits([]) == ""
  {
    assert [b][1..] == [];
  }

  lemma {:induction false} HexAppend(data: seq<byte>, b: byte)
    ensures HexDigits(data + [b]) == HexDigits(data) + Pair(b)
  {
    hide HexDigits, Pair;
    if data == [] {
      assert [] + [b] == [b];
      HexOne(b);
    } else {
      var first, rest := data[0], data[1..];
      assert data == [first] + rest;
      Associates([first], rest, [b]);
      HexAppend(rest, b);
      HexCons(first, rest);
      HexCons(first, rest + [b]);
      Associates(Pair(first), HexDigits(rest), Pair(b));
    }
  }

  /** `HexTextToData` */
  method HexTextToData(text: string, room: nat) returns (r: Option<seq<byte>>)
    requires text != "" && (text[0] == '0' ==> |text| >= 2)
    ensures r == HexData(text, room)
  {
    hide HexPairs, HexData, HexValue;
    var p := 0;
    if text[0] == '0' {
      p := 2;
    }
    PairsNone();
    assert text[0..] == text;
    var data: seq<byte> := [];
    if (|text| - p) % 2 == 1 {
      var i := HexValue(text[p]);
      if i < 0 || room < 1 {
        LoneDigitBad(text, room);
        return None;
      }
      assert text[p..][1..] == text[p + 1..];
      data := [i];
      p := p + 1;
    }
    ghost var all := HexPairs(text[p..], room - |data|);
    ghost var first := data;
    assert data[|first|..] == [];
    assert all.Some? ==> [] + all.value == all.value;
    HexDataIs(text, room, first);
    while p < |text|
      invariant p <= |text| && first <= data && |data| <= room
      invariant Onwards(all, data[|first|..], HexPairs(text[p..], room - |data|))
      decreases |text| - p
    {
      PairNext(text, p, room - |data|);
      var n1 := HexValue(text[p]);
      if n1 < 0 || p + 1 == |text| {
        return None;
      }
      var n2 := HexValue(text[p + 1]);
      if n2 < 0 || |data| >= room {
        return None;
      }
      OnwardsNext(all, data[|first|..], 16 * n1 + n2, HexPairs(text[p + 2..], room - |data| - 1));
      assert (data + [16 * n1 + n2])[|first|..] == data[|first|..] + [16 * n1 + n2];
      data := data + [16 * n1 + n2];
      p := p + 2;
    }
    assert text[p..] == "" && HexPairs("", room - |data|) == Some([]);
    assert data == first + data[|first|..];
    assert data[|first|..] + [] == data[|first|..];
    r := if data == [] then None else Some(data);
  }

  /** The data is what a lone first digit gives, and then what the pairs give. */
  lemma {:induction false} HexDataIs(text: string, room: nat, first: seq<byte>)
    requires text != "" && (text[0] == '0' ==> |text| >= 2)
    requires var p := if text[0] == '0' then 2 else 0;
             first == if (|text| - p) % 2 == 0 then [] else if HexValue(text[p]) >= 0 then [HexValue(text[p])] else [0]
    requires var p := if text[0] == '0' then 2 else 0;
             |first| <= room && ((|text| - p) % 2 == 1 ==> HexValue(text[p]) >= 0)
    ensures var p := (if text[0] == '0' then 2 else 0) + |first|;
            p <= |text| &&
            HexData(text, room)
            == match HexPairs(text[p..], room - |first|)
               case None => None
               case Some(rest) => if first + rest == [] then None else Some(first + rest)
  {
    var p := if text[0] == '0' then 2 else 0;
    assert text[0..] == text;
    if (|text| - p) % 2 == 1 {
      assert text[p..][1..] == text[p + 1..];
    } else {
      var r := HexPairs(text[p..], room);
      assert r.Some? ==> [] + r.value == r.value;
    }
  }

  /** `all` is `data` and then what `more` gives. */
  predicate Onwards(all: Option<seq<byte>>, data: seq<byte>, more: Option<seq<byte>>) {
    all == if more.None? then None else Some(data + more.value)
  }

  lemma {:induction false} OnwardsNext(all: Option<seq<byte>>, data: seq<byte>, b: byte, more: Option<seq<byte>>)
    requires Onwards(all, data, if more.None? then None else Some([b] + more.value))
    ensures Onwards(all, data + [b], more)
  {
    if more.Some? {
      assert data + ([b] + more.value) == data + [b] + more.value;
    }
  }

  lemma {:induction false} LoneDigitBad(text: string, room: nat)
    requires text != "" && (text[0] == '0' ==> |text| >= 2)
    requires var p := if text[0] == '0' then 2 else 0;
             (|text| - p) % 2 == 1 && (HexValue(text[p]) < 0 || room < 1)
    ensures HexData(text, room) == None
  {
    assert text[0..] == text;
  }

  lemma {:induction false} PairsNone()
    ensures forall room :: HexPairs("", room) == Some([])
  {
  }

  lemma {:induction false} PairNext(text: string, p: nat, room: nat)
    requires p < |text|
    ensures HexPairs(text[p..], room)
         == if p + 1 == |text| || HexValue(text[p]) < 0 || HexValue(text[p + 1]) < 0 || room == 0 then None
            else match HexPairs(text[p + 2..], room - 1)
              case None => None
              case Some(rest) => Some([16 * HexValue(text[p]) + HexValue(text[p + 1])] + rest)
  {
    if p + 1 < |text| {
      assert text[p..][2..] == text[p + 2..];
    }
  }

  // ----- what is left in the buffer, conversion complete or not

  function PairsWritten(s: string, room: nat): (d: seq<byte>)
    ensures |d| <= room
  {
    if |s| < 2 || HexValue(s[0]) < 0 || HexValue(s[1]) < 0 || room == 0 then []
    else [16 * HexValue(s[0]) + HexValue(s[1])] + PairsWritten(s[2..], room - 1)
  }

  /** The bytes `HexTextToData` has stored when it returns, also when it fails. */
  function HexWritten(text: string, room: nat): (d: seq<byte>)
    requires text != "" && (text[0] == '0' ==> |text| >= 2)
    ensures |d| <= room
  {
    var s := if text[0] == '0' then text[2..] else text;
    if |s| % 2 == 0 then PairsWritten(s, room)
    else if HexValue(s[0]) < 0 || room == 0 then []
    else [HexValue(s[0])] + PairsWritten(s[1..], room - 1)
  }

  lemma {:induction false} PairsAllWritten(s: string, room: nat)
    ensures HexPairs(s, room).Some? ==> PairsWritten(s, room) == HexPairs(s, room).value
  {
    if |s| >= 2 && room > 0 {
      PairsAllWritten(s[2..], room - 1);
    }
  }

  lemma {:induction false} AllWritten(text: string, room: nat)
    requires text != "" && (text[0] == '0' ==> |text| >= 2)
    ensures HexData(text, room).Some? ==> HexWritten(text, room) == HexData(text, room).value
  {
    var s := if text[0] == '0' then text[2..] else text;
    PairsAllWritten(s, room);
    if |s| % 2 == 1 && room > 0 {
      PairsAllWritten(s[1..], room - 1);
    }
  }
}
