/** What the texts of numbers and of data mean, digit by digit. */
module NumberTexts {
  import opened ByteOrder
  import opened Sequences
  import opened Numbers

  // ----- decimal

  predicate AllDigits(s: string) {
    forall i :: 0 <= i < |s| ==> '0' <= s[i] <= '9'
  }

  /** Positional value: the last digit counts one. */
  function Value(s: string): nat
    requires AllDigits(s)
  {
    if s == "" then 0 else 10 * Value(s[..|s| - 1]) + (s[|s| - 1] as int - '0' as int)
  }

  lemma {:induction false} AtoiFromIs(k: nat, s: string, rest: string)
    requires AllDigits(s) && (rest == "" || !('0' <= rest[0] <= '9'))
    ensures AtoiFrom(k, s + rest) == AtoiFrom(k, s)
    decreases |s|
  {
    if s == "" {
      assert s + rest == rest;
    } else {
      assert (s + rest)[1..] == s[1..] + rest;
      AtoiFromIs(10 * k + (s[0] as int - '0' as int), s[1..], rest);
    }
  }

  lemma {:induction false} AtoiOfDigits(s: string)
    requires AllDigits(s)
    ensures Atoi(s) == Value(s)
    decreases |s|
  {
    if s != "" {
      var front, d := s[..|s| - 1], s[|s| - 1] as int - '0' as int;
      AtoiOfDigits(front);
      AtoiSnoc(0, front, d);
      assert s == front + [Digit(d)];
    }
  }

  /** The value of the digits a text starts with, whatever follows them. */
  lemma {:induction false} AtoiIsValue(s: string, rest: string)
    requires AllDigits(s) && (rest == "" || !('0' <= rest[0] <= '9'))
    ensures Atoi(s + rest) == Value(s)
  {
    AtoiFromIs(0, s, rest);
    AtoiOfDigits(s);
  }

  /** A number is printed as the digits of its value, without a leading zero. */
  lemma {:induction false} DecimalIsValue(n: nat)
    ensures AllDigits(Decimal(n)) && Value(Decimal(n)) == n
    ensures Decimal(n)[0] == '0' <==> n == 0
  {
    AtoiDecimal(n);
    AtoiOfDigits(Decimal(n));
    LeadingDigit(n);
  }

  lemma {:induction false} LeadingDigit(n: nat)
    ensures Decimal(n)[0] == '0' <==> n == 0
  {
    if n >= 10 {
      LeadingDigit(n / 10);
    }
  }

  // ----- hexadecimal

  const UPPER := "0123456789ABCDEF"

  const LOWER := "0123456789abcdef"

  /** Two digits a byte, the high one first. */
  function Digits(alphabet: string, data: seq<byte>): (s: string)
    requires |alphabet| == 16
    ensures |s| == 2 * |data|
  {
    seq(2 * |data|, i requires 0 <= i < 2 * |data| =>
      alphabet[if i % 2 == 0 then data[i / 2] / 16 else data[i / 2] % 16])
  }

  lemma {:induction false} DigitsCons(alphabet: string, data: seq<byte>)
    requires |alphabet| == 16 && data != []
    ensures Digits(alphabet, data)
            == [alphabet[data[0] / 16], alphabet[data[0] % 16]] + Digits(alphabet, data[1..])
  {
    var s, t := Digits(alphabet, data), Digits(alphabet, data[1..]);
    forall i | 2 <= i < |s| ensures s[i] == t[i - 2] {
      assert (i - 2) / 2 == i / 2 - 1 && (i - 2) % 2 == i % 2;
    }
  }

  /** The text of data: the prefix, then its digits in lower case. */
  lemma {:induction false} HexTextIs(data: seq<byte>)
    ensures HexText(data) == "0x" + Digits(LOWER, data)
  {
    HexDigitsAre(data);
  }

  lemma {:induction false} HexDigitsAre(data: seq<byte>)
    ensures HexDigits(data) == Digits(LOWER, data)
  {
    if data != [] {
      DigitsCons(LOWER, data);
      HexDigitsAre(data[1..]);
    }
  }

  lemma {:induction false} UpperValue(d: nat)
    requires d < 16
    ensures HexValue(UPPER[d]) == d
  {
  }

  lemma {:induction false} UpperPairs(data: seq<byte>, room: nat)
    ensures HexPairs(Digits(UPPER, data), room) == if |data| <= room then Some(data) else None
  {
    if data != [] {
      var s := Digits(UPPER, data);
      DigitsCons(UPPER, data);
      UpperValue(data[0] / 16);
      UpperValue(data[0] % 16);
      hide HexValue, Digits;
      assert s[2..] == Digits(UPPER, data[1..]);
      assert data == [data[0]] + data[1..];
      if room > 0 {
        UpperPairs(data[1..], room - 1);
      }
    }
  }

  /** Upper-case text of data is read as the data too. */
  lemma {:induction false} UpperRoundTrip(data: seq<byte>, room: nat)
    ensures HexData("0x" + Digits(UPPER, data), room) == if 0 < |data| <= room then Some(data) else None
  {
    assert ("0x" + Digits(UPPER, data))[2..] == Digits(UPPER, data);
    UpperPairs(data, room);
  }

  predicate IsHex(c: char) {
    '0' <= c <= '9' || 'a' <= c <= 'f' || 'A' <= c <= 'F'
  }

  lemma {:induction false} PairsFailIff(s: string, room: nat)
    ensures HexPairs(s, room).Some?
            <==> |s| % 2 == 0 && |s| / 2 <= room && forall i :: 0 <= i < |s| ==> IsHex(s[i])
    ensures HexPairs(s, room).Some? ==> |HexPairs(s, room).value| == |s| / 2
    decreases |s|
  {
    if |s| >= 2 && room > 0 {
      PairsFailIff(s[2..], room - 1);
      assert forall i :: 2 <= i < |s| ==> s[i] == s[2..][i - 2];
    }
  }

  /** Digits are read, an odd one in front standing for a byte of its own, exactly when
      there are some, all are hexadecimal, and there is room. */
  lemma {:induction false} HexDataFailsIff(digits: string, room: nat)
    ensures HexData("0x" + digits, room).Some?
            <==> digits != "" && (|digits| + 1) / 2 <= room && forall i :: 0 <= i < |digits| ==> IsHex(digits[i])
    ensures |digits| % 2 == 1 ==> HexData("0x" + digits, room) == HexData("0x0" + digits, room)
  {
    assert ("0x" + digits)[2..] == digits;
    assert ("0x0" + digits)[2..] == "0" + digits;
    PairsFailIff(digits, room);
    if |digits| % 2 == 1 {
      PairsFailIff(digits[1..], if room > 0 then room - 1 else 0);
      assert forall i :: 1 <= i < |digits| ==> digits[i] == digits[1..][i - 1];
      assert ("0" + digits)[2..] == digits[1..];
    }
  }
}
