/** Numbers as bytes, low-order byte first. */
module ByteOrder {

  type byte = x: int | 0 <= x < 256

  /** The low-order `width` bytes of `n`, low-order byte first. */
  function Bytes(n: nat, width: nat): (s: seq<byte>)
    ensures |s| == width
  {
    if width == 0 then [] else [n % 256] + Bytes(n / 256, width - 1)
  }

  function Joined(s: seq<byte>): nat {
    if s == [] then 0 else s[0] + 256 * Joined(s[1..])
  }

  function Power(width: nat): (p: nat)
    ensures p > 0
  {
    if width == 0 then 1 else 256 * Power(width - 1)
  }

  lemma {:induction false} DigitBound(n: nat, p: nat)
    requires p > 0 && n < 256 * p
    ensures n / 256 < p
  {
  }

  lemma {:induction false} JoinedBytes(n: nat, width: nat)
    requires n < Power(width)
    ensures Joined(Bytes(n, width)) == n
  {
    if width > 0 {
      DigitBound(n, Power(width - 1));
      JoinedBytes(n / 256, width - 1);
      assert Bytes(n, width)[1..] == Bytes(n / 256, width - 1);
    }
  }

  function Shift(n: nat, width: nat): nat {
    if width == 0 then n else Shift(n / 256, width - 1)
  }

  lemma {:induction false} BytesSplit(n: nat, low: nat, high: nat)
    ensures Bytes(n, low + high) == Bytes(n, low) + Bytes(Shift(n, low), high)
  {
    if low > 0 {
      BytesSplit(n / 256, low - 1, high);
    }
  }

  /** The low-order bytes do not depend on the rest. */
  lemma {:induction false} LowDigits(n: nat, width: nat)
    ensures Bytes(n, width) == Bytes(n % Power(width), width)
  {
    if width > 0 {
      LowDigit(n, Power(width - 1));
      LowDigits(n / 256, width - 1);
    }
  }

  lemma {:induction false} LowDigit(n: nat, p: nat)
    requires p > 0
    ensures (n % (256 * p)) % 256 == n % 256 && (n % (256 * p)) / 256 == (n / 256) % p
  {
    var q := n / 256 / p;
    var r := n / 256 % p;
    assert n / 256 == q * p + r;
    assert n == 256 * (q * p + r) + n % 256;
    var low := 256 * r + n % 256;
    assert 256 * (q * p) == q * (256 * p);
    assert n == q * (256 * p) + low;
    Quotient(n, 256 * p, q, low);
  }

  lemma {:induction false} AtLeastOne(k: int, p: int)
    requires k > 0 && p > 0
    ensures k * p >= p
  {
    assert k * p == (k - 1) * p + p;
  }

  lemma {:induction false} Multiple(k: int, p: int)
    requires -p < k * p < p
    ensures k == 0
  {
    assert (-k) * p == -(k * p);
    if k > 0 {
      AtLeastOne(k, p);
    } else if k < 0 {
      AtLeastOne(-k, p);
    }
  }

  lemma {:induction false} Quotient(n: nat, p: nat, q: nat, r: nat)
    requires r < p && n == q * p + r
    ensures n % p == r && n / p == q
  {
    var d := n / p;
    assert (d - q) * p == d * p - q * p;
    Multiple(d - q, p);
  }
}
