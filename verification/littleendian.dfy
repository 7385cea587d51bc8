/** Unsigned numbers stored low byte first, as the PE and UEFI structures hold them. */
module LittleEndian {
  import opened Arithmetic

  type Byte = b: int | 0 <= b < 256

  const U32 := 0x1_0000_0000

  /** A C unsigned int's value. */
  function Wrap(n: int): (w: nat)
    ensures 0 <= n < U32 ==> w == n
  {
    n % U32
  }

  lemma WrapSum(a: int, b: int)
    ensures Wrap(Wrap(a) + b) == Wrap(a + b)
  {
  }

  function Power(width: nat): (p: nat)
    ensures p > 0
  {
    if width == 0 then 1 else 256 * Power(width - 1)
  }

  function Number(s: seq<Byte>): (n: nat)
    ensures n < Power(|s|)
  {
    if s == [] then 0 else s[0] + 256 * Number(s[1..])
  }

  function Digits(n: nat, width: nat): (s: seq<Byte>)
    ensures |s| == width
  {
    if width == 0 then [] else [n % 256] + Digits(n / 256, width - 1)
  }

  lemma SplitModulo(n: nat, p: nat)
    requires p > 0
    ensures n % (256 * p) == n % 256 + 256 * ((n / 256) % p)
  {
    var h := n / 256;
    var q := h / p;
    var r := n % 256 + 256 * (h % p);
    assert h == q * p + h % p;
    assert n == q * (256 * p) + r by {
      assert 256 * (q * p) == q * (256 * p);
    }
    QuotientIs(n, 256 * p, q, r);
  }

  function Mod(n: nat, p: nat): nat
    requires p > 0
  {
    n % p
  }

  lemma ModFirst(x: nat, y: nat, p: nat)
    requires p > 0
    ensures Mod(Mod(x, p) + y, p) == Mod(x + y, p)
  {
    var s := x % p + y;
    assert (x / p + s / p) * p == (x / p) * p + (s / p) * p;
    QuotientIs(x + y, p, x / p + s / p, s % p);
  }

  lemma {:induction false} NumberOfDigits(n: nat, width: nat)
    ensures Number(Digits(n, width)) == n % Power(width)
  {
    if width == 0 {
    } else {
      NumberOfDigits(n / 256, width - 1);
      assert Digits(n, width)[1..] == Digits(n / 256, width - 1);
      SplitModulo(n, Power(width - 1));
    }
  }

  lemma {:induction false} DigitsOfNumber(s: seq<Byte>)
    ensures Digits(Number(s), |s|) == s
  {
    if s == [] {
    } else {
      DigitsOfNumber(s[1..]);
      QuotientIs(Number(s), 256, Number(s[1..]), s[0]);
    }
  }

  /** The number in the `width` bytes at offset `at`. */
  function Field(data: seq<Byte>, at: nat, width: nat): (n: nat)
    requires at + width <= |data|
    ensures n < Power(width)
  {
    Number(data[at..at + width])
  }

  /** Memory with `digits` stored at offset `at`. */
  function Stored(m: seq<Byte>, at: nat, digits: seq<Byte>): (r: seq<Byte>)
    requires at + |digits| <= |m|
    ensures |r| == |m|
  {
    m[..at] + digits + m[at + |digits|..]
  }

  lemma WidthsOfInterest()
    ensures Power(2) == 0x1_0000 && Power(4) == U32 && Power(8) == 0x1_0000_0000_0000_0000
  {
    assert Power(1) == 256 && Power(3) == 0x100_0000;
    assert Power(5) == 0x100_0000_0000 && Power(7) == 0x100_0000_0000_0000;
  }

  /** A field whose upper bytes are zero. */
  lemma SmallField(data: seq<Byte>, at: nat, width: nat)
    requires 2 <= width <= 4 && at + width <= |data|
    requires forall i :: at + 2 <= i < at + width ==> data[i] == 0
    ensures Field(data, at, width) == data[at] as int + 256 * (data[at + 1] as int)
  {
    var s := data[at..at + width];
    assert s[0] == data[at] && s[1..][0] == data[at + 1] && s[1..][1..] == s[2..];
    Zeros(s[2..]);
    assert Number(s[1..]) == s[1..][0] + 256 * Number(s[1..][1..]);
  }

  lemma {:induction false} Zeros(s: seq<Byte>)
    requires forall i :: 0 <= i < |s| ==> s[i] == 0
    ensures Number(s) == 0
  {
    if s == [] {
    } else {
      Zeros(s[1..]);
    }
  }

  lemma TwoDigits(n: nat)
    ensures Digits(n, 2) == [n % 256, n / 0x100 % 256]
  {
    assert Digits(n / 256, 1) == [n / 256 % 256];
  }

  lemma FourDigits(n: nat)
    ensures Digits(n, 4) == [n % 256, n / 0x100 % 256, n / 0x1_0000 % 256, n / 0x100_0000 % 256]
  {
    TwoDigits(n / 0x1_0000);
    assert Digits(n, 4) == [n % 256] + Digits(n / 256, 3) && n / 256 / 256 == n / 0x1_0000;
    assert Digits(n / 256, 3) == [n / 256 % 256] + Digits(n / 0x1_0000, 2);
  }

  lemma EightDigits(n: nat)
    ensures Digits(n, 8) == Digits(n, 4) + Digits(n / 0x1_0000_0000, 4)
  {
    FourDigits(n);
    assert n / 256 / 256 == n / 0x1_0000 && n / 0x1_0000 / 256 == n / 0x100_0000;
    assert n / 0x100_0000 / 256 == n / 0x1_0000_0000;
    assert Digits(n, 8) == [n % 256] + Digits(n / 256, 7);
    assert Digits(n / 256, 7) == [n / 256 % 256] + Digits(n / 0x1_0000, 6);
    assert Digits(n / 0x1_0000, 6) == [n / 0x1_0000 % 256] + Digits(n / 0x100_0000, 5);
    assert Digits(n / 0x100_0000, 5) == [n / 0x100_0000 % 256] + Digits(n / 0x1_0000_0000, 4);
  }
}
