/** Fixed-width integers as bytes, in both byte orders. */
module Bytes {

  type Byte = x: int | 0 <= x < 256
  type Data = seq<Byte>

  /** 256 to the power of width. */
  function Span(width: nat): (r: nat)
    ensures r > 0
  {
    if width == 0 then 1 else 256 * Span(width - 1)
  }

  /** The low bytes of n, least significant first; higher bytes are cut off. */
  function ToLittle(n: nat, width: nat): (r: Data)
    ensures |r| == width
  {
    if width == 0 then [] else [n % 256] + ToLittle(n / 256, width - 1)
  }

  function FromLittle(b: Data): nat
  {
    if b == [] then 0 else b[0] + 256 * FromLittle(b[1..])
  }

  /** The low bytes of n, most significant first. */
  function ToBig(n: nat, width: nat): (r: Data)
    ensures |r| == width
  {
    if width == 0 then [] else ToBig(n / 256, width - 1) + [n % 256]
  }

  function FromBig(b: Data): nat
  {
    if b == [] then 0 else 256 * FromBig(b[..|b| - 1]) + b[|b| - 1]
  }

  /** Writing keeps the number exactly when it fits; otherwise what is read back is smaller. */
  lemma {:induction false} LittleRoundTrip(n: nat, width: nat)
    ensures FromLittle(ToLittle(n, width)) < Span(width)
    ensures n < Span(width) ==> FromLittle(ToLittle(n, width)) == n
  {
    if width > 0 {
      LittleRoundTrip(n / 256, width - 1);
      assert ToLittle(n, width)[1..] == ToLittle(n / 256, width - 1);
    }
  }

  /** Reading and writing back restores the bytes. */
  lemma {:induction false} LittleRestores(b: Data)
    ensures FromLittle(b) < Span(|b|)
    ensures ToLittle(FromLittle(b), |b|) == b
  {
    if b != [] {
      LittleRestores(b[1..]);
      assert FromLittle(b) / 256 == FromLittle(b[1..]) && FromLittle(b) % 256 == b[0];
    }
  }

  lemma {:induction false} BigRoundTrip(n: nat, width: nat)
    ensures FromBig(ToBig(n, width)) < Span(width)
    ensures n < Span(width) ==> FromBig(ToBig(n, width)) == n
  {
    if width > 0 {
      BigRoundTrip(n / 256, width - 1);
      assert ToBig(n, width)[..width - 1] == ToBig(n / 256, width - 1);
    }
  }

  lemma Span4()
    ensures Span(4) == 0x1_0000_0000
  {
    assert Span(1) == 256 && Span(2) == 0x1_0000;
  }

  // ----- which byte is where

  lemma Multiple(d: int, k: int)
    requires d >= 0
    ensures k == 0 || d * k >= d || d * k <= -d
  {
    if k > 0 { assert d * (k - 1) >= 0; }
    if k < 0 { assert d * (-k - 1) >= 0; }
  }

  lemma QuotientIs(n: int, d: int, q: int, r: int)
    requires n >= 0 && d > 0 && n == d * q + r && 0 <= r < d
    ensures n / d == q
  {
    var k := n / d - q;
    assert d * (n / d) == d * q + d * k;
    assert n == d * (n / d) + n % d;
    Multiple(d, k);
  }

  lemma DivideTwice(n: nat, b: nat)
    requires b > 0
    ensures n / 256 / b == n / (256 * b)
  {
    var q := n / 256;
    var r := q / b;
    var s, t := q % b, n % 256;
    assert q == b * r + s && n == 256 * q + t;
    assert n == 256 * (b * r) + (256 * s + t);
    assert 256 * (b * r) == (256 * b) * r;
    QuotientIs(n, 256 * b, r, 256 * s + t);
  }

  /** Little-endian: the byte at position i is the i-th digit of the number to base 256, least significant first. */
  lemma {:induction false} LittleByte(n: nat, width: nat, i: nat)
    requires i < width
    ensures ToLittle(n, width)[i] == n / Span(i) % 256
  {
    if i > 0 {
      LittleByte(n / 256, width - 1, i - 1);
      DivideTwice(n, Span(i - 1));
    }
  }

  /** Big-endian: the most significant digit comes first. */
  lemma {:induction false} BigByte(n: nat, width: nat, i: nat)
    requires i < width
    ensures ToBig(n, width)[i] == n / Span(width - 1 - i) % 256
  {
    if i < width - 1 {
      BigByte(n / 256, width - 1, i);
      DivideTwice(n, Span(width - 2 - i));
    }
  }
}
