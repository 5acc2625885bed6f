/** Bytes, big-endian integers and UTF-8 text, as Python's struct module and codecs treat them. */
module Bytes {

  type byte = x: int | 0 <= x < 256

  type bytes = seq<byte>

  /** 256 to the power `width`: the first number that does not fit in `width` bytes. */
  function Limit(width: nat): (r: nat)
    ensures r >= 1
  {
    if width == 0 then 1 else 256 * Limit(width - 1)
  }

  const U16: nat := 0x1_0000

  const U32: nat := 0x1_0000_0000

  // The first number that does not fit a signed 64-bit integer.
  const I64: nat := 0x8000_0000_0000_0000

  const U64: nat := 0x1_0000_0000_0000_0000

  /** The big-endian encoding of `n` in exactly `width` bytes; higher bytes are dropped. */
  function BigEndian(n: nat, width: nat): (r: bytes)
    ensures |r| == width
  {
    if width == 0 then [] else BigEndian(n / 256, width - 1) + [n % 256]
  }

  function FromBigEndian(b: bytes): (r: nat)
    ensures r < Limit(|b|)
  {
    if b == [] then 0 else FromBigEndian(b[..|b| - 1]) * 256 + b[|b| - 1]
  }

  lemma FromMore(b: bytes, last: byte)
    ensures FromBigEndian(b + [last]) == FromBigEndian(b) * 256 + last
  {
    assert (b + [last])[..|b|] == b;
  }

  lemma {:induction false} BigEndianRoundTrip(n: nat, width: nat)
    requires n < Limit(width)
    ensures FromBigEndian(BigEndian(n, width)) == n
  {
    if width == 0 {
    } else {
      var init := BigEndian(n / 256, width - 1);
      BigEndianRoundTrip(n / 256, width - 1);
      FromMore(init, n % 256);
    }
  }

  lemma {:induction false} FromBigEndianRoundTrip(b: bytes)
    ensures BigEndian(FromBigEndian(b), |b|) == b
  {
    if b == [] {
    } else {
      var init := b[..|b| - 1];
      FromBigEndianRoundTrip(init);
      assert b == init + [b[|b| - 1]];
    }
  }

  /** Big-endian: the most significant byte comes first. */
  lemma {:induction false} BigEndianDigit(n: nat, width: nat, i: nat)
    requires i < width
    ensures BigEndian(n, width)[i] == n / Limit(width - 1 - i) % 256
  {
    if i < width - 1 {
      BigEndianDigit(n / 256, width - 1, i);
      DividedTwice(n, Limit(width - 2 - i));
    }
  }

  lemma DividedTwice(n: nat, d: nat)
    requires d > 0
    ensures n / 256 / d == n / (256 * d)
  {
    var q, r := n / 256 / d, n / 256 % d;
    assert n == 256 * (q * d + r) + n % 256;
    assert 256 * (q * d) == q * (256 * d);
    QuotientIs(n, 256 * d, q, 256 * r + n % 256);
  }

  lemma QuotientIs(n: nat, d: nat, q: nat, r: nat)
    requires d > 0 && n == q * d + r && r < d
    ensures n / d == q
  {
    Multiplied(n / d + 1, q, d);
    Multiplied(q + 1, n / d, d);
    assert (q + 1) * d == q * d + d && (n / d + 1) * d == n / d * d + d;
  }

  lemma Multiplied(a: nat, b: nat, d: nat)
    ensures a <= b ==> a * d <= b * d
  {
  }

  lemma LimitValues()
    ensures Limit(2) == U16 && Limit(4) == U32 && Limit(8) == U64
  {
    assert Limit(1) == 256;
    assert Limit(2) == 256 * Limit(1);
    assert Limit(3) == 256 * Limit(2);
    assert Limit(4) == 256 * Limit(3);
    assert Limit(5) == 256 * Limit(4);
    assert Limit(6) == 256 * Limit(5);
    assert Limit(7) == 256 * Limit(6);
  }

  predicate IsTail(b: byte) {
    0x80 <= b < 0xC0
  }

  /** How many bytes the well-formed UTF-8 character at position `i` takes; 0 if there is none.
      The ranges are those of section 4 of RFC 3629. */
  function CharLength(s: bytes, i: nat): (n: nat)
    ensures n > 0 ==> i + n <= |s|
  {
    if i < |s| && s[i] < 0x80 then 1
    else if i + 1 < |s| && 0xC2 <= s[i] < 0xE0 && IsTail(s[i + 1]) then 2
    else if i + 2 < |s| && 0xE0 <= s[i] < 0xF0 && IsTail(s[i + 1]) && IsTail(s[i + 2])
         && (s[i] == 0xE0 ==> s[i + 1] >= 0xA0) && (s[i] == 0xED ==> s[i + 1] < 0xA0) then 3
    else if i + 3 < |s| && 0xF0 <= s[i] < 0xF5 && IsTail(s[i + 1]) && IsTail(s[i + 2]) && IsTail(s[i + 3])
         && (s[i] == 0xF0 ==> s[i + 1] >= 0x90) && (s[i] == 0xF4 ==> s[i + 1] < 0x90) then 4
    else 0
  }

  predicate ValidFrom(s: bytes, i: nat)
    requires i <= |s|
    decreases |s| - i
  {
    i == |s| || (CharLength(s, i) > 0 && ValidFrom(s, i + CharLength(s, i)))
  }

  predicate ValidUtf8(s: bytes) {
    ValidFrom(s, 0)
  }
}
