/** Time-ordered identifiers in the layout of section 5.7 of RFC 9562 (src/events/base.py and
    src/utils/idempotency.py). Random bytes and digests are inputs. */
module Uuid7 {
  import opened Wrappers
  import opened Bytes

  /** `a` comes before `b` in lexicographic order: they differ first at `k`, and there `a` is less. */
  predicate DiffersAt(a: string, b: string, k: int) {
    0 <= k < |a| && k < |b| && a[..k] == b[..k] && a[k] < b[k]
  }

  ghost predicate Before(a: string, b: string) {
    exists k :: DiffersAt(a, b, k)
  }

  // ---------------------------------------------------------------------------
  // The sixteen bytes
  // ---------------------------------------------------------------------------

  /** Sets the version and variant bits. */
  method Stamp(raw: bytes) returns (stamped: bytes)
    requires |raw| == 16
    ensures stamped == WithVersion(raw)
  {
    var a := new byte[16](i requires 0 <= i < 16 => raw[i]);
    a[6] := a[6] % 0x10 + 0x70;
    a[8] := a[8] % 0x40 + 0x80;
    return a[..];
  }

  function WithVersion(raw: bytes): bytes
    requires |raw| == 16
  {
    raw[6 := raw[6] % 0x10 + 0x70][8 := raw[8] % 0x40 + 0x80]
  }

  /** The version is 7 and the variant is binary 10; the other bits, the time among them, are as they were. */
  lemma VersionBits(raw: bytes)
    requires |raw| == 16
    ensures var b := WithVersion(raw);
      && |b| == 16 && b[6] / 16 == 7 && b[8] / 64 == 2
      && b[6] % 16 == raw[6] % 16 && b[8] % 64 == raw[8] % 64
      && forall i :: 0 <= i < 16 && i != 6 && i != 8 ==> b[i] == raw[i]
  {
  }

  /** The bytes for a time in milliseconds: its low 48 bits and ten more bytes. A time that does not fit
      an unsigned 64-bit integer is refused. */
  function RawBytes(time: int, tail: bytes): (r: Option<bytes>)
    requires |tail| >= 10
    ensures r.Some? ==> |r.value| == 16
  {
    if 0 <= time < U64 then Some(WithVersion(BigEndian(time, 8)[2..] + tail[..10])) else None
  }

  lemma LowBytes(n: nat)
    ensures BigEndian(n, 8)[2..] == BigEndian(n, 6)
  {
    TailOf(n, 8, 2);
  }

  /** The low bytes of an encoding encode the number in fewer bytes. */
  lemma {:induction false} TailOf(n: nat, width: nat, k: nat)
    requires k <= width
    ensures BigEndian(n, width)[k..] == BigEndian(n, width - k)
  {
    if k < width {
      TailOf(n / 256, width - 1, k);
      assert (BigEndian(n / 256, width - 1) + [n % 256])[k..] == BigEndian(n / 256, width - 1)[k..] + [n % 256];
    }
  }

  /** Of two numbers that fit, the smaller has the smaller byte where their encodings first differ. */
  lemma {:induction false} EncodingOrder(m: nat, n: nat, width: nat) returns (k: nat)
    requires m < n < Limit(width)
    ensures k < width && BigEndian(m, width)[..k] == BigEndian(n, width)[..k]
    ensures BigEndian(m, width)[k] < BigEndian(n, width)[k]
  {
    var a, b := BigEndian(m / 256, width - 1), BigEndian(n / 256, width - 1);
    if m / 256 < n / 256 {
      k := EncodingOrder(m / 256, n / 256, width - 1);
      assert (a + [m % 256])[..k] == a[..k] && (b + [n % 256])[..k] == b[..k];
    } else {
      k := width - 1;
      assert (a + [m % 256])[..k] == a && (b + [n % 256])[..k] == b;
    }
  }

  // ---------------------------------------------------------------------------
  // The text
  // ---------------------------------------------------------------------------

  function Digit(n: nat): char
    requires n < 16
  {
    "0123456789abcdef"[n]
  }

  function Hex(b: bytes): (s: string)
    ensures |s| == 2 * |b|
  {
    if b == [] then [] else Hex(b[..|b| - 1]) + [Digit(b[|b| - 1] / 16), Digit(b[|b| - 1] % 16)]
  }

  lemma {:induction false} HexAt(b: bytes, i: nat)
    requires i < |b|
    ensures Hex(b)[2 * i] == Digit(b[i] / 16) && Hex(b)[2 * i + 1] == Digit(b[i] % 16)
  {
    if i < |b| - 1 {
      HexAt(b[..|b| - 1], i);
    }
  }

  lemma {:induction false} HexPrefix(b: bytes, k: nat)
    requires k <= |b|
    ensures Hex(b)[..2 * k] == Hex(b[..k])
  {
    if k == |b| {
      assert b[..k] == b;
    } else {
      var init := b[..|b| - 1];
      HexPrefix(init, k);
      assert init[..k] == b[..k];
      assert Hex(b)[..2 * k] == Hex(init)[..2 * k];
    }
  }

  lemma DigitOrder(m: nat, n: nat)
    requires m < n < 16
    ensures Digit(m) < Digit(n)
  {
  }

  function Grouped(h: string): (s: string)
    requires |h| == 32
    ensures |s| == 36
  {
    h[0..8] + "-" + h[8..12] + "-" + h[12..16] + "-" + h[16..20] + "-" + h[20..32]
  }

  function Text(raw: bytes): string
    requires |raw| == 16
  {
    Grouped(Hex(raw))
  }

  /** The digits of the byte at `k` come right after those of the bytes before it. */
  lemma HexSplit(a: bytes, k: nat)
    requires k < |a|
    ensures Hex(a)[..2 * k] == Hex(a[..k])
    ensures Hex(a)[..2 * k + 1] == Hex(a[..k]) + [Digit(a[k] / 16)]
    ensures Hex(a)[2 * k] == Digit(a[k] / 16) && Hex(a)[2 * k + 1] == Digit(a[k] % 16)
  {
    hide Hex;
    HexPrefix(a, k);
    HexAt(a, k);
    PrefixMore(Hex(a), 2 * k);
  }

  lemma PrefixMore(s: string, n: nat)
    requires n < |s|
    ensures s[..n + 1] == s[..n] + [s[n]]
  {
  }

  lemma HexOrder(a: bytes, b: bytes, k: nat) returns (j: nat)
    requires |a| == |b| == 16 && k < 6 && a[..k] == b[..k] && a[k] < b[k]
    ensures j < 12 && DiffersAt(Hex(a), Hex(b), j)
  {
    hide Hex, Digit;
    HexSplit(a, k);
    HexSplit(b, k);
    if a[k] / 16 < b[k] / 16 {
      j := 2 * k;
      DigitOrder(a[k] / 16, b[k] / 16);
    } else {
      j := 2 * k + 1;
      assert a[k] / 16 == b[k] / 16 && a[k] % 16 < b[k] % 16;
      DigitOrder(a[k] % 16, b[k] % 16);
    }
  }

  /** The first group boundary is the only one within the time's digits. */
  lemma GroupedPrefix(h: string, j: nat)
    requires |h| == 32 && j < 12
    ensures var p := if j < 8 then j else j + 1;
      Grouped(h)[p] == h[j] && Grouped(h)[..p] == if j < 8 then h[..j] else h[..8] + "-" + h[..j][8..]
  {
    hide Digit;
    var head := h[0..8] + "-" + h[8..12];
    assert Grouped(h)[..13] == head;
    if j < 8 {
      assert head[..j] == h[..j];
    } else {
      assert head[..j + 1] == h[..8] + "-" + h[..j][8..];
    }
  }

  lemma GroupedOrder(g: string, h: string, j: nat)
    requires |g| == |h| == 32 && j < 12 && DiffersAt(g, h, j)
    ensures Before(Grouped(g), Grouped(h))
  {
    GroupedPrefix(g, j);
    GroupedPrefix(h, j);
    hide Grouped;
    assert DiffersAt(Grouped(g), Grouped(h), if j < 8 then j else j + 1);
  }

  /** An identifier made from a time and ten bytes; none when the time does not fit. */
  function Uuid(time: int, tail: bytes): Option<string>
    requires |tail| >= 10
  {
    var raw :- RawBytes(time, tail);
    Some(Text(raw))
  }

  /** The intent identifier: the time's milliseconds, and bytes of a digest of what the intent is. */
  function IntentId(time: int, payload: bytes, digest: bytes -> bytes): Option<string> {
    if |digest(payload)| >= 10 then Uuid(time, digest(payload)) else None
  }

  // ---------------------------------------------------------------------------
  // Reading an identifier
  // ---------------------------------------------------------------------------

  /** The text without its four hyphens, which stand where section 4 of RFC 9562 has them. */
  function Ungrouped(s: string): Option<string> {
    if |s| == 36 && s[8] == s[13] == s[18] == s[23] == '-'
    then Some(s[0..8] + s[9..13] + s[14..18] + s[19..23] + s[24..36]) else None
  }

  /** The value of a lower-case hexadecimal digit. */
  function DigitValue(c: char): Option<nat> {
    if '0' <= c <= '9' then Some(c as int - '0' as int)
    else if 'a' <= c <= 'f' then Some(c as int - 'a' as int + 10) else None
  }

  function FromHex(s: string): Option<bytes> {
    if |s| < 2 then if s == "" then Some([]) else None
    else
      var before :- FromHex(s[..|s| - 2]);
      var high :- DigitValue(s[|s| - 2]);
      var low :- DigitValue(s[|s| - 1]);
      Some(before + [16 * high + low])
  }

  lemma DigitRead(n: nat)
    requires n < 16
    ensures DigitValue(Digit(n)) == Some(n)
  {
  }

  lemma FromHexSnoc(s: string, high: char, low: char)
    requires FromHex(s).Some? && DigitValue(high).Some? && DigitValue(low).Some?
    requires DigitValue(high).value < 16 && DigitValue(low).value < 16
    ensures FromHex(s + [high, low]) == Some(FromHex(s).value + [16 * DigitValue(high).value + DigitValue(low).value])
  {
    hide DigitValue;
    assert (s + [high, low])[..|s + [high, low]| - 2] == s;
  }

  lemma {:induction false} HexRead(b: bytes)
    ensures FromHex(Hex(b)) == Some(b)
  {
    hide Digit, DigitValue;
    if b == [] {
      assert FromHex("") == Some([]);
    } else {
      var init, last := b[..|b| - 1], b[|b| - 1];
      HexRead(init);
      DigitRead(last / 16);
      DigitRead(last % 16);
      assert Hex(b) == Hex(init) + [Digit(last / 16), Digit(last % 16)];
      hide Hex, FromHex;
      FromHexSnoc(Hex(init), Digit(last / 16), Digit(last % 16));
      assert init + [last] == b;
    }
  }

  lemma GroupParts(a: string, b: string, c: string, d: string, e: string)
    requires |a| == 8 && |b| == |c| == |d| == 4 && |e| == 12
    ensures Ungrouped(a + "-" + b + "-" + c + "-" + d + "-" + e) == Some(a + b + c + d + e)
  {
    var s := a + "-" + b + "-" + c + "-" + d + "-" + e;
    assert s[0..8] == a && s[9..13] == b && s[14..18] == c && s[19..23] == d && s[24..36] == e;
  }

  /** The text of sixteen bytes gives them back. */
  lemma TextRead(raw: bytes)
    requires |raw| == 16
    ensures Ungrouped(Text(raw)) == Some(Hex(raw)) && FromHex(Hex(raw)) == Some(raw)
  {
    HexRead(raw);
    hide Hex, FromHex, Ungrouped, Digit;
    var h := Hex(raw);
    assert h[0..8] + h[8..12] + h[12..16] + h[16..20] + h[20..32] == h;
    GroupParts(h[0..8], h[8..12], h[12..16], h[16..20], h[20..32]);
  }

  /** What the bytes hold: the time in milliseconds, most significant byte first, and behind it the ten bytes but
      for the version and the variant. */
  lemma BytesHold(time: nat, tail: bytes)
    requires time < Limit(6) && |tail| >= 10
    ensures RawBytes(time, tail).Some?
    ensures var b := RawBytes(time, tail).value;
      && FromBigEndian(b[..6]) == time
      && b[6] / 16 == 7 && b[6] % 16 == tail[0] % 16 && b[7] == tail[1] && b[8] / 64 == 2 && b[8] % 64 == tail[2] % 64
      && b[9..] == tail[3..10]
  {
    SixBytes();
    LowBytes(time);
    BigEndianRoundTrip(time, 6);
    hide BigEndian, FromBigEndian;
    var raw := BigEndian(time, 6) + tail[..10];
    VersionBits(raw);
    assert WithVersion(raw)[..6] == BigEndian(time, 6);
    assert WithVersion(raw)[9..] == tail[3..10];
  }

  /** Identifiers sort by time: whatever the other bytes, of two times below 2^48 milliseconds the earlier
      has the identifier that comes first. */
  lemma SortsByTime(s: nat, t: nat, tail: bytes, other: bytes)
    requires s < t < Limit(6) && |tail| >= 10 && |other| >= 10
    ensures Uuid(s, tail).Some? && Uuid(t, other).Some?
    ensures Before(Uuid(s, tail).value, Uuid(t, other).value)
  {
    SixBytes();
    LowBytes(s);
    LowBytes(t);
    var k := EncodingOrder(s, t, 6);
    var low, high := BigEndian(s, 6) + tail[..10], BigEndian(t, 6) + other[..10];
    hide Hex, Grouped, BigEndian, Digit;
    assert low[..k] == BigEndian(s, 6)[..k] && high[..k] == BigEndian(t, 6)[..k];
    var a, b := WithVersion(low), WithVersion(high);
    assert a[..k] == low[..k] && b[..k] == high[..k];
    var j := HexOrder(a, b, k);
    GroupedOrder(Hex(a), Hex(b), j);
  }

  /** So do intent identifiers, whatever the intents and the digest. */
  lemma IntentsSortByTime(s: nat, t: nat, payload: bytes, other: bytes, digest: bytes -> bytes)
    requires s < t < Limit(6) && |digest(payload)| >= 10 && |digest(other)| >= 10
    ensures IntentId(s, payload, digest).Some? && IntentId(t, other, digest).Some?
    ensures Before(IntentId(s, payload, digest).value, IntentId(t, other, digest).value)
  {
    hide Uuid, Before;
    SortsByTime(s, t, digest(payload), digest(other));
  }

  /** The bits of ten bytes that an identifier keeps. */
  predicate SameBits(a: bytes, b: bytes)
    requires |a| >= 10 && |b| >= 10
  {
    a[0] % 16 == b[0] % 16 && a[1] == b[1] && a[2] % 64 == b[2] % 64 && a[3..10] == b[3..10]
  }

  lemma SameBytes(a: bytes, b: bytes)
    requires |a| == |b| == 16 && a[..6] == b[..6] && a[6] == b[6] && a[7] == b[7] && a[8] == b[8] && a[9..] == b[9..]
    ensures a == b
  {
    forall i | 0 <= i < 16
      ensures a[i] == b[i]
    {
      if i < 6 {
        assert a[i] == a[..6][i] == b[..6][i] == b[i];
      } else if i > 8 {
        assert a[i] == a[9..][i - 9] == b[9..][i - 9] == b[i];
      }
    }
  }

  lemma BytesTell(s: nat, t: nat, tail: bytes, other: bytes)
    requires s < Limit(6) && t < Limit(6) && |tail| >= 10 && |other| >= 10
    ensures RawBytes(s, tail).Some? && RawBytes(t, other).Some?
    ensures RawBytes(s, tail) == RawBytes(t, other) <==> s == t && SameBits(tail, other)
  {
    BytesHold(s, tail);
    BytesHold(t, other);
    BigEndianOf(s, tail);
    BigEndianOf(t, other);
    var a, b := RawBytes(s, tail).value, RawBytes(t, other).value;
    hide RawBytes, BigEndian, FromBigEndian;
    if s == t && SameBits(tail, other) {
      SameBytes(a, b);
    }
  }

  lemma BigEndianOf(time: nat, tail: bytes)
    requires time < Limit(6) && |tail| >= 10
    ensures RawBytes(time, tail).Some? && RawBytes(time, tail).value[..6] == BigEndian(time, 6)
  {
    SixBytes();
    LowBytes(time);
    hide BigEndian;
  }

  /** Idempotency: two intents get the same identifier if and only if their times are the same and so are the 74 bits
      that are kept of their digests. */
  lemma SameIntentId(s: nat, t: nat, payload: bytes, other: bytes, digest: bytes -> bytes)
    requires s < Limit(6) && t < Limit(6) && |digest(payload)| >= 10 && |digest(other)| >= 10
    ensures IntentId(s, payload, digest) == IntentId(t, other, digest)
       <==> s == t && SameBits(digest(payload), digest(other))
  {
    var a, b := RawBytes(s, digest(payload)), RawBytes(t, digest(other));
    BytesTell(s, t, digest(payload), digest(other));
    TextRead(a.value);
    TextRead(b.value);
    hide RawBytes, Text, Ungrouped, FromHex, Hex, SameBits;
  }

  lemma SixBytes()
    ensures Limit(6) == 0x1_0000_0000_0000 <= U64
  {
    assert Limit(1) == 256;
    assert Limit(2) == 256 * Limit(1);
    assert Limit(3) == 256 * Limit(2);
    assert Limit(4) == 256 * Limit(3);
    assert Limit(5) == 256 * Limit(4);
  }

  lemma {:induction false} EncodingWraps(n: nat, width: nat)
    ensures BigEndian(n + Limit(width), width) == BigEndian(n, width)
  {
    if width > 0 {
      assert (n + Limit(width)) / 256 == n / 256 + Limit(width - 1) && (n + Limit(width)) % 256 == n % 256;
      EncodingWraps(n / 256, width - 1);
    }
  }

  /** Beyond 2^48 milliseconds the identifiers start over. */
  lemma StartsOver(t: nat, tail: bytes)
    requires t + Limit(6) < U64 && |tail| >= 10
    ensures Uuid(t + Limit(6), tail) == Uuid(t, tail)
  {
    LowBytes(t);
    LowBytes(t + Limit(6));
    EncodingWraps(t, 6);
  }
}
