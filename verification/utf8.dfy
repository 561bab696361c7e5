/** UTF-8 with a strict decoder (RFC 3629), and big-endian integers of fixed width. */
module Utf8 {
  import opened Options

  newtype byte = x: int | 0 <= x < 256

  type Bytes = seq<byte>

  function EncodeChar(c: char): (b: Bytes)
    ensures 1 <= |b| <= 4
  {
    var n := c as int;
    if n < 0x80 then [n as byte]
    else if n < 0x800 then [(0xC0 + n / 64) as byte, (0x80 + n % 64) as byte]
    else if n < 0x10000 then [(0xE0 + n / 4096) as byte, (0x80 + n / 64 % 64) as byte, (0x80 + n % 64) as byte]
    else [(0xF0 + n / 262144) as byte, (0x80 + n / 4096 % 64) as byte, (0x80 + n / 64 % 64) as byte,
        (0x80 + n % 64) as byte]
  }

  function Encode(s: string): Bytes {
    if s == "" then [] else EncodeChar(s[0]) + Encode(s[1..])
  }

  /** A continuation byte gives its six bits. */
  function Tail(b: byte): Option<int> {
    if 0x80 <= b < 0xC0 then Some(b as int - 0x80) else None
  }

  /** The scalar value of a sequence, unless it is overlong, a surrogate or out of range. */
  function Scalar(n: int, least: nat): Option<char> {
    if least <= n && (n < 0xD800 || 0xE000 <= n < 0x110000) then Some(n as char) else None
  }

  /** The first character and how many bytes it takes. */
  function DecodeFirst(b: Bytes): Option<(char, nat)>
    requires |b| > 0
  {
    if b[0] < 0x80 then Some((b[0] as int as char, 1))
    else if 0xC0 <= b[0] < 0xE0 && |b| >= 2 then
      var x :- Tail(b[1]);
      var c :- Scalar((b[0] as int - 0xC0) * 64 + x, 0x80);
      Some((c, 2))
    else if 0xE0 <= b[0] < 0xF0 && |b| >= 3 then
      var x :- Tail(b[1]);
      var y :- Tail(b[2]);
      var c :- Scalar(((b[0] as int - 0xE0) * 64 + x) * 64 + y, 0x800);
      Some((c, 3))
    else if 0xF0 <= b[0] < 0xF8 && |b| >= 4 then
      var x :- Tail(b[1]);
      var y :- Tail(b[2]);
      var z :- Tail(b[3]);
      var c :- Scalar((((b[0] as int - 0xF0) * 64 + x) * 64 + y) * 64 + z, 0x10000);
      Some((c, 4))
    else None
  }

  function Decode(b: Bytes): Option<string>
    decreases |b|
  {
    if b == [] then Some("")
    else
      var first :- DecodeFirst(b);
      if first.1 > |b| then None
      else
        var rest :- Decode(b[first.1..]);
        Some([first.0] + rest)
  }

  lemma Base64Digits(n: int)
    requires 0 <= n
    ensures n == n / 64 * 64 + n % 64 && n / 64 == n / 4096 * 64 + n / 64 % 64
              && n / 4096 == n / 262144 * 64 + n / 4096 % 64
  {
    assert n / 4096 == n / 64 / 64;
    assert n / 262144 == n / 4096 / 64;
  }

  lemma ShortRoundTrip(c: char, rest: Bytes)
    requires (c as int) < 0x800
    ensures DecodeFirst(EncodeChar(c) + rest) == Some((c, |EncodeChar(c)|))
  {
    Base64Digits(c as int);
  }

  lemma ThreeRoundTrip(c: char, rest: Bytes)
    requires 0x800 <= (c as int) < 0x10000
    ensures DecodeFirst(EncodeChar(c) + rest) == Some((c, 3))
  {
    Base64Digits(c as int);
  }

  lemma FourRoundTrip(c: char, rest: Bytes)
    requires 0x10000 <= (c as int)
    ensures DecodeFirst(EncodeChar(c) + rest) == Some((c, 4))
  {
    Base64Digits(c as int);
  }

  lemma FirstRoundTrip(c: char, rest: Bytes)
    ensures DecodeFirst(EncodeChar(c) + rest) == Some((c, |EncodeChar(c)|))
  {
    if (c as int) < 0x800 {
      ShortRoundTrip(c, rest);
    } else if (c as int) < 0x10000 {
      ThreeRoundTrip(c, rest);
    } else {
      FourRoundTrip(c, rest);
    }
  }

  /** Strict decoding gives back exactly what was encoded. */
  lemma {:induction false} RoundTrip(s: string)
    ensures Decode(Encode(s)) == Some(s)
  {
    if s != "" {
      RoundTrip(s[1..]);
      FirstRoundTrip(s[0], Encode(s[1..]));
      var first := EncodeChar(s[0]);
      assert (first + Encode(s[1..]))[|first|..] == Encode(s[1..]);
      assert s == [s[0]] + s[1..];
    }
  }

  lemma EncodeInjective(a: string, b: string)
    requires Encode(a) == Encode(b)
    ensures a == b
  {
    RoundTrip(a);
    RoundTrip(b);
  }

  // ---------------------------------------------------- fixed-width integers

  function Pow256(k: nat): nat {
    if k == 0 then 1 else 256 * Pow256(k - 1)
  }

  /** `n.to_bytes(k, "big")`. */
  function BigEndian(n: nat, k: nat): (b: Bytes)
    ensures |b| == k
  {
    if k == 0 then [] else BigEndian(n / 256, k - 1) + [(n % 256) as byte]
  }

  function FromBigEndian(b: Bytes): nat {
    if b == [] then 0 else FromBigEndian(b[..|b| - 1]) * 256 + b[|b| - 1] as int
  }

  lemma {:induction false} BigEndianRoundTrip(n: nat, k: nat)
    requires n < Pow256(k)
    ensures FromBigEndian(BigEndian(n, k)) == n
  {
    if k > 0 {
      BigEndianRoundTrip(n / 256, k - 1);
      assert BigEndian(n, k)[..k - 1] == BigEndian(n / 256, k - 1);
    }
  }
}
