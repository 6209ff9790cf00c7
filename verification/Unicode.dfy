/** UTF-16 strings as JavaScript holds them, and their UTF-8 bytes (section 3 of RFC 3629). */
module Unicode {

  type Unit = u: nat | u < 0x1_0000

  type Byte = b: nat | b < 0x100

  /** A Unicode scalar value: a code point that is not a surrogate. */
  type Scalar = c: nat | c < 0xD800 || 0xE000 <= c < 0x11_0000

  const REPLACEMENT: Scalar := 0xFFFD

  // ---------------------------------------------------------------------------------------------
  // UTF-16

  function Units(c: Scalar): (r: seq<Unit>)
    ensures 1 <= |r| <= 2
  {
    if c < 0x1_0000 then [c]
    else [0xD800 + (c - 0x1_0000) / 0x400, 0xDC00 + (c - 0x1_0000) % 0x400]
  }

  function Utf16(cs: seq<Scalar>): seq<Unit> {
    if cs == [] then [] else Units(cs[0]) + Utf16(cs[1..])
  }

  predicate IsHigh(u: Unit) { 0xD800 <= u < 0xDC00 }

  predicate IsLow(u: Unit) { 0xDC00 <= u < 0xE000 }

  function Joined(high: int, low: int): int { 0x1_0000 + (high - 0xD800) * 0x400 + (low - 0xDC00) }

  /** The scalars of any string: a lone surrogate reads as the replacement character. */
  function Scalars(s: seq<Unit>): seq<Scalar> {
    if s == [] then []
    else if IsHigh(s[0]) && |s| > 1 && IsLow(s[1]) then
      [Joined(s[0], s[1])] + Scalars(s[2..])
    else if IsHigh(s[0]) || IsLow(s[0]) then [REPLACEMENT] + Scalars(s[1..])
    else [s[0]] + Scalars(s[1..])
  }

  /** Well-formed text is read back from its units. */
  lemma {:induction false} Utf16RoundTrip(cs: seq<Scalar>)
    ensures Scalars(Utf16(cs)) == cs
  {
    if cs != [] {
      Utf16RoundTrip(cs[1..]);
    }
  }

  lemma {:induction false} Utf16Concat(a: seq<Scalar>, b: seq<Scalar>)
    ensures Utf16(a + b) == Utf16(a) + Utf16(b)
  {
    if a == [] {
      assert a + b == b;
    } else {
      assert (a + b)[1..] == a[1..] + b;
      Utf16Concat(a[1..], b);
    }
  }

  // ---------------------------------------------------------------------------------------------
  // UTF-8

  function Bytes(c: Scalar): (r: seq<Byte>)
    ensures |Units(c)| <= |r| <= 4
  {
    if c < 0x80 then [c]
    else if c < 0x800 then [0xC0 + c / 0x40, 0x80 + c % 0x40]
    else if c < 0x1_0000 then [0xE0 + c / 0x1000, 0x80 + c / 0x40 % 0x40, 0x80 + c % 0x40]
    else [0xF0 + c / 0x4_0000, 0x80 + c / 0x1000 % 0x40, 0x80 + c / 0x40 % 0x40, 0x80 + c % 0x40]
  }

  function Utf8(cs: seq<Scalar>): seq<Byte> {
    if cs == [] then [] else Bytes(cs[0]) + Utf8(cs[1..])
  }

  predicate IsContinuation(b: Byte) { 0x80 <= b < 0xC0 }

  predicate IsScalar(c: nat) { c < 0xD800 || 0xE000 <= c < 0x11_0000 }

  function Two(a: int, b: int): int { (a - 0xC0) * 0x40 + (b - 0x80) }

  function Three(a: int, b: int, c: int): int { (a - 0xE0) * 0x1000 + (b - 0x80) * 0x40 + (c - 0x80) }

  function Four(a: int, b: int, c: int, d: int): int {
    (a - 0xF0) * 0x4_0000 + (b - 0x80) * 0x1000 + (c - 0x80) * 0x40 + (d - 0x80)
  }

  /** The scalar at the head of the bytes and its width; anything malformed reads as one replacement character. */
  function DecodeOne(b: seq<Byte>): (r: (Scalar, nat))
    requires b != []
    ensures 1 <= r.1 <= |b|
  {
    if b[0] < 0x80 then (b[0], 1)
    else if 0xC0 <= b[0] < 0xE0 && |b| > 1 && IsContinuation(b[1]) && 0x80 <= Two(b[0], b[1])
    then (Two(b[0], b[1]), 2)
    else if 0xE0 <= b[0] < 0xF0 && |b| > 2 && IsContinuation(b[1]) && IsContinuation(b[2]) &&
            0x800 <= Three(b[0], b[1], b[2]) && IsScalar(Three(b[0], b[1], b[2]))
    then (Three(b[0], b[1], b[2]), 3)
    else if 0xF0 <= b[0] < 0xF8 && |b| > 3 && IsContinuation(b[1]) && IsContinuation(b[2]) && IsContinuation(b[3]) &&
            0x1_0000 <= Four(b[0], b[1], b[2], b[3]) < 0x11_0000
    then (Four(b[0], b[1], b[2], b[3]), 4)
    else (REPLACEMENT, 1)
  }

  function Decode(b: seq<Byte>): seq<Scalar> {
    if b == [] then []
    else var (c, width) := DecodeOne(b); [c] + Decode(b[width..])
  }

  lemma DecodeFirst(c: Scalar, rest: seq<Byte>)
    ensures DecodeOne(Bytes(c) + rest) == (c, |Bytes(c)|)
  {
    var b := Bytes(c) + rest;
    assert forall i :: 0 <= i < |Bytes(c)| ==> b[i] == Bytes(c)[i];
    if c < 0x80 {
    } else if c < 0x800 {
      assert b[0] == 0xC0 + c / 0x40 && b[1] == 0x80 + c % 0x40;
    } else if c < 0x1_0000 {
      Digits3(c);
      assert b[0] == 0xE0 + c / 0x1000 && b[1] == 0x80 + c / 0x40 % 0x40 && b[2] == 0x80 + c % 0x40;
    } else {
      Digits4(c);
      assert b[0] == 0xF0 + c / 0x4_0000 && b[1] == 0x80 + c / 0x1000 % 0x40;
      assert b[2] == 0x80 + c / 0x40 % 0x40 && b[3] == 0x80 + c % 0x40;
    }
  }

  lemma Digits3(c: nat)
    ensures c / 0x1000 * 0x1000 + c / 0x40 % 0x40 * 0x40 + c % 0x40 == c
  {
    assert c / 0x40 / 0x40 == c / 0x1000;
  }

  lemma Digits4(c: nat)
    ensures c / 0x4_0000 * 0x4_0000 + c / 0x1000 % 0x40 * 0x1000 + c / 0x40 % 0x40 * 0x40 + c % 0x40 == c
  {
    Digits3(c);
    assert c / 0x1000 / 0x40 == c / 0x4_0000;
  }

  /** Decoding undoes encoding. */
  lemma {:induction false} Utf8RoundTrip(cs: seq<Scalar>)
    ensures Decode(Utf8(cs)) == cs
  {
    if cs != [] {
      var rest := Utf8(cs[1..]);
      DecodeFirst(cs[0], rest);
      assert Utf8(cs)[|Bytes(cs[0])|..] == rest;
      Utf8RoundTrip(cs[1..]);
      assert cs == [cs[0]] + cs[1..];
    }
  }
}
