/** UTF-8 as `str.encode()` and strict `bytes.decode()` apply it (RFC 3629):
    every Unicode scalar value has one encoding of one to four bytes, and the
    decoder refuses stray continuation bytes, overlong forms, surrogates and
    values above U+10FFFF. */
module Utf8 {
  import opened Wrappers
  import opened Bytes

  /** The encoding of one character. */
  function EncodeChar(c: char): (r: seq<Byte>)
    ensures 1 <= |r| <= 4
  {
    var n := c as int;
    if n < 0x80 then [n]
    else if n < 0x800 then [0xC0 + n / 64, 0x80 + n % 64]
    else if n < 0x10000 then [0xE0 + n / 4096, 0x80 + (n / 64) % 64, 0x80 + n % 64]
    else [0xF0 + n / 262144, 0x80 + (n / 4096) % 64, 0x80 + (n / 64) % 64, 0x80 + n % 64]
  }

  /** `s.encode()` */
  function Encode(s: string): (r: seq<Byte>)
    ensures |r| >= |s|
  {
    if s == [] then [] else EncodeChar(s[0]) + Encode(s[1..])
  }

  predicate IsContinuation(b: Byte) {
    0x80 <= b < 0xC0
  }

  /** The six payload bits of a continuation byte. */
  function Low6(b: Byte): int {
    b as int - 0x80
  }

  /** Decodes the character at the front of `bs`, giving it and the number of
      bytes it took, or `None` if the front of `bs` is not a valid encoding. */
  function DecodeChar(bs: seq<Byte>): (r: Option<(char, nat)>)
    ensures r.Some? ==> 1 <= r.value.1 <= |bs|
  {
    if |bs| == 0 then None
    else
      var b0: int := bs[0];
      if b0 < 0x80 then Some((b0 as char, 1))
      else if 0xC2 <= b0 < 0xE0 then
        if |bs| >= 2 && IsContinuation(bs[1]) then
          Some((((b0 - 0xC0) * 64 + Low6(bs[1])) as char, 2))
        else None
      else if 0xE0 <= b0 < 0xF0 then
        if |bs| >= 3 && IsContinuation(bs[1]) && IsContinuation(bs[2]) then
          var n := (b0 - 0xE0) * 4096 + Low6(bs[1]) * 64 + Low6(bs[2]);
          if n < 0x800 || 0xD800 <= n < 0xE000 then None else Some((n as char, 3))
        else None
      else if 0xF0 <= b0 < 0xF5 then
        if |bs| >= 4 && IsContinuation(bs[1]) && IsContinuation(bs[2]) && IsContinuation(bs[3]) then
          var n := (b0 - 0xF0) * 262144 + Low6(bs[1]) * 4096 + Low6(bs[2]) * 64 + Low6(bs[3]);
          if n < 0x10000 || n >= 0x110000 then None else Some((n as char, 4))
        else None
      else None
  }

  /** `bs.decode()`: `None` where Python raises `UnicodeDecodeError`. */
  function Decode(bs: seq<Byte>): Option<string>
    decreases |bs|
  {
    if bs == [] then Some([])
    else match DecodeChar(bs)
      case None => None
      case Some((c, k)) =>
        match Decode(bs[k..])
        case None => None
        case Some(rest) => Some([c] + rest)
  }

  /** Two six-bit digits and the rest rebuild a number. */
  lemma SixBitDigits(n: nat)
    ensures (n / 64) * 64 + n % 64 == n
    ensures (n / 4096) * 4096 + ((n / 64) % 64) * 64 + n % 64 == n
    ensures (n / 262144) * 262144 + ((n / 4096) % 64) * 4096 + ((n / 64) % 64) * 64 + n % 64 == n
  {
    assert n / 64 / 64 == n / 4096;
    assert n / 4096 / 64 == n / 262144;
    assert (n / 64) == (n / 64 / 64) * 64 + (n / 64) % 64;
    assert (n / 4096) == (n / 4096 / 64) * 64 + (n / 4096) % 64;
  }

  /** The decoder reads back exactly the bytes the encoder wrote for a character,
      whatever follows them. */
  lemma DecodeEncodeChar(c: char, rest: seq<Byte>)
    ensures DecodeChar(EncodeChar(c) + rest) == Some((c, |EncodeChar(c)|))
  {
    var n := c as int;
    var bs := EncodeChar(c) + rest;
    SixBitDigits(n);
    if n < 0x80 {
    } else if n < 0x800 {
      assert bs[0] as int - 0xC0 == n / 64 && Low6(bs[1]) == n % 64;
    } else if n < 0x10000 {
      assert bs[0] as int - 0xE0 == n / 4096 && Low6(bs[1]) == (n / 64) % 64 && Low6(bs[2]) == n % 64;
    } else {
      assert bs[0] as int - 0xF0 == n / 262144 && Low6(bs[1]) == (n / 4096) % 64;
      assert Low6(bs[2]) == (n / 64) % 64 && Low6(bs[3]) == n % 64;
    }
  }

  /** Decoding an encoding gives the text back: `s.encode().decode() == s`. */
  lemma {:induction false} DecodeEncode(s: string)
    ensures Decode(Encode(s)) == Some(s)
  {
    if s != [] {
      var head := EncodeChar(s[0]);
      var tail := Encode(s[1..]);
      DecodeEncodeChar(s[0], tail);
      assert (head + tail)[|head|..] == tail;
      DecodeEncode(s[1..]);
      assert [s[0]] + s[1..] == s;
    }
  }
}
