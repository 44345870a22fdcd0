/** Base64 with the standard alphabet and `=` padding (section 4 of RFC 4648),
    as `base64.b64encode` writes it and a strict decoder reads it. */
module Base64 {
  import opened Wrappers
  import opened Bytes

  /** The character of a six-bit value: A-Z, a-z, 0-9, '+', '/'. */
  function CharOf(v: int): (c: char)
    requires 0 <= v < 64
    ensures c != '='
  {
    if v < 26 then ('A' as int + v) as char
    else if v < 52 then ('a' as int + v - 26) as char
    else if v < 62 then ('0' as int + v - 52) as char
    else if v == 62 then '+'
    else '/'
  }

  /** The six-bit value of an alphabet character, or `None` for any other. */
  function ValueOf(c: char): (r: Option<int>)
    ensures r.Some? ==> 0 <= r.value < 64 && CharOf(r.value) == c
  {
    if 'A' <= c <= 'Z' then Some(c as int - 'A' as int)
    else if 'a' <= c <= 'z' then Some(c as int - 'a' as int + 26)
    else if '0' <= c <= '9' then Some(c as int - '0' as int + 52)
    else if c == '+' then Some(62)
    else if c == '/' then Some(63)
    else None
  }

  lemma ValueOfChar(v: int)
    requires 0 <= v < 64
    ensures ValueOf(CharOf(v)) == Some(v)
  {
  }

  /** The four characters of a full group of three bytes. */
  function Quad(b0: Byte, b1: Byte, b2: Byte): (r: string)
    ensures |r| == 4 && '=' !in r
  {
    [CharOf(b0 / 4), CharOf((b0 % 4) * 16 + b1 / 16), CharOf((b1 % 16) * 4 + b2 / 64), CharOf(b2 % 64)]
  }

  /** `base64.b64encode(bs).decode()`: four characters for every three bytes
      started, the last group padded with `=`. */
  function Encode(bs: seq<Byte>): (r: string)
    ensures |r| == 4 * ((|bs| + 2) / 3)
    decreases |bs|
  {
    if |bs| == 0 then ""
    else if |bs| == 1 then [CharOf(bs[0] / 4), CharOf((bs[0] % 4) * 16), '=', '=']
    else if |bs| == 2 then [CharOf(bs[0] / 4), CharOf((bs[0] % 4) * 16 + bs[1] / 16), CharOf((bs[1] % 16) * 4), '=']
    else Quad(bs[0], bs[1], bs[2]) + Encode(bs[3..])
  }

  /** Decodes text whose length is a multiple of four, made of alphabet
      characters, with `==` or `=` allowed only to close the last group; any other
      text gives `None`. Unused low bits of a padded group are ignored, as
      Python's decoder ignores them. */
  function Decode(s: string): (r: Option<seq<Byte>>)
    ensures r.Some? ==> |s| % 4 == 0 && 3 * (|s| / 4) - 2 <= |r.value| <= 3 * (|s| / 4)
    decreases |s|
  {
    if |s| == 0 then Some([])
    else if |s| < 4 then None
    else
      var v0, v1 := ValueOf(s[0]), ValueOf(s[1]);
      if v0.None? || v1.None? then None
      else if |s| == 4 && s[2] == '=' && s[3] == '=' then
        Some([v0.value * 4 + v1.value / 16])
      else
        var v2 := ValueOf(s[2]);
        if v2.None? then None
        else if |s| == 4 && s[3] == '=' then
          Some([v0.value * 4 + v1.value / 16, (v1.value % 16) * 16 + v2.value / 4])
        else
          var v3 := ValueOf(s[3]);
          if v3.None? then None
          else match Decode(s[4..])
            case None => None
            case Some(rest) =>
              Some([v0.value * 4 + v1.value / 16, (v1.value % 16) * 16 + v2.value / 4, (v2.value % 4) * 64 + v3.value] + rest)
  }

  /** A group padded with `==` decodes to its one byte. */
  lemma DecodeLastOne(b0: Byte)
    ensures Decode(Encode([b0])) == Some([b0])
  {
    ValueOfChar(b0 / 4);
    ValueOfChar((b0 % 4) * 16);
  }

  /** A group padded with `=` decodes to its two bytes. */
  lemma DecodeLastTwo(b0: Byte, b1: Byte)
    ensures Decode(Encode([b0, b1])) == Some([b0, b1])
  {
    var v1 := (b0 % 4) * 16 + b1 / 16;
    var v2 := (b1 % 16) * 4;
    ValueOfChar(b0 / 4);
    ValueOfChar(v1);
    ValueOfChar(v2);
    assert v1 / 16 == b0 % 4 && v1 % 16 == b1 / 16;
    assert v2 / 4 == b1 % 16;
    var s := Encode([b0, b1]);
    assert s[2] != '=' && s[3] == '=';
  }

  /** A full group decodes to its three bytes, in front of whatever the rest
      of the text decodes to. */
  lemma DecodeQuad(b0: Byte, b1: Byte, b2: Byte, t: string, rest: seq<Byte>)
    requires Decode(t) == Some(rest)
    ensures Decode(Quad(b0, b1, b2) + t) == Some([b0, b1, b2] + rest)
  {
    var v1 := (b0 % 4) * 16 + b1 / 16;
    var v2 := (b1 % 16) * 4 + b2 / 64;
    ValueOfChar(b0 / 4);
    ValueOfChar(v1);
    ValueOfChar(v2);
    ValueOfChar(b2 % 64);
    assert v1 / 16 == b0 % 4 && v1 % 16 == b1 / 16;
    assert v2 / 4 == b1 % 16 && v2 % 4 == b2 / 64;
    var s := Quad(b0, b1, b2) + t;
    assert s[4..] == t;
    assert s[2] != '=' && s[3] != '=';
    assert |s| == 4 ==> t == [];
  }

  /** One full group in front of a tail that round-trips. */
  lemma DecodeEncodeStep(bs: seq<Byte>)
    requires |bs| >= 3 && Decode(Encode(bs[3..])) == Some(bs[3..])
    ensures Decode(Encode(bs)) == Some(bs)
  {
    var t := Encode(bs[3..]);
    EncodeStep(bs);
    DecodeQuad(bs[0], bs[1], bs[2], t, bs[3..]);
    SplitThree(bs);
  }

  lemma EncodeStep(bs: seq<Byte>)
    requires |bs| >= 3
    ensures Encode(bs) == Quad(bs[0], bs[1], bs[2]) + Encode(bs[3..])
  {
  }

  lemma SplitThree(bs: seq<Byte>)
    requires |bs| >= 3
    ensures bs == [bs[0], bs[1], bs[2]] + bs[3..]
  {
  }

  /** Decoding an encoding gives the bytes back. */
  lemma {:induction false} DecodeEncode(bs: seq<Byte>)
    ensures Decode(Encode(bs)) == Some(bs)
    decreases |bs|
  {
    if |bs| == 1 {
      assert bs == [bs[0]];
      DecodeLastOne(bs[0]);
    } else if |bs| == 2 {
      assert bs == [bs[0], bs[1]];
      DecodeLastTwo(bs[0], bs[1]);
    } else if |bs| >= 3 {
      DecodeEncode(bs[3..]);
      DecodeEncodeStep(bs);
    }
  }

  /** Different byte strings have different encodings. */
  lemma EncodeInjective(a: seq<Byte>, b: seq<Byte>)
    requires Encode(a) == Encode(b)
    ensures a == b
  {
    DecodeEncode(a);
    DecodeEncode(b);
  }
}
