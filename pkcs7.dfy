/** PKCS#7 padding to the AES block (section 6.3 of RFC 5652), as
    `Crypto.Util.Padding.pad` and `unpad` apply it with `block_size = 16`. */
module Pkcs7 {
  import opened Wrappers
  import opened Bytes

  /** `pad(data, 16)`: append `n` copies of the byte `n`, where `n` (1 to 16)
      brings the length to the next multiple of 16; a full block is added to data
      that already fills its blocks. */
  function Pad(data: seq<Byte>): (r: seq<Byte>)
    ensures |r| % BLOCK_SIZE == 0
    ensures |data| < |r| <= |data| + BLOCK_SIZE
    ensures r[..|data|] == data
    ensures forall i :: |data| <= i < |r| ==> r[i] == |r| - |data|
  {
    var n := BLOCK_SIZE - |data| % BLOCK_SIZE;
    data + seq(n, i => n)
  }

  /** `unpad(data, 16)`: `None` where it raises `ValueError` — empty input, a
      length that is not a multiple of 16, a last byte outside 1..16, or trailing
      bytes that are not all equal to it. */
  function Unpad(data: seq<Byte>): (r: Option<seq<Byte>>)
    ensures r.Some? ==>
      && |data| > 0 && |data| % BLOCK_SIZE == 0
      && |data| - BLOCK_SIZE <= |r.value| < |data|
      && r.value == data[..|r.value|]
  {
    if |data| == 0 || |data| % BLOCK_SIZE != 0 then None
    else
      var n := data[|data| - 1];
      if n < 1 || n > BLOCK_SIZE then None
      else if data[|data| - n..] != seq(n, i => n) then None
      else Some(data[..|data| - n])
  }

  /** Padding is undone by unpadding. */
  lemma UnpadPad(data: seq<Byte>)
    ensures Unpad(Pad(data)) == Some(data)
  {
    var p := Pad(data);
    var n := |p| - |data|;
    assert p[|p| - 1] == n;
    assert p[|p| - n..] == seq(n, i => n);
    assert p[..|p| - n] == data;
  }
}
