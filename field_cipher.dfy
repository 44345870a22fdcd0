/** Field-level encryption of lib/encryption_utils.py: a field is stored as the
    base64 text of a random 16-byte IV followed by the AES-CBC encryption of the
    PKCS#7-padded UTF-8 bytes of its value. Decryption re-pads base64 text whose
    trailing `=` were stripped and, on any failure, hands the (re-padded) text
    back as if it were a legacy plaintext value. The IV (`os.urandom(16)`) and
    the keyed cipher are parameters. */
module FieldCipher {
  import opened Wrappers
  import opened Bytes
  import Base64
  import Utf8
  import Pkcs7
  import Cbc

  /** The `missing_padding` step: append `4 - len % 4` copies of `=` when the
      length is not a multiple of four. */
  function RePad(s: string): (r: string)
    ensures |r| % 4 == 0
    ensures |s| <= |r| < |s| + 4
    ensures r[..|s|] == s
    ensures forall i :: |s| <= i < |r| ==> r[i] == '='
    ensures |s| % 4 == 0 <==> r == s
  {
    if |s| % 4 == 0 then s else s + seq(4 - |s| % 4, i => '=')
  }

  /** The bytes `encrypt_field` encodes: the IV, then the ciphertext. */
  function Sealed(c: Cbc.BlockCipher, iv: Block, plain: string): (raw: seq<Byte>)
    ensures |raw| >= 2 * BLOCK_SIZE && |raw| % BLOCK_SIZE == 0
    ensures raw[..BLOCK_SIZE] == iv
    ensures |raw| - BLOCK_SIZE - BLOCK_SIZE < |Utf8.Encode(plain)| + 1 <= |raw| - BLOCK_SIZE
  {
    var ct := Cbc.Encrypt(c, iv, Pkcs7.Pad(Utf8.Encode(plain)));
    assert (iv + ct)[..BLOCK_SIZE] == iv;
    iv + ct
  }

  /** `encrypt_field(plain_text)` with `iv` for the random IV: the base64 text
      of a 16-byte IV and a ciphertext of at least one block, whose length is a
      multiple of four (so re-padding leaves it alone). */
  function EncryptField(c: Cbc.BlockCipher, iv: Block, plain: string): (r: string)
    ensures Base64.Decode(r) == Some(Sealed(c, iv, plain))
    ensures |r| % 4 == 0 && |r| >= 44 && RePad(r) == r
  {
    var raw := Sealed(c, iv, plain);
    EncodedSealed(raw);
    Base64.Encode(raw)
  }

  /** The base64 text of two blocks or more decodes back, is at least 44
      characters long and needs no re-padding. */
  lemma EncodedSealed(raw: seq<Byte>)
    requires |raw| >= 2 * BLOCK_SIZE
    ensures Base64.Decode(Base64.Encode(raw)) == Some(raw)
    ensures |Base64.Encode(raw)| % 4 == 0 && |Base64.Encode(raw)| >= 44
    ensures RePad(Base64.Encode(raw)) == Base64.Encode(raw)
  {
    Base64.DecodeEncode(raw);
    EncodedLength(|raw|);
  }

  /** Two blocks or more encode to at least 44 characters. */
  lemma EncodedLength(n: nat)
    requires n >= 2 * BLOCK_SIZE
    ensures 4 * ((n + 2) / 3) >= 44
  {
  }

  /** Why `decrypt_field` fell back to its input. */
  datatype Fault = NotBase64 | TooShort | Unaligned | BadPadding | NotUtf8

  /** The steps of `decrypt_field` after base64 decoding: split off the IV,
      decrypt, unpad and decode UTF-8, or name the first step that raises. */
  function Unseal(c: Cbc.BlockCipher, raw: seq<Byte>): (r: Result<string, Fault>)
    ensures r == Failure(TooShort) <==> |raw| < BLOCK_SIZE
    ensures r == Failure(Unaligned) <==> |raw| >= BLOCK_SIZE && |raw| % BLOCK_SIZE != 0
    ensures r.Success? ==>
      && |raw| >= 2 * BLOCK_SIZE && |raw| % BLOCK_SIZE == 0
      && var data := Pkcs7.Unpad(Cbc.Decrypt(c, raw[..BLOCK_SIZE], raw[BLOCK_SIZE..]));
         data.Some? && Utf8.Decode(data.value) == Some(r.value)
  {
    if |raw| < BLOCK_SIZE then Failure(TooShort)
    else
      var iv: Block := raw[..BLOCK_SIZE];
      var ct := raw[BLOCK_SIZE..];
      if |ct| % BLOCK_SIZE != 0 then Failure(Unaligned)
      else match Pkcs7.Unpad(Cbc.Decrypt(c, iv, ct))
        case None => Failure(BadPadding)
        case Some(data) =>
          match Utf8.Decode(data)
          case None => Failure(NotUtf8)
          case Some(text) => Success(text)
  }

  /** The `try` block of `decrypt_field` after re-padding: text that is not
      base64 fails first, anything else is unsealed. */
  function Open(c: Cbc.BlockCipher, padded: string): (r: Result<string, Fault>)
    ensures r == Failure(NotBase64) <==> Base64.Decode(padded).None?
    ensures Base64.Decode(padded).Some? ==> r == Unseal(c, Base64.Decode(padded).value)
  {
    match Base64.Decode(padded)
    case None => Failure(NotBase64)
    case Some(raw) => Unseal(c, raw)
  }

  /** `decrypt_field(enc_text)`, as written: it never raises, and every failure
      returns `enc_text` as reassigned by the re-padding step. */
  function DecryptField(c: Cbc.BlockCipher, text: string): (r: string)
    ensures Open(c, RePad(text)).Failure? <==> r == RePad(text) && Open(c, RePad(text)) != Success(RePad(text))
    ensures Open(c, RePad(text)).Success? ==> r == Open(c, RePad(text)).value
  {
    var padded := RePad(text);
    match Open(c, padded)
    case Success(plain) => plain
    case Failure(_) => padded
  }

  /** With a cipher whose deciphering undoes its enciphering, a stored field
      decrypts to the value that was encrypted. */
  lemma DecryptEncrypt(c: Cbc.BlockCipher, iv: Block, plain: string)
    requires Cbc.Inverse(c)
    ensures DecryptField(c, EncryptField(c, iv, plain)) == plain
  {
    var data := Utf8.Encode(plain);
    var ct := Cbc.Encrypt(c, iv, Pkcs7.Pad(data));
    var raw := Sealed(c, iv, plain);
    assert raw[BLOCK_SIZE..] == ct;
    Cbc.DecryptEncrypt(c, iv, Pkcs7.Pad(data));
    Pkcs7.UnpadPad(data);
    Utf8.DecodeEncode(plain);
  }

  /** Two encryptions under different IVs never produce the same text. */
  lemma DistinctIvs(c: Cbc.BlockCipher, iv1: Block, iv2: Block, p1: string, p2: string)
    requires iv1 != iv2
    ensures EncryptField(c, iv1, p1) != EncryptField(c, iv2, p2)
  {
  }

  /** Text of at most 20 characters re-pads to at most 20, which decodes to at
      most 15 bytes: too short for an IV, so it comes back re-padded. */
  lemma ShortTextFallsBack(c: Cbc.BlockCipher, text: string)
    requires |text| <= 20
    ensures Open(c, RePad(text)).Failure?
    ensures DecryptField(c, text) == RePad(text)
  {
    var padded := RePad(text);
    assert |padded| <= 20;
  }

  /** A three-letter legacy plaintext such as a first name comes back with a
      `=` appended. */
  lemma LegacyNameGainsPadding(c: Cbc.BlockCipher)
    ensures DecryptField(c, "Ali") == "Ali="
  {
    ShortTextFallsBack(c, "Ali");
  }

  /** `decrypt_field` as its fallback message intends ("treating as
      plaintext"): a failure returns the caller's text unchanged. */
  function DecryptFieldOrPlain(c: Cbc.BlockCipher, text: string): (r: string)
    ensures Open(c, RePad(text)).Failure? ==> r == text
    ensures Open(c, RePad(text)).Success? ==> r == Open(c, RePad(text)).value
  {
    match Open(c, RePad(text))
    case Success(plain) => plain
    case Failure(_) => text
  }

  /** The intended fallback keeps the round trip and leaves short legacy
      plaintext exactly as stored. */
  lemma PlainStaysPlain(c: Cbc.BlockCipher, iv: Block, plain: string, legacy: string)
    requires Cbc.Inverse(c)
    requires |legacy| <= 20
    ensures DecryptFieldOrPlain(c, EncryptField(c, iv, plain)) == plain
    ensures DecryptFieldOrPlain(c, legacy) == legacy
  {
    DecryptEncrypt(c, iv, plain);
    ShortTextFallsBack(c, legacy);
  }
}
