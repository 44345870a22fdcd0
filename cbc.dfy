/** Cipher block chaining (section 6.2 of NIST SP 800-38A) over an abstract
    block cipher, as `AES.new(key, AES.MODE_CBC, iv)` applies it: each plaintext
    block is XORed with the previous ciphertext block (the IV for the first)
    before it is enciphered. */
module Cbc {
  import opened Bytes

  /** AES-128/192/256 under the process-wide key: a permutation of blocks and
      its inverse. */
  datatype BlockCipher = BlockCipher(encipher: Block -> Block, decipher: Block -> Block)

  /** The deciphering function undoes the enciphering one. */
  ghost predicate Inverse(c: BlockCipher) {
    forall b: Block :: c.decipher(c.encipher(b)) == b
  }

  /** `cipher.encrypt(data)` for data whose length is a multiple of 16. */
  function Encrypt(c: BlockCipher, iv: Block, data: seq<Byte>): (r: seq<Byte>)
    requires |data| % BLOCK_SIZE == 0
    ensures |r| == |data|
    decreases |data|
  {
    if data == [] then []
    else
      var block := c.encipher(XorBlock(data[..BLOCK_SIZE], iv));
      block + Encrypt(c, block, data[BLOCK_SIZE..])
  }

  /** `cipher.decrypt(data)` for data whose length is a multiple of 16 (any
      other length raises `ValueError`). */
  function Decrypt(c: BlockCipher, iv: Block, data: seq<Byte>): (r: seq<Byte>)
    requires |data| % BLOCK_SIZE == 0
    ensures |r| == |data|
    decreases |data|
  {
    if data == [] then []
    else
      var block: Block := data[..BLOCK_SIZE];
      XorBlock(c.decipher(block), iv) + Decrypt(c, block, data[BLOCK_SIZE..])
  }

  /** With the same key and IV, decryption undoes encryption. */
  lemma {:induction false} DecryptEncrypt(c: BlockCipher, iv: Block, data: seq<Byte>)
    requires Inverse(c)
    requires |data| % BLOCK_SIZE == 0
    ensures Decrypt(c, iv, Encrypt(c, iv, data)) == data
    decreases |data|
  {
    if data != [] {
      var first: Block := data[..BLOCK_SIZE];
      var block := c.encipher(XorBlock(first, iv));
      var rest := Encrypt(c, block, data[BLOCK_SIZE..]);
      var ct: seq<Byte> := block + rest;
      assert Encrypt(c, iv, data) == ct;
      assert ct[..BLOCK_SIZE] == block && ct[BLOCK_SIZE..] == rest;
      XorBlockTwice(first, iv);
      DecryptEncrypt(c, block, data[BLOCK_SIZE..]);
      assert data == first + data[BLOCK_SIZE..];
    }
  }
}
