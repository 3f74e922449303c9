/** Cipher feedback over 16-byte segments, as AesEncrypt and AesDecrypt of
    apiserver/utils/crypto.go use it.  The block cipher and the key derivation are
    arbitrary functions: only the feedback chain makes decryption undo encryption. */
module Cfb {
  import opened Wrappers

  const BLOCK_SIZE: nat := 16

  type Block = b: Bytes | |b| == 16 witness seq(16, _ => 0)

  type Key = k: Bytes | |k| == 32 witness seq(32, _ => 0)

  /** HMACAESTruncated with the constant {1}, and the AES block function under a key. */
  datatype Primitives = Primitives(derive: Bytes -> Key, aes: (Key, Block) -> Block)

  function Xor(a: Bytes, b: Bytes): (r: Bytes)
    requires |a| <= |b|
    ensures |r| == |a|
  {
    seq(|a|, i requires 0 <= i < |a| => a[i] ^ b[i])
  }

  // ---- Section 6.3 of NIST SP 800-38A, with a truncated last segment ----

  function Encrypt(cipher: Block -> Block, feedback: Block, plain: Bytes): (c: Bytes)
    ensures |c| == |plain|
    decreases |plain|
  {
    if |plain| <= BLOCK_SIZE then Xor(plain, cipher(feedback))
    else
      var c: Block := Xor(plain[..BLOCK_SIZE], cipher(feedback));
      c + Encrypt(cipher, c, plain[BLOCK_SIZE..])
  }

  function Decrypt(cipher: Block -> Block, feedback: Block, crypted: Bytes): (p: Bytes)
    ensures |p| == |crypted|
    decreases |crypted|
  {
    if |crypted| <= BLOCK_SIZE then Xor(crypted, cipher(feedback))
    else
      Xor(crypted[..BLOCK_SIZE], cipher(feedback))
      + Decrypt(cipher, crypted[..BLOCK_SIZE], crypted[BLOCK_SIZE..])
  }

  /** The input block of segment `j`: the initialisation vector for the first one, the
      ciphertext segment before it for the others. */
  function InputBlock(iv: Block, c: Bytes, j: nat): Block
    requires 16 * j <= |c|
  {
    if j == 0 then iv else c[16 * (j - 1)..16 * j]
  }

  lemma InputBlockShift(iv: Block, first: Block, rest: Bytes, j: nat)
    requires 1 <= j && 16 * j <= 16 + |rest|
    ensures InputBlock(iv, first + rest, j) == InputBlock(first, rest, j - 1)
  {
    assert (first + rest)[16 * (j - 1)..16 * j] == InputBlock(first, rest, j - 1);
  }

  /** The equations of section 6.3: byte `k` of ciphertext segment `j` is the plaintext byte
      masked with the encrypted input block of the segment. */
  lemma {:induction false} EncryptEquations(cipher: Block -> Block, iv: Block, plain: Bytes, j: nat, k: nat)
    requires k < 16 && 16 * j + k < |plain|
    ensures var c := Encrypt(cipher, iv, plain);
            c[16 * j + k] == plain[16 * j + k] ^ cipher(InputBlock(iv, c, j))[k]
    decreases j
  {
    EncryptFirst(cipher, iv, plain);
    hide Encrypt, Xor;
    if j > 0 {
      var first: Block := Xor(plain[..BLOCK_SIZE], cipher(iv));
      var rest := Encrypt(cipher, first, plain[BLOCK_SIZE..]);
      EncryptEquations(cipher, first, plain[BLOCK_SIZE..], j - 1, k);
      InputBlockShift(iv, first, rest, j);
      assert (first + rest)[16 * j + k] == rest[16 * (j - 1) + k];
    }
  }

  lemma EncryptFirst(cipher: Block -> Block, iv: Block, plain: Bytes)
    ensures forall k :: 0 <= k < 16 && k < |plain| ==> Encrypt(cipher, iv, plain)[k] == plain[k] ^ cipher(iv)[k]
    ensures |plain| > 16 ==>
              var first: Block := Xor(plain[..16], cipher(iv));
              Encrypt(cipher, iv, plain) == first + Encrypt(cipher, first, plain[16..])
  {
  }

  lemma {:induction false} DecryptEquations(cipher: Block -> Block, iv: Block, crypted: Bytes, j: nat, k: nat)
    requires k < 16 && 16 * j + k < |crypted|
    ensures Decrypt(cipher, iv, crypted)[16 * j + k]
         == crypted[16 * j + k] ^ cipher(InputBlock(iv, crypted, j))[k]
    decreases j
  {
    DecryptFirst(cipher, iv, crypted);
    hide Decrypt, Xor;
    if j > 0 {
      var first: Block, rest := crypted[..BLOCK_SIZE], crypted[BLOCK_SIZE..];
      assert crypted == first + rest;
      DecryptEquations(cipher, first, rest, j - 1, k);
      InputBlockShift(iv, first, rest, j);
      assert Decrypt(cipher, iv, crypted)[16 * j + k] == Decrypt(cipher, first, rest)[16 * (j - 1) + k];
    }
  }

  lemma DecryptFirst(cipher: Block -> Block, iv: Block, crypted: Bytes)
    ensures forall k :: 0 <= k < 16 && k < |crypted| ==> Decrypt(cipher, iv, crypted)[k] == crypted[k] ^ cipher(iv)[k]
    ensures |crypted| > 16 ==>
              var first: Block := crypted[..16];
              Decrypt(cipher, iv, crypted) == Xor(first, cipher(iv)) + Decrypt(cipher, first, crypted[16..])
  {
  }

  lemma XorTwice(a: Bytes, b: Bytes)
    requires |a| <= |b|
    ensures Xor(Xor(a, b), b) == a
  {
  }

  /** Decryption with the same block function and the same first feedback block inverts
      encryption, for every length, an empty text and a partial last segment included. */
  lemma {:induction false} DecryptEncrypt(cipher: Block -> Block, feedback: Block, plain: Bytes)
    ensures Decrypt(cipher, feedback, Encrypt(cipher, feedback, plain)) == plain
    decreases |plain|
  {
    if |plain| <= BLOCK_SIZE {
      XorTwice(plain, cipher(feedback));
    } else {
      var c: Block := Xor(plain[..BLOCK_SIZE], cipher(feedback));
      var rest := Encrypt(cipher, c, plain[BLOCK_SIZE..]);
      assert (c + rest)[..BLOCK_SIZE] == c && (c + rest)[BLOCK_SIZE..] == rest;
      XorTwice(plain[..BLOCK_SIZE], cipher(feedback));
      DecryptEncrypt(cipher, c, plain[BLOCK_SIZE..]);
    }
  }

  // ---- The stream that fills a buffer ----

  /** How many of `left` bytes the next segment takes. */
  function Segment(left: nat): nat { if left < BLOCK_SIZE then left else BLOCK_SIZE }

  function Transform(decrypt: bool, cipher: Block -> Block, feedback: Block, s: Bytes): (r: Bytes)
    ensures |r| == |s|
  {
    if decrypt then Decrypt(cipher, feedback, s) else Encrypt(cipher, feedback, s)
  }

  /** The feedback after a segment: the ciphertext block, which is input when decrypting and
      output when encrypting.  A short segment is the last one and leaves it alone. */
  function NextFeedback(decrypt: bool, feedback: Block, source: Bytes, output: Bytes): Block
    requires |source| == |output|
  {
    if |source| != BLOCK_SIZE then feedback else if decrypt then source else output
  }

  /** Both definitions, unrolled by one segment. */
  lemma TransformStep(decrypt: bool, cipher: Block -> Block, feedback: Block, s: Bytes)
    requires s != []
    ensures Transform(decrypt, cipher, feedback, s) ==
            var n := Segment(|s|);
            var x := Xor(s[..n], cipher(feedback));
            x + Transform(decrypt, cipher, NextFeedback(decrypt, feedback, s[..n], x), s[n..])
  {
  }

  /** Moving one segment of `src` at `i` from the rest to the part that is done. */
  lemma TransformAdvance(decrypt: bool, cipher: Block -> Block, feedback: Block, src: Bytes, i: nat, done: Bytes)
    requires i < |src|
    ensures done + Transform(decrypt, cipher, feedback, src[i..]) ==
            var n := Segment(|src| - i);
            var x := Xor(src[i..i + n], cipher(feedback));
            (done + x) + Transform(decrypt, cipher, NextFeedback(decrypt, feedback, src[i..i + n], x), src[i + n..])
  {
    hide Transform, NextFeedback;
    var n := Segment(|src| - i);
    assert src[i..][..n] == src[i..i + n] && src[i..][n..] == src[i + n..];
    TransformStep(decrypt, cipher, feedback, src[i..]);
  }

  /** cipher.NewCFBEncrypter and NewCFBDecrypter: a stream holding the feedback block.
      The source creates one for each message and drives it once. */
  class Stream {
    const cipher: Block -> Block
    const decrypt: bool
    var next: Block

    constructor (cipher: Block -> Block, iv: Block, decrypt: bool)
      ensures this.cipher == cipher && this.decrypt == decrypt && next == iv
    {
      this.cipher, this.decrypt, next := cipher, decrypt, iv;
    }

    /** XORKeyStream: one segment at a time. */
    method XorKeyStream(dst: array<bv8>, src: Bytes)
      requires dst.Length == |src|
      modifies this, dst
      ensures dst[..] == Transform(decrypt, cipher, old(next), src)
    {
      hide Transform, NextFeedback, Xor;
      ghost var goal := Transform(decrypt, cipher, next, src);
      var i := 0;
      while i < |src|
        invariant 0 <= i <= |src|
        invariant dst[..i] + Transform(decrypt, cipher, next, src[i..]) == goal
        decreases |src| - i
      {
        var n := Segment(|src| - i);
        ghost var done := dst[..i];
        TransformAdvance(decrypt, cipher, next, src, i, done);
        var x := Feed(dst, i, src[i..i + n]);
        assert dst[..i + n] == done + x;
        i := i + n;
      }
    }

    /** One segment: mask it into the buffer and keep the ciphertext as feedback. */
    method Feed(dst: array<bv8>, at: nat, segment: Bytes) returns (ghost x: Bytes)
      requires at + |segment| <= dst.Length && |segment| <= BLOCK_SIZE
      modifies this, dst
      ensures x == Xor(segment, cipher(old(next)))
      ensures next == NextFeedback(decrypt, old(next), segment, x)
      ensures dst[..at] == old(dst[..at]) && dst[at..at + |segment|] == x
    {
      var out := cipher(next);
      x := Xor(segment, out);
      Xors(dst, at, segment, out);
      assert dst[at..at + |segment|] == x;
      if |segment| == BLOCK_SIZE {
        next := if decrypt then segment else dst[at..at + BLOCK_SIZE];
      }
    }

    /** xorBytes into the buffer at an offset. */
    method Xors(dst: array<bv8>, at: nat, segment: Bytes, out: Bytes)
      requires at + |segment| <= dst.Length && |segment| <= |out|
      modifies dst
      ensures dst[..] == old(dst[..at]) + Xor(segment, out) + old(dst[at + |segment|..])
    {
      for k := 0 to |segment|
        invariant forall j :: 0 <= j < dst.Length && !(at <= j < at + k) ==> dst[j] == old(dst[j])
        invariant forall j :: 0 <= j < k ==> dst[at + j] == segment[j] ^ out[j]
      {
        dst[at + k] := segment[k] ^ out[k];
      }
    }
  }

  // ---- AesEncrypt and AesDecrypt ----

  /** The key and the first feedback block both come from the derived key, so equal keys
      give equal streams in both directions. */
  function SealBytes(p: Primitives, data: Bytes, key: Bytes): Bytes {
    var k := p.derive(key);
    Encrypt((b: Block) => p.aes(k, b), k[..BLOCK_SIZE], data)
  }

  function OpenBytes(p: Primitives, data: Bytes, key: Bytes): Bytes {
    var k := p.derive(key);
    Decrypt((b: Block) => p.aes(k, b), k[..BLOCK_SIZE], data)
  }

  method AesEncrypt(p: Primitives, origData: Bytes, key: Bytes) returns (encrypted: Bytes)
    ensures encrypted == SealBytes(p, origData, key)
  {
    var k := p.derive(key);
    var iv := k[..BLOCK_SIZE];
    var buffer := new bv8[|origData|];
    var encrypter := new Stream((b: Block) => p.aes(k, b), iv, false);
    encrypter.XorKeyStream(buffer, origData);
    encrypted := buffer[..];
  }

  method AesDecrypt(p: Primitives, crypted: Bytes, key: Bytes) returns (decrypted: Bytes)
    ensures decrypted == OpenBytes(p, crypted, key)
  {
    var k := p.derive(key);
    var iv := k[..BLOCK_SIZE];
    var buffer := new bv8[|crypted|];
    var decrypter := new Stream((b: Block) => p.aes(k, b), iv, true);
    decrypter.XorKeyStream(buffer, crypted);
    decrypted := buffer[..];
  }

  /** What AesEncrypt writes, in terms of the primitives: every segment is masked with the
      cipher under the derived key, the first one on that key's own first 16 bytes. */
  lemma SealEquations(p: Primitives, data: Bytes, key: Bytes, j: nat, k: nat)
    requires k < 16 && 16 * j + k < |data|
    ensures var c, derived := SealBytes(p, data, key), p.derive(key);
            |c| == |data|
            && c[16 * j + k] == data[16 * j + k] ^ p.aes(derived, InputBlock(derived[..16], c, j))[k]
  {
    var derived := p.derive(key);
    EncryptEquations((b: Block) => p.aes(derived, b), derived[..BLOCK_SIZE], data, j, k);
  }

  /** AesDecrypt undoes AesEncrypt under the same key, whatever the primitives are. */
  lemma OpenSeal(p: Primitives, data: Bytes, key: Bytes)
    ensures OpenBytes(p, SealBytes(p, data, key), key) == data
  {
    var k := p.derive(key);
    DecryptEncrypt((b: Block) => p.aes(k, b), k[..BLOCK_SIZE], data);
  }
}
