/**
 * The record encryption: AES-256 in CBC mode with PKCS#7 padding, the blob
 * laid out as the 16-byte IV followed by the ciphertext. The key is the
 * SHA-256 digest of the configured secret, here a 32-byte parameter; the
 * block function is a keyed permutation standing in for AES (only its
 * invertibility is relied on).
 */
module Cipher {
  import opened Wrappers
  import opened Bytes

  const BlockSize: nat := 16

  type Key = k: bytes | |k| == 32 witness seq(32, i => 0 as byte)

  function Pow2(n: nat): (r: nat)
    ensures r >= 1
  {
    if n == 0 then 1 else 2 * Pow2(n - 1)
  }

  /** Exclusive or of the low `n` bits of `a` and `b`, one bit at a time. */
  function XorBits(a: nat, b: nat, n: nat): (r: nat)
    ensures r < Pow2(n)
    decreases n
  {
    if n == 0 then 0
    else (if a % 2 == b % 2 then 0 else 1) + 2 * XorBits(a / 2, b / 2, n - 1)
  }

  /** Xor-ing twice with the same bits gives the original back. */
  lemma {:induction false} XorBitsTwice(a: nat, b: nat, n: nat)
    requires a < Pow2(n)
    ensures XorBits(XorBits(a, b, n), b, n) == a
    decreases n
  {
    if n > 0 {
      var low := if a % 2 == b % 2 then 0 else 1;
      var high := XorBits(a / 2, b / 2, n - 1);
      var x := XorBits(a, b, n);
      assert x == low + 2 * high;
      assert x % 2 == low && x / 2 == high;
      XorBitsTwice(a / 2, b / 2, n - 1);
      assert XorBits(x, b, n) == (if low == b % 2 then 0 else 1) + 2 * XorBits(high, b / 2, n - 1);
    }
  }

  /** Bytewise exclusive or. */
  function XorByte(a: byte, b: byte): byte {
    assert Pow2(8) == 256;
    XorBits(a as nat, b as nat, 8) as byte
  }

  lemma XorByteTwice(a: byte, b: byte)
    ensures XorByte(XorByte(a, b), b) == a
  {
    assert Pow2(8) == 256;
    XorBitsTwice(a as nat, b as nat, 8);
  }

  function Xor(a: bytes, b: bytes): (r: bytes)
    requires |a| == |b|
    ensures |r| == |a|
  {
    seq(|a|, i requires 0 <= i < |a| => XorByte(a[i], b[i]))
  }

  lemma XorTwice(a: bytes, b: bytes)
    requires |a| == |b|
    ensures Xor(Xor(a, b), b) == a
  {
    forall i | 0 <= i < |a| ensures Xor(Xor(a, b), b)[i] == a[i] {
      XorByteTwice(a[i], b[i]);
    }
  }

  // ---------------------------------------------------------------------------
  // Block function

  function EncryptBlock(key: Key, b: bytes): (r: bytes)
    requires |b| == BlockSize
    ensures |r| == BlockSize
  {
    Xor(Xor(b, key[..16]), key[16..])
  }

  function DecryptBlock(key: Key, b: bytes): (r: bytes)
    requires |b| == BlockSize
    ensures |r| == BlockSize
  {
    Xor(Xor(b, key[16..]), key[..16])
  }

  lemma DecryptEncryptBlock(key: Key, b: bytes)
    requires |b| == BlockSize
    ensures DecryptBlock(key, EncryptBlock(key, b)) == b
  {
    XorTwice(Xor(b, key[..16]), key[16..]);
    XorTwice(b, key[..16]);
  }

  // ---------------------------------------------------------------------------
  // CBC chaining

  function CbcEncrypt(key: Key, iv: bytes, p: bytes): (r: bytes)
    requires |iv| == BlockSize && |p| % BlockSize == 0
    ensures |r| == |p|
    decreases |p|
  {
    if p == [] then []
    else
      var c := EncryptBlock(key, Xor(p[..BlockSize], iv));
      c + CbcEncrypt(key, c, p[BlockSize..])
  }

  function CbcDecrypt(key: Key, iv: bytes, c: bytes): (r: bytes)
    requires |iv| == BlockSize && |c| % BlockSize == 0
    ensures |r| == |c|
    decreases |c|
  {
    if c == [] then []
    else Xor(DecryptBlock(key, c[..BlockSize]), iv) + CbcDecrypt(key, c[..BlockSize], c[BlockSize..])
  }

  lemma {:induction false} CbcDecryptEncrypt(key: Key, iv: bytes, p: bytes)
    requires |iv| == BlockSize && |p| % BlockSize == 0
    ensures CbcDecrypt(key, iv, CbcEncrypt(key, iv, p)) == p
    decreases |p|
  {
    if p != [] {
      var x := Xor(p[..BlockSize], iv);
      var c := EncryptBlock(key, x);
      var cs := CbcEncrypt(key, iv, p);
      assert cs == c + CbcEncrypt(key, c, p[BlockSize..]);
      assert cs[..BlockSize] == c && cs[BlockSize..] == CbcEncrypt(key, c, p[BlockSize..]);
      DecryptEncryptBlock(key, x);
      XorTwice(p[..BlockSize], iv);
      CbcDecryptEncrypt(key, c, p[BlockSize..]);
      assert p[..BlockSize] + p[BlockSize..] == p;
    }
  }

  // ---------------------------------------------------------------------------
  // PKCS#7 padding

  /** Appends `n` bytes of value `n`, 1 <= n <= 16, to reach a whole number of blocks. */
  function Pad(p: bytes): (r: bytes)
    ensures |r| % BlockSize == 0 && |p| < |r| <= |p| + BlockSize
    ensures r[..|p|] == p
  {
    var n := BlockSize - |p| % BlockSize;
    p + seq(n, i => n as byte)
  }

  /** Removes the padding; `None` when the last byte is not a valid length or
      the bytes it covers do not all equal it. */
  function Unpad(p: bytes): (r: Option<bytes>)
    ensures r.Some? ==> |p| - BlockSize <= |r.value| < |p| && r.value == p[..|r.value|]
  {
    if |p| == 0 then None
    else
      var n := p[|p| - 1] as nat;
      if n == 0 || n > BlockSize || n > |p| then None
      else if exists i :: |p| - n <= i < |p| && p[i] as nat != n then None
      else Some(p[..|p| - n])
  }

  lemma UnpadPad(p: bytes)
    ensures Unpad(Pad(p)) == Some(p)
  {
    var q := Pad(p);
    var n := BlockSize - |p| % BlockSize;
    assert q[|q| - 1] as nat == n;
    assert forall i :: |q| - n <= i < |q| ==> q[i] as nat == n;
  }

  // ---------------------------------------------------------------------------
  // The stored blob

  /** `iv || AES-CBC(key, iv, PKCS#7(p))`, for a fresh random `iv`. */
  function Encrypt(key: Key, iv: bytes, p: bytes): (r: bytes)
    requires |iv| == BlockSize
    ensures |r| >= BlockSize && r[..BlockSize] == iv
    ensures (|r| - BlockSize) % BlockSize == 0 && |p| + BlockSize < |r| <= |p| + 2 * BlockSize
  {
    iv + CbcEncrypt(key, iv, Pad(p))
  }

  /** Splits off the IV and decrypts the rest; `None` where the decipher
      throws: an IV shorter than 16 bytes, a ciphertext that is empty or not a
      whole number of blocks, or bad padding. */
  function Decrypt(key: Key, blob: bytes): (r: Option<bytes>)
    ensures r.Some? ==> |blob| >= 2 * BlockSize && (|blob| - BlockSize) % BlockSize == 0
    ensures r.Some? ==> |r.value| < |blob| - BlockSize
  {
    if |blob| < BlockSize then None
    else
      var iv, body := blob[..BlockSize], blob[BlockSize..];
      if |body| == 0 || |body| % BlockSize != 0 then None
      else Unpad(CbcDecrypt(key, iv, body))
  }

  /** Decrypting a blob with the key it was made with gives the plaintext back. */
  lemma DecryptEncrypt(key: Key, iv: bytes, p: bytes)
    requires |iv| == BlockSize
    ensures Decrypt(key, Encrypt(key, iv, p)) == Some(p)
  {
    var blob := Encrypt(key, iv, p);
    assert blob[BlockSize..] == CbcEncrypt(key, iv, Pad(p));
    CbcDecryptEncrypt(key, iv, Pad(p));
    UnpadPad(p);
  }

  /** Two encryptions under different IVs never give the same blob. */
  lemma EncryptDistinctIvs(key: Key, iv1: bytes, iv2: bytes, p1: bytes, p2: bytes)
    requires |iv1| == BlockSize && |iv2| == BlockSize && iv1 != iv2
    ensures Encrypt(key, iv1, p1) != Encrypt(key, iv2, p2)
  {
  }
}
