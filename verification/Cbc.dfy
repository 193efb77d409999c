/**
 The cryptographic suite of media encryption as function values, and cipher block chaining
 (section 6.2 of NIST SP 800-38A) with PKCS#7 padding (section 6.3 of RFC 5652) over it.
 */
module Cbc {
  import opened Bytes

  const BLOCK: nat := 16

  /**
   `expand` is HKDF-SHA256 to 112 bytes, `hmac` HMAC-SHA256 of the concatenated updates,
   `seal` and `open` AES-256 on one block; the first argument is the key.
   */
  datatype Suite = Suite(
    expand: (bytes, string) -> bytes,
    seal: (bytes, bytes) -> bytes,
    open: (bytes, bytes) -> bytes,
    hmac: (bytes, bytes) -> bytes,
    sha256: bytes -> bytes)

  ghost predicate Sized(s: Suite) {
    && (forall k, b :: |b| == BLOCK ==> |s.seal(k, b)| == BLOCK)
    && (forall k, b :: |b| == BLOCK ==> |s.open(k, b)| == BLOCK)
    && (forall k, m :: |s.hmac(k, m)| == 32)
    && (forall k, i :: |s.expand(k, i)| == 112)
  }

  /** A block cipher is a permutation of the blocks for every key. */
  ghost predicate Sound(s: Suite) {
    && Sized(s)
    && (forall k, b :: |b| == BLOCK ==> s.open(k, s.seal(k, b)) == b)
    && (forall k, b :: |b| == BLOCK ==> s.seal(k, s.open(k, b)) == b)
  }

  function SameBlock(key: bytes, block: bytes): bytes {
    block
  }

  function Zeros(n: nat): (r: bytes)
    ensures |r| == n
  {
    seq(n, i => 0)
  }

  /** The laws can be met. */
  lemma LawfulSuite() returns (s: Suite)
    ensures Sound(s)
  {
    s := Suite((k, i) => Zeros(112), SameBlock, SameBlock, (k, m) => Zeros(32), m => Zeros(32));
  }

  // ----- exclusive or -----

  function Power2(bits: nat): nat {
    if bits == 0 then 1 else 2 * Power2(bits - 1)
  }

  function XorBits(a: nat, b: nat, bits: nat): (r: nat)
    ensures r < Power2(bits)
  {
    if bits == 0 then 0
    else (if a % 2 == b % 2 then 0 else 1) + 2 * XorBits(a / 2, b / 2, bits - 1)
  }

  lemma BitAndRest(bit: nat, rest: nat)
    requires bit < 2
    ensures (bit + 2 * rest) % 2 == bit && (bit + 2 * rest) / 2 == rest
  {
  }

  lemma {:induction false} XorBitsTwice(a: nat, b: nat, bits: nat)
    requires a < Power2(bits)
    ensures XorBits(XorBits(a, b, bits), b, bits) == a
  {
    if bits == 0 {
    } else {
      XorBitsTwice(a / 2, b / 2, bits - 1);
      BitAndRest(if a % 2 == b % 2 then 0 else 1, XorBits(a / 2, b / 2, bits - 1));
    }
  }

  lemma PowerEight()
    ensures Power2(8) == 256
  {
    assert Power2(4) == 16;
  }

  function Xor(a: byte, b: byte): byte {
    PowerEight();
    XorBits(a, b, 8)
  }

  /** Bit `i` of a number, the lowest being bit 0. */
  function Bit(x: nat, i: nat): nat {
    if i == 0 then x % 2 else Bit(x / 2, i - 1)
  }

  lemma {:induction false} XorBitsMeaning(a: nat, b: nat, bits: nat, i: nat)
    requires i < bits
    ensures Bit(XorBits(a, b, bits), i) == if Bit(a, i) == Bit(b, i) then 0 else 1
    decreases i
  {
    BitAndRest(if a % 2 == b % 2 then 0 else 1, XorBits(a / 2, b / 2, bits - 1));
    if i == 0 {
    } else {
      XorBitsMeaning(a / 2, b / 2, bits - 1, i - 1);
    }
  }

  /** Each bit is set exactly when it is set in one of the two bytes. */
  lemma XorMeaning(a: byte, b: byte, i: nat)
    requires i < 8
    ensures Bit(Xor(a, b), i) == if Bit(a, i) == Bit(b, i) then 0 else 1
  {
    XorBitsMeaning(a, b, 8, i);
  }

  function XorBlock(a: bytes, b: bytes): (r: bytes)
    requires |a| == |b| == BLOCK
    ensures |r| == BLOCK
  {
    seq(BLOCK, i requires 0 <= i < BLOCK => Xor(a[i], b[i]))
  }

  /** Byte by byte and bit by bit. */
  lemma XorBlockMeaning(a: bytes, b: bytes, i: nat, bit: nat)
    requires |a| == |b| == 16 && i < 16 && bit < 8
    ensures Bit(XorBlock(a, b)[i], bit) == if Bit(a[i], bit) == Bit(b[i], bit) then 0 else 1
  {
    XorMeaning(a[i], b[i], bit);
  }

  /** Exclusive or with the same block twice gives the block back. */
  lemma XorTwice(a: bytes, b: bytes)
    requires |a| == |b| == BLOCK
    ensures XorBlock(XorBlock(a, b), b) == a
  {
    PowerEight();
    forall i | 0 <= i < BLOCK ensures XorBlock(XorBlock(a, b), b)[i] == a[i] {
      XorBitsTwice(a[i], b[i], 8);
    }
  }

  // ----- padding -----

  function Repeat(n: nat): bytes
    requires n < 256
  {
    seq(n, _ => n)
  }

  function Pad(p: bytes): (q: bytes)
    ensures |q| % BLOCK == 0 && |q| > |p|
  {
    p + Repeat(BLOCK - |p| % BLOCK)
  }

  /** Padding fills the last block, or adds one, with bytes that say how many there are. */
  lemma PadMeaning(p: bytes)
    ensures Pad(p)[..|p|] == p && |p| < |Pad(p)| <= |p| + 16 && |Pad(p)| % 16 == 0
    ensures forall i :: |p| <= i < |Pad(p)| ==> Pad(p)[i] == |Pad(p)| - |p|
  {
  }

  function Unpad(q: bytes): Option<bytes> {
    if q == [] then None
    else
      var n := q[|q| - 1];
      if n == 0 || n > BLOCK || n > |q| then None
      else if q[|q| - n..] != Repeat(n) then None
      else Some(q[..|q| - n])
  }

  /** On whole blocks, unpadding accepts exactly the padded strings. */
  lemma UnpadExact(q: bytes, p: bytes)
    requires |q| % BLOCK == 0
    ensures Unpad(q) == Some(p) <==> q == Pad(p)
  {
    var n := BLOCK - |p| % BLOCK;
    if q == Pad(p) {
      SplitSum(p, Repeat(n));
      assert q[|q| - 1] == n;
    }
    if Unpad(q) == Some(p) {
      var k := q[|q| - 1];
      SplitAt(q, |q| - k);
      assert |p| + k == |q|;
      PadLength(|p|, k);
    }
  }

  lemma PadLength(len: nat, k: nat)
    requires 1 <= k <= BLOCK && (len + k) % BLOCK == 0
    ensures k == BLOCK - len % BLOCK
  {
  }

  // ----- chaining -----

  function Encrypt(s: Suite, key: bytes, prev: bytes, p: bytes): (c: bytes)
    requires |prev| == BLOCK && |p| % BLOCK == 0 && Sized(s)
    ensures |c| == |p|
    decreases |p|
  {
    if p == [] then []
    else
      var b := s.seal(key, XorBlock(p[..BLOCK], prev));
      b + Encrypt(s, key, b, p[BLOCK..])
  }

  function Decrypt(s: Suite, key: bytes, prev: bytes, c: bytes): (p: bytes)
    requires |prev| == BLOCK && |c| % BLOCK == 0 && Sized(s)
    ensures |p| == |c|
    decreases |c|
  {
    if c == [] then []
    else XorBlock(s.open(key, c[..BLOCK]), prev) + Decrypt(s, key, c[..BLOCK], c[BLOCK..])
  }

  /** Block `j` of a byte string. */
  function Block(s: bytes, j: nat): bytes
    requires 16 * j + 16 <= |s|
  {
    s[16 * j..16 * j + 16]
  }

  lemma BlockOfSum(b: bytes, rest: bytes, j: nat)
    requires |b| == 16 && 1 <= j && 16 * j <= |rest|
    ensures Block(b + rest, j) == Block(rest, j - 1)
  {
  }

  lemma BlockOfTail(p: bytes, j: nat)
    requires 1 <= j && 16 * j + 16 <= |p|
    ensures Block(p[16..], j - 1) == Block(p, j)
  {
  }

  /** Each ciphertext block is the sealed exclusive or of its plaintext block and the block before. */
  lemma {:induction false} EncryptMeaning(s: Suite, key: bytes, prev: bytes, p: bytes, j: nat)
    requires |prev| == 16 && |p| % 16 == 0 && Sized(s) && 16 * j + 16 <= |p|
    ensures var c := Encrypt(s, key, prev, p);
      Block(c, j) == s.seal(key, XorBlock(Block(p, j), if j == 0 then prev else Block(c, j - 1)))
    decreases j
  {
    var b := s.seal(key, XorBlock(p[..BLOCK], prev));
    var rest := Encrypt(s, key, b, p[BLOCK..]);
    if j == 0 {
      assert Block(b + rest, 0) == b && Block(p, 0) == p[..BLOCK];
    } else {
      EncryptMeaning(s, key, b, p[BLOCK..], j - 1);
      BlockOfSum(b, rest, j);
      BlockOfTail(p, j);
      if j == 1 {
        assert Block(b + rest, 0) == b;
      } else {
        BlockOfSum(b, rest, j - 1);
      }
    }
  }

  /** Each plaintext block is the opened ciphertext block, exclusive or the ciphertext block before. */
  lemma {:induction false} DecryptMeaning(s: Suite, key: bytes, prev: bytes, c: bytes, j: nat)
    requires |prev| == 16 && |c| % 16 == 0 && Sized(s) && 16 * j + 16 <= |c|
    ensures Block(Decrypt(s, key, prev, c), j)
         == XorBlock(s.open(key, Block(c, j)), if j == 0 then prev else Block(c, j - 1))
    decreases j
  {
    var b := XorBlock(s.open(key, c[..BLOCK]), prev);
    var rest := Decrypt(s, key, c[..BLOCK], c[BLOCK..]);
    if j == 0 {
      assert Block(b + rest, 0) == b && Block(c, 0) == c[..BLOCK];
    } else {
      DecryptMeaning(s, key, c[..BLOCK], c[BLOCK..], j - 1);
      BlockOfSum(b, rest, j);
      BlockOfTail(c, j);
      if j == 1 {
        assert Block(c, 0) == c[..BLOCK];
      } else {
        BlockOfTail(c, j - 1);
      }
    }
  }

  /** The block that chains into what follows `c`. */
  function Last(prev: bytes, c: bytes): (b: bytes)
    requires |prev| == BLOCK && |c| % BLOCK == 0
    ensures |b| == BLOCK
    decreases |c|
  {
    if c == [] then prev else Last(c[..BLOCK], c[BLOCK..])
  }

  lemma {:induction false} DecryptEncrypt(s: Suite, key: bytes, prev: bytes, p: bytes)
    requires |prev| == BLOCK && |p| % BLOCK == 0 && Sound(s)
    ensures Decrypt(s, key, prev, Encrypt(s, key, prev, p)) == p
    decreases |p|
  {
    if p == [] {
    } else {
      var x := XorBlock(p[..BLOCK], prev);
      var b := s.seal(key, x);
      SplitSum(b, Encrypt(s, key, b, p[BLOCK..]));
      XorTwice(p[..BLOCK], prev);
      DecryptEncrypt(s, key, b, p[BLOCK..]);
      SplitAt(p, BLOCK);
    }
  }

  lemma {:induction false} EncryptDecrypt(s: Suite, key: bytes, prev: bytes, c: bytes)
    requires |prev| == BLOCK && |c| % BLOCK == 0 && Sound(s)
    ensures Encrypt(s, key, prev, Decrypt(s, key, prev, c)) == c
    decreases |c|
  {
    if c == [] {
    } else {
      var x := s.open(key, c[..BLOCK]);
      var p := XorBlock(x, prev);
      SplitSum(p, Decrypt(s, key, c[..BLOCK], c[BLOCK..]));
      XorTwice(x, prev);
      EncryptDecrypt(s, key, c[..BLOCK], c[BLOCK..]);
      SplitAt(c, BLOCK);
    }
  }

  /** Decryption may stop at any block boundary and resume from the block before it. */
  lemma {:induction false} DecryptSplit(s: Suite, key: bytes, prev: bytes, a: bytes, b: bytes)
    requires |prev| == BLOCK && |a| % BLOCK == 0 && |b| % BLOCK == 0 && Sized(s)
    ensures Decrypt(s, key, prev, a + b) == Decrypt(s, key, prev, a) + Decrypt(s, key, Last(prev, a), b)
    ensures Last(prev, a + b) == Last(Last(prev, a), b)
    decreases |a|
  {
    if a == [] {
      Nil(b);
      Nil(Decrypt(s, key, prev, b));
    } else {
      TakeOfSum(a, b, BLOCK);
      DecryptSplit(s, key, a[..BLOCK], a[BLOCK..], b);
      Assoc(XorBlock(s.open(key, a[..BLOCK]), prev), Decrypt(s, key, a[..BLOCK], a[BLOCK..]),
            Decrypt(s, key, Last(prev, a), b));
    }
  }

  // ----- the last loop of the streaming decryption -----

  /** Every block combined with one and the same previous block. */
  function Frozen(s: Suite, key: bytes, prev: bytes, c: bytes): (p: bytes)
    requires |prev| == BLOCK && |c| % BLOCK == 0 && Sized(s)
    ensures |p| == |c|
    decreases |c|
  {
    if c == [] then []
    else XorBlock(s.open(key, c[..BLOCK]), prev) + Frozen(s, key, prev, c[BLOCK..])
  }

  /** Whether each block is preceded by `prev`, given that the first is preceded by `q`. */
  predicate AllPreceded(prev: bytes, q: bytes, c: bytes)
    requires |c| % BLOCK == 0
    decreases |c|
  {
    c == [] || (q == prev && AllPreceded(prev, c[..BLOCK], c[BLOCK..]))
  }

  lemma XorCancels(a: bytes, x: bytes, y: bytes)
    requires |a| == |x| == |y| == BLOCK && XorBlock(a, x) == XorBlock(a, y)
    ensures x == y
  {
    XorCommutes(a, x);
    XorCommutes(a, y);
    XorTwice(x, a);
    XorTwice(y, a);
  }

  lemma {:induction false} XorBitsCommutes(a: nat, b: nat, bits: nat)
    ensures XorBits(a, b, bits) == XorBits(b, a, bits)
  {
    if bits == 0 {
    } else {
      XorBitsCommutes(a / 2, b / 2, bits - 1);
    }
  }

  lemma XorCommutes(a: bytes, b: bytes)
    requires |a| == |b| == BLOCK
    ensures XorBlock(a, b) == XorBlock(b, a)
  {
    forall i | 0 <= i < BLOCK ensures XorBlock(a, b)[i] == XorBlock(b, a)[i] {
      XorBitsCommutes(a[i], b[i], 8);
    }
  }

  /** Freezing the previous block gives chained decryption exactly when it never had to move. */
  lemma {:induction false} FrozenExact(s: Suite, key: bytes, prev: bytes, q: bytes, c: bytes)
    requires |prev| == |q| == BLOCK && |c| % BLOCK == 0 && Sized(s)
    ensures Frozen(s, key, prev, c) == Decrypt(s, key, q, c) <==> AllPreceded(prev, q, c)
    decreases |c|
  {
    if c == [] {
    } else {
      var b, rest := c[..BLOCK], c[BLOCK..];
      var x := s.open(key, b);
      FrozenExact(s, key, prev, b, rest);
      SplitSum(XorBlock(x, prev), Frozen(s, key, prev, rest));
      SplitSum(XorBlock(x, q), Decrypt(s, key, b, rest));
      if XorBlock(x, prev) == XorBlock(x, q) {
        XorCancels(x, prev, q);
      }
    }
  }
}
