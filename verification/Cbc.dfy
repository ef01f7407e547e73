/** The cipher of the light SSL channel: an invertible block cipher in CBC mode (NIST SP 800-38A,
    section 6.2) and the padding of section 6.3 of RFC 5652. The block cipher itself is abstract. */
module Cbc {
  import opened Basics

  const BLOCK: nat := 16

  /** The block cipher under a fixed key. */
  datatype Cipher = Cipher(encrypt: seq<byte> -> seq<byte>, decrypt: seq<byte> -> seq<byte>)

  ghost predicate Invertible(c: Cipher) {
    forall b: seq<byte> :: |b| == BLOCK ==>
      |c.encrypt(b)| == BLOCK && |c.decrypt(b)| == BLOCK && c.decrypt(c.encrypt(b)) == b
  }

  // ---- Exclusive or --------------------------------------------------------------------------

  /** Bit by bit, over the lowest `n` bits. */
  function XorBits(a: nat, b: nat, n: nat): (r: nat)
    ensures r < Pow2(n)
    decreases n
  {
    if n == 0 then 0 else (a + b) % 2 + 2 * XorBits(a / 2, b / 2, n - 1)
  }

  function Xor(a: byte, b: byte): byte {
    assert Pow2(4) == 16 && Pow2(8) == 256;
    XorBits(a, b, 8)
  }

  lemma {:induction false} XorBitsTwice(a: nat, b: nat, n: nat)
    requires a < Pow2(n)
    ensures XorBits(XorBits(a, b, n), b, n) == a
    decreases n
  {
    if n == 0 {
    } else {
      var x := XorBits(a / 2, b / 2, n - 1);
      XorBitsTwice(a / 2, b / 2, n - 1);
      XorDigit(a, b, x);
    }
  }

  lemma XorDigit(a: nat, b: nat, x: nat)
    ensures var r := (a + b) % 2 + 2 * x; r / 2 == x && (r + b) % 2 == a % 2
  {
  }

  /** Binary digit `k` of a number. */
  function Digit(a: nat, k: nat): nat
    decreases k
  {
    if k == 0 then a % 2 else Digit(a / 2, k - 1)
  }

  lemma XorSplit(a: nat, b: nat, n: nat)
    requires n > 0
    ensures XorBits(a, b, n) % 2 == (a + b) % 2 && XorBits(a, b, n) / 2 == XorBits(a / 2, b / 2, n - 1)
  {
  }

  /** Every binary digit of the result is one exactly if those of the operands differ. */
  lemma {:induction false} XorBitsDigit(a: nat, b: nat, n: nat, k: nat)
    requires k < n
    ensures Digit(XorBits(a, b, n), k) == if Digit(a, k) != Digit(b, k) then 1 else 0
    decreases n
  {
    hide XorBits;
    XorSplit(a, b, n);
    if k == 0 {
    } else {
      XorBitsDigit(a / 2, b / 2, n - 1, k - 1);
    }
  }

  /** Exclusive or of bytes is that of their eight digits. */
  lemma XorIsBitwise(a: byte, b: byte, k: nat)
    requires k < 8
    ensures Digit(Xor(a, b), k) == if Digit(a, k) != Digit(b, k) then 1 else 0
  {
    XorBitsDigit(a, b, 8, k);
  }

  function XorBlock(a: seq<byte>, b: seq<byte>): (r: seq<byte>)
    requires |a| == |b|
    ensures |r| == |a|
  {
    seq(|a|, i requires 0 <= i < |a| => Xor(a[i], b[i]))
  }

  lemma XorBlockTwice(a: seq<byte>, b: seq<byte>)
    requires |a| == |b|
    ensures XorBlock(XorBlock(a, b), b) == a
  {
    assert Pow2(4) == 16 && Pow2(8) == 256;
    forall i | 0 <= i < |a|
      ensures Xor(Xor(a[i], b[i]), b[i]) == a[i]
    {
      XorBitsTwice(a[i], b[i], 8);
    }
  }

  // ---- Chaining ------------------------------------------------------------------------------

  predicate Whole(data: seq<byte>) {
    |data| % BLOCK == 0
  }

  function CbcEncrypt(c: Cipher, iv: seq<byte>, data: seq<byte>): (r: seq<byte>)
    requires Invertible(c) && |iv| == BLOCK && Whole(data)
    ensures |r| == |data|
    decreases |data|
  {
    if data == [] then []
    else
      var x := c.encrypt(XorBlock(data[..BLOCK], iv));
      x + CbcEncrypt(c, x, data[BLOCK..])
  }

  function CbcDecrypt(c: Cipher, iv: seq<byte>, data: seq<byte>): (r: seq<byte>)
    requires Invertible(c) && |iv| == BLOCK && Whole(data)
    ensures |r| == |data|
    decreases |data|
  {
    if data == [] then []
    else XorBlock(c.decrypt(data[..BLOCK]), iv) + CbcDecrypt(c, data[..BLOCK], data[BLOCK..])
  }

  /** Block `k` of some bytes. */
  function BlockAt(data: seq<byte>, k: nat): (r: seq<byte>)
    requires k * BLOCK + BLOCK <= |data|
    ensures |r| == BLOCK
  {
    data[k * BLOCK..k * BLOCK + BLOCK]
  }

  /** Section 6.2 of NIST SP 800-38A: each ciphertext block is the encryption of the plaintext block,
      exclusive-ored with the ciphertext block before it, and the first with the vector. */
  lemma {:induction false} CbcIsChained(c: Cipher, iv: seq<byte>, data: seq<byte>, k: nat)
    requires Invertible(c) && |iv| == BLOCK && Whole(data) && k * BLOCK + BLOCK <= |data|
    ensures var r := CbcEncrypt(c, iv, data);
            BlockAt(r, k) == c.encrypt(XorBlock(BlockAt(data, k), if k == 0 then iv else BlockAt(r, k - 1)))
    decreases k
  {
    hide XorBlock, BlockAt, Invertible, CbcEncrypt;
    FirstThenRest(c, iv, data);
    var first := data[..BLOCK];
    var x := c.encrypt(XorBlock(first, iv));
    var rest := CbcEncrypt(c, x, data[BLOCK..]);
    assert data == first + data[BLOCK..];
    if k == 0 {
      FirstBlock(x, rest);
      FirstBlock(first, data[BLOCK..]);
    } else {
      CbcIsChained(c, x, data[BLOCK..], k - 1);
      LaterBlock(x, rest, k);
      LaterBlock(first, data[BLOCK..], k);
      if k == 1 {
        FirstBlock(x, rest);
      } else {
        LaterBlock(x, rest, k - 1);
      }
    }
  }

  lemma FirstThenRest(c: Cipher, iv: seq<byte>, data: seq<byte>)
    requires Invertible(c) && |iv| == BLOCK && Whole(data) && data != []
    ensures var x := c.encrypt(XorBlock(data[..BLOCK], iv));
            |x| == BLOCK && Whole(data[BLOCK..]) && CbcEncrypt(c, iv, data) == x + CbcEncrypt(c, x, data[BLOCK..])
  {
    hide XorBlock;
  }

  lemma FirstBlock(x: seq<byte>, rest: seq<byte>)
    requires |x| == BLOCK
    ensures BlockAt(x + rest, 0) == x
  {
  }

  lemma LaterBlock(x: seq<byte>, rest: seq<byte>, k: nat)
    requires |x| == BLOCK && k > 0 && k * BLOCK <= |rest|
    ensures BlockAt(x + rest, k) == BlockAt(rest, k - 1)
  {
  }

  lemma {:induction false} CbcRoundTrip(c: Cipher, iv: seq<byte>, data: seq<byte>)
    requires Invertible(c) && |iv| == BLOCK && Whole(data)
    ensures CbcDecrypt(c, iv, CbcEncrypt(c, iv, data)) == data
    decreases |data|
  {
    hide XorBlock;
    if data == [] {
    } else {
      var first := XorBlock(data[..BLOCK], iv);
      var x := c.encrypt(first);
      var rest := CbcEncrypt(c, x, data[BLOCK..]);
      CbcRoundTrip(c, x, data[BLOCK..]);
      assert (x + rest)[..BLOCK] == x && (x + rest)[BLOCK..] == rest;
      XorBlockTwice(data[..BLOCK], iv);
    }
  }

  // ---- Padding -------------------------------------------------------------------------------

  /** The length of a message of `n` bytes with its padding, `(n & ~15) + 16`. */
  function Padded(n: nat): (r: nat)
    ensures n < r <= n + BLOCK && r % BLOCK == 0
  {
    n - n % BLOCK + BLOCK
  }

  function Padding(n: nat): (r: seq<byte>)
    ensures |r| == Padded(n) - n
  {
    var pad := Padded(n) - n;
    seq(pad, i requires 0 <= i < pad => pad)
  }

  function Pad(msg: seq<byte>): (r: seq<byte>)
    ensures |r| == Padded(|msg|) && Whole(r)
  {
    msg + Padding(|msg|)
  }

  /** The length left when the last byte says how much to take off; it takes off nothing that is not
      there. */
  function UnpaddedLength(data: seq<byte>): (r: nat)
    requires data != []
    ensures r <= |data|
  {
    if data[|data| - 1] <= |data| then |data| - data[|data| - 1] else 0
  }

  function Unpad(data: seq<byte>): seq<byte>
    requires data != []
  {
    data[..UnpaddedLength(data)]
  }

  /** Section 6.3 of RFC 5652: one to sixteen bytes are added, up to a whole number of blocks, and each of
      them is their number. */
  lemma PaddingCountsItself(msg: seq<byte>)
    ensures var p := Pad(msg);
            && |p| % 16 == 0 && |msg| < |p| <= |msg| + 16 && p[..|msg|] == msg
            && forall i :: |msg| <= i < |p| ==> p[i] == |p| - |msg|
  {
    var p := Pad(msg);
    forall i | |msg| <= i < |p| ensures p[i] == |p| - |msg| {
      assert p[i] == Padding(|msg|)[i - |msg|];
    }
  }

  lemma UnpadPad(msg: seq<byte>)
    ensures Unpad(Pad(msg)) == msg
  {
    var p := Pad(msg);
    assert p[|p| - 1] == Padding(|msg|)[|p| - 1 - |msg|];
  }
}
