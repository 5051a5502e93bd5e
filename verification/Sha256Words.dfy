/** Words and bytes of SHA-256: byte order, and the functions of section 4.1.2 of FIPS 180-4 bit by bit. */
module Sha256Words {
  import opened Sha256

  /** Reading a stored word gives the word. */
  lemma LoadStored(w: bv32)
    ensures |StoreBe(w)| == 4 && LoadBe(StoreBe(w), 0) == w
  {
  }

  /** Storing a read word gives its bytes. */
  lemma StoreLoaded(b: seq<bv8>, at: nat)
    requires at + 4 <= |b|
    ensures StoreBe(LoadBe(b, at)) == b[at..at + 4]
  {
    assert b[at..at + 4] == [b[at], b[at + 1], b[at + 2], b[at + 3]];
  }

  lemma {:induction false} DigestLength(h: seq<bv32>)
    ensures |DigestBytes(h)| == 4 * |h|
  {
    if h != [] {
      DigestLength(h[..|h| - 1]);
    }
  }

  /** Word `i` of a hash value is bytes `4i` to `4i + 3` of the digest. */
  lemma {:induction false} DigestAt(h: seq<bv32>, i: nat)
    requires i < |h|
    ensures |DigestBytes(h)| == 4 * |h| && DigestBytes(h)[4 * i..4 * i + 4] == StoreBe(h[i])
  {
    hide StoreBe;
    var n := |h| - 1;
    LoadStored(h[n]);
    if i < n {
      DigestAt(h[..n], i);
      assert DigestBytes(h)[4 * i..4 * i + 4] == DigestBytes(h[..n])[4 * i..4 * i + 4];
    } else {
      DigestLength(h[..n]);
    }
  }

  /** Bit `i` of a word. */
  predicate On(x: bv32, i: bv6)
    requires i < 32
  {
    (x >> i) & 1 == 1
  }

  predicate Odd(a: bool, b: bool, c: bool) { (a != b) != c }

  lemma XorBits(a: bv32, b: bv32, c: bv32, i: bv6)
    requires i < 32
    ensures On(a ^ b ^ c, i) <==> Odd(On(a, i), On(b, i), On(c, i))
  {
  }

  /** Rotating right, by any of the amounts there are, brings bit `i + n`, counted around, to place `i`. */
  lemma RotrBit(x: bv32, n: bv6, i: bv6)
    requires i < 32 && n in {2, 6, 7, 11, 13, 17, 18, 19, 22, 25}
    ensures On(Rotr(x, n), i) <==> On(x, (i + n) & 31)
  {
    if n == 2 {
    } else if n == 6 {
    } else if n == 7 {
    } else if n == 11 {
    } else if n == 13 {
    } else if n == 17 {
    } else if n == 18 {
    } else if n == 19 {
    } else if n == 22 {
    } else {
    }
  }

  /** Shifting brings zeros in from the left. */
  lemma ShrBit(x: bv32, n: bv6, i: bv6)
    requires i < 32 && n in {3, 10}
    ensures On(Shr(x, n), i) <==> i + n < 32 && On(x, (i + n) & 31)
  {
    if n == 3 {
    } else {
    }
  }

  /** Each bit of the four sums is the parity of three bits of the word. */
  lemma BigSigma0Bits(x: bv32, i: bv6)
    requires i < 32
    ensures On(BigSigma0(x), i) <==> Odd(On(x, (i + 2) & 31), On(x, (i + 13) & 31), On(x, (i + 22) & 31))
  {
    hide Rotr, On;
    RotrBit(x, 2, i);
    RotrBit(x, 13, i);
    RotrBit(x, 22, i);
    XorBits(Rotr(x, 2), Rotr(x, 13), Rotr(x, 22), i);
  }

  lemma BigSigma1Bits(x: bv32, i: bv6)
    requires i < 32
    ensures On(BigSigma1(x), i) <==> Odd(On(x, (i + 6) & 31), On(x, (i + 11) & 31), On(x, (i + 25) & 31))
  {
    hide Rotr, On;
    RotrBit(x, 6, i);
    RotrBit(x, 11, i);
    RotrBit(x, 25, i);
    XorBits(Rotr(x, 6), Rotr(x, 11), Rotr(x, 25), i);
  }

  lemma SmallSigma0Bits(x: bv32, i: bv6)
    requires i < 32
    ensures On(SmallSigma0(x), i) <==> Odd(On(x, (i + 7) & 31), On(x, (i + 18) & 31), i + 3 < 32 && On(x, (i + 3) & 31))
  {
    hide Rotr, Shr, On;
    RotrBit(x, 7, i);
    RotrBit(x, 18, i);
    ShrBit(x, 3, i);
    XorBits(Rotr(x, 7), Rotr(x, 18), Shr(x, 3), i);
  }

  lemma SmallSigma1Bits(x: bv32, i: bv6)
    requires i < 32
    ensures On(SmallSigma1(x), i) <==> Odd(On(x, (i + 17) & 31), On(x, (i + 19) & 31), i + 10 < 32 && On(x, (i + 10) & 31))
  {
    hide Rotr, Shr, On;
    RotrBit(x, 17, i);
    RotrBit(x, 19, i);
    ShrBit(x, 10, i);
    XorBits(Rotr(x, 17), Rotr(x, 19), Shr(x, 10), i);
  }

  /** Choice is the second operand where the first has ones and the third where it has zeros. */
  lemma Chooses(x: bv32, y: bv32, z: bv32)
    ensures Ch(x, y, z) & x == y & x && Ch(x, y, z) & !x == z & !x
  {
  }

  /** Majority has a one exactly where two of its operands have. */
  lemma IsMajority(x: bv32, y: bv32, z: bv32)
    ensures Maj(x, y, z) == (x & y) | (x & z) | (y & z)
  {
  }
}
