/** Streaming SHA-256 against FIPS 180-4. */
module Sha256 {
  import opened Words

  const BLOCK_SIZE: nat := 64
  const MAX_INPUT_BYTES: nat := 0x1fff_ffff_ffff_ffff

  // ------------------------------------------------------------ Constants, sections 4.2.2 and 5.3.3

  /** The round constants. */
  function Constant(i: nat): Word
    requires i < 64
  {
    match i
    case 0 => 0x428a_2f98 case 1 => 0x7137_4491 case 2 => 0xb5c0_fbcf case 3 => 0xe9b5_dba5
    case 4 => 0x3956_c25b case 5 => 0x59f1_11f1 case 6 => 0x923f_82a4 case 7 => 0xab1c_5ed5
    case 8 => 0xd807_aa98 case 9 => 0x1283_5b01 case 10 => 0x2431_85be case 11 => 0x550c_7dc3
    case 12 => 0x72be_5d74 case 13 => 0x80de_b1fe case 14 => 0x9bdc_06a7 case 15 => 0xc19b_f174
    case 16 => 0xe49b_69c1 case 17 => 0xefbe_4786 case 18 => 0x0fc1_9dc6 case 19 => 0x240c_a1cc
    case 20 => 0x2de9_2c6f case 21 => 0x4a74_84aa case 22 => 0x5cb0_a9dc case 23 => 0x76f9_88da
    case 24 => 0x983e_5152 case 25 => 0xa831_c66d case 26 => 0xb003_27c8 case 27 => 0xbf59_7fc7
    case 28 => 0xc6e0_0bf3 case 29 => 0xd5a7_9147 case 30 => 0x06ca_6351 case 31 => 0x1429_2967
    case 32 => 0x27b7_0a85 case 33 => 0x2e1b_2138 case 34 => 0x4d2c_6dfc case 35 => 0x5338_0d13
    case 36 => 0x650a_7354 case 37 => 0x766a_0abb case 38 => 0x81c2_c92e case 39 => 0x9272_2c85
    case 40 => 0xa2bf_e8a1 case 41 => 0xa81a_664b case 42 => 0xc24b_8b70 case 43 => 0xc76c_51a3
    case 44 => 0xd192_e819 case 45 => 0xd699_0624 case 46 => 0xf40e_3585 case 47 => 0x106a_a070
    case 48 => 0x19a4_c116 case 49 => 0x1e37_6c08 case 50 => 0x2748_774c case 51 => 0x34b0_bcb5
    case 52 => 0x391c_0cb3 case 53 => 0x4ed8_aa4a case 54 => 0x5b9c_ca4f case 55 => 0x682e_6ff3
    case 56 => 0x748f_82ee case 57 => 0x78a5_636f case 58 => 0x84c8_7814 case 59 => 0x8cc7_0208
    case 60 => 0x90be_fffa case 61 => 0xa450_6ceb case 62 => 0xbef9_a3f7 case _ => 0xc671_78f2
  }

  /** The initial hash value. */
  function Initial(i: nat): Word
    requires i < 8
  {
    match i
    case 0 => 0x6a09_e667 case 1 => 0xbb67_ae85 case 2 => 0x3c6e_f372 case 3 => 0xa54f_f53a
    case 4 => 0x510e_527f case 5 => 0x9b05_688c case 6 => 0x1f83_d9ab case _ => 0x5be0_cd19
  }

  /** The first sixty-four primes. */
  function Prime(i: nat): nat
    requires i < 64
  {
    match i
    case 0 => 2 case 1 => 3 case 2 => 5 case 3 => 7
    case 4 => 11 case 5 => 13 case 6 => 17 case 7 => 19
    case 8 => 23 case 9 => 29 case 10 => 31 case 11 => 37
    case 12 => 41 case 13 => 43 case 14 => 47 case 15 => 53
    case 16 => 59 case 17 => 61 case 18 => 67 case 19 => 71
    case 20 => 73 case 21 => 79 case 22 => 83 case 23 => 89
    case 24 => 97 case 25 => 101 case 26 => 103 case 27 => 107
    case 28 => 109 case 29 => 113 case 30 => 127 case 31 => 131
    case 32 => 137 case 33 => 139 case 34 => 149 case 35 => 151
    case 36 => 157 case 37 => 163 case 38 => 167 case 39 => 173
    case 40 => 179 case 41 => 181 case 42 => 191 case 43 => 193
    case 44 => 197 case 45 => 199 case 46 => 211 case 47 => 223
    case 48 => 227 case 49 => 229 case 50 => 233 case 51 => 239
    case 52 => 241 case 53 => 251 case 54 => 257 case 55 => 263
    case 56 => 269 case 57 => 271 case 58 => 277 case 59 => 281
    case 60 => 283 case 61 => 293 case 62 => 307 case _ => 311
  }

  /** Integer part of the cube root of a small number. */
  function CubeFloor(p: nat): nat {
    if p < 8 then 1 else if p < 27 then 2 else if p < 64 then 3 else if p < 125 then 4 else if p < 216 then 5 else 6
  }

  function Cube(x: int): int { x * x * x }

  /** `k` is the first thirty-two bits of the fractional part of the cube root of `p`. */
  predicate CubeRootBits(p: nat, k: Word) {
    var c := CubeFloor(p) * 0x1_0000_0000 + k;
    Cube(c) <= p * 0x1_0000_0000_0000_0000_0000_0000 < Cube(c + 1)
  }

  function SquareFloor(p: nat): nat {
    if p < 4 then 1 else if p < 9 then 2 else if p < 16 then 3 else 4
  }

  predicate SquareRootBits(p: nat, k: Word) {
    var c := SquareFloor(p) * 0x1_0000_0000 + k;
    c * c <= p * 0x1_0000_0000_0000_0000 < (c + 1) * (c + 1)
  }

  lemma CubeRoots0(i: nat)
    requires 0 <= i < 8
    ensures CubeRootBits(Prime(i), Constant(i))
  {
    if i == 0 {
      assert CubeRootBits(2, 0x428a_2f98);
    } else if i == 1 {
      assert CubeRootBits(3, 0x7137_4491);
    } else if i == 2 {
      assert CubeRootBits(5, 0xb5c0_fbcf);
    } else if i == 3 {
      assert CubeRootBits(7, 0xe9b5_dba5);
    } else if i == 4 {
      assert CubeRootBits(11, 0x3956_c25b);
    } else if i == 5 {
      assert CubeRootBits(13, 0x59f1_11f1);
    } else if i == 6 {
      assert CubeRootBits(17, 0x923f_82a4);
    } else if i == 7 {
      assert CubeRootBits(19, 0xab1c_5ed5);
    }
  }

  lemma CubeRoots1(i: nat)
    requires 8 <= i < 16
    ensures CubeRootBits(Prime(i), Constant(i))
  {
    if i == 8 {
      assert CubeRootBits(23, 0xd807_aa98);
    } else if i == 9 {
      assert CubeRootBits(29, 0x1283_5b01);
    } else if i == 10 {
      assert CubeRootBits(31, 0x2431_85be);
    } else if i == 11 {
      assert CubeRootBits(37, 0x550c_7dc3);
    } else if i == 12 {
      assert CubeRootBits(41, 0x72be_5d74);
    } else if i == 13 {
      assert CubeRootBits(43, 0x80de_b1fe);
    } else if i == 14 {
      assert CubeRootBits(47, 0x9bdc_06a7);
    } else if i == 15 {
      assert CubeRootBits(53, 0xc19b_f174);
    }
  }

  lemma CubeRoots2(i: nat)
    requires 16 <= i < 24
    ensures CubeRootBits(Prime(i), Constant(i))
  {
    if i == 16 {
      assert CubeRootBits(59, 0xe49b_69c1);
    } else if i == 17 {
      assert CubeRootBits(61, 0xefbe_4786);
    } else if i == 18 {
      assert CubeRootBits(67, 0x0fc1_9dc6);
    } else if i == 19 {
      assert CubeRootBits(71, 0x240c_a1cc);
    } else if i == 20 {
      assert CubeRootBits(73, 0x2de9_2c6f);
    } else if i == 21 {
      assert CubeRootBits(79, 0x4a74_84aa);
    } else if i == 22 {
      assert CubeRootBits(83, 0x5cb0_a9dc);
    } else if i == 23 {
      assert CubeRootBits(89, 0x76f9_88da);
    }
  }

  lemma CubeRoots3(i: nat)
    requires 24 <= i < 32
    ensures CubeRootBits(Prime(i), Constant(i))
  {
    if i == 24 {
      assert CubeRootBits(97, 0x983e_5152);
    } else if i == 25 {
      assert CubeRootBits(101, 0xa831_c66d);
    } else if i == 26 {
      assert CubeRootBits(103, 0xb003_27c8);
    } else if i == 27 {
      assert CubeRootBits(107, 0xbf59_7fc7);
    } else if i == 28 {
      assert CubeRootBits(109, 0xc6e0_0bf3);
    } else if i == 29 {
      assert CubeRootBits(113, 0xd5a7_9147);
    } else if i == 30 {
      assert CubeRootBits(127, 0x06ca_6351);
    } else if i == 31 {
      assert CubeRootBits(131, 0x1429_2967);
    }
  }

  lemma CubeRoots4(i: nat)
    requires 32 <= i < 40
    ensures CubeRootBits(Prime(i), Constant(i))
  {
    if i == 32 {
      assert CubeRootBits(137, 0x27b7_0a85);
    } else if i == 33 {
      assert CubeRootBits(139, 0x2e1b_2138);
    } else if i == 34 {
      assert CubeRootBits(149, 0x4d2c_6dfc);
    } else if i == 35 {
      assert CubeRootBits(151, 0x5338_0d13);
    } else if i == 36 {
      assert CubeRootBits(157, 0x650a_7354);
    } else if i == 37 {
      assert CubeRootBits(163, 0x766a_0abb);
    } else if i == 38 {
      assert CubeRootBits(167, 0x81c2_c92e);
    } else if i == 39 {
      assert CubeRootBits(173, 0x9272_2c85);
    }
  }

  lemma CubeRoots5(i: nat)
    requires 40 <= i < 48
    ensures CubeRootBits(Prime(i), Constant(i))
  {
    if i == 40 {
      assert CubeRootBits(179, 0xa2bf_e8a1);
    } else if i == 41 {
      assert CubeRootBits(181, 0xa81a_664b);
    } else if i == 42 {
      assert CubeRootBits(191, 0xc24b_8b70);
    } else if i == 43 {
      assert CubeRootBits(193, 0xc76c_51a3);
    } else if i == 44 {
      assert CubeRootBits(197, 0xd192_e819);
    } else if i == 45 {
      assert CubeRootBits(199, 0xd699_0624);
    } else if i == 46 {
      assert CubeRootBits(211, 0xf40e_3585);
    } else if i == 47 {
      assert CubeRootBits(223, 0x106a_a070);
    }
  }

  lemma CubeRoots6(i: nat)
    requires 48 <= i < 56
    ensures CubeRootBits(Prime(i), Constant(i))
  {
    if i == 48 {
      assert CubeRootBits(227, 0x19a4_c116);
    } else if i == 49 {
      assert CubeRootBits(229, 0x1e37_6c08);
    } else if i == 50 {
      assert CubeRootBits(233, 0x2748_774c);
    } else if i == 51 {
      assert CubeRootBits(239, 0x34b0_bcb5);
    } else if i == 52 {
      assert CubeRootBits(241, 0x391c_0cb3);
    } else if i == 53 {
      assert CubeRootBits(251, 0x4ed8_aa4a);
    } else if i == 54 {
      assert CubeRootBits(257, 0x5b9c_ca4f);
    } else if i == 55 {
      assert CubeRootBits(263, 0x682e_6ff3);
    }
  }

  lemma CubeRoots7(i: nat)
    requires 56 <= i < 60
    ensures CubeRootBits(Prime(i), Constant(i))
  {
    if i == 56 {
      assert CubeRootBits(269, 0x748f_82ee);
    } else if i == 57 {
      assert CubeRootBits(271, 0x78a5_636f);
    } else if i == 58 {
      assert CubeRootBits(277, 0x84c8_7814);
    } else if i == 59 {
      assert CubeRootBits(281, 0x8cc7_0208);
    }
  }

  lemma CubeRoots8(i: nat)
    requires 60 <= i < 64
    ensures CubeRootBits(Prime(i), Constant(i))
  {
    if i == 60 {
      assert CubeRootBits(283, 0x90be_fffa);
    } else if i == 61 {
      assert CubeRootBits(293, 0xa450_6ceb);
    } else if i == 62 {
      assert CubeRootBits(307, 0xbef9_a3f7);
    } else if i == 63 {
      assert CubeRootBits(311, 0xc671_78f2);
    }
  }

  /** The round constants are the cube roots of the first sixty-four primes. */
  lemma ConstantsAreCubeRoots(i: nat)
    requires i < 64
    ensures CubeRootBits(Prime(i), Constant(i))
  {
    hide CubeRootBits, Prime, Constant;
    if i < 8 {
      CubeRoots0(i);
    } else if i < 16 {
      CubeRoots1(i);
    } else if i < 24 {
      CubeRoots2(i);
    } else if i < 32 {
      CubeRoots3(i);
    } else if i < 40 {
      CubeRoots4(i);
    } else if i < 48 {
      CubeRoots5(i);
    } else if i < 56 {
      CubeRoots6(i);
    } else if i < 60 {
      CubeRoots7(i);
    } else {
      CubeRoots8(i);
    }
  }

  /** The initial hash value is the square roots of the first eight. */
  lemma InitialIsSquareRoots(i: nat)
    requires i < 8
    ensures SquareRootBits(Prime(i), Initial(i))
  {
    if i == 0 {
      assert SquareRootBits(2, 0x6a09_e667);
    } else if i == 1 {
      assert SquareRootBits(3, 0xbb67_ae85);
    } else if i == 2 {
      assert SquareRootBits(5, 0x3c6e_f372);
    } else if i == 3 {
      assert SquareRootBits(7, 0xa54f_f53a);
    } else if i == 4 {
      assert SquareRootBits(11, 0x510e_527f);
    } else if i == 5 {
      assert SquareRootBits(13, 0x9b05_688c);
    } else if i == 6 {
      assert SquareRootBits(17, 0x1f83_d9ab);
    } else if i == 7 {
      assert SquareRootBits(19, 0x5be0_cd19);
    }
  }

  // ------------------------------------------------------------ Functions, section 4.1.2

  function Rotr(x: bv32, n: bv6): bv32
    requires 0 < n < 32
  {
    (x >> n) | (x << (32 - n))
  }

  function Shr(x: bv32, n: bv6): bv32
    requires n < 32
  {
    x >> n
  }

  function Add(x: bv32, y: bv32): bv32 { x + y }

  function Ch(x: bv32, y: bv32, z: bv32): bv32 { (x & y) ^ (!x & z) }

  function Maj(x: bv32, y: bv32, z: bv32): bv32 { (x & y) ^ (x & z) ^ (y & z) }

  function BigSigma0(x: bv32): bv32 { Rotr(x, 2) ^ Rotr(x, 13) ^ Rotr(x, 22) }

  function BigSigma1(x: bv32): bv32 { Rotr(x, 6) ^ Rotr(x, 11) ^ Rotr(x, 25) }

  function SmallSigma0(x: bv32): bv32 { Rotr(x, 7) ^ Rotr(x, 18) ^ Shr(x, 3) }

  function SmallSigma1(x: bv32): bv32 { Rotr(x, 17) ^ Rotr(x, 19) ^ Shr(x, 10) }

  function Bits(x: Word): bv32 { x as bv32 }

  function K(t: nat): bv32
    requires t < 64
  {
    Bits(Constant(t))
  }

  // ------------------------------------------------------------ Computation, section 6.2.2

  function LoadBe(b: seq<bv8>, at: nat): bv32
    requires at + 4 <= |b|
  {
    ((b[at] as bv32) << 24) | ((b[at + 1] as bv32) << 16) | ((b[at + 2] as bv32) << 8) | (b[at + 3] as bv32)
  }

  /** Message schedule. */
  function W(block: seq<bv8>, t: nat): bv32
    requires |block| == BLOCK_SIZE && t < 64
  {
    if t < 16 then LoadBe(block, 4 * t)
    else Add(Add(Add(SmallSigma1(W(block, t - 2)), W(block, t - 7)), SmallSigma0(W(block, t - 15))), W(block, t - 16))
  }

  datatype Vars = Vars(a: bv32, b: bv32, c: bv32, d: bv32, e: bv32, f: bv32, g: bv32, h: bv32)

  function T1(v: Vars, k: bv32, w: bv32): bv32 { Add(Add(Add(Add(v.h, BigSigma1(v.e)), Ch(v.e, v.f, v.g)), k), w) }

  function T2(v: Vars): bv32 { Add(BigSigma0(v.a), Maj(v.a, v.b, v.c)) }

  function Round(v: Vars, k: bv32, w: bv32): Vars {
    Vars(Add(T1(v, k, w), T2(v)), v.a, v.b, v.c, Add(v.d, T1(v, k, w)), v.e, v.f, v.g)
  }

  /** The working variables after `t` rounds. */
  function Rounds(v: Vars, block: seq<bv8>, t: nat): Vars
    requires |block| == BLOCK_SIZE && t <= 64
  {
    if t == 0 then v else Round(Rounds(v, block, t - 1), K(t - 1), W(block, t - 1))
  }

  function VarsOf(h: seq<bv32>): Vars
    requires |h| == 8
  {
    Vars(h[0], h[1], h[2], h[3], h[4], h[5], h[6], h[7])
  }

  /** The hash value after one more block. */
  function Compress(h: seq<bv32>, block: seq<bv8>): (r: seq<bv32>)
    requires |h| == 8 && |block| == BLOCK_SIZE
    ensures |r| == 8
  {
    var v := Rounds(VarsOf(h), block, 64);
    [Add(v.a, h[0]), Add(v.b, h[1]), Add(v.c, h[2]), Add(v.d, h[3]), Add(v.e, h[4]), Add(v.f, h[5]), Add(v.g, h[6]), Add(v.h, h[7])]
  }

  function H(i: nat): bv32
    requires i < 8
  {
    Bits(Initial(i))
  }

  function H0(): (h: seq<bv32>)
    ensures |h| == 8
  {
    seq(8, i requires 0 <= i < 8 => H(i))
  }

  /** The hash value after whole blocks. */
  function Process(h: seq<bv32>, m: seq<bv8>): (r: seq<bv32>)
    requires |h| == 8 && |m| % BLOCK_SIZE == 0
    ensures |r| == 8
  {
    if m == [] then h else Compress(Process(h, m[..|m| - BLOCK_SIZE]), m[|m| - BLOCK_SIZE..])
  }

  // ------------------------------------------------------------ Padding, section 5.1.1

  function Zeros(n: nat): (z: seq<bv8>)
    ensures |z| == n && forall i :: 0 <= i < n ==> z[i] == 0
  {
    seq(n, i => 0)
  }

  /** The least number of zero bytes that puts the length at the end of a block. */
  function ZeroCount(n: nat): nat { (119 - n % BLOCK_SIZE) % BLOCK_SIZE }

  /** With `k` zeros behind the marker, the eight length bytes end a block. */
  predicate EndsBlock(n: nat, k: nat) { (n + 1 + k + 8) % BLOCK_SIZE == 0 }

  lemma ZeroCountIsLeast(n: nat)
    ensures EndsBlock(n, ZeroCount(n))
    ensures forall k :: 0 <= k < ZeroCount(n) ==> !EndsBlock(n, k)
  {
    var q, r := n / BLOCK_SIZE, n % BLOCK_SIZE;
    assert n == 64 * q + r;
    forall k: nat | k < 64
      ensures EndsBlock(n, k) <==> (r + 9 + k) % BLOCK_SIZE == 0
    {
      assert n + 9 + k == 64 * q + (r + 9 + k);
    }
  }

  /** `k` bytes, most significant first. */
  function BytesBe(n: nat, k: nat): (b: seq<bv8>)
    ensures |b| == k
  {
    if k == 0 then [] else BytesBe(n / 0x100, k - 1) + [(n % 0x100) as bv8]
  }

  function Pad(m: seq<bv8>): (p: seq<bv8>) {
    m + [0x80] + Zeros(ZeroCount(|m|)) + BytesBe(8 * |m|, 8)
  }

  function StoreBe(w: bv32): seq<bv8> {
    [((w >> 24) & 0xff) as bv8, ((w >> 16) & 0xff) as bv8, ((w >> 8) & 0xff) as bv8, (w & 0xff) as bv8]
  }

  function DigestBytes(h: seq<bv32>): seq<bv8> {
    if h == [] then [] else DigestBytes(h[..|h| - 1]) + StoreBe(h[|h| - 1])
  }

  lemma PadWhole(m: seq<bv8>)
    ensures |Pad(m)| % BLOCK_SIZE == 0
  {
    ZeroCountIsLeast(|m|);
  }

  /** The digest of a message. */
  function Digest(m: seq<bv8>): seq<bv8> {
    PadWhole(m);
    DigestBytes(Process(H0(), Pad(m)))
  }

  // ------------------------------------------------------------ Facts about whole blocks

  lemma ProcessBlock(h: seq<bv32>, m: seq<bv8>, b: seq<bv8>)
    requires |h| == 8 && |m| % BLOCK_SIZE == 0 && |b| == BLOCK_SIZE
    ensures |m + b| % BLOCK_SIZE == 0 && Process(h, m + b) == Compress(Process(h, m), b)
  {
    hide Compress;
    var all := m + b;
    assert all[..|all| - BLOCK_SIZE] == m && all[|all| - BLOCK_SIZE..] == b;
  }

  lemma {:induction false} BytesBeAt(n: nat, k: nat, i: nat)
    requires i < k
    ensures BytesBe(n, k)[i] == (Shift8(n, k - 1 - i) % 0x100) as bv8
    decreases k
  {
    if i < k - 1 {
      BytesBeAt(n / 0x100, k - 1, i);
    }
  }

  /** Dropping `j` low bytes. */
  function Shift8(n: nat, j: nat): nat { if j == 0 then n else Shift8(n / 0x100, j - 1) }

  lemma Held(message: seq<bv8>, whole: seq<bv8>, tail: seq<bv8>)
    requires message == whole + tail
    ensures message[..|message| - |tail|] == whole && message[|message| - |tail|..] == tail
  {
  }

  lemma DigestIs(m: seq<bv8>, fed: seq<bv8>)
    requires fed == Pad(m)
    ensures |fed| % BLOCK_SIZE == 0 && Digest(m) == DigestBytes(Process(H0(), fed))
  {
    PadWhole(m);
  }

  lemma UsedIsRemainder(n: nat, used: nat)
    requires used < BLOCK_SIZE && used <= n && (n - used) % BLOCK_SIZE == 0
    ensures used == n % BLOCK_SIZE
  {
    var q := (n - used) / BLOCK_SIZE;
    assert n == 64 * q + used;
  }

  // ------------------------------------------------------------ The context

  class Context {
    const state: array<bv32>
    const block: array<bv8>
    var total: nat
    var used: nat
    var finalized: bool
    ghost var message: seq<bv8>

    /** The chaining value covers the whole blocks of the message so far; the rest waits in the block buffer. */
    ghost predicate Valid()
      reads this, state, block
    {
      && state.Length == 8 && block.Length == BLOCK_SIZE && total <= MAX_INPUT_BYTES && used < BLOCK_SIZE
      && (!finalized ==>
            && total == |message| && used <= |message| && (|message| - used) % BLOCK_SIZE == 0
            && block[..used] == message[|message| - used..]
            && state[..] == Process(H0(), message[..|message| - used]))
    }

    constructor ()
      ensures Valid() && !finalized && message == [] && fresh(state) && fresh(block)
    {
      var s := new bv32[8](i requires 0 <= i < 8 => Initial(i) as bv32);
      state := s;
      block := new bv8[BLOCK_SIZE](i => 0);
      total, used, finalized := 0, 0, false;
      message := [];
      new;
      assert state[..] == H0();
    }

    /** The message schedule of one block. */
    method Schedule(b: seq<bv8>) returns (words: array<bv32>)
      requires |b| == BLOCK_SIZE
      ensures fresh(words) && words.Length == 64 && forall k :: 0 <= k < 64 ==> words[k] == W(b, k)
    {
      hide SmallSigma0, SmallSigma1, LoadBe, Add;
      words := new bv32[64];
      var index := 0;
      while index < 16
        invariant 0 <= index <= 16 && forall k :: 0 <= k < index ==> words[k] == W(b, k)
      {
        words[index] := LoadBe(b, 4 * index);
        index := index + 1;
      }
      while index < 64
        invariant 16 <= index <= 64 && forall k :: 0 <= k < index ==> words[k] == W(b, k)
      {
        words[index] := Add(Add(Add(SmallSigma1(words[index - 2]), words[index - 7]), SmallSigma0(words[index - 15])), words[index - 16]);
        index := index + 1;
      }
    }

    /** The sixty-four rounds over the working variables. */
    method Rotate(start: Vars, b: seq<bv8>, words: array<bv32>) returns (v: Vars)
      requires |b| == BLOCK_SIZE && words.Length == 64 && forall k :: 0 <= k < 64 ==> words[k] == W(b, k)
      ensures v == Rounds(start, b, 64)
    {
      hide K, T1, T2, W, Add;
      v := start;
      var index := 0;
      while index < 64
        invariant 0 <= index <= 64 && v == Rounds(start, b, index)
      {
        var t1, t2 := T1(v, K(index), words[index]), T2(v);
        v := Vars(Add(t1, t2), v.a, v.b, v.c, Add(v.d, t1), v.e, v.f, v.g);
        index := index + 1;
      }
    }

    /** The compression function over one block, in place. */
    method Transform(b: seq<bv8>)
      requires state.Length == 8 && |b| == BLOCK_SIZE
      modifies state
      ensures state[..] == Compress(old(state[..]), b)
    {
      hide Rounds, W, Add;
      var words := Schedule(b);
      var v := Vars(state[0], state[1], state[2], state[3], state[4], state[5], state[6], state[7]);
      assert v == VarsOf(state[..]);
      v := Rotate(v, b, words);
      state[0], state[1], state[2], state[3] := Add(v.a, state[0]), Add(v.b, state[1]), Add(v.c, state[2]), Add(v.d, state[3]);
      state[4], state[5], state[6], state[7] := Add(v.e, state[4]), Add(v.f, state[5]), Add(v.g, state[6]), Add(v.h, state[7]);
    }

    /** Moves bytes into the block buffer. */
    method Fill(at: nat, bytes: seq<bv8>)
      requires block.Length == BLOCK_SIZE && at + |bytes| <= BLOCK_SIZE
      modifies block
      ensures block[..at + |bytes|] == old(block[..at]) + bytes
    {
      for i := 0 to |bytes|
        invariant block[..at + i] == old(block[..at]) + bytes[..i]
      {
        block[at + i] := bytes[i];
      }
      assert bytes[..|bytes|] == bytes;
    }

    /** Adds bytes. An update is refused exactly when the context is finalized or the message would grow too long, and a
        refused update changes nothing. */
    method Update(data: seq<bv8>) returns (ok: bool)
      requires Valid()
      modifies this, state, block
      ensures Valid()
      ensures ok <==> !old(finalized) && |data| <= MAX_INPUT_BYTES - old(total)
      ensures ok ==> message == old(message) + data && !finalized
      ensures !ok ==> message == old(message) && total == old(total) && used == old(used) && finalized == old(finalized)
                      && state[..] == old(state[..]) && block[..] == old(block[..])
    {
      hide Process, Compress, H0;
      if finalized || used >= BLOCK_SIZE || total > MAX_INPUT_BYTES || |data| > MAX_INPUT_BYTES - total {
        return false;
      }
      if data == [] {
        assert message + data == message;
        return true;
      }
      total := total + |data|;
      ghost var whole := message[..|message| - used];
      ghost var all := message + data;
      assert all == whole + (block[..used] + data);
      whole := Feed(whole, data);
      message := all;
      Held(message, whole, block[..used]);
      return true;
    }

    /** The waiting bytes and the new ones, compressed as far as they fill blocks. */
    method Feed(ghost whole: seq<bv8>, data: seq<bv8>) returns (ghost grown: seq<bv8>)
      requires state.Length == 8 && block.Length == BLOCK_SIZE && used < BLOCK_SIZE
      requires |whole| % BLOCK_SIZE == 0 && state[..] == Process(H0(), whole)
      modifies this`used, state, block
      ensures used < BLOCK_SIZE && whole + (old(block[..used]) + data) == grown + block[..used]
      ensures |grown| % BLOCK_SIZE == 0 && state[..] == Process(H0(), grown)
    {
      hide *;
      var rest := data;
      grown := whole;
      assert block[..0] + data == data;
      if used != 0 {
        grown, rest := TopUp(whole, data);
      }
      if used == 0 {
        ghost var blocks := Absorb(grown, rest);
        assert grown + (blocks + block[..used]) == grown + blocks + block[..used];
        grown := grown + blocks;
      }
    }

    /** Compresses whole blocks and keeps what is left over waiting. */
    method Absorb(ghost whole: seq<bv8>, data: seq<bv8>) returns (ghost blocks: seq<bv8>)
      requires state.Length == 8 && block.Length == BLOCK_SIZE && used == 0
      requires |whole| % BLOCK_SIZE == 0 && state[..] == Process(H0(), whole)
      modifies this`used, state, block
      ensures used < BLOCK_SIZE && data == blocks + block[..used]
      ensures |whole + blocks| % BLOCK_SIZE == 0 && state[..] == Process(H0(), whole + blocks)
    {
      hide Process, Compress, H0;
      var rest;
      blocks, rest := WholeBlocks(whole, data);
      if rest != [] {
        Fill(0, rest);
        used := |rest|;
      }
      assert block[..used] == rest;
    }

    /** Fills the waiting block first, compressing it if it becomes full. */
    method TopUp(ghost whole: seq<bv8>, data: seq<bv8>) returns (ghost grown: seq<bv8>, rest: seq<bv8>)
      requires state.Length == 8 && block.Length == BLOCK_SIZE && 0 < used < BLOCK_SIZE
      requires |whole| % BLOCK_SIZE == 0 && state[..] == Process(H0(), whole)
      modifies this`used, state, block
      ensures used < BLOCK_SIZE && (used != 0 ==> rest == [])
      ensures whole + (old(block[..used]) + data) == if used == 0 then grown + rest else grown + block[..used]
      ensures |grown| % BLOCK_SIZE == 0 && state[..] == Process(H0(), grown)
    {
      hide Process, Compress, H0;
      var available := BLOCK_SIZE - used;
      var take := if |data| < available then |data| else available;
      grown, rest := whole, data[take..];
      ghost var held := block[..used] + data[..take];
      Fill(used, data[..take]);
      used := used + take;
      assert whole + (old(block[..used]) + data) == whole + held + rest;
      if used == BLOCK_SIZE {
        assert block[..] == held;
        ProcessBlock(H0(), whole, held);
        Transform(block[..]);
        grown := whole + held;
        used := 0;
      }
    }

    /** Compresses whole blocks straight from the input. */
    method WholeBlocks(ghost whole: seq<bv8>, data: seq<bv8>) returns (ghost blocks: seq<bv8>, rest: seq<bv8>)
      requires state.Length == 8 && |whole| % BLOCK_SIZE == 0 && state[..] == Process(H0(), whole)
      modifies state
      ensures data == blocks + rest && |rest| < BLOCK_SIZE && |whole + blocks| % BLOCK_SIZE == 0
      ensures state[..] == Process(H0(), whole + blocks)
    {
      hide Process, Compress, H0;
      blocks, rest := [], data;
      assert whole + [] == whole;
      while |rest| >= BLOCK_SIZE
        invariant data == blocks + rest && |whole + blocks| % BLOCK_SIZE == 0 && state[..] == Process(H0(), whole + blocks)
      {
        var b := rest[..BLOCK_SIZE];
        ProcessBlock(H0(), whole + blocks, b);
        Transform(b);
        assert whole + blocks + b == whole + (blocks + b);
        blocks := blocks + b;
        rest := rest[BLOCK_SIZE..];
      }
    }

    /** Finishes the message: padding, the last one or two blocks, and the digest of everything added. */
    method Final() returns (digest: Option<seq<bv8>>)
      requires Valid()
      modifies this, state, block
      ensures Valid() && finalized
      ensures digest == if old(finalized) then None else Some(Digest(old(message)))
    {
      hide Process, Compress, H0, DigestBytes, BytesBe, Digest;
      if finalized || used >= BLOCK_SIZE || total > MAX_INPUT_BYTES {
        return None;
      }
      var bits := 8 * total;
      ghost var whole, tail := message[..|message| - used], block[..used];
      assert message == whole + tail;
      UsedIsRemainder(|message|, used);
      PadSplits(message, whole, tail);
      DigestIs(message, Pad(message));
      hide Pad;
      Fill(used, [0x80]);
      used := used + 1;
      if used > 56 {
        whole := FlushPadding(whole);
        assert block[..used] == [];
      }
      FinishBlock(whole, bits);
      var out := WriteDigest();
      ClearBlock();
      used := 0;
      finalized := true;
      return Some(out);
    }

    /** The length does not fit behind the marker: pad this block out and compress it. */
    method FlushPadding(ghost whole: seq<bv8>) returns (ghost grown: seq<bv8>)
      requires state.Length == 8 && block.Length == BLOCK_SIZE && 56 < used <= BLOCK_SIZE
      requires |whole| % BLOCK_SIZE == 0 && state[..] == Process(H0(), whole)
      modifies this`used, state, block
      ensures used == 0 && grown == whole + (old(block[..used]) + Zeros(BLOCK_SIZE - old(used)))
      ensures |grown| % BLOCK_SIZE == 0 && state[..] == Process(H0(), grown)
    {
      hide Process, Compress, H0;
      ghost var held := block[..used] + Zeros(BLOCK_SIZE - used);
      Fill(used, Zeros(BLOCK_SIZE - used));
      assert block[..] == block[..BLOCK_SIZE] == held;
      ProcessBlock(H0(), whole, held);
      Transform(block[..]);
      used := 0;
      return whole + held;
    }

    /** Zeros up to the length field, the length, and the last compression. */
    method FinishBlock(ghost whole: seq<bv8>, bits: nat)
      requires state.Length == 8 && block.Length == BLOCK_SIZE && used <= 56
      requires |whole| % BLOCK_SIZE == 0 && state[..] == Process(H0(), whole)
      modifies state, block
      ensures block[..used] == old(block[..used])
      ensures var fed := whole + (block[..used] + Zeros(56 - used) + BytesBe(bits, 8));
              |fed| % BLOCK_SIZE == 0 && state[..] == Process(H0(), fed)
    {
      hide Process, Compress, H0, BytesBe;
      ghost var start := block[..used];
      Fill(used, Zeros(56 - used));
      ghost var held := block[..56];
      WriteLength(bits);
      assert block[..] == block[..BLOCK_SIZE];
      assert start == held[..used] == block[..][..used];
      ProcessBlock(H0(), whole, block[..]);
      Transform(block[..]);
    }

    /** The bit length, most significant byte first, into the last eight bytes of the block. */
    method WriteLength(bits: nat)
      requires block.Length == BLOCK_SIZE
      modifies block
      ensures block[..BLOCK_SIZE] == old(block[..56]) + BytesBe(bits, 8)
    {
      for index := 0 to 8
        invariant block[..56] == old(block[..56])
        invariant forall k :: 0 <= k < index ==> block[56 + k] == BytesBe(bits, 8)[k]
      {
        BytesBeAt(bits, 8, index);
        block[56 + index] := (Shift8(bits, 7 - index) % 0x100) as bv8;
      }
      assert block[..BLOCK_SIZE] == block[..56] + block[56..BLOCK_SIZE];
      assert block[56..BLOCK_SIZE] == BytesBe(bits, 8);
    }

    method WriteDigest() returns (out: seq<bv8>)
      requires state.Length == 8
      ensures out == DigestBytes(state[..])
    {
      hide StoreBe;
      out := [];
      for index := 0 to 8
        invariant out == DigestBytes(state[..index])
      {
        assert state[..index + 1][..index] == state[..index];
        out := out + StoreBe(state[index]);
      }
      assert state[..8] == state[..];
    }

    method ClearBlock()
      modifies block
      ensures forall i :: 0 <= i < block.Length ==> block[i] == 0
    {
      for index := 0 to block.Length
        invariant forall i :: 0 <= i < index ==> block[i] == 0
      {
        block[index] := 0;
      }
    }
  }

  /** What Final feeds the compression function is the padded message: in one block if the length fits, else in two. */
  lemma PadSplits(m: seq<bv8>, whole: seq<bv8>, tail: seq<bv8>)
    requires m == whole + tail && |tail| == |m| % BLOCK_SIZE
    ensures var r := |tail| + 1;
            Pad(m) == if r > 56 then whole + (tail + [0x80] + Zeros(BLOCK_SIZE - r)) + ([] + Zeros(56) + BytesBe(8 * |m|, 8))
                      else whole + (tail + [0x80] + Zeros(56 - r) + BytesBe(8 * |m|, 8))
  {
    hide BytesBe, Zeros, ZeroCount, Pad;
    var r := |tail| + 1;
    ZeroCountCases(|m|);
    PadIs(m);
    if r > 56 {
      ZerosJoin(BLOCK_SIZE - r, 56);
      TwoBlocks(whole, tail, [0x80], Zeros(BLOCK_SIZE - r), Zeros(56), BytesBe(8 * |m|, 8));
    } else {
      OneBlock(whole, tail, [0x80], Zeros(56 - r), BytesBe(8 * |m|, 8));
    }
  }

  lemma PadIs(m: seq<bv8>)
    ensures Pad(m) == m + [0x80] + Zeros(ZeroCount(|m|)) + BytesBe(8 * |m|, 8)
  {
    hide BytesBe, Zeros, ZeroCount;
  }

  lemma ZeroCountCases(n: nat)
    ensures var r := n % BLOCK_SIZE + 1; ZeroCount(n) == if r > 56 then (BLOCK_SIZE - r) + 56 else 56 - r
  {
  }

  lemma OneBlock(w: seq<bv8>, t: seq<bv8>, x: seq<bv8>, z: seq<bv8>, b: seq<bv8>)
    ensures w + (t + x + z + b) == w + t + x + z + b
  {
  }

  lemma TwoBlocks(w: seq<bv8>, t: seq<bv8>, x: seq<bv8>, y: seq<bv8>, z: seq<bv8>, b: seq<bv8>)
    ensures w + (t + x + y) + ([] + z + b) == w + t + x + (y + z) + b
  {
  }

  lemma ZerosJoin(a: nat, b: nat)
    ensures Zeros(a) + Zeros(b) == Zeros(a + b)
  {
  }

  /** Hashing a whole message at once. */
  method Hash(data: seq<bv8>) returns (digest: Option<seq<bv8>>)
    ensures digest == if |data| <= MAX_INPUT_BYTES then Some(Digest(data)) else None
  {
    hide Digest;
    var context := new Context();
    var ok := context.Update(data);
    if !ok {
      return None;
    }
    assert [] + data == data;
    digest := context.Final();
  }

  function Concat(parts: seq<seq<bv8>>): seq<bv8> {
    if parts == [] then [] else Concat(parts[..|parts| - 1]) + parts[|parts| - 1]
  }

  /** Any split of a message into updates gives the digest of the whole; if the message grows too long, some update says so. */
  method HashParts(parts: seq<seq<bv8>>) returns (digest: Option<seq<bv8>>)
    ensures digest == if |Concat(parts)| <= MAX_INPUT_BYTES then Some(Digest(Concat(parts))) else None
  {
    hide Digest;
    var context := new Context();
    for i := 0 to |parts|
      invariant fresh(context) && fresh(context.state) && fresh(context.block) && context.Valid() && !context.finalized
      invariant context.message == Concat(parts[..i])
    {
      assert parts[..i + 1][..i] == parts[..i];
      var ok := context.Update(parts[i]);
      if !ok {
        Longer(parts, i + 1);
        return None;
      }
    }
    assert parts[..|parts|] == parts;
    digest := context.Final();
  }

  lemma {:induction false} Longer(parts: seq<seq<bv8>>, i: nat)
    requires i <= |parts|
    ensures |Concat(parts)| >= |Concat(parts[..i])|
  {
    if i < |parts| {
      Longer(parts[..|parts| - 1], i);
      assert parts[..|parts| - 1][..i] == parts[..i];
    } else {
      assert parts[..i] == parts;
    }
  }
}
