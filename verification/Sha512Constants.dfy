/** Where the constants of SHA-512 come from (section 4.2.3 and section 5.3.5 of FIPS 180-4). */
module Sha512Constants {
  import opened Words
  import opened Sha512

  ghost predicate Prime(q: int) {
    q >= 2 && forall d :: 2 <= d < q ==> q % d != 0
  }

  const PRIMES00: seq<int> := [2, 3, 5, 7, 11, 13, 17, 19, 23, 29, 31, 37, 41, 43, 47, 53]
  const PRIMES16: seq<int> := [59, 61, 67, 71, 73, 79, 83, 89, 97, 101, 103, 107, 109, 113, 127, 131]
  const PRIMES32: seq<int> := [137, 139, 149, 151, 157, 163, 167, 173, 179, 181, 191, 193, 197, 199, 211, 223]
  const PRIMES48: seq<int> := [227, 229, 233, 239, 241, 251, 257, 263, 269, 271, 277, 281, 283, 293, 307, 311]
  const PRIMES64: seq<int> := [313, 317, 331, 337, 347, 349, 353, 359, 367, 373, 379, 383, 389, 397, 401, 409]

  function NthPrime(t: nat): int
    requires t < 80
  {
    if t < 16 then PRIMES00[t] else if t < 32 then PRIMES16[t - 16] else if t < 48 then PRIMES32[t - 32]
    else if t < 64 then PRIMES48[t - 48] else PRIMES64[t - 64]
  }

  /** `k` is the first 64 bits after the binary point of the cube root of `q`. */
  ghost predicate CubeRootFraction(q: int, k: int) {
    exists w: nat :: CubeRootOf(q, w, k)
  }

  ghost predicate CubeRootOf(q: int, w: int, k: int) {
    var c := w * TWO64 + k;
    0 <= k < TWO64 && c * c * c <= q * TWO192 < (c + 1) * (c + 1) * (c + 1)
  }

  ghost predicate SquareRootFraction(q: int, k: int) {
    exists w: nat :: SquareRootOf(q, w, k)
  }

  ghost predicate SquareRootOf(q: int, w: int, k: int) {
    var c := w * TWO64 + k;
    0 <= k < TWO64 && c * c <= q * TWO128 < (c + 1) * (c + 1)
  }

  /** Round constant `t`, whose whole part is `w` and whose value is `n`, comes from the prime `q`. */
  lemma Root(t: nat, q: int, w: nat, k: bv64, n: int)
    requires t < 80 && RoundConstant(t) == k && NthPrime(t) == q && k as int == n && CubeRootOf(q, w, n)
    ensures CubeRootFraction(NthPrime(t), RoundConstant(t) as int)
  {
    hide CubeRootOf, RoundConstant, NthPrime;
  }

  lemma Constants00()
    ensures RoundConstant(0) == 0x428a2f98d728ae22
    ensures RoundConstant(1) == 0x7137449123ef65cd
    ensures RoundConstant(2) == 0xb5c0fbcfec4d3b2f
    ensures RoundConstant(3) == 0xe9b5dba58189dbbc
    ensures RoundConstant(4) == 0x3956c25bf348b538
    ensures RoundConstant(5) == 0x59f111f1b605d019
    ensures RoundConstant(6) == 0x923f82a4af194f9b
    ensures RoundConstant(7) == 0xab1c5ed5da6d8118
  {}

  lemma Constants08()
    ensures RoundConstant(8) == 0xd807aa98a3030242
    ensures RoundConstant(9) == 0x12835b0145706fbe
    ensures RoundConstant(10) == 0x243185be4ee4b28c
    ensures RoundConstant(11) == 0x550c7dc3d5ffb4e2
    ensures RoundConstant(12) == 0x72be5d74f27b896f
    ensures RoundConstant(13) == 0x80deb1fe3b1696b1
    ensures RoundConstant(14) == 0x9bdc06a725c71235
    ensures RoundConstant(15) == 0xc19bf174cf692694
  {}

  lemma Constants16()
    ensures RoundConstant(16) == 0xe49b69c19ef14ad2
    ensures RoundConstant(17) == 0xefbe4786384f25e3
    ensures RoundConstant(18) == 0x0fc19dc68b8cd5b5
    ensures RoundConstant(19) == 0x240ca1cc77ac9c65
    ensures RoundConstant(20) == 0x2de92c6f592b0275
    ensures RoundConstant(21) == 0x4a7484aa6ea6e483
    ensures RoundConstant(22) == 0x5cb0a9dcbd41fbd4
    ensures RoundConstant(23) == 0x76f988da831153b5
  {}

  lemma Constants24()
    ensures RoundConstant(24) == 0x983e5152ee66dfab
    ensures RoundConstant(25) == 0xa831c66d2db43210
    ensures RoundConstant(26) == 0xb00327c898fb213f
    ensures RoundConstant(27) == 0xbf597fc7beef0ee4
    ensures RoundConstant(28) == 0xc6e00bf33da88fc2
    ensures RoundConstant(29) == 0xd5a79147930aa725
    ensures RoundConstant(30) == 0x06ca6351e003826f
    ensures RoundConstant(31) == 0x142929670a0e6e70
  {}

  lemma Constants32()
    ensures RoundConstant(32) == 0x27b70a8546d22ffc
    ensures RoundConstant(33) == 0x2e1b21385c26c926
    ensures RoundConstant(34) == 0x4d2c6dfc5ac42aed
    ensures RoundConstant(35) == 0x53380d139d95b3df
    ensures RoundConstant(36) == 0x650a73548baf63de
    ensures RoundConstant(37) == 0x766a0abb3c77b2a8
    ensures RoundConstant(38) == 0x81c2c92e47edaee6
    ensures RoundConstant(39) == 0x92722c851482353b
  {}

  lemma Constants40()
    ensures RoundConstant(40) == 0xa2bfe8a14cf10364
    ensures RoundConstant(41) == 0xa81a664bbc423001
    ensures RoundConstant(42) == 0xc24b8b70d0f89791
    ensures RoundConstant(43) == 0xc76c51a30654be30
    ensures RoundConstant(44) == 0xd192e819d6ef5218
    ensures RoundConstant(45) == 0xd69906245565a910
    ensures RoundConstant(46) == 0xf40e35855771202a
    ensures RoundConstant(47) == 0x106aa07032bbd1b8
  {}

  lemma Constants48()
    ensures RoundConstant(48) == 0x19a4c116b8d2d0c8
    ensures RoundConstant(49) == 0x1e376c085141ab53
    ensures RoundConstant(50) == 0x2748774cdf8eeb99
    ensures RoundConstant(51) == 0x34b0bcb5e19b48a8
    ensures RoundConstant(52) == 0x391c0cb3c5c95a63
    ensures RoundConstant(53) == 0x4ed8aa4ae3418acb
    ensures RoundConstant(54) == 0x5b9cca4f7763e373
    ensures RoundConstant(55) == 0x682e6ff3d6b2b8a3
  {}

  lemma Constants56()
    ensures RoundConstant(56) == 0x748f82ee5defb2fc
    ensures RoundConstant(57) == 0x78a5636f43172f60
    ensures RoundConstant(58) == 0x84c87814a1f0ab72
    ensures RoundConstant(59) == 0x8cc702081a6439ec
    ensures RoundConstant(60) == 0x90befffa23631e28
    ensures RoundConstant(61) == 0xa4506cebde82bde9
    ensures RoundConstant(62) == 0xbef9a3f7b2c67915
    ensures RoundConstant(63) == 0xc67178f2e372532b
  {}

  lemma Constants64()
    ensures RoundConstant(64) == 0xca273eceea26619c
    ensures RoundConstant(65) == 0xd186b8c721c0c207
    ensures RoundConstant(66) == 0xeada7dd6cde0eb1e
    ensures RoundConstant(67) == 0xf57d4f7fee6ed178
    ensures RoundConstant(68) == 0x06f067aa72176fba
    ensures RoundConstant(69) == 0x0a637dc5a2c898a6
    ensures RoundConstant(70) == 0x113f9804bef90dae
    ensures RoundConstant(71) == 0x1b710b35131c471b
  {}

  lemma Constants72()
    ensures RoundConstant(72) == 0x28db77f523047d84
    ensures RoundConstant(73) == 0x32caab7b40c72493
    ensures RoundConstant(74) == 0x3c9ebe0a15c9bebc
    ensures RoundConstant(75) == 0x431d67c49c100d4c
    ensures RoundConstant(76) == 0x4cc5d4becb3e42b6
    ensures RoundConstant(77) == 0x597f299cfc657e2a
    ensures RoundConstant(78) == 0x5fcb6fab3ad6faec
    ensures RoundConstant(79) == 0x6c44198c4a475817
  {}

  lemma Primes00()
    ensures NthPrime(0) == 2 && NthPrime(1) == 3 && NthPrime(2) == 5 && NthPrime(3) == 7
    ensures NthPrime(4) == 11 && NthPrime(5) == 13 && NthPrime(6) == 17 && NthPrime(7) == 19
  {}

  lemma Primes08()
    ensures NthPrime(8) == 23 && NthPrime(9) == 29 && NthPrime(10) == 31 && NthPrime(11) == 37
    ensures NthPrime(12) == 41 && NthPrime(13) == 43 && NthPrime(14) == 47 && NthPrime(15) == 53
  {}

  lemma Primes16()
    ensures NthPrime(16) == 59 && NthPrime(17) == 61 && NthPrime(18) == 67 && NthPrime(19) == 71
    ensures NthPrime(20) == 73 && NthPrime(21) == 79 && NthPrime(22) == 83 && NthPrime(23) == 89
  {}

  lemma Primes24()
    ensures NthPrime(24) == 97 && NthPrime(25) == 101 && NthPrime(26) == 103 && NthPrime(27) == 107
    ensures NthPrime(28) == 109 && NthPrime(29) == 113 && NthPrime(30) == 127 && NthPrime(31) == 131
  {}

  lemma Primes32()
    ensures NthPrime(32) == 137 && NthPrime(33) == 139 && NthPrime(34) == 149 && NthPrime(35) == 151
    ensures NthPrime(36) == 157 && NthPrime(37) == 163 && NthPrime(38) == 167 && NthPrime(39) == 173
  {}

  lemma Primes40()
    ensures NthPrime(40) == 179 && NthPrime(41) == 181 && NthPrime(42) == 191 && NthPrime(43) == 193
    ensures NthPrime(44) == 197 && NthPrime(45) == 199 && NthPrime(46) == 211 && NthPrime(47) == 223
  {}

  lemma Primes48()
    ensures NthPrime(48) == 227 && NthPrime(49) == 229 && NthPrime(50) == 233 && NthPrime(51) == 239
    ensures NthPrime(52) == 241 && NthPrime(53) == 251 && NthPrime(54) == 257 && NthPrime(55) == 263
  {}

  lemma Primes56()
    ensures NthPrime(56) == 269 && NthPrime(57) == 271 && NthPrime(58) == 277 && NthPrime(59) == 281
    ensures NthPrime(60) == 283 && NthPrime(61) == 293 && NthPrime(62) == 307 && NthPrime(63) == 311
  {}

  lemma Primes64()
    ensures NthPrime(64) == 313 && NthPrime(65) == 317 && NthPrime(66) == 331 && NthPrime(67) == 337
    ensures NthPrime(68) == 347 && NthPrime(69) == 349 && NthPrime(70) == 353 && NthPrime(71) == 359
  {}

  lemma Primes72()
    ensures NthPrime(72) == 367 && NthPrime(73) == 373 && NthPrime(74) == 379 && NthPrime(75) == 383
    ensures NthPrime(76) == 389 && NthPrime(77) == 397 && NthPrime(78) == 401 && NthPrime(79) == 409
  {}

  lemma Roots00(t: nat)
    requires 0 <= t < 8
    ensures CubeRootFraction(NthPrime(t), RoundConstant(t) as int)
  {
    hide RoundConstant, NthPrime, CubeRootFraction;
    Constants00();
    Primes00();
    Root(0, 2, 1, 0x428a2f98d728ae22, 0x428a2f98d728ae22);
    Root(1, 3, 1, 0x7137449123ef65cd, 0x7137449123ef65cd);
    Root(2, 5, 1, 0xb5c0fbcfec4d3b2f, 0xb5c0fbcfec4d3b2f);
    Root(3, 7, 1, 0xe9b5dba58189dbbc, 0xe9b5dba58189dbbc);
    Root(4, 11, 2, 0x3956c25bf348b538, 0x3956c25bf348b538);
    Root(5, 13, 2, 0x59f111f1b605d019, 0x59f111f1b605d019);
    Root(6, 17, 2, 0x923f82a4af194f9b, 0x923f82a4af194f9b);
    Root(7, 19, 2, 0xab1c5ed5da6d8118, 0xab1c5ed5da6d8118);
  }

  lemma Roots08(t: nat)
    requires 8 <= t < 16
    ensures CubeRootFraction(NthPrime(t), RoundConstant(t) as int)
  {
    hide RoundConstant, NthPrime, CubeRootFraction;
    Constants08();
    Primes08();
    Root(8, 23, 2, 0xd807aa98a3030242, 0xd807aa98a3030242);
    Root(9, 29, 3, 0x12835b0145706fbe, 0x12835b0145706fbe);
    Root(10, 31, 3, 0x243185be4ee4b28c, 0x243185be4ee4b28c);
    Root(11, 37, 3, 0x550c7dc3d5ffb4e2, 0x550c7dc3d5ffb4e2);
    Root(12, 41, 3, 0x72be5d74f27b896f, 0x72be5d74f27b896f);
    Root(13, 43, 3, 0x80deb1fe3b1696b1, 0x80deb1fe3b1696b1);
    Root(14, 47, 3, 0x9bdc06a725c71235, 0x9bdc06a725c71235);
    Root(15, 53, 3, 0xc19bf174cf692694, 0xc19bf174cf692694);
  }

  lemma Roots16(t: nat)
    requires 16 <= t < 24
    ensures CubeRootFraction(NthPrime(t), RoundConstant(t) as int)
  {
    hide RoundConstant, NthPrime, CubeRootFraction;
    Constants16();
    Primes16();
    Root(16, 59, 3, 0xe49b69c19ef14ad2, 0xe49b69c19ef14ad2);
    Root(17, 61, 3, 0xefbe4786384f25e3, 0xefbe4786384f25e3);
    Root(18, 67, 4, 0x0fc19dc68b8cd5b5, 0x0fc19dc68b8cd5b5);
    Root(19, 71, 4, 0x240ca1cc77ac9c65, 0x240ca1cc77ac9c65);
    Root(20, 73, 4, 0x2de92c6f592b0275, 0x2de92c6f592b0275);
    Root(21, 79, 4, 0x4a7484aa6ea6e483, 0x4a7484aa6ea6e483);
    Root(22, 83, 4, 0x5cb0a9dcbd41fbd4, 0x5cb0a9dcbd41fbd4);
    Root(23, 89, 4, 0x76f988da831153b5, 0x76f988da831153b5);
  }

  lemma Roots24(t: nat)
    requires 24 <= t < 32
    ensures CubeRootFraction(NthPrime(t), RoundConstant(t) as int)
  {
    hide RoundConstant, NthPrime, CubeRootFraction;
    Constants24();
    Primes24();
    Root(24, 97, 4, 0x983e5152ee66dfab, 0x983e5152ee66dfab);
    Root(25, 101, 4, 0xa831c66d2db43210, 0xa831c66d2db43210);
    Root(26, 103, 4, 0xb00327c898fb213f, 0xb00327c898fb213f);
    Root(27, 107, 4, 0xbf597fc7beef0ee4, 0xbf597fc7beef0ee4);
    Root(28, 109, 4, 0xc6e00bf33da88fc2, 0xc6e00bf33da88fc2);
    Root(29, 113, 4, 0xd5a79147930aa725, 0xd5a79147930aa725);
    Root(30, 127, 5, 0x06ca6351e003826f, 0x06ca6351e003826f);
    Root(31, 131, 5, 0x142929670a0e6e70, 0x142929670a0e6e70);
  }

  lemma Roots32(t: nat)
    requires 32 <= t < 40
    ensures CubeRootFraction(NthPrime(t), RoundConstant(t) as int)
  {
    hide RoundConstant, NthPrime, CubeRootFraction;
    Constants32();
    Primes32();
    Root(32, 137, 5, 0x27b70a8546d22ffc, 0x27b70a8546d22ffc);
    Root(33, 139, 5, 0x2e1b21385c26c926, 0x2e1b21385c26c926);
    Root(34, 149, 5, 0x4d2c6dfc5ac42aed, 0x4d2c6dfc5ac42aed);
    Root(35, 151, 5, 0x53380d139d95b3df, 0x53380d139d95b3df);
    Root(36, 157, 5, 0x650a73548baf63de, 0x650a73548baf63de);
    Root(37, 163, 5, 0x766a0abb3c77b2a8, 0x766a0abb3c77b2a8);
    Root(38, 167, 5, 0x81c2c92e47edaee6, 0x81c2c92e47edaee6);
    Root(39, 173, 5, 0x92722c851482353b, 0x92722c851482353b);
  }

  lemma Roots40(t: nat)
    requires 40 <= t < 48
    ensures CubeRootFraction(NthPrime(t), RoundConstant(t) as int)
  {
    hide RoundConstant, NthPrime, CubeRootFraction;
    Constants40();
    Primes40();
    Root(40, 179, 5, 0xa2bfe8a14cf10364, 0xa2bfe8a14cf10364);
    Root(41, 181, 5, 0xa81a664bbc423001, 0xa81a664bbc423001);
    Root(42, 191, 5, 0xc24b8b70d0f89791, 0xc24b8b70d0f89791);
    Root(43, 193, 5, 0xc76c51a30654be30, 0xc76c51a30654be30);
    Root(44, 197, 5, 0xd192e819d6ef5218, 0xd192e819d6ef5218);
    Root(45, 199, 5, 0xd69906245565a910, 0xd69906245565a910);
    Root(46, 211, 5, 0xf40e35855771202a, 0xf40e35855771202a);
    Root(47, 223, 6, 0x106aa07032bbd1b8, 0x106aa07032bbd1b8);
  }

  lemma Roots48(t: nat)
    requires 48 <= t < 56
    ensures CubeRootFraction(NthPrime(t), RoundConstant(t) as int)
  {
    hide RoundConstant, NthPrime, CubeRootFraction;
    Constants48();
    Primes48();
    Root(48, 227, 6, 0x19a4c116b8d2d0c8, 0x19a4c116b8d2d0c8);
    Root(49, 229, 6, 0x1e376c085141ab53, 0x1e376c085141ab53);
    Root(50, 233, 6, 0x2748774cdf8eeb99, 0x2748774cdf8eeb99);
    Root(51, 239, 6, 0x34b0bcb5e19b48a8, 0x34b0bcb5e19b48a8);
    Root(52, 241, 6, 0x391c0cb3c5c95a63, 0x391c0cb3c5c95a63);
    Root(53, 251, 6, 0x4ed8aa4ae3418acb, 0x4ed8aa4ae3418acb);
    Root(54, 257, 6, 0x5b9cca4f7763e373, 0x5b9cca4f7763e373);
    Root(55, 263, 6, 0x682e6ff3d6b2b8a3, 0x682e6ff3d6b2b8a3);
  }

  lemma Roots56(t: nat)
    requires 56 <= t < 64
    ensures CubeRootFraction(NthPrime(t), RoundConstant(t) as int)
  {
    hide RoundConstant, NthPrime, CubeRootFraction;
    Constants56();
    Primes56();
    Root(56, 269, 6, 0x748f82ee5defb2fc, 0x748f82ee5defb2fc);
    Root(57, 271, 6, 0x78a5636f43172f60, 0x78a5636f43172f60);
    Root(58, 277, 6, 0x84c87814a1f0ab72, 0x84c87814a1f0ab72);
    Root(59, 281, 6, 0x8cc702081a6439ec, 0x8cc702081a6439ec);
    Root(60, 283, 6, 0x90befffa23631e28, 0x90befffa23631e28);
    Root(61, 293, 6, 0xa4506cebde82bde9, 0xa4506cebde82bde9);
    Root(62, 307, 6, 0xbef9a3f7b2c67915, 0xbef9a3f7b2c67915);
    Root(63, 311, 6, 0xc67178f2e372532b, 0xc67178f2e372532b);
  }

  lemma Roots64(t: nat)
    requires 64 <= t < 72
    ensures CubeRootFraction(NthPrime(t), RoundConstant(t) as int)
  {
    hide RoundConstant, NthPrime, CubeRootFraction;
    Constants64();
    Primes64();
    Root(64, 313, 6, 0xca273eceea26619c, 0xca273eceea26619c);
    Root(65, 317, 6, 0xd186b8c721c0c207, 0xd186b8c721c0c207);
    Root(66, 331, 6, 0xeada7dd6cde0eb1e, 0xeada7dd6cde0eb1e);
    Root(67, 337, 6, 0xf57d4f7fee6ed178, 0xf57d4f7fee6ed178);
    Root(68, 347, 7, 0x06f067aa72176fba, 0x06f067aa72176fba);
    Root(69, 349, 7, 0x0a637dc5a2c898a6, 0x0a637dc5a2c898a6);
    Root(70, 353, 7, 0x113f9804bef90dae, 0x113f9804bef90dae);
    Root(71, 359, 7, 0x1b710b35131c471b, 0x1b710b35131c471b);
  }

  lemma Roots72(t: nat)
    requires 72 <= t < 80
    ensures CubeRootFraction(NthPrime(t), RoundConstant(t) as int)
  {
    hide RoundConstant, NthPrime, CubeRootFraction;
    Constants72();
    Primes72();
    Root(72, 367, 7, 0x28db77f523047d84, 0x28db77f523047d84);
    Root(73, 373, 7, 0x32caab7b40c72493, 0x32caab7b40c72493);
    Root(74, 379, 7, 0x3c9ebe0a15c9bebc, 0x3c9ebe0a15c9bebc);
    Root(75, 383, 7, 0x431d67c49c100d4c, 0x431d67c49c100d4c);
    Root(76, 389, 7, 0x4cc5d4becb3e42b6, 0x4cc5d4becb3e42b6);
    Root(77, 397, 7, 0x597f299cfc657e2a, 0x597f299cfc657e2a);
    Root(78, 401, 7, 0x5fcb6fab3ad6faec, 0x5fcb6fab3ad6faec);
    Root(79, 409, 7, 0x6c44198c4a475817, 0x6c44198c4a475817);
  }

  /** Each round constant is the fraction of the cube root of its prime. */
  lemma ConstantsAreRoots(t: nat)
    requires t < 80
    ensures CubeRootFraction(NthPrime(t), RoundConstant(t) as int)
  {
    hide CubeRootFraction, RoundConstant, NthPrime;
    if t < 40 {
      if t < 8 {
        Roots00(t);
      } else if t < 16 {
        Roots08(t);
      } else if t < 24 {
        Roots16(t);
      } else if t < 32 {
        Roots24(t);
      } else {
        Roots32(t);
      }
    } else if t < 48 {
      Roots40(t);
    } else if t < 56 {
      Roots48(t);
    } else if t < 64 {
      Roots56(t);
    } else if t < 72 {
      Roots64(t);
    } else {
      Roots72(t);
    }
  }

  lemma SquareRoot(t: nat, q: int, w: nat, k: bv64, n: int)
    requires t < 8 && IV[t] == k && NthPrime(t) == q && k as int == n && SquareRootOf(q, w, n)
    ensures SquareRootFraction(NthPrime(t), IV[t] as int)
  {
    hide SquareRootOf, NthPrime;
  }

  /** Each initial word is the fraction of the square root of its prime. */
  lemma InitialWordsAreRoots(t: nat)
    requires t < 8
    ensures SquareRootFraction(NthPrime(t), IV[t] as int)
  {
    hide SquareRootFraction, NthPrime;
    Primes00();
    SquareRoot(0, 2, 1, 0x6a09e667f3bcc908, 0x6a09e667f3bcc908);
    SquareRoot(1, 3, 1, 0xbb67ae8584caa73b, 0xbb67ae8584caa73b);
    SquareRoot(2, 5, 2, 0x3c6ef372fe94f82b, 0x3c6ef372fe94f82b);
    SquareRoot(3, 7, 2, 0xa54ff53a5f1d36f1, 0xa54ff53a5f1d36f1);
    SquareRoot(4, 11, 3, 0x510e527fade682d1, 0x510e527fade682d1);
    SquareRoot(5, 13, 3, 0x9b05688c2b3e6c1f, 0x9b05688c2b3e6c1f);
    SquareRoot(6, 17, 4, 0x1f83d9abfb41bd6b, 0x1f83d9abfb41bd6b);
    SquareRoot(7, 19, 4, 0x5be0cd19137e2179, 0x5be0cd19137e2179);
  }

  // ---- the primes ----

  ghost predicate NextPrime(p: int, q: int) {
    p < q && Prime(p) && Prime(q) && forall n :: p < n < q ==> !Prime(n)
  }

  /** No smaller one of the first eight primes divides `q`. */
  predicate Sieved(q: int) {
    && (q > 2 ==> q % 2 != 0) && (q > 3 ==> q % 3 != 0) && (q > 5 ==> q % 5 != 0) && (q > 7 ==> q % 7 != 0)
    && (q > 11 ==> q % 11 != 0) && (q > 13 ==> q % 13 != 0) && (q > 17 ==> q % 17 != 0) && (q > 19 ==> q % 19 != 0)
  }

  lemma SmallFactor(q: int, d: int)
    requires 2 <= d <= 20 && d < q && q % d == 0
    ensures !Sieved(q)
  {
    var e := q / d;
    assert q == d * e;
    if d % 2 == 0 {
      Divides(q, 2, d / 2 * e);
    } else if d % 3 == 0 {
      Divides(q, 3, d / 3 * e);
    } else if d == 5 || d == 15 {
      Divides(q, 5, d / 5 * e);
    } else {
      assert d == 7 || d == 11 || d == 13 || d == 17 || d == 19;
    }
  }

  lemma Divides(q: int, p: int, e: int)
    requires p > 0 && q == p * e
    ensures q % p == 0
  {
    var j := e - q / p;
    assert p * j == q % p;
    assert j > 0 ==> p * j >= p;
    assert j < 0 ==> p * j <= -p;
  }

  /** Below 21 squared, the sieve leaves exactly the primes. */
  lemma SieveIsExact(q: int)
    requires 2 <= q < 441
    ensures Sieved(q) <==> Prime(q)
  {
    if Sieved(q) {
      forall d | 2 <= d < q ensures q % d != 0 {
        NoFactor(q, d);
      }
    }
  }

  lemma NoFactor(q: int, d: int)
    requires 2 <= d < q < 441 && Sieved(q)
    ensures q % d != 0
  {
    if q % d == 0 {
      var e := q / d;
      if d <= 20 {
        SmallFactor(q, d);
      } else {
        LargeFactor(q, d, e);
        Divides(q, e, d);
        SmallFactor(q, e);
      }
    }
  }

  lemma LargeFactor(q: int, d: int, e: int)
    requires q == d * e && 20 < d < q < 441
    ensures 2 <= e <= 20
  {
    assert e <= 1 ==> d * e <= d;
    assert e > 20 ==> d * e >= d * 21;
  }

  predicate NoneBetween(p: int, q: int)
    decreases q - p
  {
    p + 1 >= q || (!Sieved(p + 1) && NoneBetween(p + 1, q))
  }

  lemma {:induction false} NotBetween(p: int, q: int, n: int)
    requires NoneBetween(p, q) && p < n < q
    ensures !Sieved(n)
    decreases q - p
  {
    if n > p + 1 {
      NotBetween(p + 1, q, n);
    }
  }

  lemma Gap(p: int, q: int)
    requires 2 <= p < q < 441 && Sieved(p) && Sieved(q) && NoneBetween(p, q)
    ensures NextPrime(p, q)
  {
    hide Sieved, Prime, NoneBetween;
    SieveIsExact(p);
    SieveIsExact(q);
    forall n | p < n < q ensures !Prime(n) {
      NotBetween(p, q, n);
      SieveIsExact(n);
    }
  }

  lemma Order00(t: nat)
    requires 0 <= t < 8
    ensures NextPrime(NthPrime(t), NthPrime(t + 1))
  {
    hide NthPrime, NextPrime;
    Primes00();
    Primes08();
    Gap(2, 3);
    Gap(3, 5);
    Gap(5, 7);
    Gap(7, 11);
    Gap(11, 13);
    Gap(13, 17);
    Gap(17, 19);
    Gap(19, 23);
  }

  lemma Order08(t: nat)
    requires 8 <= t < 16
    ensures NextPrime(NthPrime(t), NthPrime(t + 1))
  {
    hide NthPrime, NextPrime;
    Primes08();
    Primes16();
    Gap(23, 29);
    Gap(29, 31);
    Gap(31, 37);
    Gap(37, 41);
    Gap(41, 43);
    Gap(43, 47);
    Gap(47, 53);
    Gap(53, 59);
  }

  lemma Order16(t: nat)
    requires 16 <= t < 24
    ensures NextPrime(NthPrime(t), NthPrime(t + 1))
  {
    hide NthPrime, NextPrime;
    Primes16();
    Primes24();
    Gap(59, 61);
    Gap(61, 67);
    Gap(67, 71);
    Gap(71, 73);
    Gap(73, 79);
    Gap(79, 83);
    Gap(83, 89);
    Gap(89, 97);
  }

  lemma Order24(t: nat)
    requires 24 <= t < 32
    ensures NextPrime(NthPrime(t), NthPrime(t + 1))
  {
    hide NthPrime, NextPrime;
    Primes24();
    Primes32();
    Gap(97, 101);
    Gap(101, 103);
    Gap(103, 107);
    Gap(107, 109);
    Gap(109, 113);
    Gap(113, 127);
    Gap(127, 131);
    Gap(131, 137);
  }

  lemma Order32(t: nat)
    requires 32 <= t < 40
    ensures NextPrime(NthPrime(t), NthPrime(t + 1))
  {
    hide NthPrime, NextPrime;
    Primes32();
    Primes40();
    Gap(137, 139);
    Gap(139, 149);
    Gap(149, 151);
    Gap(151, 157);
    Gap(157, 163);
    Gap(163, 167);
    Gap(167, 173);
    Gap(173, 179);
  }

  lemma Order40(t: nat)
    requires 40 <= t < 48
    ensures NextPrime(NthPrime(t), NthPrime(t + 1))
  {
    hide NthPrime, NextPrime;
    Primes40();
    Primes48();
    Gap(179, 181);
    Gap(181, 191);
    Gap(191, 193);
    Gap(193, 197);
    Gap(197, 199);
    Gap(199, 211);
    Gap(211, 223);
    Gap(223, 227);
  }

  lemma Order48(t: nat)
    requires 48 <= t < 56
    ensures NextPrime(NthPrime(t), NthPrime(t + 1))
  {
    hide NthPrime, NextPrime;
    Primes48();
    Primes56();
    Gap(227, 229);
    Gap(229, 233);
    Gap(233, 239);
    Gap(239, 241);
    Gap(241, 251);
    Gap(251, 257);
    Gap(257, 263);
    Gap(263, 269);
  }

  lemma Order56(t: nat)
    requires 56 <= t < 64
    ensures NextPrime(NthPrime(t), NthPrime(t + 1))
  {
    hide NthPrime, NextPrime;
    Primes56();
    Primes64();
    Gap(269, 271);
    Gap(271, 277);
    Gap(277, 281);
    Gap(281, 283);
    Gap(283, 293);
    Gap(293, 307);
    Gap(307, 311);
    Gap(311, 313);
  }

  lemma Order64(t: nat)
    requires 64 <= t < 72
    ensures NextPrime(NthPrime(t), NthPrime(t + 1))
  {
    hide NthPrime, NextPrime;
    Primes64();
    Primes72();
    Gap(313, 317);
    Gap(317, 331);
    Gap(331, 337);
    Gap(337, 347);
    Gap(347, 349);
    Gap(349, 353);
    Gap(353, 359);
    Gap(359, 367);
  }

  lemma Order72(t: nat)
    requires 72 <= t < 79
    ensures NextPrime(NthPrime(t), NthPrime(t + 1))
  {
    hide NthPrime, NextPrime;
    Primes72();
    Gap(367, 373);
    Gap(373, 379);
    Gap(379, 383);
    Gap(383, 389);
    Gap(389, 397);
    Gap(397, 401);
    Gap(401, 409);
  }

  /** The list starts with 2 and goes on with the next prime each time. */
  lemma PrimesInOrder(t: nat)
    requires t < 79
    ensures NthPrime(0) == 2 && NextPrime(NthPrime(t), NthPrime(t + 1))
  {
    hide NextPrime, NthPrime;
    Primes00();
    if t < 40 {
      if t < 8 {
        Order00(t);
      } else if t < 16 {
        Order08(t);
      } else if t < 24 {
        Order16(t);
      } else if t < 32 {
        Order24(t);
      } else {
        Order32(t);
      }
    } else if t < 48 {
      Order40(t);
    } else if t < 56 {
      Order48(t);
    } else if t < 64 {
      Order56(t);
    } else if t < 72 {
      Order64(t);
    } else {
      Order72(t);
    }
  }
}
