/** Streaming SHA-512 (ed25519-hash.h), after sections 4, 5 and 6.4 of FIPS 180-4. */
module Sha512 {
  import opened Words
  import opened Bytes

  type words = seq<bv64>
  type State = h: words | |h| == 8 witness IV
  type Block = b: bytes | |b| == 128 witness seq(128, _ => 0)

  const K00: words := [
    0x428a2f98d728ae22, 0x7137449123ef65cd, 0xb5c0fbcfec4d3b2f, 0xe9b5dba58189dbbc,
    0x3956c25bf348b538, 0x59f111f1b605d019, 0x923f82a4af194f9b, 0xab1c5ed5da6d8118,
    0xd807aa98a3030242, 0x12835b0145706fbe, 0x243185be4ee4b28c, 0x550c7dc3d5ffb4e2,
    0x72be5d74f27b896f, 0x80deb1fe3b1696b1, 0x9bdc06a725c71235, 0xc19bf174cf692694
  ]

  const K16: words := [
    0xe49b69c19ef14ad2, 0xefbe4786384f25e3, 0x0fc19dc68b8cd5b5, 0x240ca1cc77ac9c65,
    0x2de92c6f592b0275, 0x4a7484aa6ea6e483, 0x5cb0a9dcbd41fbd4, 0x76f988da831153b5,
    0x983e5152ee66dfab, 0xa831c66d2db43210, 0xb00327c898fb213f, 0xbf597fc7beef0ee4,
    0xc6e00bf33da88fc2, 0xd5a79147930aa725, 0x06ca6351e003826f, 0x142929670a0e6e70
  ]

  const K32: words := [
    0x27b70a8546d22ffc, 0x2e1b21385c26c926, 0x4d2c6dfc5ac42aed, 0x53380d139d95b3df,
    0x650a73548baf63de, 0x766a0abb3c77b2a8, 0x81c2c92e47edaee6, 0x92722c851482353b,
    0xa2bfe8a14cf10364, 0xa81a664bbc423001, 0xc24b8b70d0f89791, 0xc76c51a30654be30,
    0xd192e819d6ef5218, 0xd69906245565a910, 0xf40e35855771202a, 0x106aa07032bbd1b8
  ]

  const K48: words := [
    0x19a4c116b8d2d0c8, 0x1e376c085141ab53, 0x2748774cdf8eeb99, 0x34b0bcb5e19b48a8,
    0x391c0cb3c5c95a63, 0x4ed8aa4ae3418acb, 0x5b9cca4f7763e373, 0x682e6ff3d6b2b8a3,
    0x748f82ee5defb2fc, 0x78a5636f43172f60, 0x84c87814a1f0ab72, 0x8cc702081a6439ec,
    0x90befffa23631e28, 0xa4506cebde82bde9, 0xbef9a3f7b2c67915, 0xc67178f2e372532b
  ]

  const K64: words := [
    0xca273eceea26619c, 0xd186b8c721c0c207, 0xeada7dd6cde0eb1e, 0xf57d4f7fee6ed178,
    0x06f067aa72176fba, 0x0a637dc5a2c898a6, 0x113f9804bef90dae, 0x1b710b35131c471b,
    0x28db77f523047d84, 0x32caab7b40c72493, 0x3c9ebe0a15c9bebc, 0x431d67c49c100d4c,
    0x4cc5d4becb3e42b6, 0x597f299cfc657e2a, 0x5fcb6fab3ad6faec, 0x6c44198c4a475817
  ]

  function RoundConstant(t: nat): bv64
    requires t < 80
  {
    if t < 16 then K00[t] else if t < 32 then K16[t - 16] else if t < 48 then K32[t - 32] else if t < 64 then K48[t - 48]
    else K64[t - 64]
  }

  const IV: words := [
    0x6a09e667f3bcc908, 0xbb67ae8584caa73b, 0x3c6ef372fe94f82b, 0xa54ff53a5f1d36f1,
    0x510e527fade682d1, 0x9b05688c2b3e6c1f, 0x1f83d9abfb41bd6b, 0x5be0cd19137e2179
  ]

  function Rotr(x: bv64, k: bv64): bv64
    requires 0 < k < 64
  {
    (x >> k) | (x << (64 - k))
  }

  // The functions as FIPS 180-4 section 4.1.3 defines them.

  function Ch(x: bv64, y: bv64, z: bv64): bv64 {
    (x & y) ^ (!x & z)
  }

  function Maj(x: bv64, y: bv64, z: bv64): bv64 {
    (x & y) ^ (x & z) ^ (y & z)
  }

  function Sigma0(x: bv64): bv64 {
    Rotr(x, 28) ^ Rotr(x, 34) ^ Rotr(x, 39)
  }

  function Sigma1(x: bv64): bv64 {
    Rotr(x, 14) ^ Rotr(x, 18) ^ Rotr(x, 41)
  }

  function Gamma0(x: bv64): bv64 {
    Rotr(x, 1) ^ Rotr(x, 8) ^ (x >> 7)
  }

  function Gamma1(x: bv64): bv64 {
    Rotr(x, 19) ^ Rotr(x, 61) ^ (x >> 6)
  }

  /** Addition modulo 2^64. */
  function Add(x: bv64, y: bv64): bv64 {
    x + y
  }

  // The code's shorter forms of Ch and Maj.

  function ShortCh(x: bv64, y: bv64, z: bv64): bv64 {
    z ^ (x & (y ^ z))
  }

  function ShortMaj(x: bv64, y: bv64, z: bv64): bv64 {
    ((x | y) & z) | (x & y)
  }

  lemma ShortChIsCh(x: bv64, y: bv64, z: bv64)
    ensures ShortCh(x, y, z) == Ch(x, y, z)
  {
    assert z ^ (x & (y ^ z)) == (x & y) ^ (!x & z);
  }

  lemma ShortMajIsMaj(x: bv64, y: bv64, z: bv64)
    ensures ShortMaj(x, y, z) == Maj(x, y, z)
  {
    assert ((x | y) & z) | (x & y) == (x & y) ^ (x & z) ^ (y & z);
  }

  /** The number a big-endian byte string stands for. */
  function BeVal(s: bytes): nat {
    if |s| == 0 then 0 else 256 * BeVal(s[..|s| - 1]) + s[|s| - 1] as int
  }

  /** `k` big-endian bytes of `n`, modulo 256^k. */
  function BeBytes(n: nat, k: nat): (s: bytes)
    ensures |s| == k
  {
    if k == 0 then [] else BeBytes(n / 256, k - 1) + [n % 256]
  }

  lemma {:induction false} BeValBound(s: bytes, m: nat)
    requires |s| <= m
    ensures BeVal(s) < Pow2(8 * m)
  {
    if |s| == 0 {
      Pow2Mono(0, 8 * m);
    } else {
      BeValBound(s[..|s| - 1], m - 1);
      Pow2By8(m - 1);
    }
  }

  lemma Pow2By8(m: nat)
    ensures Pow2(8 * (m + 1)) == 256 * Pow2(8 * m)
  {
    Pow2Add(8, 8 * m);
    assert Pow2(8) == 256;
  }

  function LoadBe(s: bytes): bv64
    requires |s| == 8
  {
    BeValBound(s, 8);
    Pow2Of64();
    BeVal(s) as bv64
  }

  /** The first `n` words of the message schedule. */
  function Schedule(block: Block, n: nat): (w: words)
    requires n <= 80
    ensures |w| == n
  {
    if n == 0 then [] else
      var w := Schedule(block, n - 1);
      var t := n - 1;
      w + [if t < 16 then LoadBe(block[8 * t..8 * t + 8])
           else Add(Add(Add(Gamma1(w[t - 2]), w[t - 7]), Gamma0(w[t - 15])), w[t - 16])]
  }

  /** One round on the eight working variables. */
  function Step(r: State, k: bv64, w: bv64): State {
    var t1 := Add(Add(Add(Add(r[7], Sigma1(r[4])), Ch(r[4], r[5], r[6])), k), w);
    var t2 := Add(Sigma0(r[0]), Maj(r[0], r[1], r[2]));
    [Add(t1, t2), r[0], r[1], r[2], Add(r[3], t1), r[4], r[5], r[6]]
  }

  function Rounds(r: State, w: words, n: nat): State
    requires |w| == 80 && n <= 80
  {
    if n == 0 then r else Step(Rounds(r, w, n - 1), RoundConstant(n - 1), w[n - 1])
  }

  /** The hash computation of one block. */
  function Compress(h: State, block: Block): State {
    var r := Rounds(h, Schedule(block, 80), 80);
    [Add(r[0], h[0]), Add(r[1], h[1]), Add(r[2], h[2]), Add(r[3], h[3]), Add(r[4], h[4]), Add(r[5], h[5]), Add(r[6], h[6]),
     Add(r[7], h[7])]
  }

  /** The blocks of `data` one after the other, through a compression function `f`. */
  function Fold<S>(f: (S, Block) -> S, h: S, data: bytes): S
    requires |data| % 128 == 0
    decreases |data|
  {
    if |data| == 0 then h else Fold(f, f(h, data[..128]), data[128..])
  }

  lemma {:induction false} FoldAppend<S>(f: (S, Block) -> S, h: S, a: bytes, b: bytes)
    requires |a| % 128 == 0 && |b| % 128 == 0
    ensures Fold(f, h, a + b) == Fold(f, Fold(f, h, a), b)
    decreases |a|
  {
    if |a| == 0 {
      assert a + b == b;
    } else {
      assert (a + b)[..128] == a[..128] && (a + b)[128..] == a[128..] + b;
      FoldAppend(f, f(h, a[..128]), a[128..], b);
    }
  }

  // ---- padding (FIPS 180-4 section 5.1.2) ----

  function ZeroCount(n: nat): nat {
    (111 - n) % 128
  }

  /** One bit set, zeros to 16 bytes short of a block, and the bit length in 128 bits. */
  function Pad(m: bytes): (p: bytes)
    ensures |p| % 128 == 0
  {
    m + [0x80] + Zeros(ZeroCount(|m|)) + BeBytes(8 * |m|, 16)
  }

  function DigestOf(h: State, n: nat): (hash: bytes)
    requires n <= 8
    ensures |hash| == 8 * n
  {
    if n == 0 then [] else DigestOf(h, n - 1) + BeBytes(h[n - 1] as int, 8)
  }

  /** The chaining words, each as eight big-endian bytes. */
  function Digest(h: State): bytes {
    DigestOf(h, |h|)
  }

  /** SHA-512 of a whole message. */
  function Hash(m: bytes): (hash: bytes)
    ensures |hash| == 64
  {
    Digest(Fold<State>(Compress, IV, Pad(m)))
  }

  // ---- the streaming state ----

  const TWO64: nat := 0x1_0000_0000_0000_0000
  /** The 128-bit bit counter wraps around. */
  ghost function Wrap(n: nat): nat {
    n % TWO128
  }

  /** The whole blocks of `msg`, and what is left. */
  ghost function Front(msg: bytes): bytes {
    msg[..|msg| - |msg| % 128]
  }

  /** The chaining value after the whole blocks of `msg`. */
  ghost function Chained(msg: bytes): State {
    Fold<State>(Compress, IV, Front(msg))
  }

  ghost function Tail(msg: bytes): bytes {
    msg[|msg| - |msg| % 128..]
  }

  /** The bit count of the whole blocks of `msg`, as the two counter words hold it. */
  ghost predicate Counts(t0: u64, t1: u64, msg: bytes) {
    t0 % 1024 == 0 && t1 as int * TWO64 + t0 as int == Wrap(8 * (|msg| - |msg| % 128))
  }

  lemma {:induction false} Whole(msg: bytes, data: bytes)
    requires |msg| % 128 == 0 && |data| % 128 == 0
    ensures Chained(msg + data) == Fold<State>(Compress, Chained(msg), data)
    ensures Tail(msg + data) == [] && |msg + data| % 128 == 0
  {
    hide Compress;
    assert |msg + data| % 128 == 0;
    assert (msg + data)[..|msg + data|] == msg + data && msg[..|msg|] == msg;
    FoldAppend<State>(Compress, IV, msg, data);
  }

  lemma Grown(msg: bytes, data: bytes)
    requires |msg| % 128 + |data| < 128
    ensures Chained(msg + data) == Chained(msg)
    ensures Tail(msg + data) == Tail(msg) + data
    ensures |msg + data| - |msg + data| % 128 == |msg| - |msg| % 128
  {
    hide Compress, Fold;
    var k := |msg| - |msg| % 128;
    assert |msg + data| - |msg + data| % 128 == k;
    assert (msg + data)[..k] == msg[..k];
    assert (msg + data)[k..] == msg[k..] + data;
  }

  /** Filling the last block. */
  lemma Filled(msg: bytes, data: bytes)
    requires |msg| % 128 + |data| == 128
    ensures |msg + data| % 128 == 0
    ensures |Tail(msg) + data| == 128
    ensures Chained(msg + data) == Fold<State>(Compress, Chained(msg), Tail(msg) + data)
  {
    hide Compress;
    var k := |msg| - |msg| % 128;
    assert |msg + data| == k + 128;
    assert (msg + data)[..k + 128] == msg[..k] + (msg[k..] + data);
    FoldAppend<State>(Compress, IV, msg[..k], msg[k..] + data);
  }

  /** The two counter words after one more block: the carry test sees exactly the wrap-around. */
  lemma CountBlock(t0: u64, t1: u64, s0: u64, s1: u64)
    requires t0 % 1024 == 0
    requires s0 as int == (t0 as int + 1024) % TWO64
    requires s1 as int == (t1 as int + (if s0 == 0 then 1 else 0)) % TWO64
    ensures s0 % 1024 == 0
    ensures s1 as int * TWO64 + s0 as int == Wrap(t1 as int * TWO64 + t0 as int + 1024)
  {
    if t0 as int + 1024 < TWO64 {
      assert s0 as int == t0 as int + 1024 && s1 == t1;
    } else {
      assert s0 == 0;
    }
  }

  lemma CountOn(c: nat, n: nat, m: nat)
    requires c == Wrap(n)
    ensures Wrap(c + m) == Wrap(n + m)
  {
    assert n == n / TWO128 * TWO128 + c;
    assert n + m == n / TWO128 * TWO128 + (c + m);
  }

  method BuildSchedule(block: Block) returns (w: array<bv64>)
    ensures fresh(w) && w.Length == 80 && w[..] == Schedule(block, 80)
  {
    hide Add, Gamma0, Gamma1, LoadBe;
    w := new bv64[80];
    var i := 0;
    while i < 16
      invariant 0 <= i <= 16
      invariant w[..i] == Schedule(block, i)
    {
      w[i] := LoadBe(block[8 * i..8 * i + 8]);
      i := i + 1;
    }
    while i < 80
      invariant 16 <= i <= 80
      invariant w[..i] == Schedule(block, i)
    {
      ghost var was := w[..i];
      w[i] := Add(Add(Add(Gamma1(w[i - 2]), w[i - 7]), Gamma0(w[i - 15])), w[i - 16]);
      i := i + 1;
      assert w[..i - 1] == was;
    }
    assert w[..] == w[..80];
  }

  /** The counter after more whole blocks. */
  lemma CountsGrow(t0: u64, t1: u64, s0: u64, s1: u64, msg: bytes, more: bytes, n: nat)
    requires Counts(t0, t1, msg) && s0 % 1024 == 0
    requires s1 as int * TWO64 + s0 as int == Wrap(t1 as int * TWO64 + t0 as int + 8 * n)
    requires |more| - |more| % 128 == |msg| - |msg| % 128 + n
    ensures Counts(s0, s1, more)
  {
    CountOn(t1 as int * TWO64 + t0 as int, 8 * (|msg| - |msg| % 128), 8 * n);
  }

  method CompressBlock(h: State, block: Block) returns (o: State)
    ensures o == Compress(h, block)
  {
    hide Add, Schedule, Step, RoundConstant;
    var w := BuildSchedule(block);
    var r := h;
    var i := 0;
    while i < 80
      invariant 0 <= i <= 80
      invariant w[..] == Schedule(block, 80)
      invariant r == Rounds(h, w[..], i)
    {
      r := StepInPlace(r, RoundConstant(i), w[i]);
      i := i + 1;
    }
    o := [Add(r[0], h[0]), Add(r[1], h[1]), Add(r[2], h[2]), Add(r[3], h[3]), Add(r[4], h[4]), Add(r[5], h[5]), Add(r[6], h[6]),
          Add(r[7], h[7])];
  }

  /** The eight assignments that end a round. */
  function Shifted<T>(r: seq<T>, e: T, a: T): (o: seq<T>)
    requires |r| == 8
    ensures o == [a, r[0], r[1], r[2], e, r[4], r[5], r[6]]
  {
    r[7 := r[6]][6 := r[5]][5 := r[4]][4 := e][3 := r[2]][2 := r[1]][1 := r[0]][0 := a]
  }

  /** One round as the code writes it. */
  method StepInPlace(s: State, k: bv64, w: bv64) returns (r: State)
    ensures r == Step(s, k, w)
  {
    hide Add, Ch, Maj, ShortCh, ShortMaj, Sigma0, Sigma1, Shifted;
    ShortMajIsMaj(s[0], s[1], s[2]);
    ShortChIsCh(s[4], s[5], s[6]);
    var t1 := Add(Sigma0(s[0]), ShortMaj(s[0], s[1], s[2]));
    var t0 := Add(Add(Add(Add(s[7], Sigma1(s[4])), ShortCh(s[4], s[5], s[6])), k), w);
    r := Shifted(s, Add(s[3], t0), Add(t0, t1));
  }

  // ---- the length field ----

  lemma {:induction false} BeJoin(hi: nat, lo: nat, j: nat, k: nat)
    requires lo < Pow2(8 * k)
    ensures BeBytes(hi * Pow2(8 * k) + lo, j + k) == BeBytes(hi, j) + BeBytes(lo, k)
  {
    hide Pow2, BeBytes;
    BeStep(lo, k);
    if k == 0 {
      OneWeight(hi, lo);
    } else {
      var x := Pow2(8 * (k - 1));
      Pow2By8(k - 1);
      TakeFactor(hi, x);
      ShiftByte(hi * x, lo, x);
      BeStep(hi * Pow2(8 * k) + lo, j + k);
      BeJoin(hi, lo / 256, j, k - 1);
    }
  }

  lemma BeStep(n: nat, k: nat)
    ensures BeBytes(n, k) == if k == 0 then [] else BeBytes(n / 256, k - 1) + [n % 256]
  {}

  lemma OneWeight(hi: nat, lo: nat)
    requires lo < Pow2(8 * 0)
    ensures hi * Pow2(8 * 0) + lo == hi
  {}

  lemma TakeFactor(hi: int, x: int)
    ensures hi * (256 * x) == 256 * (hi * x)
  {}

  lemma ShiftByte(y: int, lo: nat, x: int)
    requires lo < 256 * x
    ensures (256 * y + lo) % 256 == lo % 256 && (256 * y + lo) / 256 == y + lo / 256 && lo / 256 < x
  {}

  lemma Pow2Of128()
    ensures Pow2(128) == TWO128
  {
    hide Pow2;
    Pow2Of64();
    Pow2Add(64, 64);
  }

  /** The two counter words and the buffered bytes give the padding's 128-bit length. */
  lemma LengthField(t0: u64, t1: u64, msg: bytes)
    requires Counts(t0, t1, msg)
    ensures t0 as int + 8 * (|msg| % 128) < TWO64
    ensures BeBytes(t1, 8) + BeBytes(t0 as int + 8 * (|msg| % 128), 8) == BeBytes(8 * |msg|, 16)
  {
    hide Pow2, BeBytes;
    var lo := t0 as int + 8 * (|msg| % 128);
    var n := 8 * |msg|;
    var q := n / TWO128;
    Pow2Of64();
    Pow2Of128();
    assert lo < TWO64 by { LastBlockFits(t0, |msg| % 128); }
    CountOn(t1 as int * TWO64 + t0 as int, 8 * (|msg| - |msg| % 128), 8 * (|msg| % 128));
    assert n % TWO128 == t1 as int * TWO64 + lo;
    BeJoin(q, n % TWO128, 0, 16);
    assert q * TWO128 + n % TWO128 == n;
    BeJoin(t1, lo, 8, 8);
  }

  lemma LastBlockFits(t0: u64, l: nat)
    requires t0 % 1024 == 0 && l < 128
    ensures t0 as int + 8 * l < TWO64
  {}

  function StoreBe(v: u64): bytes {
    [v / 0x100_0000_0000_0000, v / 0x1_0000_0000_0000 % 256, v / 0x100_0000_0000 % 256, v / 0x1_0000_0000 % 256,
     v / 0x100_0000 % 256, v / 0x1_0000 % 256, v / 0x100 % 256, v % 256]
  }

  lemma StoreBeIsBeBytes(v: u64)
    ensures StoreBe(v) == BeBytes(v, 8)
  {
    assert v / 256 / 256 == v / 0x1_0000;
    assert v / 0x1_0000 / 256 == v / 0x100_0000;
    assert v / 0x100_0000 / 256 == v / 0x1_0000_0000;
    assert v / 0x1_0000_0000 / 256 == v / 0x100_0000_0000;
    assert v / 0x100_0000_0000 / 256 == v / 0x1_0000_0000_0000;
    assert v / 0x1_0000_0000_0000 / 256 == v / 0x100_0000_0000_0000;
    BeUnfold(v, 8);
    BeUnfold(v / 0x100, 7);
    BeUnfold(v / 0x1_0000, 6);
    BeUnfold(v / 0x100_0000, 5);
    BeUnfold(v / 0x1_0000_0000, 4);
    BeUnfold(v / 0x100_0000_0000, 3);
    BeUnfold(v / 0x1_0000_0000_0000, 2);
    BeUnfold(v / 0x100_0000_0000_0000, 1);
  }

  lemma BeUnfold(v: nat, k: nat)
    requires k > 0
    ensures BeBytes(v, k) == BeBytes(v / 256, k - 1) + [v % 256]
  {}

  /** The zeros of the padding, and their split over two blocks. */
  lemma ZerosOf(n: nat)
    ensures n % 128 <= 111 ==> ZeroCount(n) == 111 - n % 128
    ensures n % 128 > 111 ==> Zeros(127 - n % 128) + Zeros(112) == Zeros(ZeroCount(n))
  {
    if n % 128 > 111 {
      assert ZeroCount(n) == 127 - n % 128 + 112;
    }
  }

  lemma {:induction false} BeValue(n: nat, k: nat)
    ensures Pow2(8 * k) > 0 && BeVal(BeBytes(n, k)) == n % Pow2(8 * k)
  {
    hide Pow2;
    if k == 0 {
      ModOne(n);
    } else {
      BeValue(n / 256, k - 1);
      BeStep(n, k);
      Pow2By8(k - 1);
      assert BeBytes(n, k)[..k - 1] == BeBytes(n / 256, k - 1);
      Pow2Mono(0, 8 * (k - 1));
      SplitByte(n, Pow2(8 * (k - 1)));
    }
  }

  lemma ModOne(n: nat)
    ensures Pow2(8 * 0) == 1 && n % Pow2(8 * 0) == 0
  {}

  lemma SplitByte(n: nat, x: nat)
    requires x > 0
    ensures n % (256 * x) == 256 * (n / 256 % x) + n % 256
  {
    var q, r := n / 256 / x, n / 256 % x;
    assert n / 256 == x * q + r;
    assert n == (256 * x) * q + (256 * r + n % 256) by {
      assert 256 * (x * q) == (256 * x) * q;
    }
    Unique(n, 256 * x, q, 256 * r + n % 256);
  }

  lemma Unique(n: int, d: int, q: int, r: int)
    requires d > 0 && n == d * q + r && 0 <= r < d
    ensures n % d == r
  {
    var j := n / d - q;
    assert d * j == r - n % d;
    assert j > 0 ==> d * j >= d;
    assert j < 0 ==> d * j <= -d;
  }

  /** The message, a one bit, as few zeros as fill whole blocks with the length, and the length in bits modulo 2^128. */
  lemma PadShape(m: bytes)
    ensures |m| + 17 <= |Pad(m)| < |m| + 17 + 128
    ensures Pad(m)[..|m|] == m && Pad(m)[|m|] == 0x80
    ensures forall i :: |m| < i < |Pad(m)| - 16 ==> Pad(m)[i] == 0
    ensures BeVal(Pad(m)[|Pad(m)| - 16..]) == 8 * |m| % TWO128
  {
    hide BeBytes, BeVal;
    var b := BeBytes(8 * |m|, 16);
    assert Pad(m)[|Pad(m)| - 16..] == b;
    BeValue(8 * |m|, 16);
    Pow2Of128();
  }

  /** Messages of fewer than 2^128 bits can be told apart after padding. */
  lemma PadInjective(m: bytes, n: bytes)
    requires 8 * |m| < TWO128 && 8 * |n| < TWO128 && Pad(m) == Pad(n)
    ensures m == n
  {
    hide Pad, BeVal;
    PadShape(m);
    PadShape(n);
    assert |m| == |n|;
  }

  // ---- the padded message, block by block ----

  /** What follows the whole blocks of `msg` in the padded message. */
  ghost function LastBlocks(msg: bytes): bytes {
    Tail(msg) + [0x80] + Zeros(ZeroCount(|msg|)) + BeBytes(8 * |msg|, 16)
  }

  lemma PadIsLastBlocks(msg: bytes)
    ensures |LastBlocks(msg)| % 128 == 0
    ensures Fold<State>(Compress, IV, Pad(msg)) == Fold<State>(Compress, Chained(msg), LastBlocks(msg))
  {
    hide Compress, Fold, Pad, LastBlocks;
    var k := |msg| - |msg| % 128;
    PadSplit(msg);
    FoldAppend<State>(Compress, IV, msg[..k], LastBlocks(msg));
  }

  lemma PadSplit(msg: bytes)
    ensures |LastBlocks(msg)| % 128 == 0
    ensures Pad(msg) == Front(msg) + LastBlocks(msg)
  {
    hide Zeros, BeBytes;
    assert msg == Front(msg) + Tail(msg);
    LastLength(|msg|, |msg| % 128);
  }

  lemma LastLength(n: nat, l: nat)
    requires l == n % 128
    ensures (l + 1 + ZeroCount(n) + 16) % 128 == 0
  {}

  lemma Joins(a: bytes, b: bytes, c: bytes)
    ensures a + b + c == a + (b + c)
  {}

  method CopyAt(dst: array<u8>, at: nat, src: bytes)
    requires at + |src| <= dst.Length
    modifies dst
    ensures dst[..at + |src|] == old(dst[..at]) + src
    ensures dst[at + |src|..] == old(dst[at + |src|..])
  {
    var i := 0;
    while i < |src|
      invariant 0 <= i <= |src|
      invariant dst[..at] == old(dst[..at])
      invariant dst[at..at + i] == src[..i]
      invariant dst[at + i..] == old(dst[at + i..])
    {
      dst[at + i] := src[i];
      i := i + 1;
    }
    assert src[..i] == src;
    assert dst[..at + i] == dst[..at] + dst[at..at + i];
  }

  class Hasher {
    var h: State
    var t0: u64
    var t1: u64
    var leftover: nat
    const buffer: array<u8>
    ghost var msg: bytes

    /** `msg` is everything fed so far. */
    ghost predicate Valid()
      reads this, buffer
    {
      && buffer.Length == 128
      && leftover == |msg| % 128
      && h == Chained(msg)
      && buffer[..leftover] == Tail(msg)
      && Counts(t0, t1, msg)
    }

    constructor ()
      ensures Valid() && fresh(buffer) && msg == []
    {
      hide Compress;
      h := IV;
      t0 := 0;
      t1 := 0;
      leftover := 0;
      buffer := new u8[128];
      msg := [];
    }

    ghost function Bits(): (b: nat)
      reads this`t0, this`t1
      ensures Wrap(b) == b
    {
      t1 as int * TWO64 + t0 as int
    }

    method CountOneBlock()
      requires t0 % 1024 == 0
      modifies this`t0, this`t1
      ensures t0 % 1024 == 0 && Bits() == Wrap(old(Bits()) + 1024)
    {
      t0 := (t0 as int + 1024) % TWO64;
      t1 := (t1 as int + (if t0 == 0 then 1 else 0)) % TWO64;
      CountBlock(old(t0), old(t1), t0, t1);
    }

    method Blocks(data: bytes)
      requires |data| % 128 == 0 && t0 % 1024 == 0
      modifies this`h, this`t0, this`t1
      ensures h == Fold<State>(Compress, old(h), data)
      ensures t0 % 1024 == 0
      ensures Bits() == Wrap(old(Bits()) + 8 * |data|)
    {
      hide Compress, Bits, Wrap;
      var rest := data;
      ghost var start := Bits();
      while |rest| > 0
        invariant |rest| % 128 == 0 && |rest| <= |data|
        invariant Fold<State>(Compress, h, rest) == Fold<State>(Compress, old(h), data)
        invariant t0 % 1024 == 0
        invariant Bits() == Wrap(start + 8 * (|data| - |rest|))
      {
        CountOn(Bits(), start + 8 * (|data| - |rest|), 1024);
        h := CompressBlock(h, rest[..128]);
        CountOneBlock();
        rest := rest[128..];
      }
    }

    /** Completes the buffered block from `data`, which has enough bytes for it. */
    method FillBlock(data: bytes) returns (rest: bytes)
      requires Valid() && 0 < leftover && 128 - leftover <= |data|
      modifies this, buffer
      ensures buffer.Length == 128
      ensures |msg| % 128 == 0 && msg + rest == old(msg) + data
      ensures h == Chained(msg) && Counts(t0, t1, msg)
    {
      hide Compress, Fold, Counts;
      var want := 128 - leftover;
      CopyAt(buffer, leftover, data[..want]);
      Filled(msg, data[..want]);
      assert buffer[..] == buffer[..128];
      rest := data[want..];
      assert t0 % 1024 == 0 by { CountsAligned(t0, t1, msg); }
      Blocks(buffer[..]);
      CountsGrow(old(t0), old(t1), t0, t1, msg, msg + data[..want], 128);
      msg := msg + data[..want];
    }

    /** Takes the whole blocks of `data` and keeps the rest in the buffer. */
    method TakeBlocks(data: bytes)
      requires buffer.Length == 128 && |msg| % 128 == 0
      requires h == Chained(msg) && Counts(t0, t1, msg)
      modifies this, buffer
      ensures Valid() && msg == old(msg) + data
    {
      hide Compress, Fold, Counts, Chained, Tail, Wrap;
      var whole := |data| - |data| % 128;
      ghost var sofar := msg + data[..whole];
      leftover := |data| - whole;
      Whole(msg, data[..whole]);
      Grown(sofar, data[whole..]);
      assert sofar + data[whole..] == msg + data;
      assert t0 % 1024 == 0 by { CountsAligned(t0, t1, msg); }
      if whole > 0 {
        Blocks(data[..whole]);
        CountsGrow(old(t0), old(t1), t0, t1, msg, sofar, whole);
      } else {
        assert sofar == msg;
      }
      CountsSame(t0, t1, sofar, msg + data);
      CopyAt(buffer, 0, data[whole..]);
      msg := msg + data;
    }

    /** Feeding `data` in one call or in several leaves the same `msg`. */
    method Update(data: bytes)
      requires Valid()
      modifies this, buffer
      ensures Valid() && msg == old(msg) + data
    {
      hide Compress, Fold, Counts, Chained;
      var rest := data;
      if leftover > 0 {
        if |data| < 128 - leftover {
          CopyAt(buffer, leftover, data);
          Grown(msg, data);
          CountsSame(t0, t1, msg, msg + data);
          leftover := leftover + |data|;
          msg := msg + data;
          return;
        }
        rest := FillBlock(data);
      }
      TakeBlocks(rest);
    }

    /** Fills the block with zeros, takes it, and starts the next one with zeros. */
    method CloseBlock(ghost start: bytes) returns (ghost first: bytes)
      requires buffer.Length == 128 && leftover < 128 && t0 % 1024 == 0 && buffer[..leftover + 1] == start
      modifies this`h, this`t0, this`t1, buffer
      ensures first == start + Zeros(127 - leftover) && |first| == 128
      ensures h == Fold<State>(Compress, old(h), first) && t0 % 1024 == 0
      ensures buffer[..112] == Zeros(112)
    {
      hide Compress, Fold, Zeros, Bits;
      CopyAt(buffer, leftover + 1, Zeros(127 - leftover));
      first := buffer[..];
      assert first == buffer[..128];
      Blocks(buffer[..]);
      CopyAt(buffer, 0, Zeros(112));
    }

    /** Closes the buffered bytes with a one bit and zeros, through one more block when the length does not fit. */
    method PadBuffer() returns (ghost first: bytes)
      requires Valid()
      modifies this`h, this`t0, this`t1, buffer
      ensures |first| % 128 == 0 && h == Fold<State>(Compress, old(h), first) && t0 % 1024 == 0
      ensures first + buffer[..112] == Tail(msg) + [0x80] + Zeros(ZeroCount(|msg|))
    {
      hide Compress, Fold, Chained, Counts, Zeros, ZeroCount, Tail, Bits;
      assert t0 % 1024 == 0 by { CountsAligned(t0, t1, msg); }
      assert h == Fold<State>(Compress, h, []) by { FoldNone<State>(Compress, h); }
      ZerosOf(|msg|);
      CopyAt(buffer, leftover, [0x80]);
      ghost var start := Tail(msg) + [0x80];
      assert buffer[..leftover + 1] == start;
      if leftover <= 111 {
        CopyAt(buffer, leftover + 1, Zeros(111 - leftover));
        first := [];
        assert first + buffer[..112] == buffer[..112];
      } else {
        first := CloseBlock(start);
        Joins(start, Zeros(127 - leftover), Zeros(112));
      }
    }

    /** Feeds the padding and the length. */
    method Close()
      requires Valid()
      modifies this, buffer
      ensures msg == old(msg) && h == Fold<State>(Compress, IV, Pad(msg))
    {
      hide Compress, Fold, BeBytes, StoreBe, Chained, Counts, Pad, Tail, Zeros, ZeroCount;
      PadIsLastBlocks(msg);
      LengthField(t0, t1, msg);
      var s0: u64, s1: u64 := t0 as int + leftover * 8, t1;
      StoreBeIsBeBytes(s0);
      StoreBeIsBeBytes(s1);
      ghost var start := h;
      ghost var first := PadBuffer();
      CopyAt(buffer, 112, StoreBe(s1) + StoreBe(s0));
      assert buffer[..] == buffer[..128];
      assert first + buffer[..] == LastBlocks(msg);
      FoldAppend<State>(Compress, start, first, buffer[..]);
      Blocks(buffer[..]);
    }

    method Final() returns (hash: bytes)
      requires Valid()
      modifies this, buffer
      ensures hash == Hash(old(msg))
    {
      hide Compress, Fold, Pad;
      Close();
      hash := DigestBytes(h);
    }
  }

  lemma CountsAligned(t0: u64, t1: u64, msg: bytes)
    requires Counts(t0, t1, msg)
    ensures t0 % 1024 == 0
  {}

  lemma CountsSame(t0: u64, t1: u64, msg: bytes, more: bytes)
    requires Counts(t0, t1, msg) && |more| - |more| % 128 == |msg| - |msg| % 128
    ensures Counts(t0, t1, more)
  {}

  lemma FoldNone<S>(f: (S, Block) -> S, h: S)
    ensures Fold(f, h, []) == h
  {}

  method DigestBytes(h: State) returns (hash: bytes)
    ensures hash == Digest(h)
  {
    hide BeBytes, StoreBe;
    hash := [];
    var i := 0;
    while i < 8
      invariant 0 <= i <= 8
      invariant hash == DigestOf(h, i)
    {
      StoreBeIsBeBytes(h[i] as int);
      hash := hash + StoreBe(h[i] as int);
      i := i + 1;
    }
  }

  method HashAll(data: bytes) returns (hash: bytes)
    ensures hash == Hash(data)
  {
    hide Hash;
    var s := new Hasher();
    s.Update(data);
    assert s.msg == data;
    hash := s.Final();
  }
}
