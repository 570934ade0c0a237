/** A published example of SHA-512: the hash of "abc" (the examples that accompany FIPS 180-4). */
module Sha512Example {
  import opened Words
  import opened Bytes
  import opened Sha512
  import opened Sha512Constants

  const ABC: bytes := [0x61, 0x62, 0x63]

  const ABC_BLOCK: Block := [0x61, 0x62, 0x63, 0x80] + Zeros(123) + [0x18]

  lemma OneBlock()
    ensures Pad(ABC) == ABC_BLOCK
  {
    SmallLength(24, 16);
  }

  lemma {:induction false} SmallLength(n: nat, k: nat)
    requires n < 256 && k > 0
    ensures BeBytes(n, k) == Zeros(k - 1) + [n]
  {
    if k == 1 {
      assert BeBytes(n / 256, 0) == [];
    } else {
      ZeroLength(k - 1);
    }
  }

  lemma {:induction false} ZeroLength(k: nat)
    ensures BeBytes(0, k) == Zeros(k)
  {
    if k > 0 {
      ZeroLength(k - 1);
    }
  }

  // ---- the message schedule ----

  ghost function Word(t: nat): bv64
    requires t < 80
  {
    Schedule(ABC_BLOCK, 80)[t]
  }

  lemma {:induction false} SchedulePrefix(b: Block, m: nat, n: nat)
    requires m <= n <= 80
    ensures Schedule(b, n)[..m] == Schedule(b, m)
    decreases n
  {
    hide Add, Gamma0, Gamma1, LoadBe;
    if m < n {
      SchedulePrefix(b, m, n - 1);
      var w := Schedule(b, n - 1);
      assert Schedule(b, n)[..n - 1] == w && w[..m] == Schedule(b, n)[..m];
    }
  }

  lemma WordIs(b: Block, t: nat)
    requires t < 80
    ensures var w := Schedule(b, 80);
            w[t] == if t < 16 then LoadBe(b[8 * t..8 * t + 8])
                    else Add(Add(Add(Gamma1(w[t - 2]), w[t - 7]), Gamma0(w[t - 15])), w[t - 16])
  {
    hide Add, Gamma0, Gamma1, LoadBe;
    SchedulePrefix(b, t + 1, 80);
    SchedulePrefix(b, t, 80);
    var w, v := Schedule(b, 80), Schedule(b, t);
    assert w[t] == Schedule(b, t + 1)[t];
    assert forall i :: 0 <= i < t ==> v[i] == w[..t][i] == w[i];
  }

  lemma LoadIs(s: bytes, w: bv64)
    requires |s| == 8 && BeVal(s) == w as int
    ensures LoadBe(s) == w
  {
    hide BeVal;
    assert (w as int) as bv64 == w;
  }

  lemma LoadedWord(t: nat, s: bytes, n: int, w: bv64)
    requires t < 16 && s == ABC_BLOCK[8 * t..8 * t + 8] && BeVal(s) == n && w as int == n
    ensures Word(t) == w
  {
    hide Schedule, BeVal, LoadBe;
    LoadIs(s, w);
    WordIs(ABC_BLOCK, t);
  }

  lemma AddIs(x: bv64, y: bv64)
    ensures Add(x, y) == x + y
  {}

  /** A word of the schedule from four earlier ones and the values of the two functions. */
  lemma NextWord(t: nat, a: bv64, b: bv64, c: bv64, d: bv64, g1: bv64, g0: bv64, u: bv64, v: bv64, w: bv64)
    requires 16 <= t < 80 && Word(t - 2) == a && Word(t - 7) == b && Word(t - 15) == c && Word(t - 16) == d
    requires Gamma1(a) == g1 && Gamma0(c) == g0 && u == g1 + b && v == u + g0 && w == v + d
    ensures Word(t) == w
  {
    hide Schedule, Gamma0, Gamma1, Add;
    AddIs(g1, b);
    AddIs(u, g0);
    AddIs(v, d);
    WordIs(ABC_BLOCK, t);
  }

  lemma ZeroBlock(t: nat)
    requires 1 <= t < 15
    ensures Word(t) == 0
  {
    hide BeVal, Schedule;
    var s := ABC_BLOCK[8 * t..8 * t + 8];
    assert s == Zeros(8);
    ZeroValue(8);
    LoadedWord(t, s, 0, 0);
  }

  lemma {:induction false} ZeroValue(k: nat)
    ensures BeVal(Zeros(k)) == 0
  {
    if k > 0 {
      ZeroValue(k - 1);
      assert Zeros(k)[..k - 1] == Zeros(k - 1);
    }
  }

  lemma EightBytes(s: bytes)
    requires |s| == 8
    ensures BeVal(s) == s[7] as int + 0x100 * (s[6] as int + 0x100 * (s[5] as int + 0x100 * (s[4] as int +
                        0x100 * (s[3] as int + 0x100 * (s[2] as int + 0x100 * (s[1] as int + 0x100 * s[0] as int))))))
  {
    BeLast(s);
    BeLast(s[..7]);
    BeLast(s[..6]);
    BeLast(s[..5]);
    BeLast(s[..4]);
    BeLast(s[..3]);
    BeLast(s[..2]);
    BeLast(s[..1]);
  }

  lemma BeLast(s: bytes)
    requires |s| > 0
    ensures BeVal(s) == s[|s| - 1] as int + 0x100 * BeVal(s[..|s| - 1])
    ensures forall i :: 0 <= i < |s| ==> s[..|s| - 1][..i] == s[..i]
  {}

  lemma FirstWord()
    ensures Word(0) == 0x6162638000000000
  {
    hide Schedule, BeVal, Word;
    var s: bytes := [0x61, 0x62, 0x63, 0x80, 0, 0, 0, 0];
    assert ABC_BLOCK[0..8] == s;
    EightBytes(s);
    LoadedWord(0, s, 0x6162638000000000, 0x6162638000000000);
  }

  lemma LastWord()
    ensures Word(15) == 0x18
  {
    hide Schedule, BeVal, Word;
    var s: bytes := [0, 0, 0, 0, 0, 0, 0, 0x18];
    assert ABC_BLOCK[120..128] == s;
    EightBytes(s);
    LoadedWord(15, s, 0x18, 0x18);
  }

  lemma Words00()
    ensures Word(0) == 0x6162638000000000 && Word(1) == 0 && Word(2) == 0 && Word(3) == 0
    ensures Word(4) == 0 && Word(5) == 0 && Word(6) == 0 && Word(7) == 0
  {
    hide Word;
    FirstWord();
    forall t | 1 <= t < 8 ensures Word(t) == 0 {
      ZeroBlock(t);
    }
  }

  lemma Words08()
    ensures Word(8) == 0 && Word(9) == 0 && Word(10) == 0 && Word(11) == 0
    ensures Word(12) == 0 && Word(13) == 0 && Word(14) == 0 && Word(15) == 0x18
  {
    hide Word;
    LastWord();
    forall t | 8 <= t < 15 ensures Word(t) == 0 {
      ZeroBlock(t);
    }
  }

  lemma Gammas16()
    ensures Gamma1(0x0) == 0x0 && Gamma0(0x0) == 0x0
    ensures Gamma1(0x18) == 0x00030000000000c0 && Gamma0(0x0) == 0x0
    ensures Gamma1(0x6162638000000000) == 0x0a9699a24c700003 && Gamma0(0x0) == 0x0
    ensures Gamma1(0x00030000000000c0) == 0x00000c0060000603 && Gamma0(0x0) == 0x0
    ensures Gamma1(0x0a9699a24c700003) == 0x549ef62639858996 && Gamma0(0x0) == 0x0
    ensures Gamma1(0x00000c0060000603) == 0x00c0003300003c00 && Gamma0(0x0) == 0x0
    ensures Gamma1(0x549ef62639858996) == 0x1497007a8a0e9da4 && Gamma0(0x0) == 0x0
    ensures Gamma1(0x00c0003300003c00) == 0x01830180cc0780f0 && Gamma0(0x0) == 0x0
  {}

  lemma Words16()
    ensures Word(16) == 0x6162638000000000 && Word(17) == 0x00030000000000c0
    ensures Word(18) == 0x0a9699a24c700003 && Word(19) == 0x00000c0060000603
    ensures Word(20) == 0x549ef62639858996 && Word(21) == 0x00c0003300003c00
    ensures Word(22) == 0x1497007a8a0e9dbc && Word(23) == 0x62e56500cc0780f0
  {
    hide Word, Gamma0, Gamma1;
    Words00();
    Words08();
    Gammas16();
    NextWord(16, 0x0, 0x0, 0x0, 0x6162638000000000, 0x0, 0x0, 0x0, 0x0, 0x6162638000000000);
    NextWord(17, 0x18, 0x0, 0x0, 0x0, 0x00030000000000c0, 0x0, 0x00030000000000c0, 0x00030000000000c0, 0x00030000000000c0);
    NextWord(18, 0x6162638000000000, 0x0, 0x0, 0x0,
             0x0a9699a24c700003, 0x0, 0x0a9699a24c700003, 0x0a9699a24c700003, 0x0a9699a24c700003);
    NextWord(19, 0x00030000000000c0, 0x0, 0x0, 0x0,
             0x00000c0060000603, 0x0, 0x00000c0060000603, 0x00000c0060000603, 0x00000c0060000603);
    NextWord(20, 0x0a9699a24c700003, 0x0, 0x0, 0x0,
             0x549ef62639858996, 0x0, 0x549ef62639858996, 0x549ef62639858996, 0x549ef62639858996);
    NextWord(21, 0x00000c0060000603, 0x0, 0x0, 0x0,
             0x00c0003300003c00, 0x0, 0x00c0003300003c00, 0x00c0003300003c00, 0x00c0003300003c00);
    NextWord(22, 0x549ef62639858996, 0x18, 0x0, 0x0,
             0x1497007a8a0e9da4, 0x0, 0x1497007a8a0e9dbc, 0x1497007a8a0e9dbc, 0x1497007a8a0e9dbc);
    NextWord(23, 0x00c0003300003c00, 0x6162638000000000, 0x0, 0x0,
             0x01830180cc0780f0, 0x0, 0x62e56500cc0780f0, 0x62e56500cc0780f0, 0x62e56500cc0780f0);
  }

  lemma Gammas24()
    ensures Gamma1(0x1497007a8a0e9dbc) == 0x775ddd475a5386d7 && Gamma0(0x0) == 0x0
    ensures Gamma1(0x62e56500cc0780f0) == 0xe6beb1cecfac0000 && Gamma0(0x0) == 0x0
    ensures Gamma1(0x7760dd475a538797) == 0xca2987a3d45d99ef && Gamma0(0x0) == 0x0
    ensures Gamma1(0xf1554b711c1c0003) == 0x096f708f8dfe539c && Gamma0(0x0) == 0x0
    ensures Gamma1(0xca2993a4345d9ff2) == 0xe19a622a00490f62 && Gamma0(0x0) == 0x0
    ensures Gamma1(0x5e0e66b5c783dd32) == 0x8aad47f527d65e16 && Gamma0(0x0) == 0x0
    ensures Gamma1(0xe25a625d00494b62) == 0x3836272a3a00de33 && Gamma0(0x18) == 0x180000000000000c
    ensures Gamma1(0x9f44486fb1e4fbd2) == 0x672501b4b8edbb47 && Gamma0(0x6162638000000000) == 0x3012976480000000
  {}

  lemma Words24()
    ensures Word(24) == 0x7760dd475a538797 && Word(25) == 0xf1554b711c1c0003
    ensures Word(26) == 0xca2993a4345d9ff2 && Word(27) == 0x5e0e66b5c783dd32
    ensures Word(28) == 0xe25a625d00494b62 && Word(29) == 0x9f44486fb1e4fbd2
    ensures Word(30) == 0xb31b8c2b06085f2f && Word(31) == 0x0e987660934142f6
  {
    hide Word, Gamma0, Gamma1;
    Words08();
    Words16();
    Gammas24();
    NextWord(24, 0x1497007a8a0e9dbc, 0x00030000000000c0, 0x0, 0x0,
             0x775ddd475a5386d7, 0x0, 0x7760dd475a538797, 0x7760dd475a538797, 0x7760dd475a538797);
    NextWord(25, 0x62e56500cc0780f0, 0x0a9699a24c700003, 0x0, 0x0,
             0xe6beb1cecfac0000, 0x0, 0xf1554b711c1c0003, 0xf1554b711c1c0003, 0xf1554b711c1c0003);
    NextWord(26, 0x7760dd475a538797, 0x00000c0060000603, 0x0, 0x0,
             0xca2987a3d45d99ef, 0x0, 0xca2993a4345d9ff2, 0xca2993a4345d9ff2, 0xca2993a4345d9ff2);
    NextWord(27, 0xf1554b711c1c0003, 0x549ef62639858996, 0x0, 0x0,
             0x096f708f8dfe539c, 0x0, 0x5e0e66b5c783dd32, 0x5e0e66b5c783dd32, 0x5e0e66b5c783dd32);
    NextWord(28, 0xca2993a4345d9ff2, 0x00c0003300003c00, 0x0, 0x0,
             0xe19a622a00490f62, 0x0, 0xe25a625d00494b62, 0xe25a625d00494b62, 0xe25a625d00494b62);
    NextWord(29, 0x5e0e66b5c783dd32, 0x1497007a8a0e9dbc, 0x0, 0x0,
             0x8aad47f527d65e16, 0x0, 0x9f44486fb1e4fbd2, 0x9f44486fb1e4fbd2, 0x9f44486fb1e4fbd2);
    NextWord(30, 0xe25a625d00494b62, 0x62e56500cc0780f0, 0x18, 0x0,
             0x3836272a3a00de33, 0x180000000000000c, 0x9b1b8c2b06085f23, 0xb31b8c2b06085f2f, 0xb31b8c2b06085f2f);
    NextWord(31, 0x9f44486fb1e4fbd2, 0x7760dd475a538797, 0x6162638000000000, 0x18,
             0x672501b4b8edbb47, 0x3012976480000000, 0xde85defc134142de, 0x0e987660934142de, 0x0e987660934142f6);
  }

  lemma Gammas32()
    ensures Gamma1(0xb31b8c2b06085f2f) == 0x91f5f90beddfb8c0 && Gamma0(0x00030000000000c0) == 0xc001850000000061
    ensures Gamma1(0x0e987660934142f6) == 0x5ca7130e168b00d3 && Gamma0(0x0a9699a24c700003) == 0x8654f77bc0ec9001
    ensures Gamma1(0xa4af2cfd09fbb924) == 0x50cf4fce5e6586fe && Gamma0(0x00000c0060000603) == 0x8300061430a0030b
    ensures Gamma1(0xad289e2e0bd53186) == 0xcdc086adf5431989 && Gamma0(0x549ef62639858996) == 0xbcb2d80976884a51
    ensures Gamma1(0x3c74563aa2f9673e) == 0xcfb4a70377878832 && Gamma0(0x00c0003300003c00) == 0x00614019d5001e44
    ensures Gamma1(0x6ccdcd14cc14b53f) == 0xf17ab20b8a3762ad && Gamma0(0x1497007a8a0e9dbc) == 0xb676393dca995d78
    ensures Gamma1(0xc3f925b337f22bde) == 0x59bd117057f8f0a7 && Gamma0(0x62e56500cc0780f0) == 0xc1d59d2f6757c8f9
    ensures Gamma1(0x5bcc77a75ad95b54) == 0xf466079dc5555494 && Gamma0(0x7760dd475a538797) == 0x2c29cfc464c73743
  {}

  lemma Words32()
    ensures Word(32) == 0xa4af2cfd09fbb924 && Word(33) == 0xad289e2e0bd53186
    ensures Word(34) == 0x3c74563aa2f9673e && Word(35) == 0x6ccdcd14cc14b53f
    ensures Word(36) == 0xc3f925b337f22bde && Word(37) == 0x5bcc77a75ad95b54
    ensures Word(38) == 0x3ec2257adca09a52 && Word(39) == 0x28246960001fc5eb
  {
    hide Word, Gamma0, Gamma1;
    Words16();
    Words24();
    Gammas32();
    NextWord(32, 0xb31b8c2b06085f2f, 0xf1554b711c1c0003, 0x00030000000000c0, 0x6162638000000000,
             0x91f5f90beddfb8c0, 0xc001850000000061, 0x834b447d09fbb8c3, 0x434cc97d09fbb924, 0xa4af2cfd09fbb924);
    NextWord(33, 0x0e987660934142f6, 0xca2993a4345d9ff2, 0x0a9699a24c700003, 0x00030000000000c0,
             0x5ca7130e168b00d3, 0x8654f77bc0ec9001, 0x26d0a6b24ae8a0c5, 0xad259e2e0bd530c6, 0xad289e2e0bd53186);
    NextWord(34, 0xa4af2cfd09fbb924, 0x5e0e66b5c783dd32, 0x00000c0060000603, 0x0a9699a24c700003,
             0x50cf4fce5e6586fe, 0x8300061430a0030b, 0xaeddb68425e96430, 0x31ddbc985689673b, 0x3c74563aa2f9673e);
    NextWord(35, 0xad289e2e0bd53186, 0xe25a625d00494b62, 0x549ef62639858996, 0x00000c0060000603,
             0xcdc086adf5431989, 0xbcb2d80976884a51, 0xb01ae90af58c64eb, 0x6ccdc1146c14af3c, 0x6ccdcd14cc14b53f);
    NextWord(36, 0x3c74563aa2f9673e, 0x9f44486fb1e4fbd2, 0x00c0003300003c00, 0x549ef62639858996,
             0xcfb4a70377878832, 0x00614019d5001e44, 0x6ef8ef73296c8404, 0x6f5a2f8cfe6ca248, 0xc3f925b337f22bde);
    NextWord(37, 0x6ccdcd14cc14b53f, 0xb31b8c2b06085f2f, 0x1497007a8a0e9dbc, 0x00c0003300003c00,
             0xf17ab20b8a3762ad, 0xb676393dca995d78, 0xa4963e36903fc1dc, 0x5b0c77745ad91f54, 0x5bcc77a75ad95b54);
    NextWord(38, 0xc3f925b337f22bde, 0x0e987660934142f6, 0x62e56500cc0780f0, 0x1497007a8a0e9dbc,
             0x59bd117057f8f0a7, 0xc1d59d2f6757c8f9, 0x685587d0eb3a339d, 0x2a2b25005291fc96, 0x3ec2257adca09a52);
    NextWord(39, 0x5bcc77a75ad95b54, 0xa4af2cfd09fbb924, 0x7760dd475a538797, 0x62e56500cc0780f0,
             0xf466079dc5555494, 0x2c29cfc464c73743, 0x9915349acf510db8, 0xc53f045f341844fb, 0x28246960001fc5eb);
  }

  lemma Gammas40()
    ensures Gamma1(0x3ec2257adca09a52) == 0xe5a0649b4ad90b6c && Gamma0(0xf1554b711c1c0003) == 0xfab95a651d2a2401
    ensures Gamma1(0x28246960001fc5eb) == 0xb93ebfa10dd2504d && Gamma0(0xca2993a4345d9ff2) == 0x964ab366f6722959
    ensures Gamma1(0x04e33a75ce2be88a) == 0x5a1b1fdbc1295237 && Gamma0(0x5e0e66b5c783dd32) == 0x1de521f13d896afe
    ensures Gamma1(0x7d5314b3c359e0e7) == 0xd7710666b75418d3 && Gamma0(0xe25a625d00494b62) == 0x120bdf8867247e6c
    ensures Gamma1(0xaef7a285ff251266) == 0xd74a1f7b1a84b898 && Gamma0(0x9f44486fb1e4fbd2) == 0x9c03e8ef682050e5
    ensures Gamma1(0x0b8472581deea04f) == 0x880462790149bb44 && Gamma0(0xb31b8c2b06085f2f) == 0xf758ea81fe0e3776
    ensures Gamma1(0xb174e26eddc7b033) == 0x7f64b6d1c90744e5 && Gamma0(0x0e987660934142f6) == 0xf15f93aae81562bc
    ensures Gamma1(0x5d63bae58ddd88de) == 0x5b73926b8f87816a && Gamma0(0xa4af2cfd09fbb924) == 0x77ba670b83e7d059
  {}

  lemma Words40()
    ensures Word(40) == 0x04e33a75ce2be88a && Word(41) == 0x7d5314b3c359e0e7
    ensures Word(42) == 0xaef7a285ff251266 && Word(43) == 0x0b8472581deea04f
    ensures Word(44) == 0xb174e26eddc7b033 && Word(45) == 0x5d63bae58ddd88de
    ensures Word(46) == 0x4c044007b744ccbb && Word(47) == 0xe6a9aa4d74dc7d43
  {
    hide Word, Gamma0, Gamma1;
    Words24();
    Words32();
    Gammas40();
    NextWord(40, 0x3ec2257adca09a52, 0xad289e2e0bd53186, 0xf1554b711c1c0003, 0x7760dd475a538797,
             0xe5a0649b4ad90b6c, 0xfab95a651d2a2401, 0x92c902c956ae3cf2, 0x8d825d2e73d860f3, 0x04e33a75ce2be88a);
    NextWord(41, 0x28246960001fc5eb, 0x3c74563aa2f9673e, 0xca2993a4345d9ff2, 0xf1554b711c1c0003,
             0xb93ebfa10dd2504d, 0x964ab366f6722959, 0xf5b315dbb0cbb78b, 0x8bfdc942a73de0e4, 0x7d5314b3c359e0e7);
    NextWord(42, 0x04e33a75ce2be88a, 0x6ccdcd14cc14b53f, 0x5e0e66b5c783dd32, 0xca2993a4345d9ff2,
             0x5a1b1fdbc1295237, 0x1de521f13d896afe, 0xc6e8ecf08d3e0776, 0xe4ce0ee1cac77274, 0xaef7a285ff251266);
    NextWord(43, 0x7d5314b3c359e0e7, 0xc3f925b337f22bde, 0xe25a625d00494b62, 0x5e0e66b5c783dd32,
             0xd7710666b75418d3, 0x120bdf8867247e6c, 0x9b6a2c19ef4644b1, 0xad760ba2566ac31d, 0x0b8472581deea04f);
    NextWord(44, 0xaef7a285ff251266, 0x5bcc77a75ad95b54, 0x9f44486fb1e4fbd2, 0xe25a625d00494b62,
             0xd74a1f7b1a84b898, 0x9c03e8ef682050e5, 0x33169722755e13ec, 0xcf1a8011dd7e64d1, 0xb174e26eddc7b033);
    NextWord(45, 0x0b8472581deea04f, 0x3ec2257adca09a52, 0xb31b8c2b06085f2f, 0x9f44486fb1e4fbd2,
             0x880462790149bb44, 0xf758ea81fe0e3776, 0xc6c687f3ddea5596, 0xbe1f7275dbf88d0c, 0x5d63bae58ddd88de);
    NextWord(46, 0xb174e26eddc7b033, 0x28246960001fc5eb, 0x0e987660934142f6, 0xb31b8c2b06085f2f,
             0x7f64b6d1c90744e5, 0xf15f93aae81562bc, 0xa7892031c9270ad0, 0x98e8b3dcb13c6d8c, 0x4c044007b744ccbb);
    NextWord(47, 0x5d63bae58ddd88de, 0x04e33a75ce2be88a, 0xa4af2cfd09fbb924, 0x0e987660934142f6,
             0x5b73926b8f87816a, 0x77ba670b83e7d059, 0x6056cce15db369f4, 0xd81133ece19b3a4d, 0xe6a9aa4d74dc7d43);
  }

  lemma Gammas48()
    ensures Gamma1(0x4c044007b744ccbb) == 0xf88578bd2cfb8000 && Gamma0(0xad289e2e0bd53186) == 0xd16336b577f6e791
    ensures Gamma1(0xe6a9aa4d74dc7d43) == 0xb97f8817a6793571 && Gamma0(0x3c74563aa2f9673e) == 0x207eb7e71e9bb836
    ensures Gamma1(0xebeaf1237248019c) == 0x5ccbbfa241ad42a8 && Gamma0(0x6ccdcd14cc14b53f) == 0x89d3b0dd5b5e6740
    ensures Gamma1(0x361e80b2d00f3193) == 0x561e19579b2fea5e && Gamma0(0xc3f925b337f22bde) == 0xbeb899b74ea10393
    ensures Gamma1(0x2e9839125df3b175) == 0x02550da5a1c80ed2 && Gamma0(0x5bcc77a75ad95b54) == 0x790a6f4b4483c647
    ensures Gamma1(0x3319629293ad5363) == 0x326b177dfb767c21 && Gamma0(0x3ec2257adca09a52) == 0x4d2254d2e135ac87
    ensures Gamma1(0x9cbc5d89ac1b89d5) == 0x96aaaeaccddd1508 && Gamma0(0x28246960001fc5eb) == 0x7f6a580ba00fc2bb
    ensures Gamma1(0x275e23ffeeca50b7) == 0x707a839b4d965122 && Gamma0(0x04e33a75ce2be88a) == 0x887cb8747947887c
  {}

  lemma Words48()
    ensures Word(48) == 0xebeaf1237248019c && Word(49) == 0x361e80b2d00f3193
    ensures Word(50) == 0x2e9839125df3b175 && Word(51) == 0x3319629293ad5363
    ensures Word(52) == 0x9cbc5d89ac1b89d5 && Word(53) == 0x275e23ffeeca50b7
    ensures Word(54) == 0x3b80d680bf69ef58 && Word(55) == 0x0d0696933945a125
  {
    hide Word, Gamma0, Gamma1;
    Words32();
    Words40();
    Gammas48();
    NextWord(48, 0x4c044007b744ccbb, 0x7d5314b3c359e0e7, 0xad289e2e0bd53186, 0xa4af2cfd09fbb924,
             0xf88578bd2cfb8000, 0xd16336b577f6e791, 0x75d88d70f05560e7, 0x473bc426684c4878, 0xebeaf1237248019c);
    NextWord(49, 0xe6a9aa4d74dc7d43, 0xaef7a285ff251266, 0x3c74563aa2f9673e, 0xad289e2e0bd53186,
             0xb97f8817a6793571, 0x207eb7e71e9bb836, 0x68772a9da59e47d7, 0x88f5e284c43a000d, 0x361e80b2d00f3193);
    NextWord(50, 0xebeaf1237248019c, 0x0b8472581deea04f, 0x6ccdcd14cc14b53f, 0x3c74563aa2f9673e,
             0x5ccbbfa241ad42a8, 0x89d3b0dd5b5e6740, 0x685031fa5f9be2f7, 0xf223e2d7bafa4a37, 0x2e9839125df3b175);
    NextWord(51, 0x361e80b2d00f3193, 0xb174e26eddc7b033, 0xc3f925b337f22bde, 0x6ccdcd14cc14b53f,
             0x561e19579b2fea5e, 0xbeb899b74ea10393, 0x0792fbc678f79a91, 0xc64b957dc7989e24, 0x3319629293ad5363);
    NextWord(52, 0x2e9839125df3b175, 0x5d63bae58ddd88de, 0x5bcc77a75ad95b54, 0xc3f925b337f22bde,
             0x02550da5a1c80ed2, 0x790a6f4b4483c647, 0x5fb8c88b2fa597b0, 0xd8c337d674295df7, 0x9cbc5d89ac1b89d5);
    NextWord(53, 0x3319629293ad5363, 0x4c044007b744ccbb, 0x3ec2257adca09a52, 0x5bcc77a75ad95b54,
             0x326b177dfb767c21, 0x4d2254d2e135ac87, 0x7e6f5785b2bb48dc, 0xcb91ac5893f0f563, 0x275e23ffeeca50b7);
    NextWord(54, 0x9cbc5d89ac1b89d5, 0xe6a9aa4d74dc7d43, 0x28246960001fc5eb, 0x3ec2257adca09a52,
             0x96aaaeaccddd1508, 0x7f6a580ba00fc2bb, 0x7d5458fa42b9924b, 0xfcbeb105e2c95506, 0x3b80d680bf69ef58);
    NextWord(55, 0x275e23ffeeca50b7, 0xebeaf1237248019c, 0x04e33a75ce2be88a, 0x28246960001fc5eb,
             0x707a839b4d965122, 0x887cb8747947887c, 0x5c6574bebfde52be, 0xe4e22d333925db3a, 0x0d0696933945a125);
  }

  lemma Gammas56()
    ensures Gamma1(0x3b80d680bf69ef58) == 0xe103b02fe362ca91 && Gamma0(0x7d5314b3c359e0e7) == 0x592e7f6435e91a52
    ensures Gamma1(0x0d0696933945a125) == 0xdc240f63541a7884 && Gamma0(0xaef7a285ff251266) == 0x3088c9a57193e605
    ensures Gamma1(0x7533eabcb786ff00) == 0x77ab94e933be750f && Gamma0(0x0b8472581deea04f) == 0xcadeb5bae6d163c7
    ensures Gamma1(0xb89826cee6fbf0e5) == 0xb83fe1ff089db431 && Gamma0(0xb174e26eddc7b033) == 0xea69ec11dd8590c9
    ensures Gamma1(0x249b4fbcad623e9f) == 0x639bf448f053e9af && Gamma0(0x5d63bae58ddd88de) == 0xf05679bde878a2f6
    ensures Gamma1(0x4aea9df2b02d6f1e) == 0xfb9c8cbf18159b4b && Gamma0(0x4c044007b744ccbb) == 0x1dd62cc3d37bab08
    ensures Gamma1(0x2cc57475a55e8d8f) == 0xb72953e452efa2e4 && Gamma0(0xe6a9aa4d74dc7d43) == 0xb17f2fd86df35a26
    ensures Gamma1(0xb2574ae938d8be89) == 0x87a23c288b7bb1ac && Gamma0(0xebeaf1237248019c) == 0xe8c94782dcb2d8cc
  {}

  lemma Words56()
    ensures Word(56) == 0x7533eabcb786ff00 && Word(57) == 0xb89826cee6fbf0e5
    ensures Word(58) == 0x249b4fbcad623e9f && Word(59) == 0x4aea9df2b02d6f1e
    ensures Word(60) == 0x2cc57475a55e8d8f && Word(61) == 0xb2574ae938d8be89
    ensures Word(62) == 0xc1b35a57b16d6aea && Word(63) == 0xcc4918b5949206bb
  {
    hide Word, Gamma0, Gamma1;
    Words40();
    Words48();
    Gammas56();
    NextWord(56, 0x3b80d680bf69ef58, 0x361e80b2d00f3193, 0x7d5314b3c359e0e7, 0x04e33a75ce2be88a,
             0xe103b02fe362ca91, 0x592e7f6435e91a52, 0x172230e2b371fc24, 0x7050b046e95b1676, 0x7533eabcb786ff00);
    NextWord(57, 0x0d0696933945a125, 0x2e9839125df3b175, 0xaef7a285ff251266, 0x7d5314b3c359e0e7,
             0xdc240f63541a7884, 0x3088c9a57193e605, 0x0abc4875b20e29f9, 0x3b45121b23a20ffe, 0xb89826cee6fbf0e5);
    NextWord(58, 0x7533eabcb786ff00, 0x3319629293ad5363, 0x0b8472581deea04f, 0xaef7a285ff251266,
             0x77ab94e933be750f, 0xcadeb5bae6d163c7, 0xaac4f77bc76bc872, 0x75a3ad36ae3d2c39, 0x249b4fbcad623e9f);
    NextWord(59, 0xb89826cee6fbf0e5, 0x9cbc5d89ac1b89d5, 0xb174e26eddc7b033, 0x0b8472581deea04f,
             0xb83fe1ff089db431, 0xea69ec11dd8590c9, 0x54fc3f88b4b93e06, 0x3f662b9a923ececf, 0x4aea9df2b02d6f1e);
    NextWord(60, 0x249b4fbcad623e9f, 0x275e23ffeeca50b7, 0x5d63bae58ddd88de, 0xb174e26eddc7b033,
             0x639bf448f053e9af, 0xf05679bde878a2f6, 0x8afa1848df1e3a66, 0x7b509206c796dd5c, 0x2cc57475a55e8d8f);
    NextWord(61, 0x4aea9df2b02d6f1e, 0x3b80d680bf69ef58, 0x4c044007b744ccbb, 0x5d63bae58ddd88de,
             0xfb9c8cbf18159b4b, 0x1dd62cc3d37bab08, 0x371d633fd77f8aa3, 0x54f39003aafb35ab, 0xb2574ae938d8be89);
    NextWord(62, 0x2cc57475a55e8d8f, 0x0d0696933945a125, 0xe6a9aa4d74dc7d43, 0x4c044007b744ccbb,
             0xb72953e452efa2e4, 0xb17f2fd86df35a26, 0xc42fea778c354409, 0x75af1a4ffa289e2f, 0xc1b35a57b16d6aea);
    NextWord(63, 0xb2574ae938d8be89, 0x7533eabcb786ff00, 0xebeaf1237248019c, 0xe6a9aa4d74dc7d43,
             0x87a23c288b7bb1ac, 0xe8c94782dcb2d8cc, 0xfcd626e54302b0ac, 0xe59f6e681fb58978, 0xcc4918b5949206bb);
  }

  lemma Gammas64()
    ensures Gamma1(0xc1b35a57b16d6aea) == 0xa3c147e2bee414d0 && Gamma0(0x361e80b2d00f3193) == 0x085563d8bf77899b
    ensures Gamma1(0xcc4918b5949206bb) == 0x21ae984751d4cf56 && Gamma0(0x2e9839125df3b175) == 0xe23fb4c2181fcc69
    ensures Gamma1(0x5099c3add79f90ec) == 0x7791f07333d743d2 && Gamma0(0x3319629293ad5363) == 0xfad99aeefe625e44
    ensures Gamma1(0x5ea81d78e7660bf1) == 0x35446067db02db49 && Gamma0(0x9cbc5d89ac1b89d5) == 0x1afbea224cf9e870
    ensures Gamma1(0xebee6267405ac2a9) == 0x048997ce539b964e && Gamma0(0x275e23ffeeca50b7) == 0x24c6f39bf75676aa
    ensures Gamma1(0xb01f21926108a4ab) == 0x96ac0616a5f34bee && Gamma0(0x3b80d680bf69ef58) == 0x458cea3bde754d9d
    ensures Gamma1(0x786433dd2fe65556) == 0x086ac12a8df6961a && Gamma0(0x0d0696933945a125) == 0xa39440f229e91e71
    ensures Gamma1(0xc54a6eaa24a0552c) == 0x23e3c442c0456ca6 && Gamma0(0x7533eabcb786ff00) == 0x3a06a1619e1bf481
  {}

  lemma Words64()
    ensures Word(64) == 0x5099c3add79f90ec && Word(65) == 0x5ea81d78e7660bf1
    ensures Word(66) == 0xebee6267405ac2a9 && Word(67) == 0xb01f21926108a4ab
    ensures Word(68) == 0x786433dd2fe65556 && Word(69) == 0xc54a6eaa24a0552c
    ensures Word(70) == 0xb3c8f1530bdbaa9e && Word(71) == 0xbb8abfe56f469338
  {
    hide Word, Gamma0, Gamma1;
    Words48();
    Words56();
    Gammas64();
    NextWord(64, 0xc1b35a57b16d6aea, 0xb89826cee6fbf0e5, 0x361e80b2d00f3193, 0xebeaf1237248019c,
             0xa3c147e2bee414d0, 0x085563d8bf77899b, 0x5c596eb1a5e005b5, 0x64aed28a65578f50, 0x5099c3add79f90ec);
    NextWord(65, 0xcc4918b5949206bb, 0x249b4fbcad623e9f, 0x2e9839125df3b175, 0x361e80b2d00f3193,
             0x21ae984751d4cf56, 0xe23fb4c2181fcc69, 0x4649e803ff370df5, 0x28899cc61756da5e, 0x5ea81d78e7660bf1);
    NextWord(66, 0x5099c3add79f90ec, 0x4aea9df2b02d6f1e, 0x3319629293ad5363, 0x2e9839125df3b175,
             0x7791f07333d743d2, 0xfad99aeefe625e44, 0xc27c8e65e404b2f0, 0xbd562954e2671134, 0xebee6267405ac2a9);
    NextWord(67, 0x5ea81d78e7660bf1, 0x2cc57475a55e8d8f, 0x9cbc5d89ac1b89d5, 0x3319629293ad5363,
             0x35446067db02db49, 0x1afbea224cf9e870, 0x6209d4dd806168d8, 0x7d05beffcd5b5148, 0xb01f21926108a4ab);
    NextWord(68, 0xebee6267405ac2a9, 0xb2574ae938d8be89, 0x275e23ffeeca50b7, 0x9cbc5d89ac1b89d5,
             0x048997ce539b964e, 0x24c6f39bf75676aa, 0xb6e0e2b78c7454d7, 0xdba7d65383cacb81, 0x786433dd2fe65556);
    NextWord(69, 0xb01f21926108a4ab, 0xc1b35a57b16d6aea, 0x3b80d680bf69ef58, 0x275e23ffeeca50b7,
             0x96ac0616a5f34bee, 0x458cea3bde754d9d, 0x585f606e5760b6d8, 0x9dec4aaa35d60475, 0xc54a6eaa24a0552c);
    NextWord(70, 0x786433dd2fe65556, 0xcc4918b5949206bb, 0x0d0696933945a125, 0x3b80d680bf69ef58,
             0x086ac12a8df6961a, 0xa39440f229e91e71, 0xd4b3d9e022889cd5, 0x78481ad24c71bb46, 0xb3c8f1530bdbaa9e);
    NextWord(71, 0xc54a6eaa24a0552c, 0x5099c3add79f90ec, 0x7533eabcb786ff00, 0x0d0696933945a125,
             0x23e3c442c0456ca6, 0x3a06a1619e1bf481, 0x747d87f097e4fd92, 0xae8429523600f213, 0xbb8abfe56f469338);
  }

  lemma Gammas72()
    ensures Gamma1(0xb3c8f1530bdbaa9e) == 0xe9db7f240cd85b24 && Gamma0(0xb89826cee6fbf0e5) == 0x3885bb0c2056f463
    ensures Gamma1(0xbb8abfe56f469338) == 0x0cdcc2a5b8752e61 && Gamma0(0x249b4fbcad623e9f) == 0x0d200a0e9346b90c
    ensures Gamma1(0xf63d4265cc1c5a78) == 0x397df8e05f9e1b2d && Gamma0(0x4aea9df2b02d6f1e) == 0x3baa715f4fc6c03e
    ensures Gamma1(0xbe8355ea73129afb) == 0xa5bfd5d45be5d3d4 && Gamma0(0x2cc57475a55e8d8f) == 0x1917f5a64c40a551
    ensures Gamma1(0x49e2db8ebdcfbeb5) == 0xb9e7fe278ffb1ce9 && Gamma0(0xb2574ae938d8be89) == 0x51fd5caba7253687
    ensures Gamma1(0x82269d4a883a3d99) == 0x548f4065b858553d && Gamma0(0xc1b35a57b16d6aea) == 0x8b9b78c5206502ca
    ensures Gamma1(0xfdf53df3011f362b) == 0x0a9b44d16343ada4 && Gamma0(0xcc4918b5949206bb) == 0x5c70577314f4b556
    ensures Gamma1(0x464af5671d71c12e) == 0x0b6b482429572dd8 && Gamma0(0x5099c3add79f90ec) == 0xc4bd4b921db768c7
  {}

  lemma Words72()
    ensures Word(72) == 0xf63d4265cc1c5a78 && Word(73) == 0xbe8355ea73129afb
    ensures Word(74) == 0x49e2db8ebdcfbeb5 && Word(75) == 0x82269d4a883a3d99
    ensures Word(76) == 0xfdf53df3011f362b && Word(77) == 0x464af5671d71c12e
    ensures Word(78) == 0xe449b68198ec611c && Word(79) == 0x92aeeed1a7bcf7d2
  {
    hide Word, Gamma0, Gamma1;
    Words56();
    Words64();
    Gammas72();
    NextWord(72, 0xb3c8f1530bdbaa9e, 0x5ea81d78e7660bf1, 0xb89826cee6fbf0e5, 0x7533eabcb786ff00,
             0xe9db7f240cd85b24, 0x3885bb0c2056f463, 0x48839c9cf43e6715, 0x810957a914955b78, 0xf63d4265cc1c5a78);
    NextWord(73, 0xbb8abfe56f469338, 0xebee6267405ac2a9, 0x249b4fbcad623e9f, 0xb89826cee6fbf0e5,
             0x0cdcc2a5b8752e61, 0x0d200a0e9346b90c, 0xf8cb250cf8cff10a, 0x05eb2f1b8c16aa16, 0xbe8355ea73129afb);
    NextWord(74, 0xf63d4265cc1c5a78, 0xb01f21926108a4ab, 0x4aea9df2b02d6f1e, 0x249b4fbcad623e9f,
             0x397df8e05f9e1b2d, 0x3baa715f4fc6c03e, 0xe99d1a72c0a6bfd8, 0x25478bd2106d8016, 0x49e2db8ebdcfbeb5);
    NextWord(75, 0xbe8355ea73129afb, 0x786433dd2fe65556, 0x2cc57475a55e8d8f, 0x4aea9df2b02d6f1e,
             0xa5bfd5d45be5d3d4, 0x1917f5a64c40a551, 0x1e2409b18bcc292a, 0x373bff57d80cce7b, 0x82269d4a883a3d99);
    NextWord(76, 0x49e2db8ebdcfbeb5, 0xc54a6eaa24a0552c, 0xb2574ae938d8be89, 0x2cc57475a55e8d8f,
             0xb9e7fe278ffb1ce9, 0x51fd5caba7253687, 0x7f326cd1b49b7215, 0xd12fc97d5bc0a89c, 0xfdf53df3011f362b);
    NextWord(77, 0x82269d4a883a3d99, 0xb3c8f1530bdbaa9e, 0xc1b35a57b16d6aea, 0xb2574ae938d8be89,
             0x548f4065b858553d, 0x8b9b78c5206502ca, 0x085831b8c433ffdb, 0x93f3aa7de49902a5, 0x464af5671d71c12e);
    NextWord(78, 0xfdf53df3011f362b, 0xbb8abfe56f469338, 0xcc4918b5949206bb, 0xc1b35a57b16d6aea,
             0x0a9b44d16343ada4, 0x5c70577314f4b556, 0xc62604b6d28a40dc, 0x22965c29e77ef632, 0xe449b68198ec611c);
    NextWord(79, 0x464af5671d71c12e, 0xf63d4265cc1c5a78, 0x5099c3add79f90ec, 0xcc4918b5949206bb,
             0x0b6b482429572dd8, 0xc4bd4b921db768c7, 0x01a88a89f5738850, 0xc665d61c132af117, 0x92aeeed1a7bcf7d2);
  }

  // ---- the rounds ----

  /** The working variables after `n` rounds. */
  ghost predicate After(n: nat, a: bv64, b: bv64, c: bv64, d: bv64, e: bv64, f: bv64, g: bv64, h: bv64) {
    n <= 80 && Rounds(IV, Schedule(ABC_BLOCK, 80), n) == [a, b, c, d, e, f, g, h]
  }

  /** One round, from the variables `a` to `h` to the new `x` and `y`, through the values of the four functions. */
  lemma Round(n: nat, a: bv64, b: bv64, c: bv64, d: bv64, e: bv64, f: bv64, g: bv64, h: bv64, k: bv64, w: bv64,
              s0: bv64, maj: bv64, s1: bv64, ch: bv64, u1: bv64, u2: bv64, u3: bv64, t: bv64, s: bv64, x: bv64, y: bv64)
    requires n < 80 && RoundConstant(n) == k && Word(n) == w && After(n, a, b, c, d, e, f, g, h)
    requires Sigma0(a) == s0 && Maj(a, b, c) == maj && Sigma1(e) == s1 && Ch(e, f, g) == ch
    requires u1 == h + s1 && u2 == u1 + ch && u3 == u2 + k && t == u3 + w && s == s0 + maj && x == t + s && y == d + t
    ensures After(n + 1, x, a, b, c, y, e, f, g)
  {
    hide Sigma0, Sigma1, Ch, Maj, RoundConstant, Schedule, Add;
    AddIs(h, s1);
    AddIs(u1, ch);
    AddIs(u2, k);
    AddIs(u3, w);
    AddIs(s0, maj);
    AddIs(t, s);
    AddIs(d, t);
  }

  lemma Functions00()
    ensures Sigma0(0x6a09e667f3bcc908) == 0x08c4db56aac80c2a && Sigma1(0x510e527fade682d1) == 0x9427e33bb5c9dbca
    ensures Maj(0x6a09e667f3bcc908, 0xbb67ae8584caa73b, 0x3c6ef372fe94f82b) == 0x3a6fe667f69ce92b
    ensures Ch(0x510e527fade682d1, 0x9b05688c2b3e6c1f, 0x1f83d9abfb41bd6b) == 0x1f85c98c7b273d3b
    ensures Sigma0(0xf6afceb8bcfcddf5) == 0x918b1199fcba47b8 && Sigma1(0x58cb02347ab51f91) == 0x239c6f9100f091f8
    ensures Maj(0xf6afceb8bcfcddf5, 0x6a09e667f3bcc908, 0xbb67ae8584caa73b) == 0xfa2feea5b4fccd39
    ensures Ch(0x58cb02347ab51f91, 0x510e527fade682d1, 0x9b05688c2b3e6c1f) == 0xd30e6abc29ae629f
    ensures Sigma0(0x1320f8c9fb872cc0) == 0x55640968b6e1f35c && Sigma1(0xc3d4ebfd48650ffa) == 0x82b18d21686b99f8
    ensures Maj(0x1320f8c9fb872cc0, 0xf6afceb8bcfcddf5, 0x6a09e667f3bcc908) == 0x7229eee9fbbccdc0
    ensures Ch(0xc3d4ebfd48650ffa, 0x58cb02347ab51f91, 0x510e527fade682d1) == 0x50ca1236eda78f91
    ensures Sigma0(0xebcffc07203d91f3) == 0xc5960061a1dba08b && Sigma1(0xdfa9b239f2697812) == 0xa2b6fdf0ad0661e6
    ensures Maj(0xebcffc07203d91f3, 0x1320f8c9fb872cc0, 0xf6afceb8bcfcddf5) == 0xf3affc89b8bd9df1
    ensures Ch(0xdfa9b239f2697812, 0xc3d4ebfd48650ffa, 0x58cb02347ab51f91) == 0xc3c2a23d48f50f93
    ensures Sigma0(0x5a83cb3e80050e82) == 0xdd51a1983a2946b1 && Sigma1(0x0b47b4bb1928990e) == 0x1ff73b83b8c70132
    ensures Maj(0x5a83cb3e80050e82, 0xebcffc07203d91f3, 0x1320f8c9fb872cc0) == 0x5b83f80fa0050cc2
    ensures Ch(0x0b47b4bb1928990e, 0xdfa9b239f2697812, 0xc3d4ebfd48650ffa) == 0xcb91fb7d506d1ef2
    ensures Sigma0(0xb680953951604860) == 0x30fe548384c477f1 && Sigma1(0x745aca4a342ed2e2) == 0xda2b5b14ea8070d5
    ensures Maj(0xb680953951604860, 0x5a83cb3e80050e82, 0xebcffc07203d91f3) == 0xfa83dd3f002508e2
    ensures Ch(0x745aca4a342ed2e2, 0x0b47b4bb1928990e, 0xdfa9b239f2697812) == 0x8be3b03bd269b812
    ensures Sigma0(0xaf573b02403e89cd) == 0x976743ba05f8d092 && Sigma1(0x96f60209b6dc35ba) == 0xdf5f907f55efcdc6
    ensures Maj(0xaf573b02403e89cd, 0xb680953951604860, 0x5a83cb3e80050e82) == 0xbe839b3a402408c0
    ensures Ch(0x96f60209b6dc35ba, 0x745aca4a342ed2e2, 0x0b47b4bb1928990e) == 0x1d53b6ba3d2c98a6
    ensures Sigma0(0xc4875b0c7abc076b) == 0xad9a0f686edd68b2 && Sigma1(0x5a6c781f54dcc00c) == 0x3f98114af857b078
    ensures Maj(0xc4875b0c7abc076b, 0xaf573b02403e89cd, 0xb680953951604860) == 0xa6871b08503c0969
    ensures Ch(0x5a6c781f54dcc00c, 0x96f60209b6dc35ba, 0x745aca4a342ed2e2) == 0x3676824934fe12ea
  {}

  lemma Rounds00()
    ensures After(8, 0x8093d195e0054fa3, 0xc4875b0c7abc076b, 0xaf573b02403e89cd, 0xb680953951604860,
                    0x86f67263a0f0ec0a, 0x5a6c781f54dcc00c, 0x96f60209b6dc35ba, 0x745aca4a342ed2e2)
  {
    hide After, Word, RoundConstant, Sigma0, Sigma1, Ch, Maj;
    Start();
    Constants00();
    Words00();
    Functions00();
    Round(0, 0x6a09e667f3bcc908, 0xbb67ae8584caa73b, 0x3c6ef372fe94f82b, 0xa54ff53a5f1d36f1, 0x510e527fade682d1,
          0x9b05688c2b3e6c1f, 0x1f83d9abfb41bd6b, 0x5be0cd19137e2179, 0x428a2f98d728ae22, 0x6162638000000000,
          0x08c4db56aac80c2a, 0x3a6fe667f69ce92b, 0x9427e33bb5c9dbca, 0x1f85c98c7b273d3b, 0xf008b054c947fd43,
          0x0f8e79e1446f3a7e, 0x5218a97a1b97e8a0, 0xb37b0cfa1b97e8a0, 0x4334c1bea164f555, 0xf6afceb8bcfcddf5,
          0x58cb02347ab51f91);
    Round(1, 0xf6afceb8bcfcddf5, 0x6a09e667f3bcc908, 0xbb67ae8584caa73b, 0x3c6ef372fe94f82b, 0x58cb02347ab51f91,
          0x510e527fade682d1, 0x9b05688c2b3e6c1f, 0x1f83d9abfb41bd6b, 0x7137449123ef65cd, 0x0,
          0x918b1199fcba47b8, 0xfa2feea5b4fccd39, 0x239c6f9100f091f8, 0xd30e6abc29ae629f, 0x4320493cfc324f63,
          0x162eb3f925e0b202, 0x8765f88a49d017cf, 0x8765f88a49d017cf, 0x8bbb003fb1b714f1, 0x1320f8c9fb872cc0,
          0xc3d4ebfd48650ffa);
    Round(2, 0x1320f8c9fb872cc0, 0xf6afceb8bcfcddf5, 0x6a09e667f3bcc908, 0xbb67ae8584caa73b, 0xc3d4ebfd48650ffa,
          0x58cb02347ab51f91, 0x510e527fade682d1, 0x9b05688c2b3e6c1f, 0xb5c0fbcfec4d3b2f, 0x0,
          0x55640968b6e1f35c, 0x7229eee9fbbccdc0, 0x82b18d21686b99f8, 0x50ca1236eda78f91, 0x1db6f5ad93aa0617,
          0x6e8107e4815195a8, 0x244203b46d9ed0d7, 0x244203b46d9ed0d7, 0xc78df852b29ec11c, 0xebcffc07203d91f3,
          0xdfa9b239f2697812);
    Round(3, 0xebcffc07203d91f3, 0x1320f8c9fb872cc0, 0xf6afceb8bcfcddf5, 0x6a09e667f3bcc908, 0xdfa9b239f2697812,
          0xc3d4ebfd48650ffa, 0x58cb02347ab51f91, 0x510e527fade682d1, 0xe9b5dba58189dbbc, 0x0,
          0xc5960061a1dba08b, 0xf3affc89b8bd9df1, 0xa2b6fdf0ad0661e6, 0xc3c2a23d48f50f93, 0xf3c550705aece4b7,
          0xb787f2ada3e1f44a, 0xa13dce53256bd006, 0xa13dce53256bd006, 0xb945fceb5a993e7c, 0x5a83cb3e80050e82,
          0x0b47b4bb1928990e);
    Round(4, 0x5a83cb3e80050e82, 0xebcffc07203d91f3, 0x1320f8c9fb872cc0, 0xf6afceb8bcfcddf5, 0x0b47b4bb1928990e,
          0xdfa9b239f2697812, 0xc3d4ebfd48650ffa, 0x58cb02347ab51f91, 0x3956c25bf348b538, 0x0,
          0xdd51a1983a2946b1, 0x5b83f80fa0050cc2, 0x1ff73b83b8c70132, 0xcb91fb7d506d1ef2, 0x78c23db8337c20c3,
          0x4454393583e93fb5, 0x7daafb917731f4ed, 0x7daafb917731f4ed, 0x38d599a7da2e5373, 0xb680953951604860,
          0x745aca4a342ed2e2);
    Round(5, 0xb680953951604860, 0x5a83cb3e80050e82, 0xebcffc07203d91f3, 0x1320f8c9fb872cc0, 0x745aca4a342ed2e2,
          0x0b47b4bb1928990e, 0xdfa9b239f2697812, 0xc3d4ebfd48650ffa, 0x59f111f1b605d019, 0x0,
          0x30fe548384c477f1, 0xfa83dd3f002508e2, 0xda2b5b14ea8070d5, 0x8be3b03bd269b812, 0x9e00471232e580cf,
          0x29e3f74e054f38e1, 0x83d5093fbb5508fa, 0x83d5093fbb5508fa, 0x2b8231c284e980d3, 0xaf573b02403e89cd,
          0x96f60209b6dc35ba);
    Round(6, 0xaf573b02403e89cd, 0xb680953951604860, 0x5a83cb3e80050e82, 0xebcffc07203d91f3, 0x96f60209b6dc35ba,
          0x745aca4a342ed2e2, 0x0b47b4bb1928990e, 0xdfa9b239f2697812, 0x923f82a4af194f9b, 0x0,
          0x976743ba05f8d092, 0xbe839b3a402408c0, 0xdf5f907f55efcdc6, 0x1d53b6ba3d2c98a6, 0xbf0942b9485945d8,
          0xdc5cf9738585de7e, 0x6e9c7c18349f2e19, 0x6e9c7c18349f2e19, 0x55eadef4461cd952, 0xc4875b0c7abc076b,
          0x5a6c781f54dcc00c);
    Round(7, 0xc4875b0c7abc076b, 0xaf573b02403e89cd, 0xb680953951604860, 0x5a83cb3e80050e82, 0x5a6c781f54dcc00c,
          0x96f60209b6dc35ba, 0x745aca4a342ed2e2, 0x0b47b4bb1928990e, 0xab1c5ed5da6d8118, 0x0,
          0xad9a0f686edd68b2, 0xa6871b08503c0969, 0x3f98114af857b078, 0x3676824934fe12ea, 0x4adfc60611804986,
          0x8156484f467e5c70, 0x2c72a72520ebdd88, 0x2c72a72520ebdd88, 0x54212a70bf19721b, 0x8093d195e0054fa3,
          0x86f67263a0f0ec0a);
  }

  lemma Functions08()
    ensures Sigma0(0x8093d195e0054fa3) == 0x5395a34fae18ca98 && Sigma1(0x86f67263a0f0ec0a) == 0xbaf8c212505510c6
    ensures Maj(0x8093d195e0054fa3, 0xc4875b0c7abc076b, 0xaf573b02403e89cd) == 0x84975b04603c0feb
    ensures Ch(0x86f67263a0f0ec0a, 0x5a6c781f54dcc00c, 0x96f60209b6dc35ba) == 0x1264700b16dcd1b8
    ensures Sigma0(0xf1eca5544cb89225) == 0x703e77f22952a55b && Sigma1(0xd0403c398fc40002) == 0x1ccc1710fe807cff
    ensures Maj(0xf1eca5544cb89225, 0x8093d195e0054fa3, 0xc4875b0c7abc076b) == 0xc087d11468bc0723
    ensures Ch(0xd0403c398fc40002, 0x86f67263a0f0ec0a, 0x5a6c781f54dcc00c) == 0x8a6c7027d0d8c00e
    ensures Sigma0(0x81782d4a5db48f03) == 0xd89ebae6f0de2fad && Sigma1(0x00091f460be46c52) == 0x0959721013c9a9e7
    ensures Maj(0x81782d4a5db48f03, 0xf1eca5544cb89225, 0x8093d195e0054fa3) == 0x81f8a5544cb48f23
    ensures Ch(0x00091f460be46c52, 0xd0403c398fc40002, 0x86f67263a0f0ec0a) == 0x86f67c21abd4800a
    ensures Sigma0(0x69854c4aa0f25b59) == 0x3258c7f670e69d20 && Sigma1(0xd375471bde1ba3f4) == 0xeac174d9b7c0354b
    ensures Maj(0x69854c4aa0f25b59, 0x81782d4a5db48f03, 0xf1eca5544cb89225) == 0xe1ec2d4a4cb09b01
    ensures Ch(0xd375471bde1ba3f4, 0x00091f460be46c52, 0xd0403c398fc40002) == 0x00013f220bc42052
    ensures Sigma0(0xdb0a9963f80c2eaa) == 0xb931f95a53dd2555 && Sigma1(0x475975b91a7a462c) == 0x55b731909da983cd
    ensures Maj(0xdb0a9963f80c2eaa, 0x69854c4aa0f25b59, 0x81782d4a5db48f03) == 0xc9080d4af8b40f0b
    ensures Ch(0x475975b91a7a462c, 0xd375471bde1ba3f4, 0x00091f460be46c52) == 0x43514f5f1b9e2a76
    ensures Sigma0(0x5e41214388186c14) == 0xe490ea98db3ede2a && Sigma1(0xcdf3bff2883fc9d9) == 0x2c555b56fcd07b2f
    ensures Maj(0x5e41214388186c14, 0xdb0a9963f80c2eaa, 0x69854c4aa0f25b59) == 0x5b010943a8186e18
    ensures Ch(0xcdf3bff2883fc9d9, 0x475975b91a7a462c, 0xd375471bde1ba3f4) == 0x575575b95e3a622c
    ensures Sigma0(0x44249631255d2ca0) == 0x7ecf3b7513c80fb2 && Sigma1(0x860acf9effba6f61) == 0xe921a49e3d5f4460
    ensures Maj(0x44249631255d2ca0, 0x5e41214388186c14, 0xdb0a9963f80c2eaa) == 0x5e009163a81c2ca0
    ensures Ch(0x860acf9effba6f61, 0xcdf3bff2883fc9d9, 0x475975b91a7a462c) == 0xc553bfb3887a494d
    ensures Sigma0(0xfa967eed85a08028) == 0xe06b6385c6375d9e && Sigma1(0x874bfe5f6aae9f2f) == 0xf4c0abb29129d5ee
    ensures Maj(0xfa967eed85a08028, 0x44249631255d2ca0, 0x5e41214388186c14) == 0x5e04366185182c20
    ensures Ch(0x874bfe5f6aae9f2f, 0x860acf9effba6f61, 0xcdf3bff2883fc9d9) == 0xcebacfbeeabb4ff1
  {}

  lemma Rounds08()
    ensures After(16, 0x0ae07c86b1181c75, 0xfa967eed85a08028, 0x44249631255d2ca0, 0x5e41214388186c14,
                    0xa77b7c035dd4c161, 0x874bfe5f6aae9f2f, 0x860acf9effba6f61, 0xcdf3bff2883fc9d9)
  {
    hide After, Word, RoundConstant, Sigma0, Sigma1, Ch, Maj;
    Rounds00();
    Constants08();
    Words08();
    Functions08();
    Round(8, 0x8093d195e0054fa3, 0xc4875b0c7abc076b, 0xaf573b02403e89cd, 0xb680953951604860, 0x86f67263a0f0ec0a,
          0x5a6c781f54dcc00c, 0x96f60209b6dc35ba, 0x745aca4a342ed2e2, 0xd807aa98a3030242, 0x0,
          0x5395a34fae18ca98, 0x84975b04603c0feb, 0xbaf8c212505510c6, 0x1264700b16dcd1b8, 0x2f538c5c8483e3a8,
          0x41b7fc679b60b560, 0x19bfa7003e63b7a2, 0x19bfa7003e63b7a2, 0xd82cfe540e54da83, 0xf1eca5544cb89225,
          0xd0403c398fc40002);
    Round(9, 0xf1eca5544cb89225, 0x8093d195e0054fa3, 0xc4875b0c7abc076b, 0xaf573b02403e89cd, 0xd0403c398fc40002,
          0x86f67263a0f0ec0a, 0x5a6c781f54dcc00c, 0x96f60209b6dc35ba, 0x12835b0145706fbe, 0x0,
          0x703e77f22952a55b, 0xc087d11468bc0723, 0x1ccc1710fe807cff, 0x8a6c7027d0d8c00e, 0xb3c2191ab55cb2b9,
          0x3e2e8942863572c7, 0x50b1e443cba5e285, 0x50b1e443cba5e285, 0x30c64906920eac7e, 0x81782d4a5db48f03,
          0x00091f460be46c52);
    Round(10, 0x81782d4a5db48f03, 0xf1eca5544cb89225, 0x8093d195e0054fa3, 0xc4875b0c7abc076b, 0x00091f460be46c52,
          0xd0403c398fc40002, 0x86f67263a0f0ec0a, 0x5a6c781f54dcc00c, 0x243185be4ee4b28c, 0x0,
          0xd89ebae6f0de2fad, 0x81f8a5544cb48f23, 0x0959721013c9a9e7, 0x86f67c21abd4800a, 0x63c5ea2f68a669f3,
          0xeabc6651147ae9fd, 0x0eedec0f635f9c89, 0x0eedec0f635f9c89, 0x5a97603b3d92bed0, 0x69854c4aa0f25b59,
          0xd375471bde1ba3f4);
    Round(11, 0x69854c4aa0f25b59, 0x81782d4a5db48f03, 0xf1eca5544cb89225, 0x8093d195e0054fa3, 0xd375471bde1ba3f4,
          0x00091f460be46c52, 0xd0403c398fc40002, 0x86f67263a0f0ec0a, 0x550c7dc3d5ffb4e2, 0x0,
          0x3258c7f670e69d20, 0xe1ec2d4a4cb09b01, 0xeac174d9b7c0354b, 0x00013f220bc42052, 0x71b7e73d58b12155,
          0x71b9265f647541a7, 0xc6c5a4233a74f689, 0xc6c5a4233a74f689, 0x1444f540bd973821, 0xdb0a9963f80c2eaa,
          0x475975b91a7a462c);
    Round(12, 0xdb0a9963f80c2eaa, 0x69854c4aa0f25b59, 0x81782d4a5db48f03, 0xf1eca5544cb89225, 0x475975b91a7a462c,
          0xd375471bde1ba3f4, 0x00091f460be46c52, 0xd0403c398fc40002, 0x72be5d74f27b896f, 0x0,
          0xb931f95a53dd2555, 0xc9080d4af8b40f0b, 0x55b731909da983cd, 0x43514f5f1b9e2a76, 0x25f76dca2d6d83cf,
          0x6948bd29490bae45, 0xdc071a9e3b8737b4, 0xdc071a9e3b8737b4, 0x823a06a54c913460, 0x5e41214388186c14,
          0xcdf3bff2883fc9d9);
    Round(13, 0x5e41214388186c14, 0xdb0a9963f80c2eaa, 0x69854c4aa0f25b59, 0x81782d4a5db48f03, 0xcdf3bff2883fc9d9,
          0x475975b91a7a462c, 0xd375471bde1ba3f4, 0x00091f460be46c52, 0x80deb1fe3b1696b1, 0x0,
          0xe490ea98db3ede2a, 0x5b010943a8186e18, 0x2c555b56fcd07b2f, 0x575575b95e3a622c, 0x2c5e7a9d08b4e781,
          0x83b3f05666ef49ad, 0x0492a254a205e05e, 0x0492a254a205e05e, 0x3f91f3dc83574c42, 0x44249631255d2ca0,
          0x860acf9effba6f61);
    Round(14, 0x44249631255d2ca0, 0x5e41214388186c14, 0xdb0a9963f80c2eaa, 0x69854c4aa0f25b59, 0x860acf9effba6f61,
          0xcdf3bff2883fc9d9, 0x475975b91a7a462c, 0xd375471bde1ba3f4, 0x9bdc06a725c71235, 0x0,
          0x7ecf3b7513c80fb2, 0x5e009163a81c2ca0, 0xe921a49e3d5f4460, 0xc553bfb3887a494d, 0xbc96ebba1b7ae854,
          0x81eaab6da3f531a1, 0x1dc6b214c9bc43d6, 0x1dc6b214c9bc43d6, 0xdccfccd8bbe43c52, 0xfa967eed85a08028,
          0x874bfe5f6aae9f2f);
    Round(15, 0xfa967eed85a08028, 0x44249631255d2ca0, 0x5e41214388186c14, 0xdb0a9963f80c2eaa, 0x874bfe5f6aae9f2f,
          0x860acf9effba6f61, 0xcdf3bff2883fc9d9, 0x475975b91a7a462c, 0xc19bf174cf692694, 0x18,
          0xe06b6385c6375d9e, 0x5e04366185182c20, 0xf4c0abb29129d5ee, 0xcebacfbeeabb4ff1, 0x3c1a216baba41c1a,
          0x0ad4f12a965f6c0b, 0xcc70e29f65c8929f, 0xcc70e29f65c892b7, 0x3e6f99e74b4f89be, 0x0ae07c86b1181c75,
          0xa77b7c035dd4c161);
  }

  lemma Functions16()
    ensures Sigma0(0x0ae07c86b1181c75) == 0xb0a5f07506aa17b3 && Sigma1(0xa77b7c035dd4c161) == 0x34701e539fde1d98
    ensures Maj(0x0ae07c86b1181c75, 0xfa967eed85a08028, 0x44249631255d2ca0) == 0x4aa47ea5a5180c20
    ensures Ch(0xa77b7c035dd4c161, 0x874bfe5f6aae9f2f, 0x860acf9effba6f61) == 0x874bff9feaaeaf21
    ensures Sigma0(0xcaf81a425d800537) == 0xcbdb523b32aa5281 && Sigma1(0x2deecc6b39d64d78) == 0x932257e63ea0de4a
    ensures Maj(0xcaf81a425d800537, 0x0ae07c86b1181c75, 0xfa967eed85a08028) == 0xcaf07ec695800435
    ensures Ch(0x2deecc6b39d64d78, 0xa77b7c035dd4c161, 0x874bfe5f6aae9f2f) == 0xa76b7e175bfcd367
    ensures Sigma0(0x4725be249ad19e6b) == 0xc2982212751cc6bc && Sigma1(0xf47e8353f8047455) == 0x65beaedf87612151
    ensures Maj(0x4725be249ad19e6b, 0xcaf81a425d800537, 0x0ae07c86b1181c75) == 0x4ae03e0699901c77
    ensures Ch(0xf47e8353f8047455, 0x2deecc6b39d64d78, 0xa77b7c035dd4c161) == 0x276ffc433dd4c570
    ensures Sigma0(0x3c4b4104168e3edb) == 0x656d7e78bdde5682 && Sigma1(0x29695fd88d81dbd0) == 0xf5f26f12c080a1c8
    ensures Maj(0x3c4b4104168e3edb, 0x4725be249ad19e6b, 0xcaf81a425d800537) == 0x4e691a041e801e7b
    ensures Ch(0x29695fd88d81dbd0, 0xf47e8353f8047455, 0x2deecc6b39d64d78) == 0x24ee8373b8565478
    ensures Sigma0(0x9a3fb4d38ab6cf06) == 0xeed42e360840df65 && Sigma1(0xf14998dd5f70767e) == 0xaacbc14f3a3a8ed1
    ensures Maj(0x9a3fb4d38ab6cf06, 0x3c4b4104168e3edb, 0x4725be249ad19e6b) == 0x1e2fb4049a969e4b
    ensures Ch(0xf14998dd5f70767e, 0x29695fd88d81dbd0, 0xf47e8353f8047455) == 0x257f1bdaad045251
    ensures Sigma0(0x8dc5ae65569d3855) == 0xf6d9f13d14300690 && Sigma1(0x4bb9e66d1145bfdc) == 0xa60e9ed60e0addb4
    ensures Maj(0x8dc5ae65569d3855, 0x9a3fb4d38ab6cf06, 0x3c4b4104168e3edb) == 0x9c4fa445169e3e57
    ensures Ch(0x4bb9e66d1145bfdc, 0xf14998dd5f70767e, 0x29695fd88d81dbd0) == 0x614999dd9dc0765c
    ensures Sigma0(0xda34d6673d452dcf) == 0xd5791dd5ca743a46 && Sigma1(0x8e30ff09ad488753) == 0xb84c7f0c6a23c60f
    ensures Maj(0xda34d6673d452dcf, 0x8dc5ae65569d3855, 0x9a3fb4d38ab6cf06) == 0x9a35b6671e952d47
    ensures Ch(0x8e30ff09ad488753, 0x4bb9e66d1145bfdc, 0xf14998dd5f70767e) == 0x7b79e6dd5370f77c
    ensures Sigma0(0x3e2644567b709a78) == 0x852360291d9198fa && Sigma1(0x0ac2b11da8f571c6) == 0x15bdd3028b34a8b0
    ensures Maj(0x3e2644567b709a78, 0xda34d6673d452dcf, 0x8dc5ae65569d3855) == 0x9e24c6677f55385d
    ensures Ch(0x0ac2b11da8f571c6, 0x8e30ff09ad488753, 0x4bb9e66d1145bfdc) == 0x4b39f769b9408f5a
  {}

  lemma Rounds16()
    ensures After(24, 0x4f6877b58fe55484, 0x3e2644567b709a78, 0xda34d6673d452dcf, 0x8dc5ae65569d3855,
                    0xc66005f87db55233, 0x0ac2b11da8f571c6, 0x8e30ff09ad488753, 0x4bb9e66d1145bfdc)
  {
    hide After, Word, RoundConstant, Sigma0, Sigma1, Ch, Maj;
    Rounds08();
    Constants16();
    Words16();
    Functions16();
    Round(16, 0x0ae07c86b1181c75, 0xfa967eed85a08028, 0x44249631255d2ca0, 0x5e41214388186c14, 0xa77b7c035dd4c161,
          0x874bfe5f6aae9f2f, 0x860acf9effba6f61, 0xcdf3bff2883fc9d9, 0xe49b69c19ef14ad2, 0x6162638000000000,
          0xb0a5f07506aa17b3, 0x4aa47ea5a5180c20, 0x34701e539fde1d98, 0x874bff9feaaeaf21, 0x0263de46281de771,
          0x89afdde612cc9692, 0x6e4b47a7b1bde164, 0xcfadab27b1bde164, 0xfb4a6f1aabc223d3, 0xcaf81a425d800537,
          0x2deecc6b39d64d78);
    Round(17, 0xcaf81a425d800537, 0x0ae07c86b1181c75, 0xfa967eed85a08028, 0x44249631255d2ca0, 0x2deecc6b39d64d78,
          0xa77b7c035dd4c161, 0x874bfe5f6aae9f2f, 0x860acf9effba6f61, 0xefbe4786384f25e3, 0x00030000000000c0,
          0xcbdb523b32aa5281, 0xcaf07ec695800435, 0x932257e63ea0de4a, 0xa76b7e175bfcd367, 0x192d27853e5b4dab,
          0xc098a59c9a582112, 0xb056ed22d2a746f5, 0xb059ed22d2a747b5, 0x96cbd101c82a56b6, 0x4725be249ad19e6b,
          0xf47e8353f8047455);
    Round(18, 0x4725be249ad19e6b, 0xcaf81a425d800537, 0x0ae07c86b1181c75, 0xfa967eed85a08028, 0xf47e8353f8047455,
          0x2deecc6b39d64d78, 0xa77b7c035dd4c161, 0x874bfe5f6aae9f2f, 0x0fc19dc68b8cd5b5, 0x0a9699a24c700003,
          0xc2982212751cc6bc, 0x4ae03e0699901c77, 0x65beaedf87612151, 0x276ffc433dd4c570, 0xed0aad3ef20fc080,
          0x147aa9822fe485f0, 0x243c4748bb715ba5, 0x2ed2e0eb07e15ba8, 0x0d7860190eace333, 0x3c4b4104168e3edb,
          0x29695fd88d81dbd0);
    Round(19, 0x3c4b4104168e3edb, 0x4725be249ad19e6b, 0xcaf81a425d800537, 0x0ae07c86b1181c75, 0x29695fd88d81dbd0,
          0xf47e8353f8047455, 0x2deecc6b39d64d78, 0xa77b7c035dd4c161, 0x240ca1cc77ac9c65, 0x00000c0060000603,
          0x656d7e78bdde5682, 0x4e691a041e801e7b, 0xf5f26f12c080a1c8, 0x24ee8373b8565478, 0x9d6deb161e556329,
          0xc25c6e89d6abb7a1, 0xe66910564e585406, 0xe6691c56ae585a09, 0xb3d6987cdc5e74fd, 0x9a3fb4d38ab6cf06,
          0xf14998dd5f70767e);
    Round(20, 0x9a3fb4d38ab6cf06, 0x3c4b4104168e3edb, 0x4725be249ad19e6b, 0xcaf81a425d800537, 0xf14998dd5f70767e,
          0x29695fd88d81dbd0, 0xf47e8353f8047455, 0x2deecc6b39d64d78, 0x2de92c6f592b0275, 0x549ef62639858996,
          0xeed42e360840df65, 0x1e2fb4049a969e4b, 0xaacbc14f3a3a8ed1, 0x257f1bdaad045251, 0xd8ba8dba7410dc49,
          0xfe39a99521152e9a, 0x2c22d6047a40310f, 0x80c1cc2ab3c5baa5, 0x0d03e23aa2d77db0, 0x8dc5ae65569d3855,
          0x4bb9e66d1145bfdc);
    Round(21, 0x8dc5ae65569d3855, 0x9a3fb4d38ab6cf06, 0x3c4b4104168e3edb, 0x4725be249ad19e6b, 0x4bb9e66d1145bfdc,
          0xf14998dd5f70767e, 0x29695fd88d81dbd0, 0xf47e8353f8047455, 0x4a7484aa6ea6e483, 0x00c0003300003c00,
          0xf6d9f13d14300690, 0x9c4fa445169e3e57, 0xa60e9ed60e0addb4, 0x614999dd9dc0765c, 0x9a8d222a060f5209,
          0xfbd6bc07a3cfc865, 0x464b40b21276ace8, 0x470b40e51276e8e8, 0x932995822ace44e7, 0xda34d6673d452dcf,
          0x8e30ff09ad488753);
    Round(22, 0xda34d6673d452dcf, 0x8dc5ae65569d3855, 0x9a3fb4d38ab6cf06, 0x3c4b4104168e3edb, 0x8e30ff09ad488753,
          0x4bb9e66d1145bfdc, 0xf14998dd5f70767e, 0x29695fd88d81dbd0, 0x5cb0a9dcbd41fbd4, 0x1497007a8a0e9dbc,
          0xd5791dd5ca743a46, 0x9a35b6671e952d47, 0xb84c7f0c6a23c60f, 0x7b79e6dd5370f77c, 0xe1b5dee4f7a5a1df,
          0x5d2fc5c24b16995b, 0xb9e06f9f0858952f, 0xce777019926732eb, 0x6faed43ce909678d, 0x3e2644567b709a78,
          0x0ac2b11da8f571c6);
    Round(23, 0x3e2644567b709a78, 0xda34d6673d452dcf, 0x8dc5ae65569d3855, 0x9a3fb4d38ab6cf06, 0x0ac2b11da8f571c6,
          0x8e30ff09ad488753, 0x4bb9e66d1145bfdc, 0xf14998dd5f70767e, 0x76f988da831153b5, 0x62e56500cc0780f0,
          0x852360291d9198fa, 0x9e24c6677f55385d, 0x15bdd3028b34a8b0, 0x4b39f769b9408f5a, 0x07076bdfeaa51f2e,
          0x52416349a3e5ae88, 0xc93aec2426f7023d, 0x2c205124f2fe832d, 0x234826909ce6d157, 0x4f6877b58fe55484,
          0xc66005f87db55233);
  }

  lemma Functions24()
    ensures Sigma0(0x4f6877b58fe55484) == 0xf6b3d7ccedc3b65a && Sigma1(0xc66005f87db55233) == 0xe07d32b10f7cd9ba
    ensures Maj(0x4f6877b58fe55484, 0x3e2644567b709a78, 0xda34d6673d452dcf) == 0x5e2456773f651ccc
    ensures Ch(0xc66005f87db55233, 0x0ac2b11da8f571c6, 0x8e30ff09ad488753) == 0x0a50fb19a8fdd542
    ensures Sigma0(0x9aff71163fa3a940) == 0x59ad390b087d33c4 && Sigma1(0xd3ecf13769180e6f) == 0xa190374fcf79885e
    ensures Maj(0x9aff71163fa3a940, 0x4f6877b58fe55484, 0x3e2644567b709a78) == 0x1e6e75163fe19840
    ensures Ch(0xd3ecf13769180e6f, 0xc66005f87db55233, 0x0ac2b11da8f571c6) == 0xca620138e9f573a3
    ensures Sigma0(0x0bc5f791f8e6816b) == 0xd3a07be8a8b98f14 && Sigma1(0x6ddf1fd7edcce336) == 0x5fe2ca7a239ca3cf
    ensures Maj(0x0bc5f791f8e6816b, 0x9aff71163fa3a940, 0x4f6877b58fe55484) == 0x0bed7795bfe78140
    ensures Ch(0x6ddf1fd7edcce336, 0xd3ecf13769180e6f, 0xc66005f87db55233) == 0xc3ec113f79391227
    ensures Sigma0(0x884c3bc27bc4f941) == 0xa64923ba65c02aa0 && Sigma1(0xe6e48c9a8e948365) == 0x6009a86aa3bfebb1
    ensures Maj(0x884c3bc27bc4f941, 0x0bc5f791f8e6816b, 0x9aff71163fa3a940) == 0x8acd73927be6a941
    ensures Ch(0xe6e48c9a8e948365, 0x6ddf1fd7edcce336, 0xd3ecf13769180e6f) == 0x75cc7db7ed8c8f2e
    ensures Sigma0(0xeab4a9e5771b8d09) == 0xe69004c6c232dd7d && Sigma1(0x09068a4e255a0dac) == 0x92c98b5d5daf9f7b
    ensures Maj(0xeab4a9e5771b8d09, 0x884c3bc27bc4f941, 0x0bc5f791f8e6816b) == 0x8ac4bbc17bc68949
    ensures Ch(0x09068a4e255a0dac, 0xe6e48c9a8e948365, 0x6ddf1fd7edcce336) == 0x64dd9d9bcc94e336
    ensures Sigma0(0xe62349090f47d30a) == 0xa5b24bcace700440 && Sigma1(0x0fcdf99710f21584) == 0x18f945ce5a3e6108
    ensures Maj(0xe62349090f47d30a, 0xeab4a9e5771b8d09, 0x884c3bc27bc4f941) == 0xea2429c17f47d909
    ensures Ch(0x0fcdf99710f21584, 0x09068a4e255a0dac, 0xe6e48c9a8e948365) == 0xe9248c0e8e5687e5
    ensures Sigma0(0x74bf40f869094c63) == 0x7a0487b75032a139 && Sigma1(0xf0aec2fe1437f085) == 0x413ca568f9bf82b3
    ensures Maj(0x74bf40f869094c63, 0xe62349090f47d30a, 0xeab4a9e5771b8d09) == 0xe6b749e96f0bcd0b
    ensures Ch(0xf0aec2fe1437f085, 0x0fcdf99710f21584, 0x09068a4e255a0dac) == 0x098cc896317a1dac
    ensures Sigma0(0x4c4fbbb75f1873a6) == 0x48ff166a1b70caef && Sigma1(0x73e025d91b9efea3) == 0xa9a8dc07cfabd88e
    ensures Maj(0x4c4fbbb75f1873a6, 0x74bf40f869094c63, 0xe62349090f47d30a) == 0x642f49b94f095322
    ensures Ch(0x73e025d91b9efea3, 0xf0aec2fe1437f085, 0x0fcdf99710f21584) == 0x7cadd8de1076f185
  {}

  lemma Rounds24()
    ensures After(32, 0xff4d3f1f0d46a736, 0x4c4fbbb75f1873a6, 0x74bf40f869094c63, 0xe62349090f47d30a,
                    0x3cd388e119e8162e, 0x73e025d91b9efea3, 0xf0aec2fe1437f085, 0x0fcdf99710f21584)
  {
    hide After, Word, RoundConstant, Sigma0, Sigma1, Ch, Maj;
    Rounds16();
    Constants24();
    Words24();
    Functions24();
    Round(24, 0x4f6877b58fe55484, 0x3e2644567b709a78, 0xda34d6673d452dcf, 0x8dc5ae65569d3855, 0xc66005f87db55233,
          0x0ac2b11da8f571c6, 0x8e30ff09ad488753, 0x4bb9e66d1145bfdc, 0x983e5152ee66dfab, 0x7760dd475a538797,
          0xf6b3d7ccedc3b65a, 0x5e2456773f651ccc, 0xe07d32b10f7cd9ba, 0x0a50fb19a8fdd542, 0x2c37191e20c29996,
          0x36881437c9c06ed8, 0xcec6658ab8274e83, 0x462742d2127ad61a, 0x54d82e442d28d326, 0x9aff71163fa3a940,
          0xd3ecf13769180e6f);
    Round(25, 0x9aff71163fa3a940, 0x4f6877b58fe55484, 0x3e2644567b709a78, 0xda34d6673d452dcf, 0xd3ecf13769180e6f,
          0xc66005f87db55233, 0x0ac2b11da8f571c6, 0x8e30ff09ad488753, 0xa831c66d2db43210, 0xf1554b711c1c0003,
          0x59ad390b087d33c4, 0x1e6e75163fe19840, 0xa190374fcf79885e, 0xca620138e9f573a3, 0x2fc136597cc20fb1,
          0xfa23379266b78354, 0xa254fdff946bb564, 0x93aa4970b087b567, 0x781bae21485ecc04, 0x0bc5f791f8e6816b,
          0x6ddf1fd7edcce336);
    Round(26, 0x0bc5f791f8e6816b, 0x9aff71163fa3a940, 0x4f6877b58fe55484, 0x3e2644567b709a78, 0x6ddf1fd7edcce336,
          0xd3ecf13769180e6f, 0xc66005f87db55233, 0x0ac2b11da8f571c6, 0xb00327c898fb213f, 0xca2993a4345d9ff2,
          0xd3a07be8a8b98f14, 0x0bed7795bfe78140, 0x5fe2ca7a239ca3cf, 0xc3ec113f79391227, 0x6aa57b97cc921595,
          0x2e918cd745cb27bc, 0xde94b49fdec648fb, 0xa8be48441323e8ed, 0xdf8df37e68a11054, 0x884c3bc27bc4f941,
          0xe6e48c9a8e948365);
    Round(27, 0x884c3bc27bc4f941, 0x0bc5f791f8e6816b, 0x9aff71163fa3a940, 0x4f6877b58fe55484, 0xe6e48c9a8e948365,
          0x6ddf1fd7edcce336, 0xd3ecf13769180e6f, 0xc66005f87db55233, 0xbf597fc7beef0ee4, 0x5e0e66b5c783dd32,
          0xa64923ba65c02aa0, 0x8acd73927be6a941, 0x6009a86aa3bfebb1, 0x75cc7db7ed8c8f2e, 0x2669ae6321753de4,
          0x9c362c1b0f01cd12, 0x5b8fabe2cdf0dbf6, 0xb99e12989574b928, 0x3116974ce1a6d3e1, 0xeab4a9e5771b8d09,
          0x09068a4e255a0dac);
    Round(28, 0xeab4a9e5771b8d09, 0x884c3bc27bc4f941, 0x0bc5f791f8e6816b, 0x9aff71163fa3a940, 0x09068a4e255a0dac,
          0xe6e48c9a8e948365, 0x6ddf1fd7edcce336, 0xd3ecf13769180e6f, 0xc6e00bf33da88fc2, 0xe25a625d00494b62,
          0xe69004c6c232dd7d, 0x8ac4bbc17bc68949, 0x92c98b5d5daf9f7b, 0x64dd9d9bcc94e336, 0x66b67c94c6c7adea,
          0xcb941a30935c9120, 0x92742623d10520e2, 0x74ce8880d14e6c44, 0x7154c0883df966c6, 0xe62349090f47d30a,
          0x0fcdf99710f21584);
    Round(29, 0xe62349090f47d30a, 0xeab4a9e5771b8d09, 0x884c3bc27bc4f941, 0x0bc5f791f8e6816b, 0x0fcdf99710f21584,
          0x09068a4e255a0dac, 0xe6e48c9a8e948365, 0x6ddf1fd7edcce336, 0xd5a79147930aa725, 0x9f44486fb1e4fbd2,
          0xa5b24bcace700440, 0xea2429c17f47d909, 0x18f945ce5a3e6108, 0xe9248c0e8e5687e5, 0x86d865a6480b443e,
          0x6ffcf1b4d661cc23, 0x45a482fc696c7348, 0xe4e8cb6c1b516f1a, 0x8fd6758c4db7dd49, 0x74bf40f869094c63,
          0xf0aec2fe1437f085);
    Round(30, 0x74bf40f869094c63, 0xe62349090f47d30a, 0xeab4a9e5771b8d09, 0x884c3bc27bc4f941, 0xf0aec2fe1437f085,
          0x0fcdf99710f21584, 0x09068a4e255a0dac, 0xe6e48c9a8e948365, 0x06ca6351e003826f, 0xb31b8c2b06085f2f,
          0x7a0487b75032a139, 0xe6b749e96f0bcd0b, 0x413ca568f9bf82b3, 0x098cc896317a1dac, 0x2821320388540618,
          0x31adfa99b9ce23c4, 0x38785deb99d1a633, 0xeb93ea169fda0562, 0x60bbd1a0bf3e6e44, 0x4c4fbbb75f1873a6,
          0x73e025d91b9efea3);
    Round(31, 0x4c4fbbb75f1873a6, 0x74bf40f869094c63, 0xe62349090f47d30a, 0xeab4a9e5771b8d09, 0x73e025d91b9efea3,
          0xf0aec2fe1437f085, 0x0fcdf99710f21584, 0x09068a4e255a0dac, 0x142929670a0e6e70, 0x0e987660934142f6,
          0x48ff166a1b70caef, 0x642f49b94f095322, 0xa9a8dc07cfabd88e, 0x7cadd8de1076f185, 0xb2af6655f505e63a,
          0x2f5d3f34057cd7bf, 0x4386689b0f8b462f, 0x521edefba2cc8925, 0xad2e60236a7a1e11, 0xff4d3f1f0d46a736,
          0x3cd388e119e8162e);
  }

  lemma Functions32()
    ensures Sigma0(0xff4d3f1f0d46a736) == 0x292157ec26fe2449 && Sigma1(0x3cd388e119e8162e) == 0x2dbf8871d6a2481e
    ensures Maj(0xff4d3f1f0d46a736, 0x4c4fbbb75f1873a6, 0x74bf40f869094c63) == 0x7c4f3bbf4d086726
    ensures Ch(0x3cd388e119e8162e, 0x73e025d91b9efea3, 0xf0aec2fe1437f085) == 0xf0ec42df1d9ff6a3
    ensures Sigma0(0xa0509015ca08c8d4) == 0xf99aaeee845d8479 && Sigma1(0xe1034573654a106f) == 0x7c16d945f361cdd8
    ensures Maj(0xa0509015ca08c8d4, 0xff4d3f1f0d46a736, 0x4c4fbbb75f1873a6) == 0xec4dbb174f08e3b6
    ensures Ch(0xe1034573654a106f, 0x3cd388e119e8162e, 0x73e025d91b9efea3) == 0x32e320e91bdcfeae
    ensures Sigma0(0x60d4e6995ed91fe6) == 0x889a0ba059baf9fe && Sigma1(0xefabbd8bf47c041a) == 0xd4973b46143af931
    ensures Maj(0x60d4e6995ed91fe6, 0xa0509015ca08c8d4, 0xff4d3f1f0d46a736) == 0xe054b61d4e488ff6
    ensures Ch(0xefabbd8bf47c041a, 0xe1034573654a106f, 0x3cd388e119e8162e) == 0xf15305636dc8122e
    ensures Sigma0(0x2c59ec7743632621) == 0x086c6dd6ccd00fb1 && Sigma1(0x0fbae670fa780fd3) == 0x04c5c102c9d80a0d
    ensures Maj(0x2c59ec7743632621, 0x60d4e6995ed91fe6, 0xa0509015ca08c8d4) == 0x2050e4154a490ee4
    ensures Ch(0x0fbae670fa780fd3, 0xefabbd8bf47c041a, 0xe1034573654a106f) == 0xefaba503f57a143e
    ensures Sigma0(0x1a081afc59fdbc2c) == 0x711756b2fe37b94f && Sigma1(0xf098082f502b44cd) == 0xd5acabe4444ed8a3
    ensures Maj(0x1a081afc59fdbc2c, 0x2c59ec7743632621, 0x60d4e6995ed91fe6) == 0x2858eefd5bf93e24
    ensures Ch(0xf098082f502b44cd, 0x0fbae670fa780fd3, 0xefabbd8bf47c041a) == 0x0fbbb5a0f47c04d3
    ensures Sigma0(0x88df85b0bbe77514) == 0xf1f942e786de056c && Sigma1(0x8fbfd0162bbf4675) == 0xc35e82b38e9afbfa
    ensures Maj(0x88df85b0bbe77514, 0x1a081afc59fdbc2c, 0x2c59ec7743632621) == 0x08598cf45be73424
    ensures Ch(0x8fbfd0162bbf4675, 0xf098082f502b44cd, 0x0fbae670fa780fd3) == 0x80982666d06b4dc7
    ensures Sigma0(0x002bb8e4cd989567) == 0x237442030cb13704 && Sigma1(0x66adcfa249ac7bbd) == 0x213e152193d2e23d
    ensures Maj(0x002bb8e4cd989567, 0x88df85b0bbe77514, 0x1a081afc59fdbc2c) == 0x080b98f4d9fdb524
    ensures Ch(0x66adcfa249ac7bbd, 0x8fbfd0162bbf4675, 0xf098082f502b44cd) == 0x96bdc00f19af4675
    ensures Sigma0(0xb3bb8542b3376de5) == 0x1add6bf99c31c271 && Sigma1(0xb49596c20feba7de) == 0x178a8aa0d1e2f69f
    ensures Maj(0xb3bb8542b3376de5, 0x002bb8e4cd989567, 0x88df85b0bbe77514) == 0x80bb85e0bbb77565
    ensures Ch(0xb49596c20feba7de, 0x66adcfa249ac7bbd, 0x8fbfd0162bbf4675) == 0x2fafc69629bc63bd
  {}

  lemma Rounds32()
    ensures After(40, 0x8e01e125b855d225, 0xb3bb8542b3376de5, 0x002bb8e4cd989567, 0x88df85b0bbe77514,
                    0x0c710a47ba6a567b, 0xb49596c20feba7de, 0x66adcfa249ac7bbd, 0x8fbfd0162bbf4675)
  {
    hide After, Word, RoundConstant, Sigma0, Sigma1, Ch, Maj;
    Rounds24();
    Constants32();
    Words32();
    Functions32();
    Round(32, 0xff4d3f1f0d46a736, 0x4c4fbbb75f1873a6, 0x74bf40f869094c63, 0xe62349090f47d30a, 0x3cd388e119e8162e,
          0x73e025d91b9efea3, 0xf0aec2fe1437f085, 0x0fcdf99710f21584, 0x27b70a8546d22ffc, 0xa4af2cfd09fbb924,
          0x292157ec26fe2449, 0x7c4f3bbf4d086726, 0x2dbf8871d6a2481e, 0xf0ec42df1d9ff6a3, 0x3d8d8208e7945da2,
          0x2e79c4e805345445, 0x5630cf6d4c068441, 0xfadffc6a56023d65, 0xa57093ab74068b6f, 0xa0509015ca08c8d4,
          0xe1034573654a106f);
    Round(33, 0xa0509015ca08c8d4, 0xff4d3f1f0d46a736, 0x4c4fbbb75f1873a6, 0x74bf40f869094c63, 0xe1034573654a106f,
          0x3cd388e119e8162e, 0x73e025d91b9efea3, 0xf0aec2fe1437f085, 0x2e1b21385c26c926, 0xad289e2e0bd53186,
          0xf99aaeee845d8479, 0xec4dbb174f08e3b6, 0x7c16d945f361cdd8, 0x32e320e91bdcfeae, 0x6cc59c440799be5d,
          0x9fa8bd2d2376bd0b, 0xcdc3de657f9d8631, 0x7aec7c938b72b7b7, 0xe5e86a05d366682f, 0x60d4e6995ed91fe6,
          0xefabbd8bf47c041a);
    Round(34, 0x60d4e6995ed91fe6, 0xa0509015ca08c8d4, 0xff4d3f1f0d46a736, 0x4c4fbbb75f1873a6, 0xefabbd8bf47c041a,
          0xe1034573654a106f, 0x3cd388e119e8162e, 0x73e025d91b9efea3, 0x4d2c6dfc5ac42aed, 0x3c74563aa2f9673e,
          0x889a0ba059baf9fe, 0xe054b61d4e488ff6, 0xd4973b46143af931, 0xf15305636dc8122e, 0x4877611f2fd9f7d4,
          0x39ca66829da20a02, 0x86f6d47ef86634ef, 0xc36b2ab99b5f9c2d, 0x68eec1bda80389f4, 0x2c59ec7743632621,
          0x0fbae670fa780fd3);
    Round(35, 0x2c59ec7743632621, 0x60d4e6995ed91fe6, 0xa0509015ca08c8d4, 0xff4d3f1f0d46a736, 0x0fbae670fa780fd3,
          0xefabbd8bf47c041a, 0xe1034573654a106f, 0x3cd388e119e8162e, 0x53380d139d95b3df, 0x6ccdcd14cc14b53f,
          0x086c6dd6ccd00fb1, 0x2050e4154a490ee4, 0x04c5c102c9d80a0d, 0xefaba503f57a143e, 0x419949e3e3c0203b,
          0x3144eee7d93a3479, 0x847cfbfb76cfe858, 0xf14ac91042e49d97, 0x28bd51ec17191e95, 0x1a081afc59fdbc2c,
          0xf098082f502b44cd);
    Round(36, 0x1a081afc59fdbc2c, 0x2c59ec7743632621, 0x60d4e6995ed91fe6, 0xa0509015ca08c8d4, 0xf098082f502b44cd,
          0x0fbae670fa780fd3, 0xefabbd8bf47c041a, 0xe1034573654a106f, 0x650a73548baf63de, 0xc3f925b337f22bde,
          0x711756b2fe37b94f, 0x2858eefd5bf93e24, 0xd5acabe4444ed8a3, 0x0fbbb5a0f47c04d3, 0xb6aff157a998e912,
          0xc66ba6f89e14ede5, 0x2b761a4d29c451c3, 0xef6f400061b67da1, 0x997045b05a30f773, 0x88df85b0bbe77514,
          0x8fbfd0162bbf4675);
    Round(37, 0x88df85b0bbe77514, 0x1a081afc59fdbc2c, 0x2c59ec7743632621, 0x60d4e6995ed91fe6, 0x8fbfd0162bbf4675,
          0xf098082f502b44cd, 0x0fbae670fa780fd3, 0xefabbd8bf47c041a, 0x766a0abb3c77b2a8, 0x5bcc77a75ad95b54,
          0xf1f942e786de056c, 0x08598cf45be73424, 0xc35e82b38e9afbfa, 0x80982666d06b4dc7, 0xb30a403f83170014,
          0x33a266a653824ddb, 0xaa0c71618ffa0083, 0x05d8e908ead35bd7, 0xfa52cfdbe2c53990, 0x002bb8e4cd989567,
          0x66adcfa249ac7bbd);
    Round(38, 0x002bb8e4cd989567, 0x88df85b0bbe77514, 0x1a081afc59fdbc2c, 0x2c59ec7743632621, 0x66adcfa249ac7bbd,
          0x8fbfd0162bbf4675, 0xf098082f502b44cd, 0x0fbae670fa780fd3, 0x81c2c92e47edaee6, 0x3ec2257adca09a52,
          0x237442030cb13704, 0x080b98f4d9fdb524, 0x213e152193d2e23d, 0x96bdc00f19af4675, 0x30f8fb928e4af210,
          0xc7b6bba1a7fa3885, 0x497984cfefe7e76b, 0x883baa4acc8881bd, 0x2b7fdaf7e6aeec28, 0xb3bb8542b3376de5,
          0xb49596c20feba7de);
    Round(39, 0xb3bb8542b3376de5, 0x002bb8e4cd989567, 0x88df85b0bbe77514, 0x1a081afc59fdbc2c, 0xb49596c20feba7de,
          0x66adcfa249ac7bbd, 0x8fbfd0162bbf4675, 0xf098082f502b44cd, 0x92722c851482353b, 0x28246960001fc5eb,
          0x1add6bf99c31c271, 0x80bb85e0bbb77565, 0x178a8aa0d1e2f69f, 0x2fafc69629bc63bd, 0x082292d0220e3b6c,
          0x37d259664bca9f29, 0xca4485eb604cd464, 0xf268ef4b606c9a4f, 0x9b98f1da57e937d6, 0x8e01e125b855d225,
          0x0c710a47ba6a567b);
  }

  lemma Functions40()
    ensures Sigma0(0x8e01e125b855d225) == 0xa038fd75c88269d0 && Sigma1(0x0c710a47ba6a567b) == 0xefafc7f356093fb6
    ensures Maj(0x8e01e125b855d225, 0xb3bb8542b3376de5, 0x002bb8e4cd989567) == 0x822ba164b915d565
    ensures Ch(0x0c710a47ba6a567b, 0xb49596c20feba7de, 0x66adcfa249ac7bbd) == 0x669dc7e24bee2fde
    ensures Sigma0(0xb01521dd6a6be12c) == 0x46f03d4274377fe2 && Sigma1(0x169008b3a4bb170b) == 0xc03cc26fa56933c6
    ensures Maj(0xb01521dd6a6be12c, 0x8e01e125b855d225, 0xb3bb8542b3376de5) == 0xb211a145ba77e125
    ensures Ch(0x169008b3a4bb170b, 0x0c710a47ba6a567b, 0xb49596c20feba7de) == 0xa4159e43ab6ab6df
    ensures Sigma0(0xe96f89dd48cbd851) == 0x641ee4ba4f71a0b0 && Sigma1(0xf0996439e7b50cb1) == 0x6d1864c59111ab8b
    ensures Maj(0xe96f89dd48cbd851, 0xb01521dd6a6be12c, 0x8e01e125b855d225) == 0xa805a1dd684bd025
    ensures Ch(0xf0996439e7b50cb1, 0x169008b3a4bb170b, 0x0c710a47ba6a567b) == 0x1cf00a77bcfb564b
    ensures Sigma0(0xbc05ba8de5d3c480) == 0x3f831ea2ee22cd08 && Sigma1(0x639cb938e14dc190) == 0xea553075029c7338
    ensures Maj(0xbc05ba8de5d3c480, 0xe96f89dd48cbd851, 0xb01521dd6a6be12c) == 0xb805a9dd68cbc000
    ensures Ch(0x639cb938e14dc190, 0xf0996439e7b50cb1, 0x169008b3a4bb170b) == 0x749820bbe5b7169b
    ensures Sigma0(0x35d7e7f41defcbd5) == 0x31bc9031ba602973 && Sigma1(0xcc5100997f5710f2) == 0xcb4829d83b258a09
    ensures Maj(0x35d7e7f41defcbd5, 0xbc05ba8de5d3c480, 0xe96f89dd48cbd851) == 0xbd47abdd4dcbc8d1
    ensures Ch(0xcc5100997f5710f2, 0x639cb938e14dc190, 0xf0996439e7b50cb1) == 0x70986438e1e50c91
    ensures Sigma0(0xc47c9d5c7ea8a234) == 0x4ddd5a851f5e0baa && Sigma1(0x858d832ae0e8911c) == 0xf545431de223fd59
    ensures Maj(0xc47c9d5c7ea8a234, 0x35d7e7f41defcbd5, 0xbc05ba8de5d3c480) == 0xb455bfdc7debc294
    ensures Ch(0x858d832ae0e8911c, 0xcc5100997f5710f2, 0x639cb938e14dc190) == 0xe611381861455090
    ensures Sigma0(0x021fbadbabab5ac6) == 0xe7082c642d787c79 && Sigma1(0xe95c2a57572d64d9) == 0xe1fa4995cf3c276b
    ensures Maj(0x021fbadbabab5ac6, 0xc47c9d5c7ea8a234, 0x35d7e7f41defcbd5) == 0x045fbfdc3fabcad4
    ensures Ch(0xe95c2a57572d64d9, 0x858d832ae0e8911c, 0xcc5100997f5710f2) == 0x850d028a687a103a
    ensures Sigma0(0xf61e672694de2d67) == 0xa5fce17c538dd76e && Sigma1(0xc6bc35740d8daa9a) == 0x7acb6d8a95ee6b4f
    ensures Maj(0xf61e672694de2d67, 0x021fbadbabab5ac6, 0xc47c9d5c7ea8a234) == 0xc61ebf5ebeaa2a66
    ensures Ch(0xc6bc35740d8daa9a, 0xe95c2a57572d64d9, 0x858d832ae0e8911c) == 0xc11da25ee56d319c
  {}

  lemma Rounds40()
    ensures After(48, 0x6b69fc1bb482feac, 0xf61e672694de2d67, 0x021fbadbabab5ac6, 0xc47c9d5c7ea8a234,
                    0x35264334c03ac8ad, 0xc6bc35740d8daa9a, 0xe95c2a57572d64d9, 0x858d832ae0e8911c)
  {
    hide After, Word, RoundConstant, Sigma0, Sigma1, Ch, Maj;
    Rounds32();
    Constants40();
    Words40();
    Functions40();
    Round(40, 0x8e01e125b855d225, 0xb3bb8542b3376de5, 0x002bb8e4cd989567, 0x88df85b0bbe77514, 0x0c710a47ba6a567b,
          0xb49596c20feba7de, 0x66adcfa249ac7bbd, 0x8fbfd0162bbf4675, 0xa2bfe8a14cf10364, 0x04e33a75ce2be88a,
          0xa038fd75c88269d0, 0x822ba164b915d565, 0xefafc7f356093fb6, 0x669dc7e24bee2fde, 0x7f6f980981c8862b,
          0xe60d5febcdb6b609, 0x88cd488d1aa7b96d, 0x8db08302e8d3a1f7, 0x22649eda81983f35, 0xb01521dd6a6be12c,
          0x169008b3a4bb170b);
    Round(41, 0xb01521dd6a6be12c, 0x8e01e125b855d225, 0xb3bb8542b3376de5, 0x002bb8e4cd989567, 0x169008b3a4bb170b,
          0x0c710a47ba6a567b, 0xb49596c20feba7de, 0x66adcfa249ac7bbd, 0xa81a664bbc423001, 0x7d5314b3c359e0e7,
          0x46f03d4274377fe2, 0xb211a145ba77e125, 0xc03cc26fa56933c6, 0xa4159e43ab6ab6df, 0x26ea9211ef15af83,
          0xcb0030559a806662, 0x731a96a156c29663, 0xf06dab551a1c774a, 0xf901de882eaf6107, 0xe96f89dd48cbd851,
          0xf0996439e7b50cb1);
    Round(42, 0xe96f89dd48cbd851, 0xb01521dd6a6be12c, 0x8e01e125b855d225, 0xb3bb8542b3376de5, 0xf0996439e7b50cb1,
          0x169008b3a4bb170b, 0x0c710a47ba6a567b, 0xb49596c20feba7de, 0xc24b8b70d0f89791, 0xaef7a285ff251266,
          0x641ee4ba4f71a0b0, 0xa805a1dd684bd025, 0x6d1864c59111ab8b, 0x1cf00a77bcfb564b, 0x21adfb87a0fd5369,
          0x3e9e05ff5df8a9b4, 0x00e991702ef14145, 0xafe133f62e1653ab, 0x0c248697b7bd70d5, 0xbc05ba8de5d3c480,
          0x639cb938e14dc190);
    Round(43, 0xbc05ba8de5d3c480, 0xe96f89dd48cbd851, 0xb01521dd6a6be12c, 0x8e01e125b855d225, 0x639cb938e14dc190,
          0xf0996439e7b50cb1, 0x169008b3a4bb170b, 0x0c710a47ba6a567b, 0xc76c51a30654be30, 0x0b8472581deea04f,
          0x3f831ea2ee22cd08, 0xb805a9dd68cbc000, 0xea553075029c7338, 0x749820bbe5b7169b, 0xf6c63abcbd06c9b3,
          0x6b5e5b78a2bde04e, 0x32caad1ba9129e7e, 0x3e4f1f73c7013ecd, 0xf788c88056ee8d08, 0x35d7e7f41defcbd5,
          0xcc5100997f5710f2);
    Round(44, 0x35d7e7f41defcbd5, 0xbc05ba8de5d3c480, 0xe96f89dd48cbd851, 0xb01521dd6a6be12c, 0xcc5100997f5710f2,
          0x639cb938e14dc190, 0xf0996439e7b50cb1, 0x169008b3a4bb170b, 0xd192e819d6ef5218, 0xb174e26eddc7b033,
          0x31bc9031ba602973, 0xbd47abdd4dcbc8d1, 0xcb4829d83b258a09, 0x70986438e1e50c91, 0xe1d8328bdfe0a114,
          0x527096c4c1c5ada5, 0x24037ede98b4ffbd, 0xd578614d767caff0, 0xef043c0f082bf244, 0xc47c9d5c7ea8a234,
          0x858d832ae0e8911c);
    Round(45, 0xc47c9d5c7ea8a234, 0x35d7e7f41defcbd5, 0xbc05ba8de5d3c480, 0xe96f89dd48cbd851, 0x858d832ae0e8911c,
          0xcc5100997f5710f2, 0x639cb938e14dc190, 0xf0996439e7b50cb1, 0xd69906245565a910, 0x5d63bae58ddd88de,
          0x4ddd5a851f5e0baa, 0xb455bfdc7debc294, 0xf545431de223fd59, 0xe611381861455090, 0xe5dea757c9d90a0a,
          0xcbefdf702b1e5a9a, 0xa288e594808403aa, 0xffeca07a0e618c88, 0x02331a619d49ce3e, 0x021fbadbabab5ac6,
          0xe95c2a57572d64d9);
    Round(46, 0x021fbadbabab5ac6, 0xc47c9d5c7ea8a234, 0x35d7e7f41defcbd5, 0xbc05ba8de5d3c480, 0xe95c2a57572d64d9,
          0x858d832ae0e8911c, 0xcc5100997f5710f2, 0x639cb938e14dc190, 0xf40e35855771202a, 0x4c044007b744ccbb,
          0xe7082c642d787c79, 0x045fbfdc3fabcad4, 0xe1fa4995cf3c276b, 0x850d028a687a103a, 0x459702ceb089e8fb,
          0xcaa405591903f935, 0xbeb23ade7075195f, 0x0ab67ae627b9e61a, 0xeb67ec406d24474d, 0xf61e672694de2d67,
          0xc6bc35740d8daa9a);
    Round(47, 0xf61e672694de2d67, 0x021fbadbabab5ac6, 0xc47c9d5c7ea8a234, 0x35d7e7f41defcbd5, 0xc6bc35740d8daa9a,
          0xe95c2a57572d64d9, 0x858d832ae0e8911c, 0xcc5100997f5710f2, 0x106aa07032bbd1b8, 0xe6a9aa4d74dc7d43,
          0xa5fce17c538dd76e, 0xc61ebf5ebeaa2a66, 0x7acb6d8a95ee6b4f, 0xc11da25ee56d319c, 0x471c6e2415457c41,
          0x083a1082fab2addd, 0x18a4b0f32d6e7f95, 0xff4e5b40a24afcd8, 0x6c1ba0db123801d4, 0x6b69fc1bb482feac,
          0x35264334c03ac8ad);
  }

  lemma Functions48()
    ensures Sigma0(0x6b69fc1bb482feac) == 0x92665090f4936d45 && Sigma1(0x35264334c03ac8ad) == 0x0aff84b4ca84a3c4
    ensures Maj(0x6b69fc1bb482feac, 0xf61e672694de2d67, 0x021fbadbabab5ac6) == 0x621ffe1bb48a7ee6
    ensures Ch(0x35264334c03ac8ad, 0xc6bc35740d8daa9a, 0xe95c2a57572d64d9) == 0xcc7c2977170dacd8
    ensures Sigma0(0x571f323d96b3a047) == 0x75bb8b242a9ad132 && Sigma1(0x271580ed6c3e5650) == 0xba628ab84b9d6136
    ensures Maj(0x571f323d96b3a047, 0x6b69fc1bb482feac, 0xf61e672694de2d67) == 0x771f763f9492ac67
    ensures Ch(0x271580ed6c3e5650, 0x35264334c03ac8ad, 0xc6bc35740d8daa9a) == 0xe5ac353441bbe88a
    ensures Sigma0(0xca9bd862c5050918) == 0x249bd9d8aa8e4784 && Sigma1(0xdfe091dab182e645) == 0xcddec90941f39a23
    ensures Maj(0xca9bd862c5050918, 0x571f323d96b3a047, 0x6b69fc1bb482feac) == 0x4b1bf83b9483a80c
    ensures Ch(0xdfe091dab182e645, 0x271580ed6c3e5650, 0x35264334c03ac8ad) == 0x2706c2ec603a4ee8
    ensures Sigma0(0x813a43dd2c502043) == 0x344eac6874e8d9a2 && Sigma1(0x07a0d8ef821c5e1a) == 0x182f91445886389a
    ensures Maj(0x813a43dd2c502043, 0xca9bd862c5050918, 0x571f323d96b3a047) == 0xc31b527d84112043
    ensures Ch(0x07a0d8ef821c5e1a, 0xdfe091dab182e645, 0x271580ed6c3e5650) == 0x27b590caec224640
    ensures Sigma0(0xd43f83727325dd77) == 0x4a72eb9a595fa8fd && Sigma1(0x483f80a82eaee23e) == 0x6461e580fdaeaed0
    ensures Maj(0xd43f83727325dd77, 0x813a43dd2c502043, 0xca9bd862c5050918) == 0xc03bc37265050953
    ensures Ch(0x483f80a82eaee23e, 0x07a0d8ef821c5e1a, 0xdfe091dab182e645) == 0x97e091fa930c465b
    ensures Sigma0(0x03df11b32d42e203) == 0x79241d74fb01617d && Sigma1(0x504f94e40591cffa) == 0x3e151dca4b8130e9
    ensures Maj(0x03df11b32d42e203, 0xd43f83727325dd77, 0x813a43dd2c502043) == 0x813f03f32d40e043
    ensures Ch(0x504f94e40591cffa, 0x483f80a82eaee23e, 0x07a0d8ef821c5e1a) == 0x47afc8ab868cd23a
    ensures Sigma0(0xd63f68037ddf06aa) == 0x047c150a83d524e7 && Sigma1(0xa6781efe1aa1ce02) == 0x348760997d14d020
    ensures Maj(0xd63f68037ddf06aa, 0x03df11b32d42e203, 0xd43f83727325dd77) == 0xd63f01337d47c623
    ensures Ch(0xa6781efe1aa1ce02, 0x504f94e40591cffa, 0x483f80a82eaee23e) == 0x484f94e4248fee3e
    ensures Sigma0(0xf650857b5babda4d) == 0x9ae005f88370d7e1 && Sigma1(0x9ccfb31a86df0f86) == 0x70b8bb8ae3e2dd12
    ensures Maj(0xf650857b5babda4d, 0xd63f68037ddf06aa, 0x03df11b32d42e203) == 0xd65f01337dcbc20b
    ensures Ch(0x9ccfb31a86df0f86, 0xa6781efe1aa1ce02, 0x504f94e40591cffa) == 0xc44816fe0381ce7a
  {}

  lemma Rounds48()
    ensures After(56, 0x63b460e42748817e, 0xf650857b5babda4d, 0xd63f68037ddf06aa, 0x03df11b32d42e203,
                    0xc6b4dd2a9931c509, 0x9ccfb31a86df0f86, 0xa6781efe1aa1ce02, 0x504f94e40591cffa)
  {
    hide After, Word, RoundConstant, Sigma0, Sigma1, Ch, Maj;
    Rounds40();
    Constants48();
    Words48();
    Functions48();
    Round(48, 0x6b69fc1bb482feac, 0xf61e672694de2d67, 0x021fbadbabab5ac6, 0xc47c9d5c7ea8a234, 0x35264334c03ac8ad,
          0xc6bc35740d8daa9a, 0xe95c2a57572d64d9, 0x858d832ae0e8911c, 0x19a4c116b8d2d0c8, 0xebeaf1237248019c,
          0x92665090f4936d45, 0x621ffe1bb48a7ee6, 0x0aff84b4ca84a3c4, 0xcc7c2977170dacd8, 0x908d07dfab6d34e0,
          0x5d093156c27ae1b8, 0x76adf26d7b4db280, 0x6298e390ed95b41c, 0xf4864eaca91dec2b, 0x571f323d96b3a047,
          0x271580ed6c3e5650);
    Round(49, 0x571f323d96b3a047, 0x6b69fc1bb482feac, 0xf61e672694de2d67, 0x021fbadbabab5ac6, 0x271580ed6c3e5650,
          0x35264334c03ac8ad, 0xc6bc35740d8daa9a, 0xe95c2a57572d64d9, 0x1e376c085141ab53, 0x361e80b2d00f3193,
          0x75bb8b242a9ad132, 0x771f763f9492ac67, 0xba628ab84b9d6136, 0xe5ac353441bbe88a, 0xa3beb50fa2cac60f,
          0x896aea43e486ae99, 0xa7a2564c35c859ec, 0xddc0d6ff05d78b7f, 0xecdb0163bf2d7d99, 0xca9bd862c5050918,
          0xdfe091dab182e645);
    Round(50, 0xca9bd862c5050918, 0x571f323d96b3a047, 0x6b69fc1bb482feac, 0xf61e672694de2d67, 0xdfe091dab182e645,
          0x271580ed6c3e5650, 0x35264334c03ac8ad, 0xc6bc35740d8daa9a, 0x2748774cdf8eeb99, 0x2e9839125df3b175,
          0x249bd9d8aa8e4784, 0x4b1bf83b9483a80c, 0xcddec90941f39a23, 0x2706c2ec603a4ee8, 0x949afe7d4f8144bd,
          0xbba1c169afbb93a5, 0xe2ea38b68f4a7f3e, 0x118271c8ed3e30b3, 0x6fb7d2143f11ef90, 0x813a43dd2c502043,
          0x07a0d8ef821c5e1a);
    Round(51, 0x813a43dd2c502043, 0xca9bd862c5050918, 0x571f323d96b3a047, 0x6b69fc1bb482feac, 0x07a0d8ef821c5e1a,
          0xdfe091dab182e645, 0x271580ed6c3e5650, 0x35264334c03ac8ad, 0x34b0bcb5e19b48a8, 0x3319629293ad5363,
          0x344eac6874e8d9a2, 0xc31b527d84112043, 0x182f91445886389a, 0x27b590caec224640, 0x4d55d47918c10147,
          0x750b654404e34787, 0xa9bc21f9e67e902f, 0xdcd5848c7a2be392, 0xf769fee5f8f9f9e5, 0xd43f83727325dd77,
          0x483f80a82eaee23e);
    Round(52, 0xd43f83727325dd77, 0x813a43dd2c502043, 0xca9bd862c5050918, 0x571f323d96b3a047, 0x483f80a82eaee23e,
          0x07a0d8ef821c5e1a, 0xdfe091dab182e645, 0x271580ed6c3e5650, 0x391c0cb3c5c95a63, 0x9cbc5d89ac1b89d5,
          0x4a72eb9a595fa8fd, 0xc03bc37265050953, 0x6461e580fdaeaed0, 0x97e091fa930c465b, 0x8b77666e69ed0520,
          0x2357f868fcf94b7b, 0x5c74051cc2c2a5de, 0xf93062a66ede2fb3, 0x0aaeaf0cbe64b250, 0x03df11b32d42e203,
          0x504f94e40591cffa);
    Round(53, 0x03df11b32d42e203, 0xd43f83727325dd77, 0x813a43dd2c502043, 0xca9bd862c5050918, 0x504f94e40591cffa,
          0x483f80a82eaee23e, 0x07a0d8ef821c5e1a, 0xdfe091dab182e645, 0x4ed8aa4ae3418acb, 0x275e23ffeeca50b7,
          0x79241d74fb01617d, 0x813f03f32d40e043, 0x3e151dca4b8130e9, 0x47afc8ab868cd23a, 0x1df5afa4fd04172e,
          0x65a578508390e968, 0xb47e229b66d27433, 0xdbdc469b559cc4ea, 0xfa632168284241c0, 0xd63f68037ddf06aa,
          0xa6781efe1aa1ce02);
    Round(54, 0xd63f68037ddf06aa, 0x03df11b32d42e203, 0xd43f83727325dd77, 0x813a43dd2c502043, 0xa6781efe1aa1ce02,
          0x504f94e40591cffa, 0x483f80a82eaee23e, 0x07a0d8ef821c5e1a, 0x5b9cca4f7763e373, 0x3b80d680bf69ef58,
          0x047c150a83d524e7, 0xd63f01337d47c623, 0x348760997d14d020, 0x484f94e4248fee3e, 0x3c283988ff312e3a,
          0x8477ce6d23c11c78, 0xe01498bc9b24ffeb, 0x1b956f3d5a8eef43, 0xdabb163e011ceb0a, 0xf650857b5babda4d,
          0x9ccfb31a86df0f86);
    Round(55, 0xf650857b5babda4d, 0xd63f68037ddf06aa, 0x03df11b32d42e203, 0xd43f83727325dd77, 0x9ccfb31a86df0f86,
          0xa6781efe1aa1ce02, 0x504f94e40591cffa, 0x483f80a82eaee23e, 0x682e6ff3d6b2b8a3, 0x0d0696933945a125,
          0x9ae005f88370d7e1, 0xd65f01337dcbc20b, 0x70b8bb8ae3e2dd12, 0xc44816fe0381ce7a, 0xb8f83c331291bf50,
          0x7d40533116138dca, 0xe56ec324ecc6466d, 0xf27559b8260be792, 0x713f072c013c99ec, 0x63b460e42748817e,
          0xc6b4dd2a9931c509);
  }

  lemma Functions56()
    ensures Sigma0(0x63b460e42748817e) == 0xb514a6bb5f6c7eba && Sigma1(0xc6b4dd2a9931c509) == 0xf029f39cc70398e5
    ensures Maj(0x63b460e42748817e, 0xf650857b5babda4d, 0xd63f68037ddf06aa) == 0xf63460637fcb826e
    ensures Ch(0xc6b4dd2a9931c509, 0x9ccfb31a86df0f86, 0xa6781efe1aa1ce02) == 0xa4cc93de82910f02
    ensures Sigma0(0x7a52912943d52b05) == 0x3f2050c0f14913fc && Sigma1(0xd2e89bbd91e00be0) == 0xf3b38f1db87057b5
    ensures Maj(0x7a52912943d52b05, 0x63b460e42748817e, 0xf650857b5babda4d) == 0x7250816943c98b4d
    ensures Ch(0xd2e89bbd91e00be0, 0xc6b4dd2a9931c509, 0x9ccfb31a86df0f86) == 0xcea7b92a973f0506
    ensures Sigma0(0x4b81c3aec976ea4b) == 0x78a1f3f2fc6b4980 && Sigma1(0x70505988124351ac) == 0x56d3fcfda67a65b1
    ensures Maj(0x4b81c3aec976ea4b, 0x7a52912943d52b05, 0x63b460e42748817e) == 0x6b90c1ac4354ab4f
    ensures Ch(0x70505988124351ac, 0xd2e89bbd91e00be0, 0xc6b4dd2a9931c509) == 0xd6e49daa997085a1
    ensures Sigma0(0x581ecb3355dcd9b8) == 0xee111458e75b3c6f && Sigma1(0x6a3c9b0f71c8bf36) == 0x54acd622d1cb051d
    ensures Maj(0x581ecb3355dcd9b8, 0x4b81c3aec976ea4b, 0x7a52912943d52b05) == 0x5a12c32b41d4eb09
    ensures Ch(0x6a3c9b0f71c8bf36, 0x70505988124351ac, 0xd2e89bbd91e00be0) == 0xf0d019b8906011e4
    ensures Sigma0(0x2c074484ef1eac8c) == 0xc3f35eb8d32d97e6 && Sigma1(0x4797cde4ed370692) == 0x299b14398dc94477
    ensures Maj(0x2c074484ef1eac8c, 0x581ecb3355dcd9b8, 0x4b81c3aec976ea4b) == 0x4807c3a6cd5ee888
    ensures Ch(0x4797cde4ed370692, 0x6a3c9b0f71c8bf36, 0x70505988124351ac) == 0x7254990c7340573e
    ensures Sigma0(0x3857dfd2fc37d3ba) == 0xd988a0ea7f18a564 && Sigma1(0xa6af4e9c9f807e51) == 0xa89d3329c1060e46
    ensures Maj(0x3857dfd2fc37d3ba, 0x2c074484ef1eac8c, 0x581ecb3355dcd9b8) == 0x3817cf92fd1ed9b8
    ensures Ch(0xa6af4e9c9f807e51, 0x4797cde4ed370692, 0x6a3c9b0f71c8bf36) == 0x4e97dd87ed488736
    ensures Sigma0(0xcfcd928c5424e2b6) == 0x4fef5a0422b5d743 && Sigma1(0x09aee5bda1644de5) == 0xfa3dd6f6dd1d3aba
    ensures Maj(0xcfcd928c5424e2b6, 0x3857dfd2fc37d3ba, 0x2c074484ef1eac8c) == 0x2c47d684fc36e2be
    ensures Ch(0x09aee5bda1644de5, 0xa6af4e9c9f807e51, 0x4797cde4ed370692) == 0x46bf4cdccd134e53
    ensures Sigma0(0xa81dedbb9f19e643) == 0x61662e66ec899b0c && Sigma1(0x84058865d60a05fa) == 0xa47fb415becc2f6e
    ensures Maj(0xa81dedbb9f19e643, 0xcfcd928c5424e2b6, 0x3857dfd2fc37d3ba) == 0xa85ddf9adc35e2b2
    ensures Ch(0x84058865d60a05fa, 0x09aee5bda1644de5, 0xa6af4e9c9f807e51) == 0x22aec6bd89807fe1
  {}

  lemma Rounds56()
    ensures After(64, 0xab44e86276478d85, 0xa81dedbb9f19e643, 0xcfcd928c5424e2b6, 0x3857dfd2fc37d3ba,
                    0xcd881ee59ca6bc53, 0x84058865d60a05fa, 0x09aee5bda1644de5, 0xa6af4e9c9f807e51)
  {
    hide After, Word, RoundConstant, Sigma0, Sigma1, Ch, Maj;
    Rounds48();
    Constants56();
    Words56();
    Functions56();
    Round(56, 0x63b460e42748817e, 0xf650857b5babda4d, 0xd63f68037ddf06aa, 0x03df11b32d42e203, 0xc6b4dd2a9931c509,
          0x9ccfb31a86df0f86, 0xa6781efe1aa1ce02, 0x504f94e40591cffa, 0x748f82ee5defb2fc, 0x7533eabcb786ff00,
          0xb514a6bb5f6c7eba, 0xf63460637fcb826e, 0xf029f39cc70398e5, 0xa4cc93de82910f02, 0x40798880cc9568df,
          0xe5461c5f4f2677e1, 0x59d59f4dad162add, 0xcf098a0a649d29dd, 0xab49071edf380128, 0x7a52912943d52b05,
          0xd2e89bbd91e00be0);
    Round(57, 0x7a52912943d52b05, 0x63b460e42748817e, 0xf650857b5babda4d, 0xd63f68037ddf06aa, 0xd2e89bbd91e00be0,
          0xc6b4dd2a9931c509, 0x9ccfb31a86df0f86, 0xa6781efe1aa1ce02, 0x78a5636f43172f60, 0xb89826cee6fbf0e5,
          0x3f2050c0f14913fc, 0x7250816943c98b4d, 0xf3b38f1db87057b5, 0xcea7b92a973f0506, 0x9a2bae1bd31225b7,
          0x68d367466a512abd, 0xe178cab5ad685a1d, 0x9a10f18494644b02, 0xb170d22a35129f49, 0x4b81c3aec976ea4b,
          0x70505988124351ac);
    Round(58, 0x4b81c3aec976ea4b, 0x7a52912943d52b05, 0x63b460e42748817e, 0xf650857b5babda4d, 0x70505988124351ac,
          0xd2e89bbd91e00be0, 0xc6b4dd2a9931c509, 0x9ccfb31a86df0f86, 0x84c87814a1f0ab72, 0x249b4fbcad623e9f,
          0x78a1f3f2fc6b4980, 0x6b90c1ac4354ab4f, 0x56d3fcfda67a65b1, 0xd6e49daa997085a1, 0xf3a3b0182d597537,
          0xca884dc2c6c9fad8, 0x4f50c5d768baa64a, 0x73ec1594161ce4e9, 0xe432b59f3fbff4cf, 0x581ecb3355dcd9b8,
          0x6a3c9b0f71c8bf36);
    Round(59, 0x581ecb3355dcd9b8, 0x4b81c3aec976ea4b, 0x7a52912943d52b05, 0x63b460e42748817e, 0x6a3c9b0f71c8bf36,
          0x70505988124351ac, 0xd2e89bbd91e00be0, 0xc6b4dd2a9931c509, 0x8cc702081a6439ec, 0x4aea9df2b02d6f1e,
          0xee111458e75b3c6f, 0x5a12c32b41d4eb09, 0x54acd622d1cb051d, 0xf0d019b8906011e4, 0x1b61b34d6afcca26,
          0x0c31cd05fb5cdc0a, 0x98f8cf0e15c115f6, 0xe3e36d00c5ee8514, 0x4823d78429302778, 0x2c074484ef1eac8c,
          0x4797cde4ed370692);
    Round(60, 0x2c074484ef1eac8c, 0x581ecb3355dcd9b8, 0x4b81c3aec976ea4b, 0x7a52912943d52b05, 0x4797cde4ed370692,
          0x6a3c9b0f71c8bf36, 0x70505988124351ac, 0xd2e89bbd91e00be0, 0x90befffa23631e28, 0x2cc57475a55e8d8f,
          0xc3f35eb8d32d97e6, 0x4807c3a6cd5ee888, 0x299b14398dc94477, 0x7254990c7340573e, 0xfc83aff71fa95057,
          0x6ed8490392e9a795, 0xff9748fdb64cc5bd, 0x2c5cbd735bab534c, 0x0bfb225fa08c806e, 0x3857dfd2fc37d3ba,
          0xa6af4e9c9f807e51);
    Round(61, 0x3857dfd2fc37d3ba, 0x2c074484ef1eac8c, 0x581ecb3355dcd9b8, 0x4b81c3aec976ea4b, 0xa6af4e9c9f807e51,
          0x4797cde4ed370692, 0x6a3c9b0f71c8bf36, 0x70505988124351ac, 0xa4506cebde82bde9, 0xb2574ae938d8be89,
          0xd988a0ea7f18a564, 0x3817cf92fd1ed9b8, 0xa89d3329c1060e46, 0x4e97dd87ed488736, 0x18ed8cb1d3495ff2,
          0x67856a39c091e728, 0x0bd5d7259f14a511, 0xbe2d220ed7ed639a, 0x11a0707d7c377f1c, 0xcfcd928c5424e2b6,
          0x09aee5bda1644de5);
    Round(62, 0xcfcd928c5424e2b6, 0x3857dfd2fc37d3ba, 0x2c074484ef1eac8c, 0x581ecb3355dcd9b8, 0x09aee5bda1644de5,
          0xa6af4e9c9f807e51, 0x4797cde4ed370692, 0x6a3c9b0f71c8bf36, 0xbef9a3f7b2c67915, 0xc1b35a57b16d6aea,
          0x4fef5a0422b5d743, 0x2c47d684fc36e2be, 0xfa3dd6f6dd1d3aba, 0x46bf4cdccd134e53, 0x647a72064ee5f9f0,
          0xab39bee31bf94843, 0x6a3362dacebfc158, 0x2be6bd32802d2c42, 0x7c3730891eecba01, 0xa81dedbb9f19e643,
          0x84058865d60a05fa);
    Round(63, 0xa81dedbb9f19e643, 0xcfcd928c5424e2b6, 0x3857dfd2fc37d3ba, 0x2c074484ef1eac8c, 0x84058865d60a05fa,
          0x09aee5bda1644de5, 0xa6af4e9c9f807e51, 0x4797cde4ed370692, 0xc67178f2e372532b, 0xcc4918b5949206bb,
          0x61662e66ec899b0c, 0xa85ddf9adc35e2b2, 0xa47fb415becc2f6e, 0x22aec6bd89807fe1, 0xec1781faac033600,
          0x0ec648b83583b5e1, 0xd537c1ab18f6090c, 0xa180da60ad880fc7, 0x09c40e01c8bf7dbe, 0xab44e86276478d85,
          0xcd881ee59ca6bc53);
  }

  lemma Functions64()
    ensures Sigma0(0xab44e86276478d85) == 0x3d05b420d5c935ef && Sigma1(0xcd881ee59ca6bc53) == 0x2c95961c55c9d1bc
    ensures Maj(0xab44e86276478d85, 0xa81dedbb9f19e643, 0xcfcd928c5424e2b6) == 0xab4de8aa5605e687
    ensures Ch(0xcd881ee59ca6bc53, 0x84058865d60a05fa, 0x09aee5bda1644de5) == 0x8426e97db54245f6
    ensures Sigma0(0x5a806d7e9821a501) == 0xd9227a1ffc13cc6c && Sigma1(0xaa84b086688a5c45) == 0xa533859dcced7a53
    ensures Maj(0x5a806d7e9821a501, 0xab44e86276478d85, 0xa81dedbb9f19e643) == 0xaa04ed7a9e01a501
    ensures Ch(0xaa84b086688a5c45, 0xcd881ee59ca6bc53, 0x84058865d60a05fa) == 0x8c8118e59e821dfb
    ensures Sigma0(0xeeb9c21bb0102598) == 0xda6670a3e1ef22b9 && Sigma1(0x3b5fed0d6a1f96e1) == 0x3889ac633feb5d0f
    ensures Maj(0xeeb9c21bb0102598, 0x5a806d7e9821a501, 0xab44e86276478d85) == 0xea80e87ab001a581
    ensures Ch(0x3b5fed0d6a1f96e1, 0xaa84b086688a5c45, 0xcd881ee59ca6bc53) == 0xee84b2e4fcaa3c53
    ensures Sigma0(0x46c4210ab2cc155d) == 0x9517c8a9877e90ab && Sigma1(0x29fab5a7bff53366) == 0x529ed70dc8e3ed73
    ensures Maj(0x46c4210ab2cc155d, 0xeeb9c21bb0102598, 0x5a806d7e9821a501) == 0x4e80611ab0002519
    ensures Ch(0x29fab5a7bff53366, 0x3b5fed0d6a1f96e1, 0xaa84b086688a5c45) == 0xab5ea5056a1f5e61
    ensures Sigma0(0x54ba35cf56a0340e) == 0x21060d8ec224a5ed && Sigma1(0x1c66f46d95690bcf) == 0x5b0502078b230384
    ensures Maj(0x54ba35cf56a0340e, 0x46c4210ab2cc155d, 0xeeb9c21bb0102598) == 0x46b8210bb280351c
    ensures Ch(0x1c66f46d95690bcf, 0x29fab5a7bff53366, 0x3b5fed0d6a1f96e1) == 0x2b7bbd25ff779766
    ensures Sigma0(0x181839d609c79748) == 0xb21b1e7d17b5a366 && Sigma1(0x0ada78ba2d446140) == 0xc0468befdcc3537c
    ensures Maj(0x181839d609c79748, 0x54ba35cf56a0340e, 0x46c4210ab2cc155d) == 0x549831ce12c4154c
    ensures Ch(0x0ada78ba2d446140, 0x1c66f46d95690bcf, 0x29fab5a7bff53366) == 0x2962f52d97f11366
    ensures Sigma0(0xfb6aaae5d0b6a447) == 0xb4e68026c786d1b1 && Sigma1(0xe3711cb6564d112d) == 0x5bd7d390a3057429
    ensures Maj(0xfb6aaae5d0b6a447, 0x181839d609c79748, 0x54ba35cf56a0340e) == 0x583a39c750a6b44e
    ensures Ch(0xe3711cb6564d112d, 0x0ada78ba2d446140, 0x1c66f46d95690bcf) == 0x1e56f8fb85640bc2
    ensures Sigma0(0x7652c579cb60f19c) == 0x3741e44340544348 && Sigma1(0xaff62c9665ff80fa) == 0xa8e6ebe5442bf597
    ensures Maj(0x7652c579cb60f19c, 0xfb6aaae5d0b6a447, 0x181839d609c79748) == 0x7a5aa9f5c9e6b54c
    ensures Ch(0xaff62c9665ff80fa, 0xe3711cb6564d112d, 0x0ada78ba2d446140) == 0xa3785cbe4c4d6128
  {}

  lemma Rounds64()
    ensures After(72, 0xf15e9664b2803575, 0x7652c579cb60f19c, 0xfb6aaae5d0b6a447, 0x181839d609c79748,
                    0x947c3dfafee570ef, 0xaff62c9665ff80fa, 0xe3711cb6564d112d, 0x0ada78ba2d446140)
  {
    hide After, Word, RoundConstant, Sigma0, Sigma1, Ch, Maj;
    Rounds56();
    Constants64();
    Words64();
    Functions64();
    Round(64, 0xab44e86276478d85, 0xa81dedbb9f19e643, 0xcfcd928c5424e2b6, 0x3857dfd2fc37d3ba, 0xcd881ee59ca6bc53,
          0x84058865d60a05fa, 0x09aee5bda1644de5, 0xa6af4e9c9f807e51, 0xca273eceea26619c, 0x5099c3add79f90ec,
          0x3d05b420d5c935ef, 0xab4de8aa5605e687, 0x2c95961c55c9d1bc, 0x8426e97db54245f6, 0xd344e4b8f54a500d,
          0x576bce36aa8c9603, 0x21930d0594b2f79f, 0x722cd0b36c52888b, 0xe8539ccb2bcf1c76, 0x5a806d7e9821a501,
          0xaa84b086688a5c45);
    Round(65, 0x5a806d7e9821a501, 0xab44e86276478d85, 0xa81dedbb9f19e643, 0xcfcd928c5424e2b6, 0xaa84b086688a5c45,
          0xcd881ee59ca6bc53, 0x84058865d60a05fa, 0x09aee5bda1644de5, 0xd186b8c721c0c207, 0x5ea81d78e7660bf1,
          0xd9227a1ffc13cc6c, 0xaa04ed7a9e01a501, 0xa533859dcced7a53, 0x8c8118e59e821dfb, 0xaee26b5b6e51c838,
          0x3b6384410cd3e633, 0x0cea3d082e94a83a, 0x6b925a8115fab42b, 0x8327679a9a15716d, 0xeeb9c21bb0102598,
          0x3b5fed0d6a1f96e1);
    Round(66, 0xeeb9c21bb0102598, 0x5a806d7e9821a501, 0xab44e86276478d85, 0xa81dedbb9f19e643, 0x3b5fed0d6a1f96e1,
          0xaa84b086688a5c45, 0xcd881ee59ca6bc53, 0x84058865d60a05fa, 0xeada7dd6cde0eb1e, 0xebee6267405ac2a9,
          0xda6670a3e1ef22b9, 0xea80e87ab001a581, 0x3889ac633feb5d0f, 0xee84b2e4fcaa3c53, 0xbc8f34c915f56309,
          0xab13e7ae129f9f5c, 0x95ee6584e0808a7a, 0x81dcc7ec20db4d23, 0xc4e7591e91f0c83a, 0x46c4210ab2cc155d,
          0x29fab5a7bff53366);
    Round(67, 0x46c4210ab2cc155d, 0xeeb9c21bb0102598, 0x5a806d7e9821a501, 0xab44e86276478d85, 0x29fab5a7bff53366,
          0x3b5fed0d6a1f96e1, 0xaa84b086688a5c45, 0xcd881ee59ca6bc53, 0xf57d4f7fee6ed178, 0xb01f21926108a4ab,
          0x9517c8a9877e90ab, 0x4e80611ab0002519, 0x529ed70dc8e3ed73, 0xab5ea5056a1f5e61, 0x2026f5f3658aa9c6,
          0xcb859af8cfaa0827, 0xc102ea78be18d99f, 0x71220c0b1f217e4a, 0xe39829c4377eb5c4, 0x54ba35cf56a0340e,
          0x1c66f46d95690bcf);
    Round(68, 0x54ba35cf56a0340e, 0x46c4210ab2cc155d, 0xeeb9c21bb0102598, 0x5a806d7e9821a501, 0x1c66f46d95690bcf,
          0x29fab5a7bff53366, 0x3b5fed0d6a1f96e1, 0xaa84b086688a5c45, 0x06f067aa72176fba, 0x786433dd2fe65556,
          0x21060d8ec224a5ed, 0x46b8210bb280351c, 0x5b0502078b230384, 0x2b7bbd25ff779766, 0x0589b28df3ad5fc9,
          0x31056fb3f324f72f, 0x37f5d75e653c66e9, 0xb05a0b3b9522bc3f, 0x67be2e9a74a4db09, 0x181839d609c79748,
          0x0ada78ba2d446140);
    Round(69, 0x181839d609c79748, 0x54ba35cf56a0340e, 0x46c4210ab2cc155d, 0xeeb9c21bb0102598, 0x0ada78ba2d446140,
          0x1c66f46d95690bcf, 0x29fab5a7bff53366, 0x3b5fed0d6a1f96e1, 0x0a637dc5a2c898a6, 0xc54a6eaa24a0552c,
          0xb21b1e7d17b5a366, 0x549831ce12c4154c, 0xc0468befdcc3537c, 0x2962f52d97f11366, 0xfba678fd46e2ea5d,
          0x25096e2aded3fdc3, 0x2f6cebf0819c9669, 0xf4b75a9aa63ceb95, 0x06b3504b2a79b8b2, 0xfb6aaae5d0b6a447,
          0xe3711cb6564d112d);
    Round(70, 0xfb6aaae5d0b6a447, 0x181839d609c79748, 0x54ba35cf56a0340e, 0x46c4210ab2cc155d, 0xe3711cb6564d112d,
          0x0ada78ba2d446140, 0x1c66f46d95690bcf, 0x29fab5a7bff53366, 0x113f9804bef90dae, 0xb3c8f1530bdbaa9e,
          0xb4e68026c786d1b1, 0x583a39c750a6b44e, 0x5bd7d390a3057429, 0x1e56f8fb85640bc2, 0x85d2893862faa78f,
          0xa4298233e85eb351, 0xb5691a38a757c0ff, 0x69320b8bb3336b9d, 0x0d20b9ee182d85ff, 0x7652c579cb60f19c,
          0xaff62c9665ff80fa);
    Round(71, 0x7652c579cb60f19c, 0xfb6aaae5d0b6a447, 0x181839d609c79748, 0x54ba35cf56a0340e, 0xaff62c9665ff80fa,
          0xe3711cb6564d112d, 0x0ada78ba2d446140, 0x1c66f46d95690bcf, 0x1b710b35131c471b, 0xbb8abfe56f469338,
          0x3741e44340544348, 0x7a5aa9f5c9e6b54c, 0xa8e6ebe5442bf597, 0xa3785cbe4c4d6128, 0xc54de052d9950166,
          0x68c63d1125e2628e, 0x8437484638fea9a9, 0x3fc2082ba8453ce1, 0xb19c8e390a3af894, 0xf15e9664b2803575,
          0x947c3dfafee570ef);
  }

  lemma Functions72()
    ensures Sigma0(0xf15e9664b2803575) == 0xcdc65a68825c7efe && Sigma1(0x947c3dfafee570ef) == 0x62fac6578f5f7a32
    ensures Maj(0xf15e9664b2803575, 0x7652c579cb60f19c, 0xfb6aaae5d0b6a447) == 0xf35a8665d2a0b555
    ensures Ch(0x947c3dfafee570ef, 0xaff62c9665ff80fa, 0xe3711cb6564d112d) == 0xe7752c9664ed01ea
    ensures Sigma0(0x358406d165aee9ab) == 0xa14e7d0ac34a64af && Sigma1(0x8c7b5fd91a794ca0) == 0x8d272e55f8d412d4
    ensures Maj(0x358406d165aee9ab, 0xf15e9664b2803575, 0x7652c579cb60f19c) == 0x75568671e3a0f1bd
    ensures Ch(0x8c7b5fd91a794ca0, 0x947c3dfafee570ef, 0xaff62c9665ff80fa) == 0xa7fc3dde7fe7c0fa
    ensures Sigma0(0x20878dcd29cdfaf5) == 0x4cff4a1aaa1830ba && Sigma1(0x054d3536539948d0) == 0xea5dd8c3f1967c19
    ensures Maj(0x20878dcd29cdfaf5, 0x358406d165aee9ab, 0xf15e9664b2803575) == 0x318686c5218cf9f5
    ensures Ch(0x054d3536539948d0, 0x8c7b5fd91a794ca0, 0x947c3dfafee570ef) == 0x94791dd8be7d78af
    ensures Sigma0(0x33d48dabb5521de2) == 0xef1ffd6075da50ca && Sigma1(0x2ba18245b50de4cf) == 0xc8d5e29c0e1269b5
    ensures Maj(0x33d48dabb5521de2, 0x20878dcd29cdfaf5, 0x358406d165aee9ab) == 0x31848dc925cef9e3
    ensures Ch(0x2ba18245b50de4cf, 0x054d3536539948d0, 0x8c7b5fd91a794ca0) == 0x855b5d9c1b7948e0
    ensures Sigma0(0xc8960e6be864b916) == 0xab82765b16d44938 && Sigma1(0x995019a6ff3ba3de) == 0xb4f25ec58fbeeb2c
    ensures Maj(0xc8960e6be864b916, 0x33d48dabb5521de2, 0x20878dcd29cdfaf5) == 0x20968deba944b9f6
    ensures Ch(0x995019a6ff3ba3de, 0x2ba18245b50de4cf, 0x054d3536539948d0) == 0x0d0d2414b589e8ce
    ensures Sigma0(0x654ef9abec389ca9) == 0x6f5f9c855f76b927 && Sigma1(0xceb9fc3691ce8326) == 0xb71a6e081cb0bfb7
    ensures Maj(0x654ef9abec389ca9, 0xc8960e6be864b916, 0x33d48dabb5521de2) == 0x61d68dabec709da2
    ensures Ch(0xceb9fc3691ce8326, 0x995019a6ff3ba3de, 0x2ba18245b50de4cf) == 0xa9101a67b50be7cf
    ensures Sigma0(0xd67806db8b148677) == 0xe49b6fec7db29c03 && Sigma1(0x25c96a7768fb2aa3) == 0x5b9023c2a2d29d67
    ensures Maj(0xd67806db8b148677, 0x654ef9abec389ca9, 0xc8960e6be864b916) == 0xc45e0eebe8349c37
    ensures Ch(0x25c96a7768fb2aa3, 0xceb9fc3691ce8326, 0x995019a6ff3ba3de) == 0x9c9979b697ca837e
    ensures Sigma0(0x10d9c4c4295599f6) == 0x175e522f658b8efa && Sigma1(0x9bb4d39778c07f9e) == 0x2a21a801b5f5e758
    ensures Maj(0x10d9c4c4295599f6, 0xd67806db8b148677, 0x654ef9abec389ca9) == 0x5458c4cba9149cf7
    ensures Ch(0x9bb4d39778c07f9e, 0x25c96a7768fb2aa3, 0xceb9fc3691ce8326) == 0x45896e37e9ceaaa2
  {}

  lemma Rounds72()
    ensures After(80, 0x73a54f399fa4b1b2, 0x10d9c4c4295599f6, 0xd67806db8b148677, 0x654ef9abec389ca9,
                    0xd08446aa79693ed7, 0x9bb4d39778c07f9e, 0x25c96a7768fb2aa3, 0xceb9fc3691ce8326)
  {
    hide After, Word, RoundConstant, Sigma0, Sigma1, Ch, Maj;
    Rounds64();
    Constants72();
    Words72();
    Functions72();
    Round(72, 0xf15e9664b2803575, 0x7652c579cb60f19c, 0xfb6aaae5d0b6a447, 0x181839d609c79748, 0x947c3dfafee570ef,
          0xaff62c9665ff80fa, 0xe3711cb6564d112d, 0x0ada78ba2d446140, 0x28db77f523047d84, 0xf63d4265cc1c5a78,
          0xcdc65a68825c7efe, 0xf35a8665d2a0b555, 0x62fac6578f5f7a32, 0xe7752c9664ed01ea, 0x6dd53f11bca3db72,
          0x554a6ba82190dd5c, 0x7e25e39d44955ae0, 0x7463260310b1b558, 0xc120e0ce54fd3453, 0x358406d165aee9ab,
          0x8c7b5fd91a794ca0);
    Round(73, 0x358406d165aee9ab, 0xf15e9664b2803575, 0x7652c579cb60f19c, 0xfb6aaae5d0b6a447, 0x8c7b5fd91a794ca0,
          0x947c3dfafee570ef, 0xaff62c9665ff80fa, 0xe3711cb6564d112d, 0x32caab7b40c72493, 0xbe8355ea73129afb,
          0xa14e7d0ac34a64af, 0x75568671e3a0f1bd, 0x8d272e55f8d412d4, 0xa7fc3dde7fe7c0fa, 0x70984b0c4f212401,
          0x189488eacf08e4fb, 0x4b5f34660fd0098e, 0x09e28a5082e2a489, 0x16a5037ca6eb566c, 0x20878dcd29cdfaf5,
          0x054d3536539948d0);
    Round(74, 0x20878dcd29cdfaf5, 0x358406d165aee9ab, 0xf15e9664b2803575, 0x7652c579cb60f19c, 0x054d3536539948d0,
          0x8c7b5fd91a794ca0, 0x947c3dfafee570ef, 0xaff62c9665ff80fa, 0x3c9ebe0a15c9bebc, 0x49e2db8ebdcfbeb5,
          0x4cff4a1aaa1830ba, 0x318686c5218cf9f5, 0xea5dd8c3f1967c19, 0x94791dd8be7d78af, 0x9a54055a5795fd13,
          0x2ecd2333161375c2, 0x6b6be13d2bdd347e, 0xb54ebccbe9acf333, 0x7e85d0dfcba52aaf, 0x33d48dabb5521de2,
          0x2ba18245b50de4cf);
    Round(75, 0x33d48dabb5521de2, 0x20878dcd29cdfaf5, 0x358406d165aee9ab, 0xf15e9664b2803575, 0x2ba18245b50de4cf,
          0x054d3536539948d0, 0x8c7b5fd91a794ca0, 0x947c3dfafee570ef, 0x431d67c49c100d4c, 0x82269d4a883a3d99,
          0xef1ffd6075da50ca, 0x31848dc925cef9e3, 0xc8d5e29c0e1269b5, 0x855b5d9c1b7948e0, 0x5d5220970cf7daa4,
          0xe2ad7e3328712384, 0x25cae5f7c48130d0, 0xa7f183424cbb6e69, 0x20a48b299ba94aad, 0xc8960e6be864b916,
          0x995019a6ff3ba3de);
    Round(76, 0xc8960e6be864b916, 0x33d48dabb5521de2, 0x20878dcd29cdfaf5, 0x358406d165aee9ab, 0x995019a6ff3ba3de,
          0x2ba18245b50de4cf, 0x054d3536539948d0, 0x8c7b5fd91a794ca0, 0x4cc5d4becb3e42b6, 0xfdf53df3011f362b,
          0xab82765b16d44938, 0x20968deba944b9f6, 0xb4f25ec58fbeeb2c, 0x0d0d2414b589e8ce, 0x416dbe9eaa3837cc,
          0x4e7ae2b35fc2209a, 0x9b40b7722b006350, 0x9935f5652c1f997b, 0xcc190446c019032e, 0x654ef9abec389ca9,
          0xceb9fc3691ce8326);
    Round(77, 0x654ef9abec389ca9, 0xc8960e6be864b916, 0x33d48dabb5521de2, 0x20878dcd29cdfaf5, 0xceb9fc3691ce8326,
          0x995019a6ff3ba3de, 0x2ba18245b50de4cf, 0x054d3536539948d0, 0x597f299cfc657e2a, 0x464af5671d71c12e,
          0x6f5f9c855f76b927, 0x61d68dabec709da2, 0xb71a6e081cb0bfb7, 0xa9101a67b50be7cf, 0xbc67a33e704a0887,
          0x6577bda62555f056, 0xbef6e74321bb6e80, 0x0541dcaa3f2d2fae, 0xd1362a314be756c9, 0xd67806db8b148677,
          0x25c96a7768fb2aa3);
    Round(78, 0xd67806db8b148677, 0x654ef9abec389ca9, 0xc8960e6be864b916, 0x33d48dabb5521de2, 0x25c96a7768fb2aa3,
          0xceb9fc3691ce8326, 0x995019a6ff3ba3de, 0x2ba18245b50de4cf, 0x5fcb6fab3ad6faec, 0xe449b68198ec611c,
          0xe49b6fec7db29c03, 0xc45e0eebe8349c37, 0x5b9023c2a2d29d67, 0x9c9979b697ca837e, 0x8731a60857e08236,
          0x23cb1fbeefab05b4, 0x83968f6a2a8200a0, 0x67e045ebc36e61bc, 0xa8f97ed865e7383a, 0x10d9c4c4295599f6,
          0x9bb4d39778c07f9e);
    Round(79, 0x10d9c4c4295599f6, 0xd67806db8b148677, 0x654ef9abec389ca9, 0xc8960e6be864b916, 0x9bb4d39778c07f9e,
          0x25c96a7768fb2aa3, 0xceb9fc3691ce8326, 0x995019a6ff3ba3de, 0x6c44198c4a475817, 0x92aeeed1a7bcf7d2,
          0x175e522f658b8efa, 0x5458c4cba9149cf7, 0x2a21a801b5f5e758, 0x45896e37e9ceaaa2, 0xc371c1a8b5318b36,
          0x08fb2fe09f0035d8, 0x753f496ce9478def, 0x07ee383e910485c1, 0x6bb716fb0ea02bf1, 0x73a54f399fa4b1b2,
          0xd08446aa79693ed7);
  }

  lemma Start()
    ensures After(0, 0x6a09e667f3bcc908, 0xbb67ae8584caa73b, 0x3c6ef372fe94f82b, 0xa54ff53a5f1d36f1,
                     0x510e527fade682d1, 0x9b05688c2b3e6c1f, 0x1f83d9abfb41bd6b, 0x5be0cd19137e2179)
  {
    hide Schedule;
  }

  // ---- the digest ----

  const ABC_STATE: State := [
    0xddaf35a193617aba, 0xcc417349ae204131, 0x12e6fa4e89a97ea2, 0x0a9eeee64b55d39a,
    0x2192992a274fc1a8, 0x36ba3c23a3feebbd, 0x454d4423643ce80e, 0x2a9ac94fa54ca49f
  ]

  /** The chaining value is added to the working variables. */
  lemma Feedforward(a: bv64, b: bv64, c: bv64, d: bv64, e: bv64, f: bv64, g: bv64, h: bv64, o: State)
    requires After(80, a, b, c, d, e, f, g, h)
    requires o[0] == a + 0x6a09e667f3bcc908 && o[1] == b + 0xbb67ae8584caa73b && o[2] == c + 0x3c6ef372fe94f82b
    requires o[3] == d + 0xa54ff53a5f1d36f1 && o[4] == e + 0x510e527fade682d1 && o[5] == f + 0x9b05688c2b3e6c1f
    requires o[6] == g + 0x1f83d9abfb41bd6b && o[7] == h + 0x5be0cd19137e2179
    ensures Compress(IV, ABC_BLOCK) == o
  {
    hide Rounds, Schedule;
  }

  lemma Compressed()
    ensures Compress(IV, ABC_BLOCK) == ABC_STATE
  {
    hide Compress, After;
    Rounds72();
    Feedforward(0x73a54f399fa4b1b2, 0x10d9c4c4295599f6, 0xd67806db8b148677, 0x654ef9abec389ca9,
                0xd08446aa79693ed7, 0x9bb4d39778c07f9e, 0x25c96a7768fb2aa3, 0xceb9fc3691ce8326, ABC_STATE);
  }

  lemma WordBytes(h: bv64, n: nat, s: bytes)
    requires |s| == 8 && h as int == n
    requires n == s[7] as int + 0x100 * (s[6] as int + 0x100 * (s[5] as int + 0x100 * (s[4] as int +
                  0x100 * (s[3] as int + 0x100 * (s[2] as int + 0x100 * (s[1] as int + 0x100 * s[0] as int))))))
    ensures BeBytes(h as int, 8) == s
  {
    hide BeVal, BeBytes;
    EightBytes(s);
    BytesOfValue(s);
  }

  lemma {:induction false} BytesOfValue(s: bytes)
    ensures BeBytes(BeVal(s), |s|) == s
  {
    if |s| > 0 {
      BytesOfValue(s[..|s| - 1]);
    }
  }

  const ABC_HASH: bytes :=
    [0xdd, 0xaf, 0x35, 0xa1, 0x93, 0x61, 0x7a, 0xba] +
    [0xcc, 0x41, 0x73, 0x49, 0xae, 0x20, 0x41, 0x31] +
    [0x12, 0xe6, 0xfa, 0x4e, 0x89, 0xa9, 0x7e, 0xa2] +
    [0x0a, 0x9e, 0xee, 0xe6, 0x4b, 0x55, 0xd3, 0x9a] +
    [0x21, 0x92, 0x99, 0x2a, 0x27, 0x4f, 0xc1, 0xa8] +
    [0x36, 0xba, 0x3c, 0x23, 0xa3, 0xfe, 0xeb, 0xbd] +
    [0x45, 0x4d, 0x44, 0x23, 0x64, 0x3c, 0xe8, 0x0e] +
    [0x2a, 0x9a, 0xc9, 0x4f, 0xa5, 0x4c, 0xa4, 0x9f]

  lemma DigestBytes0()
    ensures BeBytes(ABC_STATE[0] as int, 8) == [0xdd, 0xaf, 0x35, 0xa1, 0x93, 0x61, 0x7a, 0xba]
    ensures BeBytes(ABC_STATE[1] as int, 8) == [0xcc, 0x41, 0x73, 0x49, 0xae, 0x20, 0x41, 0x31]
    ensures BeBytes(ABC_STATE[2] as int, 8) == [0x12, 0xe6, 0xfa, 0x4e, 0x89, 0xa9, 0x7e, 0xa2]
    ensures BeBytes(ABC_STATE[3] as int, 8) == [0x0a, 0x9e, 0xee, 0xe6, 0x4b, 0x55, 0xd3, 0x9a]
  {
    hide BeBytes, BeVal;
    WordBytes(0xddaf35a193617aba, 0xddaf35a193617aba, [0xdd, 0xaf, 0x35, 0xa1, 0x93, 0x61, 0x7a, 0xba]);
    WordBytes(0xcc417349ae204131, 0xcc417349ae204131, [0xcc, 0x41, 0x73, 0x49, 0xae, 0x20, 0x41, 0x31]);
    WordBytes(0x12e6fa4e89a97ea2, 0x12e6fa4e89a97ea2, [0x12, 0xe6, 0xfa, 0x4e, 0x89, 0xa9, 0x7e, 0xa2]);
    WordBytes(0x0a9eeee64b55d39a, 0x0a9eeee64b55d39a, [0x0a, 0x9e, 0xee, 0xe6, 0x4b, 0x55, 0xd3, 0x9a]);
  }

  lemma DigestBytes4()
    ensures BeBytes(ABC_STATE[4] as int, 8) == [0x21, 0x92, 0x99, 0x2a, 0x27, 0x4f, 0xc1, 0xa8]
    ensures BeBytes(ABC_STATE[5] as int, 8) == [0x36, 0xba, 0x3c, 0x23, 0xa3, 0xfe, 0xeb, 0xbd]
    ensures BeBytes(ABC_STATE[6] as int, 8) == [0x45, 0x4d, 0x44, 0x23, 0x64, 0x3c, 0xe8, 0x0e]
    ensures BeBytes(ABC_STATE[7] as int, 8) == [0x2a, 0x9a, 0xc9, 0x4f, 0xa5, 0x4c, 0xa4, 0x9f]
  {
    hide BeBytes, BeVal;
    WordBytes(0x2192992a274fc1a8, 0x2192992a274fc1a8, [0x21, 0x92, 0x99, 0x2a, 0x27, 0x4f, 0xc1, 0xa8]);
    WordBytes(0x36ba3c23a3feebbd, 0x36ba3c23a3feebbd, [0x36, 0xba, 0x3c, 0x23, 0xa3, 0xfe, 0xeb, 0xbd]);
    WordBytes(0x454d4423643ce80e, 0x454d4423643ce80e, [0x45, 0x4d, 0x44, 0x23, 0x64, 0x3c, 0xe8, 0x0e]);
    WordBytes(0x2a9ac94fa54ca49f, 0x2a9ac94fa54ca49f, [0x2a, 0x9a, 0xc9, 0x4f, 0xa5, 0x4c, 0xa4, 0x9f]);
  }

  /** The hash of "abc" is the published one. */
  lemma HashOfAbc()
    ensures Hash(ABC) == ABC_HASH
  {
    hide Compress, BeBytes, DigestOf, Pad;
    OneBlock();
    Compressed();
    assert ABC_BLOCK[..128] == ABC_BLOCK && ABC_BLOCK[128..] == [];
    assert Fold<State>(Compress, IV, ABC_BLOCK) == Fold<State>(Compress, Compress(IV, ABC_BLOCK), []);
    DigestBytes0();
    DigestBytes4();
    DigestOfEight(ABC_STATE);
  }

  lemma DigestOfEight(h: State)
    ensures DigestOf(h, 8) == BeBytes(h[0] as int, 8) + BeBytes(h[1] as int, 8) + BeBytes(h[2] as int, 8) +
                              BeBytes(h[3] as int, 8) + BeBytes(h[4] as int, 8) + BeBytes(h[5] as int, 8) +
                              BeBytes(h[6] as int, 8) + BeBytes(h[7] as int, 8)
  {
    hide BeBytes, DigestOf;
    DigestNone(h);
    DigestStep(h, 1);
    DigestStep(h, 2);
    DigestStep(h, 3);
    DigestStep(h, 4);
    DigestStep(h, 5);
    DigestStep(h, 6);
    DigestStep(h, 7);
    DigestStep(h, 8);
  }

  lemma DigestNone(h: State)
    ensures DigestOf(h, 0) == []
  {}

  lemma DigestStep(h: State, n: nat)
    requires 1 <= n <= 8
    ensures DigestOf(h, n) == DigestOf(h, n - 1) + BeBytes(h[n - 1] as int, 8)
  {}
}
