/** Little-endian byte strings. */
module Bytes {
  import opened Words

  type bytes = seq<u8>

  /** The number a little-endian byte string stands for. */
  function LeVal(s: bytes): nat {
    if |s| == 0 then 0 else s[0] as int + 256 * LeVal(s[1..])
  }

  function Pow256(n: nat): nat {
    if n == 0 then 1 else 256 * Pow256(n - 1)
  }

  lemma Distribute(a: int, p: int, v: int)
    ensures 256 * (a + p * v) == 256 * a + (256 * p) * v
  {}

  lemma {:induction false} LeValAppend(s: bytes, t: bytes)
    ensures LeVal(s + t) == LeVal(s) + Pow256(|s|) * LeVal(t)
  {
    if |s| == 0 {
      assert s + t == t;
    } else {
      assert (s + t)[1..] == s[1..] + t;
      LeValAppend(s[1..], t);
      Distribute(LeVal(s[1..]), Pow256(|s| - 1), LeVal(t));
    }
  }

  lemma {:induction false} LeValBound(s: bytes)
    ensures LeVal(s) < Pow256(|s|)
  {
    if |s| != 0 {
      LeValBound(s[1..]);
    }
  }

  /** Strings of equal length that stand for the same number are the same string. */
  lemma {:induction false} LeValInjective(s: bytes, t: bytes)
    requires |s| == |t| && LeVal(s) == LeVal(t)
    ensures s == t
  {
    if |s| != 0 {
      assert s[0] as int == LeVal(s) % 256 && t[0] as int == LeVal(t) % 256;
      LeValInjective(s[1..], t[1..]);
      assert s == [s[0]] + s[1..] && t == [t[0]] + t[1..];
    }
  }

  /** The `k` bytes of a number, lowest first. */
  function LeBytes(n: nat, k: nat): (s: bytes)
    ensures |s| == k
  {
    if k == 0 then [] else [n % 256] + LeBytes(n / 256, k - 1)
  }

  lemma {:induction false} LeBytesValue(n: nat, k: nat)
    requires n < Pow256(k)
    ensures LeVal(LeBytes(n, k)) == n
  {
    if k != 0 {
      LeBytesValue(n / 256, k - 1);
      var s := LeBytes(n, k);
      assert s[0] == n % 256 && s[1..] == LeBytes(n / 256, k - 1);
    }
  }

  lemma Pow256Of8()
    ensures Pow256(8) == 0x10000000000000000
  {}

  /** `U8TO64_LE`: the little-endian word at an offset. */
  function Load64(s: bytes, at: nat): u64
    requires at + 8 <= |s|
  {
    LeValBound(s[at..at + 8]);
    Pow256Of8();
    LeVal(s[at..at + 8])
  }

  lemma SplitLow(s: bytes, at: nat)
    requires at + 8 <= |s|
    ensures LeVal(s[at..]) == Load64(s, at) + 0x10000000000000000 * LeVal(s[at + 8..])
  {
    assert s[at..] == s[at..at + 8] + s[at + 8..];
    Append8(s[at..at + 8], s[at + 8..]);
  }

  /** Four loads cover a 32-byte string. */
  lemma Load256Value(s: bytes)
    requires |s| == 32
    ensures LeVal(s) == Load64(s, 0) + 0x10000000000000000 * (Load64(s, 8) +
                        0x10000000000000000 * (Load64(s, 16) + 0x10000000000000000 * Load64(s, 24)))
  {
    hide Load64, LeVal;
    SplitLow(s, 0);
    SplitLow(s, 8);
    SplitLow(s, 16);
    SplitLow(s, 24);
    assert s[0..] == s;
    Empty(s[32..]);
  }

  lemma Empty(s: bytes)
    requires |s| == 0
    ensures LeVal(s) == 0
  {}

  /** `U64TO8_LE`, and the byte loop that ends `curve25519_contract`. */
  method Store64(v: u64) returns (s: bytes)
    ensures |s| == 8 && LeVal(s) == v
  {
    s := [];
    var f := v;
    for i := 0 to 8
      invariant |s| == i
      invariant LeVal(s) + Pow256(i) * f == v
    {
      StoreStep(s, f);
      s := s + [f % 256];
      f := f / 256;
    }
    LeValBound(s);
    Pow256Of8();
  }

  lemma StoreStep(s: bytes, f: u64)
    ensures LeVal(s + [f % 256]) + Pow256(|s| + 1) * (f / 256) == LeVal(s) + Pow256(|s|) * f
  {
    hide *;
    LeValAppend(s, [f % 256]);
    Singleton(f % 256);
    Pow256Step(|s|);
    assert f == 256 * (f / 256) + f % 256;
    Weigh(Pow256(|s|), f / 256, f % 256);
  }

  lemma Singleton(b: u8)
    ensures LeVal([b]) == b
  {}

  lemma Pow256Step(n: nat)
    ensures Pow256(n + 1) == 256 * Pow256(n)
  {}

  lemma Weigh(p: int, q: int, r: int)
    ensures p * (256 * q + r) == (256 * p) * q + p * r
  {}

  lemma Append8(s: bytes, t: bytes)
    requires |s| == 8
    ensures LeVal(s + t) == LeVal(s) + 0x10000000000000000 * LeVal(t)
  {
    LeValAppend(s, t);
    Pow256Of8();
  }

  /** Appending four stored words. */
  lemma Store256Value(a: bytes, b: bytes, c: bytes, d: bytes)
    requires |a| == |b| == |c| == 8
    ensures LeVal(a + b + c + d) == LeVal(a) + 0x10000000000000000 * (LeVal(b) +
                                    0x10000000000000000 * (LeVal(c) + 0x10000000000000000 * LeVal(d)))
  {
    hide *;
    assert a + b + c + d == a + (b + (c + d));
    Append8(a, b + (c + d));
    Append8(b, c + d);
    Append8(c, d);
  }

  lemma {:induction false} Pow256Add(m: nat, n: nat)
    ensures Pow256(m + n) == Pow256(m) * Pow256(n)
  {
    if m != 0 {
      Pow256Add(m - 1, n);
      assert 256 * (Pow256(m - 1) * Pow256(n)) == 256 * Pow256(m - 1) * Pow256(n);
    }
  }

  lemma Pow256Of7()
    ensures Pow256(7) == 0x100000000000000
  {}

  lemma Pow256Of31()
    ensures Pow256(31) == TWO248
  {
    hide Pow256;
    Pow256Of8();
    Pow256Add(8, 8);
    Pow256Add(16, 8);
    Pow256Add(24, 7);
    Pow256Of7();
  }

  lemma Pow256Of32()
    ensures Pow256(32) == TWO256
  {
    hide Pow256;
    Pow256Of31();
    Pow256Step(31);
  }

  function Zeros(n: nat): (z: bytes)
    ensures |z| == n
  {
    seq(n, _ => 0)
  }

  lemma {:induction false} ZerosValue(n: nat)
    ensures LeVal(Zeros(n)) == 0
  {
    if n != 0 {
      assert Zeros(n)[1..] == Zeros(n - 1);
      ZerosValue(n - 1);
    }
  }
}
