/** Moves and swaps without branches (curve25519-donna-64bit.h). */
module Conditional {
  import opened Words
  import opened Bitwise
  import opened Bytes
  import opened Curve25519

  /** Copies a packed row over another, eight bytes at a time, when the flag is set. */
  method MoveConditionalBytes(out0: bytes, in1: bytes, flag: u64) returns (out: bytes)
    requires |out0| == 96 && |in1| == 96 && flag <= 1
    ensures out == if flag == 1 then in1 else out0
  {
    hide Xor, And, Or, LeVal;
    var nb := Sub64(flag, 1);
    var b := Not64(nb);
    ghost var chosen := if flag == 1 then in1 else out0;
    out := [];
    for i := 0 to 12
      invariant |out| == 8 * i && out == chosen[..8 * i]
    {
      MaskMoves(flag, Load64(out0, 8 * i), Load64(in1, 8 * i));
      var w := Store64(Or(And(nb, Load64(out0, 8 * i)), And(b, Load64(in1, 8 * i))));
      assert w == chosen[8 * i..8 * i + 8] by {
        LeValInjective(w, chosen[8 * i..8 * i + 8]);
      }
      out := out + w;
    }
    assert chosen[..96] == chosen;
  }

  /** The pair that `x = swap & (a ^ b); a ^= x; b ^= x` leaves. */
  method SwapWords(a0: u64, b0: u64, iswap: u64) returns (a: u64, b: u64)
    requires iswap <= 1
    ensures (a, b) == if iswap == 1 then (b0, a0) else (a0, b0)
  {
    hide Xor, And;
    MaskSwaps(iswap, a0, b0);
    var x := And(Sub64(0, iswap), Xor(a0, b0));
    a, b := Xor(a0, x), Xor(b0, x);
  }

  /** Exchanges two field elements limb by limb when the flag is set. */
  method SwapConditional(a0: Fe, b0: Fe, iswap: u64) returns (a: Fe, b: Fe)
    requires iswap <= 1
    ensures (a, b) == if iswap == 1 then (b0, a0) else (a0, b0)
  {
    var a00, b00 := SwapWords(a0.l0, b0.l0, iswap);
    var a1, b1 := SwapWords(a0.l1, b0.l1, iswap);
    var a2, b2 := SwapWords(a0.l2, b0.l2, iswap);
    var a3, b3 := SwapWords(a0.l3, b0.l3, iswap);
    var a4, b4 := SwapWords(a0.l4, b0.l4, iswap);
    a, b := Fe(a00, a1, a2, a3, a4), Fe(b00, b1, b2, b3, b4);
  }
}
