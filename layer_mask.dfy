/** The layer filter of both engines: EnumMaskCheck and LayerCheck. */
module LayerMask {
  import opened Basics

  function Pow2(k: nat): (p: nat)
    ensures p >= 1
  {
    if k == 0 then 1 else 2 * Pow2(k - 1)
  }

  /** The 32-bit two's-complement pattern of a C# int, as an unsigned number. */
  function Unsigned(mask: Int32): (u: nat)
    ensures u < 0x1_0000_0000
    ensures mask >= 0 ==> u == mask
    ensures mask < 0 ==> u == mask + 0x1_0000_0000
  {
    if mask < 0 then mask + 0x1_0000_0000 else mask
  }

  /** Bit `v` of `u`, i.e. `((u >> v) & 1) == 1`. */
  function Bit(u: nat, v: nat): bool {
    if v == 0 then u % 2 == 1 else Bit(u / 2, v - 1)
  }

  /** Is `value` covered by `mask`? -1 matches every layer, 0 none,
      otherwise bit `value` of the mask (an arithmetic shift, then `& 1`). */
  function EnumMaskCheck(value: Layer, mask: Int32): bool {
    if mask == -1 then true
    else if mask != 0 then Bit(Unsigned(mask), value)
    else false
  }

  lemma {:induction false} BitOfZero(v: nat)
    ensures !Bit(0, v)
  {
    if v > 0 {
      BitOfZero(v - 1);
    }
  }

  lemma {:induction false} BitOfAllOnes(k: nat, v: nat)
    requires v < k
    ensures Bit(Pow2(k) - 1, v)
  {
    if v > 0 {
      assert (Pow2(k) - 1) / 2 == Pow2(k - 1) - 1;
      BitOfAllOnes(k - 1, v - 1);
    }
  }

  lemma {:induction false} BitOfPower(k: nat, v: nat)
    ensures Bit(Pow2(k), v) <==> v == k
  {
    if v == 0 {
      if k > 0 {
        assert Pow2(k) % 2 == 0;
      }
    } else if k == 0 {
      assert Pow2(0) / 2 == 0;
      BitOfZero(v - 1);
    } else {
      assert Pow2(k) / 2 == Pow2(k - 1);
      BitOfPower(k - 1, v - 1);
    }
  }

  lemma {:induction false} Pow2Add(a: nat, b: nat)
    ensures Pow2(a + b) == Pow2(a) * Pow2(b)
  {
    if a > 0 {
      Pow2Add(a - 1, b);
    }
  }

  lemma Pow2Of32()
    ensures Pow2(32) == 0x1_0000_0000
  {
    assert Pow2(4) == 16;
    Pow2Add(4, 4);
    Pow2Add(8, 8);
    Pow2Add(16, 16);
  }

  /** The two special cases of EnumMaskCheck agree with the plain bit test:
      -1 has every bit set and 0 has none, so the check is exactly
      "bit `value` of the mask's 32-bit pattern is set". */
  lemma EnumMaskCheckIsBitTest(value: Layer, mask: Int32)
    ensures EnumMaskCheck(value, mask) == Bit(Unsigned(mask), value)
  {
    if mask == -1 {
      Pow2Of32();
      BitOfAllOnes(32, value);
    } else if mask == 0 {
      BitOfZero(value);
    }
  }

  /** C#'s `1 << k` on an int: 2^k for k < 31, and int.MinValue (bit 31
      alone, the sign bit) for k = 31. */
  function LayerBit(k: Layer): (m: Int32)
    ensures Unsigned(m) == Pow2(k)
  {
    Pow2Of32();
    Pow2Add(k, 32 - k);
    if k < 31 then
      PowMonotone(k, 31);
      Pow2Add(31, 1);
      Pow2(k)
    else
      Pow2Add(31, 1);
      -0x8000_0000
  }

  /** A single-layer mask `1 << k` admits exactly layer k, also for k = 31,
      where the mask is negative. */
  lemma SingleLayerMask(value: Layer, k: Layer)
    ensures EnumMaskCheck(value, LayerBit(k)) <==> value == k
  {
    BitOfPower(k, value);
  }

  lemma {:induction false} PowMonotone(j: nat, k: nat)
    requires j < k
    ensures Pow2(j) < Pow2(k)
  {
    if j + 1 < k {
      PowMonotone(j, k - 1);
    }
  }
}
