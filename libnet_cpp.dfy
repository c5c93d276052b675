// The compile-time power helper and the slot count derived from the width of a slot index.

module LibNetUtils {
  import opened LibNet

  const U32Modulus := 0x1_0000_0000

  /** `uint32_t`: arithmetic on it wraps modulo 2^32. */
  type U32 = x: int | 0 <= x < 0x1_0000_0000

  /** The mathematical power, without wrap-around. */
  function Pow(base: nat, exp: nat): (p: nat)
  {
    if exp == 0 then 1 else base * Pow(base, exp - 1)
  }

  /** `pow_ct<uint32_t>`: one multiplication per unit of the exponent, each wrapping,
      so the result is the power modulo 2^32. */
  function PowCt(base: U32, exp: U32): (p: U32)
    decreases exp
    ensures p == Pow(base, exp) % U32Modulus
  {
    if exp == 0 then 1
    else
      MulMod(base, Pow(base, exp - 1), U32Modulus);
      (base * PowCt(base, exp - 1)) % U32Modulus
  }

  /** Adding exponents multiplies powers. */
  lemma {:induction false} PowAdd(base: nat, e1: nat, e2: nat)
    ensures Pow(base, e1 + e2) == Pow(base, e1) * Pow(base, e2)
  {
    if e2 > 0 {
      PowAdd(base, e1, e2 - 1);
      assert Pow(base, e1 + e2) == base * Pow(base, e1 + e2 - 1);
    }
  }

  /** `max_network_slots`: two to the number of bits in a slot index. */
  const MaxNetworkSlots: U32 := PowCt(2, NetSlotBits)

  /** Reducing a factor modulo `m` before multiplying does not change the product modulo `m`. */
  lemma MulMod(a: nat, b: nat, m: nat)
    requires m > 0
    ensures (a * (b % m)) % m == (a * b) % m
  {
    var q, s := b / m, b % m;
    assert b == q * m + s;
    assert a * b == (a * q) * m + a * s;
    AddMultiple(a * s, a * q, m);
  }

  lemma AddMultiple(x: nat, k: nat, m: nat)
    requires m > 0
    ensures (x + k * m) % m == x % m
  {
    var q, s := x / m, x % m;
    assert x + k * m == (q + k) * m + s;
    ModOfDecomposition(x + k * m, q + k, s, m);
  }

  /** The remainder is the `s` of any decomposition `y == d * m + s` with `0 <= s < m`. */
  lemma ModOfDecomposition(y: int, d: int, s: int, m: int)
    requires m > 0 && 0 <= s < m && y == d * m + s
    ensures y % m == s
  {
    var q, r := y / m, y % m;
    assert q * m + r == d * m + s;
    assert (d - q) * m == d * m - q * m;
    assert (d - q) * m == r - s;
    SmallMultipleIsZero(d - q, m);
  }

  /** The only multiple of `m` strictly between `-m` and `m` is zero. */
  lemma SmallMultipleIsZero(e: int, m: int)
    requires m > 0 && -m < e * m < m
    ensures e == 0
  {
  }

  /** There are 65536 network slots: 2 to the 16. */
  lemma MaxNetworkSlotsValue()
    ensures MaxNetworkSlots == 0x1_0000
  {
    assert Pow(2, 2) == 4;
    PowAdd(2, 2, 2);
    PowAdd(2, 4, 4);
    PowAdd(2, 8, 8);
  }

  /** Every slot index lies below the slot count. */
  lemma SlotBelowMax(s: NetSlot)
    ensures s < MaxNetworkSlots
  {
    MaxNetworkSlotsValue();
  }
}
