/** Bit-level updates the register files share. Masks and disjoint ors on machine words are
    written as the division and remainder they are. */
module Registers {
  import opened Bytes

  function Low(v: u64): u32 {
    v % 0x1_0000_0000
  }

  function High(v: u64): u32 {
    v / 0x1_0000_0000
  }

  function WithLow(v: u64, half: u32): (r: u64)
    ensures Low(r) == half && High(r) == High(v)
  {
    High(v) * 0x1_0000_0000 + half
  }

  function WithHigh(v: u64, half: u32): (r: u64)
    ensures High(r) == half && Low(r) == Low(v)
  {
    half * 0x1_0000_0000 + Low(v)
  }

  /** The 64-bit register of two halves. */
  function Combine(low: u32, high: u32): u64 {
    low + 0x1_0000_0000 * high
  }

  lemma CombineHalves(low: u32, high: u32, v: u32)
    ensures WithLow(Combine(low, high), v) == Combine(v, high)
    ensures WithHigh(Combine(low, high), v) == Combine(low, v)
  {
  }

  /** `v | 1` */
  function SetBit0(v: u32): (r: u32)
    ensures r % 2 == 1 && r / 2 == v / 2
  {
    if v % 2 == 1 then v else v + 1
  }

  /** Bit `k` of a word. */
  predicate Bit(v: nat, k: nat) {
    if k == 0 then v % 2 == 1 else Bit(v / 2, k - 1)
  }

  lemma {:induction false} AndNotBits(v: u32, mask: u32, k: nat)
    ensures Bit(AndNot(v, mask), k) <==> Bit(v, k) && !Bit(mask, k)
    decreases k
  {
    if v == 0 {
      ZeroBits(k);
    } else if k > 0 {
      AndNotBits(v / 2, mask / 2, k - 1);
    }
  }

  lemma {:induction false} ZeroBits(k: nat)
    ensures !Bit(0, k)
  {
    if k > 0 {
      ZeroBits(k - 1);
    }
  }

  /** `v & !mask`, bit by bit. */
  function AndNot(v: u32, mask: u32): (r: u32)
    ensures r % 2 == 1 <==> v % 2 == 1 && mask % 2 == 0
    ensures r <= v
  {
    if v == 0 then 0
    else (if v % 2 == 1 && mask % 2 == 0 then 1 else 0) + 2 * AndNot(v / 2, mask / 2)
  }
}
