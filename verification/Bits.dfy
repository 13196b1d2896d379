/** Bits of unsigned words, counted from the least significant one. */
module Bits {

  predicate HasBit(x: nat, p: nat) {
    if p == 0 then x % 2 == 1 else HasBit(x / 2, p - 1)
  }

  /** `x | (1 << p)` */
  function SetBit(x: nat, p: nat): nat {
    if p == 0 then x / 2 * 2 + 1 else 2 * SetBit(x / 2, p - 1) + x % 2
  }

  /** `x & ~(1 << p)` */
  function ClearBit(x: nat, p: nat): nat {
    if p == 0 then x / 2 * 2 else 2 * ClearBit(x / 2, p - 1) + x % 2
  }

  /** The highest bit of a word that is not zero, `31 - __builtin_clz(x)` for 32 bits. */
  function TopBit(x: nat): (r: nat)
    requires x != 0
    ensures HasBit(x, r) && forall q :: q > r ==> !HasBit(x, q)
  {
    assert forall q: nat :: q > 0 ==> HasBit(x, q) == HasBit(x / 2, q - 1);
    if x == 1 then
      NoBits(x / 2);
      0
    else
      TopBit(x / 2) + 1
  }

  lemma {:induction false} NoBit(x: nat, p: nat)
    requires x == 0
    ensures !HasBit(x, p)
  {
    if p > 0 { NoBit(x / 2, p - 1); }
  }

  lemma NoBits(x: nat)
    requires x == 0
    ensures forall q: nat :: !HasBit(x, q)
  {
    forall q: nat
      ensures !HasBit(x, q)
    {
      NoBit(x, q);
    }
  }

  /** Setting and clearing bit `p` leave every other bit alone. */
  lemma {:induction false} BitFacts(x: nat, p: nat, q: nat)
    ensures HasBit(SetBit(x, p), q) <==> p == q || HasBit(x, q)
    ensures HasBit(ClearBit(x, p), q) <==> p != q && HasBit(x, q)
  {
    if p > 0 && q > 0 { BitFacts(x / 2, p - 1, q - 1); }
  }
}
