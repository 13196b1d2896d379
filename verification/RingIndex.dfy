/** Ring slots and 16-bit ring indices (section 2.6 of VirtIO 1.1). */
module RingIndex {
  import opened Division

  /** 2^16: where the ring indices wrap. */
  const WRAP: nat := 0x1_0000

  /** A queue size the split ring allows: a power of two, so that it divides 2^16; at most 2^15. */
  ghost predicate SizeOk(q: nat) {
    0 < q <= 0x8000 && WRAP % q == 0
  }

  /** A 16-bit index. */
  function Wrap(a: nat): (i: nat)
    ensures i < 0x1_0000
  {
    a % 0x1_0000
  }

  /** The ring slot of position `a`. */
  function Slot(a: nat, q: nat): (s: nat)
    requires q > 0
    ensures s < q
  {
    a % q
  }

  /** An index is the position modulo 2^16, and counts on from 65535 to 0. */
  lemma WrapIs(a: nat)
    ensures a < 65536 ==> Wrap(a) == a
    ensures Wrap(a + 65536) == Wrap(a)
    ensures Wrap(a + 1) == if Wrap(a) == 65535 then 0 else Wrap(a) + 1
  {
    DivUnique(a + 65536, 65536, a / 65536 + 1, a % 65536);
    if a % 65536 == 65535 {
      DivUnique(a + 1, 65536, a / 65536 + 1, 0);
    } else {
      DivUnique(a + 1, 65536, a / 65536, a % 65536 + 1);
    }
  }

  lemma Literally(a: nat, q: nat)
    requires q > 0
    ensures Slot(a, q) == a % q && Wrap(a) == a % 0x1_0000
  {
  }

  lemma MulAtLeast(q: nat, d: int)
    requires d >= 1
    ensures q * d >= q
  {
  }

  /** Two positions less than a ring apart are in different slots. */
  lemma SlotsApart(a: nat, b: nat, q: nat)
    requires q > 0 && a < b < a + q
    ensures Slot(a, q) != Slot(b, q)
  {
    if a % q == b % q {
      assert b - a == q * (b / q - a / q);
      if b / q - a / q >= 1 {
        MulAtLeast(q, b / q - a / q);
      } else if b / q - a / q <= -1 {
        MulAtLeast(q, a / q - b / q);
      }
    }
  }

  /** A 16-bit index finds the slot of the unbounded position. */
  lemma SlotOfIndex(a: nat, q: nat)
    requires q > 0 && WRAP % q == 0
    ensures Slot(Wrap(a), q) == Slot(a, q)
  {
    var d := WRAP / q;
    assert WRAP == q * d;
    var r := Wrap(a);
    assert a == 0x1_0000 * (a / 0x1_0000) + r;
    assert a == q * (d * (a / 0x1_0000)) + r by { assert q * (d * (a / 0x1_0000)) == q * d * (a / 0x1_0000); }
    assert r == q * (r / q) + r % q;
    var k := d * (a / 0x1_0000) + r / q;
    assert q * k == q * (d * (a / 0x1_0000)) + q * (r / q);
    DivUnique(a, q, k, r % q);
  }

  /** 16-bit slots are right at every position exactly if the queue size divides 2^16. */
  lemma SlotOfIndexIff(q: nat)
    requires q > 0
    ensures (forall a: nat :: Slot(Wrap(a), q) == Slot(a, q)) <==> 65536 % q == 0
  {
    if WRAP % q == 0 {
      forall a: nat
        ensures Slot(Wrap(a), q) == Slot(a, q)
      {
        SlotOfIndex(a, q);
      }
    } else {
      assert Slot(Wrap(WRAP), q) == 0 && Slot(WRAP, q) != 0;
    }
  }

  /** The next index, and whether two indices less than 2^16 apart agree. */
  lemma NextIndex(a: nat)
    ensures Wrap(Wrap(a) + 1) == Wrap(a + 1)
  {
  }

  lemma WrapAdd(a: nat, q: nat)
    ensures Wrap(Wrap(a) + q) == Wrap(a + q)
  {
  }

  lemma SameIndex(a: nat, b: nat)
    requires a <= b < a + 0x1_0000
    ensures Wrap(a) == Wrap(b) <==> a == b
  {
  }

  /** The entries at positions `lo` up to `hi`. */
  ghost function Window<T>(ring: seq<T>, lo: nat, hi: nat): (w: seq<T>)
    requires |ring| > 0 && lo <= hi
    ensures |w| == hi - lo
    ensures forall i :: 0 <= i < hi - lo ==> w[i] == ring[Slot(lo + i, |ring|)]
  {
    seq(hi - lo, i requires 0 <= i < hi - lo => ring[Slot(lo + i, |ring|)])
  }

  /** Writing the slot of position `hi` while fewer than a ring's entries are pending touches none of them. */
  lemma WindowPush<T>(ring: seq<T>, lo: nat, hi: nat, x: T)
    requires |ring| > 0 && lo <= hi < lo + |ring|
    ensures var r := ring[Slot(hi, |ring|) := x];
            Window(r, lo, hi) == Window(ring, lo, hi) && Window(r, lo, hi + 1) == Window(ring, lo, hi) + [x]
  {
    hide Slot, Window;
    var q := |ring|;
    var r := ring[Slot(hi, q) := x];
    forall i: nat | i < hi - lo
      ensures Window(r, lo, hi)[i] == Window(ring, lo, hi)[i]
    {
      SlotsApart(lo + i, hi, q);
    }
    var w := Window(r, lo, hi + 1);
    assert w[hi - lo] == r[Slot(lo + (hi - lo), q)] == x;
    forall i: nat | i < hi - lo
      ensures w[i] == Window(r, lo, hi)[i]
    {
    }
  }

  /** ... and with a full ring it overwrites the oldest. */
  lemma WindowOverwrite<T>(ring: seq<T>, lo: nat, x: T)
    requires |ring| > 0 && x != ring[Slot(lo, |ring|)]
    ensures var hi := lo + |ring|;
            Window(ring[Slot(hi, |ring|) := x], lo, hi) != Window(ring, lo, hi)
  {
    var q := |ring|;
    DivUnique(lo + q, q, lo / q + 1, lo % q) by {
      assert lo == q * (lo / q) + lo % q;
      assert (lo / q + 1) * q == q * (lo / q) + q;
    }
    hide Window;
    assert Slot(lo + q, q) == Slot(lo, q);
    assert Window(ring[Slot(lo + q, q) := x], lo, lo + q)[0] == x;
    assert Window(ring, lo, lo + q)[0] == ring[Slot(lo, q)];
  }

  lemma WindowPop<T>(ring: seq<T>, lo: nat, hi: nat)
    requires |ring| > 0 && lo < hi
    ensures Window(ring, lo, hi) == [ring[Slot(lo, |ring|)]] + Window(ring, lo + 1, hi)
  {
    hide Slot;
    var a, b := Window(ring, lo, hi), Window(ring, lo + 1, hi);
    assert a[0] == ring[Slot(lo + 0, |ring|)];
    forall i: nat | 0 < i < hi - lo
      ensures a[i] == b[i - 1]
    {
      assert lo + 1 + (i - 1) == lo + i;
    }
  }
}
