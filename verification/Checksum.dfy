/** The Internet checksum of src/net.c against section 1 of RFC 1071. */
module Checksum {
  import opened Memory

  /** The 16-bit word at `i`, most significant byte first; a last odd byte is padded with zero. */
  function Word(d: seq<byte>, i: nat): (w: nat)
    requires i < |d|
    ensures w < 65536
  {
    d[i] as nat * 256 + if i + 1 < |d| then d[i + 1] as nat else 0
  }

  /** One's-complement addition: a carry out of the top comes back at the bottom. */
  function Add(a: nat, b: nat): nat {
    if a + b >= 65536 then a + b - 65535 else a + b
  }

  /** The one's-complement sum of all words, one addition at a time. */
  function OnesSum(d: seq<byte>): (s: nat)
    ensures s < 65536
    decreases |d|
  {
    if d == [] then 0 else Add(Word(d, 0), OnesSum(if |d| == 1 then [] else d[2..]))
  }

  /** The plain sum of all words. */
  function Sum(d: seq<byte>): nat
    decreases |d|
  {
    if d == [] then 0 else Word(d, 0) + Sum(if |d| == 1 then [] else d[2..])
  }

  /** Folding carries in until 16 bits are left. */
  function Fold(x: nat): nat
  {
    if x < 65536 then x else Fold(x % 65536 + x / 65536)
  }

  lemma ModShift(y: nat, k: int, x: nat)
    requires x == y + 65535 * k
    ensures x % 65535 == y % 65535
  {
  }

  /** Folding keeps the value modulo 65535, and keeps it from becoming zero. */
  lemma {:induction false} FoldIs(x: nat)
    ensures Fold(x) < 65536 && Fold(x) % 65535 == x % 65535 && (Fold(x) == 0 <==> x == 0)
  {
    if x >= 65536 {
      FoldIs(x % 65536 + x / 65536);
      assert x == (x % 65536 + x / 65536) + 65535 * (x / 65536);
      ModShift(x % 65536 + x / 65536, x / 65536, x);
    }
  }

  lemma AddAgrees(w: nat, s: nat, o: nat)
    requires w < 65536 && o < 65536 && s % 65535 == o % 65535 && (s == 0 <==> o == 0)
    ensures (w + s) % 65535 == Add(w, o) % 65535 && (w + s == 0 <==> Add(w, o) == 0)
  {
    MultipleApart(s, o);
    ModShift(w + o, (s - o) / 65535, w + s);
    if w + o >= 65536 { ModShift(w + o - 65535, 1, w + o); }
  }

  lemma {:induction false} SumsAgree(d: seq<byte>)
    ensures Sum(d) % 65535 == OnesSum(d) % 65535 && (Sum(d) == 0 <==> OnesSum(d) == 0)
    decreases |d|
  {
    if d != [] {
      var rest := if |d| == 1 then [] else d[2..];
      SumsAgree(rest);
      AddAgrees(Word(d, 0), Sum(rest), OnesSum(rest));
    }
  }

  lemma Residue(a: nat, b: nat)
    requires a < 65536 && b < 65536 && a % 65535 == b % 65535 && (a == 0 <==> b == 0)
    ensures a == b
  {
  }

  /** Adding first and folding later is one's-complement addition. */
  lemma FoldedSum(d: seq<byte>)
    ensures Fold(Sum(d)) == OnesSum(d)
  {
    FoldIs(Sum(d));
    SumsAgree(d);
    Residue(Fold(Sum(d)), OnesSum(d));
  }

  /** The checksum: the complement of the one's-complement sum. */
  function Complement(d: seq<byte>): (c: nat)
    ensures c < 65536
  {
    65535 - OnesSum(d)
  }

  // ---------------------------------------------------------------- what the sum is, in bytes

  /** Two bytes are one word, most significant byte first. */
  lemma TwoBytes(a: byte, b: byte)
    ensures OnesSum([a, b]) == 256 * a as nat + b as nat
  {
    assert OnesSum([a, b][2..]) == 0;
  }

  /** Zero padding to whole words changes nothing. */
  lemma {:induction false} Padding(d: seq<byte>)
    ensures |d| % 2 == 1 ==> OnesSum(d + [0]) == OnesSum(d) && Complement(d + [0]) == Complement(d)
    decreases |d|
  {
    if |d| % 2 == 1 {
      if |d| == 1 {
        assert OnesSum((d + [0])[2..]) == 0;
      } else {
        Padding(d[2..]);
        assert (d + [0])[2..] == d[2..] + [0];
      }
    }
  }

  /** The sums of the parts of a message add up, modulo 2^16 - 1, and only zeros add up to 0. */
  lemma PartsSum(a: seq<byte>, b: seq<byte>)
    requires |a| % 2 == 0
    ensures OnesSum(a + b) % 65535 == (OnesSum(a) + OnesSum(b)) % 65535
    ensures OnesSum(a + b) == 0 <==> OnesSum(a) == 0 && OnesSum(b) == 0
  {
    SumConcat(a, b);
    SumsAgree(a);
    SumsAgree(b);
    SumsAgree(a + b);
    ModAdd(Sum(a), Sum(b), OnesSum(a), OnesSum(b));
  }

  lemma ModAdd(x: nat, y: nat, u: nat, v: nat)
    requires x % 65535 == u % 65535 && y % 65535 == v % 65535
    ensures (x + y) % 65535 == (u + v) % 65535
  {
    MultipleApart(x, u);
    MultipleApart(y, v);
    ModShift(u + v, (x - u) / 65535 + (y - v) / 65535, x + y);
  }

  /** The words before byte `2 * i` add up to `SumUpto`. */
  ghost function SumUpto(d: seq<byte>, i: nat): nat
    requires 2 * i <= |d|
  {
    if i == 0 then 0 else SumUpto(d, i - 1) + Word(d, 2 * (i - 1))
  }

  lemma {:induction false} SumSplit(d: seq<byte>, i: nat)
    requires 2 * i <= |d|
    ensures Sum(d) == SumUpto(d, i) + Sum(d[2 * i..])
  {
    if i == 0 {
      assert d[0..] == d;
    } else {
      SumSplit(d, i - 1);
      assert d[2 * (i - 1)..][2..] == d[2 * i..];
    }
  }

  lemma {:induction false} SumUptoBound(d: seq<byte>, i: nat)
    requires 2 * i <= |d|
    ensures SumUpto(d, i) <= 65535 * i
  {
    if i > 0 { SumUptoBound(d, i - 1); }
  }

  /** `calculate_checksum`: the 32-bit accumulator never overflows, and the fold ends. */
  method CalculateChecksum(data: seq<byte>) returns (c: nat)
    requires |data| <= 65535
    ensures c == Complement(data) == 65535 - OnesSum(data) < 65536
  {
    var length := |data|;
    var acc: nat := 0;
    for i := 0 to length / 2
      invariant acc == SumUpto(data, i) <= 65535 * i
    {
      acc := acc + (data[i * 2] as nat * 256 + data[i * 2 + 1] as nat);
    }
    SumSplit(data, length / 2);
    if length % 2 != 0 {
      acc := acc + data[length - 1] as nat * 256;
    }
    assert acc == Sum(data) < 0x1_0000_0000;
    while acc / 65536 != 0
      invariant acc < 0x1_0000_0000 && Fold(acc) == Fold(Sum(data))
      decreases acc
    {
      acc := acc % 65536 + acc / 65536;
    }
    FoldedSum(data);
    c := 65535 - acc;
  }

  // ---------------------------------------------------------------- sums of parts

  lemma {:induction false} SumConcat(a: seq<byte>, b: seq<byte>)
    requires |a| % 2 == 0
    ensures Sum(a + b) == Sum(a) + Sum(b)
    decreases |a|
  {
    if a == [] {
      assert a + b == b;
    } else {
      SumConcat(a[2..], b);
      assert (a + b)[2..] == a[2..] + b;
    }
  }

  /** The sum of a message is fixed by its residue: equal plain sums give equal checksums. */
  lemma SameSum(a: seq<byte>, b: seq<byte>)
    requires Sum(a) == Sum(b)
    ensures Complement(a) == Complement(b)
  {
    FoldedSum(a);
    FoldedSum(b);
  }

  lemma MultipleApart(x: nat, f: nat)
    requires x % 65535 == f % 65535
    ensures x - f == 65535 * ((x - f) / 65535)
  {
    assert x == 65535 * (x / 65535) + x % 65535 && f == 65535 * (f / 65535) + f % 65535;
    assert x - f == 65535 * (x / 65535 - f / 65535);
  }

  /** A message whose zero checksum field gets the checksum verifies: its sum is all ones. */
  lemma Verifies(x: nat, c: nat)
    requires c == 65535 - Fold(x)
    ensures Fold(x + c) == 65535
  {
    FoldIs(x);
    FoldIs(x + c);
    var f := Fold(x);
    MultipleApart(x, f);
    ModShift(65535, (x - f) / 65535, x + c);
  }
}
