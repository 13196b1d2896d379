/** Flat byte-addressed memory with little-endian loads and stores of any width. */
module Memory {

  type byte = b: int | 0 <= b < 256

  function Pow256(w: nat): (r: nat)
    ensures r > 0
  {
    if w == 0 then 1 else 256 * Pow256(w - 1)
  }

  /** The little-endian value of the `w` bytes at `a`. */
  function Load(m: seq<byte>, a: nat, w: nat): nat
    requires a + w <= |m|
    decreases w
  {
    if w == 0 then 0 else m[a] + 256 * Load(m, a + 1, w - 1)
  }

  /** The least significant byte comes first. */
  lemma LittleEndian(m: seq<byte>, a: nat)
    requires a + 2 <= |m|
    ensures Load(m, a, 1) == m[a] && Load(m, a, 2) == m[a] as nat + 256 * m[a + 1] as nat
  {
    assert Load(m, a + 1, 1) == m[a + 1];
  }

  /** The `w` little-endian bytes of `v`; higher bytes of `v` are cut off. */
  function Bytes(v: nat, w: nat): (r: seq<byte>)
    ensures |r| == w
  {
    if w == 0 then [] else [v % 256] + Bytes(v / 256, w - 1)
  }

  /** Memory `m` after a `w`-byte store of `v` at `a`. */
  function Store(m: seq<byte>, a: nat, w: nat, v: nat): (r: seq<byte>)
    requires a + w <= |m|
    ensures |r| == |m|
    ensures forall i {:trigger r[i]} :: 0 <= i < |m| && (i < a || a + w <= i) ==> r[i] == m[i]
    ensures v < Pow256(w) ==> Load(r, a, w) == v
    ensures forall b: nat, x: nat {:trigger Load(r, b, x)} ::
              b + x <= |m| && (b + x <= a || a + w <= b) ==> Load(r, b, x) == Load(m, b, x)
  {
    var r := m[..a] + Bytes(v, w) + m[a + w..];
    assert r[a..a + w] == Bytes(v, w);
    LoadBytes(r, a, w, v);
    assert forall b: nat, x: nat {:trigger Load(r, b, x)} ::
        b + x <= |m| && (b + x <= a || a + w <= b) ==> Load(r, b, x) == Load(m, b, x) by {
      forall b: nat, x: nat | b + x <= |m| && (b + x <= a || a + w <= b)
        ensures Load(r, b, x) == Load(m, b, x)
      {
        LoadFrame(m, r, b, x);
      }
    }
    r
  }

  /** Loading back the bytes of a value that fits gives the value. */
  lemma {:induction false} LoadBytes(m: seq<byte>, a: nat, w: nat, v: nat)
    requires a + w <= |m|
    requires m[a..a + w] == Bytes(v, w)
    ensures v < Pow256(w) ==> Load(m, a, w) == v
    decreases w
  {
    if w > 0 {
      assert m[a] == m[a..a + w][0] == v % 256;
      assert m[a + 1..a + w] == m[a..a + w][1..] == Bytes(v / 256, w - 1);
      LoadBytes(m, a + 1, w - 1, v / 256);
    }
  }

  /** A load depends only on the bytes it covers. */
  lemma {:induction false} LoadFrame(m: seq<byte>, n: seq<byte>, a: nat, w: nat)
    requires a + w <= |m| == |n|
    requires forall i :: a <= i < a + w ==> m[i] == n[i]
    ensures Load(m, a, w) == Load(n, a, w)
    decreases w
  {
    if w > 0 {
      LoadFrame(m, n, a + 1, w - 1);
    }
  }
}
