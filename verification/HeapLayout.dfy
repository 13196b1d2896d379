/** Where things lie in the heap region: pages, slab headers, objects of each size class. */
module HeapLayout {
  import opened Division

  // Products and quotients by the page size are written with the literal 4096.
  const PAGE_SIZE: nat := 4096
  const HEADER_SIZE: nat := 40
  const CACHES: nat := 8
  const WORD: nat := 0x1_0000_0000_0000_0000

  /** The heap region: page-aligned start and number of pages. */
  datatype Geometry = Geometry(start: nat, pages: nat) {
    ghost predicate Valid() {
      start % 4096 == 0 && 2 <= pages <= 65535 && End() < WORD
    }

    function End(): nat {
      start + pages * 4096
    }

    function PageAddr(i: nat): nat {
      start + i * 4096
    }

    /** The page that holds address `a`. */
    function PageOf(a: nat): nat
      requires start <= a
    {
      (a - start) / 4096
    }

    /** Pages at the start of the heap that hold the page metadata, four bytes a page. */
    function MetaPages(): nat {
      (pages * 4 + 4095) / 4096
    }
  }

  // ---------------------------------------------------------------- size classes

  function ObjSize(c: nat): nat
    requires c < CACHES
  {
    [16, 32, 64, 128, 256, 512, 1024, 2048][c]
  }

  /** Objects that fit in the 4056 bytes of a slab page behind its header. */
  function Capacity(c: nat): nat
    requires c < CACHES
  {
    4056 / ObjSize(c)
  }

  /** The first class whose objects are at least `size` bytes. */
  function ClassOf(size: nat): (c: nat)
    requires 0 < size <= 2048
    ensures c < CACHES && size <= ObjSize(c)
    ensures forall d :: 0 <= d < c ==> ObjSize(d) < size
  {
    if size <= 16 then 0 else if size <= 32 then 1 else if size <= 64 then 2 else if size <= 128 then 3
    else if size <= 256 then 4 else if size <= 512 then 5 else if size <= 1024 then 6 else 7
  }

  function ObjOff(c: nat, k: nat): (off: nat)
    requires c < CACHES
    ensures off >= HEADER_SIZE
  {
    HEADER_SIZE + k * ObjSize(c)
  }

  function ObjAddr(g: Geometry, p: nat, c: nat, k: nat): (a: nat)
    requires c < CACHES
    ensures a > 0
  {
    g.PageAddr(p) + ObjOff(c, k)
  }

  /** The index of the object that covers offset `off` of a slab page of class `c`. */
  function IndexAt(c: nat, off: nat): nat
    requires c < CACHES && HEADER_SIZE <= off
  {
    (off - HEADER_SIZE) / ObjSize(c)
  }

  lemma ClassFacts(c: nat)
    requires c < CACHES
    ensures 16 <= ObjSize(c) <= 2048 && 1 <= Capacity(c) <= 253
    ensures Capacity(c) * ObjSize(c) <= 4056 < (Capacity(c) + 1) * ObjSize(c)
  {
  }

  /** Objects lie inside their page, and an offset inside an object decodes to its index. */
  lemma ObjectFacts(c: nat, k: nat, d: nat)
    requires c < CACHES && k < Capacity(c) && d < ObjSize(c)
    ensures HEADER_SIZE <= ObjOff(c, k) && ObjOff(c, k) + ObjSize(c) <= PAGE_SIZE
    ensures ObjOff(c, k) % 8 == 0
    ensures IndexAt(c, ObjOff(c, k) + d) == k
    ensures (ObjOff(c, k) - HEADER_SIZE) % ObjSize(c) == 0
  {
    ClassFacts(c);
    var s := ObjSize(c);
    assert (k + 1) * s <= Capacity(c) * s;
    DivUnique(k * s + d, s, k, d);
    DivUnique(k * s, s, k, 0);
    assert s % 8 == 0;
    MulMod8(k, s);
  }

  lemma MulMod8(k: nat, s: nat)
    requires s % 8 == 0
    ensures (k * s) % 8 == 0
  {
    var t := s / 8;
    assert k * s == (k * t) * 8;
  }

  /** Objects follow one another behind the 40 bytes of the header. */
  lemma ObjectPlace(g: Geometry, p: nat, c: nat, k: nat)
    requires c < CACHES
    ensures ObjAddr(g, p, c, k) == g.start + p * 4096 + 40 + k * ObjSize(c)
  {
    hide ObjSize;
  }

  /** Two objects of one slab page do not overlap. */
  lemma ObjectsApart(c: nat, k: nat, l: nat)
    requires c < CACHES && k < l
    ensures ObjOff(c, k) + ObjSize(c) <= ObjOff(c, l)
  {
    assert (k + 1) * ObjSize(c) <= l * ObjSize(c);
  }

  /** An address inside page `p` rounds down to the start of the page. */
  lemma PageBase(g: Geometry, p: nat, off: nat)
    requires g.Valid() && off < 4096
    ensures (g.PageAddr(p) + off) / 4096 * 4096 == g.PageAddr(p)
  {
    var q := g.start / 4096;
    assert g.start == q * 4096;
    DivUnique(g.PageAddr(p) + off, 4096, q + p, off);
  }
}
