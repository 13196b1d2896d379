/** How raw memory and the cache heads represent a heap value, and which writes leave that alone. */
module HeapRep {
  import opened Sequences
  import opened Memory
  import opened HeapLayout
  import opened HeapSpec

  const SLAB_MAGIC: nat := 0x51AB51AB
  const OFF_NEXT: nat := 0
  const OFF_PREV: nat := 8
  const OFF_CACHE: nat := 16
  const OFF_FREE: nat := 24
  const OFF_IN_USE: nat := 32
  const OFF_MAGIC: nat := 36

  /** A cache as the allocator keeps it: list heads (0 is NULL) and object size. */
  datatype KmemCache = KmemCache(slabsPartial: nat, slabsFull: nat, slabsFree: nat, objSize: nat)


  function TypeCode(p: Page): nat {
    match p
    case FreePage => 0
    case Run(SlabKind, _, _) => 1
    case Run(LargeKind, _, _) => 2
  }

  /** Only the first page of a run carries its length. */
  function CountOf(p: Page, i: nat): nat {
    if p.Run? && p.head == i then p.len else 0
  }

  function MetaAddr(g: Geometry, i: nat): nat {
    g.start + 4 * i
  }

  /** The address of node `j` of a list of pages, or NULL outside it. */
  function NodeAddr(g: Geometry, l: seq<nat>, j: int): nat {
    if 0 <= j < |l| then g.PageAddr(l[j]) else 0
  }

  /** The address of entry `j` of a free list, or NULL behind its end. */
  function LinkAddr(g: Geometry, p: nat, s: Slab, j: nat): nat
    requires s.cls < CACHES
  {
    if j < |s.free| then ObjAddr(g, p, s.cls, s.free[j]) else 0
  }

  ghost predicate MetaAt(g: Geometry, m: seq<byte>, p: Page, i: nat)
    requires i < g.pages && g.End() <= |m|
  {
    Load(m, MetaAddr(g, i), 1) == TypeCode(p) && Load(m, MetaAddr(g, i) + 2, 2) == CountOf(p, i)
  }

  ghost predicate MetaRep(g: Geometry, m: seq<byte>, pages: seq<Page>) {
    g.End() <= |m| && |pages| == g.pages && forall i: nat {:trigger pages[i]} {:trigger MetaAddr(g, i)} :: i < |pages| ==> MetaAt(g, m, pages[i], i)
  }

  ghost predicate CoreRep(g: Geometry, m: seq<byte>, ca: nat, p: nat, s: Slab)
    requires p < g.pages && g.End() <= |m|
  {
    && SlabOk(s)
    && Load(m, g.PageAddr(p) + OFF_CACHE, 8) == ca + 32 * s.cls
    && Load(m, g.PageAddr(p) + OFF_FREE, 8) == LinkAddr(g, p, s, 0)
    && Load(m, g.PageAddr(p) + OFF_IN_USE, 4) == Capacity(s.cls) - |s.free|
    && Load(m, g.PageAddr(p) + OFF_MAGIC, 4) == SLAB_MAGIC
  }

  /** Object `k` of slab `p` of class `c` fits its page. */
  lemma CellBounds(g: Geometry, p: nat, c: nat, k: nat)
    requires c < CACHES && k < Capacity(c)
    ensures g.PageAddr(p) + HEADER_SIZE <= ObjAddr(g, p, c, k) && ObjAddr(g, p, c, k) + 16 <= g.PageAddr(p + 1)
  {
    ObjectFacts(c, k, 0);
    ClassFacts(c);
  }

  ghost predicate CellAt(g: Geometry, m: seq<byte>, p: nat, s: Slab, j: nat)
    requires p < g.pages && g.End() <= |m| && SlabOk(s) && j < |s.free|
  {
    assert s.free[j] in s.free;
    CellBounds(g, p, s.cls, s.free[j]);
    Load(m, ObjAddr(g, p, s.cls, s.free[j]), 8) == LinkAddr(g, p, s, j + 1)
  }

  /** Each free object holds the address of the next one. */
  ghost predicate ChainRep(g: Geometry, m: seq<byte>, p: nat, s: Slab)
    requires p < g.pages && g.End() <= |m| && SlabOk(s)
  {
    forall j: nat {:trigger CellAt(g, m, p, s, j)} :: j < |s.free| ==> CellAt(g, m, p, s, j)
  }

  ghost predicate SlabRep(g: Geometry, m: seq<byte>, ca: nat, p: nat, s: Slab)
    requires p < g.pages && g.End() <= |m|
  {
    CoreRep(g, m, ca, p, s) && ChainRep(g, m, p, s)
  }

  ghost predicate SlabsRep(g: Geometry, m: seq<byte>, ca: nat, slabs: map<nat, Slab>) {
    g.End() <= |m| && forall p: nat {:trigger slabs[p]} :: p in slabs ==> g.MetaPages() <= p < g.pages && SlabRep(g, m, ca, p, slabs[p])
  }

  /** Node `j` of `l` points at its neighbours. */
  ghost predicate NodeAt(g: Geometry, m: seq<byte>, l: seq<nat>, j: nat)
    requires g.End() <= |m| && j < |l|
  {
    && g.MetaPages() <= l[j] < g.pages
    && Load(m, g.PageAddr(l[j]) + OFF_NEXT, 8) == NodeAddr(g, l, j + 1)
    && Load(m, g.PageAddr(l[j]) + OFF_PREV, 8) == NodeAddr(g, l, j - 1)
  }

  /** The slabs of `l` are linked to each other in this order, both ways. */
  ghost predicate ListRep(g: Geometry, m: seq<byte>, l: seq<nat>) {
    g.End() <= |m| && Distinct(l) && forall j: nat {:trigger NodeAt(g, m, l, j)} :: j < |l| ==> NodeAt(g, m, l, j)
  }

  // ---------------------------------------------------------------- byte by byte

  /** The two fields of a page's metadata: type, and behind a gap of one byte the length of a run that starts here. */
  lemma PageBytes(g: Geometry, m: seq<byte>, pages: seq<Page>, i: nat)
    requires MetaRep(g, m, pages) && i < |pages| && g.start + 4 * i + 4 <= |m|
    ensures Load(m, g.start + 4 * i, 1) == (if pages[i].FreePage? then 0 else if pages[i].kind == SlabKind then 1 else 2)
    ensures Load(m, g.start + 4 * i + 2, 2) == (if pages[i].Run? && pages[i].head == i then pages[i].len else 0)
  {
    hide Load;
    assert MetaAt(g, m, pages[i], i);
  }

  /** The six fields of a slab header, of 8, 8, 8, 8, 4 and 4 bytes, end where the first object begins. */
  lemma SlabBytes(g: Geometry, m: seq<byte>, ca: nat, p: nat, s: Slab)
    requires p < g.pages && g.End() <= |m| && SlabRep(g, m, ca, p, s) && g.start + p * 4096 + 4096 <= |m|
    ensures var a := g.start + p * 4096;
            && s.cls < CACHES && ObjAddr(g, p, s.cls, 0) == a + 40
            && Load(m, a + 16, 8) == ca + 32 * s.cls
            && Load(m, a + 24, 8) == (if s.free == [] then 0 else ObjAddr(g, p, s.cls, s.free[0]))
            && Load(m, a + 32, 4) == Capacity(s.cls) - |s.free|
            && Load(m, a + 36, 4) == 0x51AB51AB
  {
    hide Load, Capacity, ObjSize;
  }

  lemma NodeBytes(g: Geometry, m: seq<byte>, l: seq<nat>, j: nat)
    requires ListRep(g, m, l) && j < |l| && g.start + l[j] * 4096 + 16 <= |m|
    ensures Load(m, g.start + l[j] * 4096, 8) == (if j + 1 < |l| then g.start + l[j + 1] * 4096 else 0)
    ensures Load(m, g.start + l[j] * 4096 + 8, 8) == (if j > 0 then g.start + l[j - 1] * 4096 else 0)
  {
    hide Load;
    assert NodeAt(g, m, l, j);
  }

  ghost predicate ListsRep(g: Geometry, m: seq<byte>, lists: seq<seq<nat>>) {
    |lists| == CACHES && forall c: nat {:trigger lists[c]} :: c < CACHES ==> ListRep(g, m, lists[c])
  }

  ghost predicate HeadsRep(g: Geometry, caches: seq<KmemCache>, st: State) {
    && |caches| == |st.partial| == |st.full| == CACHES
    && forall c: nat {:trigger caches[c]} :: c < CACHES ==>
         caches[c] == KmemCache(NodeAddr(g, st.partial[c], 0), NodeAddr(g, st.full[c], 0), 0, ObjSize(c))
  }

  ghost predicate Rep(g: Geometry, m: seq<byte>, ca: nat, caches: seq<KmemCache>, st: State) {
    && g.Valid() && ca + 256 < WORD
    && MetaRep(g, m, st.pages) && SlabsRep(g, m, ca, st.slabs)
    && ListsRep(g, m, st.partial) && ListsRep(g, m, st.full) && HeadsRep(g, caches, st)
    && ListsApart(st.partial, st.full)
  }

  /** No slab is on two lists. */
  ghost predicate ListsApart(partial: seq<seq<nat>>, full: seq<seq<nat>>) {
    && (forall c: nat, d: nat, p: nat {:trigger p in partial[c], p in partial[d]} ::
          c < |partial| && d < |partial| && p in partial[c] && p in partial[d] ==> c == d)
    && (forall c: nat, d: nat, p: nat {:trigger p in full[c], p in full[d]} ::
          c < |full| && d < |full| && p in full[c] && p in full[d] ==> c == d)
    && (forall c: nat, d: nat, p: nat {:trigger p in partial[c], p in full[d]} ::
          c < |partial| && d < |full| && p in partial[c] ==> p !in full[d])
  }

  // ---------------------------------------------------------------- writes

  /** `m` and `n` differ only in [lo, hi). */
  ghost predicate Only(m: seq<byte>, n: seq<byte>, lo: nat, hi: nat) {
    |m| == |n| && forall x {:trigger n[x]} :: 0 <= x < |m| && (x < lo || hi <= x) ==> n[x] == m[x]
  }

  lemma OnlyTrans(k: seq<byte>, m: seq<byte>, n: seq<byte>, lo: nat, hi: nat)
    requires Only(k, m, lo, hi) && Only(m, n, lo, hi)
    ensures Only(k, n, lo, hi)
  {
  }

  lemma OnlyLoad(m: seq<byte>, n: seq<byte>, lo: nat, hi: nat, a: nat, w: nat)
    requires Only(m, n, lo, hi) && a + w <= |m| && (a + w <= lo || hi <= a)
    ensures Load(n, a, w) == Load(m, a, w)
  {
    LoadFrame(m, n, a, w);
  }

  /** A write behind the metadata leaves the metadata alone. */
  lemma MetaKept(g: Geometry, m: seq<byte>, n: seq<byte>, pages: seq<Page>, lo: nat, hi: nat)
    requires MetaRep(g, m, pages) && Only(m, n, lo, hi) && g.PageAddr(g.MetaPages()) <= lo
    ensures MetaRep(g, n, pages)
  {
    forall i: nat | i < |pages|
      ensures MetaAt(g, n, pages[i], i)
    {
      assert MetaAt(g, m, pages[i], i);
      OnlyLoad(m, n, lo, hi, MetaAddr(g, i), 1);
      OnlyLoad(m, n, lo, hi, MetaAddr(g, i) + 2, 2);
    }
  }

  lemma CoreKept(g: Geometry, m: seq<byte>, n: seq<byte>, ca: nat, p: nat, s: Slab, lo: nat, hi: nat)
    requires p < g.pages && g.End() <= |m| && CoreRep(g, m, ca, p, s) && Only(m, n, lo, hi)
    requires hi <= g.PageAddr(p) + OFF_CACHE || g.PageAddr(p) + HEADER_SIZE <= lo
    ensures CoreRep(g, n, ca, p, s)
  {
    hide Load, Only, SlabOk, LinkAddr, Capacity;
    OnlyLoad(m, n, lo, hi, g.PageAddr(p) + OFF_CACHE, 8);
    OnlyLoad(m, n, lo, hi, g.PageAddr(p) + OFF_FREE, 8);
    OnlyLoad(m, n, lo, hi, g.PageAddr(p) + OFF_IN_USE, 4);
    OnlyLoad(m, n, lo, hi, g.PageAddr(p) + OFF_MAGIC, 4);
  }

  lemma ChainKept(g: Geometry, m: seq<byte>, n: seq<byte>, p: nat, s: Slab, lo: nat, hi: nat)
    requires p < g.pages && g.End() <= |m| && SlabOk(s) && ChainRep(g, m, p, s) && Only(m, n, lo, hi)
    requires forall j: nat {:trigger s.free[j]} :: j < |s.free| ==>
               hi <= ObjAddr(g, p, s.cls, s.free[j]) || ObjAddr(g, p, s.cls, s.free[j]) + 8 <= lo
    ensures ChainRep(g, n, p, s)
  {
    forall j: nat | j < |s.free|
      ensures CellAt(g, n, p, s, j)
    {
      assert CellAt(g, m, p, s, j);
      assert s.free[j] in s.free;
      CellBounds(g, p, s.cls, s.free[j]);
      hide ObjAddr, SlabOk;
      OnlyLoad(m, n, lo, hi, ObjAddr(g, p, s.cls, s.free[j]), 8);
    }
  }

  /** A write outside page `p` or into its link fields leaves slab `p` alone. */
  lemma SlabKeptFar(g: Geometry, m: seq<byte>, n: seq<byte>, ca: nat, p: nat, s: Slab, lo: nat, hi: nat)
    requires p < g.pages && g.End() <= |m| && SlabRep(g, m, ca, p, s) && Only(m, n, lo, hi)
    requires hi <= g.PageAddr(p) + OFF_CACHE || g.PageAddr(p + 1) <= lo
    ensures SlabRep(g, n, ca, p, s)
  {
    forall j: nat | j < |s.free|
      ensures hi <= ObjAddr(g, p, s.cls, s.free[j]) || ObjAddr(g, p, s.cls, s.free[j]) + 8 <= lo
    {
      assert s.free[j] in s.free;
      CellBounds(g, p, s.cls, s.free[j]);
    }
    CoreKept(g, m, n, ca, p, s, lo, hi);
    ChainKept(g, m, n, p, s, lo, hi);
  }

  /** A write outside the link fields of a list's slabs leaves the list alone. */
  lemma ListKept(g: Geometry, m: seq<byte>, n: seq<byte>, l: seq<nat>, lo: nat, hi: nat)
    requires ListRep(g, m, l) && Only(m, n, lo, hi)
    requires forall p: nat :: p in l ==> hi <= g.PageAddr(p) || g.PageAddr(p) + OFF_CACHE <= lo
    ensures ListRep(g, n, l)
  {
    forall j: nat | j < |l|
      ensures NodeAt(g, n, l, j)
    {
      assert NodeAt(g, m, l, j) && l[j] in l;
      OnlyLoad(m, n, lo, hi, g.PageAddr(l[j]) + OFF_NEXT, 8);
      OnlyLoad(m, n, lo, hi, g.PageAddr(l[j]) + OFF_PREV, 8);
    }
  }
}
