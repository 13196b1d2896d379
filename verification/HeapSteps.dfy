/** Each group of writes in the allocator, and the heap value that memory represents after it. */
module HeapSteps {
  import opened Sequences
  import opened Memory
  import opened HeapLayout
  import opened HeapSpec
  import opened HeapRep
  import opened HeapLists

  // ---------------------------------------------------------------- lists

  ghost function ListOf(st: State, full: bool, c: nat): seq<nat>
    requires |st.partial| == |st.full| == CACHES && c < CACHES
  {
    if full then st.full[c] else st.partial[c]
  }

  ghost function WithList(st: State, full: bool, c: nat, l: seq<nat>): State
    requires |st.partial| == |st.full| == CACHES && c < CACHES
  {
    if full then st.(full := st.full[c := l]) else st.(partial := st.partial[c := l])
  }

  function WithHead(caches: seq<KmemCache>, full: bool, c: nat, a: nat): seq<KmemCache>
    requires c < |caches|
  {
    caches[c := if full then caches[c].(slabsFull := a) else caches[c].(slabsPartial := a)]
  }

  /** Every list but `ListOf(st, full, c)` is represented in `n`. */
  ghost predicate OthersRep(g: Geometry, n: seq<byte>, st: State, full: bool, c: nat)
    requires |st.partial| == |st.full| == CACHES
  {
    && (forall d: nat {:trigger st.partial[d]} :: d < CACHES && (full || d != c) ==> ListRep(g, n, st.partial[d]))
    && (forall d: nat {:trigger st.full[d]} :: d < CACHES && (!full || d != c) ==> ListRep(g, n, st.full[d]))
  }

  lemma UnlinkOthers(g: Geometry, m: seq<byte>, ca: nat, caches: seq<KmemCache>, st: State, full: bool, c: nat, i: nat)
    requires Rep(g, m, ca, caches, st) && c < CACHES && i < |ListOf(st, full, c)| && ListRep(g, m, ListOf(st, full, c))
    ensures OthersRep(g, UnlinkMem(g, m, ListOf(st, full, c), i), st, full, c)
  {
    var l := ListOf(st, full, c);
    hide Load, UnlinkMem, MetaRep, SlabsRep, ListRep;
    forall d: nat | d < CACHES && (full || d != c)
      ensures ListRep(g, UnlinkMem(g, m, l, i), st.partial[d])
    {
      UnlinkOther(g, m, l, i, st.partial[d]);
    }
    forall d: nat | d < CACHES && (!full || d != c)
      ensures ListRep(g, UnlinkMem(g, m, l, i), st.full[d])
    {
      UnlinkOther(g, m, l, i, st.full[d]);
    }
  }

  lemma PushOthers(g: Geometry, m: seq<byte>, ca: nat, caches: seq<KmemCache>, st: State, full: bool, c: nat, p: nat)
    requires Rep(g, m, ca, caches, st) && c < CACHES && ListRep(g, m, ListOf(st, full, c)) && OnNoList(st, p)
    requires g.MetaPages() <= p < g.pages
    ensures OthersRep(g, PushMem(g, m, ListOf(st, full, c), p), st, full, c)
  {
    var l := ListOf(st, full, c);
    hide Load, PushMem, MetaRep, SlabsRep, ListRep;
    forall d: nat | d < CACHES && (full || d != c)
      ensures ListRep(g, PushMem(g, m, l, p), st.partial[d])
    {
      PushOther(g, m, l, p, st.partial[d]);
    }
    forall d: nat | d < CACHES && (!full || d != c)
      ensures ListRep(g, PushMem(g, m, l, p), st.full[d])
    {
      PushOther(g, m, l, p, st.full[d]);
    }
  }

  ghost predicate OnNoList(st: State, p: nat) {
    && (forall c: nat {:trigger st.partial[c]} :: c < |st.partial| ==> p !in st.partial[c])
    && (forall c: nat {:trigger st.full[c]} :: c < |st.full| ==> p !in st.full[c])
  }

  /** Representation from its parts, when one list has changed. */
  lemma RepWithList(g: Geometry, n: seq<byte>, ca: nat, caches: seq<KmemCache>, st: State, full: bool, c: nat, l: seq<nat>)
    requires |st.partial| == |st.full| == CACHES && c < CACHES && g.Valid() && ca + 256 < WORD
    requires MetaRep(g, n, st.pages) && SlabsRep(g, n, ca, st.slabs) && HeadsRep(g, caches, st)
    requires OthersRep(g, n, st, full, c) && ListRep(g, n, l)
    requires ListsApart(WithList(st, full, c, l).partial, WithList(st, full, c, l).full)
    ensures Rep(g, n, ca, WithHead(caches, full, c, NodeAddr(g, l, 0)), WithList(st, full, c, l))
  {
    hide Load, MetaRep, SlabsRep, ListRep, ListsApart;
  }

  lemma UnlinkRep(g: Geometry, m: seq<byte>, ca: nat, caches: seq<KmemCache>, st: State, full: bool, c: nat, i: nat)
    requires Rep(g, m, ca, caches, st) && c < CACHES && i < |ListOf(st, full, c)| && ListRep(g, m, ListOf(st, full, c))
    ensures var l := ListOf(st, full, c);
            var r := Without(l, l[i]);
            r == l[..i] + l[i + 1..] && Rep(g, UnlinkMem(g, m, l, i), ca, WithHead(caches, full, c, NodeAddr(g, r, 0)), WithList(st, full, c, r))
  {
    var l := ListOf(st, full, c);
    var r := Without(l, l[i]);
    WithoutAt(l, i);
    UnlinkList(g, m, l, i);
    UnlinkRest(g, m, ca, st, l, i);
    UnlinkOthers(g, m, ca, caches, st, full, c, i);
    ApartShrinks(st.partial, st.full, WithList(st, full, c, r).partial, WithList(st, full, c, r).full) by {
      WithoutFacts(l, l[i]);
    }
    hide Load, UnlinkMem, MetaRep, SlabsRep, ListRep, ListsApart, OthersRep, Without, WithList, WithHead;
    RepWithList(g, UnlinkMem(g, m, l, i), ca, caches, st, full, c, r);
  }

  lemma ApartShrinks(partial: seq<seq<nat>>, full: seq<seq<nat>>, partial2: seq<seq<nat>>, full2: seq<seq<nat>>)
    requires ListsApart(partial, full) && |partial2| == |partial| && |full2| == |full|
    requires forall c: nat, p: nat {:trigger p in partial2[c]} :: c < |partial2| && p in partial2[c] ==> p in partial[c]
    requires forall c: nat, p: nat {:trigger p in full2[c]} :: c < |full2| && p in full2[c] ==> p in full[c]
    ensures ListsApart(partial2, full2)
  {
  }

  lemma ApartGrows(st: State, full: bool, c: nat, p: nat)
    requires |st.partial| == |st.full| == CACHES && c < CACHES && ListsApart(st.partial, st.full) && OnNoList(st, p)
    ensures var t := WithList(st, full, c, [p] + ListOf(st, full, c)); ListsApart(t.partial, t.full)
  {
  }

  lemma PushRep(g: Geometry, m: seq<byte>, ca: nat, caches: seq<KmemCache>, st: State, full: bool, c: nat, p: nat)
    requires Rep(g, m, ca, caches, st) && c < CACHES && ListRep(g, m, ListOf(st, full, c)) && OnNoList(st, p)
    requires g.MetaPages() <= p < g.pages
    ensures var l := ListOf(st, full, c);
            Rep(g, PushMem(g, m, l, p), ca, WithHead(caches, full, c, g.PageAddr(p)), WithList(st, full, c, [p] + l))
  {
    var l := ListOf(st, full, c);
    PushList(g, m, l, p);
    PushRest(g, m, ca, st, l, p);
    PushOthers(g, m, ca, caches, st, full, c, p);
    ApartGrows(st, full, c, p);
    hide Load, PushMem, MetaRep, SlabsRep, ListRep, ListsApart, OthersRep, WithList, WithHead;
    RepWithList(g, PushMem(g, m, l, p), ca, caches, st, full, c, [p] + l);
  }

  // ---------------------------------------------------------------- slab pages and metadata

  /** A write into page `p`, behind its link fields unless it is on no list, that makes it slab `s`. */
  lemma PageWrite(g: Geometry, m: seq<byte>, n: seq<byte>, ca: nat, caches: seq<KmemCache>, st: State, p: nat, s: Slab, lo: nat)
    requires Rep(g, m, ca, caches, st) && g.MetaPages() <= p < g.pages
    requires Only(m, n, lo, g.PageAddr(p + 1)) && g.PageAddr(p) <= lo && SlabRep(g, n, ca, p, s)
    requires g.PageAddr(p) + OFF_CACHE <= lo || OnNoList(st, p)
    ensures Rep(g, n, ca, caches, st.(slabs := st.slabs[p := s]))
  {
    hide Load, MetaAt, SlabRep, ListRep, ListsApart;
    MetaKept(g, m, n, st.pages, lo, g.PageAddr(p + 1));
    forall q: nat | q in st.slabs && q != p
      ensures g.MetaPages() <= q < g.pages && SlabRep(g, n, ca, q, st.slabs[q])
    {
      assert SlabRep(g, m, ca, q, st.slabs[q]);
      SlabKeptFar(g, m, n, ca, q, st.slabs[q], lo, g.PageAddr(p + 1));
    }
    forall c: nat | c < CACHES
      ensures ListRep(g, n, st.partial[c]) && ListRep(g, n, st.full[c])
    {
      ListKept(g, m, n, st.partial[c], lo, g.PageAddr(p + 1));
      ListKept(g, m, n, st.full[c], lo, g.PageAddr(p + 1));
    }
  }

  lemma MetaWrite(g: Geometry, m: seq<byte>, n: seq<byte>, ca: nat, caches: seq<KmemCache>, st: State, pages: seq<Page>)
    requires Rep(g, m, ca, caches, st) && MetaRep(g, n, pages) && Only(m, n, g.start, g.start + 4 * g.pages)
    ensures Rep(g, n, ca, caches, st.(pages := pages))
  {
    hide Load, MetaAt, MetaRep, SlabRep, ListRep, ListsApart;
    forall q: nat | q in st.slabs
      ensures g.MetaPages() <= q < g.pages && SlabRep(g, n, ca, q, st.slabs[q])
    {
      assert SlabRep(g, m, ca, q, st.slabs[q]);
      SlabKeptFar(g, m, n, ca, q, st.slabs[q], g.start, g.start + 4 * g.pages);
    }
    forall c: nat | c < CACHES
      ensures ListRep(g, n, st.partial[c]) && ListRep(g, n, st.full[c])
    {
      NodesBehindMeta(g, m, st.partial[c]);
      NodesBehindMeta(g, m, st.full[c]);
      ListKept(g, m, n, st.partial[c], g.start, g.start + 4 * g.pages);
      ListKept(g, m, n, st.full[c], g.start, g.start + 4 * g.pages);
    }
  }

  lemma NodesBehindMeta(g: Geometry, m: seq<byte>, l: seq<nat>)
    requires ListRep(g, m, l)
    ensures forall p: nat {:trigger p in l} :: p in l ==> g.MetaPages() <= p < g.pages
  {
    forall p: nat | p in l
      ensures g.MetaPages() <= p < g.pages
    {
      var j :| 0 <= j < |l| && l[j] == p;
      assert NodeAt(g, m, l, j);
    }
  }

  /** Memory after the first free object of slab `p` is taken. */
  ghost function TakeMem(g: Geometry, m: seq<byte>, p: nat, s: Slab): (r: seq<byte>)
    requires p < g.pages && g.End() <= |m| && SlabOk(s) && s.free != []
    ensures |r| == |m|
  {
    Store(Store(m, g.PageAddr(p) + OFF_FREE, 8, LinkAddr(g, p, s, 1)),
          g.PageAddr(p) + OFF_IN_USE, 4, Capacity(s.cls) - |s.free| + 1)
  }

  lemma TakeMemRep(g: Geometry, m: seq<byte>, ca: nat, p: nat, s: Slab)
    requires g.Valid() && p < g.pages && g.End() <= |m| && SlabRep(g, m, ca, p, s) && s.free != []
    ensures var n := TakeMem(g, m, p, s);
            && Only(m, n, g.PageAddr(p) + OFF_FREE, g.PageAddr(p) + OFF_MAGIC)
            && SlabRep(g, n, ca, p, Slab(s.cls, s.free[1..]))
  {
    hide Load;
    var n := TakeMem(g, m, p, s);
    var t := Slab(s.cls, s.free[1..]);
    PowFacts();
    SlabTail(s);
    ClassFacts(s.cls);
    LinkInWord(g, p, s, 1);
    forall j: nat | j < |t.free|
      ensures CellAt(g, n, p, t, j)
    {
      assert CellAt(g, m, p, s, j + 1) && t.free[j] == s.free[j + 1];
      assert LinkAddr(g, p, t, j + 1) == LinkAddr(g, p, s, j + 2);
      assert t.free[j] in t.free;
      CellBounds(g, p, s.cls, t.free[j]);
    }
  }

  lemma LinkInWord(g: Geometry, p: nat, s: Slab, j: nat)
    requires g.Valid() && p < g.pages && SlabOk(s)
    ensures LinkAddr(g, p, s, j) < WORD
    ensures j < |s.free| ==> LinkAddr(g, p, s, j) != 0
  {
    if j < |s.free| {
      assert s.free[j] in s.free;
      CellBounds(g, p, s.cls, s.free[j]);
    }
  }

  /** Memory after object `k` of slab `p` is put back in front of the free list. */
  ghost function PutMem(g: Geometry, m: seq<byte>, p: nat, s: Slab, k: nat): (r: seq<byte>)
    requires p < g.pages && g.End() <= |m| && SlabOk(s) && k < Capacity(s.cls) && |s.free| < Capacity(s.cls)
    ensures |r| == |m|
  {
    CellBounds(g, p, s.cls, k);
    var m1 := Store(m, ObjAddr(g, p, s.cls, k), 8, LinkAddr(g, p, s, 0));
    var m2 := Store(m1, g.PageAddr(p) + OFF_FREE, 8, ObjAddr(g, p, s.cls, k));
    Store(m2, g.PageAddr(p) + OFF_IN_USE, 4, Capacity(s.cls) - |s.free| - 1)
  }

  lemma PutMemRep(g: Geometry, m: seq<byte>, ca: nat, p: nat, s: Slab, k: nat)
    requires g.Valid() && p < g.pages && g.End() <= |m| && SlabRep(g, m, ca, p, s) && InUse(s, k) && |s.free| < Capacity(s.cls)
    ensures var n := PutMem(g, m, p, s, k);
            && |n| == |m|
            && (forall x {:trigger n[x]} :: 0 <= x < |m| && n[x] != m[x] ==>
                  || g.PageAddr(p) + OFF_FREE <= x < g.PageAddr(p) + OFF_MAGIC
                  || ObjAddr(g, p, s.cls, k) <= x < ObjAddr(g, p, s.cls, k) + 8)
            && SlabRep(g, n, ca, p, Slab(s.cls, [k] + s.free))
  {
    hide Load;
    var n := PutMem(g, m, p, s, k);
    var t := Slab(s.cls, [k] + s.free);
    PowFacts();
    ClassFacts(s.cls);
    LinkInWord(g, p, s, 0);
    CellBounds(g, p, s.cls, k);
    assert LinkAddr(g, p, t, 0) == ObjAddr(g, p, s.cls, k);
    forall j: nat | j < |t.free|
      ensures CellAt(g, n, p, t, j)
    {
      if j > 0 {
        assert CellAt(g, m, p, s, j - 1) && t.free[j] == s.free[j - 1] && t.free[j] in s.free;
        CellBounds(g, p, s.cls, t.free[j]);
        CellsApart(g, p, s.cls, k, t.free[j]);
      }
      assert LinkAddr(g, p, t, j + 1) == LinkAddr(g, p, s, j);
    }
  }

  lemma CellsApart(g: Geometry, p: nat, c: nat, k: nat, l: nat)
    requires c < CACHES && k != l
    ensures ObjAddr(g, p, c, k) + 16 <= ObjAddr(g, p, c, l) || ObjAddr(g, p, c, l) + 16 <= ObjAddr(g, p, c, k)
  {
    ClassFacts(c);
    if k < l {
      ObjectsApart(c, k, l);
    } else {
      ObjectsApart(c, l, k);
    }
  }

  /** Memory after the metadata of page `i` is set. */
  ghost function MetaMem(g: Geometry, m: seq<byte>, i: nat, p: Page): (r: seq<byte>)
    requires i < g.pages && g.End() <= |m|
    ensures |r| == |m|
  {
    Store(Store(m, MetaAddr(g, i), 1, TypeCode(p)), MetaAddr(g, i) + 2, 2, CountOf(p, i))
  }

  lemma MetaMemRep(g: Geometry, m: seq<byte>, pages: seq<Page>, i: nat, p: Page)
    requires g.Valid() && MetaRep(g, m, pages) && i < |pages| && (p.Run? ==> p.len <= g.pages)
    ensures MetaRep(g, MetaMem(g, m, i, p), pages[i := p])
    ensures Only(m, MetaMem(g, m, i, p), g.start, g.start + 4 * g.pages)
  {
    hide Load;
    PowFacts();
    var r := pages[i := p];
    forall j: nat | j < |pages|
      ensures MetaAt(g, MetaMem(g, m, i, p), r[j], j)
    {
      assert MetaAt(g, m, pages[j], j);
    }
  }

  // ---------------------------------------------------------------- a fresh slab

  ghost function FreshSlab(c: nat): (s: Slab)
    requires c < CACHES
    ensures SlabOk(s)
  {
    ClassFacts(c);
    Slab(c, Upto(Capacity(c)))
  }

  ghost predicate CellsUpto(g: Geometry, m: seq<byte>, p: nat, c: nat, i: nat)
    requires p < g.pages && g.End() <= |m| && c < CACHES && i <= Capacity(c)
  {
    forall j: nat {:trigger CellAt(g, m, p, FreshSlab(c), j)} :: j < i ==> CellAt(g, m, p, FreshSlab(c), j)
  }

  /** Linking object `i` to the next one keeps the links before it. */
  lemma ChainStep(g: Geometry, m: seq<byte>, p: nat, c: nat, i: nat)
    requires g.Valid() && p < g.pages && g.End() <= |m| && c < CACHES && i < Capacity(c) && CellsUpto(g, m, p, c, i)
    ensures ObjAddr(g, p, c, i) + 8 <= |m|
    ensures var v := if i + 1 < Capacity(c) then ObjAddr(g, p, c, i) + ObjSize(c) else 0;
            var n := Store(m, ObjAddr(g, p, c, i), 8, v);
            CellsUpto(g, n, p, c, i + 1) && Only(m, n, g.PageAddr(p) + HEADER_SIZE, g.PageAddr(p + 1))
  {
    hide Load, Store;
    var s := FreshSlab(c);
    CellBounds(g, p, c, i);
    NextObject(g, p, c, i);
    LinkInWord(g, p, s, i + 1);
    PowFacts();
    var n := Store(m, ObjAddr(g, p, c, i), 8, LinkAddr(g, p, s, i + 1));
    forall j: nat | j < i + 1
      ensures CellAt(g, n, p, s, j)
    {
      assert s.free[j] == j;
      CellBounds(g, p, c, j);
      if j != i {
        assert CellAt(g, m, p, s, j);
        CellsApart(g, p, c, j, i);
      }
    }
  }

  lemma NextObject(g: Geometry, p: nat, c: nat, i: nat)
    requires c < CACHES
    ensures ObjAddr(g, p, c, i + 1) == ObjAddr(g, p, c, i) + ObjSize(c)
  {
  }

  /** Memory after the header of a fresh slab is written. */
  ghost function HeaderMem(g: Geometry, m: seq<byte>, ca: nat, p: nat, c: nat): (r: seq<byte>)
    requires p < g.pages && g.End() <= |m|
    ensures |r| == |m|
  {
    var a := g.PageAddr(p);
    var m1 := Store(m, a + OFF_MAGIC, 4, SLAB_MAGIC);
    var m2 := Store(m1, a + OFF_CACHE, 8, ca + 32 * c);
    var m3 := Store(m2, a + OFF_IN_USE, 4, 0);
    var m4 := Store(m3, a + OFF_NEXT, 8, 0);
    var m5 := Store(m4, a + OFF_PREV, 8, 0);
    Store(m5, a + OFF_FREE, 8, a + HEADER_SIZE)
  }

  lemma HeaderMemRep(g: Geometry, m: seq<byte>, ca: nat, p: nat, c: nat)
    requires g.Valid() && p < g.pages && g.End() <= |m| && c < CACHES && ca + 256 < WORD
    ensures var n := HeaderMem(g, m, ca, p, c);
            && Only(m, n, g.PageAddr(p), g.PageAddr(p) + HEADER_SIZE)
            && CoreRep(g, n, ca, p, FreshSlab(c))
  {
    hide Load, Store;
    PowFacts();
    ClassFacts(c);
    assert FreshSlab(c).free[0] == 0;
  }

  // ---------------------------------------------------------------- bytes no step touches

  /** Bytes that are neither metadata nor in the header of a page in `hdr`. */
  ghost predicate Spared(g: Geometry, hdr: set<nat>, x: nat) {
    x < g.start || g.End() <= x
    || (g.MetaPages() <= g.PageOf(x) && (g.PageOf(x) in hdr ==> HEADER_SIZE <= x - g.PageAddr(g.PageOf(x))))
  }

  /** Spared bytes outside [lo, hi) are the same in `n` as in `m`. */
  ghost predicate QuietBut(g: Geometry, m: seq<byte>, n: seq<byte>, hdr: set<nat>, lo: nat, hi: nat) {
    |m| == |n| && forall x: nat {:trigger n[x]} :: x < |m| && Spared(g, hdr, x) && (x < lo || hi <= x) ==> n[x] == m[x]
  }

  ghost predicate Quiet(g: Geometry, m: seq<byte>, n: seq<byte>, hdr: set<nat>) {
    QuietBut(g, m, n, hdr, 0, 0)
  }

  lemma QuietTrans(g: Geometry, k: seq<byte>, m: seq<byte>, n: seq<byte>, hdr: set<nat>, lo: nat, hi: nat)
    requires QuietBut(g, k, m, hdr, lo, hi) && Quiet(g, m, n, hdr)
    ensures QuietBut(g, k, n, hdr, lo, hi)
  {
  }

  /** Writing only metadata is quiet. */
  lemma MetaQuiet(g: Geometry, m: seq<byte>, n: seq<byte>, hdr: set<nat>)
    requires g.Valid() && Only(m, n, g.start, g.start + 4 * g.pages)
    ensures Quiet(g, m, n, hdr)
  {
  }

  // ---------------------------------------------------------------- a slab leaves its list

  lemma ListInSlabs(g: Geometry, st: State, full: bool, c: nat, p: nat)
    requires WeakInv(g, st) && c < CACHES && p in ListOf(st, full, c)
    ensures p in st.slabs && st.slabs[p].cls == c && (full <==> st.slabs[p].free == [])
  {
    assert PartialOk(st, c) && FullOk(st, c);
  }

  /** Once unlinked, a slab is on no list. */
  lemma Unlinked(g: Geometry, st: State, full: bool, c: nat, p: nat)
    requires WeakInv(g, st) && c < CACHES && p in ListOf(st, full, c)
    ensures OnNoList(WithList(st, full, c, Without(ListOf(st, full, c), p)), p)
  {
    ListInSlabs(g, st, full, c, p);
    var t := WithList(st, full, c, Without(ListOf(st, full, c), p));
    assert PartialOk(st, c) && FullOk(st, c);
    WithoutMembers(ListOf(st, full, c), p, p);
    forall d: nat | d < CACHES
      ensures p !in t.partial[d] && p !in t.full[d]
    {
      assert PartialOk(st, d) && FullOk(st, d);
      assert p in st.partial[d] ==> InPartial(st, d, p);
      assert p in st.full[d] ==> InFull(st, d, p);
    }
  }

  lemma FreeOnNoList(g: Geometry, st: State, p: nat)
    requires WeakInv(g, st) && p !in st.slabs
    ensures OnNoList(st, p)
  {
    forall d: nat | d < CACHES
      ensures p !in st.partial[d] && p !in st.full[d]
    {
      assert PartialOk(st, d) && FullOk(st, d);
      assert p in st.partial[d] ==> InPartial(st, d, p);
      assert p in st.full[d] ==> InFull(st, d, p);
    }
  }

  /** Client bytes are where the allocator never writes. */
  ghost predicate UserKept(g: Geometry, st: State, m: seq<byte>, n: seq<byte>)
    requires WeakInv(g, st)
  {
    |m| == |n| && forall x: nat {:trigger n[x]} :: x < |m| && UserByte(g, st, x) ==> n[x] == m[x]
  }

  lemma QuietUser(g: Geometry, st: State, m: seq<byte>, n: seq<byte>)
    requires WeakInv(g, st) && Quiet(g, m, n, st.slabs.Keys)
    ensures UserKept(g, st, m, n)
  {
    forall x: nat | x < |m| && UserByte(g, st, x)
      ensures n[x] == m[x]
    {
      UserSpared(g, st, x);
    }
  }

  lemma UnlinkQuiet(g: Geometry, m: seq<byte>, l: seq<nat>, i: nat, hdr: set<nat>)
    requires g.Valid() && ListRep(g, m, l) && i < |l| && forall p :: p in l ==> p in hdr
    ensures Quiet(g, m, UnlinkMem(g, m, l, i), hdr)
  {
    hide Load, Store;
    assert i > 0 ==> NodeAt(g, m, l, i - 1) && l[i - 1] in l;
    assert i + 1 < |l| ==> NodeAt(g, m, l, i + 1) && l[i + 1] in l;
  }

  lemma PushQuiet(g: Geometry, m: seq<byte>, l: seq<nat>, p: nat, hdr: set<nat>)
    requires g.Valid() && ListRep(g, m, l) && g.MetaPages() <= p < g.pages && p in hdr && forall q :: q in l ==> q in hdr
    ensures Quiet(g, m, PushMem(g, m, l, p), hdr)
  {
    hide Load, Store;
    assert |l| > 0 ==> NodeAt(g, m, l, 0) && l[0] in l;
  }

  lemma UserSpared(g: Geometry, st: State, x: nat)
    requires WeakInv(g, st) && UserByte(g, st, x)
    ensures Spared(g, st.slabs.Keys, x)
  {
    MetaKind(g, st.pages, g.PageOf(x));
  }
}
