/**
 The heap calls as functions on the heap value, what each does to the set of live blocks, and
 what holds after every run of calls.
 */
module HeapOps {
  import opened HeapLayout
  import opened HeapSpec

  /** Pages for `size` bytes; the rounding addition is done modulo 2^64. */
  function PagesNeeded(size: nat): nat {
    ((size + 4095) % 0x1_0000_0000_0000_0000) / 4096
  }

  ghost predicate NoRun(pages: seq<Page>, n: nat) {
    forall s: nat :: !FreeRun(pages, s, n)
  }

  /** First fit: the lowest run of `n` free pages, or NULL. */
  ghost function AllocLarge(g: Geometry, st: State, n: nat): (State, nat) {
    if n == 0 then (st, 0)
    else match LowestRun(st.pages, n, 0)
      case None => (st, 0)
      case Some(s) => (st.(pages := WithRun(st.pages, s, n, LargeKind)), g.PageAddr(s))
  }

  ghost function CacheAlloc(g: Geometry, st: State, c: nat): (State, nat)
    requires WeakInv(g, st) && c < CACHES
  {
    if st.partial[c] != [] then Take(g, st, c)
    else match LowestRun(st.pages, 1, 0)
      case None => (st, 0)
      case Some(p) => FreshInv(g, st, c, p); Take(g, Fresh(st, c, p), c)
  }

  ghost function Malloc(g: Geometry, st: State, size: nat): (State, nat)
    requires WeakInv(g, st) && size < WORD
  {
    if size == 0 then (st, 0)
    else if size <= 2048 then CacheAlloc(g, st, ClassOf(size))
    else AllocLarge(g, st, PagesNeeded(size))
  }

  /** Object `k` of slab `p` comes back; a slab without objects in use gives its page back. */
  ghost function CacheFree(g: Geometry, st: State, p: nat, k: nat): State
    requires WeakInv(g, st) && p in st.slabs && InUse(st.slabs[p], k)
  {
    PutInv(g, st, p, k);
    var t := Put(g, st, p, k);
    if |t.slabs[p].free| == Capacity(t.slabs[p].cls) then Drop(g, t, p) else t
  }

  ghost function FreeLarge(st: State, p: nat): State
    requires p < |st.pages| && st.pages[p].Run?
  {
    st.(pages := WithoutRun(st.pages, p, st.pages[p].len))
  }

  ghost function Free(g: Geometry, st: State, a: nat): State
    requires WeakInv(g, st) && (a == 0 || LiveAt(g, st, a))
  {
    if a == 0 then st
    else
      var p := g.PageOf(a);
      match st.pages[p].kind
      case LargeKind => FreeLarge(st, p)
      case SlabKind => CacheFree(g, st, p, IndexAt(st.slabs[p].cls, a - g.PageAddr(p)))
  }

  // ---------------------------------------------------------------- large runs

  lemma AllocLargeInv(g: Geometry, st: State, n: nat)
    requires Inv(g, st)
    ensures Inv(g, AllocLarge(g, st, n).0)
  {
    if n > 0 && LowestRun(st.pages, n, 0).Some? {
      WithRunOk(g, st.pages, LowestRun(st.pages, n, 0).value, n, LargeKind);
      AllocLargeSlabs(g, st, n);
    }
  }

  lemma AllocLargeSlabs(g: Geometry, st: State, n: nat)
    requires Inv(g, st)
    ensures SlabsOk(AllocLarge(g, st, n).0) && ListsOk(AllocLarge(g, st, n).0)
  {
    var t := AllocLarge(g, st, n).0;
    assert forall p: nat :: p in st.slabs ==> st.pages[p] == Run(SlabKind, p, 1);
    forall c: nat | c < CACHES
      ensures PartialOk(t, c) && FullOk(t, c)
    {
      assert PartialOk(st, c) && FullOk(st, c);
      assert forall p: nat :: InPartial(t, c, p) <==> InPartial(st, c, p);
      assert forall p: nat :: InFull(t, c, p) <==> InFull(st, c, p);
    }
  }

  lemma RunLive(g: Geometry, st: State, t: State, s: nat, n: nat)
    requires WeakInv(g, st) && WeakInv(g, t) && t == st.(pages := WithRun(st.pages, s, n, LargeKind))
    requires 0 < n && FreeRun(st.pages, s, n)
    ensures !LiveAt(g, st, g.PageAddr(s)) && LiveAt(g, t, g.PageAddr(s))
    ensures SizeAt(g, t, g.PageAddr(s)) == n * 4096
    ensures Live(g, st) == Live(g, t) - {g.PageAddr(s)}
  {
    var r := g.PageAddr(s);
    assert st.pages[s] == FreePage && t.pages[s] == Run(LargeKind, s, n);
    PageOfAddr(g, s, 0);
    forall a | g.start <= a < g.End() && a != r
      ensures SameAt(g, t, st, a)
    {
      var q := g.PageOf(a);
      assert t.pages[q] == if s <= q < s + n then Run(LargeKind, s, n) else st.pages[q];
      assert s <= q < s + n ==> st.pages[q] == FreePage;
    }
    LiveMinus(g, t, st, r);
  }

  lemma Restore(l: map<nat, nat>, m: map<nat, nat>, r: nat)
    requires r in m && l == m - {r}
    ensures r !in l && m == l[r := m[r]]
  {
  }

  lemma AllocLargeShape(g: Geometry, st: State, n: nat)
    requires Inv(g, st)
    ensures var (t, r) := AllocLarge(g, st, n);
            && WeakInv(g, st)
            && (Inv(g, t) ==> WeakInv(g, t))
            && (r == 0 ==> t == st)
            && (r != 0 ==> 0 < n && LowestRun(st.pages, n, 0).Some?
                           && var s := LowestRun(st.pages, n, 0).value;
                              && FreeRun(st.pages, s, n) && r == g.PageAddr(s)
                              && t == st.(pages := WithRun(st.pages, s, n, LargeKind)))
  {
    if n > 0 && LowestRun(st.pages, n, 0).Some? {
      assert st.pages[0] == Run(LargeKind, 0, 1);
    }
  }

  /** A large allocation takes a run that was free and covers `n` pages; nothing else changes. */
  lemma AllocLargeLive(g: Geometry, st: State, n: nat)
    requires Inv(g, st) && Inv(g, AllocLarge(g, st, n).0)
    ensures var (t, r) := AllocLarge(g, st, n);
            if r == 0 then t == st
            else r !in Live(g, st) && Live(g, t) == Live(g, st)[r := n * 4096]
  {
    hide *;
    AllocLargeShape(g, st, n);
    var (t, r) := AllocLarge(g, st, n);
    if r != 0 {
      RunLive(g, st, t, LowestRun(st.pages, n, 0).value, n);
      LiveHas(g, t, r);
      Restore(Live(g, st), Live(g, t), r);
    }
  }

  lemma LiveHas(g: Geometry, st: State, a: nat)
    requires WeakInv(g, st) && LiveAt(g, st, a)
    ensures a in Live(g, st) && Live(g, st)[a] == SizeAt(g, st, a)
  {
  }

  lemma FreeLargeInv(g: Geometry, st: State, p: nat)
    requires Inv(g, st) && g.MetaPages() <= p < |st.pages|
    requires st.pages[p].Run? && st.pages[p].head == p && st.pages[p].kind == LargeKind
    ensures Inv(g, FreeLarge(st, p))
  {
    WithoutRunOk(g, st.pages, p);
    var t := FreeLarge(st, p);
    assert RunAt(st.pages, p, st.pages[p]);
    assert SlabsOk(t);
    forall c: nat | c < CACHES
      ensures PartialOk(t, c) && FullOk(t, c)
    {
      assert PartialOk(st, c) && FullOk(st, c);
      assert forall q: nat :: InPartial(t, c, q) <==> InPartial(st, c, q);
      assert forall q: nat :: InFull(t, c, q) <==> InFull(st, c, q);
    }
  }

  lemma FreeLargeLive(g: Geometry, st: State, p: nat)
    requires Inv(g, st) && g.MetaPages() <= p < |st.pages|
    requires st.pages[p].Run? && st.pages[p].head == p && st.pages[p].kind == LargeKind
    requires Inv(g, FreeLarge(st, p))
    ensures Live(g, FreeLarge(st, p)) == Live(g, st) - {g.PageAddr(p)}
  {
    var t := FreeLarge(st, p);
    assert RunAt(st.pages, p, st.pages[p]);
    PageOfAddr(g, p, 0);
    forall a | g.start <= a < g.End() && a != g.PageAddr(p)
      ensures SameAt(g, st, t, a)
    {
      var q := g.PageOf(a);
      assert t.pages[q] == if p <= q < p + st.pages[p].len then FreePage else st.pages[q];
      assert p <= q < p + st.pages[p].len ==> st.pages[q] == st.pages[p];
    }
    LiveMinus(g, st, t, g.PageAddr(p));
  }

  // ---------------------------------------------------------------- slab objects

  lemma UsedPut(st: State, t: State, p: nat)
    requires UsedBut(st, p) && st.slabs - {p} == t.slabs - {p}
    ensures UsedBut(t, p)
  {
    forall q: nat | q in t.slabs && q != p && t.slabs[q].cls < CACHES
      ensures |t.slabs[q].free| < Capacity(t.slabs[q].cls)
    {
      assert t.slabs[q] == (t.slabs - {p})[q] == (st.slabs - {p})[q];
    }
  }

  /** If only slab `p` changed, and it has an object in use, every slab has one. */
  lemma UsedAll(st: State, t: State, p: nat)
    requires UsedBut(st, p) && p in t.slabs && st.slabs - {p} == t.slabs - {p}
    requires t.slabs[p].cls < CACHES && |t.slabs[p].free| < Capacity(t.slabs[p].cls)
    ensures UsedBut(t, -1)
  {
    UsedPut(st, t, p);
  }

  lemma TakeLast(g: Geometry, st: State, c: nat)
    requires WeakInv(g, st) && c < CACHES && st.partial[c] != [] && UsedBut(st, st.partial[c][0])
    ensures Inv(g, Take(g, st, c).0)
  {
    TakeInv(g, st, c);
    TakeShape(g, st, c);
    var p := st.partial[c][0];
    assert SlabOk(st.slabs[p]);
    hide SlabOk, WeakInv, Take;
    UsedAll(st, Take(g, st, c).0, p);
  }

  lemma CacheAllocInv(g: Geometry, st: State, c: nat)
    requires Inv(g, st) && c < CACHES
    ensures Inv(g, CacheAlloc(g, st, c).0)
  {
    CacheAllocShape(g, st, c);
    if st.partial[c] != [] {
      TakeLast(g, st, c);
    } else if LowestRun(st.pages, 1, 0).Some? {
      TakeLast(g, Fresh(st, c, LowestRun(st.pages, 1, 0).value), c);
    }
  }

  /** Where an allocation takes its object: from the state itself or from one fresh slab. */
  lemma CacheAllocShape(g: Geometry, st: State, c: nat)
    requires Inv(g, st) && c < CACHES
    ensures |st.partial| == CACHES && WeakInv(g, st)
    ensures st.partial[c] != [] ==> UsedBut(st, st.partial[c][0])
    ensures st.partial[c] == [] && LowestRun(st.pages, 1, 0).Some? ==>
              var p := LowestRun(st.pages, 1, 0).value;
              var f := Fresh(st, c, p);
              && p !in st.slabs && WeakInv(g, f) && f.partial[c] == [p] && UsedBut(f, p)
  {
    if LowestRun(st.pages, 1, 0).Some? {
      FreshInv(g, st, c, LowestRun(st.pages, 1, 0).value);
    }
  }

  /** An object from a size class: fails only when no page is free, and otherwise adds one block. */
  lemma CacheAllocLive(g: Geometry, st: State, c: nat)
    requires Inv(g, st) && c < CACHES && Inv(g, CacheAlloc(g, st, c).0)
    ensures var (t, r) := CacheAlloc(g, st, c);
            && (r == 0 <==> st.partial[c] == [] && NoRun(st.pages, 1))
            && if r == 0 then t == st
               else r !in Live(g, st) && Live(g, t) == Live(g, st)[r := ObjSize(c)]
  {
    hide *;
    CacheAllocShape(g, st, c);
    CacheAllocCases(g, st, c);
    if st.partial[c] != [] {
      TakeLive(g, st, c);
    } else if LowestRun(st.pages, 1, 0).Some? {
      var p := LowestRun(st.pages, 1, 0).value;
      FreshLive(g, st, c, p);
      TakeLive(g, Fresh(st, c, p), c);
    }
  }

  lemma TakeNotNull(g: Geometry, st: State, c: nat)
    requires WeakInv(g, st) && c < CACHES && st.partial[c] != []
    ensures Take(g, st, c).1 != 0
  {
    hide ObjAddr, WeakInv;
  }

  lemma CacheAllocCases(g: Geometry, st: State, c: nat)
    requires Inv(g, st) && c < CACHES
    ensures var (t, r) := CacheAlloc(g, st, c);
            && (Inv(g, t) ==> WeakInv(g, t))
            && (st.partial[c] != [] ==> r != 0 && (t, r) == Take(g, st, c))
            && (st.partial[c] == [] ==> match LowestRun(st.pages, 1, 0)
                case None => NoRun(st.pages, 1) && (t, r) == (st, 0)
                case Some(p) =>
                  && FreeRun(st.pages, p, 1) && !NoRun(st.pages, 1)
                  && WeakInv(g, Fresh(st, c, p)) && Fresh(st, c, p).partial[c] == [p] && r != 0
                  && (t, r) == Take(g, Fresh(st, c, p), c))
  {
    hide Take;
    if st.partial[c] != [] {
      TakeNotNull(g, st, c);
    } else if LowestRun(st.pages, 1, 0).Some? {
      var p := LowestRun(st.pages, 1, 0).value;
      FreshInv(g, st, c, p);
      TakeNotNull(g, Fresh(st, c, p), c);
    }
  }

  lemma CacheFreeInv(g: Geometry, st: State, p: nat, k: nat)
    requires Inv(g, st) && p in st.slabs && InUse(st.slabs[p], k)
    ensures Inv(g, CacheFree(g, st, p, k))
  {
    PutInv(g, st, p, k);
    PutShape(g, st, p, k);
    hide WeakInv, Put, Drop;
    var t := Put(g, st, p, k);
    if |t.slabs[p].free| == Capacity(t.slabs[p].cls) {
      DropInv(g, t, p);
      UsedPut(st, t, p);
      DropUsed(g, t, p);
    } else {
      UsedAll(st, t, p);
    }
  }

  lemma PutShape(g: Geometry, st: State, p: nat, k: nat)
    requires WeakInv(g, st) && p in st.slabs && InUse(st.slabs[p], k) && WeakInv(g, Put(g, st, p, k))
    ensures var t := Put(g, st, p, k);
            && st.slabs - {p} == t.slabs - {p} && p in t.slabs
            && t.slabs[p] == Slab(st.slabs[p].cls, [k] + st.slabs[p].free)
            && t.slabs[p].cls < CACHES && |t.slabs[p].free| <= Capacity(t.slabs[p].cls)
  {
  }

  lemma DropUsed(g: Geometry, st: State, p: nat)
    requires WeakInv(g, st) && p in st.slabs && UsedBut(st, p)
    ensures UsedBut(Drop(g, st, p), -1)
  {
  }

  lemma CacheFreeLive(g: Geometry, st: State, p: nat, k: nat)
    requires Inv(g, st) && p in st.slabs && InUse(st.slabs[p], k) && Inv(g, CacheFree(g, st, p, k))
    ensures Live(g, CacheFree(g, st, p, k)) == Live(g, st) - {ObjAddr(g, p, st.slabs[p].cls, k)}
  {
    PutInv(g, st, p, k);
    PutLive(g, st, p, k);
    var t := Put(g, st, p, k);
    if |t.slabs[p].free| == Capacity(t.slabs[p].cls) {
      DropInv(g, t, p);
      DropLive(g, t, p);
    }
  }

  // ---------------------------------------------------------------- malloc and free

  /** The usable size of a block that serves a request for `size` bytes. */
  function Usable(size: nat): nat
    requires 0 < size
  {
    if size <= 2048 then ObjSize(ClassOf(size)) else Pages(size) * 4096
  }

  /** `size` bytes in whole pages, rounded up. */
  function Pages(size: nat): nat {
    (size + 4095) / 4096
  }

  /** When a request for `size` bytes must fail. */
  ghost predicate Exhausted(st: State, size: nat)
    requires |st.partial| == CACHES
  {
    size == 0
    || (size <= 2048 && st.partial[ClassOf(size)] == [] && NoRun(st.pages, 1))
    || (size > 2048 && NoRun(st.pages, Pages(size)))
  }

  lemma MallocInv(g: Geometry, st: State, size: nat)
    requires Inv(g, st) && size < WORD
    ensures Inv(g, Malloc(g, st, size).0)
  {
    if 0 < size <= 2048 {
      CacheAllocInv(g, st, ClassOf(size));
    } else if size > 2048 {
      AllocLargeInv(g, st, PagesNeeded(size));
    }
  }

  /** `malloc` fails exactly when the heap is exhausted, and otherwise adds one block that covers the request. */
  lemma MallocCorrect(g: Geometry, st: State, size: nat)
    requires Inv(g, st) && size < WORD
    ensures var (t, r) := Malloc(g, st, size);
            && Inv(g, t)
            && (r == 0 <==> Exhausted(st, size))
            && (r == 0 ==> t == st)
            && (r != 0 ==> r !in Live(g, st) && Live(g, t) == Live(g, st)[r := Usable(size)] && size <= Usable(size))
  {
    MallocInv(g, st, size);
    if 0 < size <= 2048 {
      CacheAllocLive(g, st, ClassOf(size));
    } else if size > 2048 {
      LargeRequest(g, st, size);
      AllocLargeLive(g, st, PagesNeeded(size));
    }
  }

  /** The wrapped page count fails on exactly the requests that no heap can serve. */
  lemma LargeRequest(g: Geometry, st: State, size: nat)
    requires Inv(g, st) && 2048 < size < WORD
    ensures AllocLarge(g, st, PagesNeeded(size)).1 == 0 <==> Exhausted(st, size)
    ensures AllocLarge(g, st, PagesNeeded(size)).1 != 0 ==> PagesNeeded(size) == Pages(size)
  {
    AllocLargeShape(g, st, PagesNeeded(size));
    if size + 4095 >= WORD {
      assert PagesNeeded(size) == 0;
      assert NoRun(st.pages, Pages(size));
    } else if LowestRun(st.pages, PagesNeeded(size), 0).Some? {
      assert st.pages[0] == Run(LargeKind, 0, 1);
    }
  }

  lemma FreeInv(g: Geometry, st: State, a: nat)
    requires Inv(g, st) && (a == 0 || LiveAt(g, st, a))
    ensures Inv(g, Free(g, st, a))
  {
    if a != 0 {
      var p := g.PageOf(a);
      if st.pages[p].kind == LargeKind {
        FreeLargeInv(g, st, p);
      } else {
        CacheFreeInv(g, st, p, IndexAt(st.slabs[p].cls, a - g.PageAddr(p)));
      }
    }
  }

  /** `free` ends the life of exactly the block it is given. */
  lemma FreeCorrect(g: Geometry, st: State, a: nat)
    requires Inv(g, st) && (a == 0 || LiveAt(g, st, a))
    ensures Inv(g, Free(g, st, a)) && Live(g, Free(g, st, a)) == Live(g, st) - {a}
  {
    hide *;
    FreeInv(g, st, a);
    FreeCases(g, st, a);
    if a != 0 {
      var p := g.PageOf(a);
      if st.pages[p].kind == LargeKind {
        FreeLargeLive(g, st, p);
      } else {
        CacheFreeLive(g, st, p, IndexAt(st.slabs[p].cls, a - g.PageAddr(p)));
      }
    }
  }

  lemma FreeCases(g: Geometry, st: State, a: nat)
    requires Inv(g, st) && (a == 0 || LiveAt(g, st, a))
    ensures WeakInv(g, st) && WeakInv(g, Free(g, st, a)) ==> (a == 0 ==> 0 !in Live(g, st) && Free(g, st, a) == st)
    ensures Inv(g, Free(g, st, a)) ==> WeakInv(g, Free(g, st, a))
    ensures WeakInv(g, st) && UsedBut(st, -1)
    ensures a != 0 ==>
              && g.start <= a
              && var p := g.PageOf(a);
                 && p < |st.pages| && st.pages[p].Run?
                 && (st.pages[p].kind == LargeKind ==>
                       && g.MetaPages() <= p && st.pages[p].head == p && a == g.PageAddr(p)
                       && Free(g, st, a) == FreeLarge(st, p))
                 && (st.pages[p].kind == SlabKind ==>
                       && p in st.slabs && st.slabs[p].cls < CACHES && g.PageAddr(p) + HEADER_SIZE <= a
                       && var k := IndexAt(st.slabs[p].cls, a - g.PageAddr(p));
                          && InUse(st.slabs[p], k) && a == ObjAddr(g, p, st.slabs[p].cls, k)
                          && Free(g, st, a) == CacheFree(g, st, p, k))
  {
    hide CacheFree, FreeLarge, ListsOk, RunAt, ObjAddr, ObjSize, Capacity, IndexAt;
    if a == 0 {
      assert st.pages[0] == Run(LargeKind, 0, 1);
    } else if st.pages[g.PageOf(a)].kind == SlabKind {
      ObjectHere(g, g.PageOf(a), st.slabs[g.PageOf(a)].cls, a);
    }
  }

  lemma ObjectHere(g: Geometry, p: nat, c: nat, a: nat)
    requires c < CACHES && g.PageAddr(p) + HEADER_SIZE <= a && (a - g.PageAddr(p) - HEADER_SIZE) % ObjSize(c) == 0
    ensures a == ObjAddr(g, p, c, IndexAt(c, a - g.PageAddr(p)))
  {
    ObjectOffset(c, a - g.PageAddr(p));
  }
}
