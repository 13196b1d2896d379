/**
 The heap of src/heap.c on raw memory. Page metadata, slab headers, free-list links and client
 data all live in `mem`; addresses are indices. The ghost field `st` is the heap value that
 memory represents, and every method is proved to do to it what HeapOps says.
 */
module HeapClass {
  import opened Division
  import opened Sequences
  import opened Memory
  import opened HeapLayout
  import opened HeapSpec
  import HeapOps
  import HeapRuns
  import HeapClient
  import opened HeapRep
  import opened HeapLists
  import opened HeapSteps
  import opened HeapBlocks

  /** What `virt_to_page_idx` returns for an address outside the heap. */
  const NO_PAGE: nat := 0xFFFF_FFFF

  class Heap {
    var mem: seq<byte>
    var caches: seq<KmemCache>
    const cachesAddr: nat
    const heapStart: nat
    const totalPages: nat
    ghost var st: State

    function Geo(): Geometry {
      Geometry(heapStart, totalPages)
    }

    /** Memory represents `st`, whatever `st` may be. */
    ghost predicate Reps()
      reads this
    {
      cachesAddr > 0 && Geo().End() <= |mem| && |caches| == CACHES && Rep(Geo(), mem, cachesAddr, caches, st)
    }

    ghost predicate Valid()
      reads this
    {
      Reps() && Inv(Geo(), st)
    }

    /** The client's view: live blocks with their bytes. */
    ghost function Contents(): map<nat, seq<byte>>
      reads this
      requires Valid()
    {
      Blocks(Geo(), st, mem)
    }

    /** A block's contents are the bytes of memory from its address on; they lie in the heap, behind the metadata. */
    lemma ContentsAre(a: nat)
      requires Valid() && a in Contents()
      ensures a + |Contents()[a]| <= |mem| && Contents()[a] == mem[a..a + |Contents()[a]|]
      ensures heapStart + 4 * totalPages <= a && a + |Contents()[a]| <= heapStart + 4096 * totalPages
    {
      hide Load, Rep, WeakInv, UsedBut, LiveAt, SizeAt, Blocks;
      BlockLive(Geo(), st, mem, a);
      SliceIs(Geo(), st, mem, a);
      HeapRuns.LiveEnd(Geo(), st, a);
    }

    /** With every block freed, the cache heads and the page metadata in memory are as `heap_init` left them. */
    lemma Emptied(c: nat, i: nat)
      requires Valid() && Contents() == map[] && c < CACHES && i < totalPages
      ensures st == HeapRuns.Init(Geo()) && caches[c] == KmemCache(0, 0, 0, ObjSize(c))
      ensures Load(mem, heapStart + 4 * i, 1) == (if i < Geo().MetaPages() then 2 else 0)
      ensures Load(mem, heapStart + 4 * i + 2, 2) == (if i < Geo().MetaPages() then 1 else 0)
    {
      hide Load, SlabsRep, ListsRep, ListsApart, WeakInv;
      NoBlocks(Geo(), st, mem);
      HeapRuns.NothingLive(Geo(), st);
      assert MetaAt(Geo(), mem, st.pages[i], i);
    }

    /** `heap_init`: the page-aligned part of [start, start + size) becomes the heap. */
    constructor HeapInit(ram: seq<byte>, start: nat, size: nat, cachesAddr: nat)
      requires start + size <= |ram| && |ram| + PAGE_SIZE < WORD && 0 < cachesAddr && cachesAddr + 256 < WORD
      requires size < 65536 * 4096
      ensures this.cachesAddr == cachesAddr && |mem| == |ram|
      ensures totalPages >= 2 ==> Valid() && st == HeapRuns.Init(Geo()) && Contents() == map[]
      ensures totalPages >= 2 ==> Only(ram, mem, heapStart, heapStart + 4 * totalPages)
      ensures totalPages < 2 ==> mem == ram
      ensures heapStart % 4096 == 0 && start <= heapStart < start + 4096
      ensures totalPages == 0 <==> start + size < heapStart + 4096
      ensures totalPages > 0 ==> heapStart + 4096 * totalPages <= start + size < heapStart + 4096 * totalPages + 4096
      ensures totalPages >= 2 ==>
                |st.pages| == totalPages && forall i :: 0 <= i < totalPages ==> (st.pages[i] == FreePage <==> 4 * totalPages <= i * 4096)
    {
      hide Load, Store, MetaRep, Only, Blocks, Rep, WeakInv, AlignUp;
      var aligned := AlignUp(start);
      Aligned(start, size);
      var pages := if size < aligned - start then 0 else (size - (aligned - start)) / 4096;
      var m := ram;
      if pages >= 2 {
        GeoFits(Geometry(aligned, pages), start, size, |ram|);
        m := ReserveMeta(ram, aligned, pages);
        InitRep(Geometry(aligned, pages), m, cachesAddr);
        forall i | 0 <= i < pages { HeapClient.InitFree(Geometry(aligned, pages), i); }
      }
      this.cachesAddr := cachesAddr;
      this.heapStart := aligned;
      this.totalPages := pages;
      this.mem := m;
      this.caches := seq(CACHES, i requires 0 <= i < CACHES => KmemCache(0, 0, 0, ObjSize(i)));
      this.st := HeapRuns.Init(Geometry(aligned, pages));
    }

    function VirtToPageIdx(a: nat): nat {
      if a < heapStart || a >= Geo().End() then NO_PAGE else (a - heapStart) / 4096
    }

    // -------------------------------------------------------------- page runs

    /** The scan of `alloc_pages_backend`: the first page of the lowest free run, or NO_PAGE. */
    method FindRun(numPages: nat) returns (r: nat)
      requires Geo().Valid() && MetaRep(Geo(), mem, st.pages)
      ensures numPages == 0 || HeapOps.NoRun(st.pages, numPages) ==> r == NO_PAGE
      ensures r != NO_PAGE ==> numPages > 0 && FreeRun(st.pages, r, numPages) && forall s: nat :: s < r ==> !FreeRun(st.pages, s, numPages)
      ensures r == NO_PAGE ==> numPages == 0 || HeapOps.NoRun(st.pages, numPages)
    {
      hide Load;
      var freeRun: nat, startIdx: nat := 0, NO_PAGE;
      var i: nat := 0;
      while i < totalPages
        invariant i <= totalPages && freeRun <= i && (numPages == 0 || freeRun < numPages)
        invariant freeRun > 0 ==> startIdx == i - freeRun
        invariant forall j :: i - freeRun <= j < i ==> st.pages[j] == FreePage
        invariant freeRun < i ==> st.pages[i - freeRun - 1] != FreePage
        invariant numPages > 0 ==> forall s: nat :: s + numPages <= i ==> !FreeRun(st.pages, s, numPages)
      {
        assert MetaAt(Geo(), mem, st.pages[i], i);
        if Load(mem, heapStart + 4 * i, 1) == 0 {
          if freeRun == 0 { startIdx := i; }
          freeRun := freeRun + 1;
          if freeRun == numPages {
            assert FreeRun(st.pages, startIdx, numPages);
            return startIdx;
          }
        } else {
          freeRun := 0;
        }
        i := i + 1;
      }
      r := NO_PAGE;
    }

    /** The marking loop of `alloc_pages_backend`. */
    method MarkRun(s: nat, n: nat, kind: Kind)
      requires Reps() && 0 < n && s + n <= totalPages
      modifies `mem, `st
      ensures Reps() && st == old(st).(pages := WithRun(old(st).pages, s, n, kind))
      ensures Only(old(mem), mem, heapStart, heapStart + 4 * totalPages)
    {
      ghost var full := WithRun(st.pages, s, n, kind);
      PaintRun(s, n, if kind == SlabKind then 1 else 2, kind, st.pages, full);
      MetaWrite(Geo(), old(mem), mem, cachesAddr, caches, st, full);
      st := st.(pages := full);
    }

    /** Type and count of page `i`; `pages` is what the metadata said before, `p` what it says of `i` now. */
    method SetMeta(i: nat, code: nat, count: nat, ghost pages: seq<Page>, ghost p: Page)
      requires Geo().Valid() && MetaRep(Geo(), mem, pages) && i < totalPages
      requires code == TypeCode(p) && count == CountOf(p, i) && (p.Run? ==> p.len <= totalPages)
      modifies `mem
      ensures MetaRep(Geo(), mem, pages[i := p])
      ensures Only(old(mem), mem, heapStart, heapStart + 4 * totalPages)
    {
      ghost var m := MetaMem(Geo(), mem, i, p);
      MetaMemRep(Geo(), mem, pages, i, p);
      hide Load, Store, MetaRep, Only;
      mem := Store(mem, heapStart + 4 * i, 1, code);
      mem := Store(mem, heapStart + 4 * i + 2, 2, count);
      assert mem == m;
    }

    method PaintRun(s: nat, n: nat, code: nat, ghost kind: Kind, ghost was: seq<Page>, ghost full: seq<Page>)
      requires Geo().Valid() && MetaRep(Geo(), mem, was) && s + n <= totalPages == |was|
      requires full == WithRun(was, s, n, kind) && code == TypeCode(Run(kind, s, n))
      modifies `mem
      ensures MetaRep(Geo(), mem, full)
      ensures Only(old(mem), mem, heapStart, heapStart + 4 * totalPages)
    {
      hide Load, Store, MetaRep, Painted, WithRun;
      PaintEnds(was, full, s, n);
      for j := 0 to n
        invariant MetaRep(Geo(), mem, Painted(was, full, s + j))
        invariant Only(old(mem), mem, heapStart, heapStart + 4 * totalPages)
      {
        PaintStep(was, full, s + j);
        SetMeta(s + j, code, if j == 0 then n else 0, Painted(was, full, s + j), full[s + j]);
      }
    }

    /** First fit: the start of a run of `numPages` pages, or NULL. */
    method AllocPagesBackend(numPages: nat, kind: Kind) returns (r: nat)
      requires Reps()
      modifies `mem, `st
      ensures Reps() && Only(old(mem), mem, heapStart, heapStart + 4 * totalPages)
      ensures numPages == 0 || LowestRun(old(st).pages, numPages, 0).None? ==> r == 0 && st == old(st)
      ensures numPages > 0 && LowestRun(old(st).pages, numPages, 0).Some? ==>
                var s := LowestRun(old(st).pages, numPages, 0).value;
                r == Geo().PageAddr(s) && st == old(st).(pages := WithRun(old(st).pages, s, numPages, kind))
    {
      var s := FindRun(numPages);
      if s == NO_PAGE {
        return 0;
      }
      FirstFit(st.pages, numPages, s);
      MarkRun(s, numPages, kind);
      r := heapStart + s * 4096;
    }

    method FreePagesBackend(ptr: nat)
      requires Reps() && |st.pages| == totalPages
      requires var i := VirtToPageIdx(ptr); i < totalPages ==> i + CountOf(st.pages[i], i) <= totalPages
      modifies `mem, `st
      ensures Reps() && Only(old(mem), mem, heapStart, heapStart + 4 * totalPages)
      ensures var i := VirtToPageIdx(ptr);
              st == if i < totalPages && CountOf(old(st).pages[i], i) > 0
                    then old(st).(pages := WithoutRun(old(st).pages, i, CountOf(old(st).pages[i], i)))
                    else old(st)
    {
      var idx := VirtToPageIdx(ptr);
      if idx >= totalPages { return; }
      assert MetaAt(Geo(), mem, st.pages[idx], idx);
      var count := Load(mem, heapStart + 4 * idx + 2, 2);
      if count == 0 { return; }
      ghost var full := WithoutRun(st.pages, idx, count);
      ClearRun(idx, count, st.pages, full);
      MetaWrite(Geo(), old(mem), mem, cachesAddr, caches, st, full);
      st := st.(pages := full);
    }

    /** The clearing loop of `free_pages_backend`. */
    method ClearRun(idx: nat, count: nat, ghost was: seq<Page>, ghost full: seq<Page>)
      requires Geo().Valid() && MetaRep(Geo(), mem, was) && idx + count <= totalPages == |was|
      requires full == WithoutRun(was, idx, count)
      modifies `mem
      ensures MetaRep(Geo(), mem, full) && Only(old(mem), mem, heapStart, heapStart + 4 * totalPages)
    {
      hide Load, Store, MetaRep, Painted, WithoutRun;
      PaintEnds(was, full, idx, count);
      for i := 0 to count
        invariant MetaRep(Geo(), mem, Painted(was, full, idx + i)) && Only(old(mem), mem, heapStart, heapStart + 4 * totalPages)
      {
        PaintStep(was, full, idx + i);
        if idx + i < totalPages {
          SetMeta(idx + i, 0, 0, Painted(was, full, idx + i), FreePage);
        }
      }
    }

    // -------------------------------------------------------------- slabs

    /** Header and free list of a fresh slab on page `p`. */
    method SlabInitPage(slab: nat, c: nat, ghost p: nat)
      requires Reps() && c < CACHES && Geo().MetaPages() <= p < totalPages && slab == Geo().PageAddr(p) && OnNoList(st, p)
      modifies `mem, `st
      ensures Reps() && st == old(st).(slabs := old(st).slabs[p := FreshSlab(c)])
      ensures Only(old(mem), mem, Geo().PageAddr(p), Geo().PageAddr(p + 1))
    {
      hide Load, ObjSize, Capacity, ObjAddr, CoreRep, ChainRep, OnNoList, MetaRep, SlabsRep, ListsRep, ListsApart;
      FirstObject(Geo(), p, c);
      InitHeader(slab, c, p);
      ghost var m := mem;
      var start := (slab + HEADER_SIZE + 7) / 8 * 8;
      var available := 4096 - (start - slab);
      InitChain(start, available / caches[c].objSize, caches[c].objSize, c, p);
      CoreKept(Geo(), m, mem, cachesAddr, p, FreshSlab(c), Geo().PageAddr(p) + HEADER_SIZE, Geo().PageAddr(p + 1));
      PageWrite(Geo(), old(mem), mem, cachesAddr, caches, st, p, FreshSlab(c), Geo().PageAddr(p));
      st := st.(slabs := st.slabs[p := FreshSlab(c)]);
    }

    method InitHeader(slab: nat, c: nat, ghost p: nat)
      requires Geo().Valid() && Geo().End() <= |mem| && cachesAddr + 256 < WORD
      requires c < CACHES && p < totalPages && slab == Geo().PageAddr(p)
      modifies `mem
      ensures Only(old(mem), mem, Geo().PageAddr(p), Geo().PageAddr(p) + HEADER_SIZE)
      ensures CoreRep(Geo(), mem, cachesAddr, p, FreshSlab(c))
    {
      hide Load, Store, CoreRep, Only, HeaderMem, FreshSlab;
      HeaderMemRep(Geo(), mem, cachesAddr, p, c);
      HeaderWrites(slab, c, p);
    }

    /** The first writes of `slab_init_page`. */
    method HeaderWrites(slab: nat, c: nat, ghost p: nat)
      requires Geo().End() <= |mem| && p < totalPages && slab == Geo().PageAddr(p)
      modifies `mem
      ensures mem == HeaderMem(Geo(), old(mem), cachesAddr, p, c)
    {
      hide Store;
      mem := Store(mem, slab + OFF_MAGIC, 4, SLAB_MAGIC);
      mem := Store(mem, slab + OFF_CACHE, 8, cachesAddr + 32 * c);
      mem := Store(mem, slab + OFF_IN_USE, 4, 0);
      mem := Store(mem, slab + OFF_NEXT, 8, 0);
      mem := Store(mem, slab + OFF_PREV, 8, 0);
      mem := Store(mem, slab + OFF_FREE, 8, slab + HEADER_SIZE);
    }

    /** The loop of `slab_init_page`: each object points at the next, the last at NULL. */
    method InitChain(start: nat, maxObjs: nat, objSize: nat, ghost c: nat, ghost p: nat)
      requires Geo().Valid() && Geo().End() <= |mem| && c < CACHES && p < totalPages
      requires start == ObjAddr(Geo(), p, c, 0) && maxObjs == Capacity(c) && objSize == ObjSize(c)
      modifies `mem
      ensures Only(old(mem), mem, Geo().PageAddr(p) + HEADER_SIZE, Geo().PageAddr(p + 1))
      ensures ChainRep(Geo(), mem, p, FreshSlab(c))
    {
      hide Load, Store, Capacity, ObjSize, ObjAddr, CellAt;
      ClassFacts(c);
      var curr := start;
      for i := 0 to maxObjs - 1
        invariant curr == ObjAddr(Geo(), p, c, i)
        invariant Only(old(mem), mem, Geo().PageAddr(p) + HEADER_SIZE, Geo().PageAddr(p + 1))
        invariant CellsUpto(Geo(), mem, p, c, i)
      {
        ChainStep(Geo(), mem, p, c, i);
        NextObject(Geo(), p, c, i);
        mem := Store(mem, curr, 8, curr + objSize);
        curr := curr + objSize;
      }
      ChainStep(Geo(), mem, p, c, maxObjs - 1);
      mem := Store(mem, curr, 8, 0);
    }

    // -------------------------------------------------------------- lists

    /** The unlink writes of `cache_alloc` and `cache_free`: slab `slab` is node `i` of list `l`. */
    method UnlinkWrites(full: bool, c: nat, slab: nat, ghost l: seq<nat>, ghost i: nat)
      requires Geo().Valid() && ListRep(Geo(), mem, l) && c < |caches| && i < |l| && slab == Geo().PageAddr(l[i])
      requires caches[c] == WithHead(caches, full, c, NodeAddr(Geo(), l, 0))[c]
      modifies `mem, `caches
      ensures mem == UnlinkMem(Geo(), old(mem), l, i)
      ensures caches == WithHead(old(caches), full, c, NodeAddr(Geo(), l[..i] + l[i + 1..], 0))
    {
      hide Load, Store;
      UnlinkReads(Geo(), mem, l, i);
      var prev := Load(mem, slab + OFF_PREV, 8);
      if prev != 0 {
        mem := Store(mem, prev + OFF_NEXT, 8, Load(mem, slab + OFF_NEXT, 8));
      } else {
        caches := WithHead(caches, full, c, Load(mem, slab + OFF_NEXT, 8));
      }
      var next := Load(mem, slab + OFF_NEXT, 8);
      if next != 0 {
        mem := Store(mem, next + OFF_PREV, 8, Load(mem, slab + OFF_PREV, 8));
      }
    }

    /** Takes node `i` of the partial or full list of cache `c` out of its list. */
    method Unlink(full: bool, c: nat, slab: nat, ghost i: nat)
      requires Reps() && c < CACHES && i < |ListOf(st, full, c)| && slab == Geo().PageAddr(ListOf(st, full, c)[i])
      requires forall p :: p in ListOf(st, full, c) ==> p in st.slabs
      modifies `mem, `caches, `st
      ensures Reps() && Quiet(Geo(), old(mem), mem, st.slabs.Keys)
      ensures st == WithList(old(st), full, c, Without(ListOf(old(st), full, c), ListOf(old(st), full, c)[i]))
    {
      hide Load, Store, MetaRep, SlabsRep, ListsApart, Without, UnlinkMem, Quiet, ListRep;
      ghost var l := ListOf(st, full, c);
      assert ListRep(Geo(), mem, l);
      UnlinkRep(Geo(), mem, cachesAddr, caches, st, full, c, i);
      UnlinkQuiet(Geo(), mem, l, i, st.slabs.Keys);
      UnlinkWrites(full, c, slab, l, i);
      st := WithList(st, full, c, Without(l, l[i]));
    }

    /** The push writes of `cache_alloc` and `cache_free`. */
    method PushWrites(full: bool, c: nat, slab: nat, ghost l: seq<nat>, ghost p: nat)
      requires Geo().Valid() && ListRep(Geo(), mem, l) && c < |caches| && p < totalPages && slab == Geo().PageAddr(p)
      requires caches[c] == WithHead(caches, full, c, NodeAddr(Geo(), l, 0))[c]
      modifies `mem, `caches
      ensures mem == PushMem(Geo(), old(mem), l, p)
      ensures caches == WithHead(old(caches), full, c, slab)
    {
      hide Load, Store, ListRep;
      PushBounds(Geo(), mem, l, p);
      var head := if full then caches[c].slabsFull else caches[c].slabsPartial;
      mem := Store(mem, slab + OFF_NEXT, 8, head);
      mem := Store(mem, slab + OFF_PREV, 8, 0);
      if head != 0 {
        mem := Store(mem, head + OFF_PREV, 8, slab);
      }
      caches := WithHead(caches, full, c, slab);
    }

    /** Puts slab `p` in front of the partial or full list of cache `c`. */
    method Push(full: bool, c: nat, slab: nat, ghost p: nat)
      requires Reps() && c < CACHES && Geo().MetaPages() <= p < totalPages && slab == Geo().PageAddr(p)
      requires OnNoList(st, p) && p in st.slabs && forall q :: q in ListOf(st, full, c) ==> q in st.slabs
      modifies `mem, `caches, `st
      ensures Reps() && Quiet(Geo(), old(mem), mem, st.slabs.Keys)
      ensures st == WithList(old(st), full, c, [p] + ListOf(old(st), full, c))
    {
      hide Load, Store, MetaRep, SlabsRep, ListsApart, PushMem, Quiet, ListRep;
      ghost var l := ListOf(st, full, c);
      assert ListRep(Geo(), mem, l);
      PushRep(Geo(), mem, cachesAddr, caches, st, full, c, p);
      PushQuiet(Geo(), mem, l, p, st.slabs.Keys);
      PushWrites(full, c, slab, l, p);
      st := WithList(st, full, c, [p] + l);
    }

    // -------------------------------------------------------------- objects

    /** The writes that take the first free object of slab `p`. */
    method TakeWrites(slab: nat, ghost p: nat, ghost s: Slab) returns (obj: nat)
      requires Geo().Valid() && Geo().End() <= |mem| && p < totalPages && SlabRep(Geo(), mem, cachesAddr, p, s) && s.free != []
      requires slab == Geo().PageAddr(p)
      modifies `mem
      ensures mem == TakeMem(Geo(), old(mem), p, s) && obj == ObjAddr(Geo(), p, s.cls, s.free[0])
    {
      hide Load, Store, ObjAddr, LinkAddr;
      TakeReads(Geo(), mem, cachesAddr, p, s);
      obj := Load(mem, slab + OFF_FREE, 8);
      mem := Store(mem, slab + OFF_FREE, 8, Load(mem, obj, 8));
      mem := Store(mem, slab + OFF_IN_USE, 4, Load(mem, slab + OFF_IN_USE, 4) + 1);
    }

    /** Takes the first free object of slab `p`. */
    method TakeObject(slab: nat, ghost p: nat) returns (obj: nat)
      requires Reps() && p in st.slabs && st.slabs[p].free != [] && slab == Geo().PageAddr(p)
      modifies `mem, `st
      ensures Reps() && Quiet(Geo(), old(mem), mem, old(st).slabs.Keys)
      ensures st == old(st).(slabs := old(st).slabs[p := Slab(old(st).slabs[p].cls, old(st).slabs[p].free[1..])])
      ensures old(st).slabs[p].cls < CACHES && obj == ObjAddr(Geo(), p, old(st).slabs[p].cls, old(st).slabs[p].free[0])
    {
      hide Load, Store, ObjAddr, MetaRep, ListsRep, ListsApart, HeadsRep, Quiet, TakeMem, ChainRep;
      ghost var s := st.slabs[p];
      assert SlabRep(Geo(), mem, cachesAddr, p, s);
      TakeDone(Geo(), mem, cachesAddr, caches, st, p);
      obj := TakeWrites(slab, p, s);
      st := st.(slabs := st.slabs[p := Slab(s.cls, s.free[1..])]);
    }

    /** The writes that put object `ptr`, number `k` of slab `p`, back. */
    method PutWrites(slab: nat, ptr: nat, ghost p: nat, ghost s: Slab, ghost k: nat)
      requires Geo().Valid() && Geo().End() <= |mem| && p < totalPages && SlabRep(Geo(), mem, cachesAddr, p, s)
      requires InUse(s, k) && |s.free| < Capacity(s.cls) && slab == Geo().PageAddr(p) && ptr == ObjAddr(Geo(), p, s.cls, k)
      modifies `mem
      ensures mem == PutMem(Geo(), old(mem), p, s, k)
    {
      hide Load, Store, ObjAddr, LinkAddr, Capacity;
      PutReads(Geo(), mem, cachesAddr, p, s, k);
      mem := Store(mem, ptr, 8, Load(mem, slab + OFF_FREE, 8));
      mem := Store(mem, slab + OFF_FREE, 8, ptr);
      mem := Store(mem, slab + OFF_IN_USE, 4, Load(mem, slab + OFF_IN_USE, 4) - 1);
    }

    /** Puts object `ptr`, number `k` of slab `p`, in front of its free list. */
    method PutObject(slab: nat, ptr: nat, ghost p: nat, ghost k: nat)
      requires Reps() && p in st.slabs && InUse(st.slabs[p], k) && |st.slabs[p].free| < Capacity(st.slabs[p].cls)
      requires slab == Geo().PageAddr(p) && ptr == ObjAddr(Geo(), p, st.slabs[p].cls, k)
      modifies `mem, `st
      ensures Reps() && QuietBut(Geo(), old(mem), mem, old(st).slabs.Keys, ptr, ptr + 8)
      ensures st == old(st).(slabs := old(st).slabs[p := Slab(old(st).slabs[p].cls, [k] + old(st).slabs[p].free)])
    {
      hide Load, Store, ObjAddr, MetaRep, ListsRep, ListsApart, HeadsRep, QuietBut, PutMem, ChainRep;
      ghost var s := st.slabs[p];
      assert SlabRep(Geo(), mem, cachesAddr, p, s);
      PutDone(Geo(), mem, cachesAddr, caches, st, p, k);
      PutWrites(slab, ptr, p, s, k);
      st := st.(slabs := st.slabs[p := Slab(s.cls, [k] + s.free)]);
    }

    // -------------------------------------------------------------- size classes

    /** A fresh slab for cache `c`, on its partial list, or NULL. */
    method AllocSlab(c: nat) returns (slab: nat)
      requires Reps() && WeakInv(Geo(), st) && c < CACHES
      modifies `mem, `caches, `st
      ensures Reps() && UserKept(Geo(), old(st), old(mem), mem)
      ensures match LowestRun(old(st).pages, 1, 0)
              case None => slab == 0 && st == old(st)
              case Some(p) => slab == Geo().PageAddr(p) && slab != 0 && st == Fresh(old(st), c, p)
    {
      hide Load, Rep, WeakInv, UserKept, Only, Quiet, LowestRun;
      slab := AllocPagesBackend(1, SlabKind);
      ghost var m1 := mem;
      FreshPage(Geo(), old(st), old(mem), m1);
      if slab == 0 {
        return;
      }
      ghost var p := LowestRun(old(st).pages, 1, 0).value;
      SlabInitPage(slab, c, p);
      ghost var m2 := mem;
      assert st.slabs.Keys == old(st).slabs.Keys + {p};
      forall q | q in ListOf(st, false, c) ensures q in st.slabs { ListInSlabs(Geo(), old(st), false, c, q); }
      Push(false, c, slab, p);
      FreshQuiet(Geo(), old(st), p, old(mem), m1, m2, mem);
    }

    /** The first object of the first partial slab; a slab without free objects moves to the full list. */
    method TakeFrom(c: nat, slab: nat) returns (obj: nat)
      requires Reps() && WeakInv(Geo(), st) && c < CACHES && st.partial[c] != [] && slab == Geo().PageAddr(st.partial[c][0])
      modifies `mem, `caches, `st
      ensures Reps() && Quiet(Geo(), old(mem), mem, old(st).slabs.Keys)
      ensures (st, obj) == Take(Geo(), old(st), c)
    {
      hide Load, Rep, WeakInv, QuietBut, Take, ObjAddr, OnNoList, Without, SlabOk;
      TakeHead(Geo(), st, c);
      TakeCases(Geo(), st, c, st.partial[c][0], st.slabs[st.partial[c][0]]);
      ghost var p := st.partial[c][0];
      obj := TakeObject(slab, p);
      HeadLink(Geo(), mem, cachesAddr, caches, st, p);
      if Load(mem, slab + OFF_FREE, 8) == 0 {
        ghost var m1 := mem;
        Unlink(false, c, slab, 0);
        ghost var m2 := mem;
        QuietTrans(Geo(), old(mem), m1, m2, old(st).slabs.Keys, 0, 0);
        Push(true, c, slab, p);
        QuietTrans(Geo(), old(mem), m2, mem, old(st).slabs.Keys, 0, 0);
      }
    }

    method CacheAlloc(c: nat) returns (obj: nat)
      requires Valid() && c < CACHES
      modifies `mem, `caches, `st
      ensures Reps() && UserKept(Geo(), old(st), old(mem), mem)
      ensures (st, obj) == HeapOps.CacheAlloc(Geo(), old(st), c)
    {
      hide Load, MetaRep, SlabsRep, ListsRep, ListsApart, QuietBut, Take, WeakInv, UserKept, LowestRun, Fresh, Only;
      HeapOps.CacheAllocCases(Geo(), st, c);
      HeadNode(Geo(), mem, cachesAddr, caches, st, false, c);
      var slab := caches[c].slabsPartial;
      if slab == 0 {
        if caches[c].slabsFree != 0 {
          assert false;
        } else {
          slab := AllocSlab(c);
          if slab == 0 {
            return 0;
          }
        }
      }
      ghost var s1, m1 := st, mem;
      obj := TakeFrom(c, slab);
      CacheAllocQuiet(Geo(), old(st), s1, c, old(mem), m1, mem);
    }

    /** Gives object `ptr`, number `k` of slab `p`, back to cache `c`. */
    method CacheFree(c: nat, ptr: nat, ghost p: nat, ghost k: nat)
      requires Valid() && p in st.slabs && c == st.slabs[p].cls && InUse(st.slabs[p], k)
      requires ptr == ObjAddr(Geo(), p, c, k)
      modifies `mem, `caches, `st
      ensures Reps() && QuietBut(Geo(), old(mem), mem, old(st).slabs.Keys, ptr, ptr + 8)
      ensures st == HeapOps.CacheFree(Geo(), old(st), p, k)
    {
      hide Load, Rep, WeakInv, QuietBut, ObjAddr, SlabOk;
      ObjectPage(Geo(), st, p, k);
      HeadLink(Geo(), mem, cachesAddr, caches, st, p);
      var slab := ptr / 4096 * 4096;
      if Load(mem, slab + OFF_MAGIC, 4) != SLAB_MAGIC {
        assert false;
      }
      var wasFull := Load(mem, slab + OFF_FREE, 8) == 0;
      PutObject(slab, ptr, p, k);
      HeadLink(Geo(), mem, cachesAddr, caches, st, p);
      var inUse := Load(mem, slab + OFF_IN_USE, 4);
      ghost var m := mem;
      Relist(wasFull, inUse == 0, c, slab, p, k, old(st));
      QuietTrans(Geo(), old(mem), m, mem, old(st).slabs.Keys, ptr, ptr + 8);
    }

    /** The list moves of `cache_free`: an empty slab gives its page back, a slab that was full becomes partial. */
    method Relist(wasFull: bool, last: bool, c: nat, slab: nat, ghost p: nat, ghost k: nat, ghost was: State)
      requires Reps() && WeakInv(Geo(), was) && p in was.slabs && InUse(was.slabs[p], k) && c == was.slabs[p].cls
      requires st == was.(slabs := was.slabs[p := Slab(c, [k] + was.slabs[p].free)]) && slab == Geo().PageAddr(p)
      requires wasFull == (was.slabs[p].free == []) && last == (|was.slabs[p].free| + 1 == Capacity(c))
      modifies `mem, `caches, `st
      ensures Reps() && Quiet(Geo(), old(mem), mem, was.slabs.Keys)
      ensures st == HeapOps.CacheFree(Geo(), was, p, k)
    {
      hide Load, Rep, WeakInv, QuietBut, SlabOk, Without, OnNoList, Capacity;
      RelistNeeds(Geo(), was, p, k);
      RelistValue(Geo(), was, p, k);
      ghost var l := ListOf(st, wasFull, c);
      if last {
        ghost var i :| 0 <= i < |l| && l[i] == p;
        if wasFull {
          Unlink(true, c, slab, i);
        } else {
          Unlink(false, c, slab, i);
        }
        ghost var m := mem;
        RepDrop(Geo(), mem, cachesAddr, caches, st, p);
        st := st.(slabs := st.slabs - {p});
        FreePagesBackend(slab);
        MetaQuiet(Geo(), m, mem, was.slabs.Keys);
        QuietTrans(Geo(), old(mem), m, mem, was.slabs.Keys, 0, 0);
      } else if wasFull {
        ghost var i :| 0 <= i < |l| && l[i] == p;
        Unlink(true, c, slab, i);
        ghost var m := mem;
        Push(false, c, slab, p);
        QuietTrans(Geo(), old(mem), m, mem, was.slabs.Keys, 0, 0);
      } else {
        QuietSame(Geo(), mem, was.slabs.Keys);
      }
    }

    // -------------------------------------------------------------- the interface

    /** The first cache whose objects are at least `size` bytes. */
    method FindCache(size: nat) returns (c: nat)
      requires |caches| == CACHES && forall d :: 0 <= d < CACHES ==> caches[d].objSize == ObjSize(d)
      requires 0 < size <= 2048
      ensures c == ClassOf(size)
    {
      c := 0;
      while c < CACHES && size > caches[c].objSize
        invariant c <= CACHES && forall d :: 0 <= d < c ==> ObjSize(d) < size
        decreases CACHES - c
      {
        c := c + 1;
      }
      assert ObjSize(7) == 2048;
    }

    /** `malloc`: NULL just when the heap cannot serve the request, else one more block; the others keep their contents. */
    method Malloc(size: nat) returns (ptr: nat)
      requires Valid() && size < WORD
      modifies `mem, `caches, `st
      ensures Valid() && (st, ptr) == HeapOps.Malloc(Geo(), old(st), size)
      ensures ptr == 0 <==> HeapOps.Exhausted(old(st), size)
      ensures ptr == 0 ==> Contents() == old(Contents())
      ensures ptr != 0 ==>
                && ptr !in old(Contents()) && ptr in Contents()
                && Contents() - {ptr} == old(Contents())
                && size <= |Contents()[ptr]| == HeapOps.Usable(size) && ptr % 8 == 0
    {
      hide Load, MetaRep, SlabsRep, ListsRep, ListsApart, WeakInv, UserKept, LowestRun, Only, UsedBut, Blocks;
      HeapOps.MallocCorrect(Geo(), st, size);
      ListCount(Geo(), st);
      ptr := 0;
      KeptSame(Geo(), st, mem);
      if size != 0 {
        if size <= 2048 {
          var c := FindCache(size);
          ptr := CacheAlloc(c);
        } else {
          var pagesNeeded := ((size + 4095) % 0x1_0000_0000_0000_0000) / 4096;
          ptr := AllocPagesBackend(pagesNeeded, LargeKind);
          MetaUser(Geo(), old(st), old(mem), mem);
        }
      }
      MallocBlocks(Geo(), old(st), st, old(mem), mem, ptr, size);
      Aligned8(Geo(), st, mem, ptr);
    }

    /** `free`: exactly the given block goes; the others keep their contents. */
    method Free(ptr: nat)
      requires Valid() && (ptr == 0 || LiveAt(Geo(), st, ptr))
      modifies `mem, `caches, `st
      ensures Valid() && st == HeapOps.Free(Geo(), old(st), ptr)
      ensures Contents() == old(Contents()) - {ptr}
    {
      hide Load, MetaRep, SlabsRep, ListsRep, ListsApart, WeakInv, LowestRun, Only, UsedBut, Blocks, LiveAt, InUse, QuietBut;
      HeapOps.FreeCorrect(Geo(), st, ptr);
      HeapOps.FreeCases(Geo(), st, ptr);
      KeptBlocks(Geo(), st, mem, ptr);
      if ptr == 0 { return; }
      var idx := VirtToPageIdx(ptr);
      FreeReads(Geo(), mem, cachesAddr, caches, st, ptr);
      if idx < totalPages {
        var kind := Load(mem, heapStart + 4 * idx, 1);
        if kind == 1 {
          var slab := ptr / 4096 * 4096;
          var cache := Load(mem, slab + OFF_CACHE, 8);
          if cache != 0 {
            CacheFree((cache - cachesAddr) / 32, ptr, idx, IndexAt(st.slabs[idx].cls, ptr - Geo().PageAddr(idx)));
          }
        } else if kind == 2 {
          FreePagesBackend(ptr);
          MetaQuiet(Geo(), old(mem), mem, old(st).slabs.Keys);
          QuietWider(Geo(), old(mem), mem, old(st).slabs.Keys, ptr, ptr + 8);
        }
      }
      FreeBlocks(Geo(), old(st), st, old(mem), mem, ptr);
    }

    /** A client writes byte `i` of the block at `ptr`; the allocator's own data is out of its reach. */
    method ClientStore(ptr: nat, i: nat, v: byte)
      requires Valid() && LiveAt(Geo(), st, ptr) && i < SizeAt(Geo(), st, ptr)
      modifies `mem
      ensures Valid() && ptr in old(Contents()) && i < |old(Contents())[ptr]|
      ensures Contents() == old(Contents())[ptr := SetByte(old(Contents())[ptr], i, v)]
    {
      hide Load, Rep, WeakInv, UsedBut, LiveAt, SizeAt, Blocks, Slice;
      BlockHas(Geo(), st, mem, ptr);
      mem := SetByte(mem, ptr + i, v);
      ClientWrite(Geo(), old(mem), mem, cachesAddr, caches, st, ptr, ptr + i, ptr + i + 1);
      BlocksWritten(Geo(), st, old(mem), mem, ptr);
      SliceSet(old(mem), ptr, SizeAt(Geo(), st, ptr), i, v);
      SliceIs(Geo(), st, old(mem), ptr);
    }

    /** The loop of `memcpy`. */
    method MemCopy(dst: nat, src: nat, n: nat)
      requires src + n <= |mem| && dst + n <= |mem| && (dst + n <= src || src + n <= dst)
      modifies `mem
      ensures Only(old(mem), mem, dst, dst + n)
      ensures mem[dst..dst + n] == old(mem)[src..src + n]
    {
      for i := 0 to n
        invariant Only(old(mem), mem, dst, dst + n)
        invariant mem[dst..dst + i] == old(mem)[src..src + i]
      {
        CopyStep(mem, old(mem), dst, src, i);
        mem := SetByte(mem, dst + i, mem[src + i]);
      }
    }

    /** Copies the contents of block `ptr` to the front of the larger block `r`. */
    method CopyBlock(r: nat, ptr: nat, n: nat)
      requires Valid() && ptr in Contents() && r in Contents() && r != ptr
      requires n == |Contents()[ptr]| <= |Contents()[r]|
      modifies `mem
      ensures Valid() && r in Contents() && |Contents()[r]| == |old(Contents())[r]|
      ensures Contents()[r][..n] == old(Contents())[ptr]
      ensures Contents() == old(Contents())[r := Contents()[r]]
    {
      hide Load, Rep, WeakInv, UsedBut, LiveAt, SizeAt, Blocks, Slice;
      BlockLive(Geo(), st, mem, ptr);
      BlockLive(Geo(), st, mem, r);
      if r < ptr { HeapRuns.LiveDisjoint(Geo(), st, r, ptr); } else { HeapRuns.LiveDisjoint(Geo(), st, ptr, r); }
      MemCopy(r, ptr, n);
      ClientWrite(Geo(), old(mem), mem, cachesAddr, caches, st, r, r, r + n);
      BlocksWritten(Geo(), st, old(mem), mem, r);
      BlockHas(Geo(), st, mem, r);
      Prefix(mem, r, SizeAt(Geo(), st, r), n);
    }

    /** The usable size of a live block, as `realloc` reads it. */
    method OldSize(ptr: nat) returns (n: nat)
      requires Valid() && LiveAt(Geo(), st, ptr) && ptr != 0
      ensures n == SizeAt(Geo(), st, ptr)
    {
      hide Load, MetaRep, SlabsRep, ListsRep, ListsApart, WeakInv, UsedBut, Only;
      FreeReads(Geo(), mem, cachesAddr, caches, st, ptr);
      n := 0;
      var idx := VirtToPageIdx(ptr);
      if idx < totalPages {
        var kind := Load(mem, heapStart + 4 * idx, 1);
        if kind == 1 {
          var cache := Load(mem, ptr / 4096 * 4096 + OFF_CACHE, 8);
          if cache != 0 {
            assert cache == cachesAddr + 32 * st.slabs[idx].cls;
            n := caches[(cache - cachesAddr) / 32].objSize;
          }
        } else if kind == 2 {
          n := Load(mem, heapStart + 4 * idx + 2, 2) * 4096;
        }
      }
    }

    /**
     `realloc`: without a block it allocates, to size 0 it frees. Otherwise the block stays if it is
     large enough, or its contents move to a new block, or NULL comes back and the old block stays.
     No other block changes.
     */
    method Realloc(ptr: nat, newSize: nat) returns (r: nat)
      requires Valid() && newSize < WORD && (ptr == 0 || LiveAt(Geo(), st, ptr))
      modifies `mem, `caches, `st
      ensures Valid() && (st, r) == HeapRuns.Realloc(Geo(), old(st), ptr, newSize)
      ensures ptr == 0 && r == 0 ==> HeapOps.Exhausted(old(st), newSize) && Contents() == old(Contents())
      ensures ptr == 0 && r != 0 ==>
                && r !in old(Contents()) && r in Contents() && Contents() - {r} == old(Contents())
                && newSize <= |Contents()[r]| == HeapOps.Usable(newSize) && r % 8 == 0
      ensures ptr != 0 && newSize == 0 ==> r == 0 && Contents() == old(Contents()) - {ptr}
      ensures ptr != 0 && newSize != 0 ==> ptr in old(Contents())
      ensures ptr != 0 && newSize != 0 && newSize <= |old(Contents())[ptr]| ==> r == ptr && Contents() == old(Contents())
      ensures ptr != 0 && newSize > |old(Contents())[ptr]| && r == 0 ==>
                HeapOps.Exhausted(old(st), newSize) && Contents() == old(Contents())
      ensures ptr != 0 && newSize > |old(Contents())[ptr]| && r != 0 ==>
                && r !in old(Contents()) && r in Contents() && Contents() - {r} == old(Contents()) - {ptr}
                && newSize <= |Contents()[r]| == HeapOps.Usable(newSize) && r % 8 == 0
                && Contents()[r][..|old(Contents())[ptr]|] == old(Contents())[ptr]
    {
      hide Load, Rep, WeakInv, UsedBut, LiveAt, SizeAt, Blocks, LowestRun;
      if ptr == 0 {
        r := Malloc(newSize);
        return;
      }
      BlockHas(Geo(), st, mem, ptr);
      if newSize == 0 {
        Free(ptr);
        return 0;
      }
      r := Grow(ptr, newSize);
    }

    /** `realloc` of a live block to a nonzero size. */
    method Grow(ptr: nat, newSize: nat) returns (r: nat)
      requires Valid() && 0 < newSize < WORD && ptr in Contents() && ptr != 0
      modifies `mem, `caches, `st
      ensures LiveAt(Geo(), old(st), ptr) && Valid() && (st, r) == HeapRuns.Realloc(Geo(), old(st), ptr, newSize)
      ensures newSize <= |old(Contents())[ptr]| ==> r == ptr && Contents() == old(Contents())
      ensures newSize > |old(Contents())[ptr]| && r == 0 ==>
                HeapOps.Exhausted(old(st), newSize) && Contents() == old(Contents())
      ensures newSize > |old(Contents())[ptr]| && r != 0 ==>
                && r !in old(Contents()) && r in Contents() && Contents() - {r} == old(Contents()) - {ptr}
                && newSize <= |Contents()[r]| == HeapOps.Usable(newSize) && r % 8 == 0
                && Contents()[r][..|old(Contents())[ptr]|] == old(Contents())[ptr]
    {
      hide Load, Rep, WeakInv, UsedBut, LiveAt, SizeAt, Blocks, LowestRun;
      BlockLive(Geo(), st, mem, ptr);
      HeapRuns.ReallocCases(Geo(), st, ptr, newSize);
      var oldSize := OldSize(ptr);
      if oldSize >= newSize {
        return ptr;
      }
      r := Malloc(newSize);
      ghost var mid := Contents();
      if r != 0 {
        Move(r, ptr, oldSize);
        Moved(old(Contents()), mid, Contents(), ptr, r);
      }
    }

    /** The second half of `realloc`: copy to the new block, free the old one. */
    method Move(r: nat, ptr: nat, n: nat)
      requires Valid() && ptr in Contents() && r in Contents() && r != ptr && ptr != 0
      requires n == |Contents()[ptr]| <= |Contents()[r]|
      modifies `mem, `caches, `st
      ensures LiveAt(Geo(), old(st), ptr) && st == HeapOps.Free(Geo(), old(st), ptr)
      ensures Valid() && r in Contents() && |Contents()[r]| == |old(Contents())[r]|
      ensures Contents()[r][..n] == old(Contents())[ptr]
      ensures Contents() == old(Contents())[r := Contents()[r]] - {ptr}
    {
      hide Load, Rep, WeakInv, UsedBut, LiveAt, SizeAt, Blocks;
      BlockLive(Geo(), st, mem, r);
      BlockLive(Geo(), st, mem, ptr);
      CopyBlock(r, ptr, n);
      Free(ptr);
    }
  }

  lemma NoBlocks(g: Geometry, st: State, m: seq<byte>)
    requires Inv(g, st) && WeakInv(g, st) && Blocks(g, st, m) == map[]
    ensures Live(g, st) == map[]
  {
    hide WeakInv, Live;
    assert Blocks(g, st, m).Keys == Live(g, st).Keys;
  }

  lemma Prefix(m: seq<byte>, a: nat, n: nat, k: nat)
    requires a + n <= |m| && k <= n
    ensures m[a..a + n][..k] == m[a..a + k]
  {
  }

  lemma CopyStep(m: seq<byte>, k: seq<byte>, d: nat, s: nat, i: nat)
    requires |m| == |k| && d + i < |m| && s + i < |m| && m[s + i] == k[s + i] && m[d..d + i] == k[s..s + i]
    ensures SetByte(m, d + i, m[s + i])[d..d + i + 1] == k[s..s + i + 1]
  {
    var n := SetByte(m, d + i, m[s + i]);
    assert n[d..d + i + 1] == m[d..d + i] + [k[s + i]];
    assert k[s..s + i + 1] == k[s..s + i] + [k[s + i]];
  }

  function SetByte(s: seq<byte>, i: nat, v: byte): (r: seq<byte>)
    requires i < |s|
    ensures |r| == |s| && forall j {:trigger r[j]} :: 0 <= j < |s| ==> r[j] == if j == i then v else s[j]
  {
    s[i := v]
  }

  lemma BlockLive(g: Geometry, st: State, m: seq<byte>, a: nat)
    requires WeakInv(g, st) && a in Blocks(g, st, m) && g.End() <= |m|
    ensures LiveAt(g, st, a) && |Blocks(g, st, m)[a]| == SizeAt(g, st, a)
    ensures a + SizeAt(g, st, a) <= |m| && Blocks(g, st, m)[a] == m[a..a + SizeAt(g, st, a)]
  {
    hide WeakInv, LiveAt, SizeAt;
    BlockHas(g, st, m, a);
  }

  lemma SliceIs(g: Geometry, st: State, m: seq<byte>, a: nat)
    requires WeakInv(g, st) && LiveAt(g, st, a)
    ensures a in Blocks(g, st, m) && Blocks(g, st, m)[a] == Slice(m, a, SizeAt(g, st, a))
  {
    hide WeakInv, LiveAt, SizeAt;
    LiveHere(g, st, a);
  }

  lemma SliceSet(m: seq<byte>, a: nat, n: nat, i: nat, v: byte)
    requires a + n <= |m| && i < n
    ensures Slice(SetByte(m, a + i, v), a, n) == SetByte(Slice(m, a, n), i, v)
  {
  }

  /** Blocks before and after a move from `a` to `r`. */
  lemma Moved(was: map<nat, seq<byte>>, mid: map<nat, seq<byte>>, now: map<nat, seq<byte>>, a: nat, r: nat)
    requires a in was && r !in was && mid - {r} == was && r in now && now == mid[r := now[r]] - {a}
    ensures now - {r} == was - {a}
  {
  }

  /** What `free` reads for a live pointer. */
  lemma FreeReads(g: Geometry, m: seq<byte>, ca: nat, caches: seq<KmemCache>, st: State, a: nat)
    requires Rep(g, m, ca, caches, st) && Inv(g, st) && LiveAt(g, st, a) && g.End() <= |m| && a != 0 && ca > 0
    ensures var p := g.PageOf(a);
            && g.start <= a < g.End() && p < g.pages == |st.pages| && g.start + 4 * g.pages <= |m|
            && Load(m, g.start + 4 * p, 1) == (if st.pages[p].kind == SlabKind then 1 else 2)
            && (st.pages[p].kind == LargeKind ==>
                  && Load(m, g.start + 4 * p + 2, 2) == CountOf(st.pages[p], p) == st.pages[p].len > 0
                  && p + st.pages[p].len <= g.pages)
            && (st.pages[p].kind == SlabKind ==>
                  && p in st.slabs && a / 4096 * 4096 == g.PageAddr(p) && g.PageAddr(p + 1) <= |m|
                  && st.slabs[p].cls < CACHES
                  && Load(m, g.PageAddr(p) + OFF_CACHE, 8) == ca + 32 * st.slabs[p].cls)
  {
    hide Load, WeakInv, LiveAt, SlabsRep, ListsRep, ListsApart, HeadsRep, UsedBut, MetaRep;
    LiveInHeap(g, st, a);
    var p := g.PageOf(a);
    LivePage(g, st, a);
    MetaHere(g, m, st.pages, p);
    if st.pages[p].kind == SlabKind {
      HeadLink(g, m, ca, caches, st, p);
    }
  }

  lemma LiveInHeap(g: Geometry, st: State, a: nat)
    requires WeakInv(g, st) && LiveAt(g, st, a)
    ensures g.start <= a < g.End()
  {
  }

  lemma MetaHere(g: Geometry, m: seq<byte>, pages: seq<Page>, p: nat)
    requires MetaRep(g, m, pages) && p < |pages| && g.Valid()
    ensures g.End() <= |m| && |pages| == g.pages && g.start + 4 * g.pages <= |m| && MetaAt(g, m, pages[p], p)
  {
    hide Load;
    assert MetaAt(g, m, pages[p], p);
  }

  lemma LivePage(g: Geometry, st: State, a: nat)
    requires WeakInv(g, st) && LiveAt(g, st, a)
    ensures var p := g.PageOf(a);
            && p < g.pages == |st.pages| && st.pages[p].Run?
            && (st.pages[p].kind == LargeKind ==> st.pages[p].head == p && st.pages[p].len > 0 && p + st.pages[p].len <= g.pages)
            && (st.pages[p].kind == SlabKind ==> p in st.slabs && a / 4096 * 4096 == g.PageAddr(p))
  {
    HeapRuns.SameRun(g, st, g.PageOf(a), g.PageOf(a));
    PageBase(g, g.PageOf(a), (a - g.start) % 4096);
  }

  lemma KeptBlocks(g: Geometry, st: State, m: seq<byte>, a: nat)
    requires Inv(g, st)
    ensures a == 0 ==> Blocks(g, st, m) == Blocks(g, st, m) - {a}
  {
    if a == 0 {
      HeapOps.FreeCases(g, st, a);
    }
  }

  lemma InvWeak(g: Geometry, st: State)
    requires Inv(g, st)
    ensures WeakInv(g, st)
  {
  }

  /** Every block has room for a free-list link. */
  lemma HoldsLink(g: Geometry, st: State, r: nat)
    requires WeakInv(g, st) && LiveAt(g, st, r)
    ensures SizeAt(g, st, r) >= 8
  {
    HeapRuns.SameRun(g, st, g.PageOf(r), g.PageOf(r));
    if st.pages[g.PageOf(r)].kind == SlabKind {
      ClassFacts(st.slabs[g.PageOf(r)].cls);
    }
  }

  lemma QuietWider(g: Geometry, m: seq<byte>, n: seq<byte>, hdr: set<nat>, lo: nat, hi: nat)
    requires Quiet(g, m, n, hdr)
    ensures QuietBut(g, m, n, hdr, lo, hi)
  {
  }

  lemma FreeBlocks(g: Geometry, st: State, t: State, m: seq<byte>, n: seq<byte>, r: nat)
    requires Inv(g, st) && Inv(g, t) && LiveAt(g, st, r) && r != 0 && t == HeapOps.Free(g, st, r) && g.End() <= |m|
    requires QuietBut(g, m, n, st.slabs.Keys, r, r + 8)
    ensures Blocks(g, t, n) == Blocks(g, st, m) - {r}
  {
    hide *;
    InvWeak(g, st);
    InvWeak(g, t);
    HeapOps.FreeCorrect(g, st, r);
    HoldsLink(g, st, r);
    BlocksRemoved(g, st, t, m, n, r, 8);
  }

  lemma KeptSame(g: Geometry, st: State, m: seq<byte>)
    requires WeakInv(g, st)
    ensures UserKept(g, st, m, m)
  {
  }

  lemma ListCount(g: Geometry, st: State)
    requires Inv(g, st)
    ensures |st.partial| == |st.full| == CACHES && WeakInv(g, st)
  {
  }

  lemma MetaUser(g: Geometry, st: State, m: seq<byte>, n: seq<byte>)
    requires WeakInv(g, st) && Only(m, n, g.start, g.start + 4 * g.pages)
    ensures UserKept(g, st, m, n)
  {
    MetaQuiet(g, m, n, st.slabs.Keys);
    QuietUser(g, st, m, n);
  }

  /** What a successful or failed `malloc` does to the blocks. */
  lemma MallocBlocks(g: Geometry, st: State, t: State, m: seq<byte>, n: seq<byte>, r: nat, size: nat)
    requires Inv(g, st) && Inv(g, t) && UserKept(g, st, m, n) && g.End() <= |m| && size < WORD
    requires (t, r) == HeapOps.Malloc(g, st, size)
    ensures r == 0 ==> Blocks(g, t, n) == Blocks(g, st, m)
    ensures r != 0 ==>
              && r !in Blocks(g, st, m) && r in Blocks(g, t, n) && Blocks(g, t, n) - {r} == Blocks(g, st, m)
              && size <= |Blocks(g, t, n)[r]| == HeapOps.Usable(size)
  {
    hide WeakInv, UserKept, LowestRun, UsedBut;
    HeapOps.MallocCorrect(g, st, size);
    if r == 0 {
      BlocksSame(g, st, m, n);
    } else {
      BlocksAdded(g, st, t, m, n, r, HeapOps.Usable(size));
    }
  }

  lemma Aligned8(g: Geometry, st: State, m: seq<byte>, a: nat)
    requires Inv(g, st)
    ensures a in Blocks(g, st, m) ==> a % 8 == 0
  {
    hide WeakInv, UsedBut, Live;
    if a in Blocks(g, st, m) {
      assert Blocks(g, st, m).Keys == Live(g, st).Keys;
      HeapClient.LiveAligned(g, st, a);
    }
  }

  lemma QuietSame(g: Geometry, m: seq<byte>, hdr: set<nat>)
    ensures Quiet(g, m, m, hdr)
  {
  }

  lemma RepDrop(g: Geometry, m: seq<byte>, ca: nat, caches: seq<KmemCache>, st: State, p: nat)
    requires Rep(g, m, ca, caches, st)
    ensures Rep(g, m, ca, caches, st.(slabs := st.slabs - {p})) && |st.pages| == g.pages
  {
    hide Load, SlabRep, ListsRep, ListsApart;
  }

  /** Rounding an object's address down to a page gives its slab. */
  lemma ObjectPage(g: Geometry, st: State, p: nat, k: nat)
    requires Inv(g, st) && p in st.slabs && InUse(st.slabs[p], k)
    ensures ObjAddr(g, p, st.slabs[p].cls, k) / 4096 * 4096 == g.PageAddr(p)
    ensures |st.slabs[p].free| < Capacity(st.slabs[p].cls) && WeakInv(g, st)
  {
    hide ObjSize, Capacity, PagesOk, ListsOk;
    var c := st.slabs[p].cls;
    ClassFacts(c);
    ObjectFacts(c, k, 0);
    PageBase(g, p, ObjOff(c, k));
  }

  /** What the list moves of `CacheFree` need. */
  lemma RelistNeeds(g: Geometry, was: State, p: nat, k: nat)
    requires WeakInv(g, was) && p in was.slabs && InUse(was.slabs[p], k)
    ensures var c := was.slabs[p].cls;
            var full := was.slabs[p].free == [];
            var t := was.(slabs := was.slabs[p := Slab(c, [k] + was.slabs[p].free)]);
            && c < CACHES && g.Valid()
            && |was.partial| == |was.full| == CACHES && g.MetaPages() <= p < g.pages == |was.pages|
            && was.pages[p] == Run(SlabKind, p, 1)
            && t.slabs.Keys == was.slabs.Keys
            && (forall q :: q in was.partial[c] ==> q in was.slabs) && (forall q :: q in was.full[c] ==> q in was.slabs)
            && p in ListOf(was, full, c)
            && OnNoList(WithList(t, full, c, Without(ListOf(was, full, c), p)), p)
  {
    var c := was.slabs[p].cls;
    var full := was.slabs[p].free == [];
    assert PartialOk(was, c) && FullOk(was, c);
    assert InPartial(was, c, p) || InFull(was, c, p);
    MetaKind(g, was.pages, p);
    Unlinked(g, was, full, c, p);
  }

  /** What the list moves of `CacheFree` add up to. */
  lemma RelistValue(g: Geometry, was: State, p: nat, k: nat)
    requires WeakInv(g, was) && p in was.slabs && InUse(was.slabs[p], k) && |was.partial| == |was.full| == CACHES
    ensures was.slabs[p].cls < CACHES
    ensures var c := was.slabs[p].cls;
            var full := was.slabs[p].free == [];
            var t := was.(slabs := was.slabs[p := Slab(c, [k] + was.slabs[p].free)]);
            var u := WithList(t, full, c, Without(ListOf(was, full, c), p));
            HeapOps.CacheFree(g, was, p, k) ==
              if |was.slabs[p].free| + 1 == Capacity(c) then u.(slabs := u.slabs - {p}, pages := WithoutRun(u.pages, p, 1))
              else if full then WithList(u, false, c, [p] + was.partial[c])
              else t
  {
    hide WeakInv, Capacity, WithoutRun, SlabOk;
    assert was.slabs[p].cls < CACHES by { SlabClass(g, was, p); }
    var c := was.slabs[p].cls;
    PutInv(g, was, p, k);
    assert Without([p] + was.partial[c], p) == was.partial[c];
    assert was.partial[c := [p] + was.partial[c]][c := was.partial[c]] == was.partial;
  }

  lemma SlabClass(g: Geometry, st: State, p: nat)
    requires WeakInv(g, st) && p in st.slabs
    ensures st.slabs[p].cls < CACHES
  {
  }

  /** The head of a list in the cache is NULL just when the list is empty. */
  lemma HeadNode(g: Geometry, m: seq<byte>, ca: nat, caches: seq<KmemCache>, st: State, full: bool, c: nat)
    requires Rep(g, m, ca, caches, st) && c < CACHES
    ensures |caches| == |st.partial| == |st.full| == CACHES
    ensures caches[c].slabsFree == 0 && caches[c].objSize == ObjSize(c)
    ensures var a := if full then caches[c].slabsFull else caches[c].slabsPartial;
            var l := ListOf(st, full, c);
            (a == 0 <==> l == []) && (l != [] ==> a == g.PageAddr(l[0]))
  {
    hide Load;
    var l := ListOf(st, full, c);
    assert ListRep(g, m, l);
    assert l != [] ==> NodeAt(g, m, l, 0);
  }

  lemma CacheAllocQuiet(g: Geometry, st: State, t: State, c: nat, k: seq<byte>, m: seq<byte>, n: seq<byte>)
    requires WeakInv(g, st) && c < CACHES && UserKept(g, st, k, m) && Quiet(g, m, n, t.slabs.Keys)
    requires t == st || (LowestRun(st.pages, 1, 0).Some? && t == Fresh(st, c, LowestRun(st.pages, 1, 0).value))
    ensures UserKept(g, st, k, n)
  {
    if t == st {
      QuietUser(g, st, m, n);
    } else {
      var p := LowestRun(st.pages, 1, 0).value;
      assert t.slabs.Keys == st.slabs.Keys + {p};
      FreshQuiet(g, st, p, k, m, m, n);
    }
  }

  /** The free list head of a slab in memory is NULL just when no object is free. */
  lemma HeadLink(g: Geometry, m: seq<byte>, ca: nat, caches: seq<KmemCache>, st: State, p: nat)
    requires Rep(g, m, ca, caches, st) && p in st.slabs
    ensures p < g.pages && g.PageAddr(p + 1) <= |m|
    ensures Load(m, g.PageAddr(p) + OFF_FREE, 8) == 0 <==> st.slabs[p].free == []
    ensures Load(m, g.PageAddr(p) + OFF_MAGIC, 4) == SLAB_MAGIC
    ensures st.slabs[p].cls < CACHES && Load(m, g.PageAddr(p) + OFF_CACHE, 8) == ca + 32 * st.slabs[p].cls
    ensures Load(m, g.PageAddr(p) + OFF_IN_USE, 4) == Capacity(st.slabs[p].cls) - |st.slabs[p].free|
  {
    hide Load;
    assert SlabRep(g, m, ca, p, st.slabs[p]);
    LinkInWord(g, p, st.slabs[p], 0);
  }

  /** What `Take` finds at the head of the partial list. */
  lemma TakeHead(g: Geometry, st: State, c: nat)
    requires WeakInv(g, st) && c < CACHES && st.partial[c] != []
    ensures |st.partial| == |st.full| == CACHES && g.MetaPages() <= st.partial[c][0] < g.pages
    ensures var p := st.partial[c][0];
            p in st.slabs && st.slabs[p].free != [] && st.slabs[p].cls == c
    ensures (forall q :: q in st.partial[c] ==> q in st.slabs) && (forall q :: q in st.full[c] ==> q in st.slabs)
  {
    PartialHead(st, c);
    forall q | q in st.partial[c] ensures q in st.slabs { ListInSlabs(g, st, false, c, q); }
    forall q | q in st.full[c] ensures q in st.slabs { ListInSlabs(g, st, true, c, q); }
    MetaKind(g, st.pages, st.partial[c][0]);
  }

  /** `Take` step by step: what its writes add up to. */
  lemma TakeCases(g: Geometry, st: State, c: nat, p: nat, s: Slab)
    requires WeakInv(g, st) && c < CACHES == |st.partial| == |st.full| && st.partial[c] != [] && p == st.partial[c][0]
    requires p in st.slabs && s == st.slabs[p] && s.free != [] && s.cls == c
    ensures var t := st.(slabs := st.slabs[p := Slab(c, s.free[1..])]);
            var u := WithList(t, false, c, Without(st.partial[c], p));
            && t.slabs.Keys == st.slabs.Keys && OnNoList(u, p)
            && Take(g, st, c) == (if s.free[1..] == [] then WithList(u, true, c, [p] + st.full[c]) else t, ObjAddr(g, p, c, s.free[0]))
  {
    Unlinked(g, st, false, c, p);
    assert Without(st.partial[c], p) == st.partial[c][1..];
  }

  lemma PutReads(g: Geometry, m: seq<byte>, ca: nat, p: nat, s: Slab, k: nat)
    requires g.Valid() && p < g.pages && g.End() <= |m| && SlabRep(g, m, ca, p, s) && InUse(s, k) && |s.free| < Capacity(s.cls)
    ensures g.PageAddr(p) + HEADER_SIZE <= |m| && ObjAddr(g, p, s.cls, k) + 8 <= |m|
    ensures Load(m, g.PageAddr(p) + OFF_FREE, 8) == LinkAddr(g, p, s, 0)
    ensures var m1 := Store(m, ObjAddr(g, p, s.cls, k), 8, LinkAddr(g, p, s, 0));
            var m2 := Store(m1, g.PageAddr(p) + OFF_FREE, 8, ObjAddr(g, p, s.cls, k));
            Load(m2, g.PageAddr(p) + OFF_IN_USE, 4) == Capacity(s.cls) - |s.free|
  {
    hide Load, Store;
    CellBounds(g, p, s.cls, k);
  }

  /** The heap value after object `k` of slab `p` is put back. */
  lemma PutDone(g: Geometry, m: seq<byte>, ca: nat, caches: seq<KmemCache>, st: State, p: nat, k: nat)
    requires Rep(g, m, ca, caches, st) && p in st.slabs && p < g.pages && g.End() <= |m|
    requires InUse(st.slabs[p], k) && |st.slabs[p].free| < Capacity(st.slabs[p].cls)
    ensures var s := st.slabs[p];
            var n := PutMem(g, m, p, s, k);
            var a := ObjAddr(g, p, s.cls, k);
            && Rep(g, n, ca, caches, st.(slabs := st.slabs[p := Slab(s.cls, [k] + s.free)]))
            && QuietBut(g, m, n, st.slabs.Keys, a, a + 8)
  {
    hide Load, Store, ListsRep, ListsApart, HeadsRep, MetaRep, PutMem, SlabRep;
    var s := st.slabs[p];
    var n := PutMem(g, m, p, s, k);
    PutMemRep(g, m, ca, p, s, k);
    CellBounds(g, p, s.cls, k);
    PageWrite(g, m, n, ca, caches, st, p, Slab(s.cls, [k] + s.free), g.PageAddr(p) + OFF_FREE);
  }

  lemma FreshQuiet(g: Geometry, st: State, p: nat, k: seq<byte>, m: seq<byte>, n: seq<byte>, o: seq<byte>)
    requires WeakInv(g, st) && FreeRun(st.pages, p, 1) && UserKept(g, st, k, m)
    requires Only(m, n, g.PageAddr(p), g.PageAddr(p + 1)) && Quiet(g, n, o, st.slabs.Keys + {p})
    ensures UserKept(g, st, k, o)
  {
    assert st.pages[p] == FreePage;
    forall x: nat | x < |k| && UserByte(g, st, x)
      ensures o[x] == k[x]
    {
      UserSpared(g, st, x);
      assert n[x] == m[x];
    }
  }

  /** A page taken for a slab was free, so it was on no list and held no client data. */
  lemma FreshPage(g: Geometry, st: State, m: seq<byte>, n: seq<byte>)
    requires WeakInv(g, st) && Only(m, n, g.start, g.start + 4 * g.pages)
    ensures UserKept(g, st, m, n) && |st.partial| == |st.full| == CACHES
    ensures LowestRun(st.pages, 1, 0).Some? ==>
              var p := LowestRun(st.pages, 1, 0).value;
              && g.MetaPages() <= p < g.pages && g.PageAddr(p) != 0 && p !in st.slabs && OnNoList(st, p)
              && OnNoList(st.(pages := WithRun(st.pages, p, 1, SlabKind)), p)
  {
    MetaQuiet(g, m, n, st.slabs.Keys);
    QuietUser(g, st, m, n);
    if LowestRun(st.pages, 1, 0).Some? {
      var p := LowestRun(st.pages, 1, 0).value;
      assert st.pages[p] == FreePage;
      FreeOnNoList(g, st, p);
    }
  }

  lemma PushBounds(g: Geometry, m: seq<byte>, l: seq<nat>, p: nat)
    requires g.Valid() && ListRep(g, m, l) && p < g.pages
    ensures g.PageAddr(p) + OFF_CACHE <= |m|
    ensures |l| > 0 ==> 0 < g.PageAddr(l[0]) && g.PageAddr(l[0]) + OFF_CACHE <= |m|
  {
    assert |l| > 0 ==> NodeAt(g, m, l, 0);
  }

  lemma TakeReads(g: Geometry, m: seq<byte>, ca: nat, p: nat, s: Slab)
    requires g.Valid() && p < g.pages && g.End() <= |m| && SlabRep(g, m, ca, p, s) && s.free != []
    ensures Load(m, g.PageAddr(p) + OFF_FREE, 8) == ObjAddr(g, p, s.cls, s.free[0]) == LinkAddr(g, p, s, 0)
    ensures ObjAddr(g, p, s.cls, s.free[0]) + 8 <= |m|
    ensures Load(m, ObjAddr(g, p, s.cls, s.free[0]), 8) == LinkAddr(g, p, s, 1)
    ensures Load(Store(m, g.PageAddr(p) + OFF_FREE, 8, LinkAddr(g, p, s, 1)), g.PageAddr(p) + OFF_IN_USE, 4) == Capacity(s.cls) - |s.free|
  {
    hide Load, Store;
    assert CellAt(g, m, p, s, 0) && s.free[0] in s.free;
    CellBounds(g, p, s.cls, s.free[0]);
  }

  /** The heap value after the first free object of slab `p` is taken. */
  lemma TakeDone(g: Geometry, m: seq<byte>, ca: nat, caches: seq<KmemCache>, st: State, p: nat)
    requires Rep(g, m, ca, caches, st) && p in st.slabs && p < g.pages && g.End() <= |m| && SlabOk(st.slabs[p]) && st.slabs[p].free != []
    ensures var s := st.slabs[p];
            var n := TakeMem(g, m, p, s);
            && Rep(g, n, ca, caches, st.(slabs := st.slabs[p := Slab(s.cls, s.free[1..])]))
            && Quiet(g, m, n, st.slabs.Keys)
  {
    hide Load, Store, ListsRep, ListsApart, HeadsRep, MetaRep, TakeMem, SlabRep;
    var s := st.slabs[p];
    var n := TakeMem(g, m, p, s);
    TakeMemRep(g, m, ca, p, s);
    PageWrite(g, m, n, ca, caches, st, p, Slab(s.cls, s.free[1..]), g.PageAddr(p) + OFF_FREE);
  }

  /** What the unlink code reads from slab `l[i]`, before and after its first write. */
  lemma UnlinkReads(g: Geometry, m: seq<byte>, l: seq<nat>, i: nat)
    requires g.Valid() && ListRep(g, m, l) && i < |l|
    ensures g.PageAddr(l[i]) + OFF_CACHE <= |m|
    ensures Load(m, g.PageAddr(l[i]) + OFF_PREV, 8) == NodeAddr(g, l, i - 1)
    ensures Load(m, g.PageAddr(l[i]) + OFF_NEXT, 8) == NodeAddr(g, l, i + 1)
    ensures i > 0 ==> 0 < g.PageAddr(l[i - 1]) && g.PageAddr(l[i - 1]) + OFF_CACHE <= |m|
    ensures i + 1 < |l| ==> 0 < g.PageAddr(l[i + 1]) && g.PageAddr(l[i + 1]) + OFF_CACHE <= |m|
    ensures i > 0 ==>
              var n := Store(m, g.PageAddr(l[i - 1]) + OFF_NEXT, 8, NodeAddr(g, l, i + 1));
              && Load(n, g.PageAddr(l[i]) + OFF_PREV, 8) == NodeAddr(g, l, i - 1)
              && Load(n, g.PageAddr(l[i]) + OFF_NEXT, 8) == NodeAddr(g, l, i + 1)
    ensures NodeAddr(g, l[..i] + l[i + 1..], 0) == if i == 0 then NodeAddr(g, l, 1) else NodeAddr(g, l, 0)
  {
    hide Load, Store;
    assert NodeAt(g, m, l, i);
    assert i > 0 ==> NodeAt(g, m, l, i - 1);
    assert i + 1 < |l| ==> NodeAt(g, m, l, i + 1);
  }

  function AlignUp(a: nat): nat {
    (a + 4095) / 4096 * 4096
  }

  /** The metadata of `heap_init`: cleared, then the pages that hold it are reserved. */
  method ReserveMeta(ram: seq<byte>, start: nat, pages: nat) returns (m: seq<byte>)
    requires var g := Geometry(start, pages); g.Valid() && g.End() <= |ram| && g.MetaPages() <= pages && start + 4 * pages <= |ram|
    ensures |m| == |ram| && MetaRep(Geometry(start, pages), m, HeapRuns.Init(Geometry(start, pages)).pages)
    ensures Only(ram, m, start, start + 4 * pages)
  {
    hide Load, Store, MetaRep, Only;
    ghost var g := Geometry(start, pages);
    m := ram[..start] + seq(4 * pages, i => 0) + ram[start + 4 * pages..];
    ghost var was := seq(pages, i => FreePage);
    ghost var full := HeapRuns.Init(g).pages;
    ZeroMeta(g, ram, m);
    PaintEnds(was, full, 0, g.MetaPages());
    var metaPages := (pages * 4 + 4095) / 4096;
    for i := 0 to metaPages
      invariant MetaRep(g, m, Painted(was, full, i)) && Only(ram, m, start, start + 4 * pages) && |m| == |ram|
    {
      PaintStep(was, full, i);
      ghost var before := m;
      m := Store(m, start + 4 * i, 1, 2);
      m := Store(m, start + 4 * i + 2, 2, 1);
      MetaMemRep(g, before, Painted(was, full, i), i, full[i]);
      OnlyTrans(ram, before, m, start, start + 4 * pages);
    }
  }

  /** The lowest page boundary not below `start`, and the whole pages from there on. */
  lemma Aligned(start: nat, size: nat)
    ensures var aligned := AlignUp(start);
            var pages := if size < aligned - start then 0 else (size - (aligned - start)) / 4096;
            && aligned % 4096 == 0 && start <= aligned < start + 4096
            && (pages == 0 <==> start + size < aligned + 4096)
            && (pages > 0 ==> aligned + 4096 * pages <= start + size < aligned + 4096 * pages + 4096)
  {
    var aligned := AlignUp(start);
    DivUnique(aligned, 4096, (start + 4095) / 4096, 0);
  }

  lemma GeoFits(g: Geometry, start: nat, size: nat, n: nat)
    requires g.start == AlignUp(start) && 2 <= g.pages && start + size <= n && n < WORD && size < 65536 * 4096
    requires g.start - start <= size && g.pages == (size - (g.start - start)) / 4096
    ensures g.Valid() && g.End() <= n && g.MetaPages() <= g.pages && g.start + 4 * g.pages <= g.End()
  {
  }

  /** Zeroed metadata says that every page is free. */
  lemma ZeroMeta(g: Geometry, m: seq<byte>, n: seq<byte>)
    requires g.Valid() && g.End() <= |m| && g.start + 4 * g.pages <= |m|
    requires n == m[..g.start] + seq(4 * g.pages, i => 0) + m[g.start + 4 * g.pages..]
    ensures MetaRep(g, n, seq(g.pages, i => FreePage)) && Only(m, n, g.start, g.start + 4 * g.pages)
  {
    var pages := seq(g.pages, i => FreePage);
    forall i: nat | i < |pages|
      ensures MetaAt(g, n, pages[i], i)
    {
      assert Load(n, MetaAddr(g, i) + 3, 1) == 0;
      assert Load(n, MetaAddr(g, i) + 2, 2) == 0;
    }
  }

  /** The state that `heap_init` leaves in memory and caches. */
  lemma InitRep(g: Geometry, m: seq<byte>, ca: nat)
    requires g.Valid() && g.End() <= |m| && MetaRep(g, m, HeapRuns.Init(g).pages) && ca + 256 < WORD
    ensures Rep(g, m, ca, seq(CACHES, i requires 0 <= i < CACHES => KmemCache(0, 0, 0, ObjSize(i))), HeapRuns.Init(g))
    ensures Inv(g, HeapRuns.Init(g)) && Blocks(g, HeapRuns.Init(g), m) == map[]
  {
    HeapRuns.InitInv(g);
  }

  /** The first object of a slab page starts right behind the header, and the count of objects is the capacity. */
  lemma FirstObject(g: Geometry, p: nat, c: nat)
    requires g.Valid() && c < CACHES
    ensures ObjSize(c) > 0
    ensures (g.PageAddr(p) + HEADER_SIZE + 7) / 8 * 8 == g.PageAddr(p) + HEADER_SIZE == ObjAddr(g, p, c, 0)
    ensures (4096 - HEADER_SIZE) / ObjSize(c) == Capacity(c)
  {
    hide ObjSize, ObjOff, Capacity;
    ClassFacts(c);
    ZeroObject(c);
    RoundsToItself(g, p);
    CapacityIs(c);
  }

  lemma RoundsToItself(g: Geometry, p: nat)
    requires g.Valid()
    ensures (g.PageAddr(p) + 47) / 8 * 8 == g.PageAddr(p) + 40
  {
    var q := g.start / 4096;
    assert g.start == q * 4096;
    DivUnique(g.PageAddr(p) + 47, 8, q * 512 + p * 512 + 5, 7);
  }

  lemma CapacityIs(c: nat)
    requires c < CACHES
    ensures ObjSize(c) > 0 && 4056 / ObjSize(c) == Capacity(c)
  {
    hide ObjSize;
    ClassFacts(c);
  }

  lemma ZeroObject(c: nat)
    requires c < CACHES
    ensures ObjOff(c, 0) == HEADER_SIZE
  {
    hide ObjSize;
  }

  lemma FirstFit(pages: seq<Page>, n: nat, s: nat)
    requires 0 < n && FreeRun(pages, s, n) && forall r: nat :: r < s ==> !FreeRun(pages, r, n)
    ensures LowestRun(pages, n, 0) == Some(s)
  {
  }

  /** The first `k` entries of `full` and the rest of `pages`. */
  ghost function Painted(pages: seq<Page>, full: seq<Page>, k: nat): (r: seq<Page>)
    requires k <= |pages| == |full|
    ensures |r| == |pages|
  {
    full[..k] + pages[k..]
  }

  lemma PaintEnds(pages: seq<Page>, full: seq<Page>, s: nat, n: nat)
    requires s + n <= |pages| == |full| && forall i {:trigger full[i]} :: 0 <= i < |pages| && (i < s || s + n <= i) ==> full[i] == pages[i]
    ensures Painted(pages, full, s) == pages && Painted(pages, full, s + n) == full
  {
  }

  lemma PaintStep(pages: seq<Page>, full: seq<Page>, k: nat)
    requires k < |pages| == |full|
    ensures Painted(pages, full, k)[k := full[k]] == Painted(pages, full, k + 1)
  {
  }
}
