/** The heap in the terms of its client: sizes, alignment, and when a request must fail. */
module HeapClient {
  import opened Division
  import opened HeapLayout
  import opened HeapSpec
  import opened HeapOps
  import HeapRuns

  // ---------------------------------------------------------------- sizes

  /** Eight classes from 16 bytes on, each twice the one before, and how many objects a slab page holds. */
  lemma SizeClasses(c: nat)
    requires c < CACHES
    ensures CACHES == 8 && ObjSize(0) == 16 && (c > 0 ==> ObjSize(c) == 2 * ObjSize(c - 1))
    ensures Capacity(c) == [253, 126, 63, 31, 15, 7, 3, 1][c]
  {
  }

  /** A small request takes less than twice its size, but at least 16 bytes; a large one less than a page more. */
  lemma UsableIs(size: nat)
    requires size > 0
    ensures size <= Usable(size)
    ensures size <= 2048 ==> Usable(size) in {16, 32, 64, 128, 256, 512, 1024, 2048} && (Usable(size) == 16 || Usable(size) < 2 * size)
    ensures size > 2048 ==> Usable(size) % 4096 == 0 && Usable(size) < size + 4096
  {
    if size <= 2048 { SizeClasses(ClassOf(size)); }
  }

  /** The metadata takes four bytes a page, and only the pages that hold a byte of it are taken at the start. */
  lemma InitFree(g: Geometry, i: nat)
    requires g.Valid() && i < g.pages
    ensures |HeapRuns.Init(g).pages| == g.pages
    ensures HeapRuns.Init(g).pages[i] == FreePage <==> 4 * g.pages <= i * 4096
  {
    MetaIs(g, i);
    assert HeapRuns.Init(g).pages[i] == if i < g.MetaPages() then Run(LargeKind, i, 1) else FreePage;
  }

  lemma MetaIs(g: Geometry, i: nat)
    ensures g.MetaPages() <= i <==> 4 * g.pages <= i * 4096
  {
  }

  /** Blocks are aligned to 8 bytes, and those of more than 2048 bytes to pages. */
  lemma LiveAligned(g: Geometry, st: State, a: nat)
    requires Inv(g, st) && a in Live(g, st)
    ensures a % 8 == 0 && (Live(g, st)[a] > 2048 ==> a % 4096 == 0)
  {
    hide ObjSize, Capacity, IndexAt, PagesOk, ListsOk, UsedBut;
    var p := g.PageOf(a);
    PageAligned(g, p);
    if st.pages[p].kind == SlabKind {
      var c := st.slabs[p].cls;
      ClassFacts(c);
      ObjectHere(g, p, c, a);
      ObjectFacts(c, IndexAt(c, a - g.PageAddr(p)), 0);
      EightInPage(g.PageAddr(p), ObjOff(c, IndexAt(c, a - g.PageAddr(p))));
    } else {
      EightInPage(a, 0);
    }
  }

  lemma PageAligned(g: Geometry, p: nat)
    requires g.Valid()
    ensures g.PageAddr(p) % 4096 == 0
  {
    var q := g.start / 4096;
    assert g.start == q * 4096;
    DivUnique(g.PageAddr(p), 4096, q + p, 0);
  }

  lemma EightInPage(a: nat, off: nat)
    requires a % 4096 == 0 && off % 8 == 0
    ensures (a + off) % 8 == 0
  {
    var q := a / 4096;
    assert a == q * 4096;
    DivUnique(a + off, 8, q * 512 + off / 8, 0);
  }

  // ---------------------------------------------------------------- when a request fails

  /** No live block has a byte in the `n` pages from page `i`. */
  ghost predicate Untouched(g: Geometry, st: State, i: nat, n: nat)
    requires Inv(g, st)
  {
    forall a :: a in Live(g, st) ==> a + Live(g, st)[a] <= g.start + i * 4096 || g.start + (i + n) * 4096 <= a
  }

  lemma FreeApart(g: Geometry, st: State, i: nat, a: nat)
    requires Inv(g, st) && i < g.pages && i < |st.pages| && st.pages[i] == FreePage && LiveAt(g, st, a)
    ensures a + SizeAt(g, st, a) <= g.start + i * 4096 || g.start + (i + 1) * 4096 <= a
  {
    var p := g.PageOf(a);
    HeapRuns.LiveEnd(g, st, a);
    HeapRuns.SameRun(g, st, p, i);
  }

  /** A page that is taken, and not by metadata, holds a byte of a live block. */
  lemma TakenTouched(g: Geometry, st: State, i: nat)
    requires Inv(g, st) && g.MetaPages() <= i < g.pages && i < |st.pages| && st.pages[i] != FreePage
    ensures !Untouched(g, st, i, 1)
  {
    if st.pages[i].kind == SlabKind {
      var a := HeapRuns.SomeObject(g, st, i);
      HeapRuns.LiveEnd(g, st, a);
      LiveHas(g, st, a);
    } else {
      var h := st.pages[i].head;
      assert RunAt(st.pages, h, st.pages[i]);
      assert st.pages[h] == st.pages[i];
      MetaKind(g, st.pages, h);
      PageOfAddr(g, h, 0);
      LiveHas(g, st, g.PageAddr(h));
    }
  }

  /** A page is free exactly if it is no metadata page and no live block has a byte in it. */
  lemma FreePageIff(g: Geometry, st: State, i: nat)
    requires Inv(g, st) && i < g.pages
    ensures |st.pages| == g.pages && (st.pages[i] == FreePage <==> g.MetaPages() <= i && Untouched(g, st, i, 1))
  {
    if st.pages[i] == FreePage {
      MetaKind(g, st.pages, i);
      forall a | a in Live(g, st)
        ensures a + Live(g, st)[a] <= g.start + i * 4096 || g.start + (i + 1) * 4096 <= a
      {
        FreeApart(g, st, i, a);
      }
    } else if g.MetaPages() <= i {
      TakenTouched(g, st, i);
    }
  }

  lemma PageCount(g: Geometry, st: State)
    requires Inv(g, st)
    ensures |st.pages| == g.pages
  {
  }

  lemma FreeRunIff(g: Geometry, st: State, s: nat, n: nat)
    requires Inv(g, st) && 0 < n
    ensures FreeRun(st.pages, s, n) <==> g.MetaPages() <= s && s + n <= g.pages && Untouched(g, st, s, n)
  {
    hide WeakInv, UsedBut, Live;
    PageCount(g, st);
    if s + n <= g.pages {
      forall j | s <= j < s + n
        ensures st.pages[j] == FreePage <==> g.MetaPages() <= j && Untouched(g, st, j, 1)
      {
        FreePageIff(g, st, j);
      }
      if FreeRun(st.pages, s, n) {
        assert st.pages[s] == FreePage;
        AllUntouched(g, st, s, n);
      }
    }
  }

  lemma AllUntouched(g: Geometry, st: State, s: nat, n: nat)
    requires Inv(g, st) && 0 < n && forall j :: s <= j < s + n ==> Untouched(g, st, j, 1)
    ensures Untouched(g, st, s, n)
  {
    hide WeakInv, UsedBut, Live;
    forall a | a in Live(g, st)
      ensures a + Live(g, st)[a] <= g.start + s * 4096 || g.start + (s + n) * 4096 <= a
    {
      if a < g.start + s * 4096 {
        assert Untouched(g, st, s, 1);
        SomeBytes(g, st, a);
      } else if a < g.start + (s + n) * 4096 {
        var j := (a - g.start) / 4096;
        assert Untouched(g, st, j, 1);
        SomeBytes(g, st, a);
      }
    }
  }

  lemma SomeBytes(g: Geometry, st: State, a: nat)
    requires Inv(g, st) && a in Live(g, st)
    ensures Live(g, st)[a] > 0
  {
    if st.pages[g.PageOf(a)].kind == SlabKind { ClassFacts(st.slabs[g.PageOf(a)].cls); }
  }

  /** A request for more than 2048 bytes fails exactly if every run of as many pages holds a byte of a live block. */
  lemma LargeFails(g: Geometry, st: State, size: nat)
    requires Inv(g, st) && 2048 < size < WORD
    ensures Malloc(g, st, size).1 == 0 <==>
              var n := (size + 4095) / 4096;
              forall s: nat :: g.MetaPages() <= s && s + n <= g.pages ==> !Untouched(g, st, s, n)
  {
    MallocCorrect(g, st, size);
    hide WeakInv, UsedBut, Malloc, Untouched;
    var n := (size + 4095) / 4096;
    forall s: nat
      ensures FreeRun(st.pages, s, n) <==> g.MetaPages() <= s && s + n <= g.pages && Untouched(g, st, s, n)
    {
      FreeRunIff(g, st, s, n);
    }
  }

  /** Object `k` of the page that holds address `a`, for objects of class `c`. */
  function Object(a: nat, c: nat, k: nat): nat
    requires c < CACHES
  {
    a / 4096 * 4096 + 40 + k * ObjSize(c)
  }

  /** Every page that holds a block of class `c` is full of them: behind its header no object is free. */
  ghost predicate AllInUse(g: Geometry, st: State, c: nat)
    requires Inv(g, st) && c < CACHES
  {
    forall a, k: nat :: a in Live(g, st) && Live(g, st)[a] == ObjSize(c) && k < Capacity(c) ==>
      Object(a, c, k) in Live(g, st)
  }

  /** A smaller request fails exactly if every page holds a byte of a live block, and no slab of its class has room. */
  lemma SmallFails(g: Geometry, st: State, size: nat)
    requires Inv(g, st) && 0 < size <= 2048
    ensures Malloc(g, st, size).1 == 0 <==>
              && (forall s: nat :: g.MetaPages() <= s < g.pages ==> !Untouched(g, st, s, 1))
              && AllInUse(g, st, ClassOf(size))
  {
    MallocCorrect(g, st, size);
    PartialIff(g, st, ClassOf(size));
    hide WeakInv, UsedBut, Malloc, Untouched, AllInUse;
    forall s: nat
      ensures FreeRun(st.pages, s, 1) <==> g.MetaPages() <= s && s + 1 <= g.pages && Untouched(g, st, s, 1)
    {
      FreeRunIff(g, st, s, 1);
    }
  }

  lemma PartialIff(g: Geometry, st: State, c: nat)
    requires Inv(g, st) && c < CACHES
    ensures |st.partial| == CACHES && (st.partial[c] == [] <==> AllInUse(g, st, c))
  {
    hide AllInUse, Live, LiveAt, UsedBut;
    if st.partial[c] == [] {
      NoneFree(g, st, c);
    } else {
      var p := st.partial[c][0];
      assert PartialOk(st, c) && p in st.partial[c] && InPartial(st, c, p);
      OneFree(g, st, p);
    }
  }

  lemma NoneFree(g: Geometry, st: State, c: nat)
    requires Inv(g, st) && c < CACHES && st.partial[c] == []
    ensures AllInUse(g, st, c)
  {
    hide ObjSize, Capacity, ObjAddr, Object, PagesOk, SlabsOk, UsedBut, LiveAt;
    forall a, k: nat | a in Live(g, st) && Live(g, st)[a] == ObjSize(c) && k < Capacity(c)
      ensures Object(a, c, k) in Live(g, st)
    {
      ObjectOf(g, st, a, c);
      var p := g.PageOf(a);
      assert PartialOk(st, c) && !InPartial(st, c, p);
      ObjectLive(g, st, p, k);
      ObjectAddr(g, p, a, c, k);
      LiveHas(g, st, ObjAddr(g, p, c, k));
    }
  }

  lemma ObjectAddr(g: Geometry, p: nat, a: nat, c: nat, k: nat)
    requires c < CACHES && a / 4096 * 4096 == g.PageAddr(p)
    ensures Object(a, c, k) == ObjAddr(g, p, c, k)
  {
    hide ObjSize;
  }

  /** A live block of a class's size is an object of a slab of that class. */
  lemma ObjectOf(g: Geometry, st: State, a: nat, c: nat)
    requires Inv(g, st) && c < CACHES && LiveAt(g, st, a) && SizeAt(g, st, a) == ObjSize(c)
    ensures var p := g.PageOf(a); p in st.slabs && st.slabs[p].cls == c && a / 4096 * 4096 == g.PageAddr(p)
  {
    var p := g.PageOf(a);
    ClassFacts(c);
    if st.pages[p].kind == SlabKind {
      SameClass(st.slabs[p].cls, c);
      ObjectHere(g, p, c, a);
      ObjectFacts(c, IndexAt(c, a - g.PageAddr(p)), 0);
      PageBase(g, p, ObjOff(c, IndexAt(c, a - g.PageAddr(p))));
    }
  }

  lemma SameClass(c: nat, d: nat)
    requires c < CACHES && d < CACHES && ObjSize(c) == ObjSize(d)
    ensures c == d
  {
  }

  lemma OneFree(g: Geometry, st: State, p: nat)
    requires Inv(g, st) && p in st.slabs && st.slabs[p].free != []
    ensures st.slabs[p].cls < CACHES && !AllInUse(g, st, st.slabs[p].cls)
  {
    hide ObjSize, Capacity, ObjAddr, Object, PagesOk, ListsOk, UsedBut, LiveAt;
    var c := st.slabs[p].cls;
    var a := HeapRuns.SomeObject(g, st, p);
    var k := st.slabs[p].free[0];
    assert k in st.slabs[p].free;
    ObjectLive(g, st, p, k);
    LiveHas(g, st, a);
    ObjectOf(g, st, a, c);
    ObjectAddr(g, p, a, c, k);
  }

  // ---------------------------------------------------------------- reuse

  /** What is freed last is handed out first: from a slab that was full, or that heads its partial list. */
  lemma Reuse(g: Geometry, st: State, p: nat, k: nat)
    requires Inv(g, st) && p in st.slabs && InUse(st.slabs[p], k) && |st.slabs[p].free| + 1 < Capacity(st.slabs[p].cls)
    requires var c := st.slabs[p].cls; st.slabs[p].free == [] || (c < |st.partial| && st.partial[c] != [] && st.partial[c][0] == p)
    ensures var c := st.slabs[p].cls;
            var t := CacheFree(g, st, p, k);
            && Inv(g, t)
            && CacheAlloc(g, t, c).1 == ObjAddr(g, p, c, k)
            && CacheAlloc(g, t, c).0.pages == st.pages && CacheAlloc(g, t, c).0.slabs == st.slabs
            && (st.slabs[p].free != [] ==> CacheAlloc(g, t, c).0 == st)
  {
    var s, c := st.slabs[p], st.slabs[p].cls;
    CacheFreeInv(g, st, p, k);
    var t := CacheFree(g, st, p, k);
    assert t == Put(g, st, p, k);
    assert t.partial[c][0] == p && t.slabs[p] == Slab(c, [k] + s.free);
    assert ([k] + s.free)[1..] == s.free;
    assert t.slabs[p := Slab(c, s.free)] == st.slabs;
  }
}
