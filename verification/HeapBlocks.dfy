/** The blocks a client sees, with their contents, and why the allocator's writes never reach them. */
module HeapBlocks {
  import opened Memory
  import opened HeapLayout
  import opened HeapSpec
  import opened HeapRep
  import opened HeapSteps
  import HeapRuns

  lemma LiveInside(g: Geometry, st: State)
    requires WeakInv(g, st)
    ensures forall a {:trigger Live(g, st)[a]} :: a in Live(g, st) ==> a + Live(g, st)[a] <= g.End()
  {
    forall a | a in Live(g, st)
      ensures a + Live(g, st)[a] <= g.End()
    {
      HeapRuns.LiveEnd(g, st, a);
    }
  }

  /** The `n` bytes at `a`. */
  ghost function Slice(m: seq<byte>, a: nat, n: nat): (r: seq<byte>)
    ensures a + n <= |m| ==> |r| == n
  {
    if a + n <= |m| then m[a..a + n] else []
  }

  /** The live blocks and their bytes. */
  ghost function Blocks(g: Geometry, st: State, m: seq<byte>): map<nat, seq<byte>>
    requires WeakInv(g, st)
  {
    map a | a in Live(g, st) :: Slice(m, a, Live(g, st)[a])
  }

  /** Every byte of a live block is a client byte. */
  lemma BlockIsUser(g: Geometry, st: State, a: nat, x: nat)
    requires WeakInv(g, st) && LiveAt(g, st, a) && a <= x < a + SizeAt(g, st, a)
    ensures UserByte(g, st, x)
  {
    var p := g.PageOf(a);
    HeapRuns.LiveEnd(g, st, a);
    if st.pages[p].kind == SlabKind {
      var c := st.slabs[p].cls;
      var k := IndexAt(c, a - g.PageAddr(p));
      ObjectOffset(c, a - g.PageAddr(p));
      ObjectFacts(c, k, x - a);
      PageOfAddr(g, p, x - g.PageAddr(p));
    } else {
      HeapRuns.SameRun(g, st, p, g.PageOf(x));
    }
  }

  /** Client bytes that stay make a block that stays. */
  lemma BlockKept(g: Geometry, st: State, m: seq<byte>, n: seq<byte>, a: nat)
    requires WeakInv(g, st) && UserKept(g, st, m, n) && LiveAt(g, st, a) && g.End() <= |m|
    ensures Slice(n, a, SizeAt(g, st, a)) == Slice(m, a, SizeAt(g, st, a))
  {
    HeapRuns.LiveEnd(g, st, a);
    forall x | a <= x < a + SizeAt(g, st, a)
      ensures n[x] == m[x]
    {
      BlockIsUser(g, st, a, x);
    }
  }

  /** If a block is added and client bytes stay, the other blocks stay. */
  lemma BlocksAdded(g: Geometry, st: State, t: State, m: seq<byte>, n: seq<byte>, r: nat, size: nat)
    requires WeakInv(g, st) && WeakInv(g, t) && UserKept(g, st, m, n) && g.End() <= |m|
    requires r !in Live(g, st) && Live(g, t) == Live(g, st)[r := size]
    ensures r in Blocks(g, t, n) && |Blocks(g, t, n)[r]| == size && Blocks(g, t, n) - {r} == Blocks(g, st, m)
  {
    hide WeakInv, LiveAt, SizeAt, UserByte, Slice;
    LiveInside(g, t);
    forall a | a in Live(g, st)
      ensures Slice(n, a, Live(g, st)[a]) == Slice(m, a, Live(g, st)[a])
    {
      BlockKept(g, st, m, n, a);
    }
  }

  lemma BlocksSame(g: Geometry, st: State, m: seq<byte>, n: seq<byte>)
    requires WeakInv(g, st) && UserKept(g, st, m, n) && g.End() <= |m|
    ensures Blocks(g, st, n) == Blocks(g, st, m)
  {
    hide WeakInv, LiveAt, SizeAt, UserByte, Slice;
    forall a | a in Live(g, st)
      ensures Slice(n, a, Live(g, st)[a]) == Slice(m, a, Live(g, st)[a])
    {
      BlockKept(g, st, m, n, a);
    }
  }

  /** Bytes outside block `r`, which may change, stay. */
  lemma BlockKeptBut(g: Geometry, st: State, m: seq<byte>, n: seq<byte>, r: nat, w: nat, a: nat)
    requires WeakInv(g, st) && QuietBut(g, m, n, st.slabs.Keys, r, r + w) && g.End() <= |m|
    requires LiveAt(g, st, r) && w <= SizeAt(g, st, r) && LiveAt(g, st, a) && a != r
    ensures Slice(n, a, SizeAt(g, st, a)) == Slice(m, a, SizeAt(g, st, a))
  {
    hide WeakInv, LiveAt, SizeAt, UserByte;
    HeapRuns.LiveEnd(g, st, a);
    if a < r {
      HeapRuns.LiveDisjoint(g, st, a, r);
    } else {
      HeapRuns.LiveDisjoint(g, st, r, a);
    }
    forall x | a <= x < a + SizeAt(g, st, a)
      ensures n[x] == m[x]
    {
      BlockIsUser(g, st, a, x);
      UserSpared(g, st, x);
    }
  }

  /** If block `r` goes and only its bytes and bookkeeping change, the other blocks stay. */
  lemma BlocksRemoved(g: Geometry, st: State, t: State, m: seq<byte>, n: seq<byte>, r: nat, w: nat)
    requires WeakInv(g, st) && WeakInv(g, t) && g.End() <= |m|
    requires QuietBut(g, m, n, st.slabs.Keys, r, r + w) && LiveAt(g, st, r) && w <= SizeAt(g, st, r)
    requires Live(g, t) == Live(g, st) - {r}
    ensures Blocks(g, t, n) == Blocks(g, st, m) - {r}
  {
    hide WeakInv, LiveAt, SizeAt, Slice;
    forall a | a in Live(g, t)
      ensures a in Live(g, st) && a != r && Slice(n, a, Live(g, t)[a]) == Slice(m, a, Live(g, st)[a])
    {
      BlockKeptBut(g, st, m, n, r, w, a);
    }
  }

  lemma OnlyQuiet(g: Geometry, m: seq<byte>, n: seq<byte>, hdr: set<nat>, lo: nat, hi: nat)
    requires Only(m, n, lo, hi)
    ensures QuietBut(g, m, n, hdr, lo, hi)
  {
  }

  /** A write inside block `r` changes no other block. */
  lemma BlocksWritten(g: Geometry, st: State, m: seq<byte>, n: seq<byte>, r: nat)
    requires WeakInv(g, st) && LiveAt(g, st, r) && g.End() <= |m| && Only(m, n, r, r + SizeAt(g, st, r))
    ensures r in Blocks(g, st, m)
    ensures Blocks(g, st, n) == Blocks(g, st, m)[r := Slice(n, r, SizeAt(g, st, r))]
  {
    hide WeakInv, LiveAt, SizeAt, Slice, Only, QuietBut;
    LiveHere(g, st, r);
    OnlyQuiet(g, m, n, st.slabs.Keys, r, r + SizeAt(g, st, r));
    forall a | a in Live(g, st) && a != r
      ensures Slice(n, a, Live(g, st)[a]) == Slice(m, a, Live(g, st)[a])
    {
      BlockKeptBut(g, st, m, n, r, SizeAt(g, st, r), a);
    }
  }

  lemma LiveHere(g: Geometry, st: State, r: nat)
    requires WeakInv(g, st) && LiveAt(g, st, r)
    ensures r in Live(g, st) && Live(g, st)[r] == SizeAt(g, st, r)
  {
  }

  lemma BlockHas(g: Geometry, st: State, m: seq<byte>, a: nat)
    requires WeakInv(g, st) && LiveAt(g, st, a) && g.End() <= |m|
    ensures a in Blocks(g, st, m) && |Blocks(g, st, m)[a]| == SizeAt(g, st, a)
    ensures a + SizeAt(g, st, a) <= |m| && Blocks(g, st, m)[a] == m[a..a + SizeAt(g, st, a)]
  {
    hide WeakInv, LiveAt, SizeAt;
    LiveHere(g, st, a);
    LiveInside(g, st);
  }

  // ---------------------------------------------------------------- client writes

  /** A client that writes into its own block cannot disturb the allocator. */
  lemma ClientWrite(g: Geometry, m: seq<byte>, n: seq<byte>, ca: nat, caches: seq<KmemCache>, st: State, a: nat, lo: nat, hi: nat)
    requires Rep(g, m, ca, caches, st) && WeakInv(g, st) && LiveAt(g, st, a) && g.End() <= |m|
    requires a <= lo <= hi <= a + SizeAt(g, st, a) && Only(m, n, lo, hi)
    ensures Rep(g, n, ca, caches, st)
  {
    hide Load, MetaAt, SlabRep, ListRep, ListsApart, UserByte, PagesOk, SlabsOk, ListsOk, ObjectAt;
    HeapRuns.LiveEnd(g, st, a);
    MetaKept(g, m, n, st.pages, lo, hi);
    forall q: nat | q in st.slabs
      ensures g.MetaPages() <= q < g.pages && SlabRep(g, n, ca, q, st.slabs[q])
    {
      assert SlabRep(g, m, ca, q, st.slabs[q]);
      ClientWriteSlab(g, m, n, ca, st, a, lo, hi, q);
    }
    forall c: nat | c < CACHES
      ensures ListRep(g, n, st.partial[c]) && ListRep(g, n, st.full[c])
    {
      ClientWriteList(g, m, n, st, false, c, a, lo, hi);
      ClientWriteList(g, m, n, st, true, c, a, lo, hi);
    }
  }

  /** A slab page is not inside a large run, and a block of a slab page is behind its header. */
  lemma BlockAndSlab(g: Geometry, st: State, a: nat, q: nat)
    requires WeakInv(g, st) && LiveAt(g, st, a) && q in st.slabs
    ensures q < g.pages
    ensures g.PageOf(a) != q ==> a + SizeAt(g, st, a) <= g.PageAddr(q) || g.PageAddr(q + 1) <= a
    ensures g.PageOf(a) == q ==> g.PageAddr(q) + HEADER_SIZE <= a && a + SizeAt(g, st, a) <= g.PageAddr(q + 1)
  {
    HeapRuns.LiveEnd(g, st, a);
    HeapRuns.SameRun(g, st, g.PageOf(a), q);
  }

  lemma ClientWriteList(g: Geometry, m: seq<byte>, n: seq<byte>, st: State, full: bool, c: nat, a: nat, lo: nat, hi: nat)
    requires WeakInv(g, st) && LiveAt(g, st, a) && c < CACHES && ListRep(g, m, ListOf(st, full, c))
    requires a <= lo <= hi <= a + SizeAt(g, st, a) && Only(m, n, lo, hi)
    ensures ListRep(g, n, ListOf(st, full, c))
  {
    hide Load, ListRep, SizeAt, LiveAt;
    forall q: nat | q in ListOf(st, full, c)
      ensures hi <= g.PageAddr(q) || g.PageAddr(q) + OFF_CACHE <= lo
    {
      ListInSlabs(g, st, full, c, q);
      BlockAndSlab(g, st, a, q);
    }
    ListKept(g, m, n, ListOf(st, full, c), lo, hi);
  }

  lemma ClientWriteSlab(g: Geometry, m: seq<byte>, n: seq<byte>, ca: nat, st: State, a: nat, lo: nat, hi: nat, q: nat)
    requires WeakInv(g, st) && LiveAt(g, st, a) && q in st.slabs && q < g.pages && g.End() <= |m|
    requires a <= lo <= hi <= a + SizeAt(g, st, a) && Only(m, n, lo, hi) && SlabRep(g, m, ca, q, st.slabs[q])
    ensures SlabRep(g, n, ca, q, st.slabs[q])
  {
    hide Load, CoreRep, ChainRep;
    BlockAndSlab(g, st, a, q);
    if g.PageOf(a) != q {
      SlabKeptFar(g, m, n, ca, q, st.slabs[q], lo, hi);
    } else {
      var s := st.slabs[q];
      var k := IndexAt(s.cls, a - g.PageAddr(q));
      ObjectOffset(s.cls, a - g.PageAddr(q));
      forall j: nat | j < |s.free|
        ensures hi <= ObjAddr(g, q, s.cls, s.free[j]) || ObjAddr(g, q, s.cls, s.free[j]) + 8 <= lo
      {
        assert s.free[j] in s.free && s.free[j] != k;
        BlockAndCell(g, q, s.cls, k, s.free[j]);
      }
      CoreKept(g, m, n, ca, q, s, lo, hi);
      ChainKept(g, m, n, q, s, lo, hi);
    }
  }

  lemma BlockAndCell(g: Geometry, p: nat, c: nat, k: nat, l: nat)
    requires c < CACHES && k != l
    ensures ObjAddr(g, p, c, k) + ObjSize(c) <= ObjAddr(g, p, c, l) || ObjAddr(g, p, c, l) + 16 <= ObjAddr(g, p, c, k)
  {
    ClassFacts(c);
    if k < l {
      ObjectsApart(c, k, l);
    } else {
      ObjectsApart(c, l, k);
    }
  }
}
