/**
 The heap as a value: which pages form runs, which objects of each slab are free, and the
 partial and full lists of each size class. The operations say what each heap call does to
 that value; class `Heap` in Heap.dfy is proved to do the same on raw memory.
 */
module HeapSpec {
  import opened Sequences
  import opened HeapLayout

  datatype Kind = SlabKind | LargeKind

  /** A page is free or belongs to the run of `len` pages that starts at page `head`. */
  datatype Page = FreePage | Run(kind: Kind, head: nat, len: nat)

  /** A slab page: its size class and the indices of its free objects, in list order. */
  datatype Slab = Slab(cls: nat, free: seq<nat>)

  datatype State = State(pages: seq<Page>, slabs: map<nat, Slab>, partial: seq<seq<nat>>, full: seq<seq<nat>>)

  // ---------------------------------------------------------------- sequences

  ghost function Upto(n: nat): (r: seq<nat>)
    ensures |r| == n && (forall i :: 0 <= i < n ==> r[i] == i) && Distinct(r)
    ensures forall k: nat :: k in r <==> k < n
  {
    var r := seq(n, i => i);
    assert forall k: nat {:trigger k in r} :: k in r <==> k < n by {
      forall k: nat | k < n
        ensures k in r
      {
        assert r[k] == k;
      }
    }
    r
  }

  // ---------------------------------------------------------------- invariant

  ghost predicate PagesOk(g: Geometry, pages: seq<Page>) {
    && |pages| == g.pages
    && (forall i {:trigger pages[i]} :: 0 <= i < |pages| && pages[i].Run? ==>
          && pages[i].head <= i < pages[i].head + pages[i].len <= |pages|
          && RunAt(pages, pages[i].head, pages[i]))
    && (forall i {:trigger pages[i]} :: 0 <= i < g.MetaPages() <= |pages| ==> pages[i] == Run(LargeKind, i, 1))
  }

  /** The pages of run `r`, which starts at page `h`, all say so. */
  ghost predicate RunAt(pages: seq<Page>, h: nat, r: Page)
    requires r.Run?
  {
    h == r.head && h + r.len <= |pages| && forall j {:trigger pages[j]} :: h <= j < h + r.len ==> pages[j] == r
  }

  /** A free list holds distinct objects of the slab. */
  ghost predicate SlabOk(s: Slab) {
    s.cls < CACHES && Distinct(s.free) && (forall k :: k in s.free ==> k < Capacity(s.cls)) && |s.free| <= Capacity(s.cls)
  }

  lemma MetaKind(g: Geometry, pages: seq<Page>, q: nat)
    requires PagesOk(g, pages) && q < |pages|
    ensures q < g.MetaPages() <= |pages| ==> pages[q] == Run(LargeKind, q, 1)
  {
  }

  ghost predicate SlabsOk(st: State) {
    && (forall p: nat {:trigger p in st.slabs} ::
          p in st.slabs <==> p < |st.pages| && st.pages[p].Run? && st.pages[p].kind == SlabKind)
    && (forall p: nat {:trigger st.slabs[p]} :: p in st.slabs ==> st.pages[p] == Run(SlabKind, p, 1) && SlabOk(st.slabs[p]))
  }

  ghost predicate InPartial(st: State, c: nat, p: nat) {
    p in st.slabs && st.slabs[p].cls == c && st.slabs[p].free != []
  }

  ghost predicate InFull(st: State, c: nat, p: nat) {
    p in st.slabs && st.slabs[p].cls == c && st.slabs[p].free == []
  }

  /** The partial list of class `c` holds exactly the slabs with a free object, each once. */
  ghost predicate PartialOk(st: State, c: nat)
    requires c < |st.partial|
  {
    Distinct(st.partial[c]) && forall p: nat {:trigger p in st.partial[c]} {:trigger InPartial(st, c, p)} :: p in st.partial[c] <==> InPartial(st, c, p)
  }

  /** The full list of class `c` holds exactly the slabs without a free object, each once. */
  ghost predicate FullOk(st: State, c: nat)
    requires c < |st.full|
  {
    Distinct(st.full[c]) && forall p: nat {:trigger p in st.full[c]} {:trigger InFull(st, c, p)} :: p in st.full[c] <==> InFull(st, c, p)
  }

  ghost predicate ListsOk(st: State) {
    && |st.partial| == |st.full| == CACHES
    && forall c: nat :: c < CACHES ==> PartialOk(st, c) && FullOk(st, c)
  }

  /** The invariant, except that a slab may have no object in use. */
  ghost predicate WeakInv(g: Geometry, st: State) {
    g.Valid() && PagesOk(g, st.pages) && SlabsOk(st) && ListsOk(st)
  }

  /** Every slab, except perhaps slab `x`, has an object in use. */
  ghost predicate UsedBut(st: State, x: int) {
    forall p: nat {:trigger st.slabs[p]} :: p in st.slabs && p != x && st.slabs[p].cls < CACHES ==>
      |st.slabs[p].free| < Capacity(st.slabs[p].cls)
  }

  /** Between two heap calls every slab has an object in use. */
  ghost predicate Inv(g: Geometry, st: State) {
    WeakInv(g, st) && UsedBut(st, -1)
  }

  // ---------------------------------------------------------------- live blocks

  /** Offset `off` of slab page `s` is the start of an object in use. */
  ghost predicate ObjectAt(s: Slab, off: nat)
    requires s.cls < CACHES
  {
    && HEADER_SIZE <= off
    && (off - HEADER_SIZE) % ObjSize(s.cls) == 0
    && IndexAt(s.cls, off) < Capacity(s.cls)
    && IndexAt(s.cls, off) !in s.free
  }

  /** A client may hold pointer `a`: it starts a large run or an object in use. */
  ghost predicate LiveAt(g: Geometry, st: State, a: nat)
    requires WeakInv(g, st)
  {
    && g.start <= a < g.End()
    && var p := g.PageOf(a);
       && p < |st.pages| && st.pages[p].Run?
       && match st.pages[p].kind
          case LargeKind => st.pages[p].head == p && a == g.PageAddr(p) && g.MetaPages() <= p
          case SlabKind => ObjectAt(st.slabs[p], a - g.PageAddr(p))
  }

  /** Usable bytes of the live block at `a`. */
  ghost function SizeAt(g: Geometry, st: State, a: nat): nat
    requires WeakInv(g, st) && LiveAt(g, st, a)
  {
    var p := g.PageOf(a);
    match st.pages[p].kind
    case LargeKind => st.pages[p].len * 4096
    case SlabKind => ObjSize(st.slabs[p].cls)
  }

  /** The live blocks: start address to usable size. */
  ghost function Live(g: Geometry, st: State): map<nat, nat>
    requires WeakInv(g, st)
  {
    map a | g.start <= a < g.End() && LiveAt(g, st, a) :: SizeAt(g, st, a)
  }

  /** Byte `x` belongs to a live block. */
  ghost predicate UserByte(g: Geometry, st: State, x: nat)
    requires WeakInv(g, st)
  {
    && g.start <= x < g.End()
    && var p := g.PageOf(x);
       && p < |st.pages| && st.pages[p].Run?
       && match st.pages[p].kind
          case LargeKind => g.MetaPages() <= p
          case SlabKind =>
            var off := x - g.PageAddr(p);
            var s := st.slabs[p];
            HEADER_SIZE <= off && IndexAt(s.cls, off) < Capacity(s.cls) && IndexAt(s.cls, off) !in s.free
  }

  // ---------------------------------------------------------------- page runs

  ghost predicate FreeRun(pages: seq<Page>, s: nat, n: nat) {
    s + n <= |pages| && forall j {:trigger pages[j]} :: s <= j < s + n ==> pages[j] == FreePage
  }

  /** The lowest free run of `n` pages at or after page `from`. */
  ghost function LowestRun(pages: seq<Page>, n: nat, from: nat): (r: Option<nat>)
    requires 0 < n
    ensures r.Some? ==> from <= r.value && FreeRun(pages, r.value, n)
    ensures forall s: nat :: from <= s && (r.Some? ==> s < r.value) ==> !FreeRun(pages, s, n)
    decreases |pages| - from
  {
    if from + n > |pages| then None
    else if FreeRun(pages, from, n) then Some(from)
    else LowestRun(pages, n, from + 1)
  }

  ghost function WithRun(pages: seq<Page>, s: nat, n: nat, kind: Kind): (r: seq<Page>)
    ensures |r| == |pages|
    ensures forall i {:trigger r[i]} :: 0 <= i < |pages| ==> r[i] == if s <= i < s + n then Run(kind, s, n) else pages[i]
  {
    seq(|pages|, i requires 0 <= i < |pages| => if s <= i < s + n then Run(kind, s, n) else pages[i])
  }

  ghost function WithoutRun(pages: seq<Page>, h: nat, n: nat): (r: seq<Page>)
    ensures |r| == |pages|
    ensures forall i {:trigger r[i]} :: 0 <= i < |pages| ==> r[i] == if h <= i < h + n then FreePage else pages[i]
  {
    seq(|pages|, i requires 0 <= i < |pages| => if h <= i < h + n then FreePage else pages[i])
  }

  lemma WithRunOk(g: Geometry, pages: seq<Page>, s: nat, n: nat, kind: Kind)
    requires PagesOk(g, pages) && 0 < n && FreeRun(pages, s, n)
    ensures PagesOk(g, WithRun(pages, s, n, kind))
  {
    var r := WithRun(pages, s, n, kind);
    forall i | 0 <= i < |r| && r[i].Run?
      ensures r[i].head <= i < r[i].head + r[i].len <= |r| && RunAt(r, r[i].head, r[i])
    {
      if !(s <= i < s + n) {
        assert RunAt(pages, pages[i].head, pages[i]);
        forall j | pages[i].head <= j < pages[i].head + pages[i].len
          ensures r[j] == pages[i]
        {
          assert pages[j] == pages[i];
        }
      }
    }
    forall i | 0 <= i < g.MetaPages() <= |r|
      ensures r[i] == Run(LargeKind, i, 1)
    {
      assert pages[i] == Run(LargeKind, i, 1);
    }
  }

  lemma WithoutRunOk(g: Geometry, pages: seq<Page>, h: nat)
    requires PagesOk(g, pages) && g.MetaPages() <= h < |pages| && pages[h].Run? && pages[h].head == h
    ensures PagesOk(g, WithoutRun(pages, h, pages[h].len))
  {
    var n := pages[h].len;
    var r := WithoutRun(pages, h, n);
    assert RunAt(pages, h, pages[h]);
    forall i | 0 <= i < |r| && r[i].Run?
      ensures r[i].head <= i < r[i].head + r[i].len <= |r| && RunAt(r, r[i].head, r[i])
    {
      assert RunAt(pages, pages[i].head, pages[i]);
      forall j | pages[i].head <= j < pages[i].head + pages[i].len
        ensures r[j] == pages[i]
      {
        assert pages[j] == pages[i];
      }
    }
  }

  // ---------------------------------------------------------------- steps of the allocator

  /** Page `p` becomes a slab of class `c` with every object free, at the front of the partial list. */
  ghost function Fresh(st: State, c: nat, p: nat): State
    requires c < CACHES && |st.partial| == CACHES
  {
    State(WithRun(st.pages, p, 1, SlabKind), st.slabs[p := Slab(c, Upto(Capacity(c)))],
          st.partial[c := [p] + st.partial[c]], st.full)
  }

  /** The first slab on the partial list of class `c` gives its first free object away. */
  ghost function Take(g: Geometry, st: State, c: nat): (State, nat)
    requires WeakInv(g, st) && c < CACHES && st.partial[c] != []
  {
    var p := st.partial[c][0];
    assert PartialOk(st, c) && p in st.partial[c];
    var rest := st.slabs[p].free[1..];
    var slabs := st.slabs[p := Slab(c, rest)];
    var a := ObjAddr(g, p, c, st.slabs[p].free[0]);
    if rest == [] then
      (st.(slabs := slabs, partial := st.partial[c := st.partial[c][1..]], full := st.full[c := [p] + st.full[c]]), a)
    else
      (st.(slabs := slabs), a)
  }

  /** Object `k` of slab `p` goes to the front of the free list; a full slab becomes partial. */
  ghost function Put(g: Geometry, st: State, p: nat, k: nat): State
    requires WeakInv(g, st) && p in st.slabs
  {
    var s := st.slabs[p];
    var slabs := st.slabs[p := Slab(s.cls, [k] + s.free)];
    if s.free == [] then
      st.(slabs := slabs, partial := st.partial[s.cls := [p] + st.partial[s.cls]],
          full := st.full[s.cls := Without(st.full[s.cls], p)])
    else
      st.(slabs := slabs)
  }

  /** Slab `p`, with no object in use, leaves its list and gives its page back. */
  ghost function Drop(g: Geometry, st: State, p: nat): State
    requires WeakInv(g, st) && p in st.slabs
  {
    var c := st.slabs[p].cls;
    State(WithoutRun(st.pages, p, 1), st.slabs - {p}, st.partial[c := Without(st.partial[c], p)], st.full)
  }

  // ---------------------------------------------------------------- the steps keep the invariant

  lemma FreshSlabs(st: State, c: nat, p: nat)
    requires SlabsOk(st) && |st.partial| == CACHES && c < CACHES && FreeRun(st.pages, p, 1)
    ensures p !in st.slabs && SlabsOk(Fresh(st, c, p))
  {
    assert st.pages[p] == FreePage;
  }

  lemma FreshLists(st: State, c: nat, p: nat, d: nat)
    requires ListsOk(st) && c < CACHES && p !in st.slabs && d < CACHES
    ensures PartialOk(Fresh(st, c, p), d) && FullOk(Fresh(st, c, p), d)
  {
    var t := Fresh(st, c, p);
    assert PartialOk(st, d) && FullOk(st, d) && !InPartial(st, d, p) && !InFull(st, d, p);
    forall q: nat
      ensures q in t.partial[d] <==> InPartial(t, d, q)
    {
      assert InPartial(st, d, q) <==> q in st.partial[d];
    }
    forall q: nat
      ensures q in t.full[d] <==> InFull(t, d, q)
    {
      assert InFull(st, d, q) <==> q in st.full[d];
    }
  }

  lemma FreshInv(g: Geometry, st: State, c: nat, p: nat)
    requires WeakInv(g, st) && c < CACHES && FreeRun(st.pages, p, 1)
    ensures p !in st.slabs && WeakInv(g, Fresh(st, c, p))
  {
    WithRunOk(g, st.pages, p, 1, SlabKind);
    FreshSlabs(st, c, p);
    forall d: nat | d < CACHES
      ensures PartialOk(Fresh(st, c, p), d) && FullOk(Fresh(st, c, p), d)
    {
      FreshLists(st, c, p, d);
    }
  }

  /** The slab at the front of the partial list of class `c`. */
  lemma PartialHead(st: State, c: nat)
    requires ListsOk(st) && c < CACHES && st.partial[c] != []
    ensures InPartial(st, c, st.partial[c][0])
  {
    assert PartialOk(st, c) && st.partial[c][0] in st.partial[c];
  }

  lemma SlabTail(s: Slab)
    requires SlabOk(s) && s.free != []
    ensures SlabOk(Slab(s.cls, s.free[1..]))
  {
    assert forall k :: k in s.free[1..] ==> k in s.free;
  }

  /** Replacing a slab by another well-formed one keeps all slabs well formed. */
  lemma SlabSet(st: State, t: State, p: nat, s: Slab)
    requires SlabsOk(st) && p in st.slabs && t.pages == st.pages && t.slabs == st.slabs[p := s] && SlabOk(s)
    ensures SlabsOk(t)
  {
    hide SlabOk;
  }

  lemma TakeSlabs(g: Geometry, st: State, c: nat)
    requires WeakInv(g, st) && c < CACHES && st.partial[c] != []
    ensures SlabsOk(Take(g, st, c).0)
  {
    PartialHead(st, c);
    var p := st.partial[c][0];
    SlabTail(st.slabs[p]);
    SlabSet(st, Take(g, st, c).0, p, Slab(c, st.slabs[p].free[1..]));
  }

  lemma TakeLists(g: Geometry, st: State, c: nat, d: nat)
    requires WeakInv(g, st) && c < CACHES && st.partial[c] != [] && d < CACHES
    ensures PartialOk(Take(g, st, c).0, d) && FullOk(Take(g, st, c).0, d)
  {
    var t := Take(g, st, c).0;
    var l := st.partial[c];
    PartialHead(st, c);
    assert PartialOk(st, d) && FullOk(st, d) && !InFull(st, d, l[0]) && PartialOk(st, c);
    assert l == [l[0]] + l[1..] && l[0] !in l[1..];
    forall q: nat
      ensures q in t.partial[d] <==> InPartial(t, d, q)
    {
      assert InPartial(st, d, q) <==> q in st.partial[d];
    }
    forall q: nat
      ensures q in t.full[d] <==> InFull(t, d, q)
    {
      assert InFull(st, d, q) <==> q in st.full[d];
    }
  }

  lemma TakeInv(g: Geometry, st: State, c: nat)
    requires WeakInv(g, st) && c < CACHES && st.partial[c] != []
    ensures WeakInv(g, Take(g, st, c).0)
  {
    TakeSlabs(g, st, c);
    forall d: nat | d < CACHES
      ensures PartialOk(Take(g, st, c).0, d) && FullOk(Take(g, st, c).0, d)
    {
      TakeLists(g, st, c, d);
    }
  }

  /** Object `k` of slab `s` is in use. */
  ghost predicate InUse(s: Slab, k: nat) {
    SlabOk(s) && k < Capacity(s.cls) && k !in s.free
  }

  lemma PutSlabs(g: Geometry, st: State, p: nat, k: nat)
    requires WeakInv(g, st) && p in st.slabs && InUse(st.slabs[p], k)
    ensures SlabsOk(Put(g, st, p, k))
  {
    var s := st.slabs[p];
    Pigeonhole([k] + s.free, Capacity(s.cls));
    SlabSet(st, Put(g, st, p, k), p, Slab(s.cls, [k] + s.free));
  }

  lemma PutLists(g: Geometry, st: State, p: nat, k: nat, d: nat)
    requires WeakInv(g, st) && p in st.slabs && InUse(st.slabs[p], k) && d < CACHES
    ensures PartialOk(Put(g, st, p, k), d) && FullOk(Put(g, st, p, k), d)
  {
    var t := Put(g, st, p, k);
    assert PartialOk(st, d) && FullOk(st, d);
    WithoutFacts(st.full[d], p);
    assert p in st.partial[d] <==> InPartial(st, d, p);
    forall q: nat
      ensures q in t.partial[d] <==> InPartial(t, d, q)
    {
      assert InPartial(st, d, q) <==> q in st.partial[d];
    }
    forall q: nat
      ensures q in t.full[d] <==> InFull(t, d, q)
    {
      assert InFull(st, d, q) <==> q in st.full[d];
    }
  }

  lemma PutInv(g: Geometry, st: State, p: nat, k: nat)
    requires WeakInv(g, st) && p in st.slabs && InUse(st.slabs[p], k)
    ensures WeakInv(g, Put(g, st, p, k))
  {
    PutSlabs(g, st, p, k);
    forall d: nat | d < CACHES
      ensures PartialOk(Put(g, st, p, k), d) && FullOk(Put(g, st, p, k), d)
    {
      PutLists(g, st, p, k, d);
    }
  }

  lemma DropSlabs(g: Geometry, st: State, p: nat)
    requires WeakInv(g, st) && p in st.slabs
    ensures SlabsOk(Drop(g, st, p))
  {
    assert st.pages[p] == Run(SlabKind, p, 1);
  }

  lemma DropLists(g: Geometry, st: State, p: nat, d: nat)
    requires WeakInv(g, st) && p in st.slabs && st.slabs[p].free != [] && d < CACHES
    ensures PartialOk(Drop(g, st, p), d) && FullOk(Drop(g, st, p), d)
  {
    var t := Drop(g, st, p);
    assert PartialOk(st, d) && FullOk(st, d) && !InFull(st, d, p);
    WithoutFacts(st.partial[d], p);
    assert p in st.partial[d] <==> InPartial(st, d, p);
    forall q: nat
      ensures q in t.partial[d] <==> InPartial(t, d, q)
    {
      assert InPartial(st, d, q) <==> q in st.partial[d];
    }
    forall q: nat
      ensures q in t.full[d] <==> InFull(t, d, q)
    {
      assert InFull(st, d, q) <==> q in st.full[d];
    }
  }

  lemma DropInv(g: Geometry, st: State, p: nat)
    requires WeakInv(g, st) && p in st.slabs && st.slabs[p].free != []
    ensures WeakInv(g, Drop(g, st, p))
  {
    assert st.pages[p] == Run(SlabKind, p, 1);
    WithoutRunOk(g, st.pages, p);
    DropSlabs(g, st, p);
    forall d: nat | d < CACHES
      ensures PartialOk(Drop(g, st, p), d) && FullOk(Drop(g, st, p), d)
    {
      DropLists(g, st, p, d);
    }
  }

  // ---------------------------------------------------------------- what the steps do to the live blocks

  /** An offset that starts an object is the offset of the object it decodes to. */
  lemma ObjectOffset(c: nat, off: nat)
    requires c < CACHES && HEADER_SIZE <= off && (off - HEADER_SIZE) % ObjSize(c) == 0
    ensures off == ObjOff(c, IndexAt(c, off))
  {
    var s := ObjSize(c);
    assert off - HEADER_SIZE == s * ((off - HEADER_SIZE) / s) + (off - HEADER_SIZE) % s;
  }

  /** Address `a` of page `p` decodes to that page. */
  lemma PageOfAddr(g: Geometry, p: nat, off: nat)
    requires off < PAGE_SIZE
    ensures g.PageOf(g.PageAddr(p) + off) == p
  {
  }

  /** An object in use is live, and nothing else in its slab has the same address. */
  lemma ObjectLive(g: Geometry, st: State, p: nat, k: nat)
    requires WeakInv(g, st) && p in st.slabs && k < Capacity(st.slabs[p].cls)
    ensures var a := ObjAddr(g, p, st.slabs[p].cls, k);
            && g.start <= a < g.End() && g.PageOf(a) == p
            && (LiveAt(g, st, a) <==> k !in st.slabs[p].free)
            && (LiveAt(g, st, a) ==> SizeAt(g, st, a) == ObjSize(st.slabs[p].cls))
  {
    var c := st.slabs[p].cls;
    ClassFacts(c);
    ObjectFacts(c, k, 0);
    PageOfAddr(g, p, ObjOff(c, k));
  }

  lemma FreshLive(g: Geometry, st: State, c: nat, p: nat)
    requires WeakInv(g, st) && c < CACHES && FreeRun(st.pages, p, 1) && p !in st.slabs && WeakInv(g, Fresh(st, c, p))
    ensures Live(g, Fresh(st, c, p)) == Live(g, st)
  {
    var t := Fresh(st, c, p);
    assert st.pages[p] == FreePage;
    forall a | g.start <= a < g.End()
      ensures SameAt(g, st, t, a)
    {
      var q := g.PageOf(a);
      assert t.pages[q] == if q == p then Run(SlabKind, p, 1) else st.pages[q];
    }
    LiveSame(g, st, t);
  }

  /** If slab `u` has object `k` free and `s` does not, they agree on every other object. */
  lemma OneObject(s: Slab, u: Slab, k: nat, off: nat)
    requires s.cls == u.cls < CACHES && k < Capacity(s.cls) && k !in s.free && off != ObjOff(s.cls, k)
    requires u.free == [k] + s.free
    ensures ObjectAt(s, off) <==> ObjectAt(u, off)
  {
    if HEADER_SIZE <= off && (off - HEADER_SIZE) % ObjSize(s.cls) == 0 {
      ObjectOffset(s.cls, off);
    }
  }

  /** States that differ in one object of slab `p` have the same live blocks elsewhere. */
  lemma LiveElsewhere(g: Geometry, st: State, t: State, p: nat, k: nat, a: nat)
    requires WeakInv(g, st) && WeakInv(g, t) && st.pages == t.pages
    requires p in st.slabs && p in t.slabs && st.slabs - {p} == t.slabs - {p}
    requires st.slabs[p].cls == t.slabs[p].cls && k < Capacity(st.slabs[p].cls) && k !in st.slabs[p].free
    requires t.slabs[p].free == [k] + st.slabs[p].free
    requires g.start <= a < g.End() && a != ObjAddr(g, p, st.slabs[p].cls, k)
    ensures SameAt(g, st, t, a)
  {
    var q := g.PageOf(a);
    if q == p {
      OneObject(st.slabs[p], t.slabs[p], k, a - g.PageAddr(p));
    } else if q in st.slabs {
      assert (st.slabs - {p})[q] == (t.slabs - {p})[q];
    }
  }

  /** Address `a` is live in both states, with the same size, or in neither. */
  ghost predicate SameAt(g: Geometry, st: State, t: State, a: nat)
    requires WeakInv(g, st) && WeakInv(g, t)
  {
    (LiveAt(g, t, a) <==> LiveAt(g, st, a)) && (LiveAt(g, t, a) ==> SizeAt(g, t, a) == SizeAt(g, st, a))
  }

  /** States that agree everywhere but at `r` have the same live blocks up to `r`. */
  lemma LiveMinus(g: Geometry, st: State, t: State, r: nat)
    requires WeakInv(g, st) && WeakInv(g, t) && !LiveAt(g, t, r)
    requires forall a {:trigger SameAt(g, st, t, a)} :: g.start <= a < g.End() && a != r ==> SameAt(g, st, t, a)
    ensures Live(g, t) == Live(g, st) - {r}
  {
    hide WeakInv, LiveAt, SizeAt;
    assert forall a :: a in Live(g, t) ==> SameAt(g, st, t, a);
    assert forall a :: a in Live(g, st) && a != r ==> SameAt(g, st, t, a);
  }

  /** States that agree everywhere have the same live blocks. */
  lemma LiveSame(g: Geometry, st: State, t: State)
    requires WeakInv(g, st) && WeakInv(g, t)
    requires forall a {:trigger SameAt(g, st, t, a)} :: g.start <= a < g.End() ==> SameAt(g, st, t, a)
    ensures Live(g, t) == Live(g, st)
  {
    hide WeakInv, LiveAt, SizeAt;
    assert forall a :: a in Live(g, t) ==> SameAt(g, st, t, a);
    assert forall a :: a in Live(g, st) ==> SameAt(g, st, t, a);
  }

  lemma LiveBut(g: Geometry, st: State, t: State, p: nat, k: nat)
    requires WeakInv(g, st) && WeakInv(g, t) && st.pages == t.pages
    requires p in st.slabs && p in t.slabs && st.slabs - {p} == t.slabs - {p}
    requires st.slabs[p].cls == t.slabs[p].cls && k < Capacity(st.slabs[p].cls) && k !in st.slabs[p].free
    requires t.slabs[p].free == [k] + st.slabs[p].free
    ensures var a := ObjAddr(g, p, st.slabs[p].cls, k);
            && a in Live(g, st) && a !in Live(g, t)
            && Live(g, st)[a] == ObjSize(st.slabs[p].cls)
            && Live(g, t) == Live(g, st) - {a}
  {
    var r := ObjAddr(g, p, st.slabs[p].cls, k);
    ObjectLive(g, st, p, k);
    ObjectLive(g, t, p, k);
    hide WeakInv, LiveAt, SizeAt, ObjAddr;
    forall a | g.start <= a < g.End() && a != r
      ensures SameAt(g, st, t, a)
    {
      LiveElsewhere(g, st, t, p, k, a);
    }
    LiveMinus(g, st, t, r);
  }

  lemma TakeShape(g: Geometry, st: State, c: nat)
    requires WeakInv(g, st) && c < CACHES && st.partial[c] != []
    ensures var (t, r) := Take(g, st, c);
            var p := st.partial[c][0];
            && |st.partial| == CACHES && InPartial(st, c, p) && p in st.slabs && p in t.slabs && t.pages == st.pages && st.slabs - {p} == t.slabs - {p}
            && t.slabs[p].cls == st.slabs[p].cls == c && st.slabs[p].free != [] && st.slabs[p].free == [st.slabs[p].free[0]] + t.slabs[p].free
            && st.slabs[p].free[0] < Capacity(c) && st.slabs[p].free[0] !in t.slabs[p].free
            && r == ObjAddr(g, p, c, st.slabs[p].free[0])
  {
    PartialHead(st, c);
    var f := st.slabs[st.partial[c][0]].free;
    assert f == [f[0]] + f[1..] && f[0] !in f[1..] && f[0] in f;
  }

  /** `Take` hands out an address that was not live, and nothing else changes. */
  lemma TakeLive(g: Geometry, st: State, c: nat)
    requires WeakInv(g, st) && c < CACHES && st.partial[c] != [] && WeakInv(g, Take(g, st, c).0)
    ensures var (t, a) := Take(g, st, c); a !in Live(g, st) && Live(g, t) == Live(g, st)[a := ObjSize(c)]
  {
    hide *;
    TakeShape(g, st, c);
    var (t, r) := Take(g, st, c);
    var p := st.partial[c][0];
    LiveBut(g, t, st, p, st.slabs[p].free[0]);
  }

  /** `Put` ends the life of exactly the object it is given. */
  lemma PutLive(g: Geometry, st: State, p: nat, k: nat)
    requires WeakInv(g, st) && p in st.slabs && InUse(st.slabs[p], k) && WeakInv(g, Put(g, st, p, k))
    ensures var a := ObjAddr(g, p, st.slabs[p].cls, k);
            a in Live(g, st) && Live(g, Put(g, st, p, k)) == Live(g, st) - {a}
  {
    LiveBut(g, st, Put(g, st, p, k), p, k);
  }

  /** A free list as long as the capacity holds every object. */
  lemma AllFree(s: Slab, k: nat)
    requires SlabOk(s) && |s.free| == Capacity(s.cls) && k < Capacity(s.cls)
    ensures k in s.free
  {
    if k !in s.free {
      Pigeonhole([k] + s.free, Capacity(s.cls));
    }
  }

  lemma DropLive(g: Geometry, st: State, p: nat)
    requires WeakInv(g, st) && p in st.slabs && |st.slabs[p].free| == Capacity(st.slabs[p].cls)
    requires WeakInv(g, Drop(g, st, p))
    ensures Live(g, Drop(g, st, p)) == Live(g, st)
  {
    var t := Drop(g, st, p);
    forall k: nat | k < Capacity(st.slabs[p].cls)
      ensures k in st.slabs[p].free
    {
      AllFree(st.slabs[p], k);
    }
    forall a | g.start <= a < g.End()
      ensures SameAt(g, st, t, a)
    {
      var q := g.PageOf(a);
      assert t.pages[q] == if q == p then FreePage else st.pages[q];
    }
    LiveSame(g, st, t);
  }
}
