/** What holds of the heap after every run of `malloc`, `free` and `realloc` from `heap_init`. */
module HeapRuns {
  import opened Sequences
  import opened HeapLayout
  import opened HeapSpec
  import opened HeapOps

  /** The state that `heap_init` builds: only the metadata pages are taken. */
  ghost function Init(g: Geometry): State {
    State(seq(g.pages, i => if 0 <= i < g.MetaPages() then Run(LargeKind, i, 1) else FreePage), map[],
          seq(CACHES, i => []), seq(CACHES, i => []))
  }

  lemma InitInv(g: Geometry)
    requires g.Valid()
    ensures Inv(g, Init(g)) && Live(g, Init(g)) == map[]
  {
    var st := Init(g);
    assert forall c: nat :: c < CACHES ==> PartialOk(st, c) && FullOk(st, c);
    assert PagesOk(g, st.pages);
    forall a | g.start <= a < g.End()
      ensures !LiveAt(g, st, a)
    {
      assert st.pages[g.PageOf(a)].Run? ==> g.PageOf(a) < g.MetaPages();
    }
  }

  // ---------------------------------------------------------------- realloc

  /** A block that is too small moves: a new one is allocated, then the old one freed. */
  ghost function Realloc(g: Geometry, st: State, a: nat, size: nat): (State, nat)
    requires Inv(g, st) && size < WORD && (a == 0 || LiveAt(g, st, a))
  {
    if a == 0 then Malloc(g, st, size)
    else if size == 0 then (Free(g, st, a), 0)
    else if size <= SizeAt(g, st, a) then (st, a)
    else
      var (t, r) := Malloc(g, st, size);
      MallocKeeps(g, st, size, a);
      if r == 0 then (t, 0) else (Free(g, t, a), r)
  }

  lemma MallocKeeps(g: Geometry, st: State, size: nat, a: nat)
    requires Inv(g, st) && size < WORD && LiveAt(g, st, a)
    ensures Inv(g, Malloc(g, st, size).0) && LiveAt(g, Malloc(g, st, size).0, a)
  {
    MallocCorrect(g, st, size);
    var t := Malloc(g, st, size).0;
    assert a in Live(g, st);
    assert a in Live(g, t);
  }

  /**
   `realloc` fails exactly when a larger block is asked for and cannot be had, and then the old
   block stays; otherwise its result is the only block that changes place or size.
   */
  lemma ReallocCorrect(g: Geometry, st: State, a: nat, size: nat)
    requires Inv(g, st) && 0 < size < WORD && LiveAt(g, st, a) && a != 0
    ensures var (t, r) := Realloc(g, st, a, size);
            && Inv(g, t)
            && (r == 0 <==> SizeAt(g, st, a) < size && Exhausted(st, size))
            && (r == 0 ==> t == st)
            && (r == a <==> size <= SizeAt(g, st, a))
            && (r == a ==> t == st)
            && (r != 0 && r != a ==> r !in Live(g, st) && Live(g, t) == Live(g, st)[r := Usable(size)] - {a} && size <= Usable(size))
  {
    MallocCorrect(g, st, size);
    ReallocCases(g, st, a, size);
    hide *;
    var (t, r) := Malloc(g, st, size);
    if SizeAt(g, st, a) < size && r != 0 {
      FreeCorrect(g, t, a);
    }
  }

  lemma ReallocCases(g: Geometry, st: State, a: nat, size: nat)
    requires Inv(g, st) && 0 < size < WORD && LiveAt(g, st, a) && a != 0
    ensures var (t, r) := Malloc(g, st, size);
            && Inv(g, t) && a in Live(g, st) && LiveAt(g, t, a) && WeakInv(g, st)
            && Realloc(g, st, a, size) == (if size <= SizeAt(g, st, a) then (st, a) else if r == 0 then (t, 0) else (Free(g, t, a), r))
            && (Inv(g, Realloc(g, st, a, size).0) ==> WeakInv(g, Realloc(g, st, a, size).0))
  {
    MallocKeeps(g, st, size, a);
  }

  // ---------------------------------------------------------------- runs

  datatype Call = MallocCall(size: nat) | FreeCall(a: nat) | ReallocCall(a: nat, size: nat)

  /** A client passes sizes that fit a machine word, and NULL or pointers it holds. */
  ghost predicate Legal(g: Geometry, st: State, call: Call)
    requires Inv(g, st)
  {
    match call
    case MallocCall(size) => size < WORD
    case FreeCall(a) => a == 0 || LiveAt(g, st, a)
    case ReallocCall(a, size) => size < WORD && (a == 0 || LiveAt(g, st, a))
  }

  ghost function Apply(g: Geometry, st: State, call: Call): State
    requires Inv(g, st) && Legal(g, st, call)
  {
    match call
    case MallocCall(size) => Malloc(g, st, size).0
    case FreeCall(a) => Free(g, st, a)
    case ReallocCall(a, size) => Realloc(g, st, a, size).0
  }

  lemma ApplyInv(g: Geometry, st: State, call: Call)
    requires Inv(g, st) && Legal(g, st, call)
    ensures Inv(g, Apply(g, st, call))
  {
    match call
    case MallocCall(size) => MallocCorrect(g, st, size);
    case FreeCall(a) => FreeCorrect(g, st, a);
    case ReallocCall(a, size) =>
      if a == 0 { MallocCorrect(g, st, size); }
      else if size == 0 { FreeCorrect(g, st, a); }
      else { ReallocCorrect(g, st, a, size); }
  }

  /** A legal call leads from `st` to `t`; after a broken invariant anything might follow. */
  ghost predicate Leads(g: Geometry, st: State, call: Call, t: State) {
    Inv(g, st) ==> Legal(g, st, call) && t == Apply(g, st, call)
  }

  /** `st` is reached from the initial state by the calls of a well-behaved client. */
  ghost predicate Reaches(g: Geometry, calls: seq<Call>, st: State)
    requires g.Valid()
    decreases |calls|
  {
    if calls == [] then st == Init(g)
    else exists s: State {:trigger Reaches(g, calls[..|calls| - 1], s)} ::
           Reaches(g, calls[..|calls| - 1], s) && Leads(g, s, calls[|calls| - 1], st)
  }

  /** The invariant holds after every run. */
  lemma {:induction false} ReachesInv(g: Geometry, calls: seq<Call>, st: State)
    requires g.Valid() && Reaches(g, calls, st)
    ensures Inv(g, st)
    decreases |calls|
  {
    if calls == [] {
      InitInv(g);
    } else {
      var s: State :| Reaches(g, calls[..|calls| - 1], s) && Leads(g, s, calls[|calls| - 1], st);
      ReachesInv(g, calls[..|calls| - 1], s);
      ApplyInv(g, s, calls[|calls| - 1]);
    }
  }

  // ---------------------------------------------------------------- what the invariant gives

  lemma LiveEnd(g: Geometry, st: State, a: nat)
    requires WeakInv(g, st) && LiveAt(g, st, a)
    ensures var p := g.PageOf(a);
            && (st.pages[p].kind == SlabKind ==> a + SizeAt(g, st, a) <= g.PageAddr(p + 1) && g.PageAddr(p) + HEADER_SIZE <= a)
            && (st.pages[p].kind == LargeKind ==> a + SizeAt(g, st, a) == g.PageAddr(p + st.pages[p].len))
            && g.PageAddr(g.MetaPages()) <= a && a + SizeAt(g, st, a) <= g.End()
  {
    var p := g.PageOf(a);
    if st.pages[p].kind == SlabKind {
      var c := st.slabs[p].cls;
      ObjectOffset(c, a - g.PageAddr(p));
      ObjectFacts(c, IndexAt(c, a - g.PageAddr(p)), 0);
    }
  }

  lemma SameRun(g: Geometry, st: State, p: nat, q: nat)
    requires WeakInv(g, st) && p < |st.pages| && q < |st.pages| && st.pages[p].Run?
    ensures st.pages[p].head <= q < st.pages[p].head + st.pages[p].len ==> st.pages[q] == st.pages[p]
  {
    assert RunAt(st.pages, st.pages[p].head, st.pages[p]);
  }

  /** No two live blocks overlap. */
  lemma LiveDisjoint(g: Geometry, st: State, a: nat, b: nat)
    requires WeakInv(g, st) && LiveAt(g, st, a) && LiveAt(g, st, b) && a < b
    ensures a + SizeAt(g, st, a) <= b
  {
    var p, q := g.PageOf(a), g.PageOf(b);
    LiveEnd(g, st, a);
    SameRun(g, st, p, q);
    if p == q && st.pages[p].kind == SlabKind {
      var c := st.slabs[p].cls;
      var k, l := IndexAt(c, a - g.PageAddr(p)), IndexAt(c, b - g.PageAddr(p));
      ObjectOffset(c, a - g.PageAddr(p));
      ObjectOffset(c, b - g.PageAddr(p));
      if l < k {
        ObjectsApart(c, l, k);
      } else if k < l {
        ObjectsApart(c, k, l);
      }
    }
  }

  /** After every run the live blocks are pairwise disjoint and lie behind the metadata pages. */
  lemma RunsKeepBlocksApart(g: Geometry, calls: seq<Call>, st: State)
    requires g.Valid() && Reaches(g, calls, st)
    ensures Inv(g, st)
    ensures var live := Live(g, st);
            && (forall a {:trigger live[a]} :: a in live ==> g.PageAddr(g.MetaPages()) <= a && a + live[a] <= g.End())
            && forall a, b {:trigger live[a], live[b]} :: a in live && b in live && a < b ==> a + live[a] <= b
  {
    ReachesInv(g, calls, st);
    var live := Live(g, st);
    forall a | a in live
      ensures g.PageAddr(g.MetaPages()) <= a && a + live[a] <= g.End()
    {
      LiveEnd(g, st, a);
    }
    forall a, b | a in live && b in live && a < b
      ensures a + live[a] <= b
    {
      LiveDisjoint(g, st, a, b);
    }
  }

  /** A state without live blocks is the initial state. */
  lemma NothingLive(g: Geometry, st: State)
    requires Inv(g, st) && Live(g, st) == map[]
    ensures st == Init(g)
  {
    forall p: nat | p in st.slabs
      ensures false
    {
      var a := SomeObject(g, st, p);
    }
    assert st.slabs == map[];
    forall i | 0 <= i < |st.pages|
      ensures st.pages[i] == Init(g).pages[i]
    {
      NoPage(g, st, i);
    }
    forall c: nat | c < CACHES
      ensures st.partial[c] == [] && st.full[c] == []
    {
      assert PartialOk(st, c) && FullOk(st, c);
      assert st.partial[c] != [] ==> st.partial[c][0] in st.partial[c] && InPartial(st, c, st.partial[c][0]);
      assert st.full[c] != [] ==> st.full[c][0] in st.full[c] && InFull(st, c, st.full[c][0]);
    }
  }

  lemma NoPage(g: Geometry, st: State, i: nat)
    requires Inv(g, st) && Live(g, st) == map[] && st.slabs == map[] && i < |st.pages|
    ensures st.pages[i] == Init(g).pages[i]
  {
    if st.pages[i].Run? && g.MetaPages() <= i {
      var h := st.pages[i].head;
      assert RunAt(st.pages, h, st.pages[i]);
      assert st.pages[h] == st.pages[i];
      assert i !in st.slabs;
      PageOfAddr(g, h, 0);
      MetaKind(g, st.pages, h);
      LiveHas(g, st, g.PageAddr(h));
    }
  }

  /** Every slab has an object in use, which is live. */
  lemma SomeObject(g: Geometry, st: State, p: nat) returns (a: nat)
    requires Inv(g, st) && p in st.slabs
    ensures LiveAt(g, st, a) && g.PageOf(a) == p && SizeAt(g, st, a) == ObjSize(st.slabs[p].cls) && Live(g, st) != map[]
  {
    var s := st.slabs[p];
    if forall k: nat :: k < Capacity(s.cls) ==> k in s.free {
      Complete(s.free, Capacity(s.cls));
    } else {
      var k: nat :| k < Capacity(s.cls) && k !in s.free;
      a := ObjAddr(g, p, s.cls, k);
      ObjectLive(g, st, p, k);
      LiveHas(g, st, a);
    }
  }

  /** A list with every number below `n` has at least `n` entries. */
  lemma {:induction false} Complete(s: seq<nat>, n: nat)
    requires forall k: nat :: k < n ==> k in s
    ensures |s| >= n
    decreases n
  {
    if n > 0 {
      var t := Without<nat>(s, n - 1);
      WithoutLength<nat>(s, n - 1);
      forall k: nat | k < n - 1
        ensures k in t
      {
        WithoutOther<nat>(s, n - 1, k);
      }
      Complete(t, n - 1);
    }
  }

  /** Once every block has been freed, in any order after any run, the heap is as `heap_init` left it. */
  lemma NoLeaks(g: Geometry, calls: seq<Call>, st: State)
    requires g.Valid() && Reaches(g, calls, st)
    ensures Inv(g, st) && (Live(g, st) == map[] <==> st == Init(g))
  {
    ReachesInv(g, calls, st);
    InitInv(g);
    if Live(g, st) == map[] {
      NothingLive(g, st);
    }
  }

  /**
   In every reachable state a slab's free list has no repetition and only objects of the slab, at
   least one object is in use, and the slab is on the list its free list says, and on that one only.
   */
  lemma SlabsEverywhere(g: Geometry, calls: seq<Call>, st: State, p: nat)
    requires g.Valid() && Reaches(g, calls, st)
    ensures Inv(g, st)
    ensures p in st.slabs ==>
              var s := st.slabs[p];
              var inUse := Capacity(s.cls) - |s.free|;
              && Distinct(s.free) && (forall k :: k in s.free ==> k < Capacity(s.cls)) && 0 < inUse <= Capacity(s.cls)
              && (forall c: nat :: c < CACHES ==>
                    && (p in st.full[c] <==> c == s.cls && inUse == Capacity(s.cls))
                    && (p in st.partial[c] <==> c == s.cls && inUse < Capacity(s.cls)))
  {
    ReachesInv(g, calls, st);
    if p in st.slabs {
      forall c: nat | c < CACHES
        ensures p in st.full[c] <==> InFull(st, c, p)
        ensures p in st.partial[c] <==> InPartial(st, c, p)
      {
        assert PartialOk(st, c) && FullOk(st, c);
      }
    }
  }
}
