/** The doubly linked slab lists in memory: what unlinking and pushing write, and why the lists stay well formed. */
module HeapLists {
  import opened Memory
  import opened HeapLayout
  import opened HeapSpec
  import opened HeapRep

  lemma PowFacts()
    ensures Pow256(1) == 0x100 && Pow256(2) == 0x1_0000 && Pow256(4) == 0x1_0000_0000 && Pow256(8) == WORD
  {
    assert Pow256(1) == 256 * Pow256(0);
    assert Pow256(2) == 256 * Pow256(1);
    assert Pow256(3) == 256 * Pow256(2);
    assert Pow256(4) == 256 * Pow256(3);
    assert Pow256(5) == 256 * Pow256(4);
    assert Pow256(6) == 256 * Pow256(5);
    assert Pow256(7) == 256 * Pow256(6);
    assert Pow256(8) == 256 * Pow256(7);
  }

  // ---------------------------------------------------------------- one write to a link field

  /** A write to a link field of page `q` leaves metadata and slabs alone. */
  lemma LinkWrite(g: Geometry, m: seq<byte>, n: seq<byte>, ca: nat, st: State, q: nat, off: nat)
    requires MetaRep(g, m, st.pages) && SlabsRep(g, m, ca, st.slabs)
    requires g.MetaPages() <= q < g.pages && off + 8 <= OFF_CACHE && Only(m, n, g.PageAddr(q) + off, g.PageAddr(q) + off + 8)
    ensures MetaRep(g, n, st.pages) && SlabsRep(g, n, ca, st.slabs)
  {
    hide Load, MetaAt, SlabRep;
    var lo := g.PageAddr(q) + off;
    MetaKept(g, m, n, st.pages, lo, lo + 8);
    forall p: nat | p in st.slabs
      ensures g.MetaPages() <= p < g.pages && SlabRep(g, n, ca, p, st.slabs[p])
    {
      SlabKeptFar(g, m, n, ca, p, st.slabs[p], lo, lo + 8);
    }
  }

  /** A write to a link field of page `q` leaves every list without `q` alone. */
  lemma LinkWriteList(g: Geometry, m: seq<byte>, n: seq<byte>, l: seq<nat>, q: nat, off: nat)
    requires ListRep(g, m, l) && q !in l && off + 8 <= OFF_CACHE
    requires Only(m, n, g.PageAddr(q) + off, g.PageAddr(q) + off + 8)
    ensures ListRep(g, n, l)
  {
    ListKept(g, m, n, l, g.PageAddr(q) + off, g.PageAddr(q) + off + 8);
  }

  // ---------------------------------------------------------------- unlink

  /** Memory after node `i` of `l` is unlinked: its neighbours point past it. */
  ghost function UnlinkMem(g: Geometry, m: seq<byte>, l: seq<nat>, i: nat): (r: seq<byte>)
    requires ListRep(g, m, l) && i < |l|
    ensures |r| == |m|
  {
    assert i > 0 ==> NodeAt(g, m, l, i - 1);
    assert i + 1 < |l| ==> NodeAt(g, m, l, i + 1);
    var m1 := if i > 0 then Store(m, g.PageAddr(l[i - 1]) + OFF_NEXT, 8, NodeAddr(g, l, i + 1)) else m;
    if i + 1 < |l| then Store(m1, g.PageAddr(l[i + 1]) + OFF_PREV, 8, NodeAddr(g, l, i - 1)) else m1
  }

  /** The link fields of page `q` after node `i` of `l` is unlinked. */
  lemma UnlinkLoads(g: Geometry, m: seq<byte>, l: seq<nat>, i: nat, q: nat)
    requires g.Valid() && ListRep(g, m, l) && i < |l| && g.MetaPages() <= q < g.pages
    ensures var n := UnlinkMem(g, m, l, i);
            && |n| == |m|
            && Load(n, g.PageAddr(q) + OFF_NEXT, 8)
               == (if i > 0 && q == l[i - 1] then NodeAddr(g, l, i + 1) else Load(m, g.PageAddr(q) + OFF_NEXT, 8))
            && Load(n, g.PageAddr(q) + OFF_PREV, 8)
               == (if i + 1 < |l| && q == l[i + 1] then NodeAddr(g, l, i - 1) else Load(m, g.PageAddr(q) + OFF_PREV, 8))
  {
    hide Load, Store;
    PowFacts();
    assert i > 0 ==> NodeAt(g, m, l, i - 1);
    assert i + 1 < |l| ==> NodeAt(g, m, l, i + 1);
  }

  lemma UnlinkList(g: Geometry, m: seq<byte>, l: seq<nat>, i: nat)
    requires g.Valid() && ListRep(g, m, l) && i < |l|
    ensures ListRep(g, UnlinkMem(g, m, l, i), l[..i] + l[i + 1..])
  {
    hide Load, UnlinkMem;
    var n := UnlinkMem(g, m, l, i);
    var r := l[..i] + l[i + 1..];
    assert NodeAt(g, m, l, i);
    UnlinkLoads(g, m, l, i, l[i]);
    forall j: nat | j < |r|
      ensures NodeAt(g, n, r, j)
    {
      var k := if j < i then j else j + 1;
      assert NodeAt(g, m, l, k) && r[j] == l[k];
      UnlinkLoads(g, m, l, i, l[k]);
      assert NodeAddr(g, r, j + 1) == if j + 1 < i then NodeAddr(g, l, j + 1) else NodeAddr(g, l, j + 2);
      assert NodeAddr(g, r, j - 1) == if j <= i then NodeAddr(g, l, j - 1) else NodeAddr(g, l, j);
    }
  }

  /** Unlinking touches nothing but the neighbours' link fields. */
  lemma UnlinkRest(g: Geometry, m: seq<byte>, ca: nat, st: State, l: seq<nat>, i: nat)
    requires g.Valid() && ListRep(g, m, l) && i < |l| && MetaRep(g, m, st.pages) && SlabsRep(g, m, ca, st.slabs)
    ensures var n := UnlinkMem(g, m, l, i); MetaRep(g, n, st.pages) && SlabsRep(g, n, ca, st.slabs)
  {
    hide Load, MetaRep, SlabsRep, Store;
    assert i > 0 ==> NodeAt(g, m, l, i - 1);
    assert i + 1 < |l| ==> NodeAt(g, m, l, i + 1);
    var m1 := if i > 0 then Store(m, g.PageAddr(l[i - 1]) + OFF_NEXT, 8, NodeAddr(g, l, i + 1)) else m;
    if i > 0 {
      LinkWrite(g, m, m1, ca, st, l[i - 1], OFF_NEXT);
    }
    if i + 1 < |l| {
      LinkWrite(g, m1, UnlinkMem(g, m, l, i), ca, st, l[i + 1], OFF_PREV);
    }
  }

  lemma UnlinkOther(g: Geometry, m: seq<byte>, l: seq<nat>, i: nat, k: seq<nat>)
    requires g.Valid() && ListRep(g, m, l) && i < |l| && ListRep(g, m, k) && forall p :: p in l ==> p !in k
    ensures ListRep(g, UnlinkMem(g, m, l, i), k)
  {
    hide Load, Store;
    assert i > 0 ==> NodeAt(g, m, l, i - 1) && l[i - 1] in l;
    assert i + 1 < |l| ==> NodeAt(g, m, l, i + 1) && l[i + 1] in l;
    var m1 := if i > 0 then Store(m, g.PageAddr(l[i - 1]) + OFF_NEXT, 8, NodeAddr(g, l, i + 1)) else m;
    if i > 0 {
      LinkWriteList(g, m, m1, k, l[i - 1], OFF_NEXT);
    }
    if i + 1 < |l| {
      LinkWriteList(g, m1, UnlinkMem(g, m, l, i), k, l[i + 1], OFF_PREV);
    }
  }

  // ---------------------------------------------------------------- push

  /** Memory after slab `p` is put in front of list `l`. */
  ghost function PushMem(g: Geometry, m: seq<byte>, l: seq<nat>, p: nat): (r: seq<byte>)
    requires ListRep(g, m, l) && p < g.pages
    ensures |r| == |m|
  {
    assert |l| > 0 ==> NodeAt(g, m, l, 0);
    var m1 := Store(m, g.PageAddr(p) + OFF_NEXT, 8, NodeAddr(g, l, 0));
    var m2 := Store(m1, g.PageAddr(p) + OFF_PREV, 8, 0);
    if |l| > 0 then Store(m2, g.PageAddr(l[0]) + OFF_PREV, 8, g.PageAddr(p)) else m2
  }

  lemma PushLoads(g: Geometry, m: seq<byte>, l: seq<nat>, p: nat, q: nat)
    requires g.Valid() && ListRep(g, m, l) && p !in l && g.MetaPages() <= p < g.pages && g.MetaPages() <= q < g.pages
    ensures var n := PushMem(g, m, l, p);
            && |n| == |m|
            && Load(n, g.PageAddr(q) + OFF_NEXT, 8)
               == (if q == p then NodeAddr(g, l, 0) else Load(m, g.PageAddr(q) + OFF_NEXT, 8))
            && Load(n, g.PageAddr(q) + OFF_PREV, 8)
               == (if q == p then 0 else if |l| > 0 && q == l[0] then g.PageAddr(p) else Load(m, g.PageAddr(q) + OFF_PREV, 8))
  {
    hide Load, Store;
    PowFacts();
    assert |l| > 0 ==> NodeAt(g, m, l, 0) && l[0] in l;
  }

  lemma PushList(g: Geometry, m: seq<byte>, l: seq<nat>, p: nat)
    requires g.Valid() && ListRep(g, m, l) && p !in l && g.MetaPages() <= p < g.pages
    ensures ListRep(g, PushMem(g, m, l, p), [p] + l)
  {
    hide Load, PushMem;
    var n := PushMem(g, m, l, p);
    var r := [p] + l;
    PushLoads(g, m, l, p, p);
    forall j: nat | j < |r|
      ensures NodeAt(g, n, r, j)
    {
      if j > 0 {
        assert NodeAt(g, m, l, j - 1) && r[j] == l[j - 1] && l[j - 1] in l;
        PushLoads(g, m, l, p, l[j - 1]);
      }
      assert NodeAddr(g, r, j + 1) == NodeAddr(g, l, j);
      assert NodeAddr(g, r, j - 1) == if j == 1 then g.PageAddr(p) else NodeAddr(g, l, j - 2);
    }
  }

  /** Pushing touches nothing but link fields of the slab and of the old first slab. */
  lemma PushRest(g: Geometry, m: seq<byte>, ca: nat, st: State, l: seq<nat>, p: nat)
    requires g.Valid() && ListRep(g, m, l) && MetaRep(g, m, st.pages) && SlabsRep(g, m, ca, st.slabs)
    requires g.MetaPages() <= p < g.pages
    ensures var n := PushMem(g, m, l, p); MetaRep(g, n, st.pages) && SlabsRep(g, n, ca, st.slabs)
  {
    hide Load, MetaRep, SlabsRep, Store;
    assert |l| > 0 ==> NodeAt(g, m, l, 0);
    var m1 := Store(m, g.PageAddr(p) + OFF_NEXT, 8, NodeAddr(g, l, 0));
    var m2 := Store(m1, g.PageAddr(p) + OFF_PREV, 8, 0);
    LinkWrite(g, m, m1, ca, st, p, OFF_NEXT);
    LinkWrite(g, m1, m2, ca, st, p, OFF_PREV);
    if |l| > 0 {
      LinkWrite(g, m2, PushMem(g, m, l, p), ca, st, l[0], OFF_PREV);
    }
  }

  lemma PushOther(g: Geometry, m: seq<byte>, l: seq<nat>, p: nat, k: seq<nat>)
    requires g.Valid() && ListRep(g, m, l) && ListRep(g, m, k) && g.MetaPages() <= p < g.pages
    requires p !in k && forall q :: q in l ==> q !in k
    ensures ListRep(g, PushMem(g, m, l, p), k)
  {
    hide Load, Store;
    assert |l| > 0 ==> NodeAt(g, m, l, 0) && l[0] in l;
    var m1 := Store(m, g.PageAddr(p) + OFF_NEXT, 8, NodeAddr(g, l, 0));
    var m2 := Store(m1, g.PageAddr(p) + OFF_PREV, 8, 0);
    LinkWriteList(g, m, m1, k, p, OFF_NEXT);
    LinkWriteList(g, m1, m2, k, p, OFF_PREV);
    if |l| > 0 {
      LinkWriteList(g, m2, PushMem(g, m, l, p), k, l[0], OFF_PREV);
    }
  }
}
