/**
 Translation tables as AArch64 hardware reads them (VMSAv8-64, 4 KB granule, 39-bit addresses,
 walk from level 1), and what single writes to them do to the translation.
 */
module PageTables {
  import opened Division
  import opened Sequences

  /** Pages of a 39-bit address space, and of a 48-bit physical one. */
  const PAGES: nat := 0x800_0000
  const PHYS_END: nat := 0x1_0000_0000_0000

  type Table = seq<nat>

  /** The attribute fields of a block or page descriptor. */
  datatype Attr = Attr(index: nat, ap: nat, sh: nat, af: nat, pxn: nat, uxn: nat)

  ghost predicate AttrOk(a: Attr) {
    a.index < 8 && a.ap < 4 && a.sh < 4 && a.af < 2 && a.pxn < 2 && a.uxn < 2
  }

  // ---------------------------------------------------------------- descriptors

  predicate Present(e: nat) {
    e % 2 == 1
  }

  /** Bit 1: a table at levels 1 and 2, a page at level 3. */
  predicate TableBit(e: nat) {
    e / 2 % 2 == 1
  }

  /** Bits [47:12]. */
  function OutAddr(e: nat): nat {
    e / 0x1000 % 0x10_0000_0000 * 0x1000
  }

  /** Bits [47:21]. */
  function BlockAddr(e: nat): nat {
    e / 0x20_0000 % 0x800_0000 * 0x20_0000
  }

  /** Bits [47:30], a 1 GB block at level 1. */
  function BigAddr(e: nat): nat {
    e / 0x4000_0000 % 0x4_0000 * 0x4000_0000
  }

  function AttrOf(e: nat): Attr {
    Attr(e / 4 % 8, e / 64 % 4, e / 256 % 4, e / 1024 % 2, e / 0x20_0000_0000_0000 % 2, e / 0x40_0000_0000_0000 % 2)
  }

  /** A descriptor for address `pa` with low bits `kind` (1 block, 3 page). */
  function Descriptor(pa: nat, kind: nat, a: Attr): nat {
    pa + kind + a.index * 4 + a.ap * 64 + a.sh * 256 + a.af * 1024 + a.pxn * 0x20_0000_0000_0000 + a.uxn * 0x40_0000_0000_0000
  }

  /** A table descriptor. */
  function TableEntry(frame: nat): nat {
    frame + 3
  }

  lemma TableEntryFacts(frame: nat)
    requires frame % 4096 == 0 && frame < PHYS_END
    ensures var e := TableEntry(frame);
            Present(e) && TableBit(e) && OutAddr(e) == frame
  {
  }

  lemma LowFields(kind: nat, a: Attr)
    requires AttrOk(a) && (kind == 1 || kind == 3)
    ensures var lo := kind + a.index * 4 + a.ap * 64 + a.sh * 256 + a.af * 1024;
            && lo < 4096 && lo % 2 == 1 && (lo / 2 % 2 == 1 <==> kind == 3)
            && lo / 4 % 8 == a.index && lo / 64 % 4 == a.ap && lo / 256 % 4 == a.sh && lo / 1024 % 2 == a.af
  {
    var lo := kind + a.index * 4 + a.ap * 64 + a.sh * 256 + a.af * 1024;
    assert lo / 1024 == a.af;
    assert lo / 256 == a.sh + 4 * a.af;
    assert lo / 64 == a.ap + 4 * a.sh + 16 * a.af;
    assert lo / 4 == a.index + 16 * a.ap + 64 * a.sh + 256 * a.af;
    assert lo / 2 == kind / 2 + 2 * (lo / 4);
  }

  lemma Low2(lo: nat, r: nat)
    ensures (lo + 4096 * r) / 2 % 2 == lo / 2 % 2
  {
    var q := lo / 2;
    DivUnique(lo + 4096 * r, 2, q + 2048 * r, lo % 2);
    DivUnique(q + 2048 * r, 2, q / 2 + 1024 * r, q % 2);
  }

  lemma Low4(lo: nat, r: nat)
    ensures (lo + 4096 * r) / 4 % 8 == lo / 4 % 8
  {
    var q := lo / 4;
    DivUnique(lo + 4096 * r, 4, q + 1024 * r, lo % 4);
    DivUnique(q + 1024 * r, 8, q / 8 + 128 * r, q % 8);
  }

  lemma Low64(lo: nat, r: nat)
    ensures (lo + 4096 * r) / 64 % 4 == lo / 64 % 4
  {
    var q := lo / 64;
    DivUnique(lo + 4096 * r, 64, q + 64 * r, lo % 64);
    DivUnique(q + 64 * r, 4, q / 4 + 16 * r, q % 4);
  }

  lemma Low256(lo: nat, r: nat)
    ensures (lo + 4096 * r) / 256 % 4 == lo / 256 % 4
  {
    var q := lo / 256;
    DivUnique(lo + 4096 * r, 256, q + 16 * r, lo % 256);
    DivUnique(q + 16 * r, 4, q / 4 + 4 * r, q % 4);
  }

  lemma Low1024(lo: nat, r: nat)
    ensures (lo + 4096 * r) / 1024 % 2 == lo / 1024 % 2
  {
    var q := lo / 1024;
    DivUnique(lo + 4096 * r, 1024, q + 4 * r, lo % 1024);
    DivUnique(q + 4 * r, 2, q / 2 + 2 * r, q % 2);
  }

  lemma LowBits(e: nat, lo: nat, r: nat)
    requires lo < 4096 && e == lo + 4096 * r
    ensures e / 4096 == r && e % 2 == lo % 2 && e / 2 % 2 == lo / 2 % 2
    ensures e / 4 % 8 == lo / 4 % 8 && e / 64 % 4 == lo / 64 % 4 && e / 256 % 4 == lo / 256 % 4 && e / 1024 % 2 == lo / 1024 % 2
  {
    DivUnique(e, 4096, r, lo);
    DivUnique(e, 2, lo / 2 + 2048 * r, lo % 2);
    Low2(lo, r);
    Low4(lo, r);
    Low64(lo, r);
    Low256(lo, r);
    Low1024(lo, r);
  }

  lemma HighBits(e: nat, q: nat, pxn: nat, uxn: nat)
    requires q < 0x10_0000_0000 && pxn < 2 && uxn < 2
    requires e / 4096 == q + pxn * 0x200_0000_0000 + uxn * 0x400_0000_0000
    ensures e / 0x20_0000_0000_0000 % 2 == pxn && e / 0x40_0000_0000_0000 % 2 == uxn && e / 4096 % 0x10_0000_0000 == q
  {
    assert e / 0x20_0000_0000_0000 == e / 4096 / 0x200_0000_0000 == pxn + 2 * uxn;
    assert e / 0x40_0000_0000_0000 == e / 4096 / 0x400_0000_0000;
  }

  lemma BlockBits(e: nat, q: nat)
    requires e / 4096 % 0x10_0000_0000 == q && q % 512 == 0
    ensures BlockAddr(e) == q * 4096
  {
    var x := e / 4096;
    assert e / 0x20_0000 == x / 512;
    assert x / 512 % 0x800_0000 == q / 512;
  }

  /** The hardware reads back what a descriptor was built from. */
  lemma DescriptorFacts(pa: nat, kind: nat, a: Attr)
    requires AttrOk(a) && pa % 4096 == 0 && pa < PHYS_END && (kind == 1 || kind == 3)
    ensures var e := Descriptor(pa, kind, a);
            && Present(e) && (TableBit(e) <==> kind == 3) && OutAddr(e) == pa && AttrOf(e) == a
            && (pa % 0x20_0000 == 0 ==> BlockAddr(e) == pa)
  {
    hide Present, TableBit, OutAddr, BlockAddr, AttrOf;
    var q := pa / 4096;
    var lo := kind + a.index * 4 + a.ap * 64 + a.sh * 256 + a.af * 1024;
    var e := Descriptor(pa, kind, a);
    var r := q + a.pxn * 0x200_0000_0000 + a.uxn * 0x400_0000_0000;
    assert e == lo + 4096 * r && (pa % 0x20_0000 == 0 ==> q % 512 == 0);
    hide Descriptor;
    LowFields(kind, a);
    LowBits(e, lo, r);
    HighBits(e, q, a.pxn, a.uxn);
    if pa % 0x20_0000 == 0 { BlockBits(e, q); }
    Decoded(e, lo, q, kind, a);
  }

  lemma Decoded(e: nat, lo: nat, q: nat, kind: nat, a: Attr)
    requires e % 2 == 1 && (e / 2 % 2 == 1 <==> kind == 3) && e / 4096 % 0x10_0000_0000 == q
    requires e / 4 % 8 == a.index && e / 64 % 4 == a.ap && e / 256 % 4 == a.sh && e / 1024 % 2 == a.af
    requires e / 0x20_0000_0000_0000 % 2 == a.pxn && e / 0x40_0000_0000_0000 % 2 == a.uxn
    ensures Present(e) && (TableBit(e) <==> kind == 3) && OutAddr(e) == q * 4096 && AttrOf(e) == a
  {
  }

  // ---------------------------------------------------------------- the hardware walk

  datatype Hit = Hit(pa: nat, attr: Attr)

  /** What the MMU makes of virtual address `va`, bits [38:0]; a table pointer outside the tables faults. */
  ghost function Walk(tables: map<nat, Table>, root: nat, va: nat): Option<Hit> {
    if root !in tables || |tables[root]| != 512 then None
    else
      var e1 := tables[root][va / 0x4000_0000 % 512];
      if !Present(e1) then None
      else if !TableBit(e1) then Some(Hit(BigAddr(e1) + va % 0x4000_0000, AttrOf(e1)))
      else if OutAddr(e1) !in tables || |tables[OutAddr(e1)]| != 512 then None
      else
        var e2 := tables[OutAddr(e1)][va / 0x20_0000 % 512];
        if !Present(e2) then None
        else if !TableBit(e2) then Some(Hit(BlockAddr(e2) + va % 0x20_0000, AttrOf(e2)))
        else if OutAddr(e2) !in tables || |tables[OutAddr(e2)]| != 512 then None
        else
          var e3 := tables[OutAddr(e2)][va / 0x1000 % 512];
          if !Present(e3) || !TableBit(e3) then None
          else Some(Hit(OutAddr(e3) + va % 0x1000, AttrOf(e3)))
  }

  // ---------------------------------------------------------------- the tree

  /** The place of a table: the level-2 table of L1 slot `i`, the level-3 table of slots `i`, `j`. */
  datatype Place = Root | L2(i: nat) | L3(i: nat, j: nat)

  /** Tables by frame address, each with its place. */
  datatype Space = Space(root: nat, tables: map<nat, Table>, place: map<nat, Place>)

  ghost function Child(p: Place, k: nat): Place {
    match p
    case Root => L2(k)
    case L2(i) => L3(i, k)
    case L3(_, _) => p
  }

  /** Entry `k` of a table at place `p`: absent, a leaf, or the one table that belongs there. */
  ghost predicate EntryOk(s: Space, p: Place, k: nat, e: nat) {
    !Present(e) ||
    match p
    case Root => TableBit(e) && OutAddr(e) in s.place && s.place[OutAddr(e)] == L2(k)
    case L2(i) => !TableBit(e) || (OutAddr(e) in s.place && s.place[OutAddr(e)] == L3(i, k))
    case L3(_, _) => TableBit(e)
  }

  ghost predicate TableOk(s: Space, f: nat)
    requires f in s.tables && f in s.place
  {
    |s.tables[f]| == 512 && forall k :: 0 <= k < 512 ==> EntryOk(s, s.place[f], k, s.tables[f][k])
  }

  /** Every pointer leads to the one table of its place, so no table has two parents. */
  ghost predicate Tree(s: Space) {
    && s.place.Keys == s.tables.Keys && s.root in s.tables && s.place[s.root] == Root
    && (forall f :: f in s.tables ==> TableOk(s, f) && f % 4096 == 0 && f < PHYS_END)
    && forall f :: f in s.place && s.place[f] == Root ==> f == s.root
  }

  /** The entry that decides where page `v` goes at level 1, and the tables below it. */
  ghost function E1(s: Space, v: nat): nat
    requires Tree(s)
  {
    assert TableOk(s, s.root);
    s.tables[s.root][v / 0x4_0000 % 512]
  }

  ghost function T2(s: Space, v: nat): (f: nat)
    requires Tree(s) && Present(E1(s, v))
    ensures f in s.tables && s.place[f] == L2(v / 0x4_0000 % 512) && |s.tables[f]| == 512
  {
    assert TableOk(s, s.root);
    assert EntryOk(s, Root, v / 0x4_0000 % 512, E1(s, v));
    assert TableOk(s, OutAddr(E1(s, v)));
    OutAddr(E1(s, v))
  }

  ghost function E2(s: Space, v: nat): nat
    requires Tree(s) && Present(E1(s, v))
  {
    s.tables[T2(s, v)][v / 512 % 512]
  }

  ghost function T3(s: Space, v: nat): (f: nat)
    requires Tree(s) && Present(E1(s, v)) && Present(E2(s, v)) && TableBit(E2(s, v))
    ensures f in s.tables && s.place[f] == L3(v / 0x4_0000 % 512, v / 512 % 512) && |s.tables[f]| == 512
  {
    var t := T2(s, v);
    assert TableOk(s, t);
    assert EntryOk(s, s.place[t], v / 512 % 512, E2(s, v));
    assert TableOk(s, OutAddr(E2(s, v)));
    OutAddr(E2(s, v))
  }

  ghost function E3(s: Space, v: nat): nat
    requires Tree(s) && Present(E1(s, v)) && Present(E2(s, v)) && TableBit(E2(s, v))
  {
    s.tables[T3(s, v)][v % 512]
  }

  // ---------------------------------------------------------------- the translation

  /** A mapped page: physical page number and attributes. */
  datatype Page = Page(frame: nat, attr: Attr)

  ghost function Lookup(s: Space, v: nat): Option<Page>
    requires Tree(s)
  {
    if !Present(E1(s, v)) || !Present(E2(s, v)) then None
    else if !TableBit(E2(s, v)) then Some(Page(BlockAddr(E2(s, v)) / 4096 + v % 512, AttrOf(E2(s, v))))
    else if !Present(E3(s, v)) then None
    else Some(Page(OutAddr(E3(s, v)) / 4096, AttrOf(E3(s, v))))
  }

  /** The pages of the address space that are mapped. */
  ghost function Translation(s: Space): map<nat, Page>
    requires Tree(s)
  {
    map v: nat | 0 <= v < PAGES && Lookup(s, v).Some? :: Lookup(s, v).value
  }

  lemma Indices(va: nat)
    ensures var v := va / 4096;
            && va / 0x4000_0000 % 512 == v / 0x4_0000 % 512 && va / 0x20_0000 % 512 == v / 512 % 512 && va / 0x1000 % 512 == v % 512
            && va % 0x20_0000 == v % 512 * 4096 + va % 4096
  {
    assert va / 0x4000_0000 == va / 4096 / 0x4_0000;
    assert va / 0x20_0000 == va / 4096 / 512;
  }

  lemma AddressFacts(e: nat)
    ensures OutAddr(e) / 4096 * 4096 == OutAddr(e) && BlockAddr(e) / 4096 * 4096 == BlockAddr(e)
  {
  }

  /** The walk goes through the entries of the page. */
  lemma WalkEntries(s: Space, va: nat)
    requires Tree(s)
    ensures var v := va / 4096;
            Walk(s.tables, s.root, va) ==
              if !Present(E1(s, v)) || !Present(E2(s, v)) then None
              else if !TableBit(E2(s, v)) then Some(Hit(BlockAddr(E2(s, v)) + va % 0x20_0000, AttrOf(E2(s, v))))
              else if !Present(E3(s, v)) then None
              else Some(Hit(OutAddr(E3(s, v)) + va % 4096, AttrOf(E3(s, v))))
  {
    hide OutAddr, BlockAddr, BigAddr, AttrOf, TableBit, Present;
    var v := va / 4096;
    Indices(va);
    assert TableOk(s, s.root) && EntryOk(s, Root, v / 0x4_0000 % 512, E1(s, v));
    if Present(E1(s, v)) && Present(E2(s, v)) && TableBit(E2(s, v)) {
      var u := T3(s, v);
      assert TableOk(s, u) && EntryOk(s, s.place[u], v % 512, E3(s, v));
    }
  }

  /** The hardware walk of any address finds exactly the page of the translation, at the same offset. */
  lemma WalkFindsPage(s: Space, va: nat)
    requires Tree(s) && va < PAGES * 4096
    ensures var tr := Translation(s);
            var v := va / 4096;
            Walk(s.tables, s.root, va) ==
              if v in tr then Some(Hit(tr[v].frame * 4096 + va % 4096, tr[v].attr)) else None
  {
    hide OutAddr, BlockAddr, AttrOf, TableBit, Present, Walk, Tree, E1, E2, E3;
    var v := va / 4096;
    WalkEntries(s, va);
    Indices(va);
    if Present(E1(s, v)) && Present(E2(s, v)) {
      AddressFacts(E2(s, v));
      if TableBit(E2(s, v)) { AddressFacts(E3(s, v)); }
    }
  }

  // ---------------------------------------------------------------- parents

  /** Entry `k` of table `f` is a table descriptor for frame `g`. */
  ghost predicate Points(s: Space, f: nat, k: nat, g: nat)
    requires Tree(s)
  {
    && f in s.tables && !s.place[f].L3? && k < 512
    && |s.tables[f]| == 512 && Present(s.tables[f][k]) && TableBit(s.tables[f][k]) && OutAddr(s.tables[f][k]) == g
  }

  /** Table `f` is the root, or the walk can come to it. */
  ghost predicate Reachable(s: Space, f: nat)
    requires Tree(s)
  {
    || f == s.root
    || (exists i: nat :: Points(s, s.root, i, f))
    || exists i: nat, t: nat, j: nat :: Points(s, s.root, i, t) && Points(s, t, j, f)
  }

  lemma PointsPlace(s: Space, f: nat, k: nat, g: nat)
    requires Tree(s) && Points(s, f, k, g)
    ensures g in s.tables && s.place[g] == Child(s.place[f], k) && g != s.root
  {
    assert TableOk(s, f) && EntryOk(s, s.place[f], k, s.tables[f][k]);
  }

  /** Where the root leads, it leads to one table; so reachable tables at the same place are the same. */
  lemma SamePlace(s: Space, f: nat, g: nat)
    requires Tree(s) && Reachable(s, f) && Reachable(s, g) && f in s.place && g in s.place && s.place[f] == s.place[g] && !s.place[f].L3?
    ensures f == g
  {
    hide Present, TableBit, OutAddr;
    ReachedHow(s, f);
    ReachedHow(s, g);
  }

  lemma ReachedHow(s: Space, f: nat)
    requires Tree(s) && Reachable(s, f)
    ensures f in s.place
    ensures s.place[f] == Root ==> f == s.root
    ensures s.place[f].L2? ==> Points(s, s.root, s.place[f].i, f)
  {
    hide Present, TableBit, OutAddr;
    if f != s.root {
      if i: nat :| Points(s, s.root, i, f) {
        PointsPlace(s, s.root, i, f);
      } else {
        var i: nat, t: nat, j: nat :| Points(s, s.root, i, t) && Points(s, t, j, f);
        PointsPlace(s, s.root, i, t);
        PointsPlace(s, t, j, f);
      }
    }
  }

  /** Every table that a walk can reach has one parent and one entry there, and the root has none. */
  lemma OneParent(s: Space, f: nat, k: nat, h: nat, l: nat, g: nat)
    requires Tree(s) && Reachable(s, f) && Reachable(s, h) && Points(s, f, k, g) && Points(s, h, l, g)
    ensures f == h && k == l && g != s.root
  {
    hide Present, TableBit, OutAddr, Points, Reachable, Tree;
    PointsPlace(s, f, k, g);
    PointsPlace(s, h, l, g);
    PointsTable(s, f, k, g);
    PointsTable(s, h, l, g);
    SamePlace(s, f, h);
  }

  lemma PointsTable(s: Space, f: nat, k: nat, g: nat)
    requires Tree(s) && Points(s, f, k, g)
    ensures f in s.place && !s.place[f].L3?
  {
  }
}
