/** What the calls of src/vmm.c do to the translation, and how many table frames they take. */
module VmmSpec {
  import opened Sequences
  import opened PageTables
  import opened PageWrites

  datatype Flags = Flags(writable: bool, noExec: bool, device: bool)

  /** Kernel-only, never executable in user mode, inner shareable, accessed; devices never executable. */
  function Wanted(f: Flags): (a: Attr)
    ensures AttrOk(a)
  {
    Attr(if f.device then 0 else 1, if f.writable then 0 else 2, 3, 1, if f.device || f.noExec then 1 else 0, 1)
  }

  /** Pages `v`, `v + 1`, ... mapped one by one to frames `p`, `p + 1`, ... */
  ghost function MapPages(tr: map<nat, Page>, v: nat, p: nat, n: nat, a: Attr): map<nat, Page> {
    if n == 0 then tr else MapPages(tr, v, p, n - 1, a)[v + n - 1 := Page(p + n - 1, a)]
  }

  /** Exactly the pages of the range are mapped, in order; every other page is as before. */
  lemma {:induction false} MapPagesAt(tr: map<nat, Page>, v: nat, p: nat, n: nat, a: Attr, w: nat)
    ensures var u := MapPages(tr, v, p, n, a);
            if v <= w < v + n then w in u && u[w] == Page(p + w - v, a)
            else (w in u <==> w in tr) && (w in tr ==> u[w] == tr[w])
  {
    if n > 0 { MapPagesAt(tr, v, p, n - 1, a, w); }
  }

  lemma {:induction false} MapPagesJoin(tr: map<nat, Page>, v: nat, p: nat, n: nat, k: nat, a: Attr)
    ensures MapPages(MapPages(tr, v, p, n, a), v + n, p + n, k, a) == MapPages(tr, v, p, n + k, a)
  {
    if k > 0 { MapPagesJoin(tr, v, p, n, k - 1, a); }
  }

  // ---------------------------------------------------------------- in terms of the hardware walk

  /** The walk of `va` that mapping `virt` to `phys` asks for: reads, writes as wanted, all at EL1 only. */
  function Asked(virt: nat, phys: nat, f: Flags, va: nat): Option<Hit>
    requires virt <= va
  {
    Some(Hit(phys + (va - virt),
             Attr(index := if f.device then 0 else 1, ap := if f.writable then 0 else 2, sh := 3, af := 1,
                  pxn := if f.device || f.noExec then 1 else 0, uxn := 1)))
  }

  /** Every address in a page that begins in the `size` bytes from `virt` is mapped as asked, every other one as before. */
  ghost predicate RegionWalks(s: Space, u: Space, virt: nat, phys: nat, size: nat, f: Flags) {
    forall va: nat :: va < 0x80_0000_0000 ==>
      Walk(u.tables, u.root, va) ==
        if virt <= va && va - va % 4096 < virt + size then Asked(virt, phys, f, va) else Walk(s.tables, s.root, va)
  }

  /** Every such address is mapped as asked or as before, every other one as before. */
  ghost predicate RegionMayWalk(s: Space, u: Space, virt: nat, phys: nat, size: nat, f: Flags) {
    forall va: nat :: va < 0x80_0000_0000 ==>
      || Walk(u.tables, u.root, va) == Walk(s.tables, s.root, va)
      || (virt <= va && va - va % 4096 < virt + size && Walk(u.tables, u.root, va) == Asked(virt, phys, f, va))
  }

  lemma PageInRange(virt: nat, phys: nat, size: nat, va: nat)
    requires virt % 4096 == 0 && phys % 4096 == 0
    ensures virt <= va && va - va % 4096 < virt + size <==> virt / 4096 <= va / 4096 < virt / 4096 + (size + 4095) / 4096
    ensures virt <= va ==> (phys / 4096 + va / 4096 - virt / 4096) * 4096 + va % 4096 == phys + (va - virt)
  {
  }

  lemma MapsWalk(s: Space, u: Space, virt: nat, phys: nat, size: nat, f: Flags)
    requires Tree(s) && Tree(u) && virt % 4096 == 0 && phys % 4096 == 0
    requires Translation(u) == MapPages(Translation(s), virt / 4096, phys / 4096, (size + 4095) / 4096, Wanted(f))
    ensures RegionWalks(s, u, virt, phys, size, f)
  {
    hide MapPages, Tree, Translation, Walk;
    forall va: nat | va < 0x80_0000_0000
      ensures Walk(u.tables, u.root, va) ==
                if virt <= va && va - va % 4096 < virt + size then Asked(virt, phys, f, va) else Walk(s.tables, s.root, va)
    {
      WalkFindsPage(s, va);
      WalkFindsPage(u, va);
      PageInRange(virt, phys, size, va);
      MapPagesAt(Translation(s), virt / 4096, phys / 4096, (size + 4095) / 4096, Wanted(f), va / 4096);
    }
  }

  /** One page is a region of 4096 bytes. */
  lemma PageWalks(s: Space, u: Space, virt: nat, phys: nat, f: Flags)
    requires Tree(s) && Tree(u) && virt % 4096 == 0 && phys % 4096 == 0
    requires Translation(u) == Translation(s)[virt / 4096 := Page(phys / 4096, Wanted(f))]
    ensures RegionWalks(s, u, virt, phys, 4096, f)
  {
    hide Tree, Translation, RegionWalks;
    assert MapPages(Translation(s), virt / 4096, phys / 4096, 0, Wanted(f)) == Translation(s);
    MapsWalk(s, u, virt, phys, 4096, f);
  }

  // ---------------------------------------------------------------- slots

  /** The L1 slot of page `v` has a table. */
  ghost predicate Has1(s: Space, v: nat)
    requires Tree(s)
  {
    Present(E1(s, v))
  }

  /** The L2 slot of page `v` has an entry. */
  ghost predicate Has2(s: Space, v: nat)
    requires Tree(s)
  {
    Present(E1(s, v)) && Present(E2(s, v))
  }

  /** ... and that entry is a block. */
  ghost predicate BlockAt(s: Space, v: nat)
    requires Tree(s)
  {
    Present(E1(s, v)) && Present(E2(s, v)) && !TableBit(E2(s, v))
  }

  /** From `s` to `u` no table is lost and no block appears outside the slot of page `w`. */
  ghost predicate Grows(s: Space, u: Space, w: int) {
    && Tree(s) && Tree(u)
    && forall v: nat :: v < PAGES ==>
         && (Has1(s, v) ==> Has1(u, v)) && (Has2(s, v) ==> Has2(u, v))
         && (BlockAt(u, v) ==> BlockAt(s, v) || (w >= 0 && v / 512 == w / 512))
  }

  lemma SameTranslation(s: Space, u: Space)
    requires Tree(s) && Tree(u) && forall v: nat :: v < PAGES ==> Lookup(u, v) == Lookup(s, v)
    ensures Translation(u) == Translation(s)
  {
    hide Tree, Lookup;
  }

  /** A level-2 table below the slot of page `w`. */
  lemma NewL2(s: Space, w: nat, f: nat)
    requires Tree(s) && !Has1(s, w) && f !in s.tables && f % 4096 == 0 && f < PHYS_END && w < PAGES
    requires s.root in s.tables && s.root in s.place && |s.tables[s.root]| == 512
    ensures var u := Link(s, s.root, w / 0x4_0000 % 512, f);
            Grows(s, u, -1) && Translation(u) == Translation(s) && Has1(u, w) && !Has2(u, w)
  {
    hide Present, TableBit, OutAddr, BlockAddr, AttrOf, Tree, Link, E1, E2, E3, T2, T3;
    RootPlace(s);
    LinkTree(s, s.root, w / 0x4_0000 % 512, f);
    var u := Link(s, s.root, w / 0x4_0000 % 512, f);
    forall v: nat | v < PAGES
      ensures Lookup(u, v) == Lookup(s, v)
      ensures (Has1(s, v) ==> Has1(u, v)) && (Has2(s, v) ==> Has2(u, v)) && (BlockAt(u, v) ==> BlockAt(s, v))
    {
      LinkL2(s, w, f, v);
    }
    LinkL2(s, w, f, w);
    SameTranslation(s, u);
  }

  /** A level-3 table below the slot of page `w`. */
  lemma NewL3(s: Space, w: nat, f: nat)
    requires Tree(s) && Has1(s, w) && !Has2(s, w) && f !in s.tables && f % 4096 == 0 && f < PHYS_END && w < PAGES
    ensures var u := Link(s, T2(s, w), w / 512 % 512, f);
            && Grows(s, u, -1) && Translation(u) == Translation(s)
            && Has2(u, w) && !BlockAt(u, w) && T3(u, w) == f
  {
    hide Present, TableBit, OutAddr, BlockAddr, AttrOf, Tree, Link, E1, E2, E3, T2, T3;
    RootPlace(s);
    LinkTree(s, T2(s, w), w / 512 % 512, f);
    var u := Link(s, T2(s, w), w / 512 % 512, f);
    forall v: nat | v < PAGES
      ensures Lookup(u, v) == Lookup(s, v)
      ensures (Has1(s, v) ==> Has1(u, v)) && (Has2(s, v) ==> Has2(u, v)) && (BlockAt(u, v) ==> BlockAt(s, v))
    {
      LinkL3(s, w, f, v);
    }
    LinkL3(s, w, f, w);
    SameTranslation(s, u);
  }

  /** A page entry maps its page. */
  lemma NewPage(s: Space, w: nat, pa: nat, a: Attr)
    requires Tree(s) && Has2(s, w) && !BlockAt(s, w) && w < PAGES && pa % 4096 == 0 && pa < PHYS_END && AttrOk(a)
    ensures var u := Set(s, T3(s, w), w % 512, Descriptor(pa, 3, a));
            Grows(s, u, -1) && Translation(u) == Translation(s)[w := Page(pa / 4096, a)] && Has2(u, w)
  {
    hide Present, TableBit, OutAddr, BlockAddr, AttrOf, Descriptor, Tree, Set, E1, E2, E3, T2, T3;
    var e := Descriptor(pa, 3, a);
    DescriptorFacts(pa, 3, a);
    SetTree(s, T3(s, w), w % 512, e);
    var u := Set(s, T3(s, w), w % 512, e);
    forall v: nat | v < PAGES
      ensures Lookup(u, v) == if v == w then Some(Page(pa / 4096, a)) else Lookup(s, v)
      ensures (Has1(s, v) ==> Has1(u, v)) && (Has2(s, v) ==> Has2(u, v)) && (BlockAt(u, v) ==> BlockAt(s, v))
    {
      SetPage(s, w, e, v);
    }
    OneMapped(s, u, w, Page(pa / 4096, a));
  }

  lemma OneMapped(s: Space, u: Space, w: nat, pg: Page)
    requires Tree(s) && Tree(u) && w < PAGES
    requires forall v: nat :: v < PAGES ==> Lookup(u, v) == if v == w then Some(pg) else Lookup(s, v)
    ensures Translation(u) == Translation(s)[w := pg]
  {
    hide Tree, Lookup;
  }

  lemma BlockLookup(u: Space, v: nat, e: nat, pa: nat, a: Attr)
    requires Tree(u) && Present(E1(u, v)) && E2(u, v) == e && Present(e) && !TableBit(e) && BlockAddr(e) == pa && AttrOf(e) == a
    ensures Lookup(u, v) == Some(Page(pa / 4096 + v % 512, a)) && Has1(u, v) && Has2(u, v)
  {
    hide Tree, Present, TableBit, BlockAddr, AttrOf;
  }

  lemma PathKept(s: Space, u: Space, v: nat)
    requires Tree(s) && Tree(u) && SamePath(s, u, v)
    ensures Lookup(u, v) == Lookup(s, v) && Has1(u, v) == Has1(s, v) && Has2(u, v) == Has2(s, v) && BlockAt(u, v) == BlockAt(s, v)
  {
    hide Tree, Present, TableBit, BlockAddr, AttrOf, OutAddr;
  }

  lemma BlockDescriptor(pa: nat, a: Attr)
    requires pa % 0x20_0000 == 0 && pa < PHYS_END && AttrOk(a)
    ensures var e := Descriptor(pa, 1, a);
            Present(e) && !TableBit(e) && BlockAddr(e) == pa && AttrOf(e) == a
  {
    hide Present, TableBit, BlockAddr, AttrOf, Descriptor;
    assert pa % 4096 == 0;
    DescriptorFacts(pa, 1, a);
  }

  /** A block entry maps 512 pages, as 512 page mappings would. */
  lemma NewBlock(s: Space, w: nat, pa: nat, a: Attr)
    requires Tree(s) && Has1(s, w) && w < PAGES && w % 512 == 0 && pa % 0x20_0000 == 0 && pa < PHYS_END && AttrOk(a)
    ensures var u := Set(s, T2(s, w), w / 512 % 512, Descriptor(pa, 1, a));
            Grows(s, u, w) && Translation(u) == MapPages(Translation(s), w, pa / 4096, 512, a)
  {
    hide Present, TableBit, OutAddr, BlockAddr, AttrOf, Descriptor, Tree, Set, E1, E2, E3, T2, T3, Lookup, SamePath, MapPages, Translation, Has2, BlockAt;
    var e := Descriptor(pa, 1, a);
    BlockDescriptor(pa, a);
    SetTree(s, T2(s, w), w / 512 % 512, e);
    var u := Set(s, T2(s, w), w / 512 % 512, e);
    forall v: nat | v < PAGES
      ensures Lookup(u, v) == if v / 512 == w / 512 then Some(Page(pa / 4096 + v % 512, a)) else Lookup(s, v)
      ensures (Has1(s, v) ==> Has1(u, v)) && (Has2(s, v) ==> Has2(u, v)) && (BlockAt(u, v) ==> BlockAt(s, v) || v / 512 == w / 512)
    {
      SetBlock(s, w, e, v);
      if v / 512 == w / 512 { BlockLookup(u, v, e, pa, a); } else { PathKept(s, u, v); }
    }
    SlotMapped(s, u, w, pa / 4096, a);
  }

  lemma SlotMapped(s: Space, u: Space, w: nat, p: nat, a: Attr)
    requires Tree(s) && Tree(u) && w < PAGES && w % 512 == 0
    requires forall v: nat :: v < PAGES ==> Lookup(u, v) == if v / 512 == w / 512 then Some(Page(p + v % 512, a)) else Lookup(s, v)
    ensures Translation(u) == MapPages(Translation(s), w, p, 512, a)
  {
    hide Tree, Lookup, MapPages;
    var tr := MapPages(Translation(s), w, p, 512, a);
    forall v: nat
      ensures v in Translation(u) <==> v in tr
      ensures v in tr ==> v in Translation(u) && Translation(u)[v] == tr[v]
    {
      MapPagesAt(Translation(s), w, p, 512, a, v);
    }
  }

  // ---------------------------------------------------------------- the mappings of init_vmm

  const NORMAL_RW: Flags := Flags(true, false, false)
  const DEVICE_RW: Flags := Flags(true, false, true)

  /** Pages that RAM takes, the last one perhaps in part. */
  function RamPages(ram: nat): nat {
    (ram + 4095) / 4096
  }

  /** Page numbers: RAM from 0x40000000, the heap window, and the GIC, UART and virtio windows of 1 MB. */
  predicate InRam(ram: nat, v: nat) {
    0x4_0000 <= v < 0x4_0000 + RamPages(ram)
  }

  predicate InHeap(v: nat) {
    0x5_0000 <= v < 0x5_0800
  }

  predicate InDevice(v: nat) {
    0x8000 <= v < 0x8100 || 0x9000 <= v < 0x9100 || 0xa000 <= v < 0xa100
  }

  /** RAM and the heap window as normal, the device windows as device memory, everything to itself. */
  ghost function InitMap(ram: nat): map<nat, Page> {
    map v: nat | 0 <= v < PAGES && (InRam(ram, v) || InHeap(v) || InDevice(v)) ::
      Page(v, Wanted(if InDevice(v) then DEVICE_RW else NORMAL_RW))
  }

  /** The six mappings of `init_vmm` in their order, the kernel having `k` pages. */
  ghost function InitSequence(ram: nat, k: nat): map<nat, Page> {
    var normal, device := Wanted(NORMAL_RW), Wanted(DEVICE_RW);
    var kernel := MapPages(map[], 0x4_0000, 0x4_0000, k, normal);
    var all := MapPages(kernel, 0x4_0000, 0x4_0000, RamPages(ram), normal);
    var heap := MapPages(all, 0x5_0000, 0x5_0000, 2048, normal);
    var uart := MapPages(heap, 0x9000, 0x9000, 256, device);
    var virtio := MapPages(uart, 0xa000, 0xa000, 256, device);
    MapPages(virtio, 0x8000, 0x8000, 256, device)
  }

  lemma InitSequenceIs(ram: nat, k: nat)
    requires k <= RamPages(ram) && 0x4_0000 + RamPages(ram) <= PAGES
    ensures InitSequence(ram, k) == InitMap(ram)
  {
    hide MapPages;
    var normal, device := Wanted(NORMAL_RW), Wanted(DEVICE_RW);
    var kernel := MapPages(map[], 0x4_0000, 0x4_0000, k, normal);
    var all := MapPages(kernel, 0x4_0000, 0x4_0000, RamPages(ram), normal);
    var heap := MapPages(all, 0x5_0000, 0x5_0000, 2048, normal);
    var uart := MapPages(heap, 0x9000, 0x9000, 256, device);
    var virtio := MapPages(uart, 0xa000, 0xa000, 256, device);
    forall v: nat
      ensures v in InitSequence(ram, k) <==> v in InitMap(ram)
      ensures v in InitMap(ram) ==> v in InitSequence(ram, k) && InitSequence(ram, k)[v] == InitMap(ram)[v]
    {
      MapPagesAt(map[], 0x4_0000, 0x4_0000, k, normal, v);
      MapPagesAt(kernel, 0x4_0000, 0x4_0000, RamPages(ram), normal, v);
      MapPagesAt(all, 0x5_0000, 0x5_0000, 2048, normal, v);
      MapPagesAt(heap, 0x9000, 0x9000, 256, device, v);
      MapPagesAt(uart, 0xa000, 0xa000, 256, device, v);
      MapPagesAt(virtio, 0x8000, 0x8000, 256, device, v);
    }
  }

  /** With at least 264 MB of RAM the heap window is part of it: exactly RAM and the devices are mapped. */
  lemma HeapInsideRam(ram: nat, v: nat)
    requires 0x4_0000 + RamPages(ram) <= PAGES
    ensures ram >= 0x1080_0000 ==> (v in InitMap(ram) <==> InRam(ram, v) || InDevice(v))
  {
  }

  /** Addresses of the three windows of 1 MB: interrupt controller, serial line, virtio. */
  predicate DeviceAddress(va: nat) {
    0x0800_0000 <= va < 0x0810_0000 || 0x0900_0000 <= va < 0x0910_0000 || 0x0a00_0000 <= va < 0x0a10_0000
  }

  /** Addresses in a page that begins in RAM, and the heap window of 8 MB. */
  predicate MemoryAddress(ram: nat, va: nat) {
    (0x4000_0000 <= va && va - va % 4096 < 0x4000_0000 + ram) || 0x5000_0000 <= va < 0x5080_0000
  }

  /**
   What the hardware does with each address after `init_vmm`: memory is read, written and executed
   at EL1, cached; devices are read and written at EL1, never executed, not cached; everything is at
   its own address, and nothing else is mapped.
   */
  ghost predicate InitWalks(s: Space, ram: nat) {
    forall va: nat :: va < 0x80_0000_0000 ==>
      Walk(s.tables, s.root, va) ==
        if DeviceAddress(va) then Some(Hit(va, Attr(index := 0, ap := 0, sh := 3, af := 1, pxn := 1, uxn := 1)))
        else if MemoryAddress(ram, va) then Some(Hit(va, Attr(index := 1, ap := 0, sh := 3, af := 1, pxn := 0, uxn := 1)))
        else None
  }

  lemma InitMapWalks(s: Space, ram: nat)
    requires Tree(s) && Translation(s) == InitMap(ram) && 0x4_0000 + RamPages(ram) <= PAGES
    ensures InitWalks(s, ram)
  {
    hide Tree, Translation, Walk;
    forall va: nat | va < 0x80_0000_0000
      ensures Walk(s.tables, s.root, va) ==
                if DeviceAddress(va) then Some(Hit(va, Attr(index := 0, ap := 0, sh := 3, af := 1, pxn := 1, uxn := 1)))
                else if MemoryAddress(ram, va) then Some(Hit(va, Attr(index := 1, ap := 0, sh := 3, af := 1, pxn := 0, uxn := 1)))
                else None
    {
      WalkFindsPage(s, va);
      PageInRange(0x4000_0000, 0x4000_0000, ram, va);
      PageOfAddress(ram, va);
    }
  }

  lemma PageOfAddress(ram: nat, va: nat)
    ensures InDevice(va / 4096) <==> DeviceAddress(va)
    ensures InRam(ram, va / 4096) || InHeap(va / 4096) <==> MemoryAddress(ram, va)
    ensures va / 4096 * 4096 + va % 4096 == va
  {
    PageInRange(0x4000_0000, 0x4000_0000, ram, va);
  }
}
