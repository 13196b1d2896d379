/** The mapping calls of src/vmm.c on tables in frames from the frame allocator. */
module VmmClass {
  import opened Division
  import opened PageTables
  import opened PageWrites
  import opened VmmSpec
  import opened VmmRegion
  import P = PmmSpec
  import opened PmmClass

  /** Frame `f` is held: whole, inside RAM, and with a reference. */
  ghost predicate Held(fr: P.Frames, f: nat) {
    var i := P.PhysToIndex(fr.ram, f);
    i < |fr.counts| && f == P.IndexToPhys(i) && fr.counts[i] > 0
  }

  /** The table frames that mapping page `v` needs and does not find. */
  ghost function Need(s: Space, v: nat): nat
    requires Tree(s)
  {
    (if Has1(s, v) then 0 else 1) + (if Has2(s, v) then 0 else 1)
  }

  lemma AllocHeld(fr: P.Frames)
    requires P.Inv(fr)
    ensures var (u, f) := P.Alloc(fr);
            && P.Inv(u) && (f == 0 <==> fr.stack == []) && (f == 0 ==> u == fr)
            && (f != 0 ==> |u.stack| == |fr.stack| - 1 && Held(u, f) && !Held(fr, f) && f % 4096 == 0 && f < PHYS_END)
            && forall g :: Held(fr, g) ==> Held(u, g) && g != f
  {
    P.AllocCorrect(fr);
  }

  class Vmm {
    const pmm: Pmm
    var rootTable: nat
    var tables: map<nat, Table>
    ghost var place: map<nat, Place>

    ghost function Tables(): Space
      reads this
    {
      Space(rootTable, tables, place)
    }

    /** The tables form a tree, and none of their frames is free. */
    ghost predicate Valid()
      reads this, pmm, pmm.frameStack, pmm.refCounts
    {
      pmm.Valid() && Tree(Tables()) && forall f :: f in tables ==> Held(pmm.Abs(), f)
    }

    /** A frame of a table is never free, so the allocator cannot hand it out. */
    lemma TablesAreNotFree(f: nat)
      requires Valid() && f in tables
      ensures P.PhysToIndex(pmm.ram, f) !in pmm.Abs().stack && f == P.IndexToPhys(P.PhysToIndex(pmm.ram, f))
    {
      assert Held(pmm.Abs(), f);
    }

    ghost function FreeFrames(): nat
      reads pmm, pmm.frameStack, pmm.refCounts
      requires pmm.Valid()
    {
      |pmm.Abs().stack|
    }

    /** `get_next_table` */
    method GetNextTable(table: nat, idx: nat) returns (next: nat)
      requires Valid() && table in tables && idx < 512 && |tables[table]| == 512 && !place[table].L3?
      requires Present(tables[table][idx]) ==> OutAddr(tables[table][idx]) in tables
      modifies this, pmm, pmm.frameStack, pmm.refCounts
      ensures Valid() && rootTable == old(rootTable)
      ensures Present(old(tables)[table][idx]) ==>
                Tables() == old(Tables()) && FreeFrames() == old(FreeFrames()) && next == OutAddr(old(tables)[table][idx]) && next != 0
      ensures !Present(old(tables)[table][idx]) && old(FreeFrames()) == 0 ==>
                next == 0 && Tables() == old(Tables()) && FreeFrames() == 0
      ensures !Present(old(tables)[table][idx]) && old(FreeFrames()) > 0 ==>
                && next != 0 && next !in old(tables) && next % 4096 == 0 && next < PHYS_END
                && FreeFrames() == old(FreeFrames()) - 1 && Tables() == Link(old(Tables()), table, idx, next)
    {
      hide Tree, Present, OutAddr, TableEntry, Put, P.Inv, P.Alloc;
      if Present(tables[table][idx]) {
        return OutAddr(tables[table][idx]);
      }
      RootPlace(Tables());
      AllocHeld(pmm.Abs());
      next := pmm.AllocFrame();
      if next == 0 { return; }
      LinkTree(Tables(), table, idx, next);
      place := place[next := Child(place[table], idx)];
      tables := tables[next := Empty()];
      tables := tables[table := Put(tables[table], idx, TableEntry(next))];
    }

    /** The walk from level 1 to level 2 for page `v`. */
    method TableL2(v: nat) returns (l2: nat)
      requires Valid() && v < PAGES
      modifies this, pmm, pmm.frameStack, pmm.refCounts
      ensures Valid() && rootTable == old(rootTable) && Grows(old(Tables()), Tables(), -1)
      ensures Translation(Tables()) == Translation(old(Tables()))
      ensures l2 != 0 <==> Has1(old(Tables()), v) || old(FreeFrames()) > 0
      ensures FreeFrames() == if Has1(old(Tables()), v) || old(FreeFrames()) == 0 then old(FreeFrames()) else old(FreeFrames()) - 1
      ensures l2 != 0 ==> Has1(Tables(), v) && l2 == T2(Tables(), v) && (Has2(Tables(), v) <==> Has2(old(Tables()), v))
    {
      hide Tree, Present, OutAddr, Link, E2, E3, T3, Translation;
      ghost var s := Tables();
      RootPlace(s);
      RootEntry(s, v);
      var idx := v / 0x4_0000 % 512;
      l2 := GetNextTable(rootTable, idx);
      if !Has1(s, v) && l2 != 0 {
        NewL2(s, v, l2);
        ChildL2(s, v, l2);
      }
    }

    /** ... and from level 2 to level 3. */
    method TableL3(v: nat, l2: nat) returns (l3: nat)
      requires Valid() && v < PAGES && Has1(Tables(), v) && l2 == T2(Tables(), v) && !BlockAt(Tables(), v)
      modifies this, pmm, pmm.frameStack, pmm.refCounts
      ensures Valid() && rootTable == old(rootTable) && Grows(old(Tables()), Tables(), -1)
      ensures Translation(Tables()) == Translation(old(Tables()))
      ensures l3 != 0 <==> Has2(old(Tables()), v) || old(FreeFrames()) > 0
      ensures FreeFrames() == if Has2(old(Tables()), v) || old(FreeFrames()) == 0 then old(FreeFrames()) else old(FreeFrames()) - 1
      ensures l3 != 0 ==> Has2(Tables(), v) && !BlockAt(Tables(), v) && l3 == T3(Tables(), v)
    {
      hide Tree, Present, OutAddr, TableBit, Link, E1, E3, T2, Translation;
      ghost var s := Tables();
      EntryL2(s, v);
      l3 := GetNextTable(l2, v / 512 % 512);
      if !Has2(s, v) && l3 != 0 {
        NewL3(s, v, l3);
      }
    }

    /** The last part of `vmm_map_page`: build the entry and write it to the level-3 table. */
    method WritePage(v: nat, l3: nat, phys: nat, flags: Flags)
      requires Valid() && v < PAGES && Has2(Tables(), v) && !BlockAt(Tables(), v) && l3 == T3(Tables(), v)
      requires phys % 4096 == 0 && phys < PHYS_END
      modifies `tables
      ensures Valid() && Grows(old(Tables()), Tables(), -1) && Has2(Tables(), v)
      ensures Translation(Tables()) == Translation(old(Tables()))[v := Page(phys / 4096, Wanted(flags))]
    {
      hide Tree, Present, OutAddr, TableBit, E1, E2, E3, T2, T3, Translation, Descriptor, Has2, BlockAt, P.Inv;
      EntryL3(Tables(), v);
      NewPage(Tables(), v, phys, Wanted(flags));
      var entry := Entry(phys, 3, flags);
      tables := tables[l3 := Put(tables[l3], v % 512, entry)];
    }

    /** The last part of `vmm_map_block`. */
    method WriteBlock(v: nat, l2: nat, phys: nat, flags: Flags)
      requires Valid() && v < PAGES && Has1(Tables(), v) && l2 == T2(Tables(), v)
      requires v % 512 == 0 && phys % 0x20_0000 == 0 && phys < PHYS_END
      modifies `tables
      ensures Valid() && Grows(old(Tables()), Tables(), v) && Has1(Tables(), v)
      ensures Translation(Tables()) == MapPages(Translation(old(Tables())), v, phys / 4096, 512, Wanted(flags))
    {
      hide Tree, Present, OutAddr, TableBit, E1, E2, E3, T2, T3, Translation, Descriptor, MapPages, Has1, P.Inv;
      T2Facts(Tables(), v);
      BlockAligned(phys);
      NewBlock(Tables(), v, phys, Wanted(flags));
      var entry := Entry(phys, 1, flags);
      tables := tables[l2 := Put(tables[l2], v / 512 % 512, entry)];
    }

    /** `vmm_map_page`: `ok` says whether the tables it needed could be had. */
    method MapPage(virt: nat, phys: nat, flags: Flags) returns (ghost ok: bool)
      requires Valid() && virt % 4096 == 0 && phys % 4096 == 0 && virt / 4096 < PAGES && phys < PHYS_END
      requires !BlockAt(Tables(), virt / 4096)
      modifies this, pmm, pmm.frameStack, pmm.refCounts
      ensures Valid() && rootTable == old(rootTable) && Grows(old(Tables()), Tables(), -1)
      ensures ok <==> Need(old(Tables()), virt / 4096) <= old(FreeFrames())
      ensures FreeFrames() == if ok then old(FreeFrames()) - Need(old(Tables()), virt / 4096) else 0
      ensures Translation(Tables()) ==
                if ok then Translation(old(Tables()))[virt / 4096 := Page(phys / 4096, Wanted(flags))] else Translation(old(Tables()))
      ensures ok ==> RegionWalks(old(Tables()), Tables(), virt, phys, 4096, flags)
      ensures ok ==> Has2(Tables(), virt / 4096)
    {
      hide Tree, Present, Translation, Has1, Has2, BlockAt, T2, T3, P.Inv, RegionWalks;
      ghost var v, s := virt / 4096, Tables();
      Slots1(s, v);
      ok := false;
      var l2 := TableL2(virt / 4096);
      if l2 == 0 { return; }
      GrowsAt(s, Tables(), v);
      ghost var s1 := Tables();
      var l3 := TableL3(virt / 4096, l2);
      GrowsTrans(s, s1, Tables(), -1);
      if l3 == 0 { return; }
      ghost var s2 := Tables();
      WritePage(virt / 4096, l3, phys, flags);
      GrowsTrans(s, s2, Tables(), -1);
      ok := true;
      PageWalks(s, Tables(), virt, phys, flags);
    }

    /** `vmm_map_block` */
    method MapBlock(virt: nat, phys: nat, flags: Flags) returns (ghost ok: bool)
      requires Valid() && virt % 0x20_0000 == 0 && phys % 0x20_0000 == 0 && virt / 4096 < PAGES && phys < PHYS_END
      modifies this, pmm, pmm.frameStack, pmm.refCounts
      ensures Valid() && rootTable == old(rootTable) && Grows(old(Tables()), Tables(), virt / 4096)
      ensures ok <==> Has1(old(Tables()), virt / 4096) || old(FreeFrames()) > 0
      ensures FreeFrames() == if ok && !Has1(old(Tables()), virt / 4096) then old(FreeFrames()) - 1 else old(FreeFrames())
      ensures Translation(Tables()) ==
                if ok then MapPages(Translation(old(Tables())), virt / 4096, phys / 4096, 512, Wanted(flags)) else Translation(old(Tables()))
      ensures ok ==> RegionWalks(old(Tables()), Tables(), virt, phys, 0x20_0000, flags)
      ensures ok ==> Has1(Tables(), virt / 4096)
    {
      hide Tree, Present, Translation, Has1, Has2, BlockAt, T2, MapPages, P.Inv, RegionWalks;
      ghost var v, s := virt / 4096, Tables();
      ok := false;
      var l2 := TableL2(virt / 4096);
      GrowsWider(s, Tables(), v);
      if l2 == 0 { return; }
      ghost var s1 := Tables();
      WriteBlock(virt / 4096, l2, phys, flags);
      GrowsTrans(s, s1, Tables(), v);
      ok := true;
      BlockWalks(s, Tables(), virt, phys, flags);
    }

    /** One turn of the loop of `vmm_map_region`: a block if it fits here, else a page. */
    method MapChunk(virt: nat, phys: nat, size: nat, mapped: nat, flags: Flags, ghost s0: Space, ghost free0: nat, ghost ok: bool, ghost k: Count)
      returns (step: nat, ghost done: bool, ghost l: Count)
      requires Valid() && Tree(s0) && virt % 4096 == 0 && phys % 4096 == 0 && mapped % 4096 == 0 && mapped < size
      requires virt / 4096 + (size + 4095) / 4096 <= PAGES && phys + (size + 4095) / 4096 * 4096 <= PHYS_END
      requires NoPageUnderBlock(s0, RegionOf(virt, phys, size))
      requires Mapped(RegionOf(virt, phys, size), s0, Tables(), mapped / 4096, free0, FreeFrames(), ok, k, Wanted(flags))
      modifies this, pmm, pmm.frameStack, pmm.refCounts
      ensures Valid() && rootTable == old(rootTable) && (step == 4096 || step == 0x20_0000)
      ensures Mapped(RegionOf(virt, phys, size), s0, Tables(), (mapped + step) / 4096, free0, FreeFrames(), ok && done, l, Wanted(flags))
    {
      hide Tree, P.Inv, Translation, MapPages, Has1, Has2, BlockAt, NoPageUnderBlock, Mapped, InBlock, Need;
      ghost var r, a, s, m, free := RegionOf(virt, phys, size), Wanted(flags), Tables(), mapped / 4096, FreeFrames();
      Turn(virt, phys, size, mapped, s0, s, free0, free, ok, k, a);
      if (virt + mapped) % 0x20_0000 == 0 && (phys + mapped) % 0x20_0000 == 0 && size - mapped >= 0x20_0000 {
        done := MapBlock(virt + mapped, phys + mapped, flags);
        BlockTurn(r, s0, s, Tables(), m, free0, free, ok, k, FreeFrames(), done, a);
        l := k;
        step := 0x20_0000;
      } else {
        done := MapPage(virt + mapped, phys + mapped, flags);
        l := PageTurn(r, s0, s, Tables(), m, free0, free, ok, k, FreeFrames(), done, a);
        step := 4096;
      }
    }

    /** `vmm_map_region`: `ok` says that no table was missing. */
    method MapRegion(virt: nat, phys: nat, size: nat, flags: Flags) returns (ghost ok: bool)
      requires Valid() && virt % 4096 == 0 && phys % 4096 == 0
      requires virt / 4096 + (size + 4095) / 4096 <= PAGES && phys + (size + 4095) / 4096 * 4096 <= PHYS_END
      requires NoPageUnderBlock(Tables(), RegionOf(virt, phys, size))
      modifies this, pmm, pmm.frameStack, pmm.refCounts
      ensures Valid() && rootTable == old(rootTable)
      ensures var r := RegionOf(virt, phys, size);
              && (ok ==> Translation(Tables()) == MapPages(Translation(old(Tables())), r.v, r.p, r.n, Wanted(flags)))
              && Partly(Translation(old(Tables())), Translation(Tables()), r, r.n, Wanted(flags))
              && NewBlocks(r, old(Tables()), Tables())
              && old(FreeFrames()) - FreeFrames() <= Bound(r) && (old(FreeFrames()) >= Bound(r) ==> ok)
      ensures ok ==> RegionWalks(old(Tables()), Tables(), virt, phys, size, flags)
      ensures RegionMayWalk(old(Tables()), Tables(), virt, phys, size, flags)
    {
      hide Tree, P.Inv, Translation, MapPages, Has1, Has2, BlockAt, Bound, Partly, NewBlocks, NoPageUnderBlock, Mapped, InBlock, RegionWalks, RegionMayWalk;
      ghost var s0, r, a, free0 := Tables(), RegionOf(virt, phys, size), Wanted(flags), FreeFrames();
      ghost var k := Count(0, 0, 0);
      ok := true;
      Start(s0, r, free0, a);
      var mapped := 0;
      while mapped < size
        invariant Valid() && rootTable == old(rootTable) && mapped % 4096 == 0
        invariant Mapped(r, s0, Tables(), mapped / 4096, free0, FreeFrames(), ok, k, a)
      {
        ghost var done;
        var step;
        step, done, k := MapChunk(virt, phys, size, mapped, flags, s0, free0, ok, k);
        mapped := mapped + step;
        ok := ok && done;
      }
      Finish(r, s0, Tables(), mapped / 4096, free0, FreeFrames(), ok, k, a);
      if ok { MapsWalk(s0, Tables(), virt, phys, size, flags); }
      PartlyWalks(s0, Tables(), virt, phys, size, flags);
    }

    /** `init_vmm`, up to switching translation on. */
    constructor InitVmm(pmm: Pmm, kernelEnd: nat)
      requires pmm.Valid() && P.RAM_BASE <= kernelEnd <= P.RAM_BASE + pmm.ram <= PAGES * 4096
      requires |pmm.Abs().stack| >= InitFrames(pmm.ram)
      modifies pmm, pmm.frameStack, pmm.refCounts
      ensures this.pmm == pmm && Valid() && Translation(Tables()) == InitMap(pmm.ram) && InitWalks(Tables(), pmm.ram)
    {
      hide InitWalks, Tree, P.Inv, P.Alloc, Translation, MapPages, BlockAt, Bound, Partly, NewBlocks, NoPageUnderBlock, InitMap;
      AllocHeld(pmm.Abs());
      var rootPhys := pmm.AllocFrame();
      this.pmm := pmm;
      rootTable := rootPhys;
      tables := map[rootPhys := Empty()];
      place := map[rootPhys := Root];
      new;
      OneTable(Tables());
      InitRegions(kernelEnd);
      InitMapWalks(Tables(), pmm.ram);
    }

    method InitRegions(kernelEnd: nat)
      requires Valid() && Translation(Tables()) == map[] && forall w: nat :: w < PAGES ==> !BlockAt(Tables(), w)
      requires P.RAM_BASE <= kernelEnd <= P.RAM_BASE + pmm.ram <= PAGES * 4096 && FreeFrames() >= InitFrames(pmm.ram) - 1
      modifies this, pmm, pmm.frameStack, pmm.refCounts
      ensures Valid() && Translation(Tables()) == InitMap(pmm.ram)
    {
      hide Tree, P.Inv, Translation, MapPages, BlockAt, Bound, Partly, NewBlocks, InitMap, NoPageUnderBlock;
      ghost var s0 := Tables();
      ghost var k := (kernelEnd - P.RAM_BASE + 4095) / 4096;
      var kernelSize := kernelEnd - 0x4000_0000;
      RamFacts(s0, kernelSize, pmm.ram);
      ghost var ok1 := MapRegion(0x4000_0000, 0x4000_0000, kernelSize, NORMAL_RW);
      NoClash(s0, Tables(), kernelSize, pmm.ram);
      ghost var s1 := Tables();
      ghost var ok2 := MapRegion(P.RAM_BASE, P.RAM_BASE, pmm.ram, NORMAL_RW);
      StillLow(RegionOf(P.RAM_BASE, P.RAM_BASE, pmm.ram), s1, Tables());
      WindowFacts(Tables());
      ghost var s2 := Tables();
      ghost var ok3 := MapRegion(0x5000_0000, 0x5000_0000, 8 * 1024 * 1024, NORMAL_RW);
      StillLow(RegionOf(0x5000_0000, 0x5000_0000, 8 * 1024 * 1024), s2, Tables());
      WindowFacts(Tables());
      InitDevices();
      InitSequenceIs(pmm.ram, k);
    }

    method InitDevices()
      requires Valid() && NoneLow(Tables()) && FreeFrames() >= 9
      modifies this, pmm, pmm.frameStack, pmm.refCounts
      ensures Valid()
      ensures var a := Wanted(DEVICE_RW);
              Translation(Tables()) ==
                MapPages(MapPages(MapPages(Translation(old(Tables())), 0x9000, 0x9000, 256, a), 0xa000, 0xa000, 256, a), 0x8000, 0x8000, 256, a)
    {
      hide Tree, P.Inv, Translation, MapPages, BlockAt, Bound, Partly, NewBlocks, NoPageUnderBlock, NoneLow;
      ghost var s0 := Tables();
      WindowFacts(s0);
      ghost var ok1 := MapRegion(0x0900_0000, 0x0900_0000, 1024 * 1024, DEVICE_RW);
      StillLow(RegionOf(0x0900_0000, 0x0900_0000, 1024 * 1024), s0, Tables());
      ghost var s1 := Tables();
      WindowFacts(s1);
      ghost var ok2 := MapRegion(0x0a00_0000, 0x0a00_0000, 1024 * 1024, DEVICE_RW);
      StillLow(RegionOf(0x0a00_0000, 0x0a00_0000, 1024 * 1024), s1, Tables());
      WindowFacts(Tables());
      ghost var ok3 := MapRegion(0x0800_0000, 0x0800_0000, 1024 * 1024, DEVICE_RW);
    }
  }

  /** Frames that surely suffice for `init_vmm`: the root, and the bounds of its six regions. */
  ghost function InitFrames(ram: nat): int {
    2 * Touched1(0x4_0000, RamPages(ram)) + 17
  }

  /** For the 2 GB of RAM that the kernel counts on, 21 frames. */
  lemma InitFramesIs()
    ensures InitFrames(0x8000_0000) == 21
  {
  }

  /** No block is mapped below RAM. */
  ghost predicate NoneLow(s: Space)
    requires Tree(s)
  {
    forall w: nat :: w < 0x4_0000 ==> !BlockAt(s, w)
  }

  /** A tree of one empty table maps nothing. */
  lemma OneTable(s: Space)
    requires s.tables == map[s.root := Empty()] && s.place == map[s.root := Root] && s.root % 4096 == 0 && s.root < PHYS_END
    ensures Tree(s) && Translation(s) == map[] && forall w: nat :: w < PAGES ==> !BlockAt(s, w)
  {
    ZeroEntry();
    assert TableOk(s, s.root);
    assert forall w: nat :: w < PAGES ==> !Present(E1(s, w));
  }

  lemma RamFacts(s: Space, kernelSize: nat, ram: nat)
    requires Tree(s) && (forall w: nat :: w < PAGES ==> !BlockAt(s, w))
    requires kernelSize <= ram && P.RAM_BASE + ram <= PAGES * 4096
    ensures var r := RegionOf(P.RAM_BASE, P.RAM_BASE, kernelSize);
            && NoPageUnderBlock(s, r) && Bound(r) <= Touched1(0x4_0000, RamPages(ram)) + 2 && r.n <= RamPages(ram) && 0x4_0000 + r.n <= PAGES
    ensures var r := RegionOf(P.RAM_BASE, P.RAM_BASE, ram);
            r.n == RamPages(ram) && Bound(r) == Touched1(0x4_0000, RamPages(ram)) + 2
  {
    hide Tree, BlockAt;
  }

  /** The kernel's blocks lie in slots that all RAM covers too, so no page of RAM goes under one. */
  lemma NoClash(s: Space, u: Space, kernelSize: nat, ram: nat)
    requires Tree(s) && Tree(u) && (forall w: nat :: w < PAGES ==> !BlockAt(s, w))
    requires kernelSize <= ram && P.RAM_BASE + ram <= PAGES * 4096
    requires NewBlocks(RegionOf(P.RAM_BASE, P.RAM_BASE, kernelSize), s, u)
    ensures NoPageUnderBlock(u, RegionOf(P.RAM_BASE, P.RAM_BASE, ram)) && NoneLow(u)
  {
    hide Tree, BlockAt;
    var r, q := RegionOf(P.RAM_BASE, P.RAM_BASE, ram), RegionOf(P.RAM_BASE, P.RAM_BASE, kernelSize);
    assert forall w: nat :: BlockOf(q, w) ==> BlockOf(r, w) && w >= 0x4_0000;
  }

  /** Regions above 1 GB, and regions of less than 2 MB, leave no block below RAM. */
  lemma StillLow(r: Region, s: Space, u: Space)
    requires Tree(s) && Tree(u) && NewBlocks(r, s, u) && NoneLow(s) && (r.v >= 0x4_0000 || r.whole < 512)
    ensures NoneLow(u)
  {
    hide Tree, BlockAt;
  }

  /** The heap and device windows never put a page under a block, and take few tables. */
  lemma WindowFacts(s: Space)
    requires Tree(s) && NoneLow(s)
    ensures var r := RegionOf(0x5000_0000, 0x5000_0000, 8 * 1024 * 1024);
            NoPageUnderBlock(s, r) && Bound(r) == 3 && r == Region(0x5_0000, 0x5_0000, 2048, 2048)
    ensures var r := RegionOf(0x0900_0000, 0x0900_0000, 1024 * 1024); NoPageUnderBlock(s, r) && Bound(r) == 3
    ensures var r := RegionOf(0x0a00_0000, 0x0a00_0000, 1024 * 1024); NoPageUnderBlock(s, r) && Bound(r) == 3
    ensures var r := RegionOf(0x0800_0000, 0x0800_0000, 1024 * 1024); NoPageUnderBlock(s, r) && Bound(r) == 3
  {
    hide Tree, BlockAt;
  }

  /** What holds when the loop of `vmm_map_region` has dealt with `m` pages. */
  ghost predicate Mapped(r: Region, s0: Space, s: Space, m: nat, free0: nat, free: nat, ok: bool, k: Count, a: Attr)
    requires Tree(s0) && Tree(s)
  {
    && m <= r.n && Progress(r, s, m, free0 - free, free, ok, k) && NewBlocks(r, s0, s)
    && (ok ==> Translation(s) == MapPages(Translation(s0), r.v, r.p, m, a))
    && Partly(Translation(s0), Translation(s), r, m, a)
    && (InBlock(r, m) ==> (r.v + m) % 512 == 0)
  }

  lemma Start(s: Space, r: Region, free: nat, a: Attr)
    requires Tree(s)
    ensures Mapped(r, s, s, 0, free, free, true, Count(0, 0, 0), a)
  {
    hide Tree;
    NotInside(r, 0);
  }

  lemma Turn(virt: nat, phys: nat, size: nat, mapped: nat, s0: Space, s: Space, free0: nat, free: nat, ok: bool, k: Count, a: Attr)
    requires Tree(s0) && Tree(s) && Mapped(RegionOf(virt, phys, size), s0, s, mapped / 4096, free0, free, ok, k, a)
    requires virt % 4096 == 0 && phys % 4096 == 0 && mapped % 4096 == 0 && mapped < size
    requires NoPageUnderBlock(s0, RegionOf(virt, phys, size)) && virt / 4096 + (size + 4095) / 4096 <= PAGES
    ensures var r := RegionOf(virt, phys, size);
            var m := mapped / 4096;
            && m < r.n && (virt + mapped) / 4096 == r.v + m && (phys + mapped) / 4096 == r.p + m
            && (InBlock(r, m) <==> (virt + mapped) % 0x20_0000 == 0 && (phys + mapped) % 0x20_0000 == 0 && size - mapped >= 0x20_0000)
            && (!InBlock(r, m) ==> !BlockAt(s, r.v + m))
  {
    hide Tree, BlockAt, Progress, Partly, Translation, MapPages, InBlock;
    BlockTest(virt, phys, size, mapped);
    var r := RegionOf(virt, phys, size);
    if !InBlock(r, mapped / 4096) { PageFree(r, s0, s, mapped / 4096); }
  }

  lemma BlockTurn(r: Region, s0: Space, s: Space, u: Space, m: nat, free0: nat, free: nat, ok: bool, k: Count, left: nat, done: bool, a: Attr)
    requires Tree(s0) && Tree(s) && RegionOk(r) && Mapped(r, s0, s, m, free0, free, ok, k, a) && InBlock(r, m) && m < r.n
    requires Grows(s, u, r.v + m) && (done ==> Has1(u, r.v + m))
    requires (done <==> Has1(s, r.v + m) || free > 0) && left == if done && !Has1(s, r.v + m) then free - 1 else free
    requires Translation(u) == if done then MapPages(Translation(s), r.v + m, r.p + m, 512, a) else Translation(s)
    ensures Tree(u) && Mapped(r, s0, u, m + 512, free0, left, ok && done, k, a)
  {
    hide Tree, Translation, MapPages, Has1, Has2, BlockAt, Progress, Partly, NewBlocks, Grows;
    NotInside(r, m);
    BlockStep(r, s, u, m, free0 - free, free, ok, k, left, done);
    BlocksKept(r, s0, s, u, r.v + m);
    MapPagesJoin(Translation(s0), r.v, r.p, m, 512, a);
    PartlyBlock(Translation(s0), Translation(s), Translation(u), r, m, a);
  }

  lemma PageTurn(r: Region, s0: Space, s: Space, u: Space, m: nat, free0: nat, free: nat, ok: bool, k: Count, left: nat, done: bool, a: Attr)
    returns (l: Count)
    requires Tree(s0) && Tree(s) && RegionOk(r) && Mapped(r, s0, s, m, free0, free, ok, k, a) && !InBlock(r, m) && m < r.n
    requires Grows(s, u, -1) && (done ==> Has2(u, r.v + m))
    requires (done <==> Need(s, r.v + m) <= free) && left == if done then free - Need(s, r.v + m) else 0
    requires Translation(u) == if done then Translation(s)[r.v + m := Page(r.p + m, a)] else Translation(s)
    ensures Tree(u) && Mapped(r, s0, u, m + 1, free0, left, ok && done, l, a)
  {
    hide Tree, Translation, Has1, Has2, BlockAt, Progress, Partly, NewBlocks, Grows;
    NotInside(r, m);
    l := PageStep(r, s, u, m, free0 - free, free, ok, k, left, done);
    BlocksKept(r, s0, s, u, -1);
    OneMore(Translation(s0), r.v, r.p, m, a);
    PartlyPage(Translation(s0), Translation(s), Translation(u), r, m, a);
  }

  lemma Finish(r: Region, s0: Space, s: Space, m: nat, free0: nat, free: nat, ok: bool, k: Count, a: Attr)
    requires Tree(s0) && Tree(s) && Mapped(r, s0, s, m, free0, free, ok, k, a) && m >= r.n
    ensures free0 - free <= Bound(r) && (free0 >= Bound(r) ==> ok)
    ensures ok ==> Translation(s) == MapPages(Translation(s0), r.v, r.p, r.n, a)
    ensures Partly(Translation(s0), Translation(s), r, r.n, a) && NewBlocks(r, s0, s)
  {
    hide Tree, Translation, MapPages, Partly, NewBlocks;
  }

  /** `e | PT_PXN` and `e | PT_UXN` */
  function OrPxn(e: nat): nat {
    if e / 0x20_0000_0000_0000 % 2 == 1 then e else e + 0x20_0000_0000_0000
  }

  function OrUxn(e: nat): nat {
    if e / 0x40_0000_0000_0000 % 2 == 1 then e else e + 0x40_0000_0000_0000
  }

  lemma OrFacts(e: nat)
    requires e < 0x20_0000_0000_0000
    ensures OrPxn(e) == e + 0x20_0000_0000_0000 && OrUxn(e) == e + 0x40_0000_0000_0000
    ensures OrPxn(e + 0x40_0000_0000_0000) == e + 0x60_0000_0000_0000
    ensures OrUxn(e + 0x20_0000_0000_0000) == e + 0x60_0000_0000_0000
    ensures OrPxn(e + 0x60_0000_0000_0000) == OrUxn(e + 0x60_0000_0000_0000) == e + 0x60_0000_0000_0000
  {
  }

  /** A descriptor, bit by bit: address, type, memory index, access, shareability, access flag, execution. */
  ghost predicate FieldsAre(e: nat, pa: nat, kind: nat, flags: Flags) {
    && e % 4 == kind && e / 4096 % 0x10_0000_0000 == pa / 4096
    && (e / 4 % 8 == if flags.device then 0 else 1)
    && e / 64 % 2 == 0 && (e / 128 % 2 == 0 <==> flags.writable)
    && e / 256 % 4 == 3 && e / 1024 % 2 == 1
    && (e / 0x20_0000_0000_0000 % 2 == 1 <==> flags.device || flags.noExec) && e / 0x40_0000_0000_0000 % 2 == 1
  }

  lemma DescriptorBits(pa: nat, kind: nat, flags: Flags)
    requires pa % 4096 == 0 && pa < PHYS_END && (kind == 1 || kind == 3)
    ensures FieldsAre(Descriptor(pa, kind, Wanted(flags)), pa, kind, flags)
  {
    DescriptorFacts(pa, kind, Wanted(flags));
    var e := Descriptor(pa, kind, Wanted(flags));
    hide Descriptor;
    TwoBits(e);
    TwoBits(e / 64);
    assert e / 64 / 2 == e / 128;
  }

  lemma TwoBits(x: nat)
    ensures x % 4 == x % 2 + 2 * (x / 2 % 2)
  {
  }

  /** The descriptor that `vmm_map_page` (`kind` 3) and `vmm_map_block` (`kind` 1) build, field by field. */
  method Entry(pa: nat, kind: nat, flags: Flags) returns (e: nat)
    requires pa % 4096 == 0 && pa < PHYS_END && (kind == 1 || kind == 3)
    ensures e == Descriptor(pa, kind, Wanted(flags)) && FieldsAre(e, pa, kind, flags)
  {
    DescriptorBits(pa, kind, flags);
    hide FieldsAre;
    hide OrPxn, OrUxn;
    e := pa + kind + 0x400 + 0x300;
    OrFacts(e);
    OrFacts(e + 4);
    OrFacts(e + 0x80);
    OrFacts(e + 0x84);
    if flags.device {
      e := OrUxn(OrPxn(e));
    } else {
      e := e + 4;
    }
    e := OrUxn(e);
    if !flags.writable {
      e := e + 0x80;
    }
    if flags.noExec {
      e := OrPxn(e);
    }
  }

  lemma BlocksKept(r: Region, s0: Space, s: Space, u: Space, w: int)
    requires Tree(s0) && Tree(s) && NewBlocks(r, s0, s) && Grows(s, u, w) && (w >= 0 ==> BlockOf(r, w))
    ensures Tree(u) && NewBlocks(r, s0, u)
  {
    hide Tree, BlockAt, Has1, Has2;
  }

  lemma PageFree(r: Region, s0: Space, s: Space, m: nat)
    requires Tree(s0) && Tree(s) && NoPageUnderBlock(s0, r) && NewBlocks(r, s0, s) && m < r.n && !InBlock(r, m) && r.v + r.n <= PAGES
    ensures !BlockAt(s, r.v + m)
  {
  }

  lemma OneMore(tr: map<nat, Page>, v: nat, p: nat, m: nat, a: Attr)
    ensures MapPages(tr, v, p, m + 1, a) == MapPages(tr, v, p, m, a)[v + m := Page(p + m, a)]
  {
  }

  /** Each of the first `m` pages of the region is mapped as wanted or as before; all others as before. */
  ghost predicate Partly(tr: map<nat, Page>, u: map<nat, Page>, r: Region, m: nat, a: Attr) {
    forall w: nat ::
      || ((w in u <==> w in tr) && (w in u ==> w in tr && u[w] == tr[w]))
      || (r.v <= w < r.v + m && w in u && u[w] == Page(r.p + w - r.v, a))
  }

  lemma BlockAligned(a: nat)
    requires a % 0x20_0000 == 0
    ensures a % 4096 == 0
  {
    DivUnique(a, 4096, a / 0x20_0000 * 512, 0);
  }

  lemma BlockWalks(s: Space, u: Space, virt: nat, phys: nat, f: Flags)
    requires Tree(s) && Tree(u) && virt % 0x20_0000 == 0 && phys % 0x20_0000 == 0
    requires Translation(u) == MapPages(Translation(s), virt / 4096, phys / 4096, 512, Wanted(f))
    ensures RegionWalks(s, u, virt, phys, 0x20_0000, f)
  {
    hide *;
    BlockAligned(virt);
    BlockAligned(phys);
    MapsWalk(s, u, virt, phys, 0x20_0000, f);
  }

  lemma PartlyWalks(s: Space, u: Space, virt: nat, phys: nat, size: nat, f: Flags)
    requires Tree(s) && Tree(u) && virt % 4096 == 0 && phys % 4096 == 0
    requires var r := RegionOf(virt, phys, size); Partly(Translation(s), Translation(u), r, r.n, Wanted(f))
    ensures RegionMayWalk(s, u, virt, phys, size, f)
  {
    hide Tree, Translation, Walk;
    forall va: nat | va < 0x80_0000_0000
      ensures || Walk(u.tables, u.root, va) == Walk(s.tables, s.root, va)
              || (virt <= va && va - va % 4096 < virt + size && Walk(u.tables, u.root, va) == Asked(virt, phys, f, va))
    {
      WalkFindsPage(s, va);
      WalkFindsPage(u, va);
      PageInRange(virt, phys, size, va);
    }
  }

  lemma PartlyPage(tr: map<nat, Page>, t: map<nat, Page>, u: map<nat, Page>, r: Region, m: nat, a: Attr)
    requires Partly(tr, t, r, m, a) && (u == t || u == t[r.v + m := Page(r.p + m, a)])
    ensures Partly(tr, u, r, m + 1, a)
  {
  }

  lemma PartlyBlock(tr: map<nat, Page>, t: map<nat, Page>, u: map<nat, Page>, r: Region, m: nat, a: Attr)
    requires Partly(tr, t, r, m, a) && (u == t || u == MapPages(t, r.v + m, r.p + m, 512, a))
    ensures Partly(tr, u, r, m + 512, a)
  {
    hide MapPages;
    forall w: nat { MapPagesAt(t, r.v + m, r.p + m, 512, a, w); }
  }

  lemma GrowsTrans(s: Space, t: Space, u: Space, w: int)
    requires Grows(s, t, -1) && Grows(t, u, w)
    ensures Grows(s, u, w)
  {
    hide Tree, Has1, Has2, BlockAt;
  }

  lemma GrowsWider(s: Space, u: Space, w: int)
    requires Grows(s, u, -1)
    ensures Grows(s, u, w)
  {
    hide Tree, Has1, Has2, BlockAt;
  }

  lemma GrowsAt(s: Space, u: Space, v: nat)
    requires Grows(s, u, -1) && v < PAGES && !BlockAt(s, v)
    ensures !BlockAt(u, v)
  {
    hide Tree, Has1, Has2, BlockAt;
  }

  lemma Slots1(s: Space, v: nat)
    requires Tree(s)
    ensures Has2(s, v) ==> Has1(s, v)
  {
  }

  lemma RootEntry(s: Space, v: nat)
    requires Tree(s) && v < PAGES && s.root in s.tables && |s.tables[s.root]| == 512
    ensures s.tables[s.root][v / 0x4_0000 % 512] == E1(s, v)
    ensures Present(E1(s, v)) ==> OutAddr(E1(s, v)) in s.tables && T2(s, v) == OutAddr(E1(s, v))
  {
  }

  lemma ChildL2(s: Space, v: nat, f: nat)
    requires Tree(s) && !Has1(s, v) && f !in s.tables && f % 4096 == 0 && f < PHYS_END && v < PAGES
    requires s.root in s.tables && s.root in s.place && |s.tables[s.root]| == 512
    requires Tree(Link(s, s.root, v / 0x4_0000 % 512, f))
    ensures var u := Link(s, s.root, v / 0x4_0000 % 512, f); Has1(u, v) && T2(u, v) == f
  {
    hide Tree, Link, E1, E2;
    LinkL2(s, v, f, v);
  }

  lemma EntryL3(s: Space, v: nat)
    requires Tree(s) && Has2(s, v) && !BlockAt(s, v)
    ensures T3(s, v) in s.tables && |s.tables[T3(s, v)]| == 512
  {
  }

  lemma T2Facts(s: Space, v: nat)
    requires Tree(s) && Has1(s, v)
    ensures T2(s, v) in s.tables && |s.tables[T2(s, v)]| == 512
  {
  }

  lemma EntryL2(s: Space, v: nat)
    requires Tree(s) && v < PAGES && Has1(s, v) && !BlockAt(s, v)
    ensures T2(s, v) in s.tables && |s.tables[T2(s, v)]| == 512 && T2(s, v) in s.place && !s.place[T2(s, v)].L3?
    ensures s.tables[T2(s, v)][v / 512 % 512] == E2(s, v)
    ensures Present(E2(s, v)) ==> OutAddr(E2(s, v)) in s.tables && T3(s, v) == OutAddr(E2(s, v))
  {
    if Present(E2(s, v)) { var t := T3(s, v); }
  }
}
