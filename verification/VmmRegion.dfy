/** The bookkeeping of `vmm_map_region`: which pages go by blocks, and how many table frames it takes. */
module VmmRegion {
  import opened PageTables
  import opened VmmSpec

  /** `n` pages from page `v` on frames from `p`; the first `whole` of them are not cut short by the size. */
  datatype Region = Region(v: nat, p: nat, n: nat, whole: nat)

  ghost predicate RegionOk(r: Region) {
    r.v + r.n <= PAGES && r.whole <= r.n <= r.whole + 1
  }

  /** `virt` and `phys` agree modulo 2 MB. */
  ghost predicate Congruent(r: Region) {
    r.v % 512 == r.p % 512
  }

  /** Page `m` of the region is in a 2 MB slot that the region covers wholly and congruently. */
  ghost predicate InBlock(r: Region, m: nat) {
    BlockOf(r, r.v + m)
  }

  ghost predicate BlockOf(r: Region, w: nat) {
    Congruent(r) && r.v <= w / 512 * 512 && w / 512 * 512 + 512 <= r.v + r.whole
  }

  /** No block appears but in the slots the region covers wholly. */
  ghost predicate NewBlocks(r: Region, s: Space, u: Space)
    requires Tree(s) && Tree(u)
  {
    forall w: nat :: w < PAGES && BlockAt(u, w) ==> BlockAt(s, w) || BlockOf(r, w)
  }

  /** The region of `size` bytes, the last page filled up. */
  function RegionOf(virt: nat, phys: nat, size: nat): Region {
    Region(virt / 4096, phys / 4096, (size + 4095) / 4096, size / 4096)
  }

  /** The test of the loop finds the block slots exactly, unless the loop stands inside one. */
  lemma BlockTest(virt: nat, phys: nat, size: nat, mapped: nat)
    requires virt % 4096 == 0 && phys % 4096 == 0 && mapped % 4096 == 0 && mapped < size
    requires var r := RegionOf(virt, phys, size);
             InBlock(r, mapped / 4096) ==> (r.v + mapped / 4096) % 512 == 0
    ensures var r := RegionOf(virt, phys, size);
            var m := mapped / 4096;
            && m < r.n && (virt + mapped) / 4096 == r.v + m && (phys + mapped) / 4096 == r.p + m
            && (InBlock(r, m) <==> (virt + mapped) % 0x20_0000 == 0 && (phys + mapped) % 0x20_0000 == 0 && size - mapped >= 0x20_0000)
            && (InBlock(r, m) ==> m + 512 <= r.n && (r.v + m) % 512 == 0)
  {
    var r := RegionOf(virt, phys, size);
    var m := mapped / 4096;
    assert virt + mapped == (r.v + m) * 4096 && phys + mapped == (r.p + m) * 4096;
    PageAligned(r.v + m);
    PageAligned(r.p + m);
    WholeLeft(size, m);
    BlockHere(r, m);
  }

  lemma PageAligned(x: nat)
    ensures x * 4096 / 4096 == x && x * 4096 % 0x20_0000 == x % 512 * 4096
  {
  }

  lemma WholeLeft(size: nat, m: nat)
    requires m * 4096 < size
    ensures m < (size + 4095) / 4096 && (size - m * 4096 >= 0x20_0000 <==> m + 512 <= size / 4096)
  {
  }

  lemma BlockHere(r: Region, m: nat)
    requires InBlock(r, m) ==> (r.v + m) % 512 == 0
    ensures InBlock(r, m) <==> (r.v + m) % 512 == 0 && (r.p + m) % 512 == 0 && m + 512 <= r.whole
  {
  }

  /** After a page outside a block, or after a block, the loop is not inside one. */
  lemma NotInside(r: Region, m: nat)
    ensures !InBlock(r, m) && InBlock(r, m + 1) ==> (r.v + m + 1) % 512 == 0
    ensures (r.v + m) % 512 == 0 ==> (r.v + m + 512) % 512 == 0
    ensures InBlock(r, 0) ==> r.v % 512 == 0
  {
  }

  /** No page that is mapped on its own lies under an L2 slot that holds a block. */
  ghost predicate NoPageUnderBlock(s: Space, r: Region)
    requires Tree(s)
  {
    forall m: nat :: m < r.n && !InBlock(r, m) ==> !BlockAt(s, r.v + m)
  }

  /** The 1 GB and 2 MB slots that the first `m` pages touch. */
  function Touched1(v: nat, m: nat): int {
    if m == 0 then 0 else (v + m - 1) / 0x4_0000 - v / 0x4_0000 + 1
  }

  function Touched2(v: nat, m: nat): int {
    if m == 0 then 0 else (v + m - 1) / 512 - v / 512 + 1
  }

  /**
   The table frames a region can take: one per touched 1 GB slot, and for the ends of a congruent
   region two more, for an incongruent one a further one per touched 2 MB slot.
   */
  ghost function Bound(r: Region): int {
    Touched1(r.v, r.n) + Limit(r)
  }

  /** Level-3 tables taken so far, in all, and for the first and the last slot of the region. */
  datatype Count = Count(all: nat, first: nat, last: nat)

  /** The level-3 tables taken: at most one for each end, or one per slot touched. */
  ghost predicate CountOk(r: Region, s: Space, m: nat, ok: bool, k: Count)
    requires Tree(s)
  {
    if Congruent(r) then
      && k.all == k.first + k.last && k.first <= 1 && k.last <= 1
      && (k.first == 1 ==> Has2(s, r.v)) && (k.last == 1 && r.n > 0 ==> Has2(s, r.v + r.n - 1))
    else
      && k.all <= Touched2(r.v, m) && (ok && m > 0 ==> Has2(s, r.v + m - 1))
  }

  /** After `m` pages, `used` frames have been taken, `free` are left, and `ok` says none was missing. */
  ghost predicate Progress(r: Region, s: Space, m: nat, used: int, free: nat, ok: bool, k: Count)
    requires Tree(s)
  {
    && m <= r.n
    && used <= Touched1(r.v, m) + k.all
    && (ok && m > 0 ==> Has1(s, r.v + m - 1))
    && (!ok ==> free == 0)
    && (used + free >= Bound(r) ==> ok)
    && CountOk(r, s, m, ok, k)
  }

  ghost function Limit(r: Region): int {
    if Congruent(r) then 2 else Touched2(r.v, r.n)
  }

  lemma Slots(a: nat)
    ensures a / 4096 / 0x4_0000 == a / 0x4000_0000 && a / 4096 / 512 == a / 0x20_0000
  {
  }

  lemma LastPage(virt: nat, size: nat)
    requires virt % 4096 == 0 && size > 0
    ensures virt / 4096 + (size + 4095) / 4096 - 1 == (virt + size - 1) / 4096
  {
  }

  /** The bound in addresses: slots of 1 GB that the region touches, and two, or the slots of 2 MB. */
  lemma BoundIs(virt: nat, phys: nat, size: nat)
    requires virt % 4096 == 0 && phys % 4096 == 0 && size > 0
    ensures var last := virt + size - 1;
            Bound(RegionOf(virt, phys, size)) ==
              last / 0x4000_0000 - virt / 0x4000_0000 + 1
              + if virt / 4096 % 512 == phys / 4096 % 512 then 2 else last / 0x20_0000 - virt / 0x20_0000 + 1
  {
    LastPage(virt, size);
    Slots(virt);
    Slots(virt + size - 1);
  }

  lemma SlotOf(s: Space, v: nat, w: nat)
    requires Tree(s) && v < PAGES && w < PAGES
    ensures v / 0x4_0000 == w / 0x4_0000 ==> Has1(s, v) == Has1(s, w)
    ensures v / 512 == w / 512 ==> Has1(s, v) == Has1(s, w) && Has2(s, v) == Has2(s, w) && BlockAt(s, v) == BlockAt(s, w)
  {
    if v / 512 == w / 512 {
      assert v / 0x4_0000 == v / 512 / 512 && w / 0x4_0000 == w / 512 / 512;
    }
  }

  /** A page outside a block is in the first or the last slot of a congruent region. */
  lemma PageAtEnd(r: Region, m: nat)
    requires RegionOk(r) && Congruent(r) && m < r.n && !InBlock(r, m)
    ensures (r.v + m) / 512 == r.v / 512 || (r.v + m) / 512 == (r.v + r.n - 1) / 512
  {
  }

  /** A new 1 GB slot is touched whenever its table is missing. */
  lemma Step1(r: Region, s: Space, m: nat, d: nat, ok: bool)
    requires RegionOk(r) && Tree(s) && m + d <= r.n && d > 0 && (ok && m > 0 ==> Has1(s, r.v + m - 1))
    ensures ok && !Has1(s, r.v + m) ==> Touched1(r.v, m) + 1 <= Touched1(r.v, m + d)
    ensures Touched1(r.v, m) <= Touched1(r.v, m + d) <= Touched1(r.v, r.n)
  {
    hide Tree;
    if m > 0 { SlotOf(s, r.v + m - 1, r.v + m); }
    Mono(r, m);
    Mono(r, m + d);
  }

  lemma Step2(r: Region, s: Space, m: nat, ok: bool)
    requires RegionOk(r) && Tree(s) && m < r.n && (ok && m > 0 ==> Has2(s, r.v + m - 1))
    ensures ok && !Has2(s, r.v + m) ==> Touched2(r.v, m) + 1 <= Touched2(r.v, m + 1)
    ensures Touched2(r.v, m) <= Touched2(r.v, m + 1) <= Touched2(r.v, r.n)
  {
    hide Tree;
    if m > 0 { SlotOf(s, r.v + m - 1, r.v + m); }
    Mono(r, m + 1);
  }

  /** The count after mapping page `m`; `miss` says that its level-3 table was missing. */
  lemma NextCount(r: Region, s: Space, u: Space, m: nat, ok: bool, k: Count, done: bool) returns (l: Count)
    requires RegionOk(r) && Tree(s) && CountOk(r, s, m, ok, k) && m < r.n && !InBlock(r, m)
    requires Grows(s, u, -1) && (done ==> Has2(u, r.v + m))
    ensures Tree(u) && CountOk(r, u, m + 1, ok && done, l)
    ensures l.all == if ok && done && !Has2(s, r.v + m) then k.all + 1 else k.all
    ensures ok && !Has2(s, r.v + m) ==> k.all + 1 <= Limit(r)
    ensures k.all <= Limit(r)
  {
    hide Tree, Grows, Has1, Has2, Touched2;
    GrowsFacts(s, u, -1, r.v);
    GrowsFacts(s, u, -1, r.v + r.n - 1);
    var w := r.v + m;
    if Congruent(r) {
      PageAtEnd(r, m);
      SlotOf(s, r.v, w);
      SlotOf(s, r.v + r.n - 1, w);
      SlotOf(u, r.v, w);
      SlotOf(u, r.v + r.n - 1, w);
      l := if !(ok && done) || Has2(s, w) then k
           else if w / 512 == r.v / 512 then Count(k.all + 1, 1, k.last)
           else Count(k.all + 1, k.first, 1);
    } else {
      Step2(r, s, m, ok);
      l := if !(ok && done) || Has2(s, w) then k else Count(k.all + 1, k.first, k.last);
    }
  }

  /** Mapping page `m` takes at most the frames its slots need; the count goes on. */
  lemma PageStep(r: Region, s: Space, u: Space, m: nat, used: int, free: nat, ok: bool, k: Count, left: nat, done: bool)
    returns (l: Count)
    requires RegionOk(r) && Tree(s) && Progress(r, s, m, used, free, ok, k) && m < r.n && !InBlock(r, m)
    requires Grows(s, u, -1) && (done ==> Has2(u, r.v + m))
    requires var need := (if Has1(s, r.v + m) then 0 else 1) + (if Has2(s, r.v + m) then 0 else 1);
             (done <==> need <= free) && left == if done then free - need else 0
    ensures Tree(u) && Progress(r, u, m + 1, used + free - left, left, ok && done, l)
  {
    hide Tree, Grows, Has1, Has2, Touched1, Touched2, CountOk, Limit, InBlock, Congruent;
    GrowsFacts(s, u, -1, r.v);
    Step1(r, s, m, 1, ok);
    Has2Has1(s, r.v + m);
    Has2Has1(u, r.v + m);
    l := NextCount(r, s, u, m, ok, k, done);
  }

  lemma Mono(r: Region, m: nat)
    requires m <= r.n
    ensures Touched1(r.v, m) <= Touched1(r.v, r.n) && Touched2(r.v, m) <= Touched2(r.v, r.n)
  {
  }

  lemma Has2Has1(s: Space, v: nat)
    requires Tree(s)
    ensures Has2(s, v) ==> Has1(s, v)
  {
  }

  lemma GrowsFacts(s: Space, u: Space, w: int, v: nat)
    requires Grows(s, u, w) && v < PAGES
    ensures Tree(s) && Tree(u) && (Has1(s, v) ==> Has1(u, v)) && (Has2(s, v) ==> Has2(u, v))
  {
  }

  /** Mapping a block takes at most a level-2 table. */
  lemma BlockStep(r: Region, s: Space, u: Space, m: nat, used: int, free: nat, ok: bool, k: Count, left: nat, done: bool)
    requires RegionOk(r) && Tree(s) && Progress(r, s, m, used, free, ok, k)
    requires m + 512 <= r.n && (r.v + m) % 512 == 0 && Congruent(r)
    requires Grows(s, u, r.v + m) && (done ==> Has1(u, r.v + m))
    requires (done <==> Has1(s, r.v + m) || free > 0) && left == if done && !Has1(s, r.v + m) then free - 1 else free
    ensures Tree(u) && Progress(r, u, m + 512, used + free - left, left, ok && done, k)
  {
    hide Tree, Grows, Has1, Has2, Touched1, Touched2;
    GrowsFacts(s, u, r.v + m, r.v);
    GrowsFacts(s, u, r.v + m, r.v + r.n - 1);
    Step1(r, s, m, 512, ok);
    BlockEnd(u, r.v + m);
  }

  lemma BlockEnd(u: Space, w: nat)
    requires Tree(u) && w % 512 == 0 && w + 511 < PAGES
    ensures Has1(u, w + 511) == Has1(u, w)
  {
    assert (w + 511) / 0x4_0000 == w / 0x4_0000;
    SlotOf(u, w, w + 511);
  }
}
