/** What one new table, one page entry or one block entry does to the tables and the translation. */
module PageWrites {
  import opened PageTables

  function Empty(): Table {
    seq(512, i => 0 as nat)
  }

  function Put(t: Table, k: nat, e: nat): (r: Table)
    requires k < |t|
    ensures |r| == |t| && forall j :: 0 <= j < |t| ==> r[j] == if j == k then e else t[j]
  {
    t[..k] + [e] + t[k + 1..]
  }

  /** A zeroed table on frame `f` hangs below entry `k` of table `t`. */
  ghost function Link(s: Space, t: nat, k: nat, f: nat): Space
    requires t in s.tables && k < |s.tables[t]| && t in s.place
  {
    Space(s.root, s.tables[f := Empty()][t := Put(s.tables[t], k, TableEntry(f))], s.place[f := Child(s.place[t], k)])
  }

  /** Entry `k` of table `t` is overwritten. */
  ghost function Set(s: Space, t: nat, k: nat, e: nat): Space
    requires t in s.tables && k < |s.tables[t]|
  {
    s.(tables := s.tables[t := Put(s.tables[t], k, e)])
  }

  lemma LinkTree(s: Space, t: nat, k: nat, f: nat)
    requires Tree(s) && t in s.tables && !s.place[t].L3? && k < 512 && |s.tables[t]| == 512
    requires f !in s.tables && f % 4096 == 0 && f < PHYS_END
    ensures Tree(Link(s, t, k, f))
  {
    hide Present, TableBit, OutAddr, TableEntry;
    var u := Link(s, t, k, f);
    TableEntryFacts(f);
    forall g | g in u.tables
      ensures TableOk(u, g)
    {
      if g == f { ZeroEntry(); } else { assert TableOk(s, g); }
    }
  }

  lemma ZeroEntry()
    ensures !Present(0)
  {
  }

  lemma SetTree(s: Space, t: nat, k: nat, e: nat)
    requires Tree(s) && t in s.tables && k < 512 && |s.tables[t]| == 512
    requires (s.place[t].L2? && !TableBit(e)) || (s.place[t].L3? && TableBit(e))
    ensures Tree(Set(s, t, k, e))
  {
    hide Present, TableBit, OutAddr;
    var u := Set(s, t, k, e);
    forall g | g in u.tables
      ensures TableOk(u, g)
    {
      assert TableOk(s, g);
    }
  }

  /** Page `v` is translated through the same entries in `s` and `u`. */
  ghost predicate SamePath(s: Space, u: Space, v: nat)
    requires Tree(s) && Tree(u)
  {
    && E1(u, v) == E1(s, v)
    && (Present(E1(s, v)) ==> E2(u, v) == E2(s, v) && (Present(E2(s, v)) && TableBit(E2(s, v)) ==> E3(u, v) == E3(s, v)))
  }

  /** A page is its three indices. */
  lemma Slots(v: nat, w: nat)
    requires v < PAGES && w < PAGES
    ensures v / 0x4_0000 % 512 == w / 0x4_0000 % 512 <==> v / 0x4_0000 == w / 0x4_0000
    ensures v / 0x4_0000 == w / 0x4_0000 && v / 512 % 512 == w / 512 % 512 <==> v / 512 == w / 512
    ensures v / 512 == w / 512 && v % 512 == w % 512 <==> v == w
  {
    assert v / 512 == v / 0x4_0000 * 512 + v / 512 % 512;
    assert w / 512 == w / 0x4_0000 * 512 + w / 512 % 512;
  }

  lemma RootPlace(s: Space)
    requires Tree(s)
    ensures s.root in s.tables && s.root in s.place && s.place[s.root] == Root && |s.tables[s.root]| == 512
    ensures s.place.Keys == s.tables.Keys
  {
    assert TableOk(s, s.root);
  }

  /** A new level-2 table: the pages of its slot stay unmapped, all others keep their path. */
  lemma LinkL2(s: Space, w: nat, f: nat, v: nat)
    requires Tree(s) && !Present(E1(s, w)) && f !in s.tables && f % 4096 == 0 && f < PHYS_END && v < PAGES && w < PAGES
    requires Tree(Link(s, s.root, w / 0x4_0000 % 512, f))
    ensures var u := Link(s, s.root, w / 0x4_0000 % 512, f);
            if v / 0x4_0000 == w / 0x4_0000
            then !Present(E1(s, v)) && Present(E1(u, v)) && T2(u, v) == f && !Present(E2(u, v))
            else SamePath(s, u, v)
  {
    hide Present, TableBit, OutAddr, TableEntry, Put, Tree, EntryOk, TableOk;
    TableEntryFacts(f);
    ZeroEntry();
    Slots(v, w);
    RootPlace(s);
  }

  /** A new level-3 table: likewise. */
  lemma LinkL3(s: Space, w: nat, f: nat, v: nat)
    requires Tree(s) && Present(E1(s, w)) && !Present(E2(s, w)) && f !in s.tables && f % 4096 == 0 && f < PHYS_END && v < PAGES && w < PAGES
    requires Tree(Link(s, T2(s, w), w / 512 % 512, f))
    ensures var u := Link(s, T2(s, w), w / 512 % 512, f);
            && E1(u, v) == E1(s, v) && (Present(E1(s, v)) ==> T2(u, v) == T2(s, v))
            && if v / 512 == w / 512
               then Present(E1(s, v)) && !Present(E2(s, v)) && Present(E2(u, v)) && TableBit(E2(u, v)) && T3(u, v) == f && !Present(E3(u, v))
               else SamePath(s, u, v)
  {
    hide Present, TableBit, OutAddr, TableEntry, Put, Tree, EntryOk, TableOk;
    TableEntryFacts(f);
    ZeroEntry();
    Slots(v, w);
    RootPlace(s);
  }

  /** A page entry: only its page changes. */
  lemma SetPage(s: Space, w: nat, e: nat, v: nat)
    requires Tree(s) && Present(E1(s, w)) && Present(E2(s, w)) && TableBit(E2(s, w)) && v < PAGES && w < PAGES
    requires Tree(Set(s, T3(s, w), w % 512, e))
    ensures var u := Set(s, T3(s, w), w % 512, e);
            if v == w
            then E1(u, v) == E1(s, v) && E2(u, v) == E2(s, v) && E3(u, v) == e
            else SamePath(s, u, v)
  {
    hide Present, TableBit, OutAddr, Put, Tree, EntryOk, TableOk;
    Slots(v, w);
    RootPlace(s);
  }

  /** A block entry: only the pages of its slot change, whatever was there. */
  lemma SetBlock(s: Space, w: nat, e: nat, v: nat)
    requires Tree(s) && Present(E1(s, w)) && v < PAGES && w < PAGES
    requires Tree(Set(s, T2(s, w), w / 512 % 512, e))
    ensures var u := Set(s, T2(s, w), w / 512 % 512, e);
            if v / 512 == w / 512
            then E1(u, v) == E1(s, v) && Present(E1(s, v)) && E2(u, v) == e
            else SamePath(s, u, v)
  {
    hide Present, TableBit, OutAddr, Put, Tree, EntryOk, TableOk;
    Slots(v, w);
    RootPlace(s);
  }
}
