/** vm_mmap, vm_destroy and vm_destroy_region: a mapping appears, and goes with what only it used. */
module VmUnmap {
  import opened Sets
  import opened Sma
  import opened VmState
  import opened VmFault
  import opened VmClone

  // ---- a new mapping ---------------------------------------------------------------------

  /** The space s gets the block b with a region of its own that holds no page yet. */
  function Mmap(vm: Vm, s: nat, b: Block, write: bool, fill: seq<Content>, a: Area): (v: Vm) {
    vm.(regions := vm.regions[vm.next := Region(1, b.size, fill)],
        maps := vm.maps[Key(s, b.start) := Mapping(b.size, write, vm.next)],
        areas := vm.areas[s := a], next := vm.next + 1)
  }

  ghost predicate CanMmap(vm: Vm, s: nat, b: Block, fill: seq<Content>, a: Area) {
    Core(vm) && s in vm.areas && |fill| == b.size && Gains(vm.areas, vm.areas[s := a], s, b)
  }

  lemma UnusedKey(vm: Vm, s: nat, b: Block, a: Area)
    requires Core(vm) && Gains(vm.areas, vm.areas[s := a], s, b)
    ensures Key(s, b.start) !in vm.maps
  {
    var g := Key(s, b.start);
    if g in vm.maps {
      assert MapAt(vm, g);
      var c := Block(g.at, vm.maps[g].size);
      assert c in vm.areas[s].used;
      VmClone.Disjoint(vm.areas[s := a][s].used, b, c);
    }
  }

  lemma MmapMaps(vm: Vm, s: nat, b: Block, write: bool, fill: seq<Content>, a: Area)
    requires CanMmap(vm, s, b, fill, a)
    ensures Mappings(Mmap(vm, s, b, write, fill, a)) && Regions(Mmap(vm, s, b, write, fill, a))
  {
    var v := Mmap(vm, s, b, write, fill, a);
    UnusedKey(vm, s, b, a);
    NewRegions(vm);
    forall h ensures MapAt(v, h) { assert MapAt(vm, h); }
    forall t, c ensures UsedAt(v, t, c) { assert UsedAt(vm, t, c); }
    forall t ensures AreaAt(v, t) { assert AreaAt(vm, t); }
    forall r ensures RegionAt(v, r) {
      assert RegionAt(vm, r);
      UsersGained(vm.maps, Key(s, b.start), Mapping(b.size, write, vm.next), r);
      assert Users(vm.maps, vm.next) == {};
    }
    forall h, g ensures SharedAt(v, h, g) { assert SharedAt(vm, h, g); }
  }

  lemma MmapCell(vm: Vm, s: nat, b: Block, write: bool, fill: seq<Content>, a: Area, k: Key)
    requires CanMmap(vm, s, b, fill, a)
    ensures var v := Mmap(vm, s, b, write, fill, a);
            if k.owner == s && b.Has(k.at)
            then Cell(vm, k) == None && Cell(v, k) == Some(Key(vm.next, k.at - b.start)) && Writable(v, k) == write
            else Cell(v, k) == Cell(vm, k) && Writable(v, k) == Writable(vm, k)
  {
    hide Home, Gains, Spaced;
    UnusedKey(vm, s, b, a);
    AllSpaced(vm);
    HomeGained(vm.areas, vm.areas[s := a], s, b, k);
  }

  lemma MmapCore(vm: Vm, s: nat, b: Block, write: bool, fill: seq<Content>, a: Area)
    requires CanMmap(vm, s, b, fill, a)
    ensures Core(Mmap(vm, s, b, write, fill, a))
  {
    hide Cell, Users, Holders, Gains, Writable;
    var v := Mmap(vm, s, b, write, fill, a);
    MmapMaps(vm, s, b, write, fill, a);
    NewRegions(vm);
    forall p ensures PageAt(v, p) { assert PageAt(vm, p); }
    forall p, q ensures FrameApart(v, p, q) { assert FrameApart(vm, p, q); }
    forall k ensures SlotAt(v, k) { assert SlotAt(vm, k); }
    forall k, l ensures OnceAt(v, k, l) { assert OnceAt(vm, k, l); }
    forall h, k ensures SoleAt(v, h, k) { assert SoleAt(vm, h, k); }
    forall k ensures PteAt(v, k) {
      assert PteAt(vm, k);
      MmapCell(vm, s, b, write, fill, a, k);
    }
  }

  /** The new block reads as its fill, everything else as before. */
  lemma MmapViews(vm: Vm, s: nat, b: Block, write: bool, fill: seq<Content>, a: Area, k: Key)
    requires CanMmap(vm, s, b, fill, a)
    ensures View(Mmap(vm, s, b, write, fill, a), k) ==
            (if k.owner == s && b.Has(k.at) then Some(fill[k.at - b.start]) else View(vm, k))
  {
    hide Cell, Gains;
    MmapCell(vm, s, b, write, fill, a, k);
    NewRegions(vm);
    var c := Cell(vm, k);
    if c.Some? {
      CellIs(vm, k);
    }
  }

  // ---- a mapping taken away ------------------------------------------------------------------

  /** The space s loses the used block b and nothing else. */
  ghost predicate Loses(areas: map<nat, Area>, areas': map<nat, Area>, s: nat, b: Block) {
    && s in areas && s in areas' && areas'.Keys == areas.Keys
    && (forall t :: t in areas && t != s ==> areas'[t] == areas[t])
    && (forall c {:trigger c in areas'[s].used} :: c in areas'[s].used <==> c in areas[s].used && c != b)
    && b in areas[s].used && Spaced(areas'[s].used)
  }

  lemma HomeLost(areas: map<nat, Area>, areas': map<nat, Area>, s: nat, b: Block, k: Key)
    requires Loses(areas, areas', s, b) && forall t :: t in areas ==> Spaced(areas[t].used)
    ensures Home(areas', k) == if k.owner == s && b.Has(k.at) then None else Home(areas, k)
    ensures !(k.owner == s && b.Has(k.at)) && Home(areas, k).Some? ==> Home(areas, k) != Some(Key(s, b.start))
  {
    hide Spaced;
    if k.owner == s {
      if Home(areas', k).Some? {
        HomeNowhere(areas', k);
        var c :| c in areas'[s].used && c.Has(k.at) && Home(areas', k) == Some(Key(s, c.start));
        HomeWhere(areas, k, c);
        VmClone.Disjoint(areas[s].used, b, c);
      } else if Home(areas, k).Some? && !b.Has(k.at) {
        HomeNowhere(areas, k);
        var c :| c in areas[s].used && c.Has(k.at) && Home(areas, k) == Some(Key(s, c.start));
        HomeWhere(areas', k, c);
        assert false;
      }
    }
  }

  /** The entries outside the block of mapping h. */
  function Unmapped(pt: map<Key, Pte>, h: Key, size: nat): map<Key, Pte> {
    map k | k in pt && !(k.owner == h.owner && h.at <= k.at < h.at + size) :: pt[k]
  }

  /** Each of the given pages loses one holder; those without any are gone. */
  function DropPages(pages: map<nat, Page>, held: set<nat>): map<nat, Page> {
    map p | p in pages && !(p in held && pages[p].refs <= 1) ::
      if p in held then pages[p].(refs := pages[p].refs - 1) else pages[p]
  }

  /** The frames of the pages that lose their last holder. */
  function FreedFrames(pages: map<nat, Page>, held: set<nat>): set<nat> {
    set p | p in held && p in pages && pages[p].refs <= 1 :: pages[p].frame
  }

  function SlotsWithout(slots: map<Key, nat>, r: nat): map<Key, nat> {
    map k | k in slots && k.owner != r :: slots[k]
  }

  function DropRegion(vm: Vm, r: nat): (v: Vm)
    requires r in vm.regions
  {
    var g := vm.regions[r];
    if g.refs > 1 then vm.(regions := vm.regions[r := g.(refs := g.refs - 1)])
    else
      var held := PagesOf(vm.slots, r);
      Vm(DropPages(vm.pages, held), vm.regions - {r}, SlotsWithout(vm.slots, r), vm.maps, vm.pt, vm.areas,
         vm.free + FreedFrames(vm.pages, held), vm.mem, vm.next)
  }

  /** vm_destroy */
  function Unmap(vm: Vm, h: Key, a: Area): (v: Vm)
    requires h in vm.maps && vm.maps[h].region in vm.regions
  {
    var v := DropRegion(vm, vm.maps[h].region);
    v.(pt := Unmapped(vm.pt, h, vm.maps[h].size), maps := vm.maps - {h}, areas := vm.areas[h.owner := a])
  }

  ghost predicate CanUnmap(vm: Vm, h: Key, a: Area) {
    && Core(vm) && h in vm.maps && vm.maps[h].region in vm.regions && h.owner in vm.areas
    && Loses(vm.areas, vm.areas[h.owner := a], h.owner, Block(h.at, vm.maps[h].size))
  }

  lemma UsersLost(maps: map<Key, Mapping>, h: Key, r: nat)
    requires h in maps
    ensures Users(maps - {h}, r) == Users(maps, r) - {h}
    ensures h in Users(maps, maps[h].region)
  {
  }

  lemma LastUser(vm: Vm, h: Key, g: Key)
    requires Core(vm) && h in vm.maps && vm.maps[h].region in vm.regions && vm.regions[vm.maps[h].region].refs == 1
    requires g in vm.maps && vm.maps[g].region == vm.maps[h].region
    ensures g == h
  {
    var r := vm.maps[h].region;
    assert RegionAt(vm, r);
    assert h in Users(vm.maps, r) && g in Users(vm.maps, r);
    OnlyElement(Users(vm.maps, r), g, h);
  }

  lemma UnmapMaps(vm: Vm, h: Key, a: Area)
    requires CanUnmap(vm, h, a)
    ensures Mappings(Unmap(vm, h, a)) && Regions(Unmap(vm, h, a))
  {
    hide DropPages, FreedFrames, SlotsWithout, Unmapped, PagesOf, Users;
    var v, r := Unmap(vm, h, a), vm.maps[h].region;
    assert MapAt(vm, h) && RegionAt(vm, r);
    forall g ensures MapAt(v, g) {
      assert MapAt(vm, g);
      if g in vm.maps && vm.maps[g].region == r && vm.regions[r].refs == 1 {
        LastUser(vm, h, g);
      }
      if g in v.maps && g.owner == h.owner {
        DistinctBlocks(vm, g, h);
      }
    }
    forall t, c ensures UsedAt(v, t, c) {
      assert UsedAt(vm, t, c);
    }
    forall t ensures AreaAt(v, t) { assert AreaAt(vm, t); }
    forall x ensures RegionAt(v, x) {
      assert RegionAt(vm, x);
      UsersLost(vm.maps, h, x);
      UsersAre(vm.maps, h, x);
    }
    forall i, j ensures SharedAt(v, i, j) { assert SharedAt(vm, i, j); }
  }

  lemma UsersAre(maps: map<Key, Mapping>, h: Key, r: nat)
    requires h in maps
    ensures h in Users(maps, r) <==> maps[h].region == r
  {
  }

  lemma DistinctBlocks(vm: Vm, g: Key, h: Key)
    requires Core(vm) && g in vm.maps && h in vm.maps && g != h
    ensures Block(g.at, vm.maps[g].size) != Block(h.at, vm.maps[h].size) || g.owner != h.owner
  {
  }

  lemma DroppedHolders(vm: Vm, r: nat, p: nat)
    requires Core(vm)
    ensures p !in PagesOf(vm.slots, r) ==> Holders(SlotsWithout(vm.slots, r), p) == Holders(vm.slots, p)
    ensures p in PagesOf(vm.slots, r) ==>
              exists c :: c in Holders(vm.slots, p) && c.owner == r && Holders(SlotsWithout(vm.slots, r), p) == Holders(vm.slots, p) - {c}
  {
    var t := SlotsWithout(vm.slots, r);
    if p in PagesOf(vm.slots, r) {
      var c :| c in vm.slots && c.owner == r && vm.slots[c] == p;
      forall k ensures k in Holders(t, p) <==> k in Holders(vm.slots, p) - {c} {
        assert OnceAt(vm, k, c);
      }
      assert Holders(t, p) == Holders(vm.slots, p) - {c};
      assert c in Holders(vm.slots, p);
    } else {
      forall k ensures k in Holders(t, p) <==> k in Holders(vm.slots, p) {
        assert k in vm.slots && k.owner == r ==> vm.slots[k] in PagesOf(vm.slots, r);
      }
    }
  }

  lemma DroppedPage(vm: Vm, r: nat, p: nat)
    requires Core(vm) && r in vm.regions && vm.regions[r].refs <= 1
    ensures PageAt(DropRegion(vm, r), p)
  {
    hide SlotsWithout, PagesOf, Holders;
    var v := DropRegion(vm, r);
    assert PageAt(vm, p);
    DroppedHolders(vm, r, p);
    if p in v.pages {
      forall q | q in vm.pages && vm.pages[q].refs <= 1 && q in PagesOf(vm.slots, r) ensures vm.pages[q].frame != vm.pages[p].frame {
        assert FrameApart(vm, p, q);
      }
    }
  }

  lemma DroppedSlot(vm: Vm, r: nat, k: Key)
    requires Core(vm) && r in vm.regions && vm.regions[r].refs <= 1
    ensures SlotAt(DropRegion(vm, r), k)
    ensures k in DropRegion(vm, r).slots <==> k in vm.slots && k.owner != r
    ensures k in DropRegion(vm, r).slots ==> DropRegion(vm, r).slots[k] == vm.slots[k]
  {
    hide FreedFrames, Holders;
    var v := DropRegion(vm, r);
    assert SlotAt(vm, k);
    if k in v.slots {
      var p := vm.slots[k];
      if p in PagesOf(vm.slots, r) && vm.pages[p].refs <= 1 {
        assert PageAt(vm, p);
        var c :| c in vm.slots && c.owner == r && vm.slots[c] == p;
        HeldOnce(vm, k, c);
      }
    }
  }

  lemma ZeroKept(vm: Vm, held: set<nat>)
    requires Core(vm)
    ensures 0 !in FreedFrames(vm.pages, held)
  {
    forall p | p in held && p in vm.pages && vm.pages[p].refs <= 1 ensures vm.pages[p].frame != 0 {
      assert PageAt(vm, p);
    }
  }

  lemma UnmapPages(vm: Vm, h: Key, a: Area)
    requires CanUnmap(vm, h, a)
    ensures Pages(Unmap(vm, h, a)) && Slots(Unmap(vm, h, a))
  {
    hide Unmapped, Users, Holders, FreedFrames, PagesOf, SlotsWithout;
    var v, r := Unmap(vm, h, a), vm.maps[h].region;
    if vm.regions[r].refs > 1 {
      forall p ensures PageAt(v, p) { assert PageAt(vm, p); }
      forall p, q ensures FrameApart(v, p, q) { assert FrameApart(vm, p, q); }
      forall k ensures SlotAt(v, k) { assert SlotAt(vm, k); }
      forall k, l ensures OnceAt(v, k, l) { assert OnceAt(vm, k, l); }
      forall g, k ensures SoleAt(v, g, k) { assert SoleAt(vm, g, k); }
    } else {
      var w := DropRegion(vm, r);
      ZeroKept(vm, PagesOf(vm.slots, r));
      forall p ensures PageAt(v, p) { DroppedPage(vm, r, p); assert PageAt(w, p); }
      forall p, q ensures FrameApart(v, p, q) { assert FrameApart(vm, p, q); }
      forall k ensures SlotAt(v, k) { DroppedSlot(vm, r, k); assert SlotAt(w, k); }
      forall k, l ensures OnceAt(v, k, l) { assert OnceAt(vm, k, l); DroppedSlot(vm, r, k); DroppedSlot(vm, r, l); }
      forall g, k ensures SoleAt(v, g, k) {
        assert SoleAt(vm, g, k) && SlotAt(vm, k);
        DroppedSlot(vm, r, k);
        if k in vm.slots {
          DroppedPage(vm, r, vm.slots[k]);
          assert PageAt(w, vm.slots[k]);
        }
      }
    }
  }

  ghost predicate InBlockOf(vm: Vm, h: Key, k: Key)
    requires h in vm.maps
  {
    k.owner == h.owner && h.at <= k.at < h.at + vm.maps[h].size
  }

  lemma UnmapCell(vm: Vm, h: Key, a: Area, k: Key)
    requires CanUnmap(vm, h, a)
    ensures var v := Unmap(vm, h, a);
            if InBlockOf(vm, h, k) then Cell(v, k) == None && !Writable(v, k)
            else Cell(v, k) == Cell(vm, k) && Writable(v, k) == Writable(vm, k)
    ensures !InBlockOf(vm, h, k) && Cell(vm, k).Some? && vm.regions[vm.maps[h].region].refs <= 1 ==>
              Cell(vm, k).value.owner != vm.maps[h].region
  {
    hide DropPages, FreedFrames, SlotsWithout, Unmapped, PagesOf, Users, Holders, Home, Loses, Spaced;
    AllSpaced(vm);
    HomeLost(vm.areas, vm.areas[h.owner := a], h.owner, Block(h.at, vm.maps[h].size), k);
    HomeIs(vm, k);
    assert RegionAt(vm, vm.maps[h].region);
    if !InBlockOf(vm, h, k) && Cell(vm, k).Some? && vm.regions[vm.maps[h].region].refs <= 1 {
      var g := Home(vm.areas, k).value;
      if vm.maps[g].region == vm.maps[h].region {
        LastUser(vm, h, g);
        assert false;
      }
    }
  }

  /** A slot that stays keeps its page, with one holder less at most. */
  lemma KeptSlot(vm: Vm, h: Key, a: Area, c: Key)
    requires CanUnmap(vm, h, a) && c in vm.slots
    requires vm.regions[vm.maps[h].region].refs <= 1 ==> c.owner != vm.maps[h].region
    ensures var v := Unmap(vm, h, a); var p := vm.slots[c];
            && c in v.slots && v.slots[c] == p && p in vm.pages && p in v.pages
            && v.pages[p].frame == vm.pages[p].frame && v.pages[p].refs <= vm.pages[p].refs && v.pages[p].refs > 0
  {
    hide Unmapped, Users, Holders, FreedFrames, PagesOf, Home;
    var r := vm.maps[h].region;
    assert SlotAt(vm, c) && PageAt(vm, vm.slots[c]);
    if vm.regions[r].refs <= 1 {
      DroppedSlot(vm, r, c);
      DroppedPage(vm, r, vm.slots[c]);
    }
  }

  lemma UnmapCore(vm: Vm, h: Key, a: Area)
    requires CanUnmap(vm, h, a)
    ensures Core(Unmap(vm, h, a))
  {
    hide Unmap;
    UnmapMaps(vm, h, a);
    UnmapPages(vm, h, a);
    var v := Unmap(vm, h, a);
    forall k ensures PteAt(v, k) { UnmapEntry(vm, h, a, k); }
  }

  lemma UnmapEntry(vm: Vm, h: Key, a: Area, k: Key)
    requires CanUnmap(vm, h, a)
    ensures PteAt(Unmap(vm, h, a), k)
  {
    hide DropPages, FreedFrames, SlotsWithout, PagesOf, Users, Holders, Home, Loses, Cell, Writable;
    assert PteAt(vm, k);
    UnmapCell(vm, h, a, k);
    if k in Unmap(vm, h, a).pt {
      KeptSlot(vm, h, a, Cell(vm, k).value);
    }
  }

  /** Only the pages of the mapping's block disappear from view. */
  lemma UnmapViews(vm: Vm, h: Key, a: Area, k: Key)
    requires CanUnmap(vm, h, a)
    ensures View(Unmap(vm, h, a), k) == (if InBlockOf(vm, h, k) then None else View(vm, k))
  {
    hide DropPages, FreedFrames, SlotsWithout, PagesOf, Users, Holders, Home, Loses, Cell, Writable, Unmapped;
    UnmapCell(vm, h, a, k);
    CellIs(vm, k);
    if !InBlockOf(vm, h, k) && Cell(vm, k).Some? {
      var c := Cell(vm, k).value;
      if c in vm.slots {
        KeptSlot(vm, h, a, c);
      } else {
        UnfilledSlot(vm, h, a, c);
      }
    }
  }

  lemma UnfilledSlot(vm: Vm, h: Key, a: Area, c: Key)
    requires CanUnmap(vm, h, a) && c !in vm.slots && c.owner in vm.regions
    requires vm.regions[vm.maps[h].region].refs <= 1 ==> c.owner != vm.maps[h].region
    ensures CellContent(Unmap(vm, h, a), c) == CellContent(vm, c)
  {
    hide DropPages, FreedFrames, PagesOf, Users, Holders, Home, Loses, Cell, Writable, Unmapped, Core;
    assert RegionAt(vm, vm.maps[h].region) by { CoreParts(vm); }
  }
}
