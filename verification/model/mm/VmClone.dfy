/** vm_clone: how fork gives a mapping of one space to another. */
module VmClone {
  import opened Sma
  import opened VmState

  /** The space s gains the used block b and nothing else. */
  ghost predicate Gains(areas: map<nat, Area>, areas': map<nat, Area>, s: nat, b: Block) {
    && s in areas && s in areas' && areas'.Keys == areas.Keys
    && (forall t :: t in areas && t != s ==> areas'[t] == areas[t])
    && (forall c {:trigger c in areas'[s].used} :: c in areas'[s].used <==> c in areas[s].used || c == b)
    && b !in areas[s].used && Spaced(areas'[s].used)
  }

  lemma HomeWhere(areas: map<nat, Area>, k: Key, b: Block)
    requires k.owner in areas && Spaced(areas[k.owner].used) && b in areas[k.owner].used && b.Has(k.at)
    ensures Home(areas, k) == Some(Key(k.owner, b.start))
  {
    var l := areas[k.owner].used;
    var i :| 0 <= i < |l| && l[i] == b;
    assert l[i].Has(k.at);
  }

  lemma HomeNowhere(areas: map<nat, Area>, k: Key)
    requires k.owner in areas && Home(areas, k).Some?
    ensures exists b :: b in areas[k.owner].used && b.Has(k.at) && Home(areas, k) == Some(Key(k.owner, b.start))
  {
    var l := areas[k.owner].used;
    var b := l[FindAt(l, k.at)];
    assert b in l;
  }

  lemma HomeGained(areas: map<nat, Area>, areas': map<nat, Area>, s: nat, b: Block, k: Key)
    requires Gains(areas, areas', s, b) && forall t :: t in areas ==> Spaced(areas[t].used)
    ensures Home(areas', k) == if k.owner == s && b.Has(k.at) then Some(Key(s, b.start)) else Home(areas, k)
    ensures k.owner == s && b.Has(k.at) ==> Home(areas, k) == None
    ensures Home(areas, k).Some? ==> Home(areas, k) != Some(Key(s, b.start))
  {
    hide Spaced;
    if k.owner == s {
      if Home(areas, k).Some? {
        HomeNowhere(areas, k);
        var c :| c in areas[s].used && c.Has(k.at) && Home(areas, k) == Some(Key(s, c.start));
        HomeWhere(areas', k, c);
        Disjoint(areas'[s].used, b, c);
      } else if b.Has(k.at) {
        HomeWhere(areas', k, b);
      } else if Home(areas', k).Some? {
        HomeNowhere(areas', k);
        var c :| c in areas'[s].used && c.Has(k.at) && Home(areas', k) == Some(Key(s, c.start));
        HomeWhere(areas, k, c);
      }
    }
  }

  lemma Disjoint(l: seq<Block>, b: Block, c: Block)
    requires Spaced(l) && b in l && c in l && b != c
    ensures b.End() <= c.start || c.End() <= b.start
    ensures b.start != c.start && b.size > 0 && c.size > 0
  {
    var i :| 0 <= i < |l| && l[i] == b;
    var j :| 0 <= j < |l| && l[j] == c;
  }

  // ---- a region shared by both mappings ------------------------------------------------------

  /** Without PROT_WRITE both mappings keep one region. */
  function CloneShared(vm: Vm, h: Key, d: nat, a: Area): (r: Vm)
    requires h in vm.maps && vm.maps[h].region in vm.regions
  {
    var m := vm.maps[h];
    var g := vm.regions[m.region];
    vm.(maps := vm.maps[Key(d, h.at) := m], regions := vm.regions[m.region := g.(refs := g.refs + 1)],
        areas := vm.areas[d := a])
  }

  /** The destination d got the block of mapping h, and its area became a. */
  ghost predicate CanClone(vm: Vm, h: Key, d: nat, a: Area) {
    && Core(vm) && h in vm.maps && h.owner != d && d in vm.areas
    && Gains(vm.areas, vm.areas[d := a], d, Block(h.at, vm.maps[h].size))
  }

  lemma AllSpaced(vm: Vm)
    requires Core(vm)
    ensures forall t :: t in vm.areas ==> Spaced(vm.areas[t].used)
  {
    forall t | t in vm.areas ensures Spaced(vm.areas[t].used) {
      assert AreaAt(vm, t);
    }
  }

  /** No mapping of d starts where the new block starts. */
  lemma NewKey(vm: Vm, h: Key, d: nat, a: Area)
    requires CanClone(vm, h, d, a)
    ensures Key(d, h.at) !in vm.maps
    ensures vm.maps[h].region in vm.regions
  {
    var g, b := Key(d, h.at), Block(h.at, vm.maps[h].size);
    assert MapAt(vm, h);
    if g in vm.maps {
      assert MapAt(vm, g);
      var c := Block(g.at, vm.maps[g].size);
      assert c in vm.areas[d].used;
      Disjoint(vm.areas[d := a][d].used, b, c);
    }
  }

  /** Everything about mappings other than the new one is as before. */
  lemma ClonedMaps(vm: Vm, h: Key, d: nat, a: Area, r: Vm)
    requires CanClone(vm, h, d, a) && r.areas == vm.areas[d := a] && Key(d, h.at) !in vm.maps
    requires r.maps.Keys == vm.maps.Keys + {Key(d, h.at)}
    requires r.maps[Key(d, h.at)].size == vm.maps[h].size
    requires forall g :: g in vm.maps ==> r.maps[g].size == vm.maps[g].size
    requires forall g :: g in r.maps ==> r.maps[g].region in r.regions && r.regions[r.maps[g].region].size == r.maps[g].size
    ensures Mappings(r)
  {
    forall g ensures MapAt(r, g) {
      assert MapAt(vm, g);
    }
    forall s, b ensures UsedAt(r, s, b) {
      assert UsedAt(vm, s, b);
    }
    forall s ensures AreaAt(r, s) {
      assert AreaAt(vm, s);
    }
  }

  lemma UsersGained(maps: map<Key, Mapping>, g: Key, m: Mapping, r: nat)
    requires g !in maps
    ensures Users(maps[g := m], r) == (if m.region == r then Users(maps, r) + {g} else Users(maps, r))
  {
  }

  lemma SharedRegions(vm: Vm, h: Key, d: nat, a: Area)
    requires CanClone(vm, h, d, a) && !vm.maps[h].write
    ensures vm.maps[h].region in vm.regions && Regions(CloneShared(vm, h, d, a))
  {
    NewKey(vm, h, d, a);
    var r := CloneShared(vm, h, d, a);
    var g := Key(d, h.at);
    forall x ensures RegionAt(r, x) {
      assert RegionAt(vm, x);
      UsersGained(vm.maps, g, vm.maps[h], x);
      assert g !in Users(vm.maps, x);
    }
    forall i, j ensures SharedAt(r, i, j) {
      assert SharedAt(vm, i, j) && SharedAt(vm, i, h) && SharedAt(vm, h, j);
    }
  }

  lemma SharedCell(vm: Vm, h: Key, d: nat, a: Area, k: Key)
    requires CanClone(vm, h, d, a)
    ensures vm.maps[h].region in vm.regions
    ensures var r := CloneShared(vm, h, d, a);
            && Cell(r, k) == (if k.owner == d && h.at <= k.at < h.at + vm.maps[h].size
                              then Cell(vm, Key(h.owner, k.at)) else Cell(vm, k))
            && Writable(r, k) == (if k.owner == d && h.at <= k.at < h.at + vm.maps[h].size
                                  then Writable(vm, Key(h.owner, k.at)) else Writable(vm, k))
    ensures k.owner == d && h.at <= k.at < h.at + vm.maps[h].size ==> Cell(vm, k) == None
  {
    hide Home, Spaced, Gains;
    NewKey(vm, h, d, a);
    AllSpaced(vm);
    HomeGained(vm.areas, vm.areas[d := a], d, Block(h.at, vm.maps[h].size), k);
    if k.owner == d && h.at <= k.at < h.at + vm.maps[h].size {
      HomeOf(vm, h, k.at);
    }
  }

  lemma CloneSharedCore(vm: Vm, h: Key, d: nat, a: Area)
    requires CanClone(vm, h, d, a) && !vm.maps[h].write
    ensures vm.maps[h].region in vm.regions && Core(CloneShared(vm, h, d, a))
  {
    hide Cell, Users, Holders, Gains;
    NewKey(vm, h, d, a);
    var r := CloneShared(vm, h, d, a);
    forall g | g in r.maps ensures r.maps[g].region in r.regions && r.regions[r.maps[g].region].size == r.maps[g].size {
      assert MapAt(vm, g) && MapAt(vm, h);
    }
    ClonedMaps(vm, h, d, a, r);
    SharedRegions(vm, h, d, a);
    forall p ensures PageAt(r, p) { assert PageAt(vm, p); }
    forall p, q ensures FrameApart(r, p, q) { assert FrameApart(vm, p, q); }
    forall k ensures SlotAt(r, k) { assert SlotAt(vm, k); }
    forall k, l ensures OnceAt(r, k, l) { assert OnceAt(vm, k, l); }
    forall g, k ensures SoleAt(r, g, k) { assert SoleAt(vm, g, k) && SoleAt(vm, h, k); }
    forall k ensures PteAt(r, k) {
      assert PteAt(vm, k);
      SharedCell(vm, h, d, a, k);
    }
  }

  lemma CloneSharedViews(vm: Vm, h: Key, d: nat, a: Area, k: Key)
    requires CanClone(vm, h, d, a)
    ensures vm.maps[h].region in vm.regions
    ensures View(CloneShared(vm, h, d, a), k) ==
            (if k.owner == d && h.at <= k.at < h.at + vm.maps[h].size then View(vm, Key(h.owner, k.at)) else View(vm, k))
  {
    hide Cell;
    SharedCell(vm, h, d, a, k);
  }

  // ---- a region of its own for each mapping ----------------------------------------------------

  /** The slots of region r, copied under region q. */
  function CopiedSlots(slots: map<Key, nat>, r: nat, q: nat): map<Key, nat> {
    map k | k in slots && k.owner == r :: Key(q, k.at) := slots[k]
  }

  /** The slots after region r was replaced by copies r1 and r2. */
  function SplitSlots(slots: map<Key, nat>, r: nat, r1: nat, r2: nat): map<Key, nat> {
    (map k | k in slots && k.owner != r :: slots[k]) + CopiedSlots(slots, r, r1) + CopiedSlots(slots, r, r2)
  }

  /** The pages a region holds. */
  function PagesOf(slots: map<Key, nat>, r: nat): set<nat> {
    set k | k in slots && k.owner == r :: slots[k]
  }

  /** Two holders more and one less for each page of the region. */
  function SplitPages(pages: map<nat, Page>, held: set<nat>): map<nat, Page> {
    map p | p in pages :: if p in held then pages[p].(refs := pages[p].refs + 1) else pages[p]
  }

  /** The block of mapping h mapped anew without the RW bit wherever its region holds a page. */
  function ReadOnly(vm: Vm, h: Key, r: nat): map<Key, Pte> {
    vm.pt + Unwritable(vm, h, r)
  }

  /** The entries of that block. */
  function Unwritable(vm: Vm, h: Key, r: nat): map<Key, Pte> {
    map c | c in vm.slots && c.owner == r && vm.slots[c] in vm.pages ::
      Key(h.owner, h.at + c.at) := Pte(vm.pages[vm.slots[c]].frame, false)
  }

  /** Region r gives way to two regions like it with one mapping each. */
  function TwoRegions(regions: map<nat, Region>, r: nat, r1: nat, r2: nat): map<nat, Region>
    requires r in regions
  {
    (regions - {r})[r1 := regions[r].(refs := 1)][r2 := regions[r].(refs := 1)]
  }

  function TwoMappings(maps: map<Key, Mapping>, h: Key, g: Key, r1: nat, r2: nat): map<Key, Mapping>
    requires h in maps
  {
    maps[h := maps[h].(region := r1)][g := maps[h].(region := r2)]
  }

  function CloneSplit(vm: Vm, h: Key, d: nat, a: Area): (v: Vm)
    requires h in vm.maps && vm.maps[h].region in vm.regions
  {
    var r, r1, r2 := vm.maps[h].region, vm.next, vm.next + 1;
    Vm(SplitPages(vm.pages, PagesOf(vm.slots, r)), TwoRegions(vm.regions, r, r1, r2),
       SplitSlots(vm.slots, r, r1, r2), TwoMappings(vm.maps, h, Key(d, h.at), r1, r2),
       ReadOnly(vm, h, r), vm.areas[d := a], vm.free, vm.mem, vm.next + 2)
  }

  ghost predicate CanSplit(vm: Vm, h: Key, d: nat, a: Area) {
    CanClone(vm, h, d, a) && vm.maps[h].write && vm.maps[h].region in vm.regions
  }

  /** Slot k of the new state was slot Origin(k) of the old one. */
  function Origin(k: Key, r: nat, r1: nat, r2: nat): Key {
    if k.owner == r1 || k.owner == r2 then Key(r, k.at) else k
  }

  lemma SplitSlotIs(slots: map<Key, nat>, r: nat, r1: nat, r2: nat, k: Key)
    requires r1 != r && r2 != r && r1 != r2
    requires forall x :: x in slots ==> x.owner != r1 && x.owner != r2
    ensures var o := Origin(k, r, r1, r2); var t := SplitSlots(slots, r, r1, r2);
            && (k in t <==> k.owner != r && o in slots)
            && (k in t ==> t[k] == slots[o])
  {
    CopiedSlotIs(slots, r, r1, k);
    CopiedSlotIs(slots, r, r2, k);
  }

  lemma CopiedSlotIs(slots: map<Key, nat>, r: nat, q: nat, k: Key)
    ensures var t := CopiedSlots(slots, r, q);
            (k in t <==> k.owner == q && Key(r, k.at) in slots) && (k in t ==> t[k] == slots[Key(r, k.at)])
  {
    if k.owner == q && Key(r, k.at) in slots {
      assert Key(r, k.at).owner == r;
    }
  }

  /** Regions next and next + 1 do not exist yet. */
  lemma NewRegions(vm: Vm)
    requires Core(vm)
    ensures forall x :: x in vm.slots ==> x.owner < vm.next
    ensures forall x :: x in vm.regions ==> x < vm.next
    ensures forall h :: h in vm.maps ==> vm.maps[h].region < vm.next
  {
    forall x | x in vm.regions ensures x < vm.next { assert RegionAt(vm, x); }
    forall x | x in vm.slots ensures x.owner < vm.next { assert SlotAt(vm, x); }
    forall h | h in vm.maps ensures vm.maps[h].region < vm.next { assert MapAt(vm, h); }
  }

  lemma SlotOf(vm: Vm, h: Key, d: nat, a: Area, k: Key)
    requires CanSplit(vm, h, d, a)
    ensures var v := CloneSplit(vm, h, d, a); var r := vm.maps[h].region;
            var o := Origin(k, r, vm.next, vm.next + 1);
            && (k in v.slots <==> k.owner != r && o in vm.slots)
            && (k in v.slots ==> v.slots[k] == vm.slots[o])
            && r < vm.next
  {
    hide SplitSlots, SplitPages, ReadOnly, PagesOf, Gains;
    NewRegions(vm);
    SplitSlotIs(vm.slots, vm.maps[h].region, vm.next, vm.next + 1, k);
  }

  /** The mapping is the only one of its region. */
  lemma OnlyUser(vm: Vm, h: Key)
    requires Core(vm) && h in vm.maps && vm.maps[h].write
    ensures Users(vm.maps, vm.maps[h].region) == {h}
    ensures vm.maps[h].region in vm.regions && vm.regions[vm.maps[h].region].refs == 1
  {
    var r := vm.maps[h].region;
    assert MapAt(vm, h) && RegionAt(vm, r);
    forall g | g in Users(vm.maps, r) ensures g == h {
      assert SharedAt(vm, h, g);
    }
  }

  lemma SplitUsers(vm: Vm, h: Key, d: nat, a: Area, x: nat)
    requires CanSplit(vm, h, d, a)
    ensures var v := CloneSplit(vm, h, d, a); var r := vm.maps[h].region;
            Users(v.maps, x) == (if x == r then {} else if x == vm.next then {h}
                                 else if x == vm.next + 1 then {Key(d, h.at)} else Users(vm.maps, x))
  {
    hide SplitSlots, SplitPages, ReadOnly;
    NewKey(vm, h, d, a);
    NewRegions(vm);
    OnlyUser(vm, h);
    var v := CloneSplit(vm, h, d, a);
    assert forall g :: g in vm.maps && vm.maps[g].region == vm.maps[h].region ==> g in Users(vm.maps, vm.maps[h].region);
  }

  lemma SplitRegions(vm: Vm, h: Key, d: nat, a: Area)
    requires CanSplit(vm, h, d, a)
    ensures Regions(CloneSplit(vm, h, d, a))
  {
    hide SplitSlots, SplitPages, ReadOnly, Users, Gains;
    NewKey(vm, h, d, a);
    NewRegions(vm);
    var v := CloneSplit(vm, h, d, a);
    forall x ensures RegionAt(v, x) {
      assert RegionAt(vm, x) && RegionAt(vm, vm.maps[h].region);
      SplitUsers(vm, h, d, a, x);
    }
    forall i, j ensures SharedAt(v, i, j) {
      assert SharedAt(vm, i, j);
    }
  }

  lemma SplitMappings(vm: Vm, h: Key, d: nat, a: Area)
    requires CanSplit(vm, h, d, a)
    ensures Mappings(CloneSplit(vm, h, d, a))
  {
    hide SplitSlots, SplitPages, ReadOnly, Gains;
    NewKey(vm, h, d, a);
    NewRegions(vm);
    OnlyUser(vm, h);
    var v := CloneSplit(vm, h, d, a);
    forall g | g in v.maps ensures v.maps[g].region in v.regions && v.regions[v.maps[g].region].size == v.maps[g].size {
      assert MapAt(vm, g) && MapAt(vm, h);
      assert g in vm.maps && vm.maps[g].region == vm.maps[h].region ==> g in Users(vm.maps, vm.maps[h].region);
    }
    ClonedMaps(vm, h, d, a, v);
  }

  /** The holders of a page: its slot in the old region is replaced by one in each new region. */
  lemma SplitHolders(vm: Vm, h: Key, d: nat, a: Area, p: nat, c: Key)
    requires CanSplit(vm, h, d, a) && c in vm.slots && c.owner == vm.maps[h].region && vm.slots[c] == p
    ensures Holders(CloneSplit(vm, h, d, a).slots, p) ==
            Holders(vm.slots, p) - {c} + {Key(vm.next, c.at), Key(vm.next + 1, c.at)}
  {
    hide SplitSlots, SplitPages, ReadOnly;
    var v := CloneSplit(vm, h, d, a);
    var hs := Holders(vm.slots, p) - {c} + {Key(vm.next, c.at), Key(vm.next + 1, c.at)};
    forall k ensures k in Holders(v.slots, p) <==> k in hs {
      SlotOf(vm, h, d, a, k);
      NewRegions(vm);
      var o := Origin(k, vm.maps[h].region, vm.next, vm.next + 1);
      assert OnceAt(vm, o, c) && OnceAt(vm, k, c);
    }
  }

  lemma SplitOtherHolders(vm: Vm, h: Key, d: nat, a: Area, p: nat)
    requires CanSplit(vm, h, d, a) && p !in PagesOf(vm.slots, vm.maps[h].region)
    ensures Holders(CloneSplit(vm, h, d, a).slots, p) == Holders(vm.slots, p)
  {
    hide SplitSlots, SplitPages, ReadOnly;
    var v := CloneSplit(vm, h, d, a);
    forall k ensures k in Holders(v.slots, p) <==> k in Holders(vm.slots, p) {
      SlotOf(vm, h, d, a, k);
      NewRegions(vm);
      assert k in vm.slots && k.owner == vm.maps[h].region ==> vm.slots[k] in PagesOf(vm.slots, vm.maps[h].region);
      var o := Origin(k, vm.maps[h].region, vm.next, vm.next + 1);
      assert o in vm.slots && o.owner == vm.maps[h].region ==> vm.slots[o] in PagesOf(vm.slots, vm.maps[h].region);
    }
  }

  lemma SplitPage(vm: Vm, h: Key, d: nat, a: Area, p: nat)
    requires CanSplit(vm, h, d, a)
    ensures PageAt(CloneSplit(vm, h, d, a), p)
  {
    hide SplitSlots, ReadOnly, Holders;
    assert PageAt(vm, p);
    var r := vm.maps[h].region;
    if p in vm.pages {
      if p in PagesOf(vm.slots, r) {
        var c :| c in vm.slots && c.owner == r && vm.slots[c] == p;
        SplitHolders(vm, h, d, a, p, c);
        NewRegions(vm);
        SplitCard(Holders(vm.slots, p), c, Key(vm.next, c.at), Key(vm.next + 1, c.at)) by {
          HoldersIn(vm, c, p);
        }
      } else {
        SplitOtherHolders(vm, h, d, a, p);
      }
    }
  }

  lemma HoldersIn(vm: Vm, c: Key, p: nat)
    requires Core(vm) && c in vm.slots && vm.slots[c] == p
    ensures c in Holders(vm.slots, p)
    ensures forall k :: k in Holders(vm.slots, p) ==> k.owner < vm.next
  {
    NewRegions(vm);
  }

  lemma SplitCard(s: set<Key>, c: Key, x: Key, y: Key)
    requires c in s && x !in s && y !in s && x != y
    ensures |s - {c} + {x, y}| == |s| + 1
  {
    assert s - {c} + {x, y} == (s - {c} + {x}) + {y};
  }

  lemma SplitPagesOk(vm: Vm, h: Key, d: nat, a: Area)
    requires CanSplit(vm, h, d, a)
    ensures Pages(CloneSplit(vm, h, d, a))
  {
    hide SplitSlots, ReadOnly, Holders;
    var v := CloneSplit(vm, h, d, a);
    forall p ensures PageAt(v, p) { SplitPage(vm, h, d, a, p); }
    forall p, q ensures FrameApart(v, p, q) { assert FrameApart(vm, p, q); }
  }

  lemma SplitSlotsOk(vm: Vm, h: Key, d: nat, a: Area)
    requires CanSplit(vm, h, d, a)
    ensures Slots(CloneSplit(vm, h, d, a))
  {
    hide SplitSlots, ReadOnly, Holders;
    var v, r := CloneSplit(vm, h, d, a), vm.maps[h].region;
    NewRegions(vm);
    forall k ensures SlotAt(v, k) {
      SlotOf(vm, h, d, a, k);
      assert SlotAt(vm, Origin(k, r, vm.next, vm.next + 1));
    }
    forall k, l ensures OnceAt(v, k, l) {
      SlotOf(vm, h, d, a, k);
      SlotOf(vm, h, d, a, l);
      assert OnceAt(vm, Origin(k, r, vm.next, vm.next + 1), Origin(l, r, vm.next, vm.next + 1));
    }
    forall g, k ensures SoleAt(v, g, k) { SplitSole(vm, h, d, a, g, k); }
  }

  /** A page of a region mapped without PROT_WRITE is not among the pages of the split region. */
  lemma SplitSole(vm: Vm, h: Key, d: nat, a: Area, g: Key, k: Key)
    requires CanSplit(vm, h, d, a)
    ensures SoleAt(CloneSplit(vm, h, d, a), g, k)
  {
    hide SplitSlots, ReadOnly, Holders;
    var v, r := CloneSplit(vm, h, d, a), vm.maps[h].region;
    NewRegions(vm);
    NewKey(vm, h, d, a);
    SlotOf(vm, h, d, a, k);
    if g in v.maps && !v.maps[g].write && k in v.slots && k.owner == v.maps[g].region {
      assert SoleAt(vm, g, k) && SlotAt(vm, k);
      var p := vm.slots[k];
      if p in PagesOf(vm.slots, r) {
        var c :| c in vm.slots && c.owner == r && vm.slots[c] == p;
        HeldOnce(vm, k, c);
      }
    }
  }

  ghost predicate InClone(vm: Vm, h: Key, d: nat, k: Key)
    requires h in vm.maps
  {
    k.owner == d && h.at <= k.at < h.at + vm.maps[h].size
  }

  /** The slot behind a virtual page after the split came from the slot behind it before, or behind its model in the source space. */
  lemma SplitCell(vm: Vm, h: Key, d: nat, a: Area, k: Key)
    requires CanSplit(vm, h, d, a)
    ensures var v := CloneSplit(vm, h, d, a); var r := vm.maps[h].region;
            var k' := if InClone(vm, h, d, k) then Key(h.owner, k.at) else k;
            && (Cell(v, k).Some? <==> Cell(vm, k').Some?)
            && (Cell(v, k).Some? ==> Origin(Cell(v, k).value, r, vm.next, vm.next + 1) == Cell(vm, k').value
                                     && Cell(v, k).value.owner != r)
            && Writable(v, k) == Writable(vm, k')
    ensures InClone(vm, h, d, k) ==> Cell(vm, k) == None
  {
    hide SplitSlots, SplitPages, ReadOnly, Home, Gains, Spaced;
    NewKey(vm, h, d, a);
    NewRegions(vm);
    AllSpaced(vm);
    HomeGained(vm.areas, vm.areas[d := a], d, Block(h.at, vm.maps[h].size), k);
    HomeIs(vm, k);
    if InClone(vm, h, d, k) {
      HomeOf(vm, h, k.at);
    } else if Home(vm.areas, k).Some? {
      OnlyUser(vm, h);
      var g := Home(vm.areas, k).value;
      assert g in vm.maps && vm.maps[g].region == vm.maps[h].region ==> g in Users(vm.maps, vm.maps[h].region);
    }
  }

  lemma UnwritableIs(vm: Vm, h: Key, r: nat, k: Key)
    ensures var p' := Unwritable(vm, h, r);
            k in p' ==>
              && k.owner == h.owner && h.at <= k.at && Key(r, k.at - h.at) in vm.slots
              && vm.slots[Key(r, k.at - h.at)] in vm.pages
              && p'[k] == Pte(vm.pages[vm.slots[Key(r, k.at - h.at)]].frame, false)
  {
    if k in Unwritable(vm, h, r) {
      var c :| c in vm.slots && c.owner == r && vm.slots[c] in vm.pages && k == Key(h.owner, h.at + c.at);
      assert c == Key(r, k.at - h.at);
    }
  }

  lemma UnwritableHas(vm: Vm, h: Key, c: Key)
    requires c in vm.slots && vm.slots[c] in vm.pages
    ensures Key(h.owner, h.at + c.at) in Unwritable(vm, h, c.owner)
  {
  }

  lemma ReadOnlyIs(vm: Vm, h: Key, r: nat, k: Key)
    requires var c := Key(r, if h.at <= k.at then k.at - h.at else 0); c in vm.slots ==> vm.slots[c] in vm.pages
    ensures var c := Key(r, if h.at <= k.at then k.at - h.at else 0);
            var p' := ReadOnly(vm, h, r);
            if k.owner == h.owner && h.at <= k.at && c in vm.slots
            then vm.slots[c] in vm.pages && k in p' && p'[k] == Pte(vm.pages[vm.slots[c]].frame, false)
            else (k in p' <==> k in vm.pt) && (k in p' ==> p'[k] == vm.pt[k])
  {
    hide Unwritable;
    var c := Key(r, if h.at <= k.at then k.at - h.at else 0);
    UnwritableIs(vm, h, r, k);
    if k.owner == h.owner && h.at <= k.at && c in vm.slots {
      UnwritableHas(vm, h, c);
    }
  }

  lemma SplitEntry(vm: Vm, h: Key, d: nat, a: Area, k: Key)
    requires CanSplit(vm, h, d, a)
    ensures PteAt(CloneSplit(vm, h, d, a), k)
  {
    hide SplitSlots, Home, Gains, Spaced, ReadOnly, Cell, Writable;
    var v, r := CloneSplit(vm, h, d, a), vm.maps[h].region;
    SplitCell(vm, h, d, a, k);
    assert PteAt(vm, k);
    assert SlotAt(vm, Key(r, if h.at <= k.at then k.at - h.at else 0));
    ReadOnlyIs(vm, h, r, k);
    if k in v.pt {
      var c := Key(r, if h.at <= k.at then k.at - h.at else 0);
      if k.owner == h.owner && h.at <= k.at && c in vm.slots {
        SourceEntry(vm, h, k, c);
        SlotOf(vm, h, d, a, Cell(v, k).value);
      } else {
        OldEntry(vm, h, d, a, k);
      }
    }
  }

  /** A page of the source block stands for the slot at its offset. */
  lemma SourceEntry(vm: Vm, h: Key, k: Key, c: Key)
    requires Core(vm) && h in vm.maps && k.owner == h.owner && h.at <= k.at && c == Key(vm.maps[h].region, k.at - h.at) && c in vm.slots
    ensures Cell(vm, k) == Some(c)
  {
    assert SlotAt(vm, c) && MapAt(vm, h);
    HomeOf(vm, h, k.at);
  }

  /** An entry outside the source block keeps its frame, and if it is writable its page is not in the split region. */
  lemma OldEntry(vm: Vm, h: Key, d: nat, a: Area, k: Key)
    requires CanSplit(vm, h, d, a) && k in vm.pt && PteAt(vm, k) && !InClone(vm, h, d, k)
    requires CloneSplit(vm, h, d, a).pt[k] == vm.pt[k] && k in CloneSplit(vm, h, d, a).pt
    requires !(k.owner == h.owner && h.at <= k.at && Key(vm.maps[h].region, k.at - h.at) in vm.slots)
    ensures PteAt(CloneSplit(vm, h, d, a), k)
  {
    hide SplitSlots, Home, Gains, Spaced, ReadOnly, Cell, Writable;
    var v, r := CloneSplit(vm, h, d, a), vm.maps[h].region;
    SplitCell(vm, h, d, a, k);
    SlotOf(vm, h, d, a, Cell(v, k).value);
    var c := Cell(vm, k).value;
    var p := vm.slots[c];
    if Writable(vm, k) && vm.pt[k].rw && p in PagesOf(vm.slots, r) {
      var e :| e in vm.slots && e.owner == r && vm.slots[e] == p;
      HeldOnce(vm, c, e);
      SplitAway(vm, h, k, c);
    }
  }

  /** Only pages of the mapping itself stand for slots of its region. */
  lemma SplitAway(vm: Vm, h: Key, k: Key, c: Key)
    requires Core(vm) && h in vm.maps && vm.maps[h].write && Cell(vm, k) == Some(c) && c.owner == vm.maps[h].region
    ensures k.owner == h.owner && h.at <= k.at && c == Key(vm.maps[h].region, k.at - h.at)
  {
    OnlyUser(vm, h);
    HomeIs(vm, k);
    assert Home(vm.areas, k).value in Users(vm.maps, vm.maps[h].region);
  }

  /** The old region is gone, nothing of it is lost, and every count is exact again. */
  lemma CloneSplitCore(vm: Vm, h: Key, d: nat, a: Area)
    requires CanSplit(vm, h, d, a)
    ensures Core(CloneSplit(vm, h, d, a))
  {
    hide CloneSplit;
    SplitMappings(vm, h, d, a);
    SplitRegions(vm, h, d, a);
    SplitPagesOk(vm, h, d, a);
    SplitSlotsOk(vm, h, d, a);
    var v := CloneSplit(vm, h, d, a);
    forall k ensures PteAt(v, k) { SplitEntry(vm, h, d, a, k); }
  }

  lemma CloneSplitViews(vm: Vm, h: Key, d: nat, a: Area, k: Key)
    requires CanSplit(vm, h, d, a)
    ensures View(CloneSplit(vm, h, d, a), k) ==
            (if InClone(vm, h, d, k) then View(vm, Key(h.owner, k.at)) else View(vm, k))
  {
    hide SplitSlots, Home, Gains, Spaced, ReadOnly, Cell, Writable;
    var v, r := CloneSplit(vm, h, d, a), vm.maps[h].region;
    SplitCell(vm, h, d, a, k);
    if Cell(v, k).Some? {
      var c := Cell(v, k).value;
      SlotOf(vm, h, d, a, c);
      SplitContent(vm, h, d, a, c);
    }
  }

  lemma SplitContent(vm: Vm, h: Key, d: nat, a: Area, c: Key)
    requires CanSplit(vm, h, d, a) && c.owner != vm.maps[h].region
    ensures CellContent(CloneSplit(vm, h, d, a), c) ==
            CellContent(vm, Origin(c, vm.maps[h].region, vm.next, vm.next + 1))
  {
    hide SplitSlots, Home, Gains, Spaced, ReadOnly, Cell, Writable, Core;
    SlotOf(vm, h, d, a, c);
  }
}
