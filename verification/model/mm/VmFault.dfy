/** vm_getpage and vm_copy_page: what a page fault does to the spaces. */
module VmFault {
  import opened Sets
  import opened Sma
  import opened VmState

  /** The page table entries after mapping one virtual page. */
  function MapPage(vm: Vm, k: Key, frame: nat, rw: bool): Vm {
    vm.(pt := vm.pt[k := Pte(frame, rw)])
  }

  /** One holder of a page gives it up; the last one frees the frame. */
  function DropRef(pages: map<nat, Page>, p: nat): map<nat, Page>
    requires p in pages
  {
    if pages[p].refs <= 1 then pages - {p} else pages[p := pages[p].(refs := pages[p].refs - 1)]
  }

  function FreedBy(pages: map<nat, Page>, p: nat): set<nat>
    requires p in pages
  {
    if pages[p].refs <= 1 then {pages[p].frame} else {}
  }

  /**
   The virtual page k gets a page of its own in frame f, with the content it had: a copy of the
   page in its slot, which loses a holder, or the region's fill.
   */
  function Provide(vm: Vm, k: Key, f: nat): (r: Vm)
    requires Cell(vm, k).Some?
  {
    var c := Cell(vm, k).value;
    var q := vm.next;
    var vm1 := vm.(slots := vm.slots[c := q], mem := vm.mem[f := CellContent(vm, c)], pt := vm.pt[k := Pte(f, true)], next := q + 1);
    if c in vm.slots && vm.slots[c] in vm.pages then
      vm1.(pages := DropRef(vm.pages, vm.slots[c])[q := Page(1, f)],
           free := vm.free - {f} + FreedBy(vm.pages, vm.slots[c]))
    else vm1.(pages := vm.pages[q := Page(1, f)], free := vm.free - {f})
  }

  ghost predicate CanProvide(vm: Vm, k: Key, f: nat) {
    && Core(vm) && Cell(vm, k).Some? && f in vm.free
    && (Cell(vm, k).value in vm.slots ==> Writable(vm, k))
  }

  lemma SameCells(vm: Vm, r: Vm)
    requires r.areas == vm.areas && r.maps == vm.maps
    ensures forall k :: Cell(r, k) == Cell(vm, k) && Writable(r, k) == Writable(vm, k)
  {
  }

  lemma HoldersMoved(slots: map<Key, nat>, c: Key, q: nat, p: nat)
    ensures Holders(slots[c := q], p) == (if p == q then Holders(slots, p) + {c} else Holders(slots, p) - {c})
  {
  }

  lemma ProvideMappings(vm: Vm, k: Key, f: nat)
    requires CanProvide(vm, k, f)
    ensures Mappings(Provide(vm, k, f)) && Regions(Provide(vm, k, f))
  {
    hide Cell, CellContent, FindAt, Users;
    var r := Provide(vm, k, f);
    forall h ensures MapAt(r, h) { assert MapAt(vm, h); }
    forall s, b ensures UsedAt(r, s, b) { assert UsedAt(vm, s, b); }
    forall s ensures AreaAt(r, s) { assert AreaAt(vm, s); }
    forall x ensures RegionAt(r, x) { assert RegionAt(vm, x); }
    forall h, g ensures SharedAt(r, h, g) { assert SharedAt(vm, h, g); }
  }

  /** A new page number is in no slot. */
  lemma NextUnheld(vm: Vm)
    requires Core(vm)
    ensures Holders(vm.slots, vm.next) == {} && vm.next !in vm.pages
  {
    forall x | x in vm.slots ensures vm.slots[x] != vm.next {
      assert SlotAt(vm, x) && PageAt(vm, vm.slots[x]);
    }
    assert PageAt(vm, vm.next);
  }

  /** The page in the slot that is replaced loses one holder. */
  lemma ProvideOldPage(vm: Vm, k: Key, f: nat, p: nat)
    requires CanProvide(vm, k, f) && Cell(vm, k).value in vm.slots && vm.slots[Cell(vm, k).value] == p
    ensures PageAt(Provide(vm, k, f), p)
  {
    hide Cell, CellContent;
    var c := Cell(vm, k).value;
    HoldersMoved(vm.slots, c, vm.next, p);
    assert PageAt(vm, p) && SlotAt(vm, c);
    assert c in Holders(vm.slots, p);
  }

  lemma ProvideNewPage(vm: Vm, k: Key, f: nat)
    requires CanProvide(vm, k, f)
    ensures PageAt(Provide(vm, k, f), vm.next)
  {
    hide Cell, CellContent;
    var c := Cell(vm, k).value;
    NextUnheld(vm);
    HoldersMoved(vm.slots, c, vm.next, vm.next);
    assert SlotAt(vm, c);
    assert c in vm.slots ==> PageAt(vm, vm.slots[c]);
  }

  lemma ProvidePage(vm: Vm, k: Key, f: nat, p: nat)
    requires CanProvide(vm, k, f)
    ensures PageAt(Provide(vm, k, f), p)
  {
    hide Cell, CellContent;
    var c := Cell(vm, k).value;
    assert PageAt(vm, p) && SlotAt(vm, c);
    if p == vm.next {
      ProvideNewPage(vm, k, f);
    } else if c in vm.slots && vm.slots[c] == p {
      ProvideOldPage(vm, k, f, p);
    } else {
      ProvideOtherPage(vm, k, f, p);
    }
  }

  lemma ProvideOtherPage(vm: Vm, k: Key, f: nat, p: nat)
    requires CanProvide(vm, k, f) && p != vm.next
    requires Cell(vm, k).value in vm.slots ==> vm.slots[Cell(vm, k).value] != p
    ensures PageAt(Provide(vm, k, f), p)
  {
    hide Cell, CellContent;
    var c := Cell(vm, k).value;
    assert PageAt(vm, p) && SlotAt(vm, c);
    HoldersMoved(vm.slots, c, vm.next, p);
    assert c !in Holders(vm.slots, p);
    assert c in vm.slots ==> FrameApart(vm, p, vm.slots[c]);
  }

  lemma ProvidePages(vm: Vm, k: Key, f: nat)
    requires CanProvide(vm, k, f)
    ensures Pages(Provide(vm, k, f))
  {
    var r := Provide(vm, k, f);
    assert Cell(vm, k).value in vm.slots ==> PageAt(vm, vm.slots[Cell(vm, k).value]);
    forall p ensures PageAt(r, p) { ProvidePage(vm, k, f, p); }
    forall p, q ensures FrameApart(r, p, q) {
      assert FrameApart(vm, p, q) && PageAt(vm, p) && PageAt(vm, q);
    }
  }

  lemma ProvideSlot(vm: Vm, k: Key, f: nat, x: Key)
    requires CanProvide(vm, k, f)
    ensures SlotAt(Provide(vm, k, f), x)
  {
    CellIs(vm, k);
    var c := Cell(vm, k).value;
    assert SlotAt(vm, x) && SlotAt(vm, c);
    if x in vm.slots && x != c && c in vm.slots && vm.slots[x] == vm.slots[c] && vm.pages[vm.slots[c]].refs == 1 {
      HeldOnce(vm, x, c);
    }
    assert PageAt(vm, vm.next);
    assert c in vm.slots ==> PageAt(vm, vm.slots[c]);
  }

  lemma ProvideSlots(vm: Vm, k: Key, f: nat)
    requires CanProvide(vm, k, f)
    ensures Slots(Provide(vm, k, f))
  {
    var r := Provide(vm, k, f);
    forall x ensures SlotAt(r, x) { ProvideSlot(vm, k, f, x); }
    forall x, y ensures OnceAt(r, x, y) {
      assert OnceAt(vm, x, y) && SlotAt(vm, x) && SlotAt(vm, y) && PageAt(vm, vm.next);
    }
    forall h, x ensures SoleAt(r, h, x) { ProvideSole(vm, k, f, h, x); }
  }

  lemma ProvideSole(vm: Vm, k: Key, f: nat, h: Key, x: Key)
    requires CanProvide(vm, k, f)
    ensures SoleAt(Provide(vm, k, f), h, x)
  {
    hide Cell, CellContent;
    assert SoleAt(vm, h, x) && SlotAt(vm, x) && PageAt(vm, vm.next);
    if x != Cell(vm, k).value && x in vm.slots {
      OtherSlot(vm, k, f, x);
      ProvidePage(vm, k, f, vm.slots[x]);
    }
  }

  lemma ProvideEntry(vm: Vm, k: Key, f: nat, x: Key)
    requires CanProvide(vm, k, f)
    ensures PteAt(Provide(vm, k, f), x)
  {
    hide Home;
    var r := Provide(vm, k, f);
    SameCells(vm, r);
    var c := Cell(vm, k).value;
    assert PteAt(vm, x);
    if x != k && x in vm.pt {
      var d := Cell(vm, x).value;
      if d == c {
        WritableAlone(vm, k, x);
      } else {
        OtherSlot(vm, k, f, d);
      }
    }
  }

  /** A slot other than the one provided keeps its page, which loses a holder or stays as it was. */
  lemma OtherSlot(vm: Vm, k: Key, f: nat, d: Key)
    requires CanProvide(vm, k, f) && d in vm.slots && d != Cell(vm, k).value
    ensures var r := Provide(vm, k, f); var p := vm.slots[d];
            && d in r.slots && r.slots[d] == p && p in vm.pages && p in r.pages
            && r.pages[p].frame == vm.pages[p].frame && r.pages[p].refs <= vm.pages[p].refs
            && vm.pages[p].frame != f && p != vm.next
  {
    hide Cell, CellContent;
    ProvideSlot(vm, k, f, d);
    var p, c := vm.slots[d], Cell(vm, k).value;
    assert SlotAt(vm, d) && PageAt(vm, p) && PageAt(vm, vm.next);
  }

  lemma ProvideCore(vm: Vm, k: Key, f: nat)
    requires CanProvide(vm, k, f)
    ensures Core(Provide(vm, k, f))
  {
    hide Provide;
    ProvideMappings(vm, k, f);
    ProvidePages(vm, k, f);
    ProvideSlots(vm, k, f);
    var r := Provide(vm, k, f);
    forall x ensures PteAt(r, x) { ProvideEntry(vm, k, f, x); }
  }

  /** A fault changes what no process reads, in any space. */
  lemma ProvideViews(vm: Vm, k: Key, f: nat, x: Key)
    requires CanProvide(vm, k, f)
    ensures View(Provide(vm, k, f), x) == View(vm, x)
  {
    hide Home;
    var r := Provide(vm, k, f);
    SameCells(vm, r);
    var c := Cell(vm, x);
    if c.Some? && c.value in vm.slots && c != Cell(vm, k) {
      OtherSlot(vm, k, f, c.value);
    }
  }

  // ---- the page fault ---------------------------------------------------------------------

  /** The fault has to allocate a frame. */
  predicate NeedsFrame(vm: Vm, k: Key, rw: bool) {
    Cell(vm, k).Some? && (if rw then Writable(vm, k) else Cell(vm, k).value !in vm.slots)
  }

  /** The slot loses its page, but the page does not lose a holder. */
  function Forget(vm: Vm, c: Key): Vm {
    vm.(slots := vm.slots - {c})
  }

  /**
   vm_pagefault: the spaces afterwards, and whether the access may be retried.  f is what
   phys_alloc finds: without a frame a copy gives up and leaves the slot empty, and the getpage
   hooks go on with address 0.
   */
  function Fault(vm: Vm, k: Key, rw: bool, f: Option<nat>): (r: (Vm, bool)) {
    var c := Cell(vm, k);
    if c.None? || (rw && !Writable(vm, k)) then (vm, false)
    else if c.value in vm.slots && !rw && vm.slots[c.value] in vm.pages then
      (MapPage(vm, k, vm.pages[vm.slots[c.value]].frame, false), true)
    else if f.Some? then (Provide(vm, k, f.value), true)
    else if c.value in vm.slots then (Forget(vm, c.value), false)
    else (Provide(vm, k, 0), true)
  }

  lemma MapPageCore(vm: Vm, k: Key)
    requires Core(vm) && Cell(vm, k).Some? && Cell(vm, k).value in vm.slots
    requires vm.slots[Cell(vm, k).value] in vm.pages
    ensures Core(MapPage(vm, k, vm.pages[vm.slots[Cell(vm, k).value]].frame, false))
  {
    hide Cell, FindAt, Users, Holders;
    var r := MapPage(vm, k, vm.pages[vm.slots[Cell(vm, k).value]].frame, false);
    forall h ensures MapAt(r, h) { assert MapAt(vm, h); }
    forall s, b ensures UsedAt(r, s, b) { assert UsedAt(vm, s, b); }
    forall s ensures AreaAt(r, s) { assert AreaAt(vm, s); }
    forall x ensures RegionAt(r, x) && PageAt(r, x) { assert RegionAt(vm, x) && PageAt(vm, x); }
    forall h, g ensures SharedAt(r, h, g) && OnceAt(r, h, g) { assert SharedAt(vm, h, g) && OnceAt(vm, h, g); }
    forall p, q ensures FrameApart(r, p, q) { assert FrameApart(vm, p, q); }
    forall x ensures SlotAt(r, x) { assert SlotAt(vm, x); }
    forall h, x ensures SoleAt(r, h, x) { assert SoleAt(vm, h, x); }
    SameCells(vm, r);
    forall x ensures PteAt(r, x) { assert PteAt(vm, x); }
  }

  /** The frame that the fault got, if any, is a free one, and it got one if it needs one. */
  ghost predicate Supplied(vm: Vm, k: Key, rw: bool, f: Option<nat>) {
    NeedsFrame(vm, k, rw) ==> f.Some? && f.value in vm.free
  }

  /** Every fault that gets the frame it needs keeps the invariant, changes what no process reads, and makes a permitted access possible. */
  lemma FaultGood(vm: Vm, k: Key, rw: bool, f: Option<nat>)
    requires Core(vm) && Supplied(vm, k, rw, f)
    ensures var r := Fault(vm, k, rw, f);
            && Core(r.0) && (forall x :: View(r.0, x) == View(vm, x))
            && r.0.areas == vm.areas && r.0.maps == vm.maps
            && (r.1 <==> View(vm, k).Some? && (rw ==> Writable(vm, k)))
            && (r.1 ==> k in r.0.pt && (rw ==> r.0.pt[k].rw))
  {
    hide Provide, Core, Home;
    var r := Fault(vm, k, rw, f);
    var c := Cell(vm, k);
    if c.Some? && (rw ==> Writable(vm, k)) {
      if c.value in vm.slots && !rw {
        assert SlotAt(vm, c.value) by { assert Slots(vm) by { CoreParts(vm); } }
        MapPageCore(vm, k);
        forall x ensures View(r.0, x) == View(vm, x) {
          SameCells(vm, r.0);
        }
      } else {
        ProvideCore(vm, k, f.value);
        ProvideKeeps(vm, k, f.value);
        forall x ensures View(r.0, x) == View(vm, x) {
          ProvideViews(vm, k, f.value, x);
        }
      }
    }
  }

  /** A fault that gets what phys_alloc finds keeps the invariant exactly if it needs no frame or there is one. */
  lemma FaultExact(vm: Vm, k: Key, rw: bool, f: Option<nat>)
    requires Core(vm) && (f.Some? ==> f.value in vm.free)
    ensures Core(Fault(vm, k, rw, f).0) <==> (NeedsFrame(vm, k, rw) ==> f.Some?)
  {
    hide Core, Provide, Home;
    if NeedsFrame(vm, k, rw) && f.None? {
      var c := Cell(vm, k).value;
      assert c in vm.slots ==> vm.slots[c] in vm.pages by { CoreParts(vm); assert SlotAt(vm, c); }
      if c in vm.slots {
        ForgottenSlot(vm, c);
      } else {
        FrameZero(vm, k);
      }
    } else {
      FaultGood(vm, k, rw, f);
    }
  }

  /** A failed copy leaves the page's count as it was: the counts are off from then on. */
  lemma ForgottenSlot(vm: Vm, c: Key)
    requires Core(vm) && c in vm.slots
    ensures !Core(Forget(vm, c))
  {
    var r := Forget(vm, c);
    var p := vm.slots[c];
    assert SlotAt(vm, c) && PageAt(vm, p);
    assert c in Holders(vm.slots, p) && Holders(r.slots, p) == Holders(vm.slots, p) - {c};
    assert !PageAt(r, p);
  }

  /** A hook without a frame hands the process frame 0. */
  lemma FrameZero(vm: Vm, k: Key)
    requires Core(vm) && Cell(vm, k).Some? && Cell(vm, k).value !in vm.slots
    ensures !Core(Provide(vm, k, 0))
  {
    hide Cell, CellContent;
    assert !PageAt(Provide(vm, k, 0), vm.next);
  }

  lemma CoreParts(vm: Vm)
    requires Core(vm)
    ensures Mappings(vm) && Regions(vm) && Pages(vm) && Slots(vm) && Entries(vm)
  {
  }

  lemma ProvideKeeps(vm: Vm, k: Key, f: nat)
    requires Cell(vm, k).Some?
    ensures var r := Provide(vm, k, f); r.areas == vm.areas && r.maps == vm.maps && k in r.pt && r.pt[k] == Pte(f, true)
  {
  }

  // ---- user accesses -----------------------------------------------------------------------

  /** A user load through a present entry. */
  function Loaded(vm: Vm, k: Key): Content
    requires k in vm.pt
  {
    if vm.pt[k].frame in vm.mem then vm.mem[vm.pt[k].frame] else Zeros()
  }

  lemma LoadIsView(vm: Vm, k: Key)
    requires Core(vm) && k in vm.pt
    ensures View(vm, k) == Some(Loaded(vm, k))
  {
    assert PteAt(vm, k);
  }

  function Poke(c: Content, off: nat, b: int): Content {
    if off < |c| then c[off := b] else c
  }

  /** A user store through a present entry. */
  function Store(vm: Vm, k: Key, off: nat, b: int): Vm
    requires k in vm.pt
  {
    vm.(mem := vm.mem[vm.pt[k].frame := Poke(Loaded(vm, k), off, b)])
  }

  lemma StoreCore(vm: Vm, k: Key, off: nat, b: int)
    requires Core(vm) && k in vm.pt
    ensures Core(Store(vm, k, off, b))
  {
    hide Cell, FindAt, Users, Holders;
    var r := Store(vm, k, off, b);
    forall h ensures MapAt(r, h) { assert MapAt(vm, h); }
    forall s, b ensures UsedAt(r, s, b) { assert UsedAt(vm, s, b); }
    forall s ensures AreaAt(r, s) { assert AreaAt(vm, s); }
    forall x ensures RegionAt(r, x) && PageAt(r, x) { assert RegionAt(vm, x) && PageAt(vm, x); }
    forall h, g ensures SharedAt(r, h, g) && OnceAt(r, h, g) { assert SharedAt(vm, h, g) && OnceAt(vm, h, g); }
    forall p, q ensures FrameApart(r, p, q) { assert FrameApart(vm, p, q); }
    forall x ensures SlotAt(r, x) { assert SlotAt(vm, x); }
    forall h, x ensures SoleAt(r, h, x) { assert SoleAt(vm, h, x); }
    SameCells(vm, r);
    forall x ensures PteAt(r, x) { assert PteAt(vm, x); }
  }

  /** The store at k changes what some other virtual page, of this space or another, reads. */
  ghost predicate Leaks(vm: Vm, k: Key, off: nat, b: int, x: Key)
    requires k in vm.pt
  {
    x != k && View(Store(vm, k, off, b), x) != View(vm, x)
  }

  /** A region mapped once backs one virtual page with each slot. */
  lemma OneMapping(vm: Vm, k: Key, x: Key)
    requires Core(vm) && Cell(vm, k).Some? && Cell(vm, x) == Cell(vm, k)
    requires Cell(vm, k).value.owner in vm.regions && vm.regions[Cell(vm, k).value.owner].refs == 1
    ensures x == k
  {
    HomeIs(vm, k);
    HomeIs(vm, x);
    var h, g, r := Home(vm.areas, k).value, Home(vm.areas, x).value, Cell(vm, k).value.owner;
    assert MapAt(vm, h) && RegionAt(vm, r);
    assert h in Users(vm.maps, r) && g in Users(vm.maps, r);
    OnlyElement(Users(vm.maps, r), h, g);
  }

  /** The page behind an entry with the RW bit is in one region slot, whatever the mapping permits. */
  lemma StoredPage(vm: Vm, k: Key)
    requires Core(vm) && k in vm.pt && vm.pt[k].rw
    ensures var c := Cell(vm, k);
            && c.Some? && c.value in vm.slots && vm.slots[c.value] in vm.pages
            && vm.pages[vm.slots[c.value]].refs == 1 && vm.pages[vm.slots[c.value]].frame == vm.pt[k].frame
            && c.value.owner in vm.regions
  {
    assert PteAt(vm, k);
    var c := Cell(vm, k).value;
    assert SlotAt(vm, c);
    if !Writable(vm, k) {
      HomeIs(vm, k);
      assert SoleAt(vm, Home(vm.areas, k).value, c);
    }
  }

  /** Another virtual page reads the stored byte exactly if it stands for the same slot. */
  lemma StoreReaches(vm: Vm, k: Key, off: nat, b: int, x: Key)
    requires Core(vm) && k in vm.pt && vm.pt[k].rw
    ensures View(Store(vm, k, off, b), x) ==
            if Cell(vm, x) == Cell(vm, k) then Some(Poke(Loaded(vm, k), off, b)) else View(vm, x)
  {
    hide Home;
    var r := Store(vm, k, off, b);
    SameCells(vm, r);
    StoredPage(vm, k);
    var c, d := Cell(vm, k).value, Cell(vm, x);
    if d.Some? && d.value in vm.slots && d.value != c {
      assert SlotAt(vm, d.value) && FrameApart(vm, vm.slots[d.value], vm.slots[c]);
      if vm.slots[d.value] == vm.slots[c] {
        HeldOnce(vm, c, d.value);
      }
    }
  }

  /** A permitted store changes one virtual page of one space, however many processes share the memory behind it. */
  lemma StoreIsolated(vm: Vm, k: Key, off: nat, b: int, x: Key)
    requires Core(vm) && k in vm.pt && vm.pt[k].rw && Writable(vm, k)
    ensures View(Store(vm, k, off, b), x) == if x == k then Some(Poke(Loaded(vm, k), off, b)) else View(vm, x)
  {
    hide Core, Home, Cell, Writable;
    StoredPage(vm, k);
    StoreReaches(vm, k, off, b, x);
    if Cell(vm, x) == Cell(vm, k) {
      WritableAlone(vm, k, x);
    }
  }

  /** A second mapping of the region has a virtual page for the same slot. */
  lemma OtherPage(vm: Vm, k: Key) returns (x: Key)
    requires Core(vm) && Cell(vm, k).Some? && Cell(vm, k).value.owner in vm.regions
    requires vm.regions[Cell(vm, k).value.owner].refs != 1
    ensures x != k && Cell(vm, x) == Cell(vm, k)
  {
    HomeIs(vm, k);
    var c, h := Cell(vm, k).value, Home(vm.areas, k).value;
    assert MapAt(vm, h) && RegionAt(vm, c.owner);
    assert h in Users(vm.maps, c.owner);
    assert Users(vm.maps, c.owner) != {h};
    var g :| g in Users(vm.maps, c.owner) && g != h;
    assert MapAt(vm, g);
    x := Key(g.owner, g.at + c.at);
    HomeOf(vm, g, x.at);
  }

  /** Through a present entry with the RW bit no store is seen elsewhere exactly if the region has one mapping. */
  lemma StoreConfined(vm: Vm, k: Key)
    requires Core(vm) && k in vm.pt && vm.pt[k].rw
    ensures Cell(vm, k).Some? && Cell(vm, k).value.owner in vm.regions
    ensures (forall off: nat, b: int, x: Key :: !Leaks(vm, k, off, b, x)) <==> vm.regions[Cell(vm, k).value.owner].refs == 1
  {
    hide Core, Home, Cell;
    StoredPage(vm, k);
    if vm.regions[Cell(vm, k).value.owner].refs == 1 {
      forall off: nat, b: int, x: Key ensures !Leaks(vm, k, off, b, x) {
        StoreReaches(vm, k, off, b, x);
        if Cell(vm, x) == Cell(vm, k) {
          OneMapping(vm, k, x);
        }
      }
    } else {
      var x := OtherPage(vm, k);
      var b := Loaded(vm, k)[0] + 1;
      StoreLeaks(vm, k, b, x);
    }
  }

  lemma StoreLeaks(vm: Vm, k: Key, b: int, x: Key)
    requires Core(vm) && k in vm.pt && vm.pt[k].rw && x != k && Cell(vm, x) == Cell(vm, k) && b == Loaded(vm, k)[0] + 1
    ensures Leaks(vm, k, 0, b, x)
  {
    hide Core, Home, Cell;
    StoreReaches(vm, k, 0, b, x);
    LoadIsView(vm, k);
    SameView(vm, k, x);
    assert Poke(Loaded(vm, k), 0, b)[0] != Loaded(vm, k)[0];
  }

  lemma SameView(vm: Vm, k: Key, x: Key)
    requires Cell(vm, x) == Cell(vm, k)
    ensures View(vm, x) == View(vm, k)
  {
  }
}
