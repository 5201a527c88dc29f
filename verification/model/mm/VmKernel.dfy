/** The address-space code as it runs: loops over region slots and blocks, updating the tables in place. */
module VmKernel {
  import opened Sma
  import opened VmState
  import opened VmFault
  import opened VmClone
  import opened VmUnmap
  import opened VmSpaces

  /** The pages region r holds below slot n. */
  ghost function PagesBelow(slots: map<Key, nat>, r: nat, n: nat): set<nat> {
    set k | k in slots && k.owner == r && k.at < n :: slots[k]
  }

  lemma PagesBelowNext(slots: map<Key, nat>, r: nat, n: nat)
    ensures PagesBelow(slots, r, n + 1) ==
            if Key(r, n) in slots then PagesBelow(slots, r, n) + {slots[Key(r, n)]} else PagesBelow(slots, r, n)
  {
    assert forall k :: k in slots && k.owner == r && k.at < n + 1 ==> k.at < n || k == Key(r, n);
  }

  /** A region's slots lie below its size, so all its pages do. */
  lemma PagesBelowAll(vm: Vm, r: nat)
    requires Core(vm) && r in vm.regions
    ensures PagesBelow(vm.slots, r, vm.regions[r].size) == PagesOf(vm.slots, r)
  {
    forall k | k in vm.slots && k.owner == r ensures k.at < vm.regions[r].size {
      assert SlotAt(vm, k);
    }
  }

  lemma NotYetBelow(vm: Vm, r: nat, n: nat)
    requires Core(vm) && Key(r, n) in vm.slots
    ensures vm.slots[Key(r, n)] !in PagesBelow(vm.slots, r, n) && vm.slots[Key(r, n)] in vm.pages
  {
    assert SlotAt(vm, Key(r, n));
    forall k | k in vm.slots && k.owner == r && k.at < n ensures vm.slots[k] != vm.slots[Key(r, n)] {
      assert OnceAt(vm, k, Key(r, n));
    }
  }

  // What each loop has done after n rounds, address by address.

  ghost predicate Counted(old': map<nat, Page>, now: map<nat, Page>, held: set<nat>, p: nat) {
    && (p in now <==> p in old')
    && (p in now ==> now[p].frame == old'[p].frame && now[p].refs == old'[p].refs + if p in held then 2 else 0)
  }

  ghost predicate Copied(old': map<Key, nat>, now: map<Key, nat>, r: nat, r1: nat, r2: nat, n: nat, k: Key) {
    if k.owner == r1 || k.owner == r2 then
      && (k in now <==> k.at < n && Key(r, k.at) in old')
      && (k in now ==> now[k] == old'[Key(r, k.at)])
    else (k in now <==> k in old') && (k in now ==> now[k] == old'[k])
  }

  /** Pages of the region exist, are counted, and are held once. */
  ghost predicate Droppable(pages: map<nat, Page>, slots: map<Key, nat>, r: nat, size: nat) {
    && (forall k :: k in slots && k.owner == r ==> slots[k] in pages && pages[slots[k]].refs > 0 && k.at < size)
    && (forall k, l :: k in slots && l in slots && k != l && k.owner == r && l.owner == r ==> slots[k] != slots[l])
  }

  ghost predicate Dropped(old': map<nat, Page>, now: map<nat, Page>, held: set<nat>, p: nat) {
    && (p in now <==> p in old' && !(p in held && old'[p].refs <= 1))
    && (p in now ==> now[p].frame == old'[p].frame && now[p].refs == old'[p].refs - if p in held then 1 else 0)
  }

  ghost predicate Cleared(old': map<Key, nat>, now: map<Key, nat>, r: nat, n: nat, k: Key) {
    && (k in now <==> k in old' && !(k.owner == r && k.at < n))
    && (k in now ==> now[k] == old'[k])
  }

  lemma NotDropped(pages: map<nat, Page>, slots: map<Key, nat>, r: nat, size: nat, n: nat)
    requires Droppable(pages, slots, r, size) && Key(r, n) in slots
    ensures slots[Key(r, n)] !in PagesBelow(slots, r, n) && slots[Key(r, n)] in pages && pages[slots[Key(r, n)]].refs > 0
  {
  }

  lemma CoreDroppable(vm: Vm, r: nat)
    requires Core(vm) && r in vm.regions
    ensures vm.regions[r].refs > 0 && Droppable(vm.pages, vm.slots, r, vm.regions[r].size)
  {
    assert RegionAt(vm, r);
    forall k | k in vm.slots && k.owner == r
      ensures vm.slots[k] in vm.pages && vm.pages[vm.slots[k]].refs > 0 && k.at < vm.regions[r].size
    {
      assert SlotAt(vm, k) && PageAt(vm, vm.slots[k]);
    }
    forall k, l | k in vm.slots && l in vm.slots && k != l && k.owner == r && l.owner == r ensures vm.slots[k] != vm.slots[l] {
      assert OnceAt(vm, k, l);
    }
  }

  lemma NoneBelow(pages: map<nat, Page>, slots: map<Key, nat>, r: nat)
    ensures PagesBelow(slots, r, 0) == {} && FreedFrames(pages, {}) == {}
  {
  }

  lemma AllBelow(pages: map<nat, Page>, slots: map<Key, nat>, r: nat, size: nat)
    requires Droppable(pages, slots, r, size)
    ensures PagesBelow(slots, r, size) == PagesOf(slots, r)
  {
  }

  lemma FreedNext(pages: map<nat, Page>, held: set<nat>, p: nat)
    requires p in pages
    ensures FreedFrames(pages, held + {p}) == FreedFrames(pages, held) + if pages[p].refs <= 1 then {pages[p].frame} else {}
  {
  }

  lemma DroppedAll(old': map<nat, Page>, now: map<nat, Page>, held: set<nat>)
    requires forall p :: Dropped(old', now, held, p)
    ensures now == DropPages(old', held)
  {
    forall p ensures (p in now <==> p in DropPages(old', held)) && (p in now ==> now[p] == DropPages(old', held)[p]) {
      assert Dropped(old', now, held, p);
    }
  }

  lemma ClearedAll(old': map<Key, nat>, now: map<Key, nat>, r: nat, size: nat)
    requires forall k :: Cleared(old', now, r, size, k)
    requires forall k :: k in old' && k.owner == r ==> k.at < size
    ensures now == SlotsWithout(old', r)
  {
    forall k ensures (k in now <==> k in SlotsWithout(old', r)) && (k in now ==> now[k] == SlotsWithout(old', r)[k]) {
      assert Cleared(old', now, r, size, k);
    }
  }

  class Kernel {
    var pages: map<nat, Page>
    var regions: map<nat, Region>
    var slots: map<Key, nat>
    var maps: map<Key, Mapping>
    var pt: map<Key, Pte>
    var areas: map<nat, Area>
    var free: set<nat>
    var mem: map<nat, Content>
    var next: nat

    function Value(): Vm
      reads this
    {
      Vm(pages, regions, slots, maps, pt, areas, free, mem, next)
    }

    // ---- vm_clone ------------------------------------------------------------------------

    /** Both new regions take every page of region r, each time counting a holder. */
    method TakePages(r: nat, r1: nat, r2: nat, size: nat, ghost vm: Vm)
      requires Core(vm) && pages == vm.pages && slots == vm.slots && r in vm.regions && size == vm.regions[r].size
      requires r1 != r && r2 != r && r1 != r2 && forall k :: k in slots ==> k.owner != r1 && k.owner != r2
      modifies this`pages, this`slots
      ensures forall p :: Counted(vm.pages, pages, PagesOf(vm.slots, r), p)
      ensures forall k :: Copied(vm.slots, slots, r, r1, r2, size, k)
    {
      hide Core;
      var i := 0;
      while i < size
        invariant i <= size
        invariant forall p :: Counted(vm.pages, pages, PagesBelow(vm.slots, r, i), p)
        invariant forall k :: Copied(vm.slots, slots, r, r1, r2, i, k)
      {
        ghost var pages0, slots0 := pages, slots;
        PagesBelowNext(vm.slots, r, i);
        assert Copied(vm.slots, slots, r, r1, r2, i, Key(r, i));
        if Key(r, i) in slots {
          NotYetBelow(vm, r, i);
          var p := slots[Key(r, i)];
          assert Counted(vm.pages, pages, PagesBelow(vm.slots, r, i), p);
          pages := pages[p := pages[p].(refs := pages[p].refs + 1)];
          slots := slots[Key(r1, i) := p];
          pages := pages[p := pages[p].(refs := pages[p].refs + 1)];
          slots := slots[Key(r2, i) := p];
        }
        i := i + 1;
        forall p ensures Counted(vm.pages, pages, PagesBelow(vm.slots, r, i), p) {
          assert Counted(vm.pages, pages0, PagesBelow(vm.slots, r, i - 1), p);
        }
        forall k ensures Copied(vm.slots, slots, r, r1, r2, i, k) {
          assert Copied(vm.slots, slots0, r, r1, r2, i - 1, k);
        }
      }
      PagesBelowAll(vm, r);
    }

    /** Every page of the block that the region holds is mapped read-only. */
    method Protect(h: Key, r: nat, size: nat)
      requires forall k :: k in slots && k.owner == r ==> slots[k] in pages && k.at < size
      modifies this`pt
      ensures pt == ReadOnly(old(Value()), h, r)
    {
      ghost var vm := Value();
      var i := 0;
      while i < size
        invariant i <= size
        invariant forall k :: Protected(vm, pt, h, r, i, k)
      {
        ghost var pt0 := pt;
        if Key(r, i) in slots {
          pt := pt[Key(h.owner, h.at + i) := Pte(pages[slots[Key(r, i)]].frame, false)];
        }
        i := i + 1;
        forall k ensures Protected(vm, pt, h, r, i, k) {
          assert Protected(vm, pt0, h, r, i - 1, k);
        }
      }
      ProtectedAll(vm, pt, h, r, size);
    }

    /** The page in a slot loses that holder. */
    method ReleaseSlot(k: Key)
      requires k in slots && slots[k] in pages && pages[slots[k]].refs > 0
      modifies this`pages, this`slots, this`free
      ensures pages == DropRef(old(pages), old(slots)[k])
      ensures free == old(free) + FreedBy(old(pages), old(slots)[k])
      ensures slots == old(slots) - {k}
    {
      var p := slots[k];
      pages := pages[p := pages[p].(refs := pages[p].refs - 1)];
      if pages[p].refs == 0 {
        free := free + {pages[p].frame};
        pages := pages - {p};
      }
      slots := slots - {k};
    }

    /** vm_destroy_region: every page of the region loses a holder, and the last holder frees the frame. */
    method DestroyRegion(r: nat, size: nat)
      requires Droppable(pages, slots, r, size)
      modifies this`pages, this`slots, this`free, this`regions
      ensures pages == DropPages(old(pages), PagesOf(old(slots), r))
      ensures slots == SlotsWithout(old(slots), r)
      ensures free == old(free) + FreedFrames(old(pages), PagesOf(old(slots), r))
      ensures regions == old(regions) - {r}
    {
      hide PagesBelow, PagesOf, FreedFrames, DropPages, SlotsWithout;
      ghost var pages0, slots0, free0 := pages, slots, free;
      NoneBelow(pages0, slots0, r);
      var i := 0;
      while i < size
        invariant i <= size && regions == old(regions)
        invariant forall p :: Dropped(pages0, pages, PagesBelow(slots0, r, i), p)
        invariant forall k :: Cleared(slots0, slots, r, i, k)
        invariant free == free0 + FreedFrames(pages0, PagesBelow(slots0, r, i))
      {
        ghost var pages1, slots1 := pages, slots;
        PagesBelowNext(slots0, r, i);
        assert Cleared(slots0, slots, r, i, Key(r, i));
        if Key(r, i) in slots {
          var p := slots[Key(r, i)];
          NotDropped(pages0, slots0, r, size, i);
          assert Dropped(pages0, pages, PagesBelow(slots0, r, i), p);
          FreedNext(pages0, PagesBelow(slots0, r, i), p);
          ReleaseSlot(Key(r, i));
        }
        i := i + 1;
        forall p ensures Dropped(pages0, pages, PagesBelow(slots0, r, i), p) {
          assert Dropped(pages0, pages1, PagesBelow(slots0, r, i - 1), p);
        }
        forall k ensures Cleared(slots0, slots, r, i, k) {
          assert Cleared(slots0, slots1, r, i - 1, k);
        }
      }
      AllBelow(pages0, slots0, r, size);
      DroppedAll(pages0, pages, PagesOf(slots0, r));
      ClearedAll(slots0, slots, r, size);
      regions := regions - {r};
    }

    /** vm_clone */
    method CloneMapping(h: Key, d: nat) returns (ok: bool)
      requires Core(Value()) && CanStart(Value(), h, d)
      modifies this
      ensures ok <==> Clone(old(Value()), h, d).Some?
      ensures Value() == if ok then Clone(old(Value()), h, d).value else old(Value())
    {
      hide Core, Alloc, CloneSplit, CloneShared;
      var (a, b) := Alloc(areas[d], h.at, maps[h].size, true);
      if b.None? {
        return false;
      }
      if maps[h].write {
        SplitMapping(h, d, a);
      } else {
        ShareMapping(h, d, a);
      }
      ok := true;
    }

    method ShareMapping(h: Key, d: nat, a: Area)
      requires h in maps && maps[h].region in regions
      modifies this`areas, this`maps, this`regions
      ensures Value() == CloneShared(old(Value()), h, d, a)
    {
      areas := areas[d := a];
      var r := maps[h].region;
      maps := maps[Key(d, h.at) := maps[h]];
      regions := regions[r := regions[r].(refs := regions[r].refs + 1)];
    }

    method SplitMapping(h: Key, d: nat, a: Area)
      requires Core(Value()) && h in maps && maps[h].region in regions && maps[h].write
      modifies this
      ensures Value() == CloneSplit(old(Value()), h, d, a)
    {
      hide Core, SplitPages, SplitSlots, ReadOnly, PagesOf;
      ghost var vm := Value();
      OnlyUser(vm, h);
      NewRegions(vm);
      areas := areas[d := a];
      var r, r1, r2 := maps[h].region, next, next + 1;
      next := next + 2;
      regions := regions[r1 := regions[r].(refs := 1)][r2 := regions[r].(refs := 1)];
      maps := maps[h := maps[h].(region := r1)][Key(d, h.at) := maps[h].(region := r2)];
      MovePages(h, r, r1, r2, vm);
      assert regions == TwoRegions(vm.regions, r, r1, r2);
    }

    /** The pages of region r go to r1 and r2, the source's entries lose the RW bit, and r is destroyed. */
    method MovePages(h: Key, r: nat, r1: nat, r2: nat, ghost vm: Vm)
      requires Core(vm) && pages == vm.pages && slots == vm.slots && pt == vm.pt && r in vm.regions
      requires r in regions && regions[r] == vm.regions[r] && regions[r].refs == 1
      requires r < r1 && r2 == r1 + 1 && vm.next == r1
      modifies this`pages, this`slots, this`pt, this`free, this`regions
      ensures pages == SplitPages(vm.pages, PagesOf(vm.slots, r)) && slots == SplitSlots(vm.slots, r, r1, r2)
      ensures pt == ReadOnly(vm, h, r) && free == old(free) && regions == old(regions) - {r}
    {
      hide Core, SplitPages, SplitSlots, ReadOnly, PagesOf, DropPages, SlotsWithout, FreedFrames, Counted, Copied, Droppable;
      NewRegions(vm);
      var size := regions[r].size;
      TakePages(r, r1, r2, size, vm);
      TakenProtect(vm, Value(), h, r, r1, r2, size);
      Protect(h, r, size);
      regions := regions[r := regions[r].(refs := regions[r].refs - 1)];
      if regions[r].refs == 0 {
        TakenDrop(vm, Value(), r, r1, r2, size);
        DestroyRegion(r, size);
      }
    }

    /** vm_space_clone into a space just created: one mapping after the other, and none fails. */
    method CloneSpace(s: nat, d: nat) returns (ok: bool)
      requires Cloning(Value(), s, d, 0)
      modifies this
      ensures ok && CloneFrom(old(Value()), s, d, 0) == Some(Value())
    {
      hide Core, Clone, Tiled, OpenFrom, View;
      var i := 0;
      while i < |areas[s].used|
        invariant Cloning(Value(), s, d, i)
        invariant CloneFrom(Value(), s, d, i) == CloneFrom(old(Value()), s, d, 0)
        decreases |areas[s].used| - i
      {
        ghost var vm := Value();
        CloneNext(vm, s, d, i);
        ok := CloneMapping(Key(s, areas[s].used[i].start), d);
        if !ok {
          return;
        }
        i := i + 1;
      }
      ok := true;
    }

    // ---- vm_destroy and sma_area_destroy -----------------------------------------------------

    /** The block's pages are unmapped one by one. */
    method UnmapBlock(h: Key, size: nat)
      modifies this`pt
      ensures pt == Unmapped(old(pt), h, size)
    {
      var i := 0;
      while i < size
        invariant i <= size && pt == Unmapped(old(pt), h, i)
      {
        pt := pt - {Key(h.owner, h.at + i)};
        i := i + 1;
      }
    }

    method DestroyMapping(h: Key, a: Area)
      requires Core(Value()) && h in maps && maps[h].region in regions
      modifies this
      ensures Value() == Unmap(old(Value()), h, a)
    {
      hide Core, Unmapped, PagesOf, DropPages, SlotsWithout, FreedFrames, Droppable;
      CoreDroppable(Value(), maps[h].region);
      UnmapBlock(h, maps[h].size);
      LeaveRegion(maps[h].region);
      maps := maps - {h};
      areas := areas[h.owner := a];
    }

    /** A region loses a mapping, and is destroyed with the last one. */
    method LeaveRegion(r: nat)
      requires r in regions && regions[r].refs > 0 && Droppable(pages, slots, r, regions[r].size)
      modifies this`pages, this`slots, this`free, this`regions
      ensures Value() == DropRegion(old(Value()), r)
    {
      hide PagesOf, DropPages, SlotsWithout, FreedFrames, Droppable;
      var size := regions[r].size;
      regions := regions[r := regions[r].(refs := regions[r].refs - 1)];
      if regions[r].refs == 0 {
        DestroyRegion(r, size);
      }
    }

    /** vm_space_destroy for the last user of the space. */
    method DestroySpace(s: nat)
      requires Core(Value()) && s in areas
      modifies this
      ensures Value() == Teardown(old(Value()), s)
    {
      hide Core, Unmap, View;
      while areas[s].used != []
        invariant Core(Value()) && s in areas
        invariant Teardown(Value(), s) == Teardown(old(Value()), s)
        decreases |areas[s].used|
      {
        ghost var vm := Value();
        var b := areas[s].used[0];
        var a := areas[s].(used := areas[s].used[1..]);
        NextMapping(vm, s, b);
        LosesFirst(vm, s);
        UnmapCore(vm, Key(s, b.start), a);
        UnmapArea(vm, Key(s, b.start), a);
        DestroyMapping(Key(s, b.start), a);
      }
      areas := areas - {s};
    }

    // ---- vm_getpage -------------------------------------------------------------------------------

    /** vm_pagefault and vm_getpage; f is the frame phys_alloc finds, if there is one. */
    method PageFault(k: Key, rw: bool, f: Option<nat>) returns (ok: bool)
      requires Core(Value())
      modifies this
      ensures (Value(), ok) == Fault(old(Value()), k, rw, f)
    {
      hide CellContent, Home;
      ghost var vm := Value();
      var c := Cell(Value(), k);
      if c.None? || (rw && !Writable(Value(), k)) {
        return false;
      }
      assert SlotAt(vm, c.value) && PageAt(vm, next);
      ok := true;
      if c.value in slots {
        assert PageAt(vm, slots[c.value]);
        if rw {
          ok := CopyPage(k, c.value, f);
        } else {
          pt := pt[k := Pte(pages[slots[c.value]].frame, false)];
        }
      } else {
        FillPage(k, c.value, if f.Some? then f.value else 0);
      }
    }

    /** vm_copy_page into slot c, or NULL into the slot when there is no frame. */
    method CopyPage(k: Key, c: Key, f: Option<nat>) returns (ok: bool)
      requires Cell(Value(), k) == Some(c) && c in slots && slots[c] in pages && pages[slots[c]].refs > 0
      requires next !in pages && pages[slots[c]].frame in mem
      modifies this
      ensures ok == f.Some?
      ensures Value() == if ok then Provide(old(Value()), k, f.value) else Forget(old(Value()), c)
    {
      hide Cell, DropRef, FreedBy, Writable;
      ok := f.Some?;
      if !ok {
        slots := slots - {c};
        return;
      }
      var p, q := slots[c], next;
      next := next + 1;
      free := free - {f.value};
      pt := pt[k := Pte(pages[p].frame, false)];
      mem := mem[f.value := mem[pages[p].frame]];
      ReleaseSlot(c);
      pages := pages[q := Page(1, f.value)];
      slots := slots[c := q];
      pt := pt[k := Pte(f.value, true)];
    }

    /** The getpage hook of the region: a fresh page with the region's fill. */
    method FillPage(k: Key, c: Key, f: nat)
      requires Cell(Value(), k) == Some(c) && c !in slots
      modifies this
      ensures Value() == Provide(old(Value()), k, f)
    {
      hide Cell, CellContent;
      var q, content := next, CellContent(Value(), c);
      next := next + 1;
      free := free - {f};
      mem := mem[f := content];
      pages := pages[q := Page(1, f)];
      slots := slots[c := q];
      pt := pt[k := Pte(f, true)];
    }
  }

  ghost predicate Protected(vm: Vm, now: map<Key, Pte>, h: Key, r: nat, n: nat, k: Key) {
    if k.owner == h.owner && h.at <= k.at < h.at + n && Key(r, k.at - h.at) in vm.slots then
      && vm.slots[Key(r, k.at - h.at)] in vm.pages && k in now
      && now[k] == Pte(vm.pages[vm.slots[Key(r, k.at - h.at)]].frame, false)
    else (k in now <==> k in vm.pt) && (k in now ==> now[k] == vm.pt[k])
  }

  lemma ProtectedAll(vm: Vm, now: map<Key, Pte>, h: Key, r: nat, size: nat)
    requires forall k :: k in vm.slots && k.owner == r ==> vm.slots[k] in vm.pages && k.at < size
    requires forall k :: Protected(vm, now, h, r, size, k)
    ensures now == ReadOnly(vm, h, r)
  {
    forall k ensures (k in now <==> k in ReadOnly(vm, h, r)) && (k in now ==> now[k] == ReadOnly(vm, h, r)[k]) {
      assert Protected(vm, now, h, r, size, k);
      ReadOnlyAt(vm, h, r, size, k);
    }
  }

  lemma ReadOnlyAt(vm: Vm, h: Key, r: nat, size: nat, k: Key)
    requires forall k :: k in vm.slots && k.owner == r ==> vm.slots[k] in vm.pages && k.at < size
    ensures Protected(vm, ReadOnly(vm, h, r), h, r, size, k)
  {
    hide ReadOnly;
    ReadOnlyIs(vm, h, r, k);
  }

  /** Copying slots of region r leaves the slots of r itself alone. */
  lemma TakenSlots(vm: Vm, now: Vm, r: nat, r1: nat, r2: nat, size: nat)
    requires Core(vm) && r in vm.regions && size == vm.regions[r].size && r < r1 && r1 < r2 && vm.next == r1
    requires forall p :: Counted(vm.pages, now.pages, PagesOf(vm.slots, r), p)
    requires forall k: Key :: Copied(vm.slots, now.slots, r, r1, r2, size, k)
    ensures forall k: Key :: k.owner == r ==> (k in now.slots <==> k in vm.slots) && (k in vm.slots ==> now.slots[k] == vm.slots[k])
    ensures forall k: Key :: k in now.slots && k.owner == r ==> now.slots[k] in now.pages && now.slots[k] in vm.pages && k.at < size
    ensures forall k: Key :: k in now.slots && k.owner == r ==> now.pages[now.slots[k]].frame == vm.pages[now.slots[k]].frame
    ensures forall k: Key :: k in now.slots && k.owner == r ==> now.pages[now.slots[k]].refs > 2
  {
    forall k: Key | k.owner == r
      ensures (k in now.slots <==> k in vm.slots) && (k in vm.slots ==> now.slots[k] == vm.slots[k])
    {
      assert Copied(vm.slots, now.slots, r, r1, r2, size, k);
    }
    forall k | k in now.slots && k.owner == r
      ensures now.slots[k] in now.pages && now.slots[k] in vm.pages && k.at < size
      ensures now.pages[now.slots[k]].frame == vm.pages[now.slots[k]].frame && now.pages[now.slots[k]].refs > 2
    {
      var p := vm.slots[k];
      assert SlotAt(vm, k) && PageAt(vm, p) && Counted(vm.pages, now.pages, PagesOf(vm.slots, r), p);
    }
  }

  /** Protecting reads the same slots and frames after the copy as before it. */
  lemma TakenProtect(vm: Vm, now: Vm, h: Key, r: nat, r1: nat, r2: nat, size: nat)
    requires Core(vm) && r in vm.regions && size == vm.regions[r].size && r < r1 && r1 < r2 && vm.next == r1
    requires now.pt == vm.pt
    requires forall p :: Counted(vm.pages, now.pages, PagesOf(vm.slots, r), p)
    requires forall k :: Copied(vm.slots, now.slots, r, r1, r2, size, k)
    ensures forall k :: k in now.slots && k.owner == r ==> now.slots[k] in now.pages && k.at < size
    ensures ReadOnly(now, h, r) == ReadOnly(vm, h, r)
  {
    hide Core, PagesOf, ReadOnly, Copied, Counted, Protected;
    TakenSlots(vm, now, r, r1, r2, size);
    SlotsIn(vm, r);
    forall k ensures Protected(vm, ReadOnly(now, h, r), h, r, size, k) {
      SameProtected(vm, now, h, r, size, k);
    }
    ProtectedAll(vm, ReadOnly(now, h, r), h, r, size);
  }

  lemma SlotsIn(vm: Vm, r: nat)
    requires Core(vm) && r in vm.regions
    ensures forall k :: k in vm.slots && k.owner == r ==> vm.slots[k] in vm.pages && k.at < vm.regions[r].size
  {
    forall k | k in vm.slots && k.owner == r ensures vm.slots[k] in vm.pages && k.at < vm.regions[r].size {
      assert SlotAt(vm, k);
    }
  }

  lemma SameProtected(vm: Vm, now: Vm, h: Key, r: nat, size: nat, k: Key)
    requires now.pt == vm.pt
    requires forall c: Key :: c.owner == r ==> (c in now.slots <==> c in vm.slots) && (c in vm.slots ==> now.slots[c] == vm.slots[c])
    requires forall c: Key :: c in now.slots && c.owner == r ==> now.slots[c] in now.pages && now.slots[c] in vm.pages && c.at < size
    requires forall c: Key :: c in now.slots && c.owner == r ==> now.pages[now.slots[c]].frame == vm.pages[now.slots[c]].frame
    ensures Protected(vm, ReadOnly(now, h, r), h, r, size, k)
  {
    hide ReadOnly;
    ReadOnlyAt(now, h, r, size, k);
  }

  /** Counting two holders up and one down counts one up, and frees nothing. */
  lemma TakenDrop(vm: Vm, now: Vm, r: nat, r1: nat, r2: nat, size: nat)
    requires Core(vm) && r in vm.regions && size == vm.regions[r].size && r < r1 && r2 == r1 + 1 && vm.next == r1
    requires forall p :: Counted(vm.pages, now.pages, PagesOf(vm.slots, r), p)
    requires forall k :: Copied(vm.slots, now.slots, r, r1, r2, size, k)
    ensures Droppable(now.pages, now.slots, r, size)
    ensures DropPages(now.pages, PagesOf(now.slots, r)) == SplitPages(vm.pages, PagesOf(vm.slots, r))
    ensures SlotsWithout(now.slots, r) == SplitSlots(vm.slots, r, r1, r2)
    ensures FreedFrames(now.pages, PagesOf(now.slots, r)) == {}
  {
    TakenSlots(vm, now, r, r1, r2, size);
    assert PagesOf(now.slots, r) == PagesOf(vm.slots, r);
    TakenPages(vm, now, r);
    TakenOnce(vm, now, r, r1, r2, size);
    TakenSplit(vm, now, r, r1, r2, size);
  }

  lemma TakenOnce(vm: Vm, now: Vm, r: nat, r1: nat, r2: nat, size: nat)
    requires Core(vm) && r in vm.regions && size == vm.regions[r].size && r < r1 && r1 < r2 && vm.next == r1
    requires forall p :: Counted(vm.pages, now.pages, PagesOf(vm.slots, r), p)
    requires forall k :: Copied(vm.slots, now.slots, r, r1, r2, size, k)
    ensures Droppable(now.pages, now.slots, r, size)
  {
    hide Core, PagesOf;
    TakenSlots(vm, now, r, r1, r2, size);
    forall k, l | k in now.slots && l in now.slots && k != l && k.owner == r && l.owner == r ensures now.slots[k] != now.slots[l] {
      assert OnceAt(vm, k, l) by { CoreParts(vm); }
    }
  }

  lemma TakenPages(vm: Vm, now: Vm, r: nat)
    requires Core(vm)
    requires forall p :: Counted(vm.pages, now.pages, PagesOf(vm.slots, r), p)
    ensures DropPages(now.pages, PagesOf(vm.slots, r)) == SplitPages(vm.pages, PagesOf(vm.slots, r))
    ensures FreedFrames(now.pages, PagesOf(vm.slots, r)) == {}
  {
    hide PagesOf;
    var held := PagesOf(vm.slots, r);
    var a, b := DropPages(now.pages, held), SplitPages(vm.pages, held);
    forall p
      ensures (p in a <==> p in b) && (p in a ==> a[p] == b[p])
      ensures p in now.pages && p in held ==> now.pages[p].refs > 2
    {
      assert Counted(vm.pages, now.pages, held, p) && PageAt(vm, p);
    }
  }

  lemma TakenSplit(vm: Vm, now: Vm, r: nat, r1: nat, r2: nat, size: nat)
    requires Core(vm) && r in vm.regions && size == vm.regions[r].size && r < r1 && r1 < r2 && vm.next == r1
    requires forall k :: Copied(vm.slots, now.slots, r, r1, r2, size, k)
    ensures SlotsWithout(now.slots, r) == SplitSlots(vm.slots, r, r1, r2)
  {
    hide SplitSlots;
    NewRegions(vm);
    var a, b := SlotsWithout(now.slots, r), SplitSlots(vm.slots, r, r1, r2);
    forall k ensures (k in a <==> k in b) && (k in a ==> a[k] == b[k]) {
      assert Copied(vm.slots, now.slots, r, r1, r2, size, k) && SlotAt(vm, Key(r, k.at));
      SplitSlotIs(vm.slots, r, r1, r2, k);
    }
  }
}
