/** Page frames are neither lost nor handed out twice: free frames and frames of pages make up the same memory forever. */
module VmFrames {
  import opened Sma
  import opened VmState
  import opened VmFault
  import opened VmClone
  import opened VmUnmap
  import opened VmSpaces
  import opened VmRuns

  ghost function Frames(pages: map<nat, Page>): set<nat> {
    set p | p in pages :: pages[p].frame
  }

  /** All frames there are for pages: the free ones and those that hold a page. */
  ghost function Ram(vm: Vm): set<nat> {
    vm.free + Frames(vm.pages)
  }

  lemma DropRefFrames(pages: map<nat, Page>, p: nat, q: nat, f: nat)
    requires p in pages && q !in pages
    ensures Frames(DropRef(pages, p)[q := Page(1, f)]) + FreedBy(pages, p) == Frames(pages) + {f}
  {
    var after := DropRef(pages, p)[q := Page(1, f)];
    assert after[q].frame in Frames(after);
    assert forall x :: x in pages && x != p ==> x in after && after[x].frame == pages[x].frame;
    assert forall x :: x in pages && x != p ==> pages[x].frame in Frames(after);
    assert pages[p].refs > 1 ==> p in after && after[p].frame == pages[p].frame;
    assert pages[p].frame in Frames(after) || pages[p].frame in FreedBy(pages, p);
  }

  lemma AddFrame(pages: map<nat, Page>, q: nat, f: nat)
    requires q !in pages
    ensures Frames(pages[q := Page(1, f)]) == Frames(pages) + {f}
  {
    var after := pages[q := Page(1, f)];
    assert after[q].frame in Frames(after);
    assert forall x :: x in pages ==> x in after && after[x].frame in Frames(after);
  }

  lemma ProvideRam(vm: Vm, k: Key, f: nat)
    requires CanProvide(vm, k, f)
    ensures Ram(Provide(vm, k, f)) == Ram(vm)
  {
    hide Cell, CellContent, Frames;
    assert PageAt(vm, vm.next);
    var c := Cell(vm, k).value;
    if c in vm.slots && vm.slots[c] in vm.pages {
      DropRefFrames(vm.pages, vm.slots[c], vm.next, f);
    } else {
      AddFrame(vm.pages, vm.next, f);
    }
  }

  lemma FaultRam(vm: Vm, k: Key, rw: bool, f: Option<nat>)
    requires Core(vm) && Supplied(vm, k, rw, f)
    ensures Ram(Fault(vm, k, rw, f).0) == Ram(vm)
  {
    hide Provide, Frames, Cell, Writable;
    var c := Cell(vm, k);
    if c.Some? && !(rw && !Writable(vm, k)) {
      assert SlotAt(vm, c.value);
      if !(c.value in vm.slots && !rw) {
        ProvideRam(vm, k, f.value);
      }
    }
  }

  lemma SplitRam(pages: map<nat, Page>, held: set<nat>)
    ensures Frames(SplitPages(pages, held)) == Frames(pages)
  {
    var after := SplitPages(pages, held);
    assert forall p :: p in pages ==> p in after && after[p].frame == pages[p].frame;
    assert forall p :: p in pages ==> after[p].frame in Frames(after);
  }

  lemma CloneRam(vm: Vm, h: Key, d: nat)
    requires CanStart(vm, h, d) && Clone(vm, h, d).Some?
    ensures Ram(Clone(vm, h, d).value) == Ram(vm)
  {
    hide Frames, Alloc, SplitPages, SplitSlots, ReadOnly, TwoRegions, TwoMappings;
    SplitRam(vm.pages, PagesOf(vm.slots, vm.maps[h].region));
  }

  lemma DropPagesRam(pages: map<nat, Page>, held: set<nat>)
    ensures Frames(DropPages(pages, held)) + FreedFrames(pages, held) == Frames(pages)
  {
    var after := DropPages(pages, held);
    forall p | p in pages ensures pages[p].frame in Frames(after) + FreedFrames(pages, held) {
      if p in after {
        assert after[p].frame in Frames(after);
      } else {
        assert pages[p].frame in FreedFrames(pages, held);
      }
    }
  }

  lemma UnmapRam(vm: Vm, h: Key, a: Area)
    requires h in vm.maps && vm.maps[h].region in vm.regions
    ensures Ram(Unmap(vm, h, a)) == Ram(vm)
  {
    hide Frames, DropPages, FreedFrames, SlotsWithout, Unmapped;
    DropPagesRam(vm.pages, PagesOf(vm.slots, vm.maps[h].region));
  }

  lemma {:induction false} CloneFromRam(vm: Vm, s: nat, d: nat, i: nat)
    requires s in vm.areas && CloneFrom(vm, s, d, i).Some?
    ensures Ram(CloneFrom(vm, s, d, i).value) == Ram(vm)
    decreases |vm.areas[s].used| - i
  {
    hide Ram, Clone;
    var l := vm.areas[s].used;
    if i < |l| {
      var h := Key(s, l[i].start);
      CloneRam(vm, h, d);
      CloneFromRam(Clone(vm, h, d).value, s, d, i + 1);
    }
  }

  lemma CloneCopiesNothing(vm: Vm, h: Key, d: nat)
    requires CanStart(vm, h, d) && Clone(vm, h, d).Some?
    ensures Clone(vm, h, d).value.free == vm.free && Clone(vm, h, d).value.mem == vm.mem
  {
    hide Alloc, SplitPages, SplitSlots, ReadOnly, TwoRegions, TwoMappings;
  }

  lemma {:induction false} CloneFromCopiesNothing(vm: Vm, s: nat, d: nat, i: nat)
    requires s in vm.areas && CloneFrom(vm, s, d, i).Some?
    ensures CloneFrom(vm, s, d, i).value.free == vm.free && CloneFrom(vm, s, d, i).value.mem == vm.mem
    decreases |vm.areas[s].used| - i
  {
    hide Clone;
    var l := vm.areas[s].used;
    if i < |l| {
      var h := Key(s, l[i].start);
      CloneCopiesNothing(vm, h, d);
      CloneFromCopiesNothing(Clone(vm, h, d).value, s, d, i + 1);
    }
  }

  /** fork takes no frame and copies no byte: pages are shared until one of the sharers writes. */
  lemma ForkCopiesNothing(vm: Vm, s: nat, d: nat)
    requires Inv(vm) && s in vm.areas && d !in vm.areas
    ensures Fork(vm, s, d).Some?
    ensures Fork(vm, s, d).value.free == vm.free && Fork(vm, s, d).value.mem == vm.mem
  {
    hide Inv, CloneFrom;
    ForkGood(vm, s, d);
    CloneFromCopiesNothing(Spawn(vm, d), s, d, 0);
  }

  lemma {:induction false} TeardownRam(vm: Vm, s: nat)
    requires s in vm.areas
    ensures Ram(Teardown(vm, s)) == Ram(vm)
    decreases |vm.areas[s].used|
  {
    hide Unmap;
    var a := vm.areas[s];
    if a.used != [] {
      var h, a' := Key(s, a.used[0].start), a.(used := a.used[1..]);
      if h in vm.maps && vm.maps[h].region in vm.regions {
        UnmapArea(vm, h, a');
        UnmapRam(vm, h, a');
        TeardownRam(Unmap(vm, h, a'), s);
      }
    }
  }

  lemma StepRam(vm: Vm, ev: Event)
    requires Inv(vm) && Enabled(vm, ev)
    ensures Ram(Step(vm, ev).0) == Ram(vm)
  {
    hide Fault, Teardown, CloneFrom, Core, Alloc, Frames, View;
    match ev
    case Create(s) =>
    case MapBlock(s, addr, size, fixed, write, fill) =>
    case Read(k, f) =>
      if k !in vm.pt {
        FaultRam(vm, k, false, f);
      }
    case Write(k, off, b, f) =>
      if !(k in vm.pt && vm.pt[k].rw) {
        FaultRam(vm, k, true, f);
      }
    case ForkSpace(s, d) =>
      if Fork(vm, s, d).Some? {
        CloneFromRam(Spawn(vm, d), s, d, 0);
      }
    case ExitSpace(s) => TeardownRam(vm, s);
  }

  /** Over any run no page frame leaks, and a page frame is free or belongs to exactly one page. */
  lemma {:induction false} RunRam(vm: Vm, run: seq<Event>)
    requires Inv(vm) && Possible(vm, run)
    ensures var v := After(vm, run);
            && Ram(v) == Ram(vm)
            && (forall p :: p in v.pages ==> v.pages[p].frame !in v.free)
            && (forall p, q :: p in v.pages && q in v.pages && p != q ==> v.pages[p].frame != v.pages[q].frame)
    decreases |run|
  {
    hide Inv, Step, Enabled, Ram;
    if run == [] {
      FramesApart(vm);
    } else {
      StepRam(vm, run[0]);
      StepInv(vm, run[0]);
      RunRam(Step(vm, run[0]).0, run[1..]);
    }
  }

  lemma FramesApart(vm: Vm)
    requires Inv(vm)
    ensures forall p :: p in vm.pages ==> vm.pages[p].frame !in vm.free
    ensures forall p, q :: p in vm.pages && q in vm.pages && p != q ==> vm.pages[p].frame != vm.pages[q].frame
  {
    forall p | p in vm.pages ensures vm.pages[p].frame !in vm.free { assert PageAt(vm, p); }
    forall p, q | p in vm.pages && q in vm.pages && p != q ensures vm.pages[p].frame != vm.pages[q].frame {
      assert FrameApart(vm, p, q);
    }
  }

  /** A page is in a region that some space maps. */
  lemma PageSpace(vm: Vm, p: nat) returns (s: nat)
    requires Inv(vm) && p in vm.pages
    ensures s in vm.areas
  {
    assert PageAt(vm, p);
    var k :| k in Holders(vm.slots, p);
    assert SlotAt(vm, k) && RegionAt(vm, k.owner);
    var h :| h in Users(vm.maps, k.owner);
    assert MapAt(vm, h);
    s := h.owner;
  }

  lemma NoPages(vm: Vm)
    requires Inv(vm) && vm.areas == map[]
    ensures vm.pages == map[]
  {
    hide Inv;
    forall p | p in vm.pages ensures false {
      var s := PageSpace(vm, p);
    }
  }

  /** A run that ends without a space gives every page frame back. */
  lemma NothingLeft(vm: Vm, run: seq<Event>)
    requires Inv(vm) && Possible(vm, run) && After(vm, run).areas == map[]
    ensures After(vm, run).pages == map[] && After(vm, run).free == Ram(vm)
  {
    hide Inv, Step, Enabled;
    RunInv(vm, run);
    RunRam(vm, run);
    NoPages(After(vm, run));
  }
}
