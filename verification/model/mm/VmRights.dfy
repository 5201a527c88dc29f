/** Which pages may be stored to, and where blocks are placed, through mmap, fork and exit. */
module VmRights {
  import opened Sma
  import opened VmState
  import opened VmClone
  import opened VmUnmap
  import opened VmSpaces

  /** Only a page that is mapped may be stored to. */
  lemma WritableMapped(vm: Vm, k: Key)
    requires Core(vm) && Writable(vm, k)
    ensures View(vm, k).Some?
  {
    CellIs(vm, k);
  }

  lemma SpawnRights(vm: Vm, s: nat)
    requires Inv(vm) && s !in vm.areas
    ensures forall k: Key :: Writable(Spawn(vm, s), k) == Writable(vm, k)
  {
    hide Writable;
    SpawnCells(vm, s);
  }

  lemma MapRights(vm: Vm, s: nat, addr: nat, size: nat, fixed: bool, write: bool, fill: seq<Content>)
    requires Inv(vm) && CanMap(vm, s, addr, size, fixed, fill)
    ensures var (v, b) := Map(vm, s, addr, size, fixed, write, fill);
            && (forall k: Key :: Writable(v, k) == if b.Some? && k.owner == s && b.value.Has(k.at) then write else Writable(vm, k))
            && v.areas == vm.areas[s := Alloc(vm.areas[s], addr, size, fixed).0] && b == Alloc(vm.areas[s], addr, size, fixed).1
  {
    hide Alloc, HintOk, Mmap, Core, Tiled, Gains, Cell, Writable;
    var (a, b) := Alloc(vm.areas[s], addr, size, fixed);
    if b.Some? {
      AllocGains(vm.areas[s], addr, size, fixed);
      MapGains(vm.areas, s, a, b.value);
      MmapAreas(vm, s, b.value, write, fill, a);
      forall k: Key ensures Writable(Mmap(vm, s, b.value, write, fill, a), k) == if k.owner == s && b.value.Has(k.at) then write else Writable(vm, k) {
        MmapCell(vm, s, b.value, write, fill, a, k);
      }
    } else {
      RefusedArea(vm.areas[s], addr, size, fixed);
    }
  }

  lemma RefusedArea(a: Area, addr: nat, size: nat, fixed: bool)
    requires Alloc(a, addr, size, fixed).1.None?
    ensures Alloc(a, addr, size, fixed).0 == a
  {
  }

  /** An area after fixed requests for the given blocks, one after the other. */
  function Refilled(a: Area, l: seq<Block>): Area
    decreases |l|
  {
    if l == [] then a else Refilled(Alloc(a, l[0].start, l[0].size, true).0, l[1..])
  }

  lemma CloneNextRights(vm: Vm, s: nat, d: nat, i: nat)
    requires Cloning(vm, s, d, i) && i < |vm.areas[s].used|
    ensures var b := vm.areas[s].used[i]; var h := Key(s, b.start);
            && CanStart(vm, h, d) && Clone(vm, h, d).Some?
            && var v := Clone(vm, h, d).value;
               && v.areas == vm.areas[d := Alloc(vm.areas[d], b.start, b.size, true).0]
               && forall k: Key :: Writable(v, k) == if k.owner == d && b.Has(k.at) then Writable(vm, Key(s, k.at)) else Writable(vm, k)
  {
    hide Alloc, CloneSplit, CloneShared, Core, Tiled, OpenFrom, View, Writable;
    var b := vm.areas[s].used[i];
    var h := Key(s, b.start);
    NextMapping(vm, s, b);
    BlockStart(vm.areas[s], i);
    AppendAlloc(vm.areas[d], Reached(vm.areas[s].used, i), b);
    var a := Alloc(vm.areas[d], b.start, b.size, true).0;
    TiledSpaced(a);
    GainsLast(vm, s, d, i, a);
    CloneAreas(vm, h, d, a);
    var v := if vm.maps[h].write then CloneSplit(vm, h, d, a) else CloneShared(vm, h, d, a);
    forall k: Key ensures Writable(v, k) == if k.owner == d && b.Has(k.at) then Writable(vm, Key(s, k.at)) else Writable(vm, k) {
      if vm.maps[h].write {
        SplitCell(vm, h, d, a, k);
      } else {
        SharedCell(vm, h, d, a, k);
      }
    }
  }

  lemma {:induction false} CloneFromRights(vm: Vm, s: nat, d: nat, i: nat)
    requires Cloning(vm, s, d, i)
    requires forall k: Key :: k.owner == d ==>
               Writable(vm, k) == (k.at < Reached(vm.areas[s].used, i) && Writable(vm, Key(s, k.at)))
    ensures CloneFrom(vm, s, d, i).Some?
    ensures var v := CloneFrom(vm, s, d, i).value;
            && v.areas == vm.areas[d := Refilled(vm.areas[d], vm.areas[s].used[i..])]
            && forall k: Key :: Writable(v, k) == if k.owner == d then Writable(vm, Key(s, k.at)) else Writable(vm, k)
    decreases |vm.areas[s].used| - i
  {
    hide Alloc, CloneSplit, CloneShared, Core, Tiled, OpenFrom, Clone, View, Writable;
    var l := vm.areas[s].used;
    if i < |l| {
      var h := Key(s, l[i].start);
      CloneNext(vm, s, d, i);
      CloneNextRights(vm, s, d, i);
      var v := Clone(vm, h, d).value;
      forall k: Key | k.owner == d
        ensures Writable(v, k) == (k.at < Reached(l, i + 1) && Writable(v, Key(s, k.at)))
      {
        GapUnwritable(vm, s, i, k.at);
        BlockStart(vm.areas[s], i);
      }
      CloneFromRights(v, s, d, i + 1);
      assert l[i..][1..] == l[i + 1..];
    } else {
      forall k: Key ensures Writable(vm, k) == if k.owner == d then Writable(vm, Key(s, k.at)) else Writable(vm, k) {
        EndUnwritable(vm, s, k.at);
      }
      assert l[i..] == [];
      assert vm.areas[d := vm.areas[d]] == vm.areas;
    }
  }

  lemma GapUnwritable(vm: Vm, s: nat, i: nat, x: nat)
    requires Inv(vm) && s in vm.areas && i < |vm.areas[s].used|
    ensures Reached(vm.areas[s].used, i) <= x < vm.areas[s].used[i].start ==> !Writable(vm, Key(s, x))
  {
    hide Core, View, Writable;
    GapUnmapped(vm, s, i, x);
    if Writable(vm, Key(s, x)) {
      WritableMapped(vm, Key(s, x));
    }
  }

  lemma EndUnwritable(vm: Vm, s: nat, x: nat)
    requires Inv(vm) && s in vm.areas
    ensures x >= Reached(vm.areas[s].used, |vm.areas[s].used|) ==> !Writable(vm, Key(s, x))
  {
    hide Core, View, Writable;
    EndUnmapped(vm, s, x);
    if Writable(vm, Key(s, x)) {
      WritableMapped(vm, Key(s, x));
    }
  }

  /** The child may store where the parent may, and its area is filled in the order of the parent's blocks. */
  lemma ForkRights(vm: Vm, s: nat, d: nat)
    requires Inv(vm) && s in vm.areas && d !in vm.areas
    ensures Fork(vm, s, d).Some?
    ensures var v := Fork(vm, s, d).value;
            && v.areas == vm.areas[d := Refilled(Created(USER_START, USER_SIZE, ADDRESSES), vm.areas[s].used)]
            && forall k: Key :: Writable(v, k) == if k.owner == d then Writable(vm, Key(s, k.at)) else Writable(vm, k)
  {
    hide Core, Tiled, OpenFrom, View, CloneFrom, Writable;
    SpawnGood(vm, d);
    SpawnRights(vm, d);
    var v := Spawn(vm, d);
    forall k: Key | k.owner == d
      ensures Writable(v, k) == (k.at < Reached(v.areas[s].used, 0) && Writable(v, Key(s, k.at)))
    {
      NoHome(v, d, k.at);
      if Writable(v, k) {
        WritableMapped(v, k);
      }
      if k.at < USER_START {
        LowUnmapped(v, s, k.at);
        if Writable(v, Key(s, k.at)) {
          WritableMapped(v, Key(s, k.at));
        }
      }
    }
    CloneFromRights(v, s, d, 0);
    assert vm.areas[s].used[0..] == vm.areas[s].used;
  }

  lemma {:induction false} TeardownRights(vm: Vm, s: nat)
    requires Core(vm) && s in vm.areas
    ensures forall k: Key :: Writable(Teardown(vm, s), k) == (k.owner != s && Writable(vm, k))
    decreases |vm.areas[s].used|
  {
    hide Core, View, Unmap, Writable;
    var a := vm.areas[s];
    if a.used == [] {
      RemoveCells(vm, s);
      forall k: Key | k.owner == s ensures !Writable(vm, k) {
        NoHome(vm, s, k.at);
        if Writable(vm, k) {
          WritableMapped(vm, k);
        }
      }
    } else {
      var h, a' := Key(s, a.used[0].start), a.(used := a.used[1..]);
      NextMapping(vm, s, a.used[0]);
      LosesFirst(vm, s);
      UnmapArea(vm, h, a');
      UnmapCore(vm, h, a');
      var v := Unmap(vm, h, a');
      forall k: Key ensures k.owner != s ==> Writable(v, k) == Writable(vm, k) {
        UnmapCell(vm, h, a', k);
      }
      TeardownRights(v, s);
    }
  }
}
