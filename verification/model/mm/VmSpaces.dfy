/** vm_space_create, vm_mmap, vm_space_clone and vm_space_destroy on whole spaces. */
module VmSpaces {
  import opened Words
  import opened Sma
  import opened VmState
  import opened VmClone
  import opened VmUnmap

  /** USERMEM_START and USERMEM_SIZE in pages. */
  const USER_START := 0x400
  const USER_SIZE := 0xBFC00
  /** Addresses of 32 bits, in pages. */
  const ADDRESSES: Modulus := 0x10_0000

  ghost predicate UserArea(a: Area) {
    Tiled(a) && a.start == USER_START && a.size == USER_SIZE && a.wrap == ADDRESSES
  }

  ghost predicate Inv(vm: Vm) {
    Core(vm) && forall s {:trigger vm.areas[s]} :: s in vm.areas ==> UserArea(vm.areas[s])
  }

  /** Before the first process there is nothing, and frame 0 is reserved. */
  ghost predicate Boot(vm: Vm) {
    vm == Vm(map[], map[], map[], map[], map[], map[], vm.free, vm.mem, 0) && 0 !in vm.free
  }

  lemma BootInv(vm: Vm)
    requires Boot(vm)
    ensures Inv(vm)
  {
  }

  lemma TiledSpaced(a: Area)
    requires Tiled(a)
    ensures Spaced(a.used)
  {
    forall i, j | 0 <= i < j < |a.used| ensures a.used[i].End() <= a.used[j].start {
      BlocksApart(a, a.used, i, j);
    }
  }

  // ---- vm_space_create ---------------------------------------------------------------------

  function Spawn(vm: Vm, s: nat): (v: Vm) {
    vm.(areas := vm.areas[s := Created(USER_START, USER_SIZE, ADDRESSES)])
  }

  lemma SpawnGood(vm: Vm, s: nat)
    requires Inv(vm) && s !in vm.areas
    ensures Inv(Spawn(vm, s))
    ensures forall k: Key :: View(Spawn(vm, s), k) == View(vm, k)
    ensures OpenFrom(Created(USER_START, USER_SIZE, ADDRESSES), USER_START)
  {
    var v := Spawn(vm, s);
    CreatedTiled(USER_START, USER_SIZE, ADDRESSES);
    SpawnCells(vm, s);
    SpawnCore(vm, s);
  }

  lemma SpawnCells(vm: Vm, s: nat)
    requires Core(vm) && s !in vm.areas
    ensures forall k: Key :: Cell(Spawn(vm, s), k) == Cell(vm, k) && Writable(Spawn(vm, s), k) == Writable(vm, k)
  {
    forall k: Key ensures Home(Spawn(vm, s).areas, k) == Home(vm.areas, k) {
    }
  }

  lemma SpawnCore(vm: Vm, s: nat)
    requires Core(vm) && s !in vm.areas
    ensures Core(Spawn(vm, s))
  {
    hide Cell, Users, Holders, Writable;
    var v := Spawn(vm, s);
    forall h ensures MapAt(v, h) { assert MapAt(vm, h); }
    forall t, c ensures UsedAt(v, t, c) { assert UsedAt(vm, t, c); }
    forall t ensures AreaAt(v, t) { assert AreaAt(vm, t); }
    forall r ensures RegionAt(v, r) && PageAt(v, r) { assert RegionAt(vm, r) && PageAt(vm, r); }
    forall h, g ensures SharedAt(v, h, g) && OnceAt(v, h, g) { assert SharedAt(vm, h, g) && OnceAt(vm, h, g); }
    forall p, q ensures FrameApart(v, p, q) { assert FrameApart(vm, p, q); }
    forall k: Key ensures SlotAt(v, k) { assert SlotAt(vm, k); }
    forall h: Key, k: Key ensures SoleAt(v, h, k) { assert SoleAt(vm, h, k); }
    SpawnCells(vm, s);
    forall k: Key ensures PteAt(v, k) { assert PteAt(vm, k); }
  }

  // ---- vm_mmap ------------------------------------------------------------------------------

  /** vm_mmap on aligned, non-zero arguments in pages; None is ENOMEM. */
  function Map(vm: Vm, s: nat, addr: nat, size: nat, fixed: bool, write: bool, fill: seq<Content>): (r: (Vm, Option<Block>))
    requires s in vm.areas
  {
    var (a, b) := Alloc(vm.areas[s], addr, size, fixed);
    if b.None? then (vm, None) else (Mmap(vm, s, b.value, write, fill, a), b)
  }

  ghost predicate CanMap(vm: Vm, s: nat, addr: nat, size: nat, fixed: bool, fill: seq<Content>) {
    s in vm.areas && 0 < size && |fill| == size && HintOk(vm.areas[s], addr, size, fixed)
  }

  lemma AllocGains(a: Area, addr: nat, size: nat, fixed: bool)
    requires Tiled(a) && 0 < size && HintOk(a, addr, size, fixed) && Alloc(a, addr, size, fixed).1.Some?
    ensures var (a', b) := Alloc(a, addr, size, fixed);
            && Tiled(a') && a'.start == a.start && a'.size == a.size && a'.wrap == a.wrap && b.value.size == size
            && b.value !in a.used && forall c :: c in a'.used <==> c in a.used || c == b.value
  {
    hide CountIn, WrapAt, FreeCut, Covered;
    var (a', b) := Alloc(a, addr, size, fixed);
    AllocTiled(a, addr, size, fixed);
    ChosenFits(a, addr, size, fixed);
    CutStarts(a, Chosen(a, addr, size, fixed), b.value.start, size);
    assert a'.used == Added(a.used, b.value);
  }

  lemma MapGood(vm: Vm, s: nat, addr: nat, size: nat, fixed: bool, write: bool, fill: seq<Content>)
    requires Inv(vm) && CanMap(vm, s, addr, size, fixed, fill)
    ensures var (v, b) := Map(vm, s, addr, size, fixed, write, fill);
            && Inv(v)
            && forall k: Key :: View(v, k) == if b.Some? && k.owner == s && b.value.Has(k.at)
                                         then Some(fill[k.at - b.value.start]) else View(vm, k)
    ensures var (v, b) := Map(vm, s, addr, size, fixed, write, fill);
            b.Some? ==> b.value.size == size && forall k: Key :: k.owner == s && b.value.Has(k.at) ==> View(vm, k) == None
  {
    hide Alloc, HintOk, Mmap, Core, Tiled, View, Gains, Cell;
    var (a, b) := Alloc(vm.areas[s], addr, size, fixed);
    if b.Some? {
      AllocGains(vm.areas[s], addr, size, fixed);
      MapGains(vm.areas, s, a, b.value);
      MmapCore(vm, s, b.value, write, fill, a);
      MmapAreas(vm, s, b.value, write, fill, a);
      forall k: Key ensures View(Mmap(vm, s, b.value, write, fill, a), k) ==
                       if k.owner == s && b.value.Has(k.at) then Some(fill[k.at - b.value.start]) else View(vm, k)
      {
        MmapViews(vm, s, b.value, write, fill, a, k);
      }
      forall k: Key | k.owner == s && b.value.Has(k.at) ensures View(vm, k) == None {
        MmapCell(vm, s, b.value, write, fill, a, k);
        NoCell(vm, k);
      }
    }
  }

  /** mmap keeps the spaces in order exactly when it does not follow a hint into a block too short for it. */
  lemma MapExact(vm: Vm, s: nat, addr: nat, size: nat, fixed: bool, write: bool, fill: seq<Content>)
    requires Inv(vm) && s in vm.areas && 0 < size && |fill| == size
    ensures Inv(Map(vm, s, addr, size, fixed, write, fill).0) <==> HintOk(vm.areas[s], addr, size, fixed)
  {
    hide Core, HintOk, Alloc, Mmap;
    AllocTiled(vm.areas[s], addr, size, fixed);
    var (a, b) := Alloc(vm.areas[s], addr, size, fixed);
    if HintOk(vm.areas[s], addr, size, fixed) {
      MapGood(vm, s, addr, size, fixed, write, fill);
    } else {
      NotGranted(vm.areas[s], addr, size, fixed);
      MmapAreas(vm, s, b.value, write, fill, a);
      assert s in Map(vm, s, addr, size, fixed, write, fill).0.areas;
    }
  }

  /** mmap is refused exactly when sma_alloc finds no place: for a free address, when no free block is large enough. */
  lemma MapPlace(vm: Vm, s: nat, addr: nat, size: nat, fixed: bool, write: bool, fill: seq<Content>)
    requires Inv(vm) && s in vm.areas && 0 < size
    ensures var (v, b) := Map(vm, s, addr, size, fixed, write, fill); var a := vm.areas[s];
            && (b.Some? <==> HintServed(a, addr, size) || (!fixed && exists i: nat :: LargeEnough(a, i, size)))
            && (b.None? ==> v == vm)
            && (HintServed(a, addr, size) ==> b == Some(Block(addr, size)))
            && (b.Some? && !HintServed(a, addr, size) ==>
                  exists i: nat :: LeastFit(a, i, size) && GrantedIn(a, i, addr, size, b.value))
  {
    hide Core, Alloc, Mmap;
    AllocPlace(vm.areas[s], addr, size, fixed);
  }

  lemma NotGranted(a: Area, addr: nat, size: nat, fixed: bool)
    ensures Alloc(a, addr, size, fixed).1.None? ==> HintOk(a, addr, size, fixed)
  {
  }

  /**
   mmap(0xBF000000, 0x50000000, MAP_FIXED) into a fresh space: the end of the range wraps to
   0x0F000000, the request is granted, and the space is no longer tiled.
   */
  lemma WrappingMap(vm: Vm, s: nat, write: bool, fill: seq<Content>)
    requires Inv(vm) && s in vm.areas && vm.areas[s] == Created(USER_START, USER_SIZE, ADDRESSES) && |fill| == 0x50000
    ensures var (v, b) := Map(vm, s, 0xBF000, 0x50000, true, write, fill);
            b == Some(Block(0xBF000, 0x50000)) && !Inv(v) && Block(0xF000, 0xB1000) in v.areas[s].free
  {
    hide Core, Inv, Mmap;
    var a := vm.areas[s];
    assert FindAt(a.free, 0xBF000) == 0;
    assert WrapAt(ADDRESSES, 0xBF000 + 0x50000) == 0xF000;
    MapExact(vm, s, 0xBF000, 0x50000, true, write, fill);
    WrappedTail(a);
    MmapAreas(vm, s, Block(0xBF000, 0x50000), write, fill, Alloc(a, 0xBF000, 0x50000, true).0);
  }

  lemma WrappedTail(a: Area)
    requires a == Created(USER_START, USER_SIZE, ADDRESSES) && FindAt(a.free, 0xBF000) == 0
    ensures Alloc(a, 0xBF000, 0x50000, true).1 == Some(Block(0xBF000, 0x50000))
    ensures Block(0xF000, 0xB1000) in Alloc(a, 0xBF000, 0x50000, true).0.free
  {
    var l := [Block(USER_START, 0xBF000 - USER_START)];
    var t := Tail(a.free[0], 0xBF000, 0x50000, ADDRESSES);
    assert t == Block(0xF000, 0xB1000);
    assert a.free[0 := l[0]] == l;
    assert Added(l, t)[Place(l, t)] == t;
    assert Alloc(a, 0xBF000, 0x50000, true).0.free == Added(l, t);
  }

  lemma NoCell(vm: Vm, k: Key)
    requires Cell(vm, k) == None
    ensures View(vm, k) == None
  {
  }

  lemma MapGains(areas: map<nat, Area>, s: nat, a: Area, b: Block)
    requires s in areas && Tiled(a) && b !in areas[s].used && forall c :: c in a.used <==> c in areas[s].used || c == b
    ensures Gains(areas, areas[s := a], s, b)
  {
    TiledSpaced(a);
  }

  lemma MmapAreas(vm: Vm, s: nat, b: Block, write: bool, fill: seq<Content>, a: Area)
    ensures Mmap(vm, s, b, write, fill, a).areas == vm.areas[s := a]
  {
  }

  // ---- vm_space_clone -------------------------------------------------------------------------

  /** vm_clone: None if the destination has no room at the block's address. */
  function Clone(vm: Vm, h: Key, d: nat): (r: Option<Vm>)
    requires h in vm.maps && vm.maps[h].region in vm.regions && d in vm.areas
  {
    var (a, b) := Alloc(vm.areas[d], h.at, vm.maps[h].size, true);
    if b.None? then None
    else if vm.maps[h].write then Some(CloneSplit(vm, h, d, a))
    else Some(CloneShared(vm, h, d, a))
  }

  predicate CanStart(vm: Vm, h: Key, d: nat) {
    h in vm.maps && vm.maps[h].region in vm.regions && d in vm.areas
  }

  /** The used blocks of s from the i-th on, cloned in order. */
  function CloneFrom(vm: Vm, s: nat, d: nat, i: nat): (r: Option<Vm>)
    requires s in vm.areas
    decreases |vm.areas[s].used| - i
  {
    var l := vm.areas[s].used;
    if i >= |l| then Some(vm)
    else
      var h := Key(s, l[i].start);
      if !CanStart(vm, h, d) then None
      else
        var r := Clone(vm, h, d);
        if r.None? || s !in r.value.areas || r.value.areas[s].used != l then None
        else CloneFrom(r.value, s, d, i + 1)
  }

  /** The end of the i-th block. */
  function Reached(l: seq<Block>, i: nat): nat
    requires i <= |l|
  {
    if i == 0 then USER_START else l[i - 1].End()
  }

  /** After i blocks the destination has exactly these. */
  ghost predicate Cloning(vm: Vm, s: nat, d: nat, i: nat) {
    && Inv(vm) && s in vm.areas && d in vm.areas && s != d
    && i <= |vm.areas[s].used| && vm.areas[d].used == vm.areas[s].used[..i]
    && OpenFrom(vm.areas[d], Reached(vm.areas[s].used, i))
  }

  lemma BlockStart(a: Area, i: nat)
    requires UserArea(a) && i < |a.used|
    ensures var b := a.used[i]; 0 < b.start && Reached(a.used, i) <= b.start && b.End() <= a.start + a.size && b.size > 0
    ensures forall j :: 0 <= j < i ==> a.used[j].start < a.used[i].start
  {
    BlockInside(a, a.used, i);
    if i > 0 {
      BlocksApart(a, a.used, i - 1, i);
    }
  }

  /** Cloning the next block succeeds, changes only the destination's view of it, and keeps everything in step. */
  lemma CloneNext(vm: Vm, s: nat, d: nat, i: nat)
    requires Cloning(vm, s, d, i) && i < |vm.areas[s].used|
    ensures var h := Key(s, vm.areas[s].used[i].start);
            && CanStart(vm, h, d) && Clone(vm, h, d).Some?
            && var v := Clone(vm, h, d).value;
               && Cloning(v, s, d, i + 1) && v.areas[s] == vm.areas[s]
               && forall k: Key :: View(v, k) == if k.owner == d && vm.areas[s].used[i].Has(k.at)
                                            then View(vm, Key(s, k.at)) else View(vm, k)
  {
    hide Alloc, CloneSplit, CloneShared, Core, Tiled, OpenFrom, View;
    var b := vm.areas[s].used[i];
    var h := Key(s, b.start);
    NextMapping(vm, s, b);
    BlockStart(vm.areas[s], i);
    AppendAlloc(vm.areas[d], Reached(vm.areas[s].used, i), b);
    var a := Alloc(vm.areas[d], b.start, b.size, true).0;
    TiledSpaced(a);
    GainsLast(vm, s, d, i, a);
    CloneAreas(vm, h, d, a);
    if vm.maps[h].write {
      CloneSplitCore(vm, h, d, a);
      forall k: Key ensures View(CloneSplit(vm, h, d, a), k) ==
                       if k.owner == d && b.Has(k.at) then View(vm, Key(s, k.at)) else View(vm, k)
      {
        CloneSplitViews(vm, h, d, a, k);
      }
    } else {
      CloneSharedCore(vm, h, d, a);
      forall k: Key ensures View(CloneShared(vm, h, d, a), k) ==
                       if k.owner == d && b.Has(k.at) then View(vm, Key(s, k.at)) else View(vm, k)
      {
        CloneSharedViews(vm, h, d, a, k);
      }
    }
  }

  lemma NextMapping(vm: Vm, s: nat, b: Block)
    requires Core(vm) && s in vm.areas && b in vm.areas[s].used
    ensures var h := Key(s, b.start); h in vm.maps && vm.maps[h].size == b.size && vm.maps[h].region in vm.regions
  {
    assert UsedAt(vm, s, b) && MapAt(vm, Key(s, b.start));
  }

  lemma GainsLast(vm: Vm, s: nat, d: nat, i: nat, a: Area)
    requires Cloning(vm, s, d, i) && i < |vm.areas[s].used| && Spaced(a.used)
    requires a.used == vm.areas[d].used + [vm.areas[s].used[i]]
    ensures Gains(vm.areas, vm.areas[d := a], d, vm.areas[s].used[i])
    ensures a.used == vm.areas[s].used[..i + 1]
  {
    hide Core, View, OpenFrom;
    BlockStart(vm.areas[s], i);
  }

  lemma CloneAreas(vm: Vm, h: Key, d: nat, a: Area)
    requires h in vm.maps && vm.maps[h].region in vm.regions
    ensures CloneSplit(vm, h, d, a).areas == vm.areas[d := a] == CloneShared(vm, h, d, a).areas
  {
  }

  /** Cloning from the i-th block on never fails, and the destination ends up with the source's views. */
  lemma {:induction false} CloneFromGood(vm: Vm, s: nat, d: nat, i: nat)
    requires Cloning(vm, s, d, i)
    requires forall k: Key :: k.owner == d ==>
               View(vm, k) == if k.at < Reached(vm.areas[s].used, i) then View(vm, Key(s, k.at)) else None
    ensures CloneFrom(vm, s, d, i).Some?
    ensures var v := CloneFrom(vm, s, d, i).value;
            Inv(v) && forall k: Key :: View(v, k) == if k.owner == d then View(vm, Key(s, k.at)) else View(vm, k)
    decreases |vm.areas[s].used| - i
  {
    hide Alloc, CloneSplit, CloneShared, Core, Tiled, OpenFrom, Clone, View;
    var l := vm.areas[s].used;
    if i < |l| {
      var h := Key(s, l[i].start);
      CloneNext(vm, s, d, i);
      var v := Clone(vm, h, d).value;
      forall k: Key | k.owner == d
        ensures View(v, k) == if k.at < Reached(l, i + 1) then View(v, Key(s, k.at)) else None
      {
        GapUnmapped(vm, s, i, k.at);
        BlockStart(vm.areas[s], i);
        assert View(v, Key(s, k.at)) == View(vm, Key(s, k.at));
      }
      CloneFromGood(v, s, d, i + 1);
    } else {
      forall k: Key ensures View(vm, k) == if k.owner == d then View(vm, Key(s, k.at)) else View(vm, k) {
        EndUnmapped(vm, s, k.at);
      }
    }
  }

  lemma NoHome(vm: Vm, s: nat, x: nat)
    requires s in vm.areas && FindAt(vm.areas[s].used, x) == |vm.areas[s].used|
    ensures View(vm, Key(s, x)) == None
  {
  }

  /** Between the end of one block and the start of the next nothing is mapped. */
  lemma GapUnmapped(vm: Vm, s: nat, i: nat, x: nat)
    requires Inv(vm) && s in vm.areas && i < |vm.areas[s].used|
    ensures Reached(vm.areas[s].used, i) <= x < vm.areas[s].used[i].start ==> View(vm, Key(s, x)) == None
  {
    hide View, Core;
    var l := vm.areas[s].used;
    if Reached(l, i) <= x < l[i].start {
      var j := FindAt(l, x);
      if j < i - 1 {
        BlocksApart(vm.areas[s], l, j, i - 1);
      }
      NoHome(vm, s, x);
    }
  }

  /** Behind the last block nothing is mapped. */
  lemma EndUnmapped(vm: Vm, s: nat, x: nat)
    requires Inv(vm) && s in vm.areas
    ensures x >= Reached(vm.areas[s].used, |vm.areas[s].used|) ==> View(vm, Key(s, x)) == None
  {
    hide View, Core;
    var l := vm.areas[s].used;
    if x >= Reached(l, |l|) {
      var j := FindAt(l, x);
      if j + 1 < |l| {
        BlocksApart(vm.areas[s], l, j, |l| - 1);
      }
      NoHome(vm, s, x);
    }
  }

  /** fork: a new space cloned from an existing one. */
  function Fork(vm: Vm, s: nat, d: nat): (r: Option<Vm>)
    requires s in vm.areas && s != d
  {
    CloneFrom(Spawn(vm, d), s, d, 0)
  }

  /**
   Fork never fails in sma_alloc.  The child reads in every page what the parent reads, and
   nobody else's memory, the parent's included, changes.
   */
  lemma ForkGood(vm: Vm, s: nat, d: nat)
    requires Inv(vm) && s in vm.areas && d !in vm.areas
    ensures Fork(vm, s, d).Some?
    ensures var v := Fork(vm, s, d).value;
            Inv(v) && forall k: Key :: View(v, k) == if k.owner == d then View(vm, Key(s, k.at)) else View(vm, k)
  {
    hide Core, Tiled, OpenFrom, View, CloneFrom;
    SpawnGood(vm, d);
    var v := Spawn(vm, d);
    forall k: Key | k.owner == d
      ensures View(v, k) == if k.at < Reached(v.areas[s].used, 0) then View(v, Key(s, k.at)) else None
    {
      NoHome(v, d, k.at);
      if k.at < USER_START {
        LowUnmapped(v, s, k.at);
      }
    }
    CloneFromGood(v, s, d, 0);
  }

  lemma LowUnmapped(vm: Vm, s: nat, x: nat)
    requires Inv(vm) && s in vm.areas && x < USER_START
    ensures View(vm, Key(s, x)) == None
  {
    hide View, Core;
    var l := vm.areas[s].used;
    var j := FindAt(l, x);
    if j < |l| {
      BlockInside(vm.areas[s], l, j);
    }
    NoHome(vm, s, x);
  }

  // ---- vm_space_destroy -------------------------------------------------------------------------

  /** sma_area_destroy: the first used block is unmapped and unlinked until none is left. */
  function Teardown(vm: Vm, s: nat): (r: Vm)
    requires s in vm.areas
    decreases |vm.areas[s].used|
  {
    var a := vm.areas[s];
    if a.used == [] then vm.(areas := vm.areas - {s})
    else
      var h := Key(s, a.used[0].start);
      var a' := a.(used := a.used[1..]);
      if h !in vm.maps || vm.maps[h].region !in vm.regions then vm
      else
        UnmapArea(vm, h, a');
        Teardown(Unmap(vm, h, a'), s)
  }

  lemma UnmapArea(vm: Vm, h: Key, a: Area)
    requires h in vm.maps && vm.maps[h].region in vm.regions
    ensures Unmap(vm, h, a).areas == vm.areas[h.owner := a]
  {
  }

  lemma LosesFirst(vm: Vm, s: nat)
    requires Core(vm) && s in vm.areas && vm.areas[s].used != []
    ensures var a := vm.areas[s]; Loses(vm.areas, vm.areas[s := a.(used := a.used[1..])], s, a.used[0])
  {
    assert AreaAt(vm, s);
    var l := vm.areas[s].used;
    assert l == [l[0]] + l[1..];
  }

  /** Removing a space without blocks. */
  lemma RemoveGood(vm: Vm, s: nat)
    requires Core(vm) && s in vm.areas && vm.areas[s].used == []
    ensures Core(vm.(areas := vm.areas - {s}))
    ensures forall k: Key :: View(vm.(areas := vm.areas - {s}), k) == View(vm, k)
  {
    var v := vm.(areas := vm.areas - {s});
    RemoveCells(vm, s);
    hide Cell, Users, Holders, Writable;
    forall h ensures MapAt(v, h) { assert MapAt(vm, h); }
    forall t, c ensures UsedAt(v, t, c) { assert UsedAt(vm, t, c); }
    forall t ensures AreaAt(v, t) { assert AreaAt(vm, t); }
    forall r ensures RegionAt(v, r) && PageAt(v, r) { assert RegionAt(vm, r) && PageAt(vm, r); }
    forall h, g ensures SharedAt(v, h, g) && OnceAt(v, h, g) { assert SharedAt(vm, h, g) && OnceAt(vm, h, g); }
    forall p, q ensures FrameApart(v, p, q) { assert FrameApart(vm, p, q); }
    forall k: Key ensures SlotAt(v, k) { assert SlotAt(vm, k); }
    forall h: Key, k: Key ensures SoleAt(v, h, k) { assert SoleAt(vm, h, k); }
    forall k: Key ensures PteAt(v, k) { assert PteAt(vm, k); }
  }

  lemma RemoveCells(vm: Vm, s: nat)
    requires s in vm.areas && vm.areas[s].used == []
    ensures var v := vm.(areas := vm.areas - {s});
            forall k: Key :: Cell(v, k) == Cell(vm, k) && Writable(v, k) == Writable(vm, k)
  {
    forall k: Key ensures Home(vm.areas - {s}, k) == Home(vm.areas, k) {
    }
  }

  lemma {:induction false} TeardownGood(vm: Vm, s: nat)
    requires Core(vm) && s in vm.areas
    ensures var v := Teardown(vm, s);
            && Core(v) && v.areas == vm.areas - {s}
            && forall k: Key :: View(v, k) == if k.owner == s then None else View(vm, k)
    decreases |vm.areas[s].used|
  {
    hide Core, View, Unmap;
    var a := vm.areas[s];
    if a.used == [] {
      RemoveGood(vm, s);
      forall k: Key | k.owner == s ensures View(vm, k) == None {
        NoHome(vm, s, k.at);
      }
    } else {
      var h, a' := Key(s, a.used[0].start), a.(used := a.used[1..]);
      NextMapping(vm, s, a.used[0]);
      LosesFirst(vm, s);
      UnmapArea(vm, h, a');
      UnmapCore(vm, h, a');
      var v := Unmap(vm, h, a');
      forall k: Key ensures k.owner != s ==> View(v, k) == View(vm, k) {
        UnmapViews(vm, h, a', k);
      }
      TeardownGood(v, s);
    }
  }

  /** Exit takes away one space and leaves every other process's memory as it was. */
  lemma ExitGood(vm: Vm, s: nat)
    requires Inv(vm) && s in vm.areas
    ensures var v := Teardown(vm, s);
            Inv(v) && s !in v.areas && forall k: Key :: View(v, k) == if k.owner == s then None else View(vm, k)
  {
    hide Core, View, Teardown;
    TeardownGood(vm, s);
  }
}
