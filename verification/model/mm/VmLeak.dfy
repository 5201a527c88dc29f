/**
 A run, from boot, after which a store in a mapping without PROT_WRITE is let through and shows up
 in another process: map, fork, and the first load of the page.
 */
module VmLeak {
  import opened Sma
  import opened VmState
  import opened VmFault
  import opened VmSpaces
  import opened VmRuns

  /** A space whose only block is its first page. */
  const ONE_PAGE := Area(USER_START, USER_SIZE, [Block(USER_START, 1)], [Block(USER_START + 1, USER_SIZE - 1)], ADDRESSES)

  lemma FirstPage()
    ensures Alloc(Created(USER_START, USER_SIZE, ADDRESSES), 0, 1, false) == (ONE_PAGE, Some(Block(USER_START, 1)))
    ensures Alloc(Created(USER_START, USER_SIZE, ADDRESSES), USER_START, 1, true) == (ONE_PAGE, Some(Block(USER_START, 1)))
  {
    var a := Created(USER_START, USER_SIZE, ADDRESSES);
    assert Added([], Block(USER_START, 1)) == [Block(USER_START, 1)];
    assert FirstFit(a.free, 1) == 0 && FindAt(a.free, USER_START) == 0;
    assert a.free[0 := Block(USER_START + 1, USER_SIZE - 1)] == ONE_PAGE.free;
  }

  /** The only mapping: one page without PROT_WRITE. */
  function Mapped(vm: Vm, fill: Content): Vm {
    vm.(regions := map[0 := Region(1, 1, [fill])], maps := map[Key(1, USER_START) := Mapping(1, false, 0)],
        areas := map[1 := ONE_PAGE], next := 1)
  }

  /** The same page in both spaces. */
  function Forked(vm: Vm, fill: Content): Vm {
    vm.(regions := map[0 := Region(2, 1, [fill])],
        maps := map[Key(1, USER_START) := Mapping(1, false, 0), Key(2, USER_START) := Mapping(1, false, 0)],
        areas := map[1 := ONE_PAGE, 2 := ONE_PAGE], next := 1)
  }

  lemma MapOne(vm: Vm, fill: Content)
    requires Boot(vm)
    ensures CanMap(Spawn(vm, 1), 1, 0, 1, false, [fill])
    ensures Map(Spawn(vm, 1), 1, 0, 1, false, false, [fill]) == (Mapped(vm, fill), Some(Block(USER_START, 1)))
  {
    hide Alloc;
    FirstPage();
    HintsOk(Spawn(vm, 1).areas[1], 0, 1, false);
    var v := Spawn(vm, 1);
    assert v.areas[1 := ONE_PAGE] == map[1 := ONE_PAGE];
    assert v.regions[0 := Region(1, 1, [fill])] == map[0 := Region(1, 1, [fill])];
    assert v.maps[Key(1, USER_START) := Mapping(1, false, 0)] == map[Key(1, USER_START) := Mapping(1, false, 0)];
  }

  lemma ForkOne(vm: Vm, fill: Content)
    requires Boot(vm)
    ensures Fork(Mapped(vm, fill), 1, 2) == Some(Forked(vm, fill))
  {
    hide Alloc;
    FirstPage();
    var v := Spawn(Mapped(vm, fill), 2);
    var h := Key(1, USER_START);
    assert v.areas[2 := ONE_PAGE] == map[1 := ONE_PAGE, 2 := ONE_PAGE];
    assert v.regions[0 := Region(2, 1, [fill])] == map[0 := Region(2, 1, [fill])];
    assert v.maps[Key(2, USER_START) := Mapping(1, false, 0)] == Forked(vm, fill).maps;
    assert Clone(v, h, 2) == Some(Forked(vm, fill));
    assert CloneFrom(Forked(vm, fill), 1, 2, 1) == Some(Forked(vm, fill));
  }

  lemma Cells(vm: Vm, fill: Content)
    ensures Cell(Forked(vm, fill), Key(1, USER_START)) == Some(Key(0, 0))
    ensures Cell(Forked(vm, fill), Key(2, USER_START)) == Some(Key(0, 0))
    ensures !Writable(Forked(vm, fill), Key(1, USER_START))
  {
    assert FindAt(ONE_PAGE.used, USER_START) == 0;
  }

  function LeakRun(f: nat, fill: Content): seq<Event> {
    [Create(1), MapBlock(1, 0, 1, false, false, [fill]), ForkSpace(1, 2), Read(Key(1, USER_START), Some(f))]
  }

  /** After that run a store by the first process, in a page it may not store to, changes what the second reads. */
  lemma ReadOnlyStoreLeaks(vm: Vm, f: nat, fill: Content)
    requires Boot(vm) && f in vm.free
    ensures Possible(vm, LeakRun(f, fill))
    ensures var v := After(vm, LeakRun(f, fill)); var k := Key(1, USER_START);
            && k in v.pt && v.pt[k].rw && !Writable(v, k)
            && Leaks(v, k, 0, Loaded(v, k)[0] + 1, Key(2, USER_START))
  {
    hide Map, Fork, Cell, Provide, Store, Inv, Boot, Loaded, View, Writable;
    var run := LeakRun(f, fill);
    var k := Key(1, USER_START);
    var v1, v2, v3 := Spawn(vm, 1), Mapped(vm, fill), Forked(vm, fill);
    RunSteps(run);
    MapOne(vm, fill);
    ForkOne(vm, fill);
    Cells(vm, fill);
    BootFacts(vm);
    assert Step(vm, run[0]).0 == v1;
    assert Step(v1, run[1]).0 == v2;
    assert Step(v2, run[2]).0 == v3;
    var v4 := Provide(v3, k, f);
    ProvideKeeps(v3, k, f);
    assert Step(v3, run[3]).0 == v4;
    LastSteps(v3, run[3]);
    assert Possible(v2, run[2..]) && After(v2, run[2..]) == v4 by { assert run[2..][1..] == run[3..]; }
    assert Possible(v1, run[1..]) && After(v1, run[1..]) == v4 by { assert run[1..][1..] == run[2..]; }
    assert Possible(vm, run) && After(vm, run) == v4;
    BootRuns(vm, run);
    SameCells(v3, v4);
    StoreLeaks(v4, k, Loaded(v4, k)[0] + 1, Key(2, USER_START));
  }

  lemma RunSteps(run: seq<Event>)
    requires |run| == 4
    ensures run[3..] == [run[3]] && run[2..][0] == run[2] && run[1..][0] == run[1]
  {
  }

  lemma BootFacts(vm: Vm)
    requires Boot(vm)
    ensures vm.areas == map[] && vm.pt == map[] && vm.slots == map[]
  {
  }

  lemma LastSteps(vm: Vm, ev: Event)
    requires Enabled(vm, ev)
    ensures Possible(vm, [ev]) && After(vm, [ev]) == Step(vm, ev).0
  {
    hide Step, Enabled;
    assert [ev][1..] == [];
  }

  lemma BootRuns(vm: Vm, run: seq<Event>)
    requires Boot(vm) && Possible(vm, run)
    ensures Core(After(vm, run))
  {
    hide Step, Enabled;
    BootInv(vm);
    RunInv(vm, run);
  }
}
