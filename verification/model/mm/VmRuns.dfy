/**
 Whole runs.  The reference is a machine of its own, in which fork copies every page at once and
 no page is ever shared; the lazy spaces cannot be told from it.
 */
module VmRuns {
  import opened Sma
  import opened VmState
  import opened VmFault
  import opened VmSpaces
  import opened VmRights

  /** f is the frame phys_alloc finds if the step asks for one. */
  datatype Event =
    | Create(s: nat)
    | MapBlock(s: nat, addr: nat, size: nat, fixed: bool, write: bool, fill: seq<Content>)
    | Read(k: Key, f: Option<nat>)
    | Write(k: Key, off: nat, b: int, f: Option<nat>)
    | ForkSpace(s: nat, d: nat)
    | ExitSpace(s: nat)

  /** What a process sees of a step; Refused is a load or store that the kernel does not let through. */
  datatype Seen = Nothing | Bytes(c: Content) | Placed(at: Option<Block>) | Stored | Refused

  // ---- the lazy spaces ------------------------------------------------------------------------

  /**
   The step can be taken: spaces exist where they must, a frame is there if one is needed, hints
   are followed only where they fit, and no store goes through an entry whose RW bit the mapping
   does not grant.
   */
  ghost predicate Enabled(vm: Vm, ev: Event) {
    match ev
    case Create(s) => s !in vm.areas
    case MapBlock(s, addr, size, fixed, _, fill) => CanMap(vm, s, addr, size, fixed, fill)
    case Read(k, f) => k in vm.pt || Supplied(vm, k, false, f)
    case Write(k, _, _, f) => if k in vm.pt && vm.pt[k].rw then Writable(vm, k) else Supplied(vm, k, true, f)
    case ForkSpace(s, d) => s in vm.areas && d !in vm.areas
    case ExitSpace(s) => s in vm.areas
  }

  /** A load: through the entry if it is present, else after the fault. */
  function ReadStep(vm: Vm, k: Key, f: Option<nat>): (r: (Vm, Seen)) {
    if k in vm.pt then (vm, Bytes(Loaded(vm, k)))
    else
      var (v, ok) := Fault(vm, k, false, f);
      if ok && k in v.pt then (v, Bytes(Loaded(v, k))) else (v, Refused)
  }

  function WriteStep(vm: Vm, k: Key, off: nat, b: int, f: Option<nat>): (r: (Vm, Seen)) {
    if k in vm.pt && vm.pt[k].rw then (Store(vm, k, off, b), Stored)
    else
      var (v, ok) := Fault(vm, k, true, f);
      if ok && k in v.pt then (Store(v, k, off, b), Stored) else (v, Refused)
  }

  ghost function Step(vm: Vm, ev: Event): (r: (Vm, Seen))
    requires Enabled(vm, ev)
  {
    match ev
    case Create(s) => (Spawn(vm, s), Nothing)
    case MapBlock(s, addr, size, fixed, write, fill) =>
      var (v, b) := Map(vm, s, addr, size, fixed, write, fill);
      (v, Placed(b))
    case Read(k, f) => ReadStep(vm, k, f)
    case Write(k, off, b, f) => WriteStep(vm, k, off, b, f)
    case ForkSpace(s, d) =>
      var r := Fork(vm, s, d);
      (if r.Some? then r.value else vm, Nothing)
    case ExitSpace(s) => (Teardown(vm, s), Nothing)
  }

  // ---- the copying reference --------------------------------------------------------------------

  /** For each space and page its content and whether it may be stored to, and each space's blocks. */
  datatype Eager = Eager(mem: Key -> Option<Content>, write: Key -> bool, areas: map<nat, Area>)

  /** The pages of block b in space s get the values of new; all others keep theirs. */
  function Over<T>(old': Key -> T, s: nat, b: Block, new': nat -> T): Key -> T {
    (k: Key) => if k.owner == s && b.Has(k.at) then new'(k.at - b.start) else old'(k)
  }

  function FillAt(fill: seq<Content>): nat -> Option<Content> {
    (i: nat) => if i < |fill| then Some(fill[i]) else None
  }

  function EagerMap(e: Eager, s: nat, addr: nat, size: nat, fixed: bool, write: bool, fill: seq<Content>): (r: (Eager, Seen))
    requires s in e.areas
  {
    var (a, b) := Alloc(e.areas[s], addr, size, fixed);
    if b.None? then (e, Placed(None))
    else (Eager(Over(e.mem, s, b.value, FillAt(fill)), Over(e.write, s, b.value, _ => write), e.areas[s := a]), Placed(b))
  }

  function EagerWrite(e: Eager, k: Key, off: nat, b: int): (r: (Eager, Seen)) {
    if e.write(k) && e.mem(k).Some? then
      (e.(mem := (x: Key) => if x == k then Some(Poke(e.mem(k).value, off, b)) else e.mem(x)), Stored)
    else (e, Refused)
  }

  /** Every page of s, its rights and its blocks, copied to d. */
  function EagerFork(e: Eager, s: nat, d: nat): Eager
    requires s in e.areas
  {
    Eager((k: Key) => if k.owner == d then e.mem(Key(s, k.at)) else e.mem(k),
          (k: Key) => if k.owner == d then e.write(Key(s, k.at)) else e.write(k),
          e.areas[d := Refilled(Created(USER_START, USER_SIZE, ADDRESSES), e.areas[s].used)])
  }

  function EagerExit(e: Eager, s: nat): Eager {
    Eager((k: Key) => if k.owner == s then None else e.mem(k), (k: Key) => k.owner != s && e.write(k), e.areas - {s})
  }

  /** The same step on copying memory, which has no page table, no frames and no reference counts. */
  function EagerStep(e: Eager, ev: Event): (r: (Eager, Seen)) {
    match ev
    case Create(s) => (e.(areas := e.areas[s := Created(USER_START, USER_SIZE, ADDRESSES)]), Nothing)
    case MapBlock(s, addr, size, fixed, write, fill) =>
      if s in e.areas then EagerMap(e, s, addr, size, fixed, write, fill) else (e, Nothing)
    case Read(k, _) => (e, if e.mem(k).Some? then Bytes(e.mem(k).value) else Refused)
    case Write(k, off, b, _) => EagerWrite(e, k, off, b)
    case ForkSpace(s, d) => (if s in e.areas then EagerFork(e, s, d) else e, Nothing)
    case ExitSpace(s) => (EagerExit(e, s), Nothing)
  }

  ghost predicate SameAt(vm: Vm, e: Eager, k: Key) {
    View(vm, k) == e.mem(k) && Writable(vm, k) == e.write(k)
  }

  ghost predicate Same(vm: Vm, e: Eager) {
    vm.areas == e.areas && forall k {:trigger SameAt(vm, e, k)} :: SameAt(vm, e, k)
  }

  // ---- one step -------------------------------------------------------------------------------------

  lemma ReadGood(vm: Vm, k: Key, f: Option<nat>)
    requires Inv(vm) && Enabled(vm, Read(k, f))
    ensures var (v, seen) := ReadStep(vm, k, f);
            && Inv(v) && (forall x :: View(v, x) == View(vm, x)) && v.areas == vm.areas && v.maps == vm.maps
            && seen == if View(vm, k).Some? then Bytes(View(vm, k).value) else Refused
  {
    hide Core, View, Fault, Tiled, Loaded, Supplied;
    if k in vm.pt {
      LoadIsView(vm, k);
    } else {
      FaultGood(vm, k, false, f);
      var v := Fault(vm, k, false, f).0;
      if k in v.pt {
        LoadIsView(v, k);
      }
    }
  }

  lemma WriteGood(vm: Vm, k: Key, off: nat, b: int, f: Option<nat>)
    requires Inv(vm) && Enabled(vm, Write(k, off, b, f))
    ensures var (v, seen) := WriteStep(vm, k, off, b, f);
            && Inv(v) && v.areas == vm.areas && v.maps == vm.maps
            && (seen == if Writable(vm, k) && View(vm, k).Some? then Stored else Refused)
            && forall x :: View(v, x) == if x == k && Writable(vm, k) && View(vm, k).Some?
                                         then Some(Poke(View(vm, k).value, off, b)) else View(vm, x)
  {
    hide Core, View, Fault, Tiled, Loaded, Store, Writable, Supplied;
    if k in vm.pt && vm.pt[k].rw {
      StoreGood(vm, k, off, b);
    } else {
      FaultGood(vm, k, true, f);
      var (v, ok) := Fault(vm, k, true, f);
      if ok {
        SameCells(vm, v);
        StoreGood(v, k, off, b);
      }
    }
  }

  lemma StoreGood(vm: Vm, k: Key, off: nat, b: int)
    requires Inv(vm) && k in vm.pt && vm.pt[k].rw && Writable(vm, k)
    ensures var v := Store(vm, k, off, b);
            && Inv(v) && View(vm, k).Some? && v.areas == vm.areas && v.maps == vm.maps
            && forall x :: View(v, x) == if x == k then Some(Poke(View(vm, k).value, off, b)) else View(vm, x)
  {
    hide Core, View, Tiled, Loaded, Writable;
    StoreCore(vm, k, off, b);
    LoadIsView(vm, k);
    forall x ensures View(Store(vm, k, off, b), x) == if x == k then Some(Poke(View(vm, k).value, off, b)) else View(vm, x) {
      StoreIsolated(vm, k, off, b, x);
    }
  }

  /**
   The exact condition on a store: it does what copying memory does unless the entry has an RW bit
   that the mapping does not grant, and then it is let through where copying memory refuses it.
   */
  lemma WriteExact(vm: Vm, e: Eager, k: Key, off: nat, b: int, f: Option<nat>)
    requires Inv(vm) && Same(vm, e) && (!(k in vm.pt && vm.pt[k].rw) ==> Supplied(vm, k, true, f))
    ensures WriteStep(vm, k, off, b, f).1 == EagerWrite(e, k, off, b).1 <==> !(k in vm.pt && vm.pt[k].rw && !Writable(vm, k))
  {
    hide Inv, View, Fault, Store, Writable, Supplied;
    assert SameAt(vm, e, k);
    if !(k in vm.pt && vm.pt[k].rw && !Writable(vm, k)) {
      WriteGood(vm, k, off, b, f);
    }
  }

  lemma CreateRefines(vm: Vm, e: Eager, s: nat)
    requires Inv(vm) && Same(vm, e) && s !in vm.areas
    ensures Same(Spawn(vm, s), EagerStep(e, Create(s)).0)
  {
    hide Inv, View, Writable;
    SpawnGood(vm, s);
    SpawnRights(vm, s);
    forall k ensures SameAt(Spawn(vm, s), EagerStep(e, Create(s)).0, k) {
      assert SameAt(vm, e, k);
    }
  }

  lemma MapRefines(vm: Vm, e: Eager, ev: Event)
    requires Inv(vm) && Same(vm, e) && ev.MapBlock? && Enabled(vm, ev)
    ensures Same(Step(vm, ev).0, EagerStep(e, ev).0) && Step(vm, ev).1 == EagerStep(e, ev).1
  {
    hide Inv, View, Writable, Map, HintOk, Alloc;
    MapGood(vm, ev.s, ev.addr, ev.size, ev.fixed, ev.write, ev.fill);
    MapRights(vm, ev.s, ev.addr, ev.size, ev.fixed, ev.write, ev.fill);
    var (a, b) := Alloc(vm.areas[ev.s], ev.addr, ev.size, ev.fixed);
    if b.None? {
      RefusedArea(vm.areas[ev.s], ev.addr, ev.size, ev.fixed);
      assert vm.areas[ev.s := a] == vm.areas;
    }
    forall k ensures SameAt(Step(vm, ev).0, EagerStep(e, ev).0, k) {
      assert SameAt(vm, e, k);
    }
  }

  lemma AccessRefines(vm: Vm, e: Eager, ev: Event)
    requires Inv(vm) && Same(vm, e) && (ev.Read? || ev.Write?) && Enabled(vm, ev)
    ensures Same(Step(vm, ev).0, EagerStep(e, ev).0) && Step(vm, ev).1 == EagerStep(e, ev).1
  {
    hide Inv, View, Writable, ReadStep, WriteStep;
    assert SameAt(vm, e, ev.k);
    if ev.Read? {
      ReadGood(vm, ev.k, ev.f);
    } else {
      WriteGood(vm, ev.k, ev.off, ev.b, ev.f);
    }
    SameCells(vm, Step(vm, ev).0);
    forall k ensures SameAt(Step(vm, ev).0, EagerStep(e, ev).0, k) {
      assert SameAt(vm, e, k);
    }
  }

  lemma ForkRefines(vm: Vm, e: Eager, s: nat, d: nat)
    requires Inv(vm) && Same(vm, e) && s in vm.areas && d !in vm.areas
    ensures Same(Step(vm, ForkSpace(s, d)).0, EagerStep(e, ForkSpace(s, d)).0)
  {
    hide Inv, View, Writable, Fork;
    ForkGood(vm, s, d);
    ForkRights(vm, s, d);
    forall k ensures SameAt(Step(vm, ForkSpace(s, d)).0, EagerStep(e, ForkSpace(s, d)).0, k) {
      assert SameAt(vm, e, k) && SameAt(vm, e, Key(s, k.at));
    }
  }

  lemma ExitRefines(vm: Vm, e: Eager, s: nat)
    requires Inv(vm) && Same(vm, e) && s in vm.areas
    ensures Same(Teardown(vm, s), EagerStep(e, ExitSpace(s)).0)
  {
    hide View, Writable, Teardown, Core, Tiled;
    TeardownGood(vm, s);
    TeardownRights(vm, s);
    forall k ensures SameAt(Teardown(vm, s), EagerStep(e, ExitSpace(s)).0, k) {
      assert SameAt(vm, e, k);
    }
  }

  /** One step keeps the two machines alike, and the process sees the same of it on both. */
  lemma StepRefines(vm: Vm, e: Eager, ev: Event)
    requires Inv(vm) && Same(vm, e) && Enabled(vm, ev)
    ensures Inv(Step(vm, ev).0) && Same(Step(vm, ev).0, EagerStep(e, ev).0)
    ensures Step(vm, ev).1 == EagerStep(e, ev).1
  {
    hide Inv, Same, Map, Fork, Teardown, ReadStep, WriteStep, Spawn, EagerMap, EagerWrite;
    StepInv(vm, ev);
    match ev
    case Create(s) => CreateRefines(vm, e, s);
    case MapBlock(_, _, _, _, _, _) => MapRefines(vm, e, ev);
    case Read(_, _) => AccessRefines(vm, e, ev);
    case Write(_, _, _, _) => AccessRefines(vm, e, ev);
    case ForkSpace(s, d) => ForkRefines(vm, e, s, d);
    case ExitSpace(s) => ExitRefines(vm, e, s);
  }

  lemma StepInv(vm: Vm, ev: Event)
    requires Inv(vm) && Enabled(vm, ev)
    ensures Inv(Step(vm, ev).0)
  {
    hide Inv, View, Map, Fork, Teardown, ReadStep, WriteStep, Spawn, Writable;
    match ev
    case Create(s) => SpawnGood(vm, s);
    case MapBlock(s, addr, size, fixed, write, fill) => MapGood(vm, s, addr, size, fixed, write, fill);
    case Read(k, f) => ReadGood(vm, k, f);
    case Write(k, off, b, f) => WriteGood(vm, k, off, b, f);
    case ForkSpace(s, d) => ForkGood(vm, s, d);
    case ExitSpace(s) => ExitGood(vm, s);
  }

  // ---- whole runs ------------------------------------------------------------------------------------

  /** A run in which every step can be taken. */
  ghost predicate Possible(vm: Vm, run: seq<Event>)
    decreases |run|
  {
    run == [] || (Enabled(vm, run[0]) && Possible(Step(vm, run[0]).0, run[1..]))
  }

  /** At every step of the run the process sees what it would see with copying memory. */
  ghost predicate Indistinguishable(vm: Vm, e: Eager, run: seq<Event>)
    requires Possible(vm, run)
    decreases |run|
  {
    run == [] ||
    (&& Step(vm, run[0]).1 == EagerStep(e, run[0]).1
     && Indistinguishable(Step(vm, run[0]).0, EagerStep(e, run[0]).0, run[1..]))
  }

  /** Lazy fork and faults cannot be told from copying at every fork, whatever the run and the frames used. */
  lemma {:induction false} LazyIsEager(vm: Vm, e: Eager, run: seq<Event>)
    requires Inv(vm) && Same(vm, e) && Possible(vm, run)
    ensures Indistinguishable(vm, e, run)
    decreases |run|
  {
    hide Inv, Same, Step, Enabled, EagerStep;
    if run != [] {
      StepRefines(vm, e, run[0]);
      LazyIsEager(Step(vm, run[0]).0, EagerStep(e, run[0]).0, run[1..]);
    }
  }

  ghost function After(vm: Vm, run: seq<Event>): Vm
    requires Possible(vm, run)
    decreases |run|
  {
    if run == [] then vm else After(Step(vm, run[0]).0, run[1..])
  }

  /** Counts, frames and page tables are in order after every run. */
  lemma {:induction false} RunInv(vm: Vm, run: seq<Event>)
    requires Inv(vm) && Possible(vm, run)
    ensures Inv(After(vm, run))
    decreases |run|
  {
    hide Inv, Step, Enabled;
    if run != [] {
      StepInv(vm, run[0]);
      RunInv(Step(vm, run[0]).0, run[1..]);
    }
  }

  function NoMemory(): Eager {
    Eager((k: Key) => None, (k: Key) => false, map[])
  }

  /** From boot on, for any run: what each process sees is what copying would show it. */
  lemma BootRefines(vm: Vm, run: seq<Event>)
    requires Boot(vm) && Possible(vm, run)
    ensures Indistinguishable(vm, NoMemory(), run) && Inv(After(vm, run))
  {
    BootInv(vm);
    forall k ensures SameAt(vm, NoMemory(), k) {
    }
    LazyIsEager(vm, NoMemory(), run);
    RunInv(vm, run);
  }
}
