/**
 The frames behind the page tables themselves: one for the directory of each space and one for
 each table that was needed.  Ending a space gives the tables back, and not the directory.
 */
module Aspaces {
  import opened Sma

  /** PGDIR_ENTRY(LOWMEM_START): the directory entries below it are the user's. */
  const USER_ENTRIES: nat := 768

  /** tables holds the frame of each present user entry; the kernel's entries are shared and never freed. */
  datatype Aspace = Aspace(dir: nat, tables: map<nat, nat>)

  /** lost collects the frames that nothing names any more. */
  datatype Frames = Frames(free: set<nat>, spaces: map<nat, Aspace>, lost: set<nat>)

  /** What a frame is used for: the directory of a space, or its table at an entry. */
  datatype Use = Dir(s: nat) | Table(s: nat, e: nat)

  predicate Used(m: Frames, u: Use) {
    u.s in m.spaces && (u.Table? ==> u.e in m.spaces[u.s].tables)
  }

  function FrameOf(m: Frames, u: Use): nat
    requires Used(m, u)
  {
    if u.Dir? then m.spaces[u.s].dir else m.spaces[u.s].tables[u.e]
  }

  /** A frame in use is neither free nor lost; a table stands in the user's half of its directory. */
  ghost predicate UseAt(m: Frames, u: Use) {
    Used(m, u) ==> FrameOf(m, u) !in m.free && FrameOf(m, u) !in m.lost && (u.Table? ==> u.e < USER_ENTRIES)
  }

  ghost predicate Apart(m: Frames, u: Use, v: Use) {
    Used(m, u) && Used(m, v) && u != v ==> FrameOf(m, u) != FrameOf(m, v)
  }

  ghost predicate Inv(m: Frames) {
    && m.free !! m.lost
    && (forall u {:trigger UseAt(m, u)} :: UseAt(m, u))
    && (forall u, v {:trigger Apart(m, u, v)} :: Apart(m, u, v))
  }

  /** The frames of a space's tables. */
  function Tables(a: Aspace): set<nat> {
    set e | e in a.tables && e < USER_ENTRIES :: a.tables[e]
  }

  ghost function InUse(m: Frames): set<nat> {
    (set s | s in m.spaces :: m.spaces[s].dir)
    + (set s, e | s in m.spaces && e in m.spaces[s].tables :: m.spaces[s].tables[e])
  }

  ghost function All(m: Frames): set<nat> {
    m.free + InUse(m) + m.lost
  }

  // ---- the operations ------------------------------------------------------------------------

  /** paging_create_aspace; f is what phys_alloc finds. */
  function Begin(m: Frames, s: nat, f: Option<nat>): Frames {
    if f.None? then m else m.(free := m.free - {f.value}, spaces := m.spaces[s := Aspace(f.value, map[])])
  }

  /** paging_map_page of a user address, as far as it takes a frame for a table. */
  function Touch(m: Frames, s: nat, e: nat, f: Option<nat>): Frames
    requires s in m.spaces
  {
    var a := m.spaces[s];
    if e in a.tables || f.None? then m
    else m.(free := m.free - {f.value}, spaces := m.spaces[s := a.(tables := a.tables[e := f.value])])
  }

  /** paging_destroy_aspace */
  function End(m: Frames, s: nat): Frames
    requires s in m.spaces
  {
    m.(free := m.free + Tables(m.spaces[s]), spaces := m.spaces - {s}, lost := m.lost + {m.spaces[s].dir})
  }

  datatype Op = BeginOp(s: nat, f: Option<nat>) | TouchOp(s: nat, e: nat, f: Option<nat>) | EndOp(s: nat)

  ghost predicate Enabled(m: Frames, op: Op) {
    match op
    case BeginOp(s, f) => s !in m.spaces && (f.Some? ==> f.value in m.free)
    case TouchOp(s, e, f) => s in m.spaces && e < USER_ENTRIES && (f.Some? ==> f.value in m.free)
    case EndOp(s) => s in m.spaces
  }

  function Step(m: Frames, op: Op): Frames
    requires Enabled(m, op)
  {
    match op
    case BeginOp(s, f) => Begin(m, s, f)
    case TouchOp(s, e, f) => Touch(m, s, e, f)
    case EndOp(s) => End(m, s)
  }

  lemma BeginInv(m: Frames, s: nat, f: Option<nat>)
    requires Inv(m) && Enabled(m, BeginOp(s, f))
    ensures Inv(Begin(m, s, f)) && All(Begin(m, s, f)) == All(m)
  {
    var r := Begin(m, s, f);
    forall u ensures UseAt(r, u) { assert UseAt(m, u); }
    forall u, v ensures Apart(r, u, v) { assert Apart(m, u, v) && UseAt(m, u) && UseAt(m, v); }
    if f.Some? {
      assert r.spaces[s].dir == f.value && forall t :: t in m.spaces ==> t in r.spaces && r.spaces[t] == m.spaces[t];
      assert InUse(r) == InUse(m) + {f.value};
    }
  }

  lemma TouchInv(m: Frames, s: nat, e: nat, f: Option<nat>)
    requires Inv(m) && Enabled(m, TouchOp(s, e, f))
    ensures Inv(Touch(m, s, e, f)) && All(Touch(m, s, e, f)) == All(m)
  {
    var r := Touch(m, s, e, f);
    forall u ensures UseAt(r, u) { assert UseAt(m, u); }
    forall u, v ensures Apart(r, u, v) { assert Apart(m, u, v) && UseAt(m, u) && UseAt(m, v); }
    if r != m {
      assert r.spaces[s].tables[e] == f.value;
      assert forall t :: t in m.spaces ==> t in r.spaces && r.spaces[t].dir == m.spaces[t].dir;
      assert forall t, x :: t in m.spaces && x in m.spaces[t].tables ==>
        x in r.spaces[t].tables && r.spaces[t].tables[x] == m.spaces[t].tables[x];
      assert InUse(r) == InUse(m) + {f.value};
    }
  }

  /** Ending a space frees its tables and loses its directory, a frame that was not lost before. */
  lemma EndInv(m: Frames, s: nat)
    requires Inv(m) && s in m.spaces
    ensures var r := End(m, s);
      Inv(r) && All(r) == All(m) && r.lost == m.lost + {m.spaces[s].dir} && m.spaces[s].dir !in m.lost
  {
    var r, a := End(m, s), m.spaces[s];
    assert UseAt(m, Dir(s));
    forall x | x in Tables(a) ensures x != a.dir && x !in m.lost {
      var e :| e in a.tables && e < USER_ENTRIES && a.tables[e] == x;
      assert UseAt(m, Table(s, e)) && Apart(m, Dir(s), Table(s, e));
    }
    forall u ensures UseAt(r, u) { EndUse(m, s, u); }
    forall u, v ensures Apart(r, u, v) { assert Apart(m, u, v); }
    EndFrames(m, s);
  }

  lemma EndUse(m: Frames, s: nat, u: Use)
    requires Inv(m) && s in m.spaces
    ensures UseAt(End(m, s), u)
  {
    var r, a := End(m, s), m.spaces[s];
    assert UseAt(m, u) && Apart(m, u, Dir(s));
    if Used(r, u) {
      forall e | e in a.tables && e < USER_ENTRIES ensures a.tables[e] != FrameOf(m, u) {
        assert Apart(m, u, Table(s, e));
      }
    }
  }

  lemma EndFrames(m: Frames, s: nat)
    requires Inv(m) && s in m.spaces
    ensures InUse(m) == InUse(End(m, s)) + Tables(m.spaces[s]) + {m.spaces[s].dir}
  {
    var r, a := End(m, s), m.spaces[s];
    forall e | e in a.tables ensures a.tables[e] in Tables(a) {
      assert UseAt(m, Table(s, e));
    }
    forall t | t in m.spaces && t != s ensures t in r.spaces && r.spaces[t] == m.spaces[t] {
    }
    forall x ensures x in InUse(m) <==> x in InUse(r) + Tables(a) + {a.dir} {
    }
  }

  // ---- runs -------------------------------------------------------------------------------------

  ghost predicate Possible(m: Frames, run: seq<Op>)
    decreases |run|
  {
    run == [] || (Enabled(m, run[0]) && Possible(Step(m, run[0]), run[1..]))
  }

  ghost function After(m: Frames, run: seq<Op>): Frames
    requires Possible(m, run)
    decreases |run|
  {
    if run == [] then m else After(Step(m, run[0]), run[1..])
  }

  /** How many spaces the run ends. */
  function Ended(run: seq<Op>): nat {
    if run == [] then 0 else (if run[0].EndOp? then 1 else 0) + Ended(run[1..])
  }

  /** Over any run each space that ends loses exactly one frame, and nothing else is lost. */
  lemma {:induction false} RunLoses(m: Frames, run: seq<Op>)
    requires Inv(m) && Possible(m, run)
    ensures var r := After(m, run); Inv(r) && All(r) == All(m) && |r.lost| == |m.lost| + Ended(run)
    decreases |run|
  {
    hide Inv, All, Begin, Touch, Tables;
    if run != [] {
      match run[0] {
        case BeginOp(s, f) => BeginInv(m, s, f); KeepsLost(m, run[0]);
        case TouchOp(s, e, f) => TouchInv(m, s, e, f); KeepsLost(m, run[0]);
        case EndOp(s) => EndInv(m, s);
      }
      RunLoses(Step(m, run[0]), run[1..]);
    }
  }

  lemma KeepsLost(m: Frames, op: Op)
    requires Enabled(m, op) && !op.EndOp?
    ensures Step(m, op).lost == m.lost
  {
  }

  /** From boot until the last space has ended: as many frames are gone as spaces have ended. */
  lemma DirectoriesLeak(m: Frames, run: seq<Op>)
    requires m.spaces == map[] && m.lost == {} && Possible(m, run) && After(m, run).spaces == map[]
    ensures |After(m, run).free| + Ended(run) == |m.free|
  {
    var r := After(m, run);
    RunLoses(m, run);
    assert InUse(m) == {} && InUse(r) == {};
    assert m.free == r.free + r.lost && r.free !! r.lost;
  }

  class PageTables {
    var free: set<nat>
    var spaces: map<nat, Aspace>
    /** Only the proofs look at it. */
    ghost var lost: set<nat>

    ghost function Value(): Frames
      reads this
    {
      Frames(free, spaces, lost)
    }

    /** paging_create_aspace */
    method CreateAspace(s: nat, f: Option<nat>) returns (ok: bool)
      modifies this
      ensures ok == f.Some? && Value() == Begin(old(Value()), s, f)
    {
      ok := f.Some?;
      if ok {
        free := free - {f.value};
        spaces := spaces[s := Aspace(f.value, map[])];
      }
    }

    /** paging_destroy_aspace, with its loop over the user's entries. */
    method DestroyAspace(s: nat)
      requires s in spaces
      modifies this
      ensures Value() == End(old(Value()), s)
    {
      var a := spaces[s];
      var i := 0;
      while i < USER_ENTRIES
        invariant i <= USER_ENTRIES && spaces == old(spaces) && lost == old(lost)
        invariant free == old(free) + set e | e in a.tables && e < i :: a.tables[e]
      {
        if i in a.tables {
          free := free + {a.tables[i]};
        }
        i := i + 1;
      }
      spaces := spaces - {s};
      lost := lost + {a.dir};
    }
  }
}
