/** Descriptor tables: open files shared between slots and processes, and pipes behind them. */
module Files {
  import opened Sets

  const OPEN_MAX: nat := 64

  datatype Slot = Slot(proc: nat, fd: nat)

  /** An ordinary file, or one end of a pipe. */
  datatype Kind = Plain | PipeEnd(pipe: nat)

  datatype File = File(refs: nat, kind: Kind)

  /** Slots that hold NULL are absent; pipes maps a pipe to its reference count. */
  datatype Table = Table(slots: map<Slot, nat>, files: map<nat, File>, pipes: map<nat, nat>, procs: set<nat>, next: nat)

  ghost function Holders(slots: map<Slot, nat>, f: nat): set<Slot> {
    set k | k in slots && slots[k] == f
  }

  /** The files that are still-open ends of a pipe. */
  ghost function Ends(files: map<nat, File>, p: nat): set<nat> {
    set f | f in files && files[f].kind == PipeEnd(p)
  }

  ghost predicate SlotAt(t: Table, k: Slot) {
    k in t.slots ==> t.slots[k] in t.files && k.fd < OPEN_MAX && k.proc in t.procs
  }

  /** A file counts the slots of all processes that name it, and lives while there is one. */
  ghost predicate FileAt(t: Table, f: nat) {
    f in t.files ==>
      && t.files[f].refs == |Holders(t.slots, f)| && t.files[f].refs > 0 && f < t.next
      && (t.files[f].kind.PipeEnd? ==> t.files[f].kind.pipe in t.pipes)
  }

  /** A pipe counts its open ends. */
  ghost predicate PipeAt(t: Table, p: nat) {
    p in t.pipes ==> t.pipes[p] == |Ends(t.files, p)| && p < t.next
  }

  ghost predicate Inv(t: Table) {
    && (forall k {:trigger SlotAt(t, k)} :: SlotAt(t, k))
    && (forall f {:trigger FileAt(t, f)} :: FileAt(t, f))
    && (forall p {:trigger PipeAt(t, p)} :: PipeAt(t, p))
  }

  // ---- one slot at a time -------------------------------------------------------------------

  /** A slot names a file that is open already. */
  function Share(t: Table, k: Slot, f: nat): Table
    requires f in t.files
  {
    t.(slots := t.slots[k := f], files := t.files[f := t.files[f].(refs := t.files[f].refs + 1)])
  }

  /** A slot names a new file. */
  function Install(t: Table, k: Slot, kind: Kind): Table {
    t.(slots := t.slots[k := t.next], files := t.files[t.next := File(1, kind)], next := t.next + 1)
  }

  /** A file loses its last name; an end of a pipe releases the pipe. */
  function Released(t: Table, f: nat): Table
    requires f in t.files
  {
    var kind := t.files[f].kind;
    var t1 := t.(files := t.files - {f});
    if kind.PipeEnd? && kind.pipe in t.pipes && t.pipes[kind.pipe] > 0
    then t1.(pipes := t.pipes[kind.pipe := t.pipes[kind.pipe] - 1])
    else t1
  }

  /** sys_close of an open slot. */
  function Drop(t: Table, k: Slot): Table
    requires k in t.slots && t.slots[k] in t.files
  {
    var f := t.slots[k];
    var t1 := t.(slots := t.slots - {k});
    if t.files[f].refs <= 1 then Released(t1, f)
    else t1.(files := t.files[f := t.files[f].(refs := t.files[f].refs - 1)])
  }

  lemma HoldersGain(slots: map<Slot, nat>, k: Slot, f: nat, g: nat)
    requires k !in slots
    ensures Holders(slots[k := f], g) == (if g == f then Holders(slots, g) + {k} else Holders(slots, g))
    ensures k !in Holders(slots, g)
  {
  }

  lemma HoldersLose(slots: map<Slot, nat>, k: Slot, g: nat)
    requires k in slots
    ensures Holders(slots - {k}, g) == Holders(slots, g) - {k}
    ensures k in Holders(slots, g) <==> slots[k] == g
  {
  }

  /** Changing a file's count leaves the ends of every pipe. */
  lemma EndsSame(files: map<nat, File>, f: nat, n: nat, p: nat)
    requires f in files
    ensures Ends(files[f := files[f].(refs := n)], p) == Ends(files, p)
  {
  }

  lemma ShareInv(t: Table, k: Slot, f: nat)
    requires Inv(t) && f in t.files && k !in t.slots && k.fd < OPEN_MAX && k.proc in t.procs
    ensures Inv(Share(t, k, f))
  {
    hide Holders, Ends;
    var r := Share(t, k, f);
    forall x ensures SlotAt(r, x) { assert SlotAt(t, x); }
    forall g ensures FileAt(r, g) {
      assert FileAt(t, g);
      HoldersGain(t.slots, k, f, g);
    }
    forall p ensures PipeAt(r, p) {
      assert PipeAt(t, p);
      EndsSame(t.files, f, t.files[f].refs + 1, p);
    }
  }

  lemma NextUnused(t: Table)
    requires Inv(t)
    ensures t.next !in t.files && t.next !in t.pipes && Holders(t.slots, t.next) == {}
    ensures Ends(t.files, t.next) == {}
  {
    assert FileAt(t, t.next) && PipeAt(t, t.next);
    forall k | k in t.slots ensures t.slots[k] != t.next { assert SlotAt(t, k) && FileAt(t, t.slots[k]); }
    forall f | f in t.files ensures t.files[f].kind != PipeEnd(t.next) {
      assert FileAt(t, f);
      if t.files[f].kind.PipeEnd? {
        assert PipeAt(t, t.files[f].kind.pipe);
      }
    }
  }

  lemma EndsGain(files: map<nat, File>, f: nat, x: File, p: nat)
    requires f !in files
    ensures Ends(files[f := x], p) == (if x.kind == PipeEnd(p) then Ends(files, p) + {f} else Ends(files, p))
    ensures f !in Ends(files, p)
  {
  }

  /** A new plain file keeps the counts; a new end makes its pipe one short until it is counted. */
  lemma InstallInv(t: Table, k: Slot, kind: Kind)
    requires Inv(t) && k !in t.slots && k.fd < OPEN_MAX && k.proc in t.procs && kind == Plain
    ensures Inv(Install(t, k, kind))
  {
    hide Holders, Ends;
    NextUnused(t);
    var r := Install(t, k, kind);
    forall x ensures SlotAt(r, x) { assert SlotAt(t, x); }
    forall g ensures FileAt(r, g) {
      assert FileAt(t, g);
      HoldersGain(t.slots, k, t.next, g);
    }
    forall p ensures PipeAt(r, p) {
      assert PipeAt(t, p);
      EndsGain(t.files, t.next, File(1, kind), p);
    }
  }

  lemma EndsLose(files: map<nat, File>, f: nat, p: nat)
    requires f in files
    ensures Ends(files - {f}, p) == Ends(files, p) - {f}
    ensures f in Ends(files, p) <==> files[f].kind == PipeEnd(p)
  {
  }

  lemma DropFile(t: Table, k: Slot, g: nat)
    requires Inv(t) && k in t.slots && t.slots[k] in t.files
    ensures FileAt(Drop(t, k), g)
  {
    hide Holders, Ends;
    assert FileAt(t, g) && FileAt(t, t.slots[k]);
    HoldersLose(t.slots, k, g);
  }

  lemma DropPipe(t: Table, k: Slot, p: nat)
    requires Inv(t) && k in t.slots && t.slots[k] in t.files
    ensures PipeAt(Drop(t, k), p)
  {
    hide Holders, Ends;
    var f := t.slots[k];
    assert PipeAt(t, p) && FileAt(t, f);
    EndsLose(t.files, f, p);
    EndsSame(t.files, f, if t.files[f].refs > 0 then t.files[f].refs - 1 else 0, p);
    if t.files[f].kind.PipeEnd? {
      assert PipeAt(t, t.files[f].kind.pipe);
      EndsLose(t.files, f, t.files[f].kind.pipe);
    }
  }

  lemma DropInv(t: Table, k: Slot)
    requires Inv(t) && k in t.slots
    ensures t.slots[k] in t.files && Inv(Drop(t, k))
  {
    hide Holders, Ends;
    assert SlotAt(t, k);
    var r, f := Drop(t, k), t.slots[k];
    assert FileAt(t, f);
    forall x ensures SlotAt(r, x) {
      assert SlotAt(t, x);
      if x in t.slots && x != k && t.slots[x] == f && t.files[f].refs == 1 {
        OnlyHolder(t, k, x);
      }
    }
    forall g ensures FileAt(r, g) { DropFile(t, k, g); }
    forall p ensures PipeAt(r, p) { DropPipe(t, k, p); }
  }

  lemma OnlyHolder(t: Table, k: Slot, x: Slot)
    requires Inv(t) && k in t.slots && x in t.slots && t.slots[x] == t.slots[k]
    requires t.slots[k] in t.files && t.files[t.slots[k]].refs == 1
    ensures x == k
  {
    var f := t.slots[k];
    assert FileAt(t, f);
    var h := Holders(t.slots, f);
    OnlyElement(h, k, x);
  }

  // ---- the system calls ----------------------------------------------------------------------

  /** The lowest free descriptor from i on, or OPEN_MAX. */
  function FirstFree(t: Table, p: nat, i: nat): (r: nat)
    requires i <= OPEN_MAX
    ensures i <= r <= OPEN_MAX
    ensures forall j :: i <= j < r ==> Slot(p, j) in t.slots
    ensures r < OPEN_MAX ==> Slot(p, r) !in t.slots
    decreases OPEN_MAX - i
  {
    if i == OPEN_MAX || Slot(p, i) !in t.slots then i else FirstFree(t, p, i + 1)
  }

  datatype Result = Fd(fd: nat) | Fds(rd: nat, wr: nat) | BadDescriptor | TooMany | Crash

  predicate IsOpen(t: Table, p: nat, fd: int) {
    0 <= fd < OPEN_MAX && Slot(p, fd) in t.slots && t.slots[Slot(p, fd)] in t.files
  }

  /** The descriptor part of sys_open. */
  function Open(t: Table, p: nat): (Table, Result) {
    var i := FirstFree(t, p, 0);
    if i == OPEN_MAX then (t, TooMany) else (Install(t, Slot(p, i), Plain), Fd(i))
  }

  function Close(t: Table, p: nat, fd: int): (Table, Result) {
    if !IsOpen(t, p, fd) then (t, BadDescriptor) else (Drop(t, Slot(p, fd)), Fd(0))
  }

  /** do_sys_dup; the scan from a negative start looks at words in front of the table. */
  function Dup(t: Table, p: nat, fd: int, start: int): (Table, Result) {
    if !IsOpen(t, p, fd) then (t, BadDescriptor)
    else if start < 0 then (t, Crash)
    else
      var i := if start <= OPEN_MAX then FirstFree(t, p, start) else OPEN_MAX;
      if i == OPEN_MAX then (t, TooMany) else (Share(t, Slot(p, i), t.slots[Slot(p, fd)]), Fd(i))
  }

  /** sys_dup2: the target is closed first, after which a descriptor duplicated onto itself is gone. */
  function Dup2(t: Table, p: nat, fd: int, target: int): (Table, Result) {
    if !IsOpen(t, p, fd) || !(0 <= target < OPEN_MAX) then (t, BadDescriptor)
    else
      var t1 := Close(t, p, target).0;
      if !IsOpen(t1, p, fd) then (t1, Crash)
      else (Share(t1, Slot(p, target), t1.slots[Slot(p, fd)]), Fd(target))
  }

  /** An end of the pipe q, counted by the pipe. */
  function InstallEnd(t: Table, k: Slot, q: nat): Table
    requires q in t.pipes
  {
    var t1 := Install(t, k, PipeEnd(q));
    t1.(pipes := t1.pipes[q := t1.pipes[q] + 1])
  }

  /** sys_pipe: both ends, or nothing changes. */
  function MakePipe(t: Table, p: nat): (Table, Result) {
    var i := FirstFree(t, p, 0);
    if i == OPEN_MAX then (t, TooMany)
    else
      var q := t.next;
      var t1 := InstallEnd(t.(pipes := t.pipes[q := 0], next := q + 1), Slot(p, i), q);
      var j := FirstFree(t1, p, i);
      if j == OPEN_MAX then (t, TooMany) else (InstallEnd(t1, Slot(p, j), q), Fds(i, j))
  }

  /** vfs_clone from descriptor i on. */
  function CloneFrom(t: Table, p: nat, c: nat, i: nat): Table
    decreases OPEN_MAX - i
  {
    if i >= OPEN_MAX then t
    else if Slot(p, i) in t.slots && t.slots[Slot(p, i)] in t.files then
      CloneFrom(Share(t, Slot(c, i), t.slots[Slot(p, i)]), p, c, i + 1)
    else CloneFrom(t, p, c, i + 1)
  }

  /** One round of vfs_clone. */
  function CloneOne(t: Table, p: nat, c: nat, i: nat): Table {
    if Slot(p, i) in t.slots && t.slots[Slot(p, i)] in t.files then Share(t, Slot(c, i), t.slots[Slot(p, i)]) else t
  }

  lemma CloneRound(t: Table, p: nat, c: nat, i: nat)
    ensures CloneFrom(t, p, c, i) == if i < OPEN_MAX then CloneFrom(CloneOne(t, p, c, i), p, c, i + 1) else t
  {
  }

  function Fork(t: Table, p: nat, c: nat): Table {
    CloneFrom(t.(procs := t.procs + {c}), p, c, 0)
  }

  /** vfs_free from descriptor i on. */
  function FreeFrom(t: Table, p: nat, i: nat): Table
    decreases OPEN_MAX - i
  {
    if i >= OPEN_MAX then t
    else if Slot(p, i) in t.slots && t.slots[Slot(p, i)] in t.files then FreeFrom(Drop(t, Slot(p, i)), p, i + 1)
    else FreeFrom(t, p, i + 1)
  }

  /** One round of vfs_free. */
  function FreeOne(t: Table, p: nat, i: nat): Table {
    if Slot(p, i) in t.slots && t.slots[Slot(p, i)] in t.files then Drop(t, Slot(p, i)) else t
  }

  lemma FreeRound(t: Table, p: nat, i: nat)
    ensures FreeFrom(t, p, i) == if i < OPEN_MAX then FreeFrom(FreeOne(t, p, i), p, i + 1) else t
  {
  }

  function Exit(t: Table, p: nat): Table {
    var t1 := FreeFrom(t, p, 0);
    t1.(procs := t1.procs - {p})
  }

  // ---- every call keeps the counts ------------------------------------------------------------

  lemma InstallEndInv(t: Table, k: Slot, q: nat)
    requires Inv(t) && k !in t.slots && k.fd < OPEN_MAX && k.proc in t.procs && q in t.pipes
    ensures Inv(InstallEnd(t, k, q))
  {
    hide Holders, Ends;
    NextUnused(t);
    var r := InstallEnd(t, k, q);
    forall x ensures SlotAt(r, x) { assert SlotAt(t, x); }
    forall g ensures FileAt(r, g) {
      assert FileAt(t, g);
      HoldersGain(t.slots, k, t.next, g);
    }
    forall p ensures PipeAt(r, p) {
      assert PipeAt(t, p);
      EndsGain(t.files, t.next, File(1, PipeEnd(q)), p);
    }
  }

  lemma NewPipeInv(t: Table)
    requires Inv(t)
    ensures Inv(t.(pipes := t.pipes[t.next := 0], next := t.next + 1))
  {
    hide Holders, Ends;
    NextUnused(t);
    var r := t.(pipes := t.pipes[t.next := 0], next := t.next + 1);
    forall x ensures SlotAt(r, x) { assert SlotAt(t, x); }
    forall g ensures FileAt(r, g) { assert FileAt(t, g); }
    forall p ensures PipeAt(r, p) { assert PipeAt(t, p); }
  }

  /** Every descriptor from start on is in use. */
  ghost predicate Full(t: Table, p: nat, start: int) {
    forall j: nat {:trigger Slot(p, j)} :: start <= j < OPEN_MAX ==> Slot(p, j) in t.slots
  }

  /** i is the lowest free descriptor from start on. */
  ghost predicate Lowest(t: Table, p: nat, start: int, i: nat) {
    && start <= i < OPEN_MAX && Slot(p, i) !in t.slots
    && forall j: nat {:trigger Slot(p, j)} :: start <= j < i ==> Slot(p, j) in t.slots
  }

  /** No open file turns into a file of another kind. */
  ghost predicate KindsKept(t: Table, r: Table) {
    forall f :: f in t.files && f in r.files ==> r.files[f].kind == t.files[f].kind
  }

  /** open succeeds exactly while a descriptor is free, and gives the lowest one a new file. */
  lemma OpenInv(t: Table, p: nat)
    requires Inv(t) && p in t.procs
    ensures var (r, res) := Open(t, p);
            && Inv(r) && r.procs == t.procs && KindsKept(t, r)
            && (res == TooMany <==> Full(t, p, 0))
            && (if res == TooMany then r == t
                else
                  && res.Fd? && Lowest(t, p, 0, res.fd) && t.next !in t.files
                  && r.slots == t.slots[Slot(p, res.fd) := t.next]
                  && t.next in r.files && r.files[t.next].kind == Plain)
  {
    hide Inv;
    NextUnused(t);
    var i := FirstFree(t, p, 0);
    if i < OPEN_MAX {
      InstallInv(t, Slot(p, i), Plain);
      assert !Full(t, p, 0);
    }
  }

  /** close takes the one name away, or the descriptor was not open. */
  lemma CloseInv(t: Table, p: nat, fd: int)
    requires Inv(t)
    ensures var (r, res) := Close(t, p, fd);
            && Inv(r) && r.procs == t.procs && KindsKept(t, r)
            && (res == BadDescriptor <==> !IsOpen(t, p, fd)) && (res != BadDescriptor ==> res == Fd(0))
            && (res == BadDescriptor ==> r == t)
            && r.slots == t.slots - {if fd >= 0 then Slot(p, fd) else Slot(p, OPEN_MAX)}
  {
    if IsOpen(t, p, fd) {
      DropInv(t, Slot(p, fd));
    } else {
      var k := if fd >= 0 then Slot(p, fd) else Slot(p, OPEN_MAX);
      assert SlotAt(t, k);
    }
  }

  /**
   dup goes wrong exactly when an open descriptor is to be duplicated from a negative start on.
   Otherwise it succeeds exactly while a descriptor from the start on is free, and the lowest one
   then names the file.
   */
  lemma DupInv(t: Table, p: nat, fd: int, start: int)
    requires Inv(t) && p in t.procs
    ensures var (r, res) := Dup(t, p, fd, start);
            && Inv(r) && r.procs == t.procs && KindsKept(t, r)
            && (res == BadDescriptor <==> !IsOpen(t, p, fd))
            && (res == Crash <==> IsOpen(t, p, fd) && start < 0)
            && (res == TooMany <==> IsOpen(t, p, fd) && start >= 0 && Full(t, p, start))
            && (if res.Fd? then
                  Lowest(t, p, start, res.fd) && r.slots == t.slots[Slot(p, res.fd) := t.slots[Slot(p, fd)]]
                else r == t)
  {
    hide Inv;
    if IsOpen(t, p, fd) && 0 <= start <= OPEN_MAX {
      var i := FirstFree(t, p, start);
      if i < OPEN_MAX {
        ShareInv(t, Slot(p, i), t.slots[Slot(p, fd)]);
        assert !Full(t, p, start);
      }
    }
  }

  /** dup2 crashes exactly when an open descriptor is duplicated onto itself; otherwise the target names the file. */
  lemma Dup2Inv(t: Table, p: nat, fd: int, target: int)
    requires Inv(t) && p in t.procs
    ensures var (r, res) := Dup2(t, p, fd, target);
            && Inv(r) && r.procs == t.procs && KindsKept(t, r)
            && (res == BadDescriptor <==> !IsOpen(t, p, fd) || !(0 <= target < OPEN_MAX))
            && (res == Crash <==> IsOpen(t, p, fd) && fd == target)
            && (res == BadDescriptor ==> r == t)
            && (res != BadDescriptor && res != Crash ==>
                  res == Fd(target) && r.slots == t.slots[Slot(p, target) := t.slots[Slot(p, fd)]])
  {
    hide Inv, Close;
    if IsOpen(t, p, fd) && 0 <= target < OPEN_MAX {
      var t1 := Close(t, p, target).0;
      CloseInv(t, p, target);
      if fd != target {
        StillOpen(t, t1, p, fd);
        ShareInv(t1, Slot(p, target), t1.slots[Slot(p, fd)]);
      }
    }
  }

  lemma StillOpen(t: Table, t1: Table, p: nat, fd: int)
    requires Inv(t1) && IsOpen(t, p, fd) && Slot(p, fd) in t1.slots
    ensures IsOpen(t1, p, fd)
  {
    assert SlotAt(t1, Slot(p, fd));
  }

  predicate FreeFd(t: Table, p: nat, i: nat) {
    i < OPEN_MAX && Slot(p, i) !in t.slots
  }

  /** The descriptors i and j name two new files, the ends of the new pipe q. */
  ghost predicate PipeEnds(t: Table, r: Table, p: nat, i: nat, j: nat, q: nat) {
    && q !in t.pipes && q in r.pipes && r.pipes[q] == 2
    && Slot(p, i) in r.slots && Slot(p, j) in r.slots
    && var a, b := r.slots[Slot(p, i)], r.slots[Slot(p, j)];
       && a != b && a !in t.files && b !in t.files && a in r.files && b in r.files
       && r.files[a].kind == PipeEnd(q) && r.files[b].kind == PipeEnd(q)
       && r.slots == t.slots[Slot(p, i) := a][Slot(p, j) := b]
  }

  lemma InstalledEnd(t: Table, k: Slot, q: nat)
    requires q in t.pipes
    ensures var r := InstallEnd(t, k, q);
            && r.slots == t.slots[k := t.next] && r.files == t.files[t.next := File(1, PipeEnd(q))]
            && r.pipes == t.pipes[q := t.pipes[q] + 1] && r.procs == t.procs && r.next == t.next + 1
  {
  }

  /** With the lowest free descriptor taken, the scan that goes on from it finds the second lowest. */
  lemma SecondFree(t: Table, t1: Table, p: nat, i: nat, x: nat)
    requires i == FirstFree(t, p, 0) && i < OPEN_MAX && t1.slots == t.slots[Slot(p, i) := x]
    ensures var j := FirstFree(t1, p, i);
            && Lowest(t, p, 0, i)
            && (j < OPEN_MAX ==> Lowest(t, p, i + 1, j) && FreeFd(t, p, j) && Slot(p, j) !in t1.slots && j != i)
            && (j == OPEN_MAX ==> forall k: nat :: FreeFd(t, p, k) ==> k == i)
  {
    hide FirstFree;
  }

  /** Both ends of a new pipe, at two free descriptors. */
  lemma TwoEnds(t: Table, p: nat, i: nat, j: nat)
    requires Inv(t) && p in t.procs && FreeFd(t, p, i) && FreeFd(t, p, j) && i != j
    ensures var t1 := InstallEnd(t.(pipes := t.pipes[t.next := 0], next := t.next + 1), Slot(p, i), t.next);
            && t1.slots == t.slots[Slot(p, i) := t.next + 1] && t.next in t1.pipes
            && var r := InstallEnd(t1, Slot(p, j), t.next);
               Inv(r) && r.procs == t.procs && KindsKept(t, r) && PipeEnds(t, r, p, i, j, t.next)
  {
    hide Inv, InstallEnd;
    NextUnused(t);
    NewPipeInv(t);
    var q := t.next;
    var t0 := t.(pipes := t.pipes[q := 0], next := q + 1);
    NextUnused(t0);
    InstallEndInv(t0, Slot(p, i), q);
    InstalledEnd(t0, Slot(p, i), q);
    var t1 := InstallEnd(t0, Slot(p, i), q);
    NextUnused(t1);
    InstallEndInv(t1, Slot(p, j), q);
    InstalledEnd(t1, Slot(p, j), q);
  }

  /**
   pipe succeeds exactly while two descriptors are free.  The two lowest then name the two ends of
   a new pipe; otherwise nothing changes.
   */
  lemma MakePipeInv(t: Table, p: nat)
    requires Inv(t) && p in t.procs
    ensures var (r, res) := MakePipe(t, p);
            && Inv(r) && r.procs == t.procs && KindsKept(t, r)
            && (res == TooMany <==> forall i: nat, j: nat :: FreeFd(t, p, i) && FreeFd(t, p, j) ==> i == j)
            && (if res == TooMany then r == t
                else
                  && res.Fds? && Lowest(t, p, 0, res.rd) && Lowest(t, p, res.rd + 1, res.wr)
                  && PipeEnds(t, r, p, res.rd, res.wr, t.next))
  {
    hide Inv, InstallEnd, Lowest, PipeEnds, FirstFree, KindsKept;
    Unchanged(t);
    var i := FirstFree(t, p, 0);
    if i < OPEN_MAX {
      assert FreeFd(t, p, i);
      var t0 := t.(pipes := t.pipes[t.next := 0], next := t.next + 1);
      InstalledEnd(t0, Slot(p, i), t.next);
      var t1 := InstallEnd(t0, Slot(p, i), t.next);
      SecondFree(t, t1, p, i, t.next + 1);
      var j := FirstFree(t1, p, i);
      if j < OPEN_MAX {
        TwoEnds(t, p, i, j);
      }
    }
  }

  lemma Unchanged(t: Table)
    ensures KindsKept(t, t)
  {
  }

  lemma {:induction false} CloneInv(t: Table, p: nat, c: nat, i: nat)
    requires Inv(t) && p != c && c in t.procs && i <= OPEN_MAX
    requires forall j :: i <= j ==> Slot(c, j) !in t.slots
    ensures var r := CloneFrom(t, p, c, i);
            && Inv(r) && r.procs == t.procs && r.files.Keys == t.files.Keys && KindsKept(t, r)
            && (forall k: Slot :: k.proc != c || k.fd < i ==> (k in r.slots <==> k in t.slots) && (k in r.slots ==> r.slots[k] == t.slots[k]))
            && (forall j :: i <= j < OPEN_MAX ==> (Slot(c, j) in r.slots <==> Slot(p, j) in t.slots) &&
                                                  (Slot(c, j) in r.slots ==> r.slots[Slot(c, j)] == t.slots[Slot(p, j)]))
    decreases OPEN_MAX - i
  {
    hide Inv;
    if i < OPEN_MAX {
      var t1 := t;
      if Slot(p, i) in t.slots {
        OpenSlot(t, Slot(p, i));
        t1 := Share(t, Slot(c, i), t.slots[Slot(p, i)]);
        ShareInv(t, Slot(c, i), t.slots[Slot(p, i)]);
      }
      CloneInv(t1, p, c, i + 1);
    }
  }

  lemma OpenSlot(t: Table, k: Slot)
    requires Inv(t) && k in t.slots
    ensures t.slots[k] in t.files && k.fd < OPEN_MAX && k.proc in t.procs
  {
    assert SlotAt(t, k);
  }

  lemma NewProcInv(t: Table, c: nat)
    requires Inv(t) && c !in t.procs
    ensures Inv(t.(procs := t.procs + {c})) && forall j :: Slot(c, j) !in t.slots
  {
    hide Holders, Ends;
    var r := t.(procs := t.procs + {c});
    forall x ensures SlotAt(r, x) { assert SlotAt(t, x); }
    forall g ensures FileAt(r, g) { assert FileAt(t, g); }
    forall p ensures PipeAt(r, p) { assert PipeAt(t, p); }
    forall j ensures Slot(c, j) !in t.slots { assert SlotAt(t, Slot(c, j)); }
  }

  /** After fork the child's table is the parent's, sharing every open file. */
  lemma ForkInv(t: Table, p: nat, c: nat)
    requires Inv(t) && p in t.procs && c !in t.procs
    ensures var r := Fork(t, p, c);
            && Inv(r) && r.procs == t.procs + {c} && r.files.Keys == t.files.Keys && KindsKept(t, r)
            && (forall j :: 0 <= j < OPEN_MAX ==> (Slot(c, j) in r.slots <==> Slot(p, j) in t.slots) &&
                                                  (Slot(c, j) in r.slots ==> r.slots[Slot(c, j)] == t.slots[Slot(p, j)]))
            && (forall k: Slot :: k.proc != c ==> (k in r.slots <==> k in t.slots) && (k in r.slots ==> r.slots[k] == t.slots[k]))
  {
    hide Inv, CloneFrom;
    NewProcInv(t, c);
    CloneInv(t.(procs := t.procs + {c}), p, c, 0);
  }

  lemma {:induction false} FreeInv(t: Table, p: nat, i: nat)
    requires Inv(t) && i <= OPEN_MAX && forall j :: 0 <= j < i ==> Slot(p, j) !in t.slots
    ensures var r := FreeFrom(t, p, i);
            && Inv(r) && r.procs == t.procs && r.files.Keys <= t.files.Keys && KindsKept(t, r)
            && (forall j :: Slot(p, j) !in r.slots)
            && (forall k: Slot :: k.proc != p ==> (k in r.slots <==> k in t.slots) && (k in r.slots ==> r.slots[k] == t.slots[k]))
    decreases OPEN_MAX - i
  {
    hide Inv;
    if i < OPEN_MAX {
      var t1 := t;
      if Slot(p, i) in t.slots {
        DropInv(t, Slot(p, i));
        t1 := Drop(t, Slot(p, i));
      }
      FreeInv(t1, p, i + 1);
    } else {
      forall j ensures Slot(p, j) !in t.slots {
        if Slot(p, j) in t.slots {
          OpenSlot(t, Slot(p, j));
        }
      }
    }
  }

  lemma ExitInv(t: Table, p: nat)
    requires Inv(t)
    ensures var r := Exit(t, p);
            && Inv(r) && r.procs == t.procs - {p} && r.files.Keys <= t.files.Keys && KindsKept(t, r)
            && (forall j :: Slot(p, j) !in r.slots)
            && (forall k: Slot :: k.proc != p ==> (k in r.slots <==> k in t.slots) && (k in r.slots ==> r.slots[k] == t.slots[k]))
  {
    hide Holders, Ends, FreeFrom;
    FreeInv(t, p, 0);
    var t1, r := FreeFrom(t, p, 0), Exit(t, p);
    forall x ensures SlotAt(r, x) { assert SlotAt(t1, x); }
    forall g ensures FileAt(r, g) { assert FileAt(t1, g); }
    forall q ensures PipeAt(r, q) { assert PipeAt(t1, q); }
  }

  // ---- runs -----------------------------------------------------------------------------------

  datatype Call =
    | OpenCall(p: nat)
    | CloseCall(p: nat, fd: int)
    | DupCall(p: nat, fd: int, start: int)
    | Dup2Call(p: nat, fd: int, target: int)
    | PipeCall(p: nat)
    | ForkCall(p: nat, c: nat)
    | ExitCall(p: nat)

  /** The two calls that leave the table: dup from a negative start, and dup2 of a descriptor onto itself. */
  predicate Crashes(t: Table, c: Call) {
    match c
    case DupCall(p, fd, start) => IsOpen(t, p, fd) && start < 0
    case Dup2Call(p, fd, target) => IsOpen(t, p, fd) && fd == target
    case _ => false
  }

  /** A process makes the call, and it is not one of those two. */
  predicate Allowed(t: Table, c: Call) {
    c.p in t.procs && !Crashes(t, c) && (c.ForkCall? ==> c.c !in t.procs)
  }

  /** What the caller is told; fork and exit cannot fail in the table. */
  function Told(t: Table, c: Call): Result {
    match c
    case OpenCall(p) => Open(t, p).1
    case CloseCall(p, fd) => Close(t, p, fd).1
    case DupCall(p, fd, start) => Dup(t, p, fd, start).1
    case Dup2Call(p, fd, target) => Dup2(t, p, fd, target).1
    case PipeCall(p) => MakePipe(t, p).1
    case ForkCall(_, _) => Fd(0)
    case ExitCall(_) => Fd(0)
  }

  /** No other call crashes. */
  lemma CrashExact(t: Table, c: Call)
    requires Inv(t) && c.p in t.procs
    ensures Told(t, c) == Crash <==> Crashes(t, c)
  {
    hide Inv;
    match c
    case DupCall(p, fd, start) => DupInv(t, p, fd, start);
    case Dup2Call(p, fd, target) => Dup2Inv(t, p, fd, target);
    case _ =>
  }

  function Step(t: Table, c: Call): Table {
    match c
    case OpenCall(p) => Open(t, p).0
    case CloseCall(p, fd) => Close(t, p, fd).0
    case DupCall(p, fd, start) => Dup(t, p, fd, start).0
    case Dup2Call(p, fd, target) => Dup2(t, p, fd, target).0
    case PipeCall(p) => MakePipe(t, p).0
    case ForkCall(p, k) => Fork(t, p, k)
    case ExitCall(p) => Exit(t, p)
  }

  lemma StepInv(t: Table, c: Call)
    requires Inv(t) && Allowed(t, c)
    ensures Inv(Step(t, c))
  {
    hide Inv, Open, Close, Dup, Dup2, MakePipe, Fork, Exit;
    match c
    case OpenCall(p) => OpenInv(t, p);
    case CloseCall(p, fd) => CloseInv(t, p, fd);
    case DupCall(p, fd, start) => DupInv(t, p, fd, start);
    case Dup2Call(p, fd, target) => Dup2Inv(t, p, fd, target);
    case PipeCall(p) => MakePipeInv(t, p);
    case ForkCall(p, k) => ForkInv(t, p, k);
    case ExitCall(p) => ExitInv(t, p);
  }

  /** Before the first open no descriptor is in use. */
  ghost predicate Initial(t: Table) {
    t.slots == map[] && t.files == map[] && t.pipes == map[]
  }

  ghost predicate Possible(t: Table, run: seq<Call>)
    decreases |run|
  {
    run == [] || (Allowed(t, run[0]) && Possible(Step(t, run[0]), run[1..]))
  }

  ghost function After(t: Table, run: seq<Call>): Table
    decreases |run|
  {
    if run == [] then t else After(Step(t, run[0]), run[1..])
  }

  /** Over any run, every file counts its names in all processes and every pipe its open ends. */
  lemma {:induction false} RunInv(t: Table, run: seq<Call>)
    requires Inv(t) && Possible(t, run)
    ensures Inv(After(t, run))
    decreases |run|
  {
    hide Inv, Step, Allowed;
    if run != [] {
      StepInv(t, run[0]);
      RunInv(Step(t, run[0]), run[1..]);
    }
  }

  /** The same from empty tables on. */
  lemma FirstRun(t: Table, run: seq<Call>)
    requires Initial(t) && Possible(t, run)
    ensures Inv(After(t, run))
  {
    hide Step, Allowed;
    RunInv(t, run);
  }

  /** A close releases the file exactly when it takes away the last name, in whichever process. */
  lemma LastCloseReleases(t: Table, p: nat, fd: int)
    requires Inv(t) && IsOpen(t, p, fd)
    ensures var f := t.slots[Slot(p, fd)];
            f !in Close(t, p, fd).0.files <==> forall k :: k in t.slots && t.slots[k] == f ==> k == Slot(p, fd)
  {
    var k, f := Slot(p, fd), t.slots[Slot(p, fd)];
    assert FileAt(t, f);
    assert k in Holders(t.slots, f);
    assert (forall x :: x in t.slots && t.slots[x] == f ==> x == k) ==> Holders(t.slots, f) == {k};
    if t.files[f].refs == 1 {
      forall x | x in t.slots && t.slots[x] == f ensures x == k { OnlyHolder(t, k, x); }
    }
  }

  /** When all processes have exited no file is open. */
  lemma NothingLeft(t: Table)
    requires Inv(t) && t.procs == {}
    ensures t.files == map[]
  {
    hide Inv;
    forall f | f in t.files ensures false {
      var k := NamedBy(t, f);
    }
  }

  lemma NamedBy(t: Table, f: nat) returns (k: Slot)
    requires Inv(t) && f in t.files
    ensures k in t.slots && t.slots[k] == f && k.proc in t.procs
  {
    assert FileAt(t, f);
    k :| k in Holders(t.slots, f);
    assert SlotAt(t, k);
  }

  // ---- the tables as the kernel changes them ---------------------------------------------------

  lemma {:induction false} SameFree(t: Table, u: Table, p: nat, i: nat)
    requires i <= OPEN_MAX && t.slots == u.slots
    ensures FirstFree(t, p, i) == FirstFree(u, p, i)
    decreases OPEN_MAX - i
  {
    if i < OPEN_MAX && Slot(p, i) in t.slots {
      SameFree(t, u, p, i + 1);
    }
  }

  lemma HalfPipe(t: Table, k: Slot)
    ensures var t1 := InstallEnd(t.(pipes := t.pipes[t.next := 0], next := t.next + 1), k, t.next);
            t1.slots == t.slots[k := t.next + 1] && t.next in t1.pipes
  {
  }

  /** Both ends counted one by one make the pipe that sys_pipe writes at once. */
  lemma WholePipe(t: Table, k: Slot, l: Slot)
    ensures var q := t.next;
            var t1 := InstallEnd(t.(pipes := t.pipes[q := 0], next := q + 1), k, q);
            && q in t1.pipes
            && InstallEnd(t1, l, q) ==
               Table(t.slots[k := q + 1][l := q + 2],
                     t.files[q + 1 := File(1, PipeEnd(q))][q + 2 := File(1, PipeEnd(q))],
                     t.pipes[q := 2], t.procs, q + 3)
  {
    var q := t.next;
    assert t.pipes[q := 0][q := 1][q := 2] == t.pipes[q := 2];
  }

  class Descriptors {
    var slots: map<Slot, nat>
    var files: map<nat, File>
    var pipes: map<nat, nat>
    var procs: set<nat>
    var next: nat

    function Value(): Table
      reads this
    {
      Table(slots, files, pipes, procs, next)
    }

    /** The scan for a free descriptor. */
    method Scan(p: nat, start: nat) returns (i: nat)
      requires start <= OPEN_MAX
      ensures i == FirstFree(Value(), p, start)
    {
      i := start;
      while i < OPEN_MAX && Slot(p, i) in slots
        invariant start <= i <= OPEN_MAX && FirstFree(Value(), p, start) == FirstFree(Value(), p, i)
      {
        i := i + 1;
      }
    }

    /** The descriptor part of sys_open. */
    method OpenFile(p: nat) returns (r: Result)
      modifies this
      ensures (Value(), r) == Open(old(Value()), p)
    {
      var i := Scan(p, 0);
      if i == OPEN_MAX {
        return TooMany;
      }
      files := files[next := File(1, Plain)];
      slots := slots[Slot(p, i) := next];
      next := next + 1;
      r := Fd(i);
    }

    /** sys_close */
    method CloseFile(p: nat, fd: int) returns (r: Result)
      modifies this
      ensures (Value(), r) == Close(old(Value()), p, fd)
    {
      if !IsOpen(Value(), p, fd) {
        return BadDescriptor;
      }
      DropSlot(Slot(p, fd));
      r := Fd(0);
    }

    /** do_sys_dup; Crash stands for the accesses in front of the table. */
    method DupFile(p: nat, fd: int, start: int) returns (r: Result)
      modifies this
      ensures (Value(), r) == Dup(old(Value()), p, fd, start)
    {
      if !IsOpen(Value(), p, fd) {
        return BadDescriptor;
      }
      if start < 0 {
        return Crash;
      }
      if start > OPEN_MAX {
        return TooMany;
      }
      var i := Scan(p, start);
      if i == OPEN_MAX {
        return TooMany;
      }
      ShareSlot(Slot(p, i), slots[Slot(p, fd)]);
      r := Fd(i);
    }

    method ShareSlot(k: Slot, f: nat)
      requires f in files
      modifies this`slots, this`files
      ensures Value() == Share(old(Value()), k, f)
    {
      files := files[f := files[f].(refs := files[f].refs + 1)];
      slots := slots[k := f];
    }

    /** sys_dup2; Crash stands for the access through a descriptor that was just closed. */
    method Dup2File(p: nat, fd: int, target: int) returns (r: Result)
      modifies this
      ensures (Value(), r) == Dup2(old(Value()), p, fd, target)
    {
      hide Close, Share;
      if !IsOpen(Value(), p, fd) || !(0 <= target < OPEN_MAX) {
        return BadDescriptor;
      }
      var c := CloseFile(p, target);
      if !IsOpen(Value(), p, fd) {
        return Crash;
      }
      ShareSlot(Slot(p, target), slots[Slot(p, fd)]);
      r := Fd(target);
    }

    /** sys_pipe: if the second descriptor is missing the first slot is cleared again. */
    method PipePair(p: nat) returns (r: Result)
      requires Inv(Value())
      modifies this
      ensures (Value(), r) == MakePipe(old(Value()), p)
    {
      hide Holders, Ends, Inv, InstallEnd, FirstFree;
      ghost var t := Value();
      var i := Scan(p, 0);
      if i == OPEN_MAX {
        return TooMany;
      }
      ghost var t1 := InstallEnd(t.(pipes := t.pipes[next := 0], next := next + 1), Slot(p, i), next);
      HalfPipe(t, Slot(p, i));
      slots := slots[Slot(p, i) := next + 1];
      var j := Scan(p, i);
      SameFree(Value(), t1, p, i);
      if j == OPEN_MAX {
        slots := slots - {Slot(p, i)};
        assert slots == t.slots;
        return TooMany;
      }
      pipes := pipes[next := 2];
      files := files[next + 1 := File(1, PipeEnd(next))][next + 2 := File(1, PipeEnd(next))];
      slots := slots[Slot(p, j) := next + 2];
      next := next + 3;
      WholePipe(t, Slot(p, i), Slot(p, j));
      r := Fds(i, j);
    }

    method DropSlot(k: Slot)
      requires k in slots && slots[k] in files
      modifies this
      ensures Value() == Drop(old(Value()), k)
    {
      var f := slots[k];
      slots := slots - {k};
      if files[f].refs <= 1 {
        var kind := files[f].kind;
        files := files - {f};
        if kind.PipeEnd? && kind.pipe in pipes && pipes[kind.pipe] > 0 {
          pipes := pipes[kind.pipe := pipes[kind.pipe] - 1];
        }
      } else {
        files := files[f := files[f].(refs := files[f].refs - 1)];
      }
    }

    /** vfs_clone */
    method CloneTable(p: nat, c: nat)
      modifies this
      ensures Value() == Fork(old(Value()), p, c)
    {
      hide CloneFrom;
      procs := procs + {c};
      var i := 0;
      while i < OPEN_MAX
        invariant i <= OPEN_MAX && CloneFrom(Value(), p, c, i) == Fork(old(Value()), p, c)
      {
        CloneRound(Value(), p, c, i);
        if Slot(p, i) in slots && slots[Slot(p, i)] in files {
          var f := slots[Slot(p, i)];
          files := files[f := files[f].(refs := files[f].refs + 1)];
          slots := slots[Slot(c, i) := f];
        }
        i := i + 1;
      }
      CloneRound(Value(), p, c, i);
    }

    /** vfs_free */
    method FreeTable(p: nat)
      modifies this
      ensures Value() == Exit(old(Value()), p)
    {
      hide FreeFrom, Drop;
      var i := 0;
      while i < OPEN_MAX
        invariant i <= OPEN_MAX && FreeFrom(Value(), p, i) == FreeFrom(old(Value()), p, 0)
      {
        FreeRound(Value(), p, i);
        if Slot(p, i) in slots && slots[Slot(p, i)] in files {
          DropSlot(Slot(p, i));
        }
        i := i + 1;
      }
      FreeRound(Value(), p, i);
      procs := procs - {p};
    }
  }
}
